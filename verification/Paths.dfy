/** Slash-separated path names, as Go's io/fs and path packages define them, and their
    reading as sequences of path elements.  The file systems store flat strings; every
    proof about trees is done on element sequences.  The bridge between the two is here. */
module Paths {
  /** A path as the sequence of its elements; the root "." is the empty sequence. */
  type Path = seq<string>

  predicate IsName(c: string) {
    c != "" && c != "." && c != ".." && '/' !in c
  }

  ghost predicate IsPath(p: Path) {
    forall c | c in p :: IsName(c)
  }

  /** Of two prefixes of one path, one is a prefix of the other. */
  lemma PrefixesCompare(a: Path, b: Path, c: Path)
    requires a <= c && b <= c
    ensures a <= b || b <= a
  {
    if |a| <= |b| {
      assert a == b[..|a|];
    } else {
      assert b == a[..|b|];
    }
  }

  // ---------- splitting at slashes and joining ----------

  /** Index of the first slash, or the length if there is none. */
  function FirstSlash(s: string): (i: nat)
    ensures i <= |s| && '/' !in s[..i]
    ensures i < |s| ==> s[i] == '/'
  {
    if s == "" || s[0] == '/' then 0 else
      var i := FirstSlash(s[1..]) + 1;
      assert s[..i] == [s[0]] + s[1..][..i - 1];
      i
  }

  /** The pieces of s between slashes: at least one piece, none holding a slash. */
  function Pieces(s: string): (r: seq<string>)
    ensures r != [] && forall c | c in r :: '/' !in c
    ensures Joined(r) == s
    decreases |s|
  {
    var i := FirstSlash(s);
    if i == |s| then
      assert s[..i] == s;
      [s]
    else
      var rest := Pieces(s[i + 1..]);
      assert s == s[..i] + "/" + s[i + 1..];
      assert ([s[..i]] + rest)[1..] == rest;
      [s[..i]] + rest
  }

  function Joined(cs: seq<string>): string
    requires cs != []
  {
    if |cs| == 1 then cs[0] else cs[0] + "/" + Joined(cs[1..])
  }

  lemma FirstSlashAt(a: string, b: string)
    requires '/' !in a
    ensures FirstSlash(a + "/" + b) == |a|
  {
    var s := a + "/" + b;
    assert s[|a|] == '/';
    assert forall k | 0 <= k < |a| :: s[k] == a[k] && a[k] in a;
    var i := FirstSlash(s);
    assert forall k | 0 <= k < i :: s[k] == s[..i][k] && s[..i][k] in s[..i];
  }

  lemma {:induction false} PiecesOfJoined(cs: seq<string>)
    requires cs != [] && forall c | c in cs :: '/' !in c
    ensures Pieces(Joined(cs)) == cs
  {
    var s := Joined(cs);
    if |cs| == 1 {
      assert cs[0] in cs;
      assert FirstSlash(s) == |s|;
    } else {
      var rest := Joined(cs[1..]);
      FirstSlashAt(cs[0], rest);
      assert s[..|cs[0]|] == cs[0];
      assert s[|cs[0]| + 1..] == rest;
      PiecesOfJoined(cs[1..]);
    }
  }

  lemma {:induction false} JoinedConcat(xs: seq<string>, ys: seq<string>)
    requires xs != [] && ys != []
    ensures Joined(xs + ys) == Joined(xs) + "/" + Joined(ys)
  {
    if |xs| == 1 {
      assert (xs + ys)[1..] == ys;
    } else {
      assert (xs + ys)[1..] == xs[1..] + ys;
      JoinedConcat(xs[1..], ys);
      assert Joined(xs + ys) == xs[0] + "/" + (Joined(xs[1..]) + "/" + Joined(ys));
      assert Joined(xs) + "/" + Joined(ys) == xs[0] + "/" + Joined(xs[1..]) + "/" + Joined(ys);
    }
  }

  /** Putting a slash between two strings concatenates their pieces. */
  lemma PiecesConcat(a: string, b: string)
    ensures Pieces(a + "/" + b) == Pieces(a) + Pieces(b)
  {
    JoinedConcat(Pieces(a), Pieces(b));
    PiecesOfJoined(Pieces(a) + Pieces(b));
  }

  lemma PiecesOfPlain(s: string)
    requires '/' !in s
    ensures Pieces(s) == [s]
  {
    PiecesOfJoined([s]);
  }

  // ---------- valid paths ----------

  /** io/fs.ValidPath: the root ".", or elements that are neither empty, "." nor "..". */
  predicate ValidPath(s: string) {
    s == "." || forall c | c in Pieces(s) :: IsName(c)
  }

  function Decode(s: string): (p: Path)
    requires ValidPath(s)
    ensures IsPath(p) && Encode(p) == s
  {
    if s == "." then [] else Pieces(s)
  }

  function Encode(p: Path): string {
    if p == [] then "." else Joined(p)
  }

  /** Valid strings and element sequences are in one-to-one correspondence. */
  lemma DecodeEncode(p: Path)
    requires IsPath(p)
    ensures ValidPath(Encode(p)) && Decode(Encode(p)) == p
  {
    if p != [] {
      PiecesOfJoined(p);
      PiecesOfPlain(".");
      assert p[0] in p && IsName(p[0]);
    }
  }

  // ---------- path.Clean, path.Join, path.Split, path.Dir, path.Base ----------

  /** path.Clean's element rules: drop empty and "." elements, let ".." cancel the element
      before it, and drop ".." at the top of a rooted path. */
  function Squash(cs: seq<string>, rooted: bool, acc: Path): Path
    decreases |cs|
  {
    if cs == [] then acc
    else if cs[0] == "" || cs[0] == "." then Squash(cs[1..], rooted, acc)
    else if cs[0] == ".." then
      if acc != [] && acc[|acc| - 1] != ".." then Squash(cs[1..], rooted, acc[..|acc| - 1])
      else if rooted then Squash(cs[1..], rooted, acc)
      else Squash(cs[1..], rooted, acc + [".."])
    else Squash(cs[1..], rooted, acc + [cs[0]])
  }

  function Clean(s: string): string {
    var rooted := s != "" && s[0] == '/';
    var p := Squash(Pieces(s), rooted, []);
    if rooted then "/" + (if p == [] then "" else Joined(p)) else Encode(p)
  }

  /** The string path.Join hands to Clean: leading empty elements are skipped. */
  function JoinRaw(elems: seq<string>, buf: string): string
    decreases |elems|
  {
    if elems == [] then buf
    else if buf == "" && elems[0] == "" then JoinRaw(elems[1..], buf)
    else JoinRaw(elems[1..], (if buf == "" then "" else buf + "/") + elems[0])
  }

  function Join(elems: seq<string>): string {
    if forall e | e in elems :: e == "" then "" else Clean(JoinRaw(elems, ""))
  }

  /** strings.TrimPrefix. */
  function TrimPrefix(s: string, prefix: string): string {
    if prefix <= s then s[|prefix|..] else s
  }

  /** path.Split: everything up to and including the last slash, and the rest. */
  function SplitLast(s: string): (r: (string, string))
    ensures s == r.0 + r.1 && '/' !in r.1
    ensures r.0 == "" || r.0[|r.0| - 1] == '/'
    decreases |s|
  {
    if s == "" || s[|s| - 1] == '/' then (s, "") else
      var n := |s| - 1;
      var (d, f) := SplitLast(s[..n]);
      assert s == s[..n] + [s[n]];
      (d, f + [s[n]])
  }

  function Dir(s: string): string {
    Clean(SplitLast(s).0)
  }

  function TrimSlashes(s: string): string
    decreases |s|
  {
    if s != "" && s[|s| - 1] == '/' then TrimSlashes(s[..|s| - 1]) else s
  }

  function Base(s: string): string {
    if s == "" then "." else
      var b := SplitLast(TrimSlashes(s)).1;
      if b == "" then "/" else b
  }

  // ---------- these functions on valid paths ----------

  /** The elements that Clean keeps when no ".." occurs. */
  function Kept(cs: seq<string>): Path {
    if cs == [] then []
    else if cs[0] == "" || cs[0] == "." then Kept(cs[1..])
    else [cs[0]] + Kept(cs[1..])
  }

  ghost predicate NoDotDot(cs: seq<string>) {
    forall c | c in cs :: c != ".."
  }

  lemma {:induction false} SquashKept(cs: seq<string>, rooted: bool, acc: Path)
    requires NoDotDot(cs)
    ensures Squash(cs, rooted, acc) == acc + Kept(cs)
    decreases |cs|
  {
    if cs == [] {
      assert acc + [] == acc;
      return;
    }
    assert cs[0] in cs && forall c | c in cs[1..] :: c in cs;
    if cs[0] == "" || cs[0] == "." {
      SquashKept(cs[1..], rooted, acc);
    } else {
      SquashKept(cs[1..], rooted, acc + [cs[0]]);
      assert acc + [cs[0]] + Kept(cs[1..]) == acc + ([cs[0]] + Kept(cs[1..]));
    }
  }

  lemma {:induction false} KeptConcat(xs: seq<string>, ys: seq<string>)
    ensures Kept(xs + ys) == Kept(xs) + Kept(ys)
  {
    if xs == [] {
      assert xs + ys == ys;
    } else {
      assert (xs + ys)[1..] == xs[1..] + ys;
      KeptConcat(xs[1..], ys);
    }
  }

  lemma {:induction false} KeptPath(p: Path)
    requires IsPath(p)
    ensures Kept(p) == p && NoDotDot(p)
  {
    if p != [] {
      assert IsName(p[0]);
      KeptPath(p[1..]);
      assert p == [p[0]] + p[1..];
    }
  }

  /** Clean of a string without "..": exactly the kept elements, rooted or not. */
  lemma CleanKept(s: string)
    requires NoDotDot(Pieces(s))
    ensures var k := Kept(Pieces(s));
            Clean(s) == if s != "" && s[0] == '/' then "/" + (if k == [] then "" else Joined(k)) else Encode(k)
  {
    SquashKept(Pieces(s), s != "" && s[0] == '/', []);
    assert [] + Kept(Pieces(s)) == Kept(Pieces(s));
  }

  /** The pieces of a valid path keep exactly its elements. */
  lemma KeptOfValid(s: string)
    requires ValidPath(s)
    ensures Kept(Pieces(s)) == Decode(s) && NoDotDot(Pieces(s))
  {
    if s == "." {
      PiecesOfPlain(".");
    } else {
      KeptPath(Pieces(s));
    }
  }

  /** s has no "..", and its elements apart from empty ones and "." are k. */
  ghost predicate Keeps(s: string, k: Path) {
    NoDotDot(Pieces(s)) && Kept(Pieces(s)) == k
  }

  lemma KeepsSlash(a: string, k: Path, b: string, l: Path)
    requires Keeps(a, k) && Keeps(b, l)
    ensures Keeps(a + "/" + b, k + l)
  {
    PiecesConcat(a, b);
    KeptConcat(Pieces(a), Pieces(b));
  }

  lemma KeepsEmpty()
    ensures Keeps("", [])
  {
    PiecesOfPlain("");
    assert Kept([""]) == Kept([""][1..]);
  }

  lemma KeepsValid(s: string)
    requires ValidPath(s)
    ensures Keeps(s, Decode(s))
  {
    KeptOfValid(s);
  }

  lemma KeepsName(c: string)
    requires IsName(c)
    ensures Keeps(c, [c])
  {
    NameIsValid(c);
    KeptOfValid(c);
  }

  lemma KeepsEndSlash(s: string, k: Path)
    requires Keeps(s, k)
    ensures Keeps(s + "/", k)
  {
    KeepsEmpty();
    KeepsSlash(s, k, "", []);
    assert s + "/" + "" == s + "/" && k + [] == k;
  }

  lemma CleanKeeps(s: string, k: Path)
    requires Keeps(s, k) && s != "" && s[0] != '/'
    ensures Clean(s) == Encode(k)
  {
    CleanKept(s);
  }

  /** A leading slash shows as an empty first piece... */
  lemma FirstPiece(s: string)
    requires s == "" || s[0] == '/'
    ensures Pieces(s)[0] == ""
  {
    if s == "" {
      PiecesOfPlain("");
    } else {
      PiecesOfPlain("");
      assert s == "" + "/" + s[1..];
      PiecesConcat("", s[1..]);
    }
  }

  /** ...and a trailing one as an empty last piece. */
  lemma LastPiece(s: string)
    requires s != "" && s[|s| - 1] == '/'
    ensures Pieces(s)[|Pieces(s)| - 1] == ""
  {
    var front := s[..|s| - 1];
    assert s == front + "/" + "";
    PiecesConcat(front, "");
    PiecesOfPlain("");
  }

  lemma ValidNotRooted(s: string)
    requires ValidPath(s)
    ensures s != "" && s[0] != '/' && s[|s| - 1] != '/'
  {
    var cs := Pieces(s);
    assert cs[0] in cs && cs[|cs| - 1] in cs;
    if s == "" || s[0] == '/' {
      FirstPiece(s);
    } else if s[|s| - 1] == '/' {
      LastPiece(s);
    }
  }

  lemma CleanValid(s: string)
    requires ValidPath(s)
    ensures Clean(s) == s
  {
    KeptOfValid(s);
    CleanKept(s);
    ValidNotRooted(s);
  }

  /** Two decompositions at a last slash: neither directory part is longer. */
  lemma SplitNotLonger(s: string, d: string, f: string, e: string, g: string)
    requires s == d + f && '/' !in f
    requires s == e + g && (e == "" || e[|e| - 1] == '/')
    ensures |e| <= |d|
  {
    assert e != "" ==> s[|e| - 1] == '/';
    assert forall k | |d| <= k < |s| :: s[k] == f[k - |d|];
    assert forall k | 0 <= k < |f| :: f[k] != '/';
  }

  /** The decomposition at the last slash is unique. */
  lemma SplitUnique(s: string, d: string, f: string)
    requires s == d + f && '/' !in f && (d == "" || d[|d| - 1] == '/')
    ensures SplitLast(s) == (d, f)
  {
    var (e, g) := SplitLast(s);
    SplitNotLonger(s, d, f, e, g);
    SplitNotLonger(s, e, g, d, f);
    assert d == s[..|d|] && e == s[..|e|] && f == s[|d|..] && g == s[|e|..];
  }

  /** A valid path splits into its parent (with a slash, or nothing) and its last element. */
  lemma SplitValid(s: string)
    requires ValidPath(s)
    ensures var p := Decode(s);
            SplitLast(s) == if p == [] then ("", ".") else
                              (if |p| == 1 then "" else Joined(p[..|p| - 1]) + "/", p[|p| - 1])
  {
    var p := Decode(s);
    if p == [] {
      SplitUnique(s, "", ".");
    } else if |p| == 1 {
      assert IsName(p[0]);
      SplitUnique(s, "", p[0]);
    } else {
      var n := |p| - 1;
      assert IsName(p[n]);
      assert p == p[..n] + [p[n]];
      JoinedConcat(p[..n], [p[n]]);
      SplitUnique(s, Joined(p[..n]) + "/", p[n]);
    }
  }

  function Parent(p: Path): Path {
    if p == [] then [] else p[..|p| - 1]
  }

  /** path.Dir of a valid path is the parent path. */
  lemma DirValid(s: string)
    requires ValidPath(s)
    ensures ValidPath(Dir(s)) && Decode(Dir(s)) == Parent(Decode(s))
  {
    var p := Decode(s);
    SplitValid(s);
    DecodeEncode(Parent(p));
    if |p| <= 1 {
      KeepsEmpty();
      CleanKept("");
    } else {
      var d := Joined(p[..|p| - 1]);
      assert d == Encode(Parent(p));
      KeepsValid(d);
      KeepsEndSlash(d, Parent(p));
      ValidNotRooted(d);
      CleanKeeps(d + "/", Parent(p));
    }
  }

  /** path.Base of a valid path is its last element, or "." for the root. */
  lemma BaseValid(s: string)
    requires ValidPath(s)
    ensures var p := Decode(s); Base(s) == if p == [] then "." else p[|p| - 1]
  {
    ValidNotRooted(s);
    SplitValid(s);
    var p := Decode(s);
    if p != [] { assert IsName(p[|p| - 1]); }
  }

  lemma JoinTwo(a: string, b: string)
    requires a != ""
    ensures Join([a, b]) == Clean(a + "/" + b)
  {
    assert a in [a, b];
    assert [a, b][1..] == [b] && [b][1..] == [];
    assert "" + a == a;
    assert JoinRaw([a, b], "") == JoinRaw([b], a);
    assert JoinRaw([b], a) == JoinRaw([], a + "/" + b);
  }

  /** Joining more than two elements goes from the left. */
  lemma JoinMore(a: string, b: string, rest: seq<string>)
    requires a != ""
    ensures Join([a, b] + rest) == Join([a + "/" + b] + rest)
  {
    var elems, shorter := [a, b] + rest, [a + "/" + b] + rest;
    assert elems[0] in elems && shorter[0] in shorter;
    assert elems[1..] == [b] + rest && ([b] + rest)[1..] == rest && shorter[1..] == rest;
    assert "" + a == a && "" + (a + "/" + b) == a + "/" + b;
    assert JoinRaw(elems, "") == JoinRaw([b] + rest, a);
    assert JoinRaw([b] + rest, a) == JoinRaw(rest, a + "/" + b);
    assert JoinRaw(shorter, "") == JoinRaw(rest, a + "/" + b);
  }

  /** Clean of two valid paths with a slash between them appends their elements. */
  lemma CleanConcat(a: string, b: string)
    requires ValidPath(a) && ValidPath(b)
    ensures Clean(a + "/" + b) == Encode(Decode(a) + Decode(b))
  {
    ValidNotRooted(a);
    KeepsValid(a);
    KeepsValid(b);
    KeepsSlash(a, Decode(a), b, Decode(b));
    assert (a + "/" + b)[0] == a[0];
    CleanKeeps(a + "/" + b, Decode(a) + Decode(b));
  }

  /** path.Join of a valid path and a valid relative path appends their elements. */
  lemma JoinValid(a: string, b: string)
    requires ValidPath(a) && ValidPath(b)
    ensures ValidPath(Join([a, b])) && Decode(Join([a, b])) == Decode(a) + Decode(b)
  {
    ValidNotRooted(a);
    JoinTwo(a, b);
    CleanConcat(a, b);
    DecodeEncode(Decode(a) + Decode(b));
  }

  lemma NameIsValid(c: string)
    requires IsName(c)
    ensures ValidPath(c) && Decode(c) == [c]
  {
    PiecesOfPlain(c);
  }

  /** Below a path, cutting the path and the slash off leaves the remaining elements. */
  lemma CoveredRest(point: string, path: string)
    requires ValidPath(point) && ValidPath(path) && point != "." && point + "/" <= path
    ensures var rest := path[|point| + 1..];
            ValidPath(rest) && rest != "." && Decode(path) == Decode(point) + Decode(rest)
  {
    var rest := path[|point| + 1..];
    assert path == point + "/" + rest;
    PiecesConcat(point, rest);
    PiecesOfPlain(".");
    assert |Pieces(path)| >= 2;
    assert forall c | c in Pieces(rest) :: c in Pieces(path);
    assert Pieces(rest)[0] in Pieces(rest) && IsName(Pieces(rest)[0]);
  }

  /** Being a path or starting with it and a slash is being at or under it. */
  lemma AtOrUnder(point: string, path: string)
    requires ValidPath(point) && ValidPath(path) && point != "."
    ensures path == point || point + "/" <= path <==> Decode(point) <= Decode(path)
  {
    var m, p := Decode(point), Decode(path);
    assert Encode(m) == point && Encode(p) == path;
    if point + "/" <= path {
      CoveredRest(point, path);
    }
    if m <= p && m != p {
      var rest := p[|m|..];
      assert p == m + rest;
      JoinedConcat(m, rest);
    }
  }
}
