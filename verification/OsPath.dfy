/** Conversion between io/fs paths and operating system paths, for a file system that may be
    confined to a root directory and a volume. */
module OsPath {
  import opened Paths
  import opened Wrappers

  /** root is "" or what Sub has joined together; volume is "" or what SubVolume set. */
  datatype FS = FS(root: string, volume: string)

  function VolumeName(fs: FS, windows: bool): string {
    if windows && fs.volume == "" then "C:" else fs.volume
  }

  function Replaced(s: string, a: char, b: char): string {
    seq(|s|, i requires 0 <= i < |s| => if s[i] == a then b else s[i])
  }

  function FromSeparator(sep: char, s: string): string {
    if sep == '/' then s else Replaced(s, '/', sep)
  }

  function ToSeparator(sep: char, s: string): string {
    if sep == '/' then s else Replaced(s, sep, '/')
  }

  function TrimRight(s: string, c: char): string
    decreases |s|
  {
    if s != "" && s[|s| - 1] == c then TrimRight(s[..|s| - 1], c) else s
  }

  function TrimLeft(s: string, c: char): string
    decreases |s|
  {
    if s != "" && s[0] == c then TrimLeft(s[1..], c) else s
  }

  function JoinSepPath(sep: char, a: string, b: string): string {
    TrimRight(a, sep) + [sep] + TrimLeft(b, sep)
  }

  /** The path in the io/fs sense from the top of the volume, with a leading slash. */
  function FromTop(root: string, p: string): string {
    Join(["/", root, p])
  }

  function ToOSPath(fs: FS, windows: bool, sep: char, p: string): Option<string> {
    if !ValidPath(p) then None
    else Some(JoinSepPath(sep, VolumeName(fs, windows), FromSeparator(sep, FromTop(fs.root, p))))
  }

  /** The other way; `volumeOf` is the operating system's reading of a path's volume. */
  function FromOSPath(fs: FS, windows: bool, sep: char, volumeOf: string -> string, osPath: string): Option<string> {
    var volume := VolumeName(fs, windows);
    if volumeOf(osPath) != volume then None
    else FromTopPath(fs.root, ToSeparator(sep, TrimPrefix(TrimPrefix(osPath, volume), [sep])))
  }

  function FromTopPath(root: string, path: string): Option<string> {
    if root != "" && path != root && !(root + "/" <= path) then None else
      var rest := TrimPrefix(TrimPrefix(path, root), "/");
      Some(if rest == "" then "." else rest)
  }

  function Sub(fs: FS, dir: string): Option<FS> {
    if ValidPath(dir) then Some(fs.(root := Join([fs.root, dir]))) else None
  }

  /** Only valid paths are converted, and only a valid directory has a file system of its own; on Windows
      the volume is C: unless another was set. */
  lemma Accepts(fs: FS, windows: bool, sep: char, p: string)
    ensures ToOSPath(fs, windows, sep, p).Some? <==> ValidPath(p)
    ensures Sub(fs, p).Some? <==> ValidPath(p)
    ensures Sub(fs, p).Some? ==> Sub(fs, p).value.volume == fs.volume
    ensures VolumeName(fs, windows) == (if fs.volume != "" then fs.volume else if windows then "C:" else "")
  {
  }

  // ---------- what is inside the operating system path ----------

  predicate RootOk(root: string) {
    root == "" || ValidPath(root)
  }

  /** The elements of the root. */
  function RootPath(root: string): Path
    requires RootOk(root)
  {
    if root == "" then [] else Decode(root)
  }

  function Relative(p: Path): string {
    if p == [] then "" else Joined(p)
  }

  lemma JoinTop(root: string, p: string)
    requires p != ""
    ensures FromTop(root, p) == Clean("/" + "/" + root + "/" + p)
  {
    assert ["/", root, p] == ["/", root] + [p];
    JoinMore("/", root, [p]);
    assert ["/" + "/" + root] + [p] == ["/" + "/" + root, p];
    JoinTwo("/" + "/" + root, p);
  }

  lemma KeepsTop(root: string, p: string)
    requires RootOk(root) && ValidPath(p)
    ensures Keeps("/" + "/" + root + "/" + p, RootPath(root) + Decode(p))
  {
    KeepsEmpty();
    KeepsValid(p);
    if root != "" { KeepsValid(root); }
    KeepsEndSlash("", []);
    assert "" + "/" == "/";
    KeepsSlash("/", [], root, RootPath(root));
    assert [] + RootPath(root) == RootPath(root);
    KeepsSlash("/" + "/" + root, RootPath(root), p, Decode(p));
  }

  /** From the top, a path has the elements of the root and then its own. */
  lemma TopElements(root: string, p: string)
    requires RootOk(root) && ValidPath(p)
    ensures FromTop(root, p) == "/" + Relative(RootPath(root) + Decode(p))
  {
    ValidNotRooted(p);
    JoinTop(root, p);
    KeepsTop(root, p);
    CleanKept("/" + "/" + root + "/" + p);
  }

  /** Root and path as strings. */
  function Inside(root: string, p: string): string {
    if root == "" || root == "." then (if p == "." then "" else p)
    else if p == "." then root else root + "/" + p
  }

  lemma TopString(root: string, p: string)
    requires RootOk(root) && ValidPath(p)
    ensures FromTop(root, p) == "/" + Inside(root, p)
    ensures Inside(root, p) != "" ==> Inside(root, p)[0] != '/'
  {
    TopElements(root, p);
    var r, q := RootPath(root), Decode(p);
    assert Encode(q) == p;
    ValidNotRooted(p);
    if root != "" { ValidNotRooted(root); assert Encode(r) == root; }
    PiecesOfPlain(".");
    if q == [] {
      assert r + q == r;
    } else if r == [] {
      assert r + q == q;
    } else {
      JoinedConcat(r, q);
    }
    NotDot(p);
    if root != "" { NotDot(root); }
  }

  lemma NotDot(p: string)
    requires ValidPath(p)
    ensures Decode(p) == [] <==> p == "."
  {
  }

  // ---------- round trip ----------

  lemma TrimRightNone(s: string, c: char)
    requires s == "" || s[|s| - 1] != c
    ensures TrimRight(s, c) == s
  {
  }

  lemma ReplacedBack(s: string, sep: char)
    requires sep == '/' || sep !in s
    ensures ToSeparator(sep, FromSeparator(sep, s)) == s
  {
    if sep != '/' {
      var t := Replaced(s, '/', sep);
      assert forall i | 0 <= i < |s| :: s[i] in s && Replaced(t, sep, '/')[i] == s[i];
    }
  }

  lemma TrimPrefixOf(prefix: string, rest: string)
    ensures TrimPrefix(prefix + rest, prefix) == rest
  {
    assert (prefix + rest)[|prefix|..] == rest;
  }

  /** A volume that a file system can have: it ends in no separator. */
  predicate VolumeOk(volume: string, sep: char) {
    volume == "" || volume[|volume| - 1] != sep
  }

  /** No name holds the separator, other than as the slash between names. */
  predicate SeparatorFree(fs: FS, sep: char, p: string) {
    sep == '/' || (sep !in fs.root && sep !in p)
  }

  lemma OsPathForm(fs: FS, windows: bool, sep: char, p: string)
    requires RootOk(fs.root) && ValidPath(p) && VolumeOk(VolumeName(fs, windows), sep)
    ensures ToOSPath(fs, windows, sep, p) ==
            Some(VolumeName(fs, windows) + [sep] + TrimLeft(FromSeparator(sep, Inside(fs.root, p)), sep))
  {
    var x := Inside(fs.root, p);
    var volume := VolumeName(fs, windows);
    assert FromTop(fs.root, p) == "/" + x by { TopString(fs.root, p); }
    assert TrimRight(volume, sep) == volume by { TrimRightNone(volume, sep); }
    assert TrimLeft(FromSeparator(sep, "/" + x), sep) == TrimLeft(FromSeparator(sep, x), sep) by {
      LeadingSlash(sep, x);
    }
  }

  lemma LeadingSlash(sep: char, x: string)
    ensures TrimLeft(FromSeparator(sep, "/" + x), sep) == TrimLeft(FromSeparator(sep, x), sep)
  {
    var y := FromSeparator(sep, x);
    assert FromSeparator(sep, "/" + x) == [sep] + y;
    assert ([sep] + y)[1..] == y;
  }

  /** What FromOSPath reads after the volume and one separator. */
  lemma ReadAfterVolume(fs: FS, windows: bool, sep: char, volumeOf: string -> string, rest: string)
    requires volumeOf(VolumeName(fs, windows) + [sep] + rest) == VolumeName(fs, windows)
    ensures FromOSPath(fs, windows, sep, volumeOf, VolumeName(fs, windows) + [sep] + rest) ==
            FromTopPath(fs.root, ToSeparator(sep, rest))
  {
    var volume := VolumeName(fs, windows);
    assert volume + [sep] + rest == volume + ([sep] + rest);
    TrimPrefixOf(volume, [sep] + rest);
    TrimPrefixOf([sep], rest);
  }

  lemma DotPiece(p: string)
    requires "./" <= p
    ensures "." in Pieces(p)
  {
    assert p == "." + "/" + p[2..];
    PiecesConcat(".", p[2..]);
    PiecesOfPlain(".");
    assert "." in ["."];
  }

  lemma NoDotSlash(p: string)
    requires ValidPath(p)
    ensures !("./" <= p)
  {
    if "./" <= p {
      DotPiece(p);
    }
  }

  lemma InsideBack(root: string, p: string)
    requires RootOk(root) && ValidPath(p)
    ensures FromTopPath(root, Inside(root, p)) == if root == "." then None else Some(p)
  {
    ValidNotRooted(p);
    var x := Inside(root, p);
    if root == "" {
      assert TrimPrefix(x, "") == x;
    } else if root == "." {
      NoDotSlash(p);
      assert "." + "/" == "./";
    } else if p == "." {
      assert TrimPrefix(x, root) == "";
    } else {
      assert root + "/" + p == root + ("/" + p);
      TrimPrefixOf(root, "/" + p);
      TrimPrefixOf("/", p);
    }
  }

  lemma PrefixChars(s: string, t: string)
    requires s <= t
    ensures forall c | c in s :: c in t
  {
    assert s == t[..|s|];
  }

  /** With a separator in a name, what is read back is not the path. */
  lemma SeparatorLost(root: string, sep: char, p: string, rest: string)
    requires sep != '/' && sep != '.' && (sep in root || sep in p)
    ensures FromTopPath(root, ToSeparator(sep, rest)) != Some(p)
  {
    var path := ToSeparator(sep, rest);
    assert sep !in path;
    if sep in root {
      if root + "/" <= path {
        PrefixChars(root + "/", path);
      }
    } else if sep in p {
      assert forall c | c in TrimPrefix(TrimPrefix(path, root), "/") :: c in path;
    }
  }

  /** The round trip, for either separator and every volume without a trailing one: it gives the
      path back exactly when the volume is recognized, the root is not ".", and no name in the
      root or the path holds a separator other than the slash. */
  lemma RoundTrip(fs: FS, windows: bool, sep: char, volumeOf: string -> string, p: string)
    requires RootOk(fs.root) && ValidPath(p) && sep in {'/', '\\'} && VolumeOk(VolumeName(fs, windows), sep)
    ensures var osPath := ToOSPath(fs, windows, sep, p);
            osPath.Some? &&
            (FromOSPath(fs, windows, sep, volumeOf, osPath.value) == Some(p) <==>
             volumeOf(osPath.value) == VolumeName(fs, windows) && fs.root != "." && SeparatorFree(fs, sep, p))
  {
    var x := Inside(fs.root, p);
    var rest := TrimLeft(FromSeparator(sep, x), sep);
    OsPathForm(fs, windows, sep, p);
    var osPath := ToOSPath(fs, windows, sep, p).value;
    if volumeOf(osPath) == VolumeName(fs, windows) {
      ReadAfterVolume(fs, windows, sep, volumeOf, rest);
      if SeparatorFree(fs, sep, p) {
        TopString(fs.root, p);
        assert sep != '/' ==> sep !in x;
        assert x != "" ==> x[0] in x && FromSeparator(sep, x)[0] != sep;
        ReplacedBack(x, sep);
        InsideBack(fs.root, p);
      } else {
        SeparatorLost(fs.root, sep, p, rest);
      }
    }
  }

  /** So two different paths never become the same operating system path. */
  lemma ToOSPathInjective(fs: FS, windows: bool, sep: char, p: string, q: string)
    requires RootOk(fs.root) && ValidPath(p) && ValidPath(q) && sep in {'/', '\\'} &&
             VolumeOk(VolumeName(fs, windows), sep)
    requires SeparatorFree(fs, sep, p) && SeparatorFree(fs, sep, q)
    requires ToOSPath(fs, windows, sep, p) == ToOSPath(fs, windows, sep, q)
    ensures p == q
  {
    var top := FS("", fs.volume);
    var rooted := if fs.root == "." then top else fs;
    OsPathForm(fs, windows, sep, p);
    OsPathForm(fs, windows, sep, q);
    OsPathForm(rooted, windows, sep, p);
    OsPathForm(rooted, windows, sep, q);
    RoundTrip(rooted, windows, sep, s => VolumeName(fs, windows), p);
    RoundTrip(rooted, windows, sep, s => VolumeName(fs, windows), q);
  }

  // ---------- paths that the root does not hold ----------

  /** A path from the top of the volume is refused exactly when it is not at or under the root, and
      otherwise reads as what is left of it there. */
  lemma ReadUnderRoot(root: string, path: string)
    requires RootOk(root) && root != "." && ValidPath(path) && path != "."
    ensures var r := FromTopPath(root, path);
            if RootPath(root) <= Decode(path)
            then r.Some? && ValidPath(r.value) && Decode(r.value) == Decode(path)[|RootPath(root)|..]
            else r == None
  {
    ValidNotRooted(path);
    if root == "" {
      assert TrimPrefix(path, "") == path;
      assert Decode(path)[0..] == Decode(path);
    } else {
      AtOrUnder(root, path);
      if path == root {
        assert TrimPrefix(path, root) == "";
        assert Decode(path)[|Decode(root)|..] == [] == Decode(".");
      } else if root + "/" <= path {
        RestUnderRoot(root, path);
      }
    }
  }

  lemma RestUnderRoot(root: string, path: string)
    requires ValidPath(root) && root != "." && ValidPath(path) && root + "/" <= path && Decode(root) <= Decode(path)
    ensures var r := FromTopPath(root, path);
            r.Some? && ValidPath(r.value) && Decode(r.value) == Decode(path)[|Decode(root)|..]
  {
    var rest := path[|root| + 1..];
    CoveredRest(root, path);
    ValidNotRooted(rest);
    CutRoot(root, path, rest);
    RestOf(Decode(root), Decode(rest));
  }

  lemma RestOf(a: Path, b: Path)
    ensures (a + b)[|a|..] == b
  {
  }

  lemma CutRoot(root: string, path: string, rest: string)
    requires root + "/" <= path && rest == path[|root| + 1..] && rest != ""
    ensures FromTopPath(root, path) == Some(rest)
  {
    assert path == root + ("/" + rest);
    TrimPrefixOf(root, "/" + rest);
    TrimPrefixOf("/", rest);
  }

  /** The top of the volume is refused by every root; root "." refuses every path but ".". */
  lemma ReadTop(root: string, path: string)
    ensures FromTopPath(root, "") == if root == "" then Some(".") else None
    ensures ValidPath(path) ==> FromTopPath(".", path) == if path == "." then Some(".") else None
  {
    if root == "" { assert TrimPrefix("", "") == ""; }
    if ValidPath(path) {
      NoDotSlash(path);
      assert "." + "/" == "./";
      assert TrimPrefix(".", ".") == "";
    }
  }

  /** So an operating system path is read exactly when it is on the volume and at or under the root. */
  lemma FromOSPathIff(fs: FS, windows: bool, sep: char, volumeOf: string -> string, path: string)
    requires RootOk(fs.root) && fs.root != "." && ValidPath(path) && path != "." && (sep == '/' || sep !in path)
    ensures var volume := VolumeName(fs, windows);
            var osPath := volume + [sep] + FromSeparator(sep, path);
            var r := FromOSPath(fs, windows, sep, volumeOf, osPath);
            if volumeOf(osPath) == volume && RootPath(fs.root) <= Decode(path)
            then r.Some? && ValidPath(r.value) && Decode(r.value) == Decode(path)[|RootPath(fs.root)|..]
            else r == None
  {
    var rest := FromSeparator(sep, path);
    if volumeOf(VolumeName(fs, windows) + [sep] + rest) == VolumeName(fs, windows) {
      ReadAfterVolume(fs, windows, sep, volumeOf, rest);
      ReplacedBack(path, sep);
      ReadUnderRoot(fs.root, path);
    }
  }

  // ---------- sub file systems ----------

  lemma JoinThree(a: string, b: string, p: string)
    requires ValidPath(a) && ValidPath(b) && ValidPath(p)
    ensures Join([a, b, p]) == Join([Join([a, b]), p])
  {
    ValidNotRooted(a);
    JoinValid(a, b);
    JoinValid(Join([a, b]), p);
    assert [a, b, p] == [a, b] + [p];
    JoinMore(a, b, [p]);
    assert [a + "/" + b] + [p] == [a + "/" + b, p];
    JoinTwo(a + "/" + b, p);
    CleanThree(a, b, p);
    assert Encode(Decode(Join([Join([a, b]), p]))) == Join([Join([a, b]), p]);
  }

  lemma CleanThree(a: string, b: string, p: string)
    requires ValidPath(a) && ValidPath(b) && ValidPath(p)
    ensures Clean(a + "/" + b + "/" + p) == Encode(Decode(a) + Decode(b) + Decode(p))
  {
    KeepsValid(a);
    KeepsValid(b);
    KeepsValid(p);
    KeepsSlash(a, Decode(a), b, Decode(b));
    KeepsSlash(a + "/" + b, Decode(a) + Decode(b), p, Decode(p));
    ValidNotRooted(a);
    assert (a + "/" + b + "/" + p)[0] == a[0];
    CleanKeeps(a + "/" + b + "/" + p, Decode(a) + Decode(b) + Decode(p));
  }

  /** A path under nested sub file systems is the joined path under the file system itself. */
  lemma SubComposes(fs: FS, windows: bool, sep: char, a: string, b: string, p: string)
    requires fs.root == "" && ValidPath(a) && ValidPath(b)
    ensures ValidPath(p) ==>
              ToOSPath(fs.(root := Join([a, b])), windows, sep, p) == ToOSPath(fs, windows, sep, Join([a, b, p]))
    ensures !ValidPath(p) ==> ToOSPath(fs.(root := Join([a, b])), windows, sep, p) == None
  {
    if ValidPath(p) {
      JoinValid(a, b);
      JoinThree(a, b, p);
      JoinValid(Join([a, b]), p);
      TopElements(Join([a, b]), p);
      TopElements("", Join([a, b, p]));
      ValidNotRooted(Join([a, b]));
      assert [] + Decode(Join([a, b, p])) == Decode(Join([a, b, p]));
    }
  }

  /** Sub keeps the root of the form that the conversions expect; from the top, Sub(".") makes the
      one root whose operating system paths cannot be read back. */
  lemma SubRoot(fs: FS, dir: string)
    requires RootOk(fs.root) && ValidPath(dir)
    ensures Sub(fs, dir).Some? && ValidPath(Sub(fs, dir).value.root)
    ensures Decode(Sub(fs, dir).value.root) == RootPath(fs.root) + Decode(dir)
    ensures Sub(fs, dir).value.root == "." <==> fs.root in {"", "."} && dir == "."
  {
    var joined := Join([fs.root, dir]);
    ValidNotRooted(dir);
    if fs.root == "" {
      assert dir in ["", dir];
      assert ["", dir][1..] == [dir] && [dir][1..] == [];
      assert "" + dir == dir;
      assert JoinRaw(["", dir], "") == JoinRaw([dir], "");
      assert JoinRaw([dir], "") == JoinRaw([], dir);
      CleanValid(dir);
      assert [] + Decode(dir) == Decode(dir);
    } else {
      JoinValid(fs.root, dir);
      NotDot(fs.root);
    }
    NotDot(dir);
    NotDot(joined);
  }
}
