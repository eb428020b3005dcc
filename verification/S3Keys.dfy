/** The object keys under which the S3 example store keeps the records of a file system: a file
    beside its directory's other entries, a directory as an entry of its own inside it. */
module S3Keys {
  import KeyValue
  import opened Paths
  import opened Wrappers

  const ROOT_PATH := "files"
  const FILE_PREFIX := "file-"
  const DIR_META_NAME := "dir-meta"

  function FileToObjectKey(p: string, isDir: bool): string {
    var (dir, file) := SplitLast(p);
    if isDir then Join([ROOT_PATH, dir, file, DIR_META_NAME]) else Join([ROOT_PATH, dir, FILE_PREFIX + file])
  }

  /** None where the original panics. */
  function ObjectKeyToFile(key: string): Option<string> {
    var cut := TrimPrefix(key, ROOT_PATH + "/");
    ReadCut(if cut != "" && cut[|cut| - 1] == '/' then Join([cut, DIR_META_NAME]) else cut)
  }

  /** Reading a key once the root path is cut off. */
  function ReadCut(s: string): Option<string> {
    var (dirPart, file) := SplitLast(Clean(s));
    var dir := Clean(dirPart);
    if FILE_PREFIX <= file then Some(Join([dir, TrimPrefix(file, FILE_PREFIX)]))
    else if file == DIR_META_NAME then Some(dir)
    else None
  }

  lemma KindsDiffer()
    ensures !(FILE_PREFIX <= DIR_META_NAME)
    ensures forall s: string :: FILE_PREFIX + s != DIR_META_NAME
  {
    assert DIR_META_NAME[0] == 'd' && FILE_PREFIX[0] == 'f';
    assert forall s: string :: (FILE_PREFIX + s)[0] == 'f';
  }

  // ---------- keys as elements ----------

  /** The elements of a key below the root path. */
  function KeyPath(q: Path, isDir: bool): Path {
    if isDir then q + [DIR_META_NAME]
    else if q == [] then [FILE_PREFIX + "."]
    else Parent(q) + [FILE_PREFIX + q[|q| - 1]]
  }

  lemma KeyPathNames(q: Path, isDir: bool)
    requires IsPath(q)
    ensures IsPath(KeyPath(q, isDir)) && IsPath([ROOT_PATH] + KeyPath(q, isDir))
  {
    if q != [] { assert IsName(q[|q| - 1]); }
  }

  /** A key's elements: the root path's name, the directory's, and the entry's. */
  lemma KeyElements(p: string, isDir: bool)
    requires ValidPath(p)
    ensures FileToObjectKey(p, isDir) == Encode([ROOT_PATH] + KeyPath(Decode(p), isDir))
  {
    if isDir {
      DirKey(p);
    } else {
      FileKey(p);
    }
  }

  /** The last element of a path, as a path; the root has none. */
  function LastOf(q: Path): Path {
    if q == [] then [] else [q[|q| - 1]]
  }

  lemma Regroup(root: string, q: Path, name: string)
    ensures [root] + Parent(q) + LastOf(q) + [name] == [root] + (q + [name])
  {
    assert Parent(q) + LastOf(q) == q;
  }

  lemma DirKey(p: string)
    requires ValidPath(p)
    ensures FileToObjectKey(p, true) == Encode([ROOT_PATH] + (Decode(p) + [DIR_META_NAME]))
  {
    var q := Decode(p);
    DirKept(p);
    LastKept(p);
    JoinFour(ROOT_PATH, SplitLast(p).0, Parent(q), SplitLast(p).1, LastOf(q), DIR_META_NAME);
    Regroup(ROOT_PATH, q, DIR_META_NAME);
  }

  lemma FileKey(p: string)
    requires ValidPath(p)
    ensures FileToObjectKey(p, false) == Encode([ROOT_PATH] + KeyPath(Decode(p), false))
  {
    var q := Decode(p);
    var name := FILE_PREFIX + SplitLast(p).1;
    DirKept(p);
    FileName(p);
    JoinThree(ROOT_PATH, SplitLast(p).0, Parent(q), name);
    Associative([ROOT_PATH], Parent(q), [name]);
  }

  lemma Associative(a: Path, b: Path, c: Path)
    ensures a + b + c == a + (b + c)
  {
  }

  /** The file's element of a key. */
  lemma FileName(p: string)
    requires ValidPath(p)
    ensures var q, name := Decode(p), FILE_PREFIX + SplitLast(p).1;
            IsName(name) && KeyPath(q, false) == Parent(q) + [name]
  {
    var q, file := Decode(p), SplitLast(p).1;
    SplitValid(p);
    if q != [] { assert IsName(q[|q| - 1]); }
    PrefixedName(FILE_PREFIX, file);
    assert q == [] ==> Parent(q) + [FILE_PREFIX + file] == [FILE_PREFIX + file];
  }

  lemma PrefixedName(prefix: string, file: string)
    requires |prefix| > 2 && '/' !in prefix && '/' !in file
    ensures IsName(prefix + file)
  {
    assert |prefix + file| > 2;
  }

  lemma JoinThree(root: string, dir: string, d: Path, name: string)
    requires IsName(root) && Keeps(dir, d) && IsName(name)
    ensures Join([root, dir, name]) == Encode([root] + d + [name])
  {
    var s := root + "/" + dir;
    assert [root, dir, name] == [root, dir] + [name];
    JoinMore(root, dir, [name]);
    assert [s] + [name] == [s, name];
    JoinTwo(s, name);
    assert Keeps(s + "/" + name, [root] + d + [name]) by {
      KeepsName(root);
      KeepsName(name);
      KeepsSlash(root, [root], dir, d);
      KeepsSlash(s, [root] + d, name, [name]);
    }
    StartsPlain(root, s + "/" + name);
    CleanKeeps(s + "/" + name, [root] + d + [name]);
  }

  lemma JoinFour(root: string, dir: string, d: Path, file: string, l: Path, name: string)
    requires IsName(root) && Keeps(dir, d) && Keeps(file, l) && IsName(name)
    ensures Join([root, dir, file, name]) == Encode([root] + d + l + [name])
  {
    var s := root + "/" + dir;
    assert [root, dir, file, name] == [root, dir] + [file, name];
    JoinMore(root, dir, [file, name]);
    assert [s] + [file, name] == [s, file] + [name];
    JoinMore(s, file, [name]);
    assert [s + "/" + file] + [name] == [s + "/" + file, name];
    JoinTwo(s + "/" + file, name);
    assert Keeps(s + "/" + file + "/" + name, [root] + d + l + [name]) by {
      KeepsName(root);
      KeepsName(name);
      KeepsSlash(root, [root], dir, d);
      KeepsSlash(s, [root] + d, file, l);
      KeepsSlash(s + "/" + file, [root] + d + l, name, [name]);
    }
    assert root <= s <= s + "/" + file <= s + "/" + file + "/" + name;
    StartsPlain(root, s + "/" + file + "/" + name);
    CleanKeeps(s + "/" + file + "/" + name, [root] + d + l + [name]);
  }

  lemma StartsPlain(root: string, s: string)
    requires IsName(root) && root <= s
    ensures s != "" && s[0] != '/'
  {
    assert s[0] == root[0] && root[0] in root;
  }

  lemma DirKept(p: string)
    requires ValidPath(p)
    ensures Keeps(SplitLast(p).0, Parent(Decode(p)))
  {
    SplitValid(p);
    var d := Parent(Decode(p));
    if d == [] {
      KeepsEmpty();
    } else {
      DecodeEncode(d);
      KeepsValid(Encode(d));
      KeepsEndSlash(Encode(d), d);
    }
  }

  lemma LastKept(p: string)
    requires ValidPath(p)
    ensures Keeps(SplitLast(p).1, LastOf(Decode(p)))
  {
    SplitValid(p);
    var q := Decode(p);
    if q == [] {
      KeepsValid(".");
    } else {
      assert IsName(q[|q| - 1]);
      KeepsName(q[|q| - 1]);
    }
  }

  // ---------- reading keys ----------

  /** What reading a key gives, by its elements: the file that is named last, or the directory
      holding the entry. */
  function ReadPath(k: Path): Option<Path>
    requires k != []
  {
    var last := k[|k| - 1];
    if FILE_PREFIX <= last then
      (if last == FILE_PREFIX + "." then Some(Parent(k)) else Some(Parent(k) + [last[|FILE_PREFIX|..]]))
    else if last == DIR_META_NAME then Some(Parent(k)) else None
  }

  lemma KeyCut(k: Path)
    requires IsPath(k) && k != []
    ensures Encode([ROOT_PATH] + k) == ROOT_PATH + "/" + Encode(k)
    ensures TrimPrefix(Encode([ROOT_PATH] + k), ROOT_PATH + "/") == Encode(k)
  {
    JoinedConcat([ROOT_PATH], k);
    assert Joined([ROOT_PATH]) == ROOT_PATH;
    assert (ROOT_PATH + "/" + Encode(k))[|ROOT_PATH| + 1..] == Encode(k);
  }

  lemma ReadKey(k: Path)
    requires IsPath(k) && k != []
    requires FILE_PREFIX <= k[|k| - 1] ==> k[|k| - 1] == FILE_PREFIX + "." || IsName(k[|k| - 1][|FILE_PREFIX|..])
    ensures ObjectKeyToFile(Encode([ROOT_PATH] + k)) ==
            match ReadPath(k) case None => None case Some(q) => Some(Encode(q))
  {
    KeyReadCut(k);
    ReadRelative(k);
  }

  lemma KeyParts(k: Path)
    requires IsPath(k) && k != []
    ensures var s := Encode(k);
            Clean(s) == s && SplitLast(s).1 == k[|k| - 1] &&
            Dir(s) == Encode(Parent(k)) && ValidPath(Dir(s)) && Decode(Dir(s)) == Parent(k)
  {
    var s := Encode(k);
    DecodeEncode(k);
    CleanValid(s);
    SplitValid(s);
    DirValid(s);
    assert Encode(Decode(Dir(s))) == Dir(s);
  }

  lemma ReadRelative(k: Path)
    requires IsPath(k) && k != []
    requires FILE_PREFIX <= k[|k| - 1] ==> k[|k| - 1] == FILE_PREFIX + "." || IsName(k[|k| - 1][|FILE_PREFIX|..])
    ensures ReadCut(Encode(k)) == match ReadPath(k) case None => None case Some(q) => Some(Encode(q))
  {
    var last := k[|k| - 1];
    KeyParts(k);
    if FILE_PREFIX <= last {
      ReadFile(Dir(Encode(k)), last[|FILE_PREFIX|..]);
      assert Parent(k) + [] == Parent(k);
    }
  }

  lemma ReadFile(dir: string, name: string)
    requires ValidPath(dir) && (name == "." || IsName(name))
    ensures Join([dir, name]) == Encode(Decode(dir) + if name == "." then [] else [name])
  {
    if name != "." { NameIsValid(name); }
    JoinValid(dir, name);
    assert Encode(Decode(Join([dir, name]))) == Join([dir, name]);
  }

  /** Every valid path comes back from its key, as a file and as a directory. */
  lemma RoundTrip(p: string, isDir: bool)
    requires ValidPath(p)
    ensures ObjectKeyToFile(FileToObjectKey(p, isDir)) == Some(p)
  {
    var q := Decode(p);
    KeyElements(p, isDir);
    KeyPathNames(q, isDir);
    KeyReads(q, isDir);
    ReadKey(KeyPath(q, isDir));
  }

  lemma KeyReads(q: Path, isDir: bool)
    requires IsPath(q)
    ensures var k := KeyPath(q, isDir);
            ReadPath(k) == Some(q) &&
            (FILE_PREFIX <= k[|k| - 1] ==> k[|k| - 1] == FILE_PREFIX + "." || IsName(k[|k| - 1][|FILE_PREFIX|..]))
  {
    var k := KeyPath(q, isDir);
    var last := k[|k| - 1];
    if q != [] { assert IsName(q[|q| - 1]); }
    KindsDiffer();
    assert Parent(k) == if isDir then q else Parent(q);
    if !isDir && q != [] {
      assert last[|FILE_PREFIX|..] == q[|q| - 1];
      assert Parent(q) + [q[|q| - 1]] == q;
    }
  }

  /** No two records share a key. */
  lemma KeyInjective(p: string, isDir: bool, q: string, isDir2: bool)
    requires ValidPath(p) && ValidPath(q)
    ensures FileToObjectKey(p, isDir) == FileToObjectKey(q, isDir2) <==> p == q && isDir == isDir2
  {
    if FileToObjectKey(p, isDir) == FileToObjectKey(q, isDir2) {
      RoundTrip(p, isDir);
      RoundTrip(q, isDir2);
      if isDir != isDir2 { KindsApart(p); }
    }
  }

  /** The keys of a path as a directory and as a file differ in their last element. */
  lemma KindsApart(p: string)
    requires ValidPath(p)
    ensures FileToObjectKey(p, true) != FileToObjectKey(p, false)
  {
    var a, b := [ROOT_PATH] + KeyPath(Decode(p), true), [ROOT_PATH] + KeyPath(Decode(p), false);
    KeyElements(p, true);
    KeyElements(p, false);
    KeyPathNames(Decode(p), true);
    KeyPathNames(Decode(p), false);
    assert a[|a| - 1] != b[|b| - 1] by { LastsDiffer(Decode(p)); }
    DecodeEncode(a);
    DecodeEncode(b);
  }

  lemma LastsDiffer(q: Path)
    ensures var a, b := [ROOT_PATH] + KeyPath(q, true), [ROOT_PATH] + KeyPath(q, false);
            a[|a| - 1] != b[|b| - 1]
  {
    KindsDiffer();
  }

  /** A listed prefix reads as the directory it is of... */
  lemma ListedDirectory(p: string)
    requires ValidPath(p) && p != "."
    ensures ObjectKeyToFile(ROOT_PATH + "/" + p + "/") == Some(p)
  {
    var cut, k := p + "/", Decode(p) + [DIR_META_NAME];
    assert TrimPrefix(ROOT_PATH + "/" + p + "/", ROOT_PATH + "/") == cut by {
      assert ROOT_PATH + "/" + p + "/" == ROOT_PATH + "/" + cut;
      assert (ROOT_PATH + "/" + cut)[|ROOT_PATH + "/"|..] == cut;
    }
    assert Join([cut, DIR_META_NAME]) == Encode(k) by { SlashMeta(p); }
    assert ReadCut(Encode(k)) == Some(p) by {
      KeyPathNames(Decode(p), true);
      KeyReads(Decode(p), true);
      ReadRelative(k);
      assert Encode(Decode(p)) == p;
    }
  }

  /** ...except at the root, where reading panics; none of the store's own keys is that prefix, so
      only a foreign object, one named like it, can bring it up. */
  lemma ListedRoot()
    ensures ObjectKeyToFile(ROOT_PATH + "/") == None
  {
    assert TrimPrefix(ROOT_PATH + "/", ROOT_PATH + "/") == "";
    assert Clean("") == "." by { KeepsEmpty(); CleanKept(""); }
    SplitValid(".");
  }

  /** A key under the root path, the store's own or a foreign one, panics exactly when its last element
      neither starts as a file's nor is a directory's own. */
  lemma ReadPanicsIff(k: Path)
    requires IsPath(k) && k != []
    ensures var last := k[|k| - 1];
            ObjectKeyToFile(Encode([ROOT_PATH] + k)) == None <==> !(FILE_PREFIX <= last) && last != DIR_META_NAME
  {
    KeyReadCut(k);
    CutPanicsIff(k);
  }

  lemma KeyReadCut(k: Path)
    requires IsPath(k) && k != []
    ensures ObjectKeyToFile(Encode([ROOT_PATH] + k)) == ReadCut(Encode(k))
  {
    var s := Encode(k);
    DecodeEncode(k);
    KeyCut(k);
    ValidNotRooted(s);
    assert s != "" && s[|s| - 1] != '/';
  }

  lemma CutPanicsIff(k: Path)
    requires IsPath(k) && k != []
    ensures ReadCut(Encode(k)) == None <==> !(FILE_PREFIX <= k[|k| - 1]) && k[|k| - 1] != DIR_META_NAME
  {
    KeyParts(k);
  }

  lemma SlashMeta(p: string)
    requires ValidPath(p) && p != "."
    ensures Join([p + "/", DIR_META_NAME]) == Encode(Decode(p) + [DIR_META_NAME])
  {
    var q := Decode(p);
    JoinTwo(p + "/", DIR_META_NAME);
    KeepsValid(p);
    KeepsEndSlash(p, q);
    KeepsName(DIR_META_NAME);
    KeepsSlash(p + "/", q, DIR_META_NAME, [DIR_META_NAME]);
    ValidNotRooted(p);
    assert (p + "/" + "/" + DIR_META_NAME)[0] == p[0];
    CleanKeeps(p + "/" + "/" + DIR_META_NAME, q + [DIR_META_NAME]);
  }

  // ---------- listing a directory ----------

  /** What listing p asks for: the keys that start like p's own, up to the last slash. */
  function ListPrefix(p: string): string {
    SplitLast(Clean(FileToObjectKey(p, true))).0
  }

  /** A listing returns a key whole, or cut after the next slash behind the prefix. */
  function Item(key: string, prefix: string): string
    requires prefix <= key
  {
    var rest := key[|prefix|..];
    var i := FirstSlash(rest);
    if i == |rest| then key else prefix + rest[..i] + "/"
  }

  function ListedName(item: string): Option<string> {
    match ObjectKeyToFile(item) case None => None case Some(p) => Some(Base(p))
  }

  lemma ListPrefixForm(p: string)
    requires ValidPath(p)
    ensures ListPrefix(p) == Encode([ROOT_PATH] + Decode(p)) + "/" && IsPath([ROOT_PATH] + Decode(p))
  {
    var q := Decode(p);
    var k := [ROOT_PATH] + q + [DIR_META_NAME];
    KeyElements(p, true);
    KeyPathNames(q, true);
    assert [ROOT_PATH] + KeyPath(q, true) == k;
    assert k[..|k| - 1] == [ROOT_PATH] + q;
    DecodeEncode(k);
    CleanValid(Encode(k));
    SplitValid(Encode(k));
  }

  /** Strictly extending a path is starting with it and a slash. */
  lemma BelowIff(a: Path, k: Path)
    requires IsPath(a) && IsPath(k) && a != [] && k != []
    ensures Encode(a) + "/" <= Encode(k) <==> a <= k && a != k
  {
    DecodeEncode(a);
    DecodeEncode(k);
    NotRoot(a);
    if Encode(a) + "/" <= Encode(k) {
      CoveredRest(Encode(a), Encode(k));
      assert a == k[..|a|];
    }
    if a <= k && a != k {
      SplitBelow(a, k);
    }
  }

  lemma NotRoot(a: Path)
    requires IsPath(a) && a != []
    ensures Encode(a) != "."
  {
    DecodeEncode(a);
  }

  lemma SplitBelow(a: Path, k: Path)
    requires a <= k && a != k && a != []
    ensures k[|a|..] != [] && k == a + k[|a|..] && Encode(k) == Encode(a) + "/" + Joined(k[|a|..])
  {
    assert k == a + k[|a|..];
    JoinedConcat(a, k[|a|..]);
  }

  ghost predicate Under(p: Path, q: Path, isDir: bool) {
    (isDir && p == q) || (p <= q && p != q) || (p == [] && q == [])
  }

  lemma KeyBelow(p: Path, q: Path, isDir: bool)
    ensures var a, k := [ROOT_PATH] + p, [ROOT_PATH] + KeyPath(q, isDir);
            a <= k && a != k <==> Under(p, q, isDir)
  {
    var a, k, e := [ROOT_PATH] + p, [ROOT_PATH] + KeyPath(q, isDir), KeyPath(q, isDir);
    assert a <= k <==> p <= e by {
      if p <= e { assert e[..|p|] == p; assert k[..|a|] == a; }
      if a <= k { assert k[..|a|] == a; assert e[..|p|] == k[1..][..|p|] == a[1..] == p; }
    }
    assert a == k <==> p == e by { assert a[1..] == p && k[1..] == e; }
    var d := if isDir then q else Parent(q);
    assert e[..|e| - 1] == d;
    if p <= e && p != e { assert p == e[..|p|] == d[..|p|]; assert p <= q by { assert p == q[..|p|]; } }
    if Under(p, q, isDir) { assert |p| <= |d| && p == d[..|p|] == e[..|p|]; }
  }

  /** The keys that a listing of p finds are those of p itself and of everything under it. */
  lemma ListedIff(p: string, q: string, isDir: bool)
    requires ValidPath(p) && ValidPath(q)
    ensures ListPrefix(p) <= FileToObjectKey(q, isDir) <==> Under(Decode(p), Decode(q), isDir)
  {
    ListPrefixForm(p);
    KeyElements(q, isDir);
    KeyPathNames(Decode(q), isDir);
    BelowIff([ROOT_PATH] + Decode(p), [ROOT_PATH] + KeyPath(Decode(q), isDir));
    KeyBelow(Decode(p), Decode(q), isDir);
  }

  /** The key of a path below p, and what p's listing makes of it. */
  lemma ItemBelow(p: string, q: string, isDir: bool)
    requires ValidPath(p) && ValidPath(q) && Decode(p) <= Decode(q) && p != q
    ensures |Decode(p)| < |Decode(q)| && ListPrefix(p) <= FileToObjectKey(q, isDir)
    ensures Item(FileToObjectKey(q, isDir), ListPrefix(p)) ==
            if !isDir && |Decode(q)| == |Decode(p)| + 1 then FileToObjectKey(q, false)
            else Encode([ROOT_PATH] + Decode(p)) + "/" + Decode(q)[|Decode(p)|] + "/"
  {
    var x, y := Decode(p), Decode(q);
    var a, k := [ROOT_PATH] + x, [ROOT_PATH] + KeyPath(y, isDir);
    assert x != y by { assert Encode(x) == p && Encode(y) == q; }
    NextInKey(x, y, isDir);
    ListedIff(p, q, isDir);
    assert ListPrefix(p) == Encode(a) + "/" by { ListPrefixForm(p); }
    assert FileToObjectKey(q, isDir) == Encode(k) by { KeyElements(q, isDir); }
    assert IsPath(k) by { KeyPathNames(y, isDir); }
    ItemForm(a, k);
    assert |k| == |a| + 1 <==> !isDir && |y| == |x| + 1 by { KeyLength(y, isDir); }
  }

  lemma KeyLength(q: Path, isDir: bool)
    ensures |KeyPath(q, isDir)| == if isDir then |q| + 1 else if q == [] then 1 else |q|
  {
  }

  /** What a listing of p returns for the record of a path under it names the path's next element:
      the listed names are the names of p's children, each for itself and all under it. */
  lemma ListedChild(p: string, q: string, isDir: bool)
    requires ValidPath(p) && ValidPath(q) && Decode(p) <= Decode(q) && p != q
    ensures ListPrefix(p) <= FileToObjectKey(q, isDir)
    ensures |Decode(p)| < |Decode(q)|
    ensures ListedName(Item(FileToObjectKey(q, isDir), ListPrefix(p))) == Some(Decode(q)[|Decode(p)|])
  {
    ItemBelow(p, q, isDir);
    var c := Decode(q)[|Decode(p)|];
    if !isDir && |Decode(q)| == |Decode(p)| + 1 {
      RoundTrip(q, false);
      BaseValid(q);
    } else {
      assert c in Decode(q) && IsName(c);
      PrefixItem(Decode(p), c);
    }
  }

  /** Below a path, a key goes on with the next element, unless it is of a file right there. */
  lemma NextInKey(x: Path, y: Path, isDir: bool)
    requires x <= y && x != y
    ensures var a, k := [ROOT_PATH] + x, [ROOT_PATH] + KeyPath(y, isDir);
            a <= k && a != k &&
            if |k| == |a| + 1 then !isDir && |y| == |x| + 1 else k[|a|..][0] == y[|x|]
  {
    KeyBelow(x, y, isDir);
    assert Under(x, y, isDir);
  }

  lemma PrefixItem(x: Path, c: string)
    requires IsPath(x) && IsName(c)
    ensures ListedName(Encode([ROOT_PATH] + x) + "/" + c + "/") == Some(c)
  {
    var child := x + [c];
    DecodeEncode(child);
    NotRoot(child);
    ItemOfChild(x, c);
    ListedDirectory(Encode(child));
    BaseValid(Encode(child));
  }

  lemma ItemOfChild(x: Path, c: string)
    ensures Encode([ROOT_PATH] + x) + "/" + c == ROOT_PATH + "/" + Encode(x + [c])
  {
    JoinedConcat([ROOT_PATH] + x, [c]);
    JoinedConcat([ROOT_PATH], x + [c]);
    assert [ROOT_PATH] + x + [c] == [ROOT_PATH] + (x + [c]);
    assert Joined([ROOT_PATH]) == ROOT_PATH && Joined([c]) == c;
  }

  lemma ItemForm(a: Path, k: Path)
    requires a <= k && a != k && a != [] && IsPath(k) && Encode(a) + "/" <= Encode(k)
    ensures var e := k[|a|..];
            Item(Encode(k), Encode(a) + "/") == if |e| == 1 then Encode(k) else Encode(a) + "/" + e[0] + "/"
  {
    SplitBelow(a, k);
    var e := k[|a|..];
    var prefix := Encode(a) + "/";
    assert Encode(k)[|prefix|..] == Joined(e);
    assert e[0] in k && IsName(e[0]);
    if |e| == 1 {
      assert FirstSlash(e[0]) == |e[0]|;
    } else {
      FirstSlashAt(e[0], Joined(e[1..]));
      assert Joined(e)[..|e[0]|] == e[0];
    }
  }

  /** The item a path below p makes in p's listing: by its next element, and whether it is a file
      right there. */
  function ItemOf(p: string, c: string, direct: bool): string {
    ListPrefix(p) + if direct then FILE_PREFIX + c else c + "/"
  }

  lemma ItemOfBelow(p: string, q: string, isDir: bool)
    requires ValidPath(p) && ValidPath(q) && Decode(p) <= Decode(q) && p != q
    ensures |Decode(p)| < |Decode(q)| && ListPrefix(p) <= FileToObjectKey(q, isDir)
    ensures Item(FileToObjectKey(q, isDir), ListPrefix(p)) ==
            ItemOf(p, Decode(q)[|Decode(p)|], !isDir && |Decode(q)| == |Decode(p)| + 1)
  {
    ItemBelow(p, q, isDir);
    var c := Decode(q)[|Decode(p)|];
    if !isDir && |Decode(q)| == |Decode(p)| + 1 {
      ChildFileKey(p, q);
    } else {
      assert ListPrefix(p) == Encode([ROOT_PATH] + Decode(p)) + "/" by { ListPrefixForm(p); }
      SlashLast(ListPrefix(p), c);
    }
  }

  lemma SlashLast(a: string, b: string)
    ensures a + b + "/" == a + (b + "/")
  {
  }

  lemma ChildFileKey(p: string, q: string)
    requires ValidPath(p) && ValidPath(q) && Decode(p) <= Decode(q) && |Decode(q)| == |Decode(p)| + 1
    ensures FileToObjectKey(q, false) == ListPrefix(p) + (FILE_PREFIX + Decode(q)[|Decode(p)|])
  {
    var x, c := Decode(p), Decode(q)[|Decode(p)|];
    assert KeyPath(Decode(q), false) == x + [FILE_PREFIX + c];
    assert [ROOT_PATH] + (x + [FILE_PREFIX + c]) == [ROOT_PATH] + x + [FILE_PREFIX + c];
    KeyElements(q, false);
    ListPrefixForm(p);
    JoinedConcat([ROOT_PATH] + x, [FILE_PREFIX + c]);
  }

  /** A directory's own record is an item of its own, unlike any other. */
  lemma OwnItem(p: string)
    requires ValidPath(p)
    ensures ListPrefix(p) <= FileToObjectKey(p, true)
    ensures Item(FileToObjectKey(p, true), ListPrefix(p)) == FileToObjectKey(p, true) == ListPrefix(p) + DIR_META_NAME
    ensures forall c, direct :: ItemOf(p, c, direct) != FileToObjectKey(p, true)
  {
    var a := [ROOT_PATH] + Decode(p);
    var k := [ROOT_PATH] + KeyPath(Decode(p), true);
    ListedIff(p, p, true);
    assert ListPrefix(p) == Encode(a) + "/" by { ListPrefixForm(p); }
    assert FileToObjectKey(p, true) == Encode(k) by { KeyElements(p, true); }
    assert IsPath(k) by { KeyPathNames(Decode(p), true); }
    assert k == a + [DIR_META_NAME];
    ItemForm(a, k);
    SplitBelow(a, k);
    forall c, direct ensures ItemOf(p, c, direct) != ListPrefix(p) + DIR_META_NAME {
      OtherTail(ListPrefix(p), if direct then FILE_PREFIX + c else c + "/", c, direct);
    }
  }

  lemma OtherTail(prefix: string, tail: string, c: string, direct: bool)
    requires tail == if direct then FILE_PREFIX + c else c + "/"
    ensures prefix + tail != prefix + DIR_META_NAME
  {
    KindsDiffer();
    assert DIR_META_NAME[|DIR_META_NAME| - 1] == 'a';
    assert tail != DIR_META_NAME;
    assert (prefix + tail)[|prefix|..] == tail && (prefix + DIR_META_NAME)[|prefix|..] == DIR_META_NAME;
  }

  /** The records of a store: which paths there are, and which are directories. */
  ghost predicate IsEntry(records: map<string, bool>, p: string, q: string)
    requires ValidPath(p)
  {
    q in records && ValidPath(q) && Decode(p) <= Decode(q) && p != q && |Decode(p)| < |Decode(q)|
  }

  ghost predicate HasEntry(records: map<string, bool>, p: string, c: string)
    requires ValidPath(p)
  {
    exists q :: IsEntry(records, p, q) && Decode(q)[|Decode(p)|] == c
  }

  /** No record lies below a file. */
  ghost predicate FilesAreLeaves(records: map<string, bool>) {
    forall q, r | q in records && r in records && ValidPath(q) && ValidPath(r) && Decode(q) <= Decode(r) && q != r ::
        records[q]
  }

  /** The items of a listing, each under the record it comes from. */
  ghost predicate IsItem(records: map<string, bool>, p: string, item: string, c: string)
    requires ValidPath(p)
  {
    exists q :: ItemFrom(records, p, item, c, q)
  }

  lemma ItemCase(records: map<string, bool>, p: string, q: string)
    requires ValidPath(p) && p in records && records[p] && q in records && ValidPath(q)
    requires ListPrefix(p) <= FileToObjectKey(q, records[q])
    ensures var item := Item(FileToObjectKey(q, records[q]), ListPrefix(p));
            if q == p then item == FileToObjectKey(p, true)
            else IsEntry(records, p, q) && IsItem(records, p, item, Decode(q)[|Decode(p)|]) &&
                 ListedName(item) == Some(Decode(q)[|Decode(p)|])
  {
    ListedIff(p, q, records[q]);
    assert Encode(Decode(p)) == p && Encode(Decode(q)) == q;
    if q == p {
      OwnItem(p);
    } else {
      ItemOfBelow(p, q, records[q]);
      ListedChild(p, q, records[q]);
      assert ItemFrom(records, p, Item(FileToObjectKey(q, records[q]), ListPrefix(p)), Decode(q)[|Decode(p)|], q);
    }
  }

  /** The item comes from a record below p. */
  ghost predicate ItemFrom(records: map<string, bool>, p: string, item: string, c: string, q: string)
    requires ValidPath(p)
  {
    IsEntry(records, p, q) && Decode(q)[|Decode(p)|] == c &&
    item == ItemOf(p, c, IsDirect(records, p, q))
  }

  ghost predicate IsDirect(records: map<string, bool>, p: string, q: string)
    requires ValidPath(p) && IsEntry(records, p, q)
  {
    !records[q] && |Decode(q)| == |Decode(p)| + 1
  }

  /** A file right in the directory has a record below it. */
  ghost predicate HasClash(records: map<string, bool>, p: string)
    requires ValidPath(p)
  {
    exists q, r :: Clash(records, p, q, r)
  }

  ghost predicate Clash(records: map<string, bool>, p: string, q: string, r: string)
    requires ValidPath(p)
  {
    IsEntry(records, p, q) && IsDirect(records, p, q) && IsEntry(records, p, r) && Decode(q) <= Decode(r) && q != r
  }

  lemma LeavesDoNotClash(records: map<string, bool>, p: string)
    requires ValidPath(p) && FilesAreLeaves(records)
    ensures !HasClash(records, p)
  {
  }

  /** Without a clash, a name has only one item. */
  lemma OneItem(records: map<string, bool>, p: string, c: string, i: string, j: string)
    requires ValidPath(p) && !HasClash(records, p) && IsItem(records, p, i, c) && IsItem(records, p, j, c)
    ensures i == j
  {
    var q :| ItemFrom(records, p, i, c, q);
    var r :| ItemFrom(records, p, j, c, r);
    if IsDirect(records, p, q) {
      DirectOrClash(records, p, c, q, r);
    } else if IsDirect(records, p, r) {
      DirectOrClash(records, p, c, r, q);
    }
  }

  lemma ChildPrefix(x: Path, y: Path, z: Path, c: string)
    requires x <= y && |y| == |x| + 1 && y[|x|] == c && x <= z && |x| < |z| && z[|x|] == c
    ensures y <= z
  {
    assert z[..|x|] == x;
    assert forall i | 0 <= i < |y| :: z[i] == y[i];
  }

  /** A record with the next element of a file right in p is that file, or clashes with it. */
  lemma DirectOrClash(records: map<string, bool>, p: string, c: string, q: string, r: string)
    requires ValidPath(p) && IsEntry(records, p, q) && IsEntry(records, p, r)
    requires Decode(q)[|Decode(p)|] == c && Decode(r)[|Decode(p)|] == c && IsDirect(records, p, q)
    ensures q == r || Clash(records, p, q, r)
  {
    ChildPrefix(Decode(p), Decode(q), Decode(r), c);
  }

  /** A clash makes two items of one name. */
  lemma ClashItems(records: map<string, bool>, p: string, q: string, r: string) returns (i: string, j: string)
    requires ValidPath(p) && Clash(records, p, q, r)
    ensures i in Items(records, p) && i != FileToObjectKey(p, true)
    ensures j in Items(records, p) && j != FileToObjectKey(p, true)
    ensures i != j && ListedName(i) == ListedName(j)
  {
    var c := Decode(q)[|Decode(p)|];
    assert Decode(r)[|Decode(p)|] == c;
    LongerBelow(q, r);
    i := EntryItem(records, p, q);
    j := EntryItem(records, p, r);
    assert IsName(c) by { assert c in Decode(q); }
    FileItemOnly(ListPrefix(p), c);
  }

  lemma LongerBelow(q: string, r: string)
    requires ValidPath(q) && ValidPath(r) && Decode(q) <= Decode(r) && q != r
    ensures |Decode(q)| < |Decode(r)|
  {
    assert Encode(Decode(q)) == q && Encode(Decode(r)) == r;
    ProperPrefix(Decode(q), Decode(r));
  }

  lemma ProperPrefix(a: Path, b: Path)
    requires a <= b && a != b
    ensures |a| < |b|
  {
    assert b == a + b[|a|..];
  }

  lemma FileItemOnly(prefix: string, c: string)
    requires IsName(c)
    ensures prefix + (FILE_PREFIX + c) != prefix + (c + "/")
  {
    var x, y := FILE_PREFIX + c, c + "/";
    assert x[|x| - 1] == c[|c| - 1] != '/' by { assert c[|c| - 1] in c; }
    assert (prefix + x)[|prefix|..] == x && (prefix + y)[|prefix|..] == y;
  }

  /** Creating a file below a file, which the store lets pass, makes the file's name come twice. */
  lemma FileListedTwice()
    ensures HasClash(map["." := true, "f" := false, "f/x" := false], ".")
  {
    var records := map["." := true, "f" := false, "f/x" := false];
    DecodeEncode([]);
    DecodeEncode(["f"]);
    DecodeEncode(["f", "x"]);
    assert Joined(["f", "x"]) == "f/x";
    assert Clash(records, ".", "f", "f/x");
  }

  /** What a listing of p returns. */
  function Items(records: map<string, bool>, p: string): set<string> {
    set k | k in records && ListPrefix(p) <= FileToObjectKey(k, records[k]) ::
        Item(FileToObjectKey(k, records[k]), ListPrefix(p))
  }

  lemma ItemsAre(records: map<string, bool>, p: string, item: string)
    requires AllValid(records) && p in records && records[p] && item in Items(records, p)
    ensures item == FileToObjectKey(p, true) || exists c :: IsItem(records, p, item, c) && ListedName(item) == Some(c)
  {
    var k :| k in records && ListPrefix(p) <= FileToObjectKey(k, records[k]) &&
             item == Item(FileToObjectKey(k, records[k]), ListPrefix(p));
    ItemCase(records, p, k);
  }

  /** Every item but the directory's own is still to do or has been found... */
  ghost predicate AllFound(all: set<string>, own: string, todo: set<string>, found: seq<string>) {
    forall item | item in all && item !in todo && item != own :: item in found
  }

  /** ...once... */
  ghost predicate FoundOnce(todo: set<string>, found: seq<string>) {
    && (forall item | item in found :: item !in todo)
    && (forall i, j | 0 <= i < j < |found| :: found[i] != found[j])
  }

  /** ...and under the right name. */
  ghost predicate Related<A, B>(r: (A, B) -> bool, xs: seq<A>, ys: seq<B>) {
    |xs| == |ys| && forall i | 0 <= i < |xs| :: r(xs[i], ys[i])
  }

  lemma RelatedMore<A, B>(r: (A, B) -> bool, xs: seq<A>, ys: seq<B>, x: A, y: B)
    requires Related(r, xs, ys) && r(x, y)
    ensures Related(r, xs + [x], ys + [y])
  {
  }

  ghost function Naming(records: map<string, bool>, p: string): (string, string) -> bool {
    (item, c) => ValidPath(p) && IsItem(records, p, item, c)
  }

  lemma FoundMore(all: set<string>, own: string, todo: set<string>, found: seq<string>, item: string)
    requires AllFound(all, own, todo, found) && FoundOnce(todo, found) && item in todo
    ensures FoundOnce(todo - {item}, found + [item]) && AllFound(all, own, todo - {item}, found + [item])
  {
  }

  /** What holds between two items. */
  ghost predicate Reading(records: map<string, bool>, p: string, todo: set<string>, names: seq<string>,
                          found: seq<string>)
  {
    && todo <= Items(records, p)
    && AllFound(Items(records, p), FileToObjectKey(p, true), todo, found) && FoundOnce(todo, found)
    && Related(Naming(records, p), found, names)
  }

  lemma ReadOwn(records: map<string, bool>, p: string, todo: set<string>, names: seq<string>, found: seq<string>)
    requires Reading(records, p, todo, names, found)
    ensures Reading(records, p, todo - {FileToObjectKey(p, true)}, names, found)
  {
  }

  lemma ReadOther(records: map<string, bool>, p: string, todo: set<string>, names: seq<string>, found: seq<string>,
                  item: string, c: string)
    requires Reading(records, p, todo, names, found) && item in todo && Naming(records, p)(item, c)
    ensures Reading(records, p, todo - {item}, names + [c], found + [item])
  {
    FoundMore(Items(records, p), FileToObjectKey(p, true), todo, found, item);
    RelatedMore(Naming(records, p), found, names, item, c);
  }

  /** The loop over what a listing returns, in whatever order: the names are those of the directory's
      children, each once exactly when none of its files has a record below it. */
  method ListNames(records: map<string, bool>, p: string) returns (names: seq<string>)
    requires AllValid(records) && p in records && records[p]
    ensures forall c :: c in names <==> HasEntry(records, p, c)
    ensures KeyValue.EachOnce(names) <==> !HasClash(records, p)
    ensures FilesAreLeaves(records) ==> KeyValue.EachOnce(names)
  {
    assert ValidPath(p);
    var own, todo := FileToObjectKey(p, true), Items(records, p);
    names := [];
    ghost var found := [];
    while todo != {}
      invariant Reading(records, p, todo, names, found)
      decreases todo
    {
      var item :| item in todo;
      if item == own {
        ReadOwn(records, p, todo, names, found);
      } else {
        var c := ReadItem(records, p, item);
        ReadOther(records, p, todo, names, found, item, c);
        names, found := names + [c], found + [item];
      }
      todo := todo - {item};
    }
    ListedAll(records, p, names, found);
  }

  ghost predicate AllValid(records: map<string, bool>) {
    forall k | k in records :: ValidPath(k)
  }

  /** Reading an item never panics, and gives its name. */
  method ReadItem(records: map<string, bool>, p: string, item: string) returns (c: string)
    requires AllValid(records) && p in records && records[p]
    requires item in Items(records, p) && item != FileToObjectKey(p, true)
    ensures Naming(records, p)(item, c)
  {
    ItemsAre(records, p, item);
    c := ListedName(item).value;
  }

  lemma ListedAll(records: map<string, bool>, p: string, names: seq<string>, found: seq<string>)
    requires ValidPath(p) && Reading(records, p, {}, names, found)
    ensures forall c :: c in names <==> HasEntry(records, p, c)
    ensures KeyValue.EachOnce(names) <==> !HasClash(records, p)
    ensures FilesAreLeaves(records) ==> KeyValue.EachOnce(names)
  {
    forall i | 0 <= i < |names| ensures HasEntry(records, p, names[i]) {
      assert Naming(records, p)(found[i], names[i]);
      var q :| ItemFrom(records, p, found[i], names[i], q);
    }
    forall c | HasEntry(records, p, c) ensures c in names {
      EntryListed(records, p, c, names, found);
    }
    OnceIff(records, p, names, found);
    if FilesAreLeaves(records) { LeavesDoNotClash(records, p); }
  }

  lemma OnceIff(records: map<string, bool>, p: string, names: seq<string>, found: seq<string>)
    requires ValidPath(p) && Reading(records, p, {}, names, found)
    ensures KeyValue.EachOnce(names) <==> !HasClash(records, p)
  {
    if q, r :| Clash(records, p, q, r) {
      ClashTwice(records, p, names, found, q, r);
    } else {
      forall i, j | 0 <= i < j < |names| ensures names[i] != names[j] {
        assert found[i] != found[j];
        NotTwice(records, p, names, found, i, j);
      }
    }
  }

  lemma ClashTwice(records: map<string, bool>, p: string, names: seq<string>, found: seq<string>, q: string, r: string)
    requires ValidPath(p) && Reading(records, p, {}, names, found) && Clash(records, p, q, r)
    ensures !KeyValue.EachOnce(names)
  {
    var item, other := ClashItems(records, p, q, r);
    BothFound(records, p, names, found, item, other);
  }

  lemma BothFound(records: map<string, bool>, p: string, names: seq<string>, found: seq<string>, item: string,
                  other: string)
    requires ValidPath(p) && Reading(records, p, {}, names, found)
    requires item in Items(records, p) && item != FileToObjectKey(p, true)
    requires other in Items(records, p) && other != FileToObjectKey(p, true)
    requires item != other && ListedName(item) == ListedName(other)
    ensures !KeyValue.EachOnce(names)
  {
    var i := FoundAt(records, p, names, found, item);
    var j := FoundAt(records, p, names, found, other);
    assert names[i] == names[j] && i != j;
  }

  lemma NotTwice(records: map<string, bool>, p: string, names: seq<string>, found: seq<string>, i: nat, j: nat)
    requires ValidPath(p) && Related(Naming(records, p), found, names) && !HasClash(records, p)
    requires i < |names| && j < |names| && found[i] != found[j]
    ensures names[i] != names[j]
  {
    assert Naming(records, p)(found[i], names[i]) && Naming(records, p)(found[j], names[j]);
    if names[i] == names[j] { OneItem(records, p, names[i], found[i], found[j]); }
  }

  lemma FoundAt(records: map<string, bool>, p: string, names: seq<string>, found: seq<string>, item: string)
    returns (i: nat)
    requires ValidPath(p) && Reading(records, p, {}, names, found)
    requires item in Items(records, p) && item != FileToObjectKey(p, true)
    ensures i < |found| == |names| && found[i] == item && ListedName(item) == Some(names[i])
  {
    i :| i < |found| && found[i] == item;
    assert Naming(records, p)(found[i], names[i]);
    SameItemName(records, p, item, names[i]);
  }

  lemma EntryListed(records: map<string, bool>, p: string, c: string, names: seq<string>, found: seq<string>)
    requires ValidPath(p) && AllFound(Items(records, p), FileToObjectKey(p, true), {}, found)
    requires Related(Naming(records, p), found, names) && HasEntry(records, p, c)
    ensures c in names
  {
    var q :| IsEntry(records, p, q) && Decode(q)[|Decode(p)|] == c;
    var item := EntryItem(records, p, q);
    var i := RelatedAt(Naming(records, p), found, names, item);
    SameItemName(records, p, item, names[i]);
  }

  lemma RelatedAt<A, B>(r: (A, B) -> bool, xs: seq<A>, ys: seq<B>, x: A) returns (i: nat)
    requires Related(r, xs, ys) && x in xs
    ensures i < |ys| && r(x, ys[i])
  {
    i :| i < |xs| && xs[i] == x;
  }

  /** The name is the one read from the item. */
  lemma SameItemName(records: map<string, bool>, p: string, item: string, c: string)
    requires ValidPath(p) && IsItem(records, p, item, c)
    ensures ListedName(item) == Some(c)
  {
    var q :| ItemFrom(records, p, item, c, q);
    ItemOfBelow(p, q, records[q]);
    ListedChild(p, q, records[q]);
  }

  /** The item of a record below p is in the listing, and is not p's own. */
  lemma EntryItem(records: map<string, bool>, p: string, q: string) returns (item: string)
    requires ValidPath(p) && IsEntry(records, p, q)
    ensures item in Items(records, p) && item != FileToObjectKey(p, true)
    ensures ListedName(item) == Some(Decode(q)[|Decode(p)|])
    ensures item == ItemOf(p, Decode(q)[|Decode(p)|], IsDirect(records, p, q))
  {
    ItemOfBelow(p, q, records[q]);
    ListedChild(p, q, records[q]);
    item := Item(FileToObjectKey(q, records[q]), ListPrefix(p));
    OwnItem(p);
  }
}
