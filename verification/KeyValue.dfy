/** The key-value file system: a flat store of records under string keys, its transactions,
    and the namespace operations that make a directory tree of it. */
module KeyValue {
  import opened Paths
  import opened FileModes
  import opened Trees
  import opened TreeOps
  import opened Wrappers

  datatype OpResult<D> = OpResult(record: Option<Record<D>>, err: Error)

  // ---------- string keys as a tree ----------

  /** The map from strings holds exactly the tree's records, under the strings that spell their paths. */
  ghost predicate Mirrors<D>(m: map<string, Record<D>>, t: Tree<D>) {
    && (forall s {:trigger Decode(s)} | s in m :: ValidPath(s) && Decode(s) in t && t[Decode(s)] == m[s])
    && (forall s {:trigger ValidPath(s)} | s in m :: ValidPath(s))
    && (forall p {:trigger Encode(p)} | p in t :: IsPath(p) && Encode(p) in m)
  }

  lemma MirrorsAt<D>(m: map<string, Record<D>>, t: Tree<D>, s: string)
    requires Mirrors(m, t) && ValidPath(s)
    ensures Decode(s) in t <==> s in m
    ensures s in m ==> t[Decode(s)] == m[s]
  {
    assert Encode(Decode(s)) == s;
  }

  lemma MirrorsKey<D>(m: map<string, Record<D>>, t: Tree<D>, p: Path)
    requires Mirrors(m, t) && p in t
    ensures IsPath(p) && ValidPath(Encode(p)) && Encode(p) in m && Decode(Encode(p)) == p
  {
    assert Encode(p) in m;
    DecodeEncode(p);
  }

  lemma MirrorsPut<D>(m: map<string, Record<D>>, t: Tree<D>, s: string, r: Record<D>)
    requires Mirrors(m, t) && ValidPath(s)
    ensures Mirrors(m[s := r], t[Decode(s) := r])
  {
    forall k | k in m[s := r] ensures ValidPath(k) && (k != s ==> Decode(k) != Decode(s)) {
      assert ValidPath(k);
      assert Encode(Decode(k)) == k && Encode(Decode(s)) == s;
    }
    forall p | p in t ensures IsPath(p) && Encode(p) in m {
      MirrorsKey(m, t, p);
    }
  }

  lemma MirrorsDelete<D>(m: map<string, Record<D>>, t: Tree<D>, s: string)
    requires Mirrors(m, t) && ValidPath(s)
    ensures Mirrors(m - {s}, t - {Decode(s)})
  {
    forall k | k in m ensures ValidPath(k) && (k != s ==> Decode(k) != Decode(s)) {
      assert ValidPath(k);
      assert Encode(Decode(k)) == k && Encode(Decode(s)) == s;
    }
    forall p | p in t && p != Decode(s) ensures Encode(p) != s {
      MirrorsKey(m, t, p);
    }
  }

  // ---------- listing a directory ----------

  /** mem's test: the key starts with the directory's prefix and no slash follows. */
  predicate PrefixHit(key: string, dir: string) {
    var prefix := if dir == "." then "" else dir + "/";
    prefix <= key &&
    var rest := key[|prefix|..];
    '/' !in rest && !(dir == "." && rest == ".")
  }

  function PrefixName(key: string, dir: string): string
    requires PrefixHit(key, dir)
  {
    key[if dir == "." then 0 else |dir| + 1..]
  }

  /** IndexedDB's test: the record's Parent field, absent for the root, is the directory. */
  predicate IndexHit(key: string, dir: string) {
    key != "." && Dir(key) == dir
  }

  /** The key is a child of the directory, as element sequences. */
  ghost predicate ChildKey(key: string, dir: string)
    requires ValidPath(key) && ValidPath(dir)
  {
    Decode(key) != [] && Parent(Decode(key)) == Decode(dir)
  }

  ghost function ChildName(key: string): string
    requires ValidPath(key) && Decode(key) != []
  {
    var p := Decode(key); p[|p| - 1]
  }

  lemma IndexHitIsChild(key: string, dir: string)
    requires ValidPath(key) && ValidPath(dir)
    ensures IndexHit(key, dir) <==> ChildKey(key, dir)
    ensures IndexHit(key, dir) ==> Base(key) == ChildName(key)
  {
    DirValid(key);
    BaseValid(key);
    assert Encode(Decode(key)) == key && Encode(Decode(dir)) == dir;
    assert Encode(Decode(Dir(key))) == Dir(key);
  }

  lemma PrefixHitIsChild(key: string, dir: string)
    requires ValidPath(key) && ValidPath(dir)
    ensures PrefixHit(key, dir) <==> ChildKey(key, dir)
    ensures PrefixHit(key, dir) ==> PrefixName(key, dir) == ChildName(key)
  {
    if PrefixHit(key, dir) { PrefixHitSound(key, dir); }
    if ChildKey(key, dir) { PrefixHitComplete(key, dir); }
  }

  lemma PrefixHitSound(key: string, dir: string)
    requires ValidPath(key) && ValidPath(dir) && PrefixHit(key, dir)
    ensures ChildKey(key, dir) && PrefixName(key, dir) == ChildName(key)
  {
    var c := PrefixName(key, dir);
    PiecesOfPlain(c);
    if dir == "." {
      assert c == key;
      assert Decode(key) == [c];
    } else {
      assert key == dir + "/" + c;
      PiecesConcat(dir, c);
      PiecesOfPlain(".");
      assert |Pieces(key)| >= 2;
      assert Decode(key) == Decode(dir) + [c];
    }
  }

  lemma PrefixHitComplete(key: string, dir: string)
    requires ValidPath(key) && ValidPath(dir) && ChildKey(key, dir)
    ensures PrefixHit(key, dir)
  {
    var d, c := Decode(dir), ChildName(key);
    assert Decode(key) == d + [c];
    assert c in Decode(key) && IsName(c);
    if d == [] {
      assert key == c && dir == ".";
    } else {
      JoinedConcat(d, [c]);
      DecodeEncode(d);
      assert key == dir + "/" + c;
      assert key[|dir| + 1..] == c;
      PiecesOfPlain(".");
    }
  }

  /** The two stores list the same keys of a directory, under the same names. */
  lemma ListingsAgree(key: string, dir: string)
    requires ValidPath(key) && ValidPath(dir)
    ensures PrefixHit(key, dir) <==> IndexHit(key, dir)
    ensures PrefixHit(key, dir) ==> PrefixName(key, dir) == Base(key)
  {
    PrefixHitIsChild(key, dir);
    IndexHitIsChild(key, dir);
  }

  lemma SameChildSameKey(k: string, l: string, dir: string)
    requires ValidPath(k) && ValidPath(l) && ValidPath(dir)
    requires ChildKey(k, dir) && ChildKey(l, dir) && ChildName(k) == ChildName(l)
    ensures k == l
  {
    assert Decode(k) == Decode(l) by {
      ChildKeyForm(k, dir);
      ChildKeyForm(l, dir);
    }
    assert Encode(Decode(k)) == k && Encode(Decode(l)) == l;
  }

  lemma ChildKeyForm(key: string, dir: string)
    requires ValidPath(key) && ValidPath(dir) && ChildKey(key, dir)
    ensures Decode(key) == Decode(dir) + [ChildName(key)]
  {
  }

  /** A tree child is a key of the store. */
  lemma ChildHasKey<D>(m: map<string, Record<D>>, t: Tree<D>, dir: string, c: string)
    requires Mirrors(m, t) && ValidPath(dir) && IsChild(t, Decode(dir), c)
    ensures var k := Encode(Decode(dir) + [c]); k in m && ValidPath(k) && ChildKey(k, dir) && ChildName(k) == c
  {
    MirrorsKey(m, t, Decode(dir) + [c]);
  }

  lemma KeyIsChild<D>(m: map<string, Record<D>>, t: Tree<D>, dir: string, k: string)
    requires Mirrors(m, t) && ValidPath(dir) && k in m && ValidPath(k) && ChildKey(k, dir)
    ensures IsChild(t, Decode(dir), ChildName(k)) && IsName(ChildName(k))
  {
    MirrorsAt(m, t, k);
    assert Decode(k) == Decode(dir) + [ChildName(k)];
    assert ChildName(k) in Decode(k);
  }

  /** IndexedDB's test of the parent record, on strings, is the tree's. */
  lemma ParentCheck<D>(m: map<string, Record<D>>, t: Tree<D>, s: string)
    requires Mirrors(m, t) && ValidPath(s)
    ensures (Dir(s) != "." && !(Dir(s) in m && IsDir(m[Dir(s)].mode))) <==> Refused(true, t, Decode(s))
  {
    DirValid(s);
    MirrorsAt(m, t, Dir(s));
    assert Encode(Decode(Dir(s))) == Dir(s);
    assert Encode([]) == ".";
    DecodeEncode([]);
  }

  // ---------- the store ----------

  /** mem's store (parentChecked false), or IndexedDB's abstracted to a map (true).  One
      transaction runs at a time; its working state lives here while the lock is held. */
  class Store<D> {
    const parentChecked: bool
    var records: map<string, Record<D>>
    var locked: bool
    var saved: map<string, Record<D>>  // the records when the transaction began
    var refused: bool                  // a parent check failed in this transaction
    var results: seq<OpResult<D>>
    ghost var tree: Tree<D>            // records, by path
    ghost var savedTree: Tree<D>

    constructor (parentChecked: bool)
      ensures Idle() && tree == map[] && this.parentChecked == parentChecked
    {
      this.parentChecked := parentChecked;
      records, locked, saved, refused, results := map[], false, map[], false, [];
      tree, savedTree := map[], map[];
    }

    ghost predicate Valid()
      reads this
    {
      Mirrors(records, tree) && Mirrors(saved, savedTree)
    }

    /** No transaction is in progress: the state between public calls. */
    ghost predicate Idle()
      reads this
    {
      Valid() && !locked
    }

    method Begin()
      requires Idle()  // locking a held mutex would block for ever
      modifies this
      ensures Valid() && locked && !refused && results == []
      ensures tree == old(tree) && savedTree == tree
    {
      locked, refused, results := true, false, [];
      saved, savedTree := records, tree;
    }

    method Get(path: string)
      requires Valid() && locked && ValidPath(path)
      modifies this`results
      ensures results == old(results) + [Lookup(tree, Decode(path))]
    {
      MirrorsAt(records, tree, path);
      if path in records {
        results := results + [OpResult(Some(records[path]), Nil)];
      } else {
        results := results + [OpResult(None, NotExist)];
      }
    }

    /** Stores or deletes a record.  The in-memory store reads a record's data to store it, and
        reports in the result that it could not. */
    method Set(path: string, src: Option<Record<D>>, readable: bool)
      requires Valid() && locked && ValidPath(path)
      modifies this
      ensures Valid() && locked && savedTree == old(savedTree)
      ensures results == old(results) + [OpResult(None, SetError(old(tree), Decode(path), src, readable))]
      ensures refused == (old(refused) ||
                          (src.Some? && !Dropped(src, readable) && Refused(parentChecked, old(tree), Decode(path))))
      ensures tree == if src.None? then Delete(parentChecked, old(tree), Decode(path))
                      else if Dropped(src, readable) then old(tree)
                      else old(tree)[Decode(path) := src.value]
    {
      match src
      case None =>
        var err := DeleteRecord(path);
        results := results + [OpResult(None, err)];
      case Some(record) =>
        if !parentChecked && !readable {
          results := results + [OpResult(None, Unreadable)];
          return;
        }
        var err := SetRecord(path, record);
        results := results + [OpResult(None, err)];
    }

    /** The result of a Set, which nobody looks at. */
    ghost function SetError(t: Tree<D>, p: Path, src: Option<Record<D>>, readable: bool): Error {
      if src.None? then (if parentChecked && p == [] then NotImplemented else Nil)
      else if Dropped(src, readable) then Unreadable
      else if Refused(parentChecked, t, p) then NotDir else Nil
    }

    predicate Dropped(src: Option<Record<D>>, readable: bool) {
      src.Some? && !parentChecked && !readable
    }

    method DeleteRecord(path: string) returns (err: Error)
      requires Valid() && ValidPath(path)
      modifies this`records, this`tree
      ensures Valid() && tree == Delete(parentChecked, old(tree), Decode(path))
      ensures err == if parentChecked && Decode(path) == [] then NotImplemented else Nil
    {
      assert path == "." <==> Decode(path) == [] by { assert Encode(Decode(path)) == path; }
      if parentChecked && path == "." {
        return NotImplemented;
      }
      MirrorsDelete(records, tree, path);
      records, tree := records - {path}, tree - {Decode(path)};
      err := Nil;
    }

    method SetRecord(path: string, record: Record<D>) returns (err: Error)
      requires Valid() && ValidPath(path)
      modifies this`records, this`tree, this`refused
      ensures Valid() && tree == old(tree)[Decode(path) := record]
      ensures refused == (old(refused) || Refused(parentChecked, old(tree), Decode(path)))
      ensures err == if Refused(parentChecked, old(tree), Decode(path)) then NotDir else Nil
    {
      ghost var t, p := tree, Decode(path);
      var dir, m := Dir(path), records;
      var bad := parentChecked && dir != "." && !(dir in m && IsDir(m[dir].mode));
      assert bad == Refused(parentChecked, t, p) by { ParentCheck(m, t, path); }
      assert Mirrors(m[path := record], t[p := record]) by { MirrorsPut(m, t, path, record); }
      if bad {
        refused := true;
      }
      records, tree := m[path := record], t[p := record];
      err := if bad then NotDir else Nil;
    }

    /** Commit; a failed parent check has aborted the whole transaction. */
    method Commit() returns (res: seq<OpResult<D>>, err: Error)
      requires Valid() && locked
      modifies this
      ensures Idle() && res == old(results)
      ensures tree == if old(refused) then old(savedTree) else old(tree)
      ensures err == if old(refused) then Aborted else Nil
    {
      if refused { records, tree := saved, savedTree; }
      res, err := results, if refused then Aborted else Nil;
      locked := false;
    }

    /** Abort: IndexedDB rolls back, mem only unlocks. */
    method Abort()
      requires Valid() && locked
      modifies this
      ensures Idle()
      ensures tree == if parentChecked then old(savedTree) else old(tree)
    {
      if parentChecked { records, tree := saved, savedTree; }
      locked := false;
    }

    /** The names of a directory's children, each once: by prefix scan or by parent index,
        in whatever order the keys come. */
    method ReadDirNames(dir: string) returns (names: seq<string>)
      requires Valid() && ValidPath(dir)
      ensures forall c :: c in names <==> IsChild(tree, Decode(dir), c)
      ensures EachOnce(names) && forall c | c in names :: IsName(c)
    {
      names := [];
      ghost var found := [];  // the keys behind the names
      var todo := records.Keys;
      ghost var seen: set<string> := {};
      while todo != {}
        invariant seen + todo == records.Keys && seen !! todo
        invariant Listed(seen, dir, names, found)
        decreases todo
      {
        var key :| key in todo;
        todo := todo - {key};
        assert ValidPath(key);
        PrefixHitIsChild(key, dir);
        IndexHitIsChild(key, dir);
        ListedStep(seen, dir, names, found, key);
        seen := seen + {key};
        if parentChecked && IndexHit(key, dir) {
          names, found := names + [Base(key)], found + [key];
        } else if !parentChecked && PrefixHit(key, dir) {
          names, found := names + [PrefixName(key, dir)], found + [key];
        }
      }
      assert seen == records.Keys;
      ListedChildren(records, tree, dir, names, found);
    }
  }

  ghost function Lookup<D>(t: Tree<D>, p: Path): OpResult<D> {
    if p in t then OpResult(Some(t[p]), Nil) else OpResult(None, NotExist)
  }

  ghost predicate EachOnce(names: seq<string>) {
    forall i, j | 0 <= i < j < |names| :: names[i] != names[j]
  }

  /** The names are those of the child keys among the ones seen, each once. */
  ghost predicate Listed(seen: set<string>, dir: string, names: seq<string>, found: seq<string>)
    requires ValidPath(dir)
  {
    && |found| == |names| && EachOnce(found)
    && (forall k | k in seen && ValidPath(k) && ChildKey(k, dir) :: k in found)
    && (forall i | 0 <= i < |found| ::
          found[i] in seen && ValidPath(found[i]) && ChildKey(found[i], dir) && names[i] == ChildName(found[i]))
  }

  lemma ListedStep(seen: set<string>, dir: string, names: seq<string>, found: seq<string>, key: string)
    requires ValidPath(dir) && ValidPath(key) && key !in seen
    requires Listed(seen, dir, names, found)
    ensures ChildKey(key, dir) ==> Listed(seen + {key}, dir, names + [ChildName(key)], found + [key])
    ensures !ChildKey(key, dir) ==> Listed(seen + {key}, dir, names, found)
  {
    assert forall k | k in found :: k in found + [key];
    assert (found + [key])[|found|] == key;
  }

  /** Names taken from exactly the child keys, each once, are exactly the children, each once. */
  lemma ListedChildren<D>(m: map<string, Record<D>>, t: Tree<D>, dir: string, names: seq<string>, found: seq<string>)
    requires Mirrors(m, t) && ValidPath(dir) && Listed(m.Keys, dir, names, found)
    ensures forall c :: c in names <==> IsChild(t, Decode(dir), c)
    ensures EachOnce(names) && forall c | c in names :: IsName(c)
  {
    forall i | 0 <= i < |names| ensures IsChild(t, Decode(dir), names[i]) && IsName(names[i]) {
      KeyIsChild(m, t, dir, found[i]);
    }
    forall c | IsChild(t, Decode(dir), c) ensures c in names {
      ChildHasKey(m, t, dir, c);
      var i :| 0 <= i < |found| && found[i] == Encode(Decode(dir) + [c]);
      assert names[i] == c;
    }
    forall i, j | 0 <= i < j < |names| ensures names[i] != names[j] {
      if names[i] == names[j] { SameChildSameKey(found[i], found[j], dir); }
    }
  }
}
