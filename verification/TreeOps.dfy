/** What each namespace operation of the key-value file system does to the tree, as
    functions from tree to tree, and which of them keep the tree well-formed.
    `chk` is true for a store that, like the IndexedDB one, rejects a record whose parent
    is not a directory, and false for one that, like the in-memory one, does not look. */
module TreeOps {
  import opened Paths
  import opened FileModes
  import opened Trees

  datatype Error =
    | Nil | NotExist | Exist | NotDir | IsADir | NotEmpty | Invalid
    | Unreadable     // a record's data could not be read
    | NotImplemented // deleting the root of a store that keeps it
    | Aborted        // the store rolled the transaction back
    | StackOverflow  // the recursion outgrew the stack

  /** What creating a file takes from outside: a fresh empty blob and the clock. */
  datatype Alloc<D> = Alloc(blob: D, now: int)

  /** Go's zero time.Time, which Chtimes takes to mean "no change". */
  const ZERO_TIME: int := 0

  /** A path argument: not a valid path, or the path it spells. */
  datatype Name = Bad | Good(path: Path)

  // ---------- the store's two primitives ----------

  ghost predicate Refused<D>(chk: bool, t: Tree<D>, p: Path) {
    chk && 2 <= |p| && !IsDirAt(t, Parent(p))
  }

  ghost function Put<D>(chk: bool, t: Tree<D>, p: Path, r: Record<D>): (Tree<D>, Error) {
    if Refused(chk, t, p) then (t, Aborted) else (t[p := r], Nil)
  }

  /** Deleting a key; the checked store silently keeps its root. */
  ghost function Delete<D>(chk: bool, t: Tree<D>, p: Path): Tree<D> {
    if chk && p == [] then t else t - {p}
  }

  // ---------- the operations ----------

  function NewDir<D>(perm: FileMode, a: Alloc<D>): Record<D> {
    Record(a.blob, DirMode(perm), a.now)
  }

  function NewFile<D>(perm: FileMode, a: Alloc<D>): Record<D> {
    Record(a.blob, perm & MODE_PERM, a.now)
  }

  ghost function MkdirSpec<D>(chk: bool, t: Tree<D>, name: Name, perm: FileMode, a: Alloc<D>): (Tree<D>, Error) {
    if !name.Good? then (t, Invalid) else
      var p := name.path;
      if p in t then (t, Exist)
      else if p != [] && Parent(p) !in t then (t, NotExist)
      else Put(chk, t, p, NewDir(perm, a))
  }

  /** The length of the longest present prefix of p, at most i; -1 if even the root is missing. */
  ghost function Deepest<D>(t: Tree<D>, p: Path, i: int): (j: int)
    requires -1 <= i <= |p|
    ensures -1 <= j <= i && (0 <= j ==> p[..j] in t)
    ensures forall k | j < k <= i :: p[..k] !in t
    decreases i + 1
  {
    if i < 0 || p[..i] in t then i else Deepest(t, p, i - 1)
  }

  /** t with new directories at the prefixes of p of length lo to hi - 1. */
  ghost function Filled<D>(t: Tree<D>, p: Path, lo: nat, hi: nat, perm: FileMode, a: nat -> Alloc<D>): Tree<D>
    requires hi <= |p| + 1
    decreases hi
  {
    if hi <= lo then t else Filled(t, p, lo, hi - 1, perm, a)[p[..hi - 1] := NewDir(perm, a(hi - 1))]
  }

  ghost function MkdirAllSpec<D>(t: Tree<D>, name: Name, perm: FileMode, a: nat -> Alloc<D>): (Tree<D>, Error) {
    if !name.Good? then (t, Invalid) else
      var p := name.path;
      var j := Deepest(t, p, |p|);
      if 0 <= j && !IsDirAt(t, p[..j]) then (t, NotDir)
      else (Filled(t, p, j + 1, |p| + 1, perm, a), Nil)
  }

  ghost function OpenSpec<D>(chk: bool, t: Tree<D>, name: Name, create: bool, writeOnly: bool,
                             perm: FileMode, a: Alloc<D>): (Tree<D>, Error)
  {
    if !name.Good? then (t, Invalid) else
      var p := name.path;
      if p in t then (t, if IsDir(t[p].mode) && (create || writeOnly) then IsADir else Nil)
      else if !create || Parent(p) !in t then (t, NotExist)
      else Put(chk, t, p, NewFile(perm, a))
  }

  ghost function RemoveSpec<D>(chk: bool, t: Tree<D>, name: Name): (Tree<D>, Error) {
    if !name.Good? then (t, Invalid) else
      var p := name.path;
      if p !in t then (t, NotExist)
      else if IsDir(t[p].mode) && exists c :: IsChild(t, p, c) then (t, NotEmpty)
      else (Delete(chk, t, p), Nil)
  }

  /** t without what p reaches (the checked store keeps its root). */
  ghost function Pruned<D>(chk: bool, t: Tree<D>, p: Path): Tree<D> {
    map q | q in t && (!Reach(t, p, q) || (chk && q == [])) :: t[q]
  }

  ghost function RemoveAllSpec<D>(chk: bool, t: Tree<D>, name: Name): (Tree<D>, Error) {
    if !name.Good? then (t, Invalid) else (Pruned(chk, t, name.path), Nil)
  }

  ghost function ChangeSpec<D>(chk: bool, t: Tree<D>, name: Name, change: Record<D> -> Record<D>): (Tree<D>, Error) {
    if !name.Good? then (t, Invalid)
    else if name.path !in t then (t, NotExist)
    else Put(chk, t, name.path, change(t[name.path]))
  }

  function Chmodded<D>(r: Record<D>, mode: FileMode): Record<D> {
    r.(mode := ChmodMode(r.mode, mode))
  }

  function Chtimed<D>(r: Record<D>, mtime: int): Record<D> {
    if mtime == ZERO_TIME then r else r.(modTime := mtime)
  }

  /** The move, where the checked store cannot delete the root it was asked to move. */
  ghost function Renamed<D>(chk: bool, t: Tree<D>, o: Path, n: Path): Tree<D>
    requires o in t
  {
    if chk && o == [] then Moved(t, o, n)[o := t[o]] else Moved(t, o, n)
  }

  /** Rename, when no stray records lie under an absent target (always so in a well-formed tree). */
  ghost function RenameSpec<D>(chk: bool, t: Tree<D>, oldname: Name, newname: Name): (Tree<D>, Error) {
    if !oldname.Good? || oldname.path !in t then (t, NotExist) else
      var o := oldname.path;
      if !IsDir(t[o].mode) then
        if oldname == newname then (t, Nil)
        else if !newname.Good? then (t, Invalid)
        else if Refused(chk, t, newname.path) then (t, Aborted)
        else (Delete(chk, t[newname.path := t[o]], o), Nil)
      else if !newname.Good? || newname.path in t then (t, Exist)
      else if Refused(chk, t, newname.path) then (t, Aborted)
      else if Chain(t, o, newname.path) then (t, StackOverflow)
      else (Renamed(chk, t, o, newname.path), Nil)
  }

  /** An operation on paths given as N: strings for a caller, names for the tree. */
  datatype Op<+N, !D> =
    | Mkdir(name: N, perm: FileMode, a: Alloc<D>)
    | MkdirAll(name: N, perm: FileMode, allocs: nat -> Alloc<D>)
    | Open(name: N, create: bool, writeOnly: bool, perm: FileMode, a: Alloc<D>)
    | Remove(name: N)
    | RemoveAll(name: N)
    | Rename(name: N, newname: N)
    | Chmod(name: N, mode: FileMode)
    | Chtimes(name: N, mtime: int)

  ghost function Step<D>(chk: bool, t: Tree<D>, op: Op<Name, D>): (Tree<D>, Error) {
    match op
    case Mkdir(name, perm, a) => MkdirSpec(chk, t, name, perm, a)
    case MkdirAll(name, perm, a) => MkdirAllSpec(t, name, perm, a)
    case Open(name, create, wronly, perm, a) => OpenSpec(chk, t, name, create, wronly, perm, a)
    case Remove(name) => RemoveSpec(chk, t, name)
    case RemoveAll(name) => RemoveAllSpec(chk, t, name)
    case Rename(name, newname) => RenameSpec(chk, t, name, newname)
    case Chmod(name, mode) => ChangeSpec(chk, t, name, r => Chmodded(r, mode))
    case Chtimes(name, mtime) => ChangeSpec(chk, t, name, r => Chtimed(r, mtime))
  }

  // ---------- which operations keep the tree ----------

  /** Creating p goes wrong exactly when an unchecked store holds a file where p's parent should be. */
  ghost predicate FileAsParent<D>(chk: bool, t: Tree<D>, p: Path) {
    p !in t && Parent(p) in t && !IsDir(t[Parent(p)].mode) && !Refused(chk, t, p)
  }

  /** A condition on the tree before the call: the operation ends and keeps it well-formed. */
  ghost predicate Guard<D>(chk: bool, t: Tree<D>, op: Op<Name, D>) {
    match op
    case Mkdir(name, _, _) => name.Good? ==> !FileAsParent(chk, t, name.path)
    case Open(name, create, _, _, _) => name.Good? && create ==> !FileAsParent(chk, t, name.path)
    case Rename(oldname, newname) => RenameGuard(chk, t, oldname, newname)
    case _ => true
  }

  /** A directory must move into a directory outside itself (the checked store's root may move
      one level down, since it stays); a file, into a directory and onto nothing with children. */
  ghost predicate RenameGuard<D>(chk: bool, t: Tree<D>, oldname: Name, newname: Name) {
    oldname.Good? && newname.Good? && oldname.path in t && !Refused(chk, t, newname.path) ==>
      var o, n := oldname.path, newname.path;
      if IsDir(t[o].mode) then
        n in t || (IsDirAt(t, Parent(n)) && !(o <= n)) || (chk && o == [] && |n| == 1)
      else
        o == n || ((n == [] || IsDirAt(t, Parent(n))) && forall c :: IsChild(t, n, c) ==> n + [c] == o)
  }

  lemma PutKeeps<D>(t: Tree<D>, p: Path, r: Record<D>)
    requires WellFormed(t) && p !in t
    ensures WellFormed(t[p := r]) <==> p == [] || IsDirAt(t, Parent(p))
  {
    var u := t[p := r];
    if p == [] || IsDirAt(t, Parent(p)) {
      forall q | q in u && q != [] ensures IsDirAt(u, Parent(q)) {
        if q != p { assert IsDirAt(t, Parent(q)); }
      }
    } else {
      assert Parent(p) != p;
      assert p in u;
    }
  }

  lemma ChangeKeeps<D>(t: Tree<D>, p: Path, r: Record<D>)
    requires WellFormed(t) && p in t && IsDir(r.mode) == IsDir(t[p].mode)
    ensures WellFormed(t[p := r])
  {
    var u := t[p := r];
    forall q | q in u && q != [] ensures IsDirAt(u, Parent(q)) {
      assert IsDirAt(t, Parent(q));
    }
  }

  lemma DeleteKeeps<D>(chk: bool, t: Tree<D>, p: Path)
    requires WellFormed(t) && !exists c :: IsChild(t, p, c)
    ensures WellFormed(Delete(chk, t, p))
  {
    var u := Delete(chk, t, p);
    forall q | q in u && q != [] ensures IsDirAt(u, Parent(q)) {
      assert IsDirAt(t, Parent(q));
      assert q == Parent(q) + [q[|q| - 1]];
      assert IsChild(t, Parent(q), q[|q| - 1]);
    }
  }

  lemma PrunedKeeps<D>(chk: bool, t: Tree<D>, p: Path)
    requires WellFormed(t)
    ensures WellFormed(Pruned(chk, t, p))
  {
    var u := Pruned(chk, t, p);
    forall q | q in u && q != [] ensures IsDirAt(u, Parent(q)) {
      assert IsDirAt(t, Parent(q));
      ReachIsUnder(t, p, q);
      ReachIsUnder(t, p, Parent(q));
      PrefixOfParent(p, q);
    }
  }

  /** Moving a directory keeps the tree exactly when it lands in a directory outside itself. */
  lemma MovedKeeps<D>(t: Tree<D>, o: Path, n: Path)
    requires WellFormed(t) && IsDirAt(t, o) && n !in t
    ensures WellFormed(Moved(t, o, n)) <==> IsDirAt(t, Parent(n)) && !(o <= n)
  {
    var v := Moved(t, o, n);
    AbsentHasNoneUnder(t, n);
    ReachRoot(t, o);
    assert n != [] by { if n == [] { AncestorOrSelf(t, o, 0); } }
    MovedAt(t, o, n, n);
    assert o + n[|n|..] == o;
    assert n in v;
    if IsDirAt(t, Parent(n)) && !(o <= n) {
      forall q | q in v && q != [] ensures IsDirAt(v, Parent(q)) {
        if n <= q && q != n { MovedParentInside(t, o, n, q); } else { MovedParentOutside(t, o, n, q); }
      }
    } else if o <= n {
      MovedAt(t, o, n, o);
      assert n[..|o|] == o && n != o;
      assert o !in v;
      if WellFormed(v) { AncestorOrSelf(v, n, |o|); }
    } else {
      var p := Parent(n);
      MovedAt(t, o, n, p);
      PrefixOfParent(o, n);
      assert !IsDirAt(v, p);
    }
  }

  lemma ReachRoot<D>(t: Tree<D>, o: Path)
    requires o in t
    ensures Reach(t, o, o)
  {
    assert o <= o;
  }

  lemma AncestorOrSelf<D>(t: Tree<D>, p: Path, i: nat)
    requires WellFormed(t) && p in t && i <= |p|
    ensures p[..i] in t
  {
    if i < |p| { AncestorsPresent(t, p, i); } else { assert p[..i] == p; }
  }

  /** A record in the moved subtree keeps its parent beside it. */
  lemma MovedParentInside<D>(t: Tree<D>, o: Path, n: Path, q: Path)
    requires WellFormed(t) && IsDirAt(t, o) && n !in t
    requires q in Moved(t, o, n) && n <= q && q != n
    ensures IsDirAt(Moved(t, o, n), Parent(q))
  {
    AbsentHasNoneUnder(t, n);
    MovedAt(t, o, n, q);
    PrefixOfParent(n, q);
    MovedAt(t, o, n, Parent(q));
    var r := o + q[|n|..];
    assert Parent(r) == o + Parent(q)[|n|..];
    assert IsDirAt(t, Parent(r));
    ReachIsUnder(t, o, r);
    ReachIsUnder(t, o, Parent(r));
  }

  /** So does a record outside it, and the moved directory itself. */
  lemma MovedParentOutside<D>(t: Tree<D>, o: Path, n: Path, q: Path)
    requires WellFormed(t) && IsDirAt(t, o) && n !in t
    requires IsDirAt(t, Parent(n)) && !(o <= n)
    requires q in Moved(t, o, n) && q != [] && (q == n || !(n <= q))
    ensures IsDirAt(Moved(t, o, n), Parent(q))
  {
    AbsentHasNoneUnder(t, n);
    MovedAt(t, o, n, q);
    PrefixOfParent(n, q);
    MovedAt(t, o, n, Parent(q));
    assert IsDirAt(t, Parent(q));
    ReachIsUnder(t, o, q);
    ReachIsUnder(t, o, Parent(q));
    PrefixOfParent(o, q);
  }

  lemma PrefixOfParent(p: Path, q: Path)
    requires q != []
    ensures p <= Parent(q) <==> p <= q && p != q
  {
    assert Parent(q) == q[..|q| - 1];
    if p <= Parent(q) { assert p == Parent(q)[..|p|]; }
    if p <= q && |p| < |q| { assert p == Parent(q)[..|p|]; }
  }

  /** The checked store keeps its root, so moving the root one level down keeps the tree. */
  lemma RootMovedKeeps<D>(t: Tree<D>, n: Path)
    requires WellFormed(t) && IsDirAt(t, []) && n !in t && |n| == 1
    ensures WellFormed(Moved(t, [], n)[[] := t[[]]])
  {
    var v := Moved(t, [], n)[[] := t[[]]];
    AbsentHasNoneUnder(t, n);
    forall q | q in v && q != [] ensures IsDirAt(v, Parent(q)) {
      MovedAt(t, [], n, q);
      var p := Parent(q);
      MovedAt(t, [], n, p);
      ReachIsUnder(t, [], q);
      if q != n {
        var r := [] + q[|n|..];
        assert Parent(r) == [] + p[|n|..];
        assert IsDirAt(t, Parent(r));
        ReachIsUnder(t, [], Parent(r));
      }
    }
  }

  /** Moving a file: the target must lie in a directory and hold nothing but the file itself. */
  lemma FileRenameKeeps<D>(chk: bool, t: Tree<D>, o: Path, n: Path)
    requires WellFormed(t) && o in t && !IsDir(t[o].mode) && o != n
    ensures WellFormed(Delete(chk, t[n := t[o]], o)) <==>
            (n == [] || IsDirAt(t, Parent(n))) && forall c :: IsChild(t, n, c) ==> n + [c] == o
  {
    if n != [] && !IsDirAt(t, Parent(n)) {
      assert Parent(n) != n && n in Delete(chk, t[n := t[o]], o);
    } else if c :| IsChild(t, n, c) && n + [c] != o {
      OrphanedByFile(chk, t, o, n, c);
    } else {
      FileRenameFits(chk, t, o, n);
    }
  }

  /** A child of the target loses its directory... */
  lemma OrphanedByFile<D>(chk: bool, t: Tree<D>, o: Path, n: Path, c: string)
    requires o in t && !IsDir(t[o].mode) && o != n && IsChild(t, n, c) && n + [c] != o
    ensures !WellFormed(Delete(chk, t[n := t[o]], o))
  {
    var q := n + [c];
    assert Parent(q) == n && q != [];
    assert q in Delete(chk, t[n := t[o]], o);
  }

  /** ...and otherwise nothing loses one: neither the target nor the moved file is a parent. */
  lemma FileRenameFits<D>(chk: bool, t: Tree<D>, o: Path, n: Path)
    requires WellFormed(t) && o in t && !IsDir(t[o].mode) && o != n
    requires n == [] || IsDirAt(t, Parent(n))
    requires forall c :: IsChild(t, n, c) ==> n + [c] == o
    ensures WellFormed(Delete(chk, t[n := t[o]], o))
  {
    var u := Delete(chk, t[n := t[o]], o);
    forall q | q in u && q != [] ensures IsDirAt(u, Parent(q)) {
      if q != n {
        assert IsDirAt(t, Parent(q));
        assert q == Parent(q) + [q[|q| - 1]];
        if Parent(q) == n { assert IsChild(t, n, q[|q| - 1]); }
      }
    }
  }

  /** MkdirAll's new tree, key by key. */
  lemma {:induction false} FilledAt<D>(t: Tree<D>, p: Path, lo: nat, hi: nat, perm: FileMode, a: nat -> Alloc<D>,
                                       q: Path)
    requires hi <= |p| + 1
    ensures var u := Filled(t, p, lo, hi, perm, a);
            var isNew := q <= p && lo <= |q| < hi;
            && (q in u <==> q in t || isNew)
            && (q in u ==> u[q] == if isNew then NewDir(perm, a(|q|)) else t[q])
            && (IsDirAt(u, q) <==> isNew || IsDirAt(t, q))
    decreases hi
  {
    if lo < hi {
      FilledAt(t, p, lo, hi - 1, perm, a, q);
      assert q <= p ==> q == p[..|q|];
      TypeBitsKept(0, perm);
    }
  }

  /** MkdirAll leaves a well-formed tree after each directory it makes. */
  lemma FilledKeeps<D>(t: Tree<D>, p: Path, hi: nat, perm: FileMode, a: nat -> Alloc<D>)
    requires WellFormed(t)
    requires var j := Deepest(t, p, |p|); (0 <= j ==> IsDirAt(t, p[..j])) && j + 1 <= hi <= |p| + 1
    ensures WellFormed(Filled(t, p, Deepest(t, p, |p|) + 1, hi, perm, a))
  {
    var lo := Deepest(t, p, |p|) + 1;
    var u := Filled(t, p, lo, hi, perm, a);
    forall q | q in u && q != [] ensures IsDirAt(u, Parent(q)) {
      FilledAt(t, p, lo, hi, perm, a, q);
      FilledAt(t, p, lo, hi, perm, a, Parent(q));
      PrefixOfParent(Parent(q), q);
      if q in t {
        assert IsDirAt(t, Parent(q));
      } else if |q| == lo {
        assert Parent(q) == p[..|q| - 1];
      }
    }
  }

  /** The prefixes of p afterwards. */
  lemma FilledPrefixes<D>(t: Tree<D>, p: Path, perm: FileMode, a: nat -> Alloc<D>)
    ensures var j := Deepest(t, p, |p|);
            forall i | 0 <= i <= |p| ::
              IsDirAt(Filled(t, p, j + 1, |p| + 1, perm, a), p[..i]) <==> j < i || IsDirAt(t, p[..i])
  {
    var j := Deepest(t, p, |p|);
    var u := Filled(t, p, j + 1, |p| + 1, perm, a);
    forall i | 0 <= i <= |p| ensures IsDirAt(u, p[..i]) <==> j < i || IsDirAt(t, p[..i]) {
      FilledAt(t, p, j + 1, |p| + 1, perm, a, p[..i]);
    }
  }

  /** What was there stays, and only prefixes of p are new. */
  lemma FilledKeepsOld<D>(t: Tree<D>, p: Path, perm: FileMode, a: nat -> Alloc<D>)
    ensures var u := Filled(t, p, Deepest(t, p, |p|) + 1, |p| + 1, perm, a);
            forall q :: (q in t ==> q in u && u[q] == t[q]) && (q in u && q !in t ==> q <= p)
  {
    var j := Deepest(t, p, |p|);
    var u := Filled(t, p, j + 1, |p| + 1, perm, a);
    forall q ensures (q in t ==> q in u && u[q] == t[q]) && (q in u && q !in t ==> q <= p) {
      FilledAt(t, p, j + 1, |p| + 1, perm, a, q);
      assert q <= p ==> q == p[..|q|];
    }
  }

  /** In a well-formed tree no prefix of p is a file unless the longest present one is. */
  lemma NoFileOnTheWay<D>(t: Tree<D>, p: Path)
    requires WellFormed(t)
    ensures var j := Deepest(t, p, |p|);
            && (forall i | 0 <= i < j :: IsDirAt(t, p[..i]))
            && (j < 0 || IsDirAt(t, p[..j]) <==> forall i | 0 <= i <= |p| :: p[..i] in t ==> IsDirAt(t, p[..i]))
  {
    var j := Deepest(t, p, |p|);
    forall i | 0 <= i < j ensures IsDirAt(t, p[..i]) {
      AncestorsPresent(t, p[..j], i);
      assert p[..j][..i] == p[..i];
    }
  }

  /** On a well-formed tree MkdirAll ends with every prefix of its path a directory,
      and every earlier record as it was; a file on the way means nothing was written. */
  lemma MkdirAllComplete<D>(t: Tree<D>, name: Name, perm: FileMode, a: nat -> Alloc<D>)
    requires WellFormed(t) && name.Good?
    ensures var (u, err) := MkdirAllSpec(t, name, perm, a);
            var p := name.path;
            && (forall q | q in t :: q in u && u[q] == t[q])
            && (forall q | q in u && q !in t :: q <= p)
            && (err == Nil <==> forall i | 0 <= i <= |p| :: p[..i] in t ==> IsDirAt(t, p[..i]))
            && (if err == Nil then forall i | 0 <= i <= |p| :: IsDirAt(u, p[..i]) else u == t)
  {
    var p := name.path;
    NoFileOnTheWay(t, p);
    if MkdirAllSpec(t, name, perm, a).1 == Nil {
      FilledPrefixes(t, p, perm, a);
      FilledKeepsOld(t, p, perm, a);
    }
  }

  /** Stopping at the first directory found is right only because the tree is well-formed:
      in any tree, the prefixes all end up directories exactly when those above the stopping
      point already were. */
  lemma MkdirAllStopsEarly<D>(t: Tree<D>, name: Name, perm: FileMode, a: nat -> Alloc<D>)
    requires name.Good? && MkdirAllSpec(t, name, perm, a).1 == Nil
    ensures var p := name.path;
            (forall i | 0 <= i <= |p| :: IsDirAt(MkdirAllSpec(t, name, perm, a).0, p[..i])) <==>
            (forall i | 0 <= i < Deepest(t, p, |p|) :: IsDirAt(t, p[..i]))
  {
    var p := name.path;
    FilledPrefixes(t, p, perm, a);
  }

  /** The operation ends and leaves the tree well-formed. */
  ghost predicate EndsWell<D>(r: (Tree<D>, Error)) {
    r.1 != StackOverflow && WellFormed(r.0)
  }

  lemma MkdirAllKeeps<D>(t: Tree<D>, name: Name, perm: FileMode, a: nat -> Alloc<D>)
    requires WellFormed(t)
    ensures EndsWell(MkdirAllSpec(t, name, perm, a))
  {
    if name.Good? {
      var p := name.path;
      var j := Deepest(t, p, |p|);
      if j < 0 || IsDirAt(t, p[..j]) { FilledKeeps(t, p, |p| + 1, perm, a); }
    }
  }

  lemma ChangeSpecKeeps<D>(chk: bool, t: Tree<D>, name: Name, change: Record<D> -> Record<D>)
    requires WellFormed(t)
    requires forall p | p in t :: IsDir(change(t[p]).mode) == IsDir(t[p].mode)
    ensures EndsWell(ChangeSpec(chk, t, name, change))
  {
    if name.Good? && name.path in t {
      ChangeKeeps(t, name.path, change(t[name.path]));
    }
  }

  lemma ChmodKeeps<D>(chk: bool, t: Tree<D>, name: Name, mode: FileMode)
    requires WellFormed(t)
    ensures EndsWell(ChangeSpec(chk, t, name, r => Chmodded(r, mode)))
  {
    forall p | p in t ensures IsDir(Chmodded(t[p], mode).mode) == IsDir(t[p].mode) {
      TypeBitsKept(t[p].mode, mode);
    }
    ChangeSpecKeeps(chk, t, name, r => Chmodded(r, mode));
  }

  lemma MkdirKeeps<D>(chk: bool, t: Tree<D>, name: Name, perm: FileMode, a: Alloc<D>)
    requires WellFormed(t)
    ensures EndsWell(MkdirSpec(chk, t, name, perm, a)) <==> (name.Good? ==> !FileAsParent(chk, t, name.path))
  {
    if name.Good? && name.path !in t { CreateKeeps(chk, t, name.path, NewDir(perm, a)); }
  }

  lemma OpenKeeps<D>(chk: bool, t: Tree<D>, name: Name, create: bool, writeOnly: bool, perm: FileMode, a: Alloc<D>)
    requires WellFormed(t)
    ensures EndsWell(OpenSpec(chk, t, name, create, writeOnly, perm, a)) <==>
            (name.Good? && create ==> !FileAsParent(chk, t, name.path))
  {
    if name.Good? && name.path !in t { CreateKeeps(chk, t, name.path, NewFile(perm, a)); }
  }

  /** Each operation ends and keeps the tree well-formed exactly when its guard holds. */
  lemma StepKeeps<D>(chk: bool, t: Tree<D>, op: Op<Name, D>)
    requires WellFormed(t)
    ensures EndsWell(Step(chk, t, op)) <==> Guard(chk, t, op)
  {
    match op
    case Mkdir(name, perm, a) => MkdirKeeps(chk, t, name, perm, a);
    case MkdirAll(name, perm, a) => MkdirAllKeeps(t, name, perm, a);
    case Open(name, create, wronly, perm, a) => OpenKeeps(chk, t, name, create, wronly, perm, a);
    case Remove(name) => RemoveKeeps(chk, t, name);
    case RemoveAll(name) => if name.Good? { PrunedKeeps(chk, t, name.path); }
    case Rename(oldname, newname) => RenameKeeps(chk, t, oldname, newname);
    case Chmod(name, mode) => ChmodKeeps(chk, t, name, mode);
    case Chtimes(name, mtime) => ChangeSpecKeeps(chk, t, name, r => Chtimed(r, mtime));
  }

  lemma CreateKeeps<D>(chk: bool, t: Tree<D>, p: Path, r: Record<D>)
    requires WellFormed(t) && p !in t
    ensures Parent(p) in t || p == [] ==> (WellFormed(Put(chk, t, p, r).0) <==> !FileAsParent(chk, t, p))
  {
    PutKeeps(t, p, r);
  }

  lemma RemoveKeeps<D>(chk: bool, t: Tree<D>, name: Name)
    requires WellFormed(t)
    ensures EndsWell(RemoveSpec(chk, t, name))
  {
    if !name.Good? { return; }
    var p := name.path;
    forall c ensures IsChild(t, p, c) ==> IsDirAt(t, p) {
      assert Parent(p + [c]) == p;
    }
    if !exists c :: IsChild(t, p, c) { DeleteKeeps(chk, t, p); }
  }

  lemma RenameKeeps<D>(chk: bool, t: Tree<D>, oldname: Name, newname: Name)
    requires WellFormed(t)
    ensures EndsWell(RenameSpec(chk, t, oldname, newname)) <==> RenameGuard(chk, t, oldname, newname)
  {
    if !oldname.Good? || !newname.Good? || oldname.path !in t { return; }
    var o, n := oldname.path, newname.path;
    if !IsDir(t[o].mode) {
      if o != n { FileRenameKeeps(chk, t, o, n); }
    } else if n !in t && !Refused(chk, t, n) {
      MovedKeeps(t, o, n);
      ChainIff(t, o, n);
      AncestorOrSelf(t, o, 0);
      if chk && o == [] {
        if |n| == 1 { RootMovedKeeps(t, n); }
      }
    }
  }

  /** In a well-formed tree a directory rename never ends exactly when the target lies two or
      more levels inside the renamed directory and has a directory as parent. */
  lemma ChainIff<D>(t: Tree<D>, o: Path, n: Path)
    requires WellFormed(t)
    ensures Chain(t, o, n) <==> o <= n && |o| + 2 <= |n| && IsDirAt(t, Parent(n))
  {
    if o <= n && |o| + 2 <= |n| {
      assert Parent(n) == n[..|n| - 1];
      if IsDirAt(t, Parent(n)) {
        forall i | |o| <= i < |n| ensures IsDirAt(t, n[..i]) {
          if i < |n| - 1 {
            AncestorsPresent(t, Parent(n), i);
            assert Parent(n)[..i] == n[..i];
          }
        }
      }
    }
  }

  /** Renaming a directory of a well-formed tree to a free name: unless the store refuses the name, it
      either never ends, or is an exact move of the subtree, which loses no record and touches none
      outside.  The checked store keeps its root besides. */
  lemma DirectoryRename<D>(chk: bool, t: Tree<D>, o: Path, n: Path)
    requires WellFormed(t) && IsDirAt(t, o) && n !in t
    ensures var (u, err) := RenameSpec(chk, t, Good(o), Good(n));
            if Refused(chk, t, n) then err == Aborted && u == t
            else if o <= n && |o| + 2 <= |n| && IsDirAt(t, Parent(n)) then err == StackOverflow
            else if chk && o == [] then err == Nil && o in u && u[o] == t[o] && SubtreeMoved(t, o, n, u - {o})
            else err == Nil && SubtreeMoved(t, o, n, u)
  {
    ChainIff(t, o, n);
    RenameDirSpec(chk, t, o, n);
    AbsentHasNoneUnder(t, n);
    if !Refused(chk, t, n) && !Chain(t, o, n) {
      assert SubtreeMoved(t, o, n, Moved(t, o, n)) by { MovedIsSubtreeMoved(t, o, n); }
      if chk && o == [] { KeptRoot(t, n); }
    }
  }

  lemma KeptRoot<D>(t: Tree<D>, n: Path)
    requires WellFormed(t) && [] in t && NoneUnder(t, n)
    ensures Moved(t, [], n)[[] := t[[]]] - {[]} == Moved(t, [], n)
  {
    MovedKey(t, [], n, []);
  }

  lemma RenameDirSpec<D>(chk: bool, t: Tree<D>, o: Path, n: Path)
    requires IsDirAt(t, o) && n !in t
    ensures var (u, err) := RenameSpec(chk, t, Good(o), Good(n));
            if Refused(chk, t, n) then err == Aborted && u == t
            else if Chain(t, o, n) then err == StackOverflow
            else err == Nil && u == if chk && o == [] then Moved(t, o, n)[o := t[o]] else Moved(t, o, n)
  {
  }

  lemma MovedIsSubtreeMoved<D>(t: Tree<D>, o: Path, n: Path)
    requires WellFormed(t) && NoneUnder(t, n)
    ensures SubtreeMoved(t, o, n, Moved(t, o, n))
  {
    forall k ensures MovedFrom(t, o, n, Moved(t, o, n), k) { MovedKey(t, o, n, k); }
    forall k | k in t ensures Target(o, n, k) in Moved(t, o, n) && Moved(t, o, n)[Target(o, n, k)] == t[k] {
      MovedRecord(t, o, n, k);
    }
  }

  lemma MovedKey<D>(t: Tree<D>, o: Path, n: Path, k: Path)
    requires WellFormed(t) && NoneUnder(t, n)
    ensures MovedFrom(t, o, n, Moved(t, o, n), k)
    ensures k in Moved(t, o, n) ==> Moved(t, o, n)[k] == t[Origin(t, o, n, k)]
  {
    MovedAt(t, o, n, k);
    if n <= k { ReachIsUnder(t, o, o + k[|n|..]); } else { ReachIsUnder(t, o, k); }
  }

  lemma MovedRecord<D>(t: Tree<D>, o: Path, n: Path, k: Path)
    requires WellFormed(t) && NoneUnder(t, n) && k in t
    ensures Target(o, n, k) in Moved(t, o, n) && Moved(t, o, n)[Target(o, n, k)] == t[k]
  {
    MovedKey(t, o, n, Target(o, n, k));
    if o <= k {
      assert (n + k[|o|..])[|n|..] == k[|o|..];
      assert o + k[|o|..] == k;
    }
  }

  /** Where a rename from o to n takes the key k. */
  function Target(o: Path, n: Path, k: Path): Path {
    if o <= k then n + k[|o|..] else k
  }

  /** A key is present exactly when it lies under n and its origin was present, or it was present
      and lies outside both. */
  ghost predicate MovedFrom<D>(t: Tree<D>, o: Path, n: Path, u: Tree<D>, k: Path) {
    k in u <==> if n <= k then o + k[|n|..] in t else k in t && !(o <= k)
  }

  ghost predicate SubtreeMoved<D>(t: Tree<D>, o: Path, n: Path, u: Tree<D>) {
    && (forall k :: MovedFrom(t, o, n, u, k))
    && (forall k | k in t :: Target(o, n, k) in u && u[Target(o, n, k)] == t[k])
  }

  /** Renaming back undoes a directory rename, to the last record. */
  lemma RenameBack<D>(chk: bool, t: Tree<D>, o: Path, n: Path)
    requires WellFormed(t) && IsDirAt(t, o) && o != [] && n !in t && IsDirAt(t, Parent(n)) && !(o <= n)
    ensures var (u, err) := RenameSpec(chk, t, Good(o), Good(n));
            err == Nil && RenameSpec(chk, u, Good(n), Good(o)) == (t, Nil)
  {
    DirectoryRename(chk, t, o, n);
    var u := RenameSpec(chk, t, Good(o), Good(n)).0;
    RenamedPlaces(chk, t, o, n, u);
    DirectoryRename(chk, u, n, o);
    MovedBack(t, o, n, u, RenameSpec(chk, u, Good(n), Good(o)).0);
  }

  /** After the rename, the old name is free and its parent still there. */
  lemma RenamedPlaces<D>(chk: bool, t: Tree<D>, o: Path, n: Path, u: Tree<D>)
    requires WellFormed(t) && IsDirAt(t, o) && o != [] && n !in t && IsDirAt(t, Parent(n)) && !(o <= n)
    requires u == RenameSpec(chk, t, Good(o), Good(n)).0
    ensures WellFormed(u) && IsDirAt(u, n) && n != [] && o !in u && IsDirAt(u, Parent(o)) && !(n <= o)
  {
    RenameDirSpec(chk, t, o, n);
    AncestorOrSelf(t, o, 0);
    AbsentHasNoneUnder(t, n);
    MovedKeeps(t, o, n);
    MovedKey(t, o, n, n);
    assert o + n[|n|..] == o;
    MovedKey(t, o, n, o);
    MovedKey(t, o, n, Parent(o));
    assert IsDirAt(t, Parent(o));
    PrefixOfParent(o, o);
  }

  lemma MovedBack<D>(t: Tree<D>, o: Path, n: Path, u: Tree<D>, v: Tree<D>)
    requires WellFormed(t) && n !in t && SubtreeMoved(t, o, n, u) && SubtreeMoved(u, n, o, v) && !(o <= n)
    ensures v == t
  {
    AbsentHasNoneUnder(t, n);
    forall k ensures k in v <==> k in t
             ensures k in t ==> v[k] == t[k] {
      MovedBackKey(t, o, n, u, v, k);
    }
  }

  lemma MovedBackKey<D>(t: Tree<D>, o: Path, n: Path, u: Tree<D>, v: Tree<D>, k: Path)
    requires NoneUnder(t, n) && SubtreeMoved(t, o, n, u) && SubtreeMoved(u, n, o, v) && !(o <= n)
    ensures k in v <==> k in t
    ensures k in t ==> v[k] == t[k]
  {
    assert MovedFrom(u, n, o, v, k);
    if o <= k {
      var m := n + k[|o|..];
      assert m[|n|..] == k[|o|..] && o + k[|o|..] == k;
      assert MovedFrom(t, o, n, u, m);
    } else {
      assert MovedFrom(t, o, n, u, k);
    }
    if k in t {
      var m := Target(o, n, k);
      assert m in u && u[m] == t[k];
      assert Target(n, o, m) == k;
    }
  }

  /** Removing a directory just made undoes the making. */
  lemma MkdirThenRemove<D>(chk: bool, t: Tree<D>, name: Name, perm: FileMode, a: Alloc<D>)
    requires WellFormed(t) && MkdirSpec(chk, t, name, perm, a).1 == Nil && !(chk && name == Good([]))
    ensures RemoveSpec(chk, MkdirSpec(chk, t, name, perm, a).0, name) == (t, Nil)
  {
    var p := name.path;
    AbsentHasNoneUnder(t, p);
    var u := MkdirSpec(chk, t, name, perm, a).0;
    forall c ensures !IsChild(u, p, c) {
      assert p <= p + [c] && p + [c] != p;
    }
    assert u - {p} == t;
  }

  /** RemoveAll on a well-formed tree deletes the path and everything under it, and nothing else;
      the checked store's root alone survives. */
  lemma RemoveAllExact<D>(chk: bool, t: Tree<D>, p: Path)
    requires WellFormed(t)
    ensures var (u, err) := RemoveAllSpec(chk, t, Good(p));
            err == Nil &&
            (forall q :: q in u <==> q in t && (!(p <= q) || (chk && q == []))) &&
            (forall q | q in u :: u[q] == t[q])
  {
    forall q | q in t ensures Reach(t, p, q) <==> p <= q {
      ReachIsUnder(t, p, q);
    }
  }

  // ---------- a tree on which each guard fails ----------

  ghost predicate Small<D>(t: Tree<D>, f: Record<D>, d: Record<D>) {
    !IsDir(f.mode) && IsDir(d.mode) && t == map[[] := d, ["f"] := f, ["d"] := d, ["d", "e"] := d]
  }

  lemma SmallTree<D>(t: Tree<D>, f: Record<D>, d: Record<D>)
    requires Small(t, f, d)
    ensures WellFormed(t)
  {
    assert Parent(["d", "e"]) == ["d"] && Parent(["d"]) == Parent(["f"]) == [];
  }

  /** In memory, a directory can be made below a file. */
  lemma MkdirBelowFile<D>(t: Tree<D>, f: Record<D>, d: Record<D>, perm: FileMode, a: Alloc<D>)
    requires Small(t, f, d)
    ensures WellFormed(t) && !WellFormed(Step(false, t, Mkdir(Good(["f", "x"]), perm, a)).0)
  {
    SmallTree(t, f, d);
    StepKeeps(false, t, Mkdir(Good(["f", "x"]), perm, a));
    assert Parent(["f", "x"]) == ["f"];
  }

  /** Either store lets a file replace a directory that has children. */
  lemma FileOverDirectory<D>(chk: bool, t: Tree<D>, f: Record<D>, d: Record<D>)
    requires Small(t, f, d)
    ensures WellFormed(t) && !WellFormed(Step(chk, t, Rename(Good(["f"]), Good(["d"]))).0)
  {
    SmallTree(t, f, d);
    StepKeeps(chk, t, Rename(Good(["f"]), Good(["d"])));
    assert ["d"] + ["e"] == ["d", "e"];
    assert IsChild(t, ["d"], "e");
    assert Parent(["d"]) == [];
  }

  /** Renaming a directory to a new name two levels inside itself never ends. */
  lemma RenameIntoSelf<D>(chk: bool, t: Tree<D>, f: Record<D>, d: Record<D>)
    requires Small(t, f, d)
    ensures Step(chk, t, Rename(Good(["d"]), Good(["d", "e", "g"]))).1 == StackOverflow
  {
    SmallTree(t, f, d);
    assert Parent(["d", "e", "g"]) == ["d", "e"];
    assert ["d"] <= ["d", "e", "g"];
    ChainIff(t, ["d"], ["d", "e", "g"]);
  }

  /** In memory, a file can be made below a file. */
  lemma OpenBelowFile<D>(t: Tree<D>, f: Record<D>, d: Record<D>, perm: FileMode, a: Alloc<D>)
    requires Small(t, f, d)
    ensures WellFormed(t) && !WellFormed(Step(false, t, Op.Open(Good(["f", "x"]), true, false, perm, a)).0)
  {
    SmallTree(t, f, d);
    StepKeeps(false, t, Op.Open(Good(["f", "x"]), true, false, perm, a));
    assert Parent(["f", "x"]) == ["f"];
  }

  /** With a directory missing between two that are there, MkdirAll below them does not make it. */
  lemma MkdirAllLeavesGap<D>(t: Tree<D>, d: Record<D>, perm: FileMode, a: nat -> Alloc<D>)
    requires IsDir(d.mode) && t == map[[] := d, ["d", "e"] := d]
    ensures var (u, err) := Step(false, t, MkdirAll(Good(["d", "e", "g"]), perm, a));
            err == Nil && ["d", "e", "g"] in u && ["d"] !in u
  {
    var p := ["d", "e", "g"];
    assert p[..3] == p && p[..2] == ["d", "e"] && p[..1] == ["d"];
    assert Deepest(t, p, 3) == 2;
    FilledAt(t, p, 3, 4, perm, a, p);
    FilledAt(t, p, 3, 4, perm, a, ["d"]);
  }

  // ---------- whole runs ----------

  /** Every operation of the run ends, and the tree is well-formed after each. */
  ghost predicate RunWellFormed<D>(chk: bool, t: Tree<D>, ops: seq<Op<Name, D>>)
    decreases |ops|
  {
    WellFormed(t) &&
    (ops != [] ==> var (u, err) := Step(chk, t, ops[0]);
                   err != StackOverflow && RunWellFormed(chk, u, ops[1..]))
  }

  ghost function RunEnd<D>(chk: bool, t: Tree<D>, ops: seq<Op<Name, D>>): Tree<D>
    decreases |ops|
  {
    if ops == [] then t else RunEnd(chk, Step(chk, t, ops[0]).0, ops[1..])
  }

  /** Every operation meets its guard in the tree it starts from. */
  ghost predicate RunGuarded<D>(chk: bool, t: Tree<D>, ops: seq<Op<Name, D>>)
    decreases |ops|
  {
    ops != [] ==> Guard(chk, t, ops[0]) && RunGuarded(chk, Step(chk, t, ops[0]).0, ops[1..])
  }

  /** Over every run from a well-formed tree: all its states are well-formed exactly when
      every operation met its guard. */
  lemma {:induction false} RunKeeps<D>(chk: bool, t: Tree<D>, ops: seq<Op<Name, D>>)
    requires WellFormed(t)
    ensures RunWellFormed(chk, t, ops) <==> RunGuarded(chk, t, ops)
    decreases |ops|
  {
    if ops != [] {
      StepKeeps(chk, t, ops[0]);
      var (u, err) := Step(chk, t, ops[0]);
      if WellFormed(u) {
        RunKeeps(chk, u, ops[1..]);
      }
    }
  }
}
