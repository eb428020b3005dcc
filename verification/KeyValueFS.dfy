/** keyvalue.FS: Mkdir, MkdirAll, OpenFile, Remove, Rename, Chmod, Chtimes, and the generic
    RemoveAll on top of them.  Every public operation starts and ends with the store's lock
    free, and never asks for it while holding it: `Idle` in its contract says both. */
module KeyValueFS {
  import opened Paths
  import opened FileModes
  import opened Trees
  import opened TreeOps
  import opened KeyValue
  import opened Wrappers

  function Parse(s: string): Name {
    if ValidPath(s) then Good(Decode(s)) else Bad
  }

  lemma ParseInjective(a: string, b: string)
    requires ValidPath(a) && ValidPath(b)
    ensures Parse(a) == Parse(b) <==> a == b
  {
    assert Encode(Decode(a)) == a && Encode(Decode(b)) == b;
  }

  lemma JoinChild(dir: string, c: string)
    requires ValidPath(dir) && IsName(c)
    ensures Parse(Join([dir, c])) == Good(Decode(dir) + [c])
  {
    NameIsValid(c);
    JoinValid(dir, c);
  }

  class FS<D> {
    const store: Store<D>

    constructor (store: Store<D>)
      ensures this.store == store
    {
      this.store := store;
    }

    // ---------- single records ----------

    method GetFile(name: string) returns (file: Option<Record<D>>, err: Error)
      requires store.Idle()
      modifies store
      ensures store.Idle() && store.tree == old(store.tree)
      ensures Parse(name).Bad? ==> file == None && err == Invalid
      ensures Parse(name).Good? ==>
                if Parse(name).path in store.tree then file == Some(store.tree[Parse(name).path]) && err == Nil
                else file == None && err == NotExist
    {
      if !ValidPath(name) {
        return None, Invalid;
      }
      store.Begin();
      store.Get(name);
      var results, commitErr := store.Commit();
      return results[0].record, results[0].err;
    }

    /** Writes (or with None deletes) a record, whose data can be read or not.  On an invalid path
        it returns with the store still locked, so every caller must have validated the path; and
        what the store reports about the single write is not looked at.  The file system's own
        records can all be read; others could come from another user of the store. */
    method SetFile(name: string, src: Option<Record<D>>, readable: bool) returns (err: Error)
      requires store.Idle()
      modifies store
      ensures store.Valid()
      ensures SetFileDone(store.parentChecked, old(store.tree), Parse(name), src, readable,
                          store.tree, store.locked, err)
    {
      if src.Some? && IsRegular(src.value.mode) && !readable {
        return Unreadable;
      }
      store.Begin();
      if !ValidPath(name) {
        return Invalid;
      }
      store.Set(name, src, readable);
      var _, commitErr := store.Commit();
      return commitErr;
    }

    method Stat(name: string) returns (file: Option<Record<D>>, err: Error)
      requires store.Idle()
      modifies store
      ensures store.Idle() && store.tree == old(store.tree)
      ensures Parse(name).Bad? ==> file == None && err == Invalid
      ensures Parse(name).Good? ==>
                if Parse(name).path in store.tree then file == Some(store.tree[Parse(name).path]) && err == Nil
                else file == None && err == NotExist
    {
      file, err := GetFile(name);
    }

    // ---------- creating ----------

    method Mkdir(name: string, perm: FileMode, a: Alloc<D>) returns (err: Error)
      requires store.Idle()
      modifies store
      ensures store.Idle()
      ensures (store.tree, err) == MkdirSpec(store.parentChecked, old(store.tree), Parse(name), perm, a)
    {
      var dir := NewDir(perm, a);
      var _, statErr := Stat(name);
      if statErr == Nil {
        return Exist;
      } else if statErr != NotExist {
        return statErr;
      }
      DirValid(name);
      if name != "." {
        var _, parentErr := Stat(Dir(name));
        if parentErr != Nil {
          return parentErr;
        }
      }
      assert name == "." <==> Decode(name) == [] by { assert Encode(Decode(name)) == name; }
      err := SetFile(name, Some(dir), true);
    }

    /** All the given paths in one transaction. */
    method GetFileRecords(paths: seq<string>) returns (results: seq<OpResult<D>>)
      requires store.Idle() && forall s | s in paths :: ValidPath(s)
      modifies store
      ensures store.Idle() && store.tree == old(store.tree) && |results| == |paths|
      ensures forall i | 0 <= i < |paths| :: results[i] == Lookup(store.tree, Decode(paths[i]))
    {
      store.Begin();
      for i := 0 to |paths|
        invariant store.Valid() && store.locked && store.tree == old(store.tree) && !store.refused
        invariant |store.results| == i
        invariant forall k | 0 <= k < i :: store.results[k] == Lookup(old(store.tree), Decode(paths[k]))
      {
        assert paths[i] in paths;
        store.Get(paths[i]);
      }
      var commitErr;
      results, commitErr := store.Commit();
    }

    /** The paths MkdirAll must create, deepest first. */
    method FindMissingDirs(name: string) returns (missing: seq<string>, err: Error)
      requires store.Idle()
      modifies store
      ensures store.Idle() && store.tree == old(store.tree)
      ensures Parse(name).Bad? ==> err == Invalid
      ensures Parse(name).Good? ==> MissingDirs(store.tree, Parse(name).path, missing, err)
    {
      if !ValidPath(name) {
        return [], Invalid;
      }
      var paths := AncestorPaths(name);
      var results := GetFileRecords(paths);
      missing, err := FirstPresent(paths, results, store.tree, Decode(name));
    }

    method MkdirAll(name: string, perm: FileMode, allocs: nat -> Alloc<D>) returns (err: Error)
      requires store.Idle()
      modifies store
      ensures store.Idle()
      ensures (store.tree, err) == MkdirAllSpec(old(store.tree), Parse(name), perm, allocs)
    {
      var missing, findErr := FindMissingDirs(name);
      if findErr != Nil {
        return findErr;
      }
      err := CreateDirs(missing, perm, allocs, store.tree, Decode(name));
    }

    method CreateDirs(missing: seq<string>, perm: FileMode, allocs: nat -> Alloc<D>, ghost t: Tree<D>, ghost p: Path)
      returns (err: Error)
      requires store.Idle() && store.tree == t && MissingDirs(t, p, missing, Nil)
      modifies store
      ensures store.Idle() && err == Nil
      ensures store.tree == Filled(t, p, Deepest(t, p, |p|) + 1, |p| + 1, perm, allocs)
    {
      ghost var lo := Deepest(t, p, |p|) + 1;
      var i := |missing|;
      ghost var k := lo;
      while i > 0
        invariant 0 <= i <= |missing|
        invariant k == |p| + 1 - i && store.Idle() && store.tree == Filled(t, p, lo, k, perm, allocs)
      {
        i := i - 1;
        assert Parse(missing[i]) == Good(p[..k]);
        FilledStep(store.parentChecked, t, p, k, perm, allocs);
        var setErr := SetFile(missing[i], Some(NewDir(perm, allocs(|Decode(missing[i])|))), true);
        k := k + 1;
        if setErr != Nil && setErr != Exist {
          return setErr;
        }
      }
      return Nil;
    }

    /** The namespace part of OpenFile: which record the handle gets, created if asked for. */
    method OpenRecord(name: string, create: bool, writeOnly: bool, perm: FileMode, a: Alloc<D>)
      returns (file: Option<Record<D>>, err: Error)
      requires store.Idle()
      modifies store
      ensures store.Idle()
      ensures (store.tree, err) ==
              OpenSpec(store.parentChecked, old(store.tree), Parse(name), create, writeOnly, perm, a)
      ensures err == Nil ==> file == Some(store.tree[Parse(name).path])
    {
      if !ValidPath(name) {
        return None, Invalid;
      }
      DirValid(name);
      var paths := if create then [name, Dir(name)] else [name];
      assert paths[0] == name && (create ==> paths[1] == Dir(name));
      var results := GetFileRecords(paths);
      var getErr := results[0].err;
      file := results[0].record;
      if getErr == Nil {
        if IsDir(file.value.mode) && (create || writeOnly) {
          return None, IsADir;
        }
        return file, Nil;
      } else if getErr == NotExist && create {
        if results[1].err != Nil {
          return None, results[1].err;
        }
        file := Some(NewFile(perm, a));
        err := SetFile(name, file, true);
      } else {
        return None, getErr;
      }
    }

    // ---------- removing ----------

    method Remove(name: string) returns (err: Error)
      requires store.Idle()
      modifies store
      ensures store.Idle()
      ensures (store.tree, err) == RemoveSpec(store.parentChecked, old(store.tree), Parse(name))
    {
      var file, getErr := GetFile(name);
      if getErr != Nil {
        return getErr;
      }
      if IsDir(file.value.mode) {
        var names := store.ReadDirNames(name);
        assert names != [] ==> names[0] in names;
        if |names| > 0 {
          return NotEmpty;
        }
      }
      err := SetFile(name, None, true);
    }

    /** io/fs.ReadDir without its final sort: the names, each of which must stat. */
    method ReadDir(name: string) returns (names: seq<string>, err: Error)
      requires store.Idle() && Parse(name).Good?
      modifies store
      ensures store.Idle() && store.tree == old(store.tree)
      ensures IsDirAt(store.tree, Parse(name).path) ==>
                err == Nil && (forall c :: c in names <==> IsChild(store.tree, Parse(name).path, c)) &&
                EachOnce(names) &&
                forall c | c in names :: IsName(c)
    {
      var file, getErr := GetFile(name);
      if getErr != Nil {
        return [], getErr;
      } else if !IsDir(file.value.mode) {
        return [], NotDir;
      }
      names := store.ReadDirNames(name);
      for i := 0 to |names|
        invariant store.Idle() && store.tree == old(store.tree)
      {
        JoinChild(name, names[i]);
        assert names[i] in names;
        var _, statErr := Stat(Join([name, names[i]]));
        if statErr != Nil {
          return [], statErr;
        }
      }
      return names, Nil;
    }

    method RemoveAll(name: string) returns (err: Error)
      requires store.Idle()
      modifies store
      ensures store.Idle()
      ensures (store.tree, err) == RemoveAllSpec(store.parentChecked, old(store.tree), Parse(name))
    {
      if !ValidPath(name) {
        return Invalid;
      }
      err := RemoveTree(name);
    }

    method RemoveTree(name: string) returns (err: Error)
      requires store.Idle() && ValidPath(name)
      modifies store
      ensures store.Idle() && err == Nil
      ensures store.tree == Pruned(store.parentChecked, old(store.tree), Decode(name))
      decreases |ReachSet(store.tree, Decode(name))|
    {
      ghost var t, p, chk := store.tree, Decode(name), store.parentChecked;
      var file, statErr := Stat(name);
      if statErr != Nil {
        PrunedAbsent(chk, t, p);
        return if statErr == NotExist then Nil else statErr;
      }
      if !IsDir(file.value.mode) {
        PrunedFile(chk, t, p);
        var removeErr := Remove(name);
        return if removeErr == NotExist then Nil else removeErr;
      }
      var names, dirErr := ReadDir(name);
      if dirErr != Nil {
        return dirErr;
      }
      ghost var done: set<string> := {};
      PruningStart(t, p);
      for i := 0 to |names|
        invariant store.Idle() && Visited(names, i, done)
        invariant Pruning(t, p, done, store.tree)
      {
        var c := names[i];
        VisitedStep(names, i, done);
        JoinChild(name, c);
        PruningStep(chk, t, p, done, store.tree, c);
        var childErr := RemoveTree(Join([name, c]));
        if childErr != Nil {
          return childErr;
        }
        done := done + {c};
      }
      VisitedAll(names, done);
      PruningDone(chk, t, p, done, store.tree);
      var removeErr := Remove(name);
      return Nil;
    }

    // ---------- renaming ----------

    /** Rename.  `depth` is how deep the call stack may still grow: the recursion on a
        directory's children is not bounded by the code.  A stray record under the target is
        overwritten or stops the rename half-way, which loses no record under the old name while
        neither name lies inside the other; otherwise the result is the specified one, or the
        stack was too small for it. */
    method Rename(oldname: string, newname: string, depth: nat) returns (err: Error)
      requires store.Idle()
      modifies store
      ensures store.Idle()
      ensures RenameMeets(store.parentChecked, old(store.tree), Parse(oldname), Parse(newname), depth, store.tree, err)
      decreases depth, 3
    {
      if depth == 0 {
        return StackOverflow;
      }
      var oldFile, getErr := GetFile(oldname);
      if getErr != Nil {
        return NotExist;
      }
      if !IsDir(oldFile.value.mode) {
        ghost var t := store.tree;
        err := RenameFile(oldname, newname, oldFile.value);
        FileRenamed(store.parentChecked, t, Parse(oldname), Parse(newname), depth);
        return;
      }
      var _, newErr := GetFile(newname);
      if newErr != NotExist {
        return Exist;
      }
      err := RenameDir(oldname, newname, oldFile.value, depth);
    }

    method RenameDir(oldname: string, newname: string, oldFile: Record<D>, depth: nat) returns (err: Error)
      requires store.Idle() && ValidPath(oldname) && ValidPath(newname) && 0 < depth
      requires var t := store.tree;
               IsDirAt(t, Decode(oldname)) && t[Decode(oldname)] == oldFile && Decode(newname) !in t
      modifies store
      ensures store.Idle()
      ensures RenameMeets(store.parentChecked, old(store.tree), Parse(oldname), Parse(newname), depth, store.tree, err)
      decreases depth, 2
    {
      ghost var t, o, n, chk := store.tree, Decode(oldname), Decode(newname), store.parentChecked;
      var names := store.ReadDirNames(oldname);
      err := SetFile(newname, Some(oldFile), true);
      if err != Nil {
        return;
      }
      if NoneUnder(t, n) { MovingStart(t, o, n); }
      if Apart(o, n) { KeptStart(t, o, n); }
      ghost var done;
      err, done := RenameChildren(oldname, newname, names, depth, t);
      ghost var u := store.tree;
      assert SameOutside(t, u, o, n) by { SameOutsideMore(t, t[n := oldFile], u, o, n); }
      if err != Nil {
        return;
      }
      if NoneUnder(t, n) { DirRenamed(chk, t, o, n, done, u); }
      SameOutsideDelete(chk, t, u, o, n);
      if Apart(o, n) { KeptDelete(chk, t, o, n, done, u); }
      err := SetFile(oldname, None, true);
    }

    /** The loop over the children collected before the target was written. */
    method RenameChildren(oldname: string, newname: string, names: seq<string>, depth: nat, ghost t: Tree<D>)
      returns (err: Error, ghost done: set<string>)
      requires store.Idle() && ValidPath(oldname) && ValidPath(newname) && 0 < depth
      requires IsDirAt(t, Decode(oldname)) && EachOnce(names)
      requires forall c :: c in names <==> IsChild(t, Decode(oldname), c)
      requires forall c | c in names :: IsName(c)
      requires NoneUnder(t, Decode(newname)) ==> Moving(t, Decode(oldname), Decode(newname), {}, store.tree)
      requires Apart(Decode(oldname), Decode(newname)) ==>
               KeptSoFar(t, Decode(oldname), Decode(newname), {}, store.tree)
      modifies store
      ensures store.Idle() && SameOutside(old(store.tree), store.tree, Decode(oldname), Decode(newname))
      ensures Apart(Decode(oldname), Decode(newname)) ==>
              KeptSoFar(t, Decode(oldname), Decode(newname), done, store.tree)
      ensures forall c | err == Nil :: c in done <==> IsChild(t, Decode(oldname), c)
      ensures NoneUnder(t, Decode(newname)) ==>
                && (err == Nil ==> !Chain(t, Decode(oldname), Decode(newname)) &&
                                   Moving(t, Decode(oldname), Decode(newname), done, store.tree))
                && (err != Nil ==> err == StackOverflow &&
                                   (Chain(t, Decode(oldname), Decode(newname)) ||
                                    depth <= |ReachSet(t, Decode(oldname))|))
      decreases depth, 1
    {
      ghost var o, n := Decode(oldname), Decode(newname);
      done := {};
      for i := 0 to |names|
        invariant store.Idle() && Visited(names, i, done)
        invariant SameOutside(old(store.tree), store.tree, o, n)
        invariant NoneUnder(t, n) ==> Moving(t, o, n, done, store.tree)
        invariant Apart(o, n) ==> KeptSoFar(t, o, n, done, store.tree)
        invariant NoneUnder(t, n) && Chain(t, o, n) ==> n[|o|] !in done
      {
        VisitedStep(names, i, done);
        ghost var before := store.tree;
        err := RenameOne(oldname, newname, names[i], depth, t, done);
        SameOutsideMoreover(old(store.tree), before, store.tree, o, n);
        done := done + {names[i]};
        if err != Nil {
          return;
        }
      }
      VisitedAll(names, done);
      if NoneUnder(t, n) && Chain(t, o, n) { ChainChild(t, o, n, done, store.tree); }
      err := Nil;
    }

    /** One turn of the loop. */
    method RenameOne(oldname: string, newname: string, c: string, depth: nat, ghost t: Tree<D>, ghost done: set<string>)
      returns (err: Error)
      requires store.Idle() && ValidPath(oldname) && ValidPath(newname) && 0 < depth
      requires IsDirAt(t, Decode(oldname)) && IsChild(t, Decode(oldname), c) && IsName(c) && c !in done
      requires NoneUnder(t, Decode(newname)) ==> Moving(t, Decode(oldname), Decode(newname), done, store.tree)
      requires Apart(Decode(oldname), Decode(newname)) ==>
               KeptSoFar(t, Decode(oldname), Decode(newname), done, store.tree)
      modifies store
      ensures store.Idle() && SameOutside(old(store.tree), store.tree, Decode(oldname), Decode(newname))
      ensures NoneUnder(t, Decode(newname)) ==>
                ChildRenamed(t, Decode(oldname), Decode(newname), done, c, depth, store.tree, err)
      ensures Apart(Decode(oldname), Decode(newname)) ==>
                KeptSoFar(t, Decode(oldname), Decode(newname), done + {c}, store.tree)
      decreases depth, 0
    {
      ghost var o, n, u := Decode(oldname), Decode(newname), store.tree;
      JoinChild(oldname, c);
      JoinChild(newname, c);
      err := Rename(Join([oldname, c]), Join([newname, c]), depth - 1);
      SameOutsideChild(u, u, store.tree, o, n, c);
      if Apart(o, n) {
        ApartChild(o, n, c);
        KeptStep(t, o, n, done, u, c, store.tree);
      }
      if NoneUnder(t, n) {
        RenameChild(store.parentChecked, t, o, n, done, u, c);
      }
    }

    method RenameFile(oldname: string, newname: string, oldFile: Record<D>) returns (err: Error)
      requires store.Idle() && ValidPath(oldname)
      requires Decode(oldname) in store.tree && store.tree[Decode(oldname)] == oldFile && !IsDir(oldFile.mode)
      modifies store
      ensures store.Idle()
      ensures (store.tree, err) == RenameSpec(store.parentChecked, old(store.tree), Parse(oldname), Parse(newname))
    {
      if oldname == newname {
        return Nil;
      }
      store.Begin();
      if !ValidPath(newname) {
        store.Abort();
        return Invalid;
      }
      ParseInjective(oldname, newname);
      store.Set(newname, Some(oldFile), true);
      store.Set(oldname, None, true);
      var _, commitErr := store.Commit();
      return commitErr;
    }

    // ---------- metadata ----------

    method Chmod(name: string, mode: FileMode) returns (err: Error)
      requires store.Idle()
      modifies store
      ensures store.Idle()
      ensures (store.tree, err) ==
              ChangeSpec(store.parentChecked, old(store.tree), Parse(name), (r: Record<D>) => Chmodded(r, mode))
    {
      var file, getErr := GetFile(name);
      if getErr != Nil {
        return getErr;
      }
      err := SetFile(name, Some(file.value.(mode := ChmodMode(file.value.mode, mode))), true);
    }

    method Chtimes(name: string, mtime: int) returns (err: Error)
      requires store.Idle()
      modifies store
      ensures store.Idle()
      ensures (store.tree, err) ==
              ChangeSpec(store.parentChecked, old(store.tree), Parse(name), (r: Record<D>) => Chtimed(r, mtime))
    {
      var file, getErr := GetFile(name);
      if getErr != Nil {
        return getErr;
      }
      err := SetFile(name, Some(if mtime != ZERO_TIME then file.value.(modTime := mtime) else file.value), true);
    }

    // ---------- any operation, any sequence ----------

    /** One operation of the file system's user. */
    method Perform(op: Op<string, D>, depth: nat) returns (err: Error)
      requires store.Idle()
      modifies store
      ensures store.Idle()
      ensures OpMeets(store.parentChecked, old(store.tree), Parsed(op), depth, store.tree, err)
    {
      match op {
        case Mkdir(name, perm, a) => err := Mkdir(name, perm, a);
        case MkdirAll(name, perm, allocs) => err := MkdirAll(name, perm, allocs);
        case Open(name, create, writeOnly, perm, a) =>
          var file;
          file, err := OpenRecord(name, create, writeOnly, perm, a);
        case Remove(name) => err := Remove(name);
        case RemoveAll(name) => err := RemoveAll(name);
        case Rename(oldname, newname) => err := Rename(oldname, newname, depth);
        case Chmod(name, mode) => err := Chmod(name, mode);
        case Chtimes(name, mtime) => err := Chtimes(name, mtime);
      }
    }

    /** Any run of operations, which only a stack overflow cuts short.  A run of guarded operations
        whose renames fit on the stack is not, its states are all well-formed, and it ends where the
        specification says. */
    method PerformAll(ops: seq<Op<string, D>>, depth: nat) returns (errs: seq<Error>, ghost states: seq<Tree<D>>)
      requires store.Idle()
      modifies store
      ensures store.Idle()
      ensures RunMeets(store.parentChecked, ParsedAll(ops), depth, states, errs)
      ensures states[0] == old(store.tree) && states[|errs|] == store.tree
      ensures WellFormed(old(store.tree)) && RunGuarded(store.parentChecked, old(store.tree), ParsedAll(ops)) &&
              RunFits(store.parentChecked, old(store.tree), ParsedAll(ops), depth) ==>
                && |errs| == |ops| && (forall t | t in states :: WellFormed(t))
                && store.tree == RunEnd(store.parentChecked, old(store.tree), ParsedAll(ops))
    {
      ghost var chk, parsed := store.parentChecked, ParsedAll(ops);
      errs, states := [], [store.tree];
      while |errs| < |ops| && (errs == [] || errs[|errs| - 1] != StackOverflow)
        invariant store.Idle() && RunMeetsSoFar(chk, parsed, depth, states, errs)
        invariant states[0] == old(store.tree) && states[|errs|] == store.tree
      {
        var err := Perform(ops[|errs|], depth);
        OneMore(chk, parsed, depth, states, errs, store.tree, err);
        errs, states := errs + [err], states + [store.tree];
      }
      if WellFormed(states[0]) && RunGuarded(chk, states[0], parsed) && RunFits(chk, states[0], parsed, depth) {
        GuardedRun(chk, parsed, depth, states, errs);
      }
    }
  }

  ghost predicate SetFileDone<D>(chk: bool, t: Tree<D>, name: Name, src: Option<Record<D>>, readable: bool,
                                 u: Tree<D>, locked: bool, err: Error)
  {
    if src.Some? && IsRegular(src.value.mode) && !readable then err == Unreadable && u == t && !locked
    else if name.Bad? then err == Invalid && u == t && locked
    else
      && !locked
      && match src
         case None => err == Nil && u == Delete(chk, t, name.path)
         case Some(record) =>
           if !readable && !chk then err == Nil && u == t
           else (u, err) == Put(chk, t, name.path, record)
  }

  function Parsed<D>(op: Op<string, D>): Op<Name, D> {
    match op
    case Mkdir(name, perm, a) => Op.Mkdir(Parse(name), perm, a)
    case MkdirAll(name, perm, allocs) => Op.MkdirAll(Parse(name), perm, allocs)
    case Open(name, create, writeOnly, perm, a) => Op.Open(Parse(name), create, writeOnly, perm, a)
    case Remove(name) => Op.Remove(Parse(name))
    case RemoveAll(name) => Op.RemoveAll(Parse(name))
    case Rename(oldname, newname) => Op.Rename(Parse(oldname), Parse(newname))
    case Chmod(name, mode) => Op.Chmod(Parse(name), mode)
    case Chtimes(name, mtime) => Op.Chtimes(Parse(name), mtime)
  }

  function ParsedAll<D>(ops: seq<Op<string, D>>): seq<Op<Name, D>> {
    seq(|ops|, i requires 0 <= i < |ops| => Parsed(ops[i]))
  }

  /** Every rename of the run fits on the stack. */
  ghost predicate RunFits<D>(chk: bool, t: Tree<D>, ops: seq<Op<Name, D>>, depth: nat)
    decreases |ops|
  {
    ops != [] ==>
      (ops[0].Rename? ==> DepthNeeded(t, ops[0].name) <= depth) &&
      RunFits(chk, Step(chk, t, ops[0]).0, ops[1..], depth)
  }

  ghost predicate OpMeets<D>(chk: bool, t: Tree<D>, op: Op<Name, D>, depth: nat, u: Tree<D>, err: Error) {
    if op.Rename? then RenameMeets(chk, t, op.name, op.newname, depth, u, err) else (u, err) == Step(chk, t, op)
  }

  ghost predicate RunMeetsSoFar<D>(chk: bool, ops: seq<Op<Name, D>>, depth: nat, states: seq<Tree<D>>, errs: seq<Error>)
  {
    && |states| == |errs| + 1 && |errs| <= |ops|
    && forall i | 0 <= i < |errs| :: OpMeets(chk, states[i], ops[i], depth, states[i + 1], errs[i])
  }

  lemma OneMore<D>(chk: bool, ops: seq<Op<Name, D>>, depth: nat, states: seq<Tree<D>>, errs: seq<Error>, u: Tree<D>,
                   err: Error)
    requires RunMeetsSoFar(chk, ops, depth, states, errs) && |errs| < |ops|
    requires OpMeets(chk, states[|errs|], ops[|errs|], depth, u, err)
    ensures RunMeetsSoFar(chk, ops, depth, states + [u], errs + [err])
  {
  }

  ghost predicate RunMeets<D>(chk: bool, ops: seq<Op<Name, D>>, depth: nat, states: seq<Tree<D>>, errs: seq<Error>) {
    && RunMeetsSoFar(chk, ops, depth, states, errs)
    && (|errs| < |ops| ==> errs != [] && errs[|errs| - 1] == StackOverflow)
  }

  lemma {:induction false} GuardedRun<D>(chk: bool, ops: seq<Op<Name, D>>, depth: nat, states: seq<Tree<D>>,
                                         errs: seq<Error>)
    requires RunMeets(chk, ops, depth, states, errs)
    requires WellFormed(states[0]) && RunGuarded(chk, states[0], ops) && RunFits(chk, states[0], ops, depth)
    ensures |errs| == |ops| && (forall t | t in states :: WellFormed(t)) &&
            states[|errs|] == RunEnd(chk, states[0], ops)
    decreases |ops|
  {
    if ops != [] {
      var t, u := states[0], states[1];
      assert OpMeets(chk, t, ops[0], depth, u, errs[0]);
      StepKeeps(chk, t, ops[0]);
      if ops[0].Rename? { GuardedRename(chk, t, ops[0], depth, u, errs[0]); }
      GuardedRun(chk, ops[1..], depth, states[1..], errs[1..]);
      assert states == [t] + states[1..];
    }
  }

  lemma GuardedRename<D>(chk: bool, t: Tree<D>, op: Op<Name, D>, depth: nat, u: Tree<D>, err: Error)
    requires WellFormed(t) && op.Rename? && EndsWell(Step(chk, t, op)) && DepthNeeded(t, op.name) <= depth
    requires RenameMeets(chk, t, op.name, op.newname, depth, u, err)
    ensures (u, err) == Step(chk, t, op)
  {
    if op.newname.Good? && op.newname.path !in t { AbsentHasNoneUnder(t, op.newname.path); }
  }

  // ---------- lemmas for the loops ----------

  /** The prefixes of p longer than its longest present one, longest first; an error if that one is a file. */
  ghost predicate MissingDirs<D>(t: Tree<D>, p: Path, missing: seq<string>, err: Error) {
    var j := Deepest(t, p, |p|);
    if 0 <= j && !IsDirAt(t, p[..j]) then err == NotDir
    else err == Nil && |missing| == |p| - j && forall i | 0 <= i < |missing| :: Parse(missing[i]) == Good(p[..|p| - i])
  }

  /** done holds the first i names. */
  ghost predicate Visited(names: seq<string>, i: nat, done: set<string>)
    requires i <= |names|
  {
    forall c :: c in done <==> c in names[..i]
  }

  lemma VisitedStep(names: seq<string>, i: nat, done: set<string>)
    requires i < |names| && EachOnce(names) && Visited(names, i, done)
    ensures names[i] !in done && names[i] in names && Visited(names, i + 1, done + {names[i]})
  {
    assert names[..i + 1] == names[..i] + [names[i]];
  }

  lemma VisitedAll(names: seq<string>, done: set<string>)
    requires Visited(names, |names|, done)
    ensures forall c :: c in done <==> c in names
  {
    assert names[..|names|] == names;
  }

  /** The strings spell the n longest prefixes of p, longest first. */
  ghost predicate Ancestors(paths: seq<string>, p: Path, n: nat)
    requires n <= |p| + 1
  {
    |paths| == n && forall i | 0 <= i < n :: Parse(paths[i]) == Good(p[..|p| - i])
  }

  lemma AncestorsMore(paths: seq<string>, p: Path, s: string)
    requires |paths| <= |p| && Ancestors(paths, p, |paths|) && Parse(s) == Good(p[..|p| - |paths|])
    ensures Ancestors(paths + [s], p, |paths| + 1)
  {
  }

  lemma AncestorsValid(paths: seq<string>, p: Path, n: nat)
    requires n <= |p| + 1 && Ancestors(paths, p, n)
    ensures forall s | s in paths :: ValidPath(s)
  {
    forall i | 0 <= i < |paths| ensures ValidPath(paths[i]) {
      assert Parse(paths[i]).Good?;
    }
  }

  /** name, its parent, and so on up to the root. */
  method AncestorPaths(name: string) returns (paths: seq<string>)
    requires ValidPath(name)
    ensures Ancestors(paths, Decode(name), |Decode(name)| + 1)
    ensures forall s | s in paths :: ValidPath(s)
  {
    ghost var p := Decode(name);
    paths := [];
    var current := name;
    assert p[..|p|] == p;
    while current != "."
      invariant |paths| <= |p| && Parse(current) == Good(p[..|p| - |paths|])
      invariant Ancestors(paths, p, |paths|)
      decreases |p| - |paths|
    {
      OneUp(current, p, |p| - |paths|);
      AncestorsMore(paths, p, current);
      paths := paths + [current];
      current := Dir(current);
    }
    AncestorsMore(paths, p, ".");
    RootLast(p, |p| - |paths|);
    paths := paths + ["."];
    AncestorsValid(paths, p, |p| + 1);
  }

  lemma RootLast(p: Path, i: nat)
    requires i <= |p| && Parse(".") == Good(p[..i])
    ensures i == 0
  {
    assert Decode(".") == [];
  }

  lemma OneUp(current: string, p: Path, i: nat)
    requires i <= |p| && Parse(current) == Good(p[..i]) && current != "."
    ensures 0 < i && Parse(Dir(current)) == Good(p[..i - 1])
  {
    assert Encode(Decode(current)) == current;
    DirValid(current);
    assert p[..i][..i - 1] == p[..i - 1];
  }

  /** The loop over the lookups, from name upwards, up to the first record found. */
  method FirstPresent<D>(paths: seq<string>, results: seq<OpResult<D>>, ghost t: Tree<D>, ghost p: Path)
    returns (missing: seq<string>, err: Error)
    requires |paths| == |p| + 1 && |results| == |paths|
    requires forall i | 0 <= i < |paths| ::
               Parse(paths[i]) == Good(p[..|p| - i]) && results[i] == Lookup(t, p[..|p| - i])
    ensures MissingDirs(t, p, missing, err)
  {
    missing := [];
    for i := 0 to |paths|
      invariant AllMissing(t, p, missing) && |missing| == i
    {
      if results[i].err == Nil {
        MissingUpTo(t, p, missing);
        return missing, if IsDir(results[i].record.value.mode) then Nil else NotDir;
      }
      AllMissingStep(t, p, missing, paths[i]);
      missing := missing + [paths[i]];
    }
    MissingUpTo(t, p, missing);
    return missing, Nil;
  }

  /** The paths spell the longest prefixes of p, longest first, and all are absent. */
  ghost predicate AllMissing<D>(t: Tree<D>, p: Path, missing: seq<string>) {
    |missing| <= |p| + 1 &&
    forall i | 0 <= i < |missing| :: Parse(missing[i]) == Good(p[..|p| - i]) && p[..|p| - i] !in t
  }

  lemma AllMissingStep<D>(t: Tree<D>, p: Path, missing: seq<string>, s: string)
    requires AllMissing(t, p, missing) && |missing| <= |p|
    requires Parse(s) == Good(p[..|p| - |missing|]) && p[..|p| - |missing|] !in t
    ensures AllMissing(t, p, missing + [s])
  {
  }

  /** The first prefix found ends the search. */
  lemma MissingUpTo<D>(t: Tree<D>, p: Path, missing: seq<string>)
    requires AllMissing(t, p, missing)
    requires |missing| <= |p| ==> p[..|p| - |missing|] in t
    ensures MissingDirs(t, p, missing,
                        if |missing| <= |p| && !IsDirAt(t, p[..|p| - |missing|]) then NotDir else Nil)
  {
    var d, j := Deepest(t, p, |p|), |p| - |missing|;
    forall k: nat | j < k <= |p| ensures p[..k] !in t {
      assert Parse(missing[|p| - k]) == Good(p[..|p| - (|p| - k)]);
    }
    assert d == j;
  }

  /** One directory more: while MkdirAll works downwards the next parent is always a directory. */
  lemma FilledStep<D>(chk: bool, t: Tree<D>, p: Path, k: nat, perm: FileMode, a: nat -> Alloc<D>)
    requires var j := Deepest(t, p, |p|); (j < 0 || IsDirAt(t, p[..j])) && j < k <= |p|
    ensures var u := Filled(t, p, Deepest(t, p, |p|) + 1, k, perm, a);
            !Refused(chk, u, p[..k]) &&
            u[p[..k] := NewDir(perm, a(k))] == Filled(t, p, Deepest(t, p, |p|) + 1, k + 1, perm, a)
  {
    if k > 0 { FilledParent(t, p, k, perm, a); }
  }

  lemma FilledParent<D>(t: Tree<D>, p: Path, k: nat, perm: FileMode, a: nat -> Alloc<D>)
    requires var j := Deepest(t, p, |p|); (j < 0 || IsDirAt(t, p[..j])) && j < k <= |p| && 0 < k
    ensures IsDirAt(Filled(t, p, Deepest(t, p, |p|) + 1, k, perm, a), Parent(p[..k]))
  {
    assert Parent(p[..k]) == p[..k - 1];
    FilledAt(t, p, Deepest(t, p, |p|) + 1, k, perm, a, p[..k - 1]);
  }

  ghost predicate Unobstructed<D>(t: Tree<D>, oldname: Name, newname: Name) {
    (oldname.Good? && oldname.path in t && IsDir(t[oldname.path].mode) &&
     newname.Good? && newname.path !in t) ==> NoneUnder(t, newname.path)
  }

  /** Nothing changes but under the two names. */
  ghost predicate SameOutside<D>(t: Tree<D>, u: Tree<D>, o: Path, n: Path) {
    forall q | !(o <= q) && !(n <= q) :: (q in u <==> q in t) && (q in t ==> u[q] == t[q])
  }

  lemma SameOutsideChild<D>(t: Tree<D>, u: Tree<D>, v: Tree<D>, o: Path, n: Path, c: string)
    requires SameOutside(t, u, o, n) && SameOutside(u, v, o + [c], n + [c])
    ensures SameOutside(t, v, o, n)
  {
    forall q | !(o <= q) && !(n <= q)
      ensures q in v <==> q in t
      ensures q in t ==> v[q] == t[q]
    {
      NextElement(o, c, q);
      NextElement(n, c, q);
    }
  }

  /** Neither path is inside the other. */
  ghost predicate Apart(o: Path, n: Path) {
    !(o <= n) && !(n <= o)
  }

  lemma ApartChild(o: Path, n: Path, c: string)
    requires Apart(o, n)
    ensures Apart(o + [c], n + [c])
    ensures forall x: Path :: !(n <= o + x) && !(o <= n + x)
  {
    forall x: Path ensures !(n <= o + x) && !(o <= n + x) {
      ApartBelow(o, n, x);
      ApartBelow(n, o, x);
    }
    ApartBelow(o, n, [c]);
    ApartBelow(n, o, [c]);
  }

  lemma ApartBelow(o: Path, n: Path, x: Path)
    requires Apart(o, n)
    ensures !(n <= o + x)
  {
    assert o <= o + x;
    if n <= o + x { PrefixesCompare(n, o, o + x); }
  }

  ghost predicate At<D>(u: Tree<D>, p: Path, r: Record<D>) {
    p in u && u[p] == r
  }

  /** Every record under o is still there, or is under n. */
  ghost predicate Kept<D>(t: Tree<D>, u: Tree<D>, o: Path, n: Path) {
    forall x: Path | o + x in t :: At(u, o + x, t[o + x]) || At(u, n + x, t[o + x])
  }

  /** The same between two turns of the loop, when the children not done are untouched. */
  ghost predicate KeptSoFar<D>(t: Tree<D>, o: Path, n: Path, done: set<string>, u: Tree<D>)
    requires o in t
  {
    && Kept(t, u, o, n) && At(u, n, t[o])
    && forall c, x: Path | c !in done && o + [c] + x in t :: At(u, o + [c] + x, t[o + [c] + x])
  }

  lemma KeptStart<D>(t: Tree<D>, o: Path, n: Path)
    requires o in t && Apart(o, n)
    ensures KeptSoFar(t, o, n, {}, t[n := t[o]])
  {
    forall x: Path ensures o + x != n && o + x + [] == o + x {
      ApartBelow(o, n, x);
    }
    forall c, x: Path ensures o + [c] + x != n {
      ApartBelow(o, n, [c] + x);
      assert o + [c] + x == o + ([c] + x);
    }
  }

  lemma KeptStep<D>(t: Tree<D>, o: Path, n: Path, done: set<string>, u: Tree<D>, c: string, v: Tree<D>)
    requires o in t && Apart(o, n) && KeptSoFar(t, o, n, done, u) && c !in done
    requires SameOutside(u, v, o + [c], n + [c]) && Kept(u, v, o + [c], n + [c])
    ensures KeptSoFar(t, o, n, done + {c}, v)
  {
    forall x: Path | o + x in t ensures At(v, o + x, t[o + x]) || At(v, n + x, t[o + x]) {
      KeptRecord(t, o, n, done, u, c, v, x);
    }
    OutsideChild(n, o, c, []);
    assert n + [] == n;
    forall d, x: Path | d !in done + {c} && o + [d] + x in t ensures At(v, o + [d] + x, t[o + [d] + x]) {
      OtherChild(o, n, c, d, x);
    }
  }

  /** A path under o that goes on with something else than c is outside both children. */
  lemma OutsideChild(o: Path, n: Path, c: string, x: Path)
    requires Apart(o, n) && !([c] <= x)
    ensures !(o + [c] <= o + x) && !(n + [c] <= o + x)
  {
    ApartBelow(o, n, x);
    SameStart(o, [c], x);
    assert n <= n + [c];
  }

  lemma SameStart(o: Path, x: Path, y: Path)
    ensures o + x <= o + y ==> x <= y
  {
    if o + x <= o + y {
      assert (o + y)[|o|..] == y && (o + y)[..|o + x|][|o|..] == y[..|x|];
    }
  }

  lemma OtherChild(o: Path, n: Path, c: string, d: string, x: Path)
    requires Apart(o, n) && c != d
    ensures !(o + [c] <= o + [d] + x) && !(n + [c] <= o + [d] + x)
  {
    assert ([d] + x)[0] == d;
    OutsideChild(o, n, c, [d] + x);
    assert o + [d] + x == o + ([d] + x);
  }

  lemma KeptRecord<D>(t: Tree<D>, o: Path, n: Path, done: set<string>, u: Tree<D>, c: string, v: Tree<D>, x: Path)
    requires o in t && Apart(o, n) && KeptSoFar(t, o, n, done, u) && c !in done
    requires SameOutside(u, v, o + [c], n + [c]) && Kept(u, v, o + [c], n + [c])
    requires o + x in t
    ensures At(v, o + x, t[o + x]) || At(v, n + x, t[o + x])
  {
    if [c] <= x {
      var y := x[1..];
      assert x == [c] + y;
      assert o + [c] + y == o + x && n + [c] + y == n + x;
      assert At(u, o + [c] + y, t[o + [c] + y]);
    } else {
      OutsideChild(o, n, c, x);
      OutsideChild(n, o, c, x);
    }
  }

  /** The old name goes last, when its own record is at the new one. */
  lemma KeptDelete<D>(chk: bool, t: Tree<D>, o: Path, n: Path, done: set<string>, u: Tree<D>)
    requires o in t && Apart(o, n) && KeptSoFar(t, o, n, done, u)
    ensures Kept(t, Delete(chk, u, o), o, n)
  {
    forall x: Path | o + x in t
      ensures At(Delete(chk, u, o), o + x, t[o + x]) || At(Delete(chk, u, o), n + x, t[o + x])
    {
      ApartBelow(n, o, x);
      assert x == [] ==> n + x == n && o + x == o;
    }
  }

  /** What a turn of the loop comes to: the child has moved, unless it holds the target of a rename
      that never ends, or the stack was too small. */
  ghost predicate ChildRenamed<D>(t: Tree<D>, o: Path, n: Path, done: set<string>, c: string, depth: nat, u: Tree<D>,
                                  err: Error)
  {
    if err == Nil then !(Chain(t, o, n) && c == n[|o|]) && Moving(t, o, n, done + {c}, u)
    else err == StackOverflow && (Chain(t, o, n) || depth <= |ReachSet(t, o)|)
  }

  lemma FileRenamed<D>(chk: bool, t: Tree<D>, oldname: Name, newname: Name, depth: nat)
    requires oldname.Good? && oldname.path in t && !IsDir(t[oldname.path].mode)
    ensures var (u, err) := RenameSpec(chk, t, oldname, newname); RenameMeets(chk, t, oldname, newname, depth, u, err)
  {
    var o := oldname.path;
    assert Kept(t, t, o, o);
    if newname.Good? && Apart(o, newname.path) { FileKept(chk, t, o, newname.path); }
  }

  lemma FileKept<D>(chk: bool, t: Tree<D>, o: Path, n: Path)
    requires o in t && Apart(o, n)
    ensures Kept(t, t, o, n) && Kept(t, Delete(chk, t[n := t[o]], o), o, n)
  {
    KeptStart(t, o, n);
    KeptDelete(chk, t, o, n, {}, t[n := t[o]]);
  }

  lemma SameOutsideMoreover<D>(t: Tree<D>, u: Tree<D>, v: Tree<D>, o: Path, n: Path)
    requires SameOutside(t, u, o, n) && SameOutside(u, v, o, n)
    ensures SameOutside(t, v, o, n)
  {
  }

  lemma SameOutsideMore<D>(t: Tree<D>, u: Tree<D>, v: Tree<D>, o: Path, n: Path)
    requires n in u && u == t[n := u[n]]
    requires SameOutside(u, v, o, n)
    ensures SameOutside(t, v, o, n)
  {
  }

  lemma SameOutsideDelete<D>(chk: bool, t: Tree<D>, u: Tree<D>, o: Path, n: Path)
    requires SameOutside(t, u, o, n)
    ensures SameOutside(t, Delete(chk, u, o), o, n)
  {
  }

  /** The loop over, deleting the old name completes the specified move. */
  lemma DirRenamed<D>(chk: bool, t: Tree<D>, o: Path, n: Path, done: set<string>, u: Tree<D>)
    requires NoneUnder(t, n) && IsDirAt(t, o) && Moving(t, o, n, done, u)
    requires forall c :: c in done <==> IsChild(t, o, c)
    ensures Delete(chk, u, o) == Renamed(chk, t, o, n)
  {
    MovingDone(t, o, n, done, u);
    RootKept(t, o, n, done, u);
  }

  /** On any tree and however it ends a rename changes nothing outside the two names, and loses nothing
      under the old one while they lie apart; with nothing in the way it is the specified one, or the
      stack was too small. */
  ghost predicate RenameMeets<D>(chk: bool, t: Tree<D>, oldname: Name, newname: Name, depth: nat, u: Tree<D>,
                                 err: Error)
  {
    && (if oldname.Good? && newname.Good? then SameOutside(t, u, oldname.path, newname.path) else u == t)
    && (oldname.Good? && newname.Good? && Apart(oldname.path, newname.path) ==>
          Kept(t, u, oldname.path, newname.path))
    && (Unobstructed(t, oldname, newname) ==>
          RenameExact(chk, t, oldname, newname, depth, u, err))
  }

  ghost predicate RenameExact<D>(chk: bool, t: Tree<D>, oldname: Name, newname: Name, depth: nat, u: Tree<D>,
                                 err: Error)
  {
    if err == StackOverflow
    then RenameSpec(chk, t, oldname, newname).1 == StackOverflow || depth < DepthNeeded(t, oldname)
    else (u, err) == RenameSpec(chk, t, oldname, newname)
  }

  ghost function DepthNeeded<D>(t: Tree<D>, oldname: Name): nat {
    if oldname.Good? then |ReachSet(t, oldname.path)| + 1 else 1
  }

  /** What the recursive call on child c finds, and what its result means for the loop. */
  lemma RenameChild<D>(chk: bool, t: Tree<D>, o: Path, n: Path, done: set<string>, u: Tree<D>, c: string)
    requires NoneUnder(t, n) && IsDirAt(t, o) && Moving(t, o, n, done, u)
    requires c !in done && IsChild(t, o, c)
    ensures var r := RenameSpec(chk, u, Good(o + [c]), Good(n + [c]));
            && Unobstructed(u, Good(o + [c]), Good(n + [c]))
            && r.1 == (if Chain(t, o, n) && c == n[|o|] then StackOverflow else Nil)
            && (r.1 == Nil ==> Moving(t, o, n, done + {c}, r.0))
            && (!Chain(t, o, n) ==> |ReachSet(u, o + [c])| < |ReachSet(t, o)|)
  {
    var p, m := o + [c], n + [c];
    assert o + [c] in u && u[p] == t[p] && IsDirAt(u, n) && NoneUnder(u, m) by { MovingChild(t, o, n, done, u, c); }
    assert Parent(m) == n;
    assert m !in u by { assert m <= m; }
    if Chain(t, o, n) && c == n[|o|] {
      ChainChild(t, o, n, done, u);
    } else {
      NextElement(o, c, n);
      NoChainChild(t, o, n, done, u, c);
      MovingStep(t, o, n, done, u, c);
      if !IsDir(u[p].mode) { MovedFile(u, p, m); }
    }
    if !Chain(t, o, n) { ChildShrinks(t, o, n, done, u, c); }
  }

  /** The recursion's measure goes down in the loop, too. */
  lemma ChildShrinks<D>(t: Tree<D>, o: Path, n: Path, done: set<string>, u: Tree<D>, c: string)
    requires NoneUnder(t, n) && IsDirAt(t, o) && Moving(t, o, n, done, u)
    requires c !in done && IsChild(t, o, c) && !Chain(t, o, n)
    ensures |ReachSet(u, o + [c])| < |ReachSet(t, o)|
  {
    forall q | o + [c] <= q ensures Reach(u, o + [c], q) <==> Reach(t, o + [c], q) {
      MovingReach(t, o, n, done, u, c, q);
    }
    ReachSetShrinks(t, o, c, u);
  }

  /** When the checked store keeps its root, the result is the move with the root back in place. */
  lemma RootKept<D>(t: Tree<D>, o: Path, n: Path, done: set<string>, u: Tree<D>)
    requires NoneUnder(t, n) && IsDirAt(t, o) && Moving(t, o, n, done, u)
    requires u - {o} == Moved(t, o, n)
    ensures Delete(false, u, o) == Renamed(false, t, o, n) && Delete(true, u, o) == Renamed(true, t, o, n)
  {
    assert MovedSoFar(t, o, n, done, u, o);
    assert Placed(t, o, n, done, o);
    if o == [] {
      assert u == (u - {o})[o := u[o]];
    }
  }

  // ---------- RemoveAll's loop ----------

  /** Between two children: what the children in done reach is gone. */
  ghost predicate Pruning<D>(t: Tree<D>, p: Path, done: set<string>, u: Tree<D>) {
    forall q ::
      (q in u <==> q in t && !(|p| < |q| && Reach(t, p, q) && q[|p|] in done)) && (q in u ==> u[q] == t[q])
  }

  lemma PruningStart<D>(t: Tree<D>, p: Path)
    ensures Pruning(t, p, {}, t)
  {
  }

  lemma PrunedAbsent<D>(chk: bool, t: Tree<D>, p: Path)
    requires p !in t
    ensures Pruned(chk, t, p) == t
  {
    forall q | q in t ensures !Reach(t, p, q) {
      assert |q| == |p| ==> q[..|p|] == q;
      assert p <= q ==> q[..|p|] == p;
      if Reach(t, p, q) && |p| < |q| { ReachFirst(t, p, q); }
    }
  }

  lemma PrunedFile<D>(chk: bool, t: Tree<D>, p: Path)
    requires p in t && !IsDir(t[p].mode)
    ensures Pruned(chk, t, p) == Delete(chk, t, p)
  {
    forall q | q in t ensures Reach(t, p, q) <==> q == p {
      ReachOfFile(t, p, q);
    }
  }

  lemma PruningReach<D>(t: Tree<D>, p: Path, done: set<string>, u: Tree<D>, c: string, q: Path)
    requires IsDirAt(t, p) && Pruning(t, p, done, u) && c !in done && p + [c] <= q
    ensures Reach(u, p + [c], q) <==> Reach(t, p + [c], q)
  {
    forall k | p + [c] <= k
      ensures k in u <==> k in t
      ensures k in u ==> u[k] == t[k]
    {
      NextElement(p, c, k);
    }
    forall i | |p| + 1 <= i < |q| ensures IsDirAt(u, q[..i]) <==> IsDirAt(t, q[..i]) {
      assert p + [c] <= q[..i];
    }
  }

  lemma PruningStep<D>(chk: bool, t: Tree<D>, p: Path, done: set<string>, u: Tree<D>, c: string)
    requires IsDirAt(t, p) && Pruning(t, p, done, u) && c !in done && IsChild(t, p, c)
    ensures Pruning(t, p, done + {c}, Pruned(chk, u, p + [c]))
    ensures |ReachSet(u, p + [c])| < |ReachSet(t, p)|
  {
    var v := Pruned(chk, u, p + [c]);
    forall q
      ensures q in v <==> q in t && !(|p| < |q| && Reach(t, p, q) && q[|p|] in done + {c})
    {
      NextElement(p, c, q);
      if p + [c] <= q {
        PruningReach(t, p, done, u, c, q);
        ReachChild(t, p, c, q);
      }
    }
    forall q | p + [c] <= q ensures Reach(u, p + [c], q) <==> Reach(t, p + [c], q) {
      PruningReach(t, p, done, u, c, q);
    }
    ReachSetShrinks(t, p, c, u);
  }

  lemma PruningDone<D>(chk: bool, t: Tree<D>, p: Path, done: set<string>, u: Tree<D>)
    requires IsDirAt(t, p) && Pruning(t, p, done, u)
    requires forall c :: c in done <==> IsChild(t, p, c)
    ensures Delete(chk, u, p) == Pruned(chk, t, p)
    ensures IsDirAt(u, p) && forall c :: !IsChild(u, p, c)
  {
    ReachRoot(t, p);
    forall q | q in t ensures |p| < |q| && Reach(t, p, q) ==> q[|p|] in done {
      if |p| < |q| && Reach(t, p, q) { ReachFirst(t, p, q); }
    }
    var a, b := Delete(chk, u, p), Pruned(chk, t, p);
    forall q ensures q in a <==> q in b
             ensures q in a ==> a[q] == b[q] {
      if q in t && |q| == |p| && p <= q { assert q == p; }
    }
    forall c ensures !IsChild(u, p, c) {
      var q := p + [c];
      if q in t { ReachRoot(t, q); ReachChild(t, p, c, q); }
    }
  }
}
