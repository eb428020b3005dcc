/** What a caller of each namespace operation gets: when it works, what it then leaves where, and that
    it leaves everything else as it was. */
module TreeLaws {
  import opened Paths
  import opened FileModes
  import opened Trees
  import opened TreeOps

  /** Nothing differs but at p. */
  ghost predicate SameBut<D>(t: Tree<D>, u: Tree<D>, p: Path) {
    forall q | q != p :: (q in u <==> q in t) && (q in t ==> u[q] == t[q])
  }

  /** A path that does not parse changes nothing and is an error. */
  lemma BadName<D>(chk: bool, t: Tree<D>, op: Op<Name, D>)
    requires op.name.Bad?
    ensures var (u, err) := Step(chk, t, op); u == t && err == if op.Rename? then NotExist else Invalid
  {
  }

  /** Mkdir works at a free path below a directory; the checked store takes no other parent.  It leaves
      a directory there with the permissions asked for. */
  lemma MkdirLaw<D>(chk: bool, t: Tree<D>, p: Path, perm: FileMode, a: Alloc<D>)
    ensures var (u, err) := Step(chk, t, Mkdir(Good(p), perm, a));
            && (err == Exist <==> p in t)
            && (err == NotExist <==> p !in t && p != [] && Parent(p) !in t)
            && (p !in t && (p == [] || IsDirAt(t, Parent(p))) ==> err == Nil)
            && (err == Nil && chk && 2 <= |p| ==> IsDirAt(t, Parent(p)))
            && (err == Nil && !chk ==> p == [] || Parent(p) in t)
            && (err != Nil ==> u == t)
            && (err == Nil ==> SameBut(t, u, p) && p in u && MadeDir(u[p], perm, a))
  {
    NewDirMade(perm, a);
  }

  /** An empty directory with these permissions, and no other mode bits. */
  ghost predicate MadeDir<D>(r: Record<D>, perm: FileMode, a: Alloc<D>) {
    && r.data == a.blob && r.modTime == a.now
    && r.mode & MODE_PERM == perm & MODE_PERM && r.mode & !MODE_PERM == MODE_DIR
  }

  lemma NewDirMade<D>(perm: FileMode, a: Alloc<D>)
    ensures MadeDir(NewDir(perm, a), perm, a)
  {
  }

  /** Opening makes a file only if asked to, and only at a free path with a parent; a directory is only
      opened for reading. */
  lemma OpenLaw<D>(chk: bool, t: Tree<D>, p: Path, create: bool, writeOnly: bool, perm: FileMode, a: Alloc<D>)
    ensures var (u, err) := Step(chk, t, Op.Open(Good(p), create, writeOnly, perm, a));
            && (err == IsADir <==> IsDirAt(t, p) && (create || writeOnly))
            && (p in t && err != IsADir ==> err == Nil)
            && (err == NotExist <==> p !in t && (!create || Parent(p) !in t))
            && (p !in t && create && IsDirAt(t, Parent(p)) ==> err == Nil)
            && (p !in t && err == Nil && chk && 2 <= |p| ==> IsDirAt(t, Parent(p)))
            && (p in t || err != Nil ==> u == t)
            && (p !in t && err == Nil ==>
                  SameBut(t, u, p) && p in u && u[p] == Record(a.blob, perm & MODE_PERM, a.now) && IsRegular(u[p].mode))
  {
    assert IsRegular(perm & MODE_PERM) by { RegularPerm(perm); }
  }

  lemma RegularPerm(perm: FileMode)
    ensures IsRegular(perm & MODE_PERM)
  {
  }

  /** The directories that MkdirAll makes are those missing on the way, with the permissions asked for. */
  lemma MkdirAllLaw<D>(chk: bool, t: Tree<D>, p: Path, perm: FileMode, a: nat -> Alloc<D>, q: Path)
    requires WellFormed(t)
    ensures var (u, err) := Step(chk, t, MkdirAll(Good(p), perm, a));
            && (err == Nil ==> (q in u <==> q in t || q <= p))
            && (err == Nil && q <= p && q !in t ==> MadeDir(u[q], perm, a(|q|)))
            && (err != Nil ==> err == NotDir && u == t)
            && (q in t ==> q in u && u[q] == t[q])
  {
    var j := Deepest(t, p, |p|);
    NewDirMade(perm, a(|q|));
    FilledAt(t, p, j + 1, |p| + 1, perm, a, q);
    if q <= p { PrefixPresent(t, p, q); }
  }

  /** The prefixes that are there are those up to the longest one that is. */
  lemma PrefixPresent<D>(t: Tree<D>, p: Path, q: Path)
    requires WellFormed(t) && q <= p
    ensures q in t <==> |q| <= Deepest(t, p, |p|)
  {
    var j := Deepest(t, p, |p|);
    assert q == p[..|q|];
    if |q| <= j {
      AncestorOrSelf(t, p[..j], |q|);
      assert p[..j][..|q|] == q;
    }
  }

  /** Remove takes away one record, but no directory that has children. */
  lemma RemoveLaw<D>(chk: bool, t: Tree<D>, p: Path)
    ensures var (u, err) := Step(chk, t, Op.Remove(Good(p)));
            && (err == NotExist <==> p !in t)
            && (err == NotEmpty <==> IsDirAt(t, p) && exists c :: IsChild(t, p, c))
            && (err == Nil <==> p in t && !(IsDirAt(t, p) && exists c :: IsChild(t, p, c)))
            && (err != Nil ==> u == t)
            && (err == Nil ==> SameBut(t, u, p) && if chk && p == [] then u == t else p !in u)
  {
  }

  /** Chmod sets the permission, setuid, setgid and sticky bits, and nothing else. */
  lemma ChmodLaw<D>(chk: bool, t: Tree<D>, p: Path, mode: FileMode)
    ensures var (u, err) := Step(chk, t, Chmod(Good(p), mode));
            && (err == NotExist <==> p !in t)
            && (p in t && (p == [] || IsDirAt(t, Parent(p))) ==> err == Nil)
            && (err != Nil ==> u == t)
            && (err == Nil ==> SameBut(t, u, p) && p in u && u[p].data == t[p].data && u[p].modTime == t[p].modTime &&
                               u[p].mode & CHMOD_BITS == mode & CHMOD_BITS &&
                               u[p].mode & !CHMOD_BITS == t[p].mode & !CHMOD_BITS)
  {
    if p in t { ChmodBits(t[p].mode, mode); }
  }

  lemma ChmodBits(current: FileMode, wanted: FileMode)
    ensures ChmodMode(current, wanted) & CHMOD_BITS == wanted & CHMOD_BITS
    ensures ChmodMode(current, wanted) & !CHMOD_BITS == current & !CHMOD_BITS
  {
  }

  /** Chtimes sets the modification time, unless it is zero, and nothing else. */
  lemma ChtimesLaw<D>(chk: bool, t: Tree<D>, p: Path, mtime: int)
    ensures var (u, err) := Step(chk, t, Chtimes(Good(p), mtime));
            && (err == NotExist <==> p !in t)
            && (p in t && (p == [] || IsDirAt(t, Parent(p))) ==> err == Nil)
            && (err != Nil ==> u == t)
            && (err == Nil ==> SameBut(t, u, p) && p in u && u[p].data == t[p].data && u[p].mode == t[p].mode &&
                               u[p].modTime == if mtime == 0 then t[p].modTime else mtime)
  {
  }

  /** Renaming a file puts its record under the new name, whatever was there, and takes it from the old
      one; a new name that the store refuses changes nothing. */
  lemma FileRename<D>(chk: bool, t: Tree<D>, o: Path, n: Path)
    requires o in t && !IsDirAt(t, o)
    ensures var (u, err) := Step(chk, t, Rename(Good(o), Good(n)));
            && (o == n ==> err == Nil && u == t)
            && (o != n && chk && 2 <= |n| && !IsDirAt(t, Parent(n)) ==> err == Aborted && u == t)
            && (o != n && !(chk && 2 <= |n| && !IsDirAt(t, Parent(n))) ==>
                  && err == Nil && n in u && u[n] == t[o]
                  && (if chk && o == [] then o in u && u[o] == t[o] else o !in u)
                  && forall q | q != o && q != n :: (q in u <==> q in t) && (q in t ==> u[q] == t[q]))
  {
  }

  /** When Rename works on a well-formed tree, which error it gives when it does not, and that an error
      other than the stack's overflow means that nothing has changed. */
  lemma RenameOutcome<D>(chk: bool, t: Tree<D>, o: Path, newname: Name)
    requires WellFormed(t) && o in t
    ensures var (u, err) := Step(chk, t, Rename(Good(o), newname));
            && (err != Nil && err != StackOverflow ==> u == t)
            && (if IsDirAt(t, o) then
                  && (err == Exist <==> newname.Bad? || newname.path in t)
                  && (err == Nil <==> newname.Good? && newname.path !in t && !Refused(chk, t, newname.path) &&
                                      !(o <= newname.path && |o| + 2 <= |newname.path| &&
                                        IsDirAt(t, Parent(newname.path))))
                else
                  && (err == Invalid <==> newname.Bad?)
                  && (err == Nil <==> newname.Good? && (newname.path == o || !Refused(chk, t, newname.path))))
  {
    if newname.Good? && IsDirAt(t, o) { ChainIff(t, o, newname.path); }
  }

  /** Renaming what is not there is an error. */
  lemma RenameMissing<D>(chk: bool, t: Tree<D>, o: Path, newname: Name)
    requires o !in t
    ensures Step(chk, t, Rename(Good(o), newname)) == (t, NotExist)
  {
  }

  /** The checked store refuses exactly a path of two or more elements whose parent is no directory. */
  lemma RefusedIff<D>(chk: bool, t: Tree<D>, p: Path)
    ensures Refused(chk, t, p) <==> chk && 2 <= |p| && !(Parent(p) in t && t[Parent(p)].mode & MODE_DIR == MODE_DIR)
  {
    if Parent(p) in t { OneBit(t[Parent(p)].mode); }
  }

  lemma OneBit(m: FileMode)
    ensures m & MODE_DIR == MODE_DIR <==> m & MODE_DIR != 0
  {
  }
}
