/** The mount file system: which mounted file system a path belongs to, adding mounts, and
    renaming a file from one mounted file system to another. */
module Mounts {
  import opened ByteType
  import opened Paths

  type FsId = nat
  type Bytes = seq<byte>

  // ---------- which mount a path belongs to ----------

  /** The mount point is the path or a directory above it, as the code tests it on strings. */
  predicate Covers(point: string, path: string) {
    point + "/" <= path || point == path
  }

  /** On valid paths the string test is the prefix order on elements. */
  lemma CoversIsPrefix(point: string, path: string)
    requires ValidPath(point) && ValidPath(path) && point != "."
    ensures Covers(point, path) <==> Decode(point) <= Decode(path)
  {
    AtOrUnder(point, path);
  }

  ghost predicate ValidMounts(mounts: map<string, FsId>) {
    forall k | k in mounts :: ValidPath(k) && k != "."
  }

  /** The longest mount point covering the path; "" when none does. */
  ghost predicate IsBest(mounts: map<string, FsId>, path: string, best: string) {
    if best in mounts then Covers(best, path) && forall k | k in mounts && Covers(k, path) :: |k| <= |best|
    else best == "" && forall k | k in mounts :: !Covers(k, path)
  }

  /** It is unique, so the order in which the mounts are visited cannot matter. */
  lemma BestUnique(mounts: map<string, FsId>, path: string, a: string, b: string)
    requires IsBest(mounts, path, a) && IsBest(mounts, path, b)
    ensures a == b
  {
    if a in mounts {
      assert a == path[..|a|] && b == path[..|b|];
    }
  }

  lemma EmptyInvalid()
    ensures !ValidPath("")
  {
    PiecesOfPlain("");
    assert Pieces("")[0] in Pieces("");
  }

  /** What is left of the path below a mount point. */
  function SubPath(path: string, point: string): string {
    var rest := TrimPrefix(TrimPrefix(path, point), "/");
    if rest == "" then "." else rest
  }

  /** Mount point and sub-path together spell the path. */
  lemma SubPathRebuilds(path: string, point: string)
    requires ValidPath(path) && ValidPath(point) && point != "." && Covers(point, path)
    ensures ValidPath(SubPath(path, point))
    ensures Decode(path) == Decode(point) + Decode(SubPath(path, point))
    ensures Join([point, SubPath(path, point)]) == path
  {
    var sub := SubPath(path, point);
    if point != path {
      CoveredRest(point, path);
      assert TrimPrefix(path, point) == "/" + path[|point| + 1..];
      ValidNotRooted(path[|point| + 1..]);
      assert sub == path[|point| + 1..];
    } else {
      assert TrimPrefix(path, point) == "";
      assert sub == ".";
    }
    JoinValid(point, sub);
    assert Encode(Decode(path)) == path;
    assert Encode(Decode(Join([point, sub]))) == Join([point, sub]);
  }

  lemma SubPathOfNone(path: string)
    requires ValidPath(path)
    ensures SubPath(path, "") == path
  {
    ValidNotRooted(path);
  }

  // ---------- adding a mount ----------

  /** Adding a mount at p changes the resolution of no path outside p... */
  lemma MountChangesNothingOutside(mounts: map<string, FsId>, p: string, fs: FsId, q: string, best: string)
    requires ValidMounts(mounts) && ValidPath(p) && p != "." && p !in mounts && ValidPath(q)
    requires !(Decode(p) <= Decode(q))
    ensures IsBest(mounts[p := fs], q, best) <==> IsBest(mounts, q, best)
  {
    CoversIsPrefix(p, q);
    ValidNotRooted(p);
    var after := mounts[p := fs];
    assert forall k | k in after :: Covers(k, q) ==> k in mounts;
    assert forall k | k in mounts :: k in after;
  }

  /** ...and every path at or under p then belongs to p or to a mount under it. */
  lemma MountTakesWhatIsInside(mounts: map<string, FsId>, p: string, fs: FsId, q: string, best: string)
    requires ValidMounts(mounts) && ValidPath(p) && p != "." && ValidPath(q)
    requires Decode(p) <= Decode(q) && IsBest(mounts[p := fs], q, best)
    ensures best in mounts[p := fs] && Decode(p) <= Decode(best)
  {
    CoversIsPrefix(p, q);
    assert best in mounts[p := fs] && ValidPath(best) && best != ".";
    CoversIsPrefix(best, q);
    CoversIsPrefix(best, p);
    PrefixesCompare(Decode(p), Decode(best), Decode(q));
    if Covers(best, p) { assert best == p[..|best|]; }
  }

  /** addMount looks up the parent as path.Split leaves it, with a trailing slash (or empty): it
      finds what resolving p itself finds while nothing is mounted at p. */
  lemma ParentLookup(mounts: map<string, FsId>, p: string, best: string)
    requires ValidMounts(mounts) && ValidPath(p) && p != "." && p !in mounts
    ensures IsBest(mounts, SplitLast(p).0, best) <==> IsBest(mounts, p, best)
  {
    forall k | k in mounts ensures Covers(k, SplitLast(p).0) <==> Covers(k, p) {
      ParentCovers(k, p);
    }
  }

  lemma ParentCovers(k: string, p: string)
    requires ValidPath(k) && ValidPath(p) && p != "." && k != p
    ensures Covers(k, SplitLast(p).0) <==> Covers(k, p)
  {
    ValidNotRooted(k);
    SlashPrefix(SplitLast(p).0, SplitLast(p).1, k);
  }

  lemma SlashPrefix(dir: string, base: string, k: string)
    requires '/' !in base
    ensures k + "/" <= dir + base <==> k + "/" <= dir
  {
    var p := dir + base;
    assert forall i | 0 <= i < |base| :: base[i] != '/';
    assert forall i | |dir| <= i < |p| :: p[i] == base[i - |dir|];
    if k + "/" <= p {
      assert p[|k|] == (k + "/")[|k|] == '/';
      assert p[..|k| + 1] == dir[..|k| + 1];
    }
    if k + "/" <= dir {
      assert p[..|k| + 1] == dir[..|k| + 1];
    }
  }

  /** ...and joining the looked-up sub-path with the last element gives p's own sub-path. */
  lemma ParentSubPath(p: string, best: string)
    requires ValidPath(p) && p != "." && best != p
    requires best != "" ==> ValidPath(best) && best != "." && Covers(best, p)
    ensures Join([if best == "" then SplitLast(p).0 else SubPath(SplitLast(p).0, best), SplitLast(p).1]) ==
            SubPath(p, best)
  {
    if best == "" {
      SubPathOfNone(p);
      JoinDirBase(p);
    } else {
      ParentCovers(best, p);
      ValidNotRooted(best);
      ParentSubPathBelow(p, SplitLast(p).0, SplitLast(p).1, best);
    }
  }

  lemma CutPoint(s: string, point: string)
    requires point + "/" <= s
    ensures s == point + "/" + s[|point| + 1..]
    ensures SubPath(s, point) == if s[|point| + 1..] == "" then "." else s[|point| + 1..]
  {
    assert TrimPrefix(s, point) == "/" + s[|point| + 1..];
  }

  lemma ParentSubPathBelow(p: string, dir: string, base: string, best: string)
    requires ValidPath(p) && p != "." && ValidPath(best) && best != "." && best + "/" <= p && best + "/" <= dir
    requires SplitLast(p) == (dir, base)
    ensures Join([SubPath(dir, best), base]) == SubPath(p, best)
  {
    var rest, left := p[|best| + 1..], dir[|best| + 1..];
    assert SplitLast(rest) == (left, base) by { CutSplit(p, dir, base, |best| + 1); }
    assert rest != "" && Join([if left == "" then "." else left, base]) == rest by {
      CoveredRest(best, p);
      RestJoined(rest, left, base);
    }
    CutPoint(p, best);
    CutPoint(dir, best);
  }

  lemma RestJoined(rest: string, left: string, base: string)
    requires ValidPath(rest) && rest != "." && SplitLast(rest) == (left, base)
    ensures rest != "" && Join([if left == "" then "." else left, base]) == rest
  {
    ValidNotRooted(rest);
    JoinDirBase(rest);
  }

  /** Cutting a prefix off a directory part leaves the split where it was. */
  lemma CutSplit(p: string, dir: string, base: string, n: nat)
    requires SplitLast(p) == (dir, base) && n <= |dir|
    ensures SplitLast(p[n..]) == (dir[n..], base)
  {
    assert p[n..] == dir[n..] + base;
    assert n < |dir| ==> dir[n..][|dir| - n - 1] == dir[|dir| - 1];
    SplitUnique(p[n..], dir[n..], base);
  }

  /** path.Join puts a valid path back together after path.Split, also when the directory part
      has been trimmed to "." for being empty. */
  lemma JoinDirBase(p: string)
    requires ValidPath(p) && p != "."
    ensures var (dir, base) := SplitLast(p);
            Join([dir, base]) == p && (dir == "" ==> Join([".", base]) == p)
  {
    SplitValid(p);
    var d, c := Parent(Decode(p)), Decode(p)[|Decode(p)| - 1];
    assert IsName(c);
    assert Decode(p) == d + [c];
    assert Encode(Decode(p)) == p;
    DecodeEncode(d);
    if d == [] {
      JoinEmpty(c);
      JoinRoot(c);
    } else {
      assert Join([Encode(d) + "/", c]) == Encode(d + [c]) by { JoinDirSlash(Encode(d), c); }
    }
  }

  lemma JoinDirSlash(d: string, c: string)
    requires ValidPath(d) && IsName(c)
    ensures Join([d + "/", c]) == Encode(Decode(d) + [c])
  {
    JoinTwo(d + "/", c);
    SlashTwice(d, c);
  }

  lemma JoinEmpty(c: string)
    requires IsName(c)
    ensures Join(["", c]) == c
  {
    NameIsValid(c);
    assert c in ["", c];
    assert ["", c][1..] == [c] && [c][1..] == [];
    assert "" + c == c;
    assert JoinRaw(["", c], "") == JoinRaw([c], "");
    assert JoinRaw([c], "") == JoinRaw([], c);
    CleanValid(c);
  }

  lemma JoinRoot(c: string)
    requires IsName(c)
    ensures Join([".", c]) == c
  {
    NameIsValid(c);
    JoinValid(".", c);
    assert Decode(".") == [];
    assert Encode([c]) == c;
    assert Encode(Decode(Join([".", c]))) == Join([".", c]);
  }

  lemma SlashTwice(d: string, c: string)
    requires ValidPath(d) && IsName(c)
    ensures Clean(d + "/" + "/" + c) == Encode(Decode(d) + [c])
  {
    var k := Decode(d);
    ValidNotRooted(d);
    KeepsValid(d);
    KeepsEndSlash(d, k);
    KeepsName(c);
    KeepsSlash(d + "/", k, c, [c]);
    assert (d + "/" + "/" + c)[0] == d[0];
    CleanKeeps(d + "/" + "/" + c, k + [c]);
  }

  // ---------- the mount table ----------

  datatype Error = Nil | NotExist | Exist | NotDir | Invalid | NotImplemented | Permission | Other | Delegated

  datatype File = File(bytes: Bytes, isDir: bool)

  type World = map<FsId, map<string, File>>

  function PutFile(w: World, fs: FsId, sub: string, f: File): World
    requires fs in w
  {
    w[fs := w[fs][sub := f]]
  }

  function DropFile(w: World, fs: FsId, sub: string): World
    requires fs in w
  {
    w[fs := w[fs] - {sub}]
  }

  predicate HasFile(w: World, fs: FsId, sub: string, bytes: Bytes) {
    fs in w && sub in w[fs] && w[fs][sub] == File(bytes, false)
  }

  /** The file holds the beginning of these bytes. */
  predicate HasPart(w: World, fs: FsId, sub: string, bytes: Bytes) {
    fs in w && sub in w[fs] && !w[fs][sub].isDir && w[fs][sub].bytes <= bytes
  }

  /** Nothing differs but the two named files. */
  ghost predicate SameElsewhere(w: World, v: World, fs: FsId, sub: string, fs2: FsId, sub2: string) {
    w.Keys == v.Keys &&
    forall f, s | f in w && !(f == fs && s == sub) && !(f == fs2 && s == sub2) ::
        (s in w[f] <==> s in v[f]) && (s in w[f] ==> w[f][s] == v[f][s])
  }

  /** How the two file systems answer during a cross-mount rename: whether each call succeeds, and
      how the copy proceeds from each position (how much is read, and whether the write works). */
  datatype Answers = Answers(open: bool, create: bool, writer: bool, chunk: nat -> nat, write: nat -> bool,
                             left: nat -> nat, cleanup: bool, remove: bool)

  ghost function Lookup(w: World, fs: FsId, sub: string): (bool, File) {
    if fs in w && sub in w[fs] then (true, w[fs][sub]) else (false, File([], false))
  }

  /** The mount point's key; the root file system's point "." has none. */
  function BestAt(point: string): string {
    if point == "." then "" else point
  }

  class MountFS {
    const root: FsId
    var mounts: map<string, FsId>
    var world: World  // the mounted file systems' files

    ghost predicate Valid()
      reads this
    {
      ValidMounts(mounts) && root in world && forall k | k in mounts :: mounts[k] in world
    }

    constructor (root: FsId, world: World)
      requires root in world
      ensures Valid() && mounts == map[] && this.root == root && this.world == world
    {
      this.root, this.world, mounts := root, world, map[];
    }

    ghost function FsOf(best: string): FsId
      reads this
    {
      if best in mounts then mounts[best] else root
    }

    /** The loop over the mounts, in whatever order they come, stopping at an exact match. */
    method MountPoint(path: string) returns (fs: FsId, point: string, sub: string)
      requires Valid()
      ensures (point == "." || point in mounts) && IsBest(mounts, path, BestAt(point))
      ensures fs == FsOf(BestAt(point)) && sub == SubPath(path, BestAt(point))
    {
      EmptyInvalid();
      var result, todo := "", mounts.Keys;
      fs := root;
      while todo != {}
        invariant todo <= mounts.Keys
        invariant result == "" || (result in mounts.Keys - todo && Covers(result, path))
        invariant fs == FsOf(result)
        invariant forall k | k in mounts.Keys - todo && Covers(k, path) :: |k| <= |result|
        decreases todo
      {
        var key :| key in todo;
        todo := todo - {key};
        ValidNotRooted(key);
        if key + "/" <= path {
          if |key| > |result| {
            result, fs := key, mounts[key];
          }
        } else if key == path {
          result, fs := key, mounts[key];
          break;
        }
      }
      assert IsBest(mounts, path, result) by {
        forall k | k in mounts && Covers(k, path) ensures |k| <= |result| && k != "" {
          ValidNotRooted(k);
          assert |k| <= |path|;
        }
      }
      assert result != ".";
      sub := SubPath(path, result);
      point := if result == "" then "." else result;
    }

    method Mount(path: string) returns (fs: FsId, sub: string)
      requires Valid()
      ensures exists best :: IsBest(mounts, path, best)
      ensures forall best | IsBest(mounts, path, best) ::
                fs == FsOf(best) && sub == if best == "" then path else SubPath(path, best)
    {
      var point;
      fs, point, sub := MountPoint(path);
      BestDecides(path, BestAt(point));
      EmptyInvalid();
      if point == "." {
        sub := path;
      }
    }

    /** AddMount succeeds exactly at a free, valid, non-root path that is a directory in the file
        system it belongs to so far. */
    method AddMount(p: string, mountFS: FsId) returns (err: Error)
      requires Valid() && mountFS in world
      modifies this`mounts
      ensures Valid()
      ensures err == Invalid <==> !ValidPath(p) || p == "."
      ensures err == Exist <==> err != Invalid && p in old(mounts)
      ensures err != Nil ==> mounts == old(mounts)
      ensures err == Nil ==> mounts == old(mounts)[p := mountFS]
      ensures err !in {Invalid, Exist} ==>
                exists best :: IsBest(old(mounts), p, best) &&
                               var (found, f) := Lookup(world, old(FsOf(best)), SubPath(p, best));
                               err == if !found then NotExist else if !f.isDir then NotDir else Nil
    {
      if !ValidPath(p) || p == "." {
        return Invalid;
      }
      if p in mounts {
        return Exist;
      }
      var (dir, base) := SplitLast(p);
      var parentFS, subPath := Mount(dir);
      ghost var best :| IsBest(mounts, dir, best);
      ParentLookup(mounts, p, best);
      EmptyInvalid();
      ParentSubPath(p, best);
      var target := Join([subPath, base]);
      if !(parentFS in world && target in world[parentFS]) {
        return NotExist;
      } else if !world[parentFS][target].isDir {
        return NotDir;
      }
      mounts := mounts[p := mountFS];
      return Nil;
    }

    /** Rename.  Within one mount it is that file system's own rename.  Across mounts a file is
        copied and then removed; `trace` is every state the world goes through. */
    method Rename(oldname: string, newname: string, env: Answers) returns (err: Error, ghost trace: seq<World>)
      requires Valid()
      modifies this`world
      ensures Valid()
      ensures forall a, b | IsBest(mounts, oldname, a) && IsBest(mounts, newname, b) ::
                RenameDone(old(world), old(FsOf(a)), SubPath(oldname, a), old(FsOf(b)), SubPath(newname, b),
                           oldname == newname, a == b, env, trace, world, err)
    {
      trace := [];
      var oldFS, oldPoint, oldSub := MountPoint(oldname);
      var newFS, newPoint, newSub := MountPoint(newname);
      BestDecides(oldname, BestAt(oldPoint));
      BestDecides(newname, BestAt(newPoint));
      assert oldPoint == newPoint <==> BestAt(oldPoint) == BestAt(newPoint) by { EmptyInvalid(); }
      if oldSub !in world[oldFS] {
        return NotExist, trace;
      }
      var info := world[oldFS][oldSub];
      if oldname == newname {
        return if info.isDir then Exist else Nil, trace;
      }
      if oldPoint == newPoint {
        return Delegated, trace;
      }
      if info.isDir {
        return NotImplemented, trace;
      }
      err, world, trace := MoveAcross(world, oldFS, oldSub, newFS, newSub, env);
    }

    lemma BestDecides(path: string, best: string)
      requires IsBest(mounts, path, best)
      ensures forall b | IsBest(mounts, path, b) :: b == best
    {
      forall b | IsBest(mounts, path, b) ensures b == best {
        BestUnique(mounts, path, b, best);
      }
    }
  }

  /** Open, create, copy, remove: every file system call of the move, in order. */
  method MoveAcross(w: World, oldFS: FsId, oldSub: string, newFS: FsId, newSub: string, env: Answers)
    returns (err: Error, u: World, ghost trace: seq<World>)
    requires oldFS in w && newFS in w && oldSub in w[oldFS] && !w[oldFS][oldSub].isDir
    ensures Moved(w, oldFS, oldSub, newFS, newSub, env, u, err)
    ensures oldFS != newFS || oldSub != newSub ==> NeverLost(trace, oldFS, oldSub, w[oldFS][oldSub].bytes, u, err)
  {
    if !env.open || !env.create || (newSub in w[newFS] && w[newFS][newSub].isDir) {
      return Other, w, [];
    }
    ghost var content := w[oldFS][oldSub].bytes;
    ghost var same := oldFS == newFS && oldSub == newSub;
    var emptied := PutFile(w, newFS, newSub, File([], false));
    if !env.writer {
      return Permission, emptied, [emptied];
    }
    var ok, copied;
    ghost var steps;
    ok, copied, steps := Copy(emptied, oldFS, oldSub, newFS, newSub, env);
    trace := [emptied] + steps;
    CopiedElsewhere(w, emptied, copied, oldFS, oldSub, newFS, newSub);
    if !same {
      CopyHolds(emptied, copied, steps, oldFS, oldSub, newFS, newSub, content);
    }
    if !ok {
      u := if env.cleanup then DropFile(copied, newFS, newSub) else copied;
      CleanedUp(w, oldFS, oldSub, newFS, newSub, env, trace, copied, u);
      return Other, u, trace + [u];
    }
    if !env.remove {
      SourceKept(w, oldFS, oldSub, newFS, newSub, env, copied);
      return Other, copied, trace;
    }
    u := DropFile(copied, oldFS, oldSub);
    SourceGone(w, oldFS, oldSub, newFS, newSub, env, trace, copied, u);
    return Nil, u, trace + [u];
  }

  lemma CleanedUp(w: World, oldFS: FsId, oldSub: string, newFS: FsId, newSub: string, env: Answers,
                  trace: seq<World>, copied: World, u: World)
    requires oldFS in w && newFS in w && oldSub in w[oldFS] && (oldFS != newFS || oldSub != newSub)
    requires Opens(w, newFS, newSub, env) && env.writer && !AllWritten(env, |w[oldFS][oldSub].bytes|, 0)
    requires SameElsewhere(w, copied, oldFS, oldSub, newFS, newSub)
    requires var content := w[oldFS][oldSub].bytes;
             AllHold(trace, oldFS, oldSub, content) && HasFile(copied, oldFS, oldSub, content) &&
             HasPart(copied, newFS, newSub, content)
    requires u == if env.cleanup then DropFile(copied, newFS, newSub) else copied
    ensures Moved(w, oldFS, oldSub, newFS, newSub, env, u, Other)
    ensures NeverLost(trace + [u], oldFS, oldSub, w[oldFS][oldSub].bytes, u, Other)
  {
    assert SameElsewhere(w, u, oldFS, oldSub, newFS, newSub);
  }

  /** The whole copy is there, but the source cannot be removed. */
  lemma SourceKept(w: World, oldFS: FsId, oldSub: string, newFS: FsId, newSub: string, env: Answers, copied: World)
    requires oldFS in w && newFS in w && oldSub in w[oldFS] && Opens(w, newFS, newSub, env) && env.writer && !env.remove
    requires SameElsewhere(w, copied, oldFS, oldSub, newFS, newSub)
    requires var content := w[oldFS][oldSub].bytes;
             if oldFS == newFS && oldSub == newSub then HasFile(copied, oldFS, oldSub, [])
             else AllWritten(env, |content|, 0) &&
                  HasFile(copied, oldFS, oldSub, content) && HasFile(copied, newFS, newSub, content)
    ensures Moved(w, oldFS, oldSub, newFS, newSub, env, copied, Other)
  {
  }

  lemma SourceGone(w: World, oldFS: FsId, oldSub: string, newFS: FsId, newSub: string, env: Answers,
                   trace: seq<World>, copied: World, u: World)
    requires oldFS in w && newFS in w && oldSub in w[oldFS] && Opens(w, newFS, newSub, env) && env.writer && env.remove
    requires SameElsewhere(w, copied, oldFS, oldSub, newFS, newSub)
    requires var content := w[oldFS][oldSub].bytes;
             oldFS != newFS || oldSub != newSub ==>
               AllWritten(env, |content|, 0) &&
               AllHold(trace, oldFS, oldSub, content) && HasFile(copied, newFS, newSub, content)
    requires u == DropFile(copied, oldFS, oldSub)
    ensures Moved(w, oldFS, oldSub, newFS, newSub, env, u, Nil)
    ensures oldFS != newFS || oldSub != newSub ==> NeverLost(trace + [u], oldFS, oldSub, w[oldFS][oldSub].bytes, u, Nil)
  {
    assert SameElsewhere(w, u, oldFS, oldSub, newFS, newSub);
    assert (trace + [u])[..|trace|] == trace;
  }

  /** Where the chunk read at a position ends. */
  function ChunkEnd(env: Answers, length: nat, pos: nat): (end: nat)
    requires pos < length
    ensures pos < end <= length
  {
    var n := if env.chunk(pos) == 0 then 1 else env.chunk(pos);
    if length < pos + n then length else pos + n
  }

  /** Every write that a copy from this position makes works. */
  predicate AllWritten(env: Answers, length: nat, pos: nat)
    decreases length - pos
  {
    pos < length ==> env.write(pos) && AllWritten(env, length, ChunkEnd(env, length, pos))
  }

  /** io.Copy from the open source file to the freshly truncated destination file; a failing
      write may have written part of its chunk. */
  method Copy(w: World, oldFS: FsId, oldSub: string, newFS: FsId, newSub: string, env: Answers)
    returns (ok: bool, u: World, ghost steps: seq<World>)
    requires oldFS in w && oldSub in w[oldFS] && !w[oldFS][oldSub].isDir && HasFile(w, newFS, newSub, [])
    ensures SameElsewhere(w, u, newFS, newSub, newFS, newSub)
    ensures forall v | v in steps :: SameElsewhere(w, v, newFS, newSub, newFS, newSub)
    ensures newSub in u[newFS] && !u[newFS][newSub].isDir
    ensures oldFS == newFS && oldSub == newSub ==> ok && u == w
    ensures oldFS != newFS || oldSub != newSub ==> (ok <==> AllWritten(env, |w[oldFS][oldSub].bytes|, 0))
    ensures if ok then HasFile(u, newFS, newSub, w[oldFS][oldSub].bytes)
            else HasPart(u, newFS, newSub, w[oldFS][oldSub].bytes)
  {
    u, steps, ok := w, [], true;
    ghost var content := w[oldFS][oldSub].bytes;
    var pos := 0;
    while pos < |u[oldFS][oldSub].bytes|
      invariant SameElsewhere(w, u, newFS, newSub, newFS, newSub)
      invariant forall v | v in steps :: SameElsewhere(w, v, newFS, newSub, newFS, newSub)
      invariant oldSub in u[oldFS] && u[oldFS][oldSub] == w[oldFS][oldSub] && pos <= |content|
      invariant HasFile(u, newFS, newSub, content[..pos])
      invariant oldFS == newFS && oldSub == newSub ==> u == w && pos == 0
      invariant ok && (AllWritten(env, |content|, 0) <==> AllWritten(env, |content|, pos))
      decreases |content| - pos
    {
      var src := u[oldFS][oldSub].bytes;
      var end := ChunkEnd(env, |src|, pos);
      ok := env.write(pos);
      var written := if ok || end < pos + env.left(pos) then end else pos + env.left(pos);
      assert content[..pos] + content[pos..written] == content[..written];
      u := PutFile(u, newFS, newSub, File(u[newFS][newSub].bytes + src[pos..written], false));
      steps := steps + [u];
      if !ok {
        return;
      }
      pos := end;
    }
    assert content[..pos] == content;
  }

  ghost predicate AllHold(trace: seq<World>, fs: FsId, sub: string, bytes: Bytes) {
    forall v | v in trace :: HasFile(v, fs, sub, bytes)
  }

  lemma CopiedElsewhere(w: World, emptied: World, copied: World, oldFS: FsId, oldSub: string, newFS: FsId,
                        newSub: string)
    requires newFS in w && emptied == PutFile(w, newFS, newSub, File([], false))
    requires SameElsewhere(emptied, copied, newFS, newSub, newFS, newSub)
    ensures SameElsewhere(w, copied, oldFS, oldSub, newFS, newSub)
  {
  }

  /** Nothing a copy writes touches the source, when the two files differ. */
  lemma CopyHolds(w: World, u: World, steps: seq<World>, oldFS: FsId, oldSub: string, newFS: FsId, newSub: string,
                  bytes: Bytes)
    requires HasFile(w, oldFS, oldSub, bytes) && (oldFS != newFS || oldSub != newSub)
    requires SameElsewhere(w, u, newFS, newSub, newFS, newSub)
    requires forall v | v in steps :: SameElsewhere(w, v, newFS, newSub, newFS, newSub)
    ensures HasFile(u, oldFS, oldSub, bytes) && AllHold([w] + steps, oldFS, oldSub, bytes)
  {
    forall v | v in steps ensures HasFile(v, oldFS, oldSub, bytes) {
      assert SameElsewhere(w, v, newFS, newSub, newFS, newSub);
    }
  }

  /** Both files can be opened, the new one for writing. */
  predicate Opens(w: World, newFS: FsId, newSub: string, env: Answers)
    requires newFS in w
  {
    env.open && env.create && !(newSub in w[newFS] && w[newFS][newSub].isDir)
  }

  /** A cross-mount move of a file. */
  ghost predicate Moved(w: World, oldFS: FsId, oldSub: string, newFS: FsId, newSub: string, env: Answers,
                        after: World, err: Error)
    requires oldFS in w && newFS in w && oldSub in w[oldFS]
  {
    && SameElsewhere(w, after, oldFS, oldSub, newFS, newSub)
    && if !Opens(w, newFS, newSub, env) then err == Other && after == w
       else if oldFS == newFS && oldSub == newSub then MovedOnto(oldFS, oldSub, env, after, err)
       else MovedApart(w[oldFS][oldSub].bytes, oldFS, oldSub, newFS, newSub, env, after, err)
  }

  /** Between two different files: if every call works the content is only at the destination, and
      otherwise it is at the source.  A copy that failed is cleaned up, if the clean-up works. */
  ghost predicate MovedApart(content: Bytes, oldFS: FsId, oldSub: string, newFS: FsId, newSub: string, env: Answers,
                             after: World, err: Error)
  {
    if !env.writer then
      err == Permission && HasFile(after, oldFS, oldSub, content) && HasFile(after, newFS, newSub, [])
    else if !AllWritten(env, |content|, 0) then
      && err == Other && HasFile(after, oldFS, oldSub, content)
      && if env.cleanup then newFS in after && newSub !in after[newFS] else HasPart(after, newFS, newSub, content)
    else if !env.remove then
      err == Other && HasFile(after, oldFS, oldSub, content) && HasFile(after, newFS, newSub, content)
    else
      err == Nil && HasFile(after, newFS, newSub, content) && oldFS in after && oldSub !in after[oldFS]
  }

  /** A file reached through two mount points is emptied, copied onto itself and removed. */
  ghost predicate MovedOnto(fs: FsId, sub: string, env: Answers, after: World, err: Error) {
    if !env.writer then err == Permission && HasFile(after, fs, sub, [])
    else if !env.remove then err == Other && HasFile(after, fs, sub, [])
    else err == Nil && fs in after && sub !in after[fs]
  }

  /** The content is never out of reach: it is whole at the source in every state on the way,
      except in the last of a success. */
  ghost predicate NeverLost(trace: seq<World>, oldFS: FsId, oldSub: string, content: Bytes, after: World, err: Error) {
    if err == Nil then
      |trace| > 0 && AllHold(trace[..|trace| - 1], oldFS, oldSub, content) && trace[|trace| - 1] == after
    else AllHold(trace, oldFS, oldSub, content)
  }

  /** When every call works, the file is moved. */
  lemma MoveSucceeds(w: World, oldFS: FsId, oldSub: string, newFS: FsId, newSub: string, env: Answers,
                     after: World, err: Error)
    requires oldFS in w && newFS in w && oldSub in w[oldFS] && Moved(w, oldFS, oldSub, newFS, newSub, env, after, err)
    requires Opens(w, newFS, newSub, env) && env.writer && env.remove && forall pos :: env.write(pos)
    ensures err == Nil && oldFS in after && oldSub !in after[oldFS]
    ensures oldFS != newFS || oldSub != newSub ==> HasFile(after, newFS, newSub, w[oldFS][oldSub].bytes)
  {
    WritesWork(env, |w[oldFS][oldSub].bytes|, 0);
  }

  lemma {:induction false} WritesWork(env: Answers, length: nat, pos: nat)
    requires forall p :: env.write(p)
    ensures AllWritten(env, length, pos)
    decreases length - pos
  {
    if pos < length { WritesWork(env, length, ChunkEnd(env, length, pos)); }
  }

  ghost predicate RenameDone(w: World, oldFS: FsId, oldSub: string, newFS: FsId, newSub: string, sameName: bool,
                             samePoint: bool,
                             env: Answers, trace: seq<World>, after: World, err: Error)
  {
    oldFS in w && newFS in w &&
    if oldSub !in w[oldFS] then err == NotExist && after == w
    else if sameName then err == (if w[oldFS][oldSub].isDir then Exist else Nil) && after == w
    else if samePoint then err == Delegated && after == w
    else if w[oldFS][oldSub].isDir then err == NotImplemented && after == w
    else
      && Moved(w, oldFS, oldSub, newFS, newSub, env, after, err)
      && (oldFS != newFS || oldSub != newSub ==> NeverLost(trace, oldFS, oldSub, w[oldFS][oldSub].bytes, after, err))
  }
}
