/** The read-only cache under its per-path locks, as a step relation over any number of
    concurrent Open calls against an unchanging source. */
module Cache {
  import opened ByteType
  import opened Runs
  import opened Wrappers

  type Call = nat
  type MutexId = nat

  /** The source: its files and directories, which files the options retain, and which can seek. */
  datatype Config = Config(files: map<string, seq<byte>>, dirs: set<string>, retained: set<string>,
                           seekable: set<string>)

  datatype Result = Directory | Contents(bytes: seq<byte>) | Error

  /** Where an Open call is. */
  datatype Pc =
    | Statting(name: string)
    | FindingLock(name: string)                // Lock: about to load or store the path's mutex
    | Locking(name: string, mutex: MutexId)    // Lock: about to lock it
    | Checking(name: string)                   // about to open the cached file
    | Missed(name: string)                     // about to open the source file
    | Creating(name: string)                   // copyFile: about to create the cached file
    | Copying(name: string, pos: nat)          // copyFile: between two chunks
    | Copied(name: string)                     // about to seek the source file back
    | Reopening(name: string)                  // seek failed: about to open the cached file
    | Leaving(name: string, result: Result)    // deferred Unlock
    | Done(name: string, result: Result)

  datatype State = State(
    cache: map<string, seq<byte>>,
    copies: map<string, nat>,          // how often each file's copy was begun
    broken: set<string>,               // files of which a failed copy left less than the source
    locks: map<string, MutexId>,
    nextMutex: MutexId,
    held: map<MutexId, Call>,
    calls: seq<Pc>
  )

  datatype Action =
    | Begin(name: string)
    | Stat(c: Call)
    | FindLock(c: Call)
    | TakeLock(c: Call)
    | CheckCache(c: Call, ok: bool)
    | OpenSource(c: Call, ok: bool)
    | Create(c: Call, ok: bool, left: bool)   // on failure an empty file may be left
    | CopyChunk(c: Call, ok: bool, n: nat)
    | SeekBack(c: Call)
    | Reopen(c: Call, ok: bool)
    | Unlock(c: Call)

  const CHUNK: nat := 512

  predicate Init(s: State) {
    s == State(map[], map[], {}, map[], 0, map[], [])
  }

  function CopyCount(s: State, name: string): nat {
    if name in s.copies then s.copies[name] else 0
  }

  predicate Enabled(k: Config, s: State, a: Action) {
    match a
    case Begin(_) => true
    case Stat(c) => c < |s.calls| && s.calls[c].Statting?
    case FindLock(c) => c < |s.calls| && s.calls[c].FindingLock?
    case TakeLock(c) => c < |s.calls| && s.calls[c].Locking? && s.calls[c].mutex !in s.held
    case CheckCache(c, _) => c < |s.calls| && s.calls[c].Checking?
    case OpenSource(c, _) => c < |s.calls| && s.calls[c].Missed? && s.calls[c].name in k.files
    case Create(c, _, _) => c < |s.calls| && s.calls[c].Creating? && s.calls[c].name in k.files
    case CopyChunk(c, ok, n) =>
      c < |s.calls| && s.calls[c].Copying? && s.calls[c].name in k.files && s.calls[c].name in s.cache &&
      var left := |k.files[s.calls[c].name]| - s.calls[c].pos;
      0 <= left && n <= left && n <= CHUNK && (ok && 0 < left ==> 0 < n)
    case SeekBack(c) => c < |s.calls| && s.calls[c].Copied? && s.calls[c].name in k.files
    case Reopen(c, _) => c < |s.calls| && s.calls[c].Reopening?
    case Unlock(c) => c < |s.calls| && s.calls[c].Leaving? && s.calls[c].name in s.locks
  }

  function At(s: State, c: Call, pc: Pc): State
    requires c < |s.calls|
  {
    s.(calls := s.calls[c := pc])
  }

  /** The broken files after a copy has failed, leaving these bytes. */
  function Broken(k: Config, s: State, name: string, left: seq<byte>): set<string>
    requires name in k.files
  {
    if |left| < |k.files[name]| then s.broken + {name} else s.broken
  }

  function Step(k: Config, s: State, a: Action): State
    requires Enabled(k, s, a)
  {
    match a
    case Begin(name) => s.(calls := s.calls + [Statting(name)])
    case Stat(c) =>
      var name := s.calls[c].name;
      At(s, c, if name in k.dirs then Done(name, Directory)
               else if name in k.files then FindingLock(name) else Done(name, Error))
    case FindLock(c) =>
      var name := s.calls[c].name;
      if name in s.locks then At(s, c, Locking(name, s.locks[name]))
      else At(s, c, Locking(name, s.nextMutex)).(locks := s.locks[name := s.nextMutex], nextMutex := s.nextMutex + 1)
    case TakeLock(c) => At(s, c, Checking(s.calls[c].name)).(held := s.held[s.calls[c].mutex := c])
    case CheckCache(c, ok) =>
      var name := s.calls[c].name;
      At(s, c, if !ok then Leaving(name, Error)
               else if name in s.cache then Leaving(name, Contents(s.cache[name])) else Missed(name))
    case OpenSource(c, ok) =>
      var name := s.calls[c].name;
      At(s, c, if !ok then Leaving(name, Error)
               else if name in k.retained then Creating(name) else Leaving(name, Contents(k.files[name])))
    case Create(c, ok, left) =>
      var name := s.calls[c].name;
      if ok then
        At(s, c, Copying(name, 0)).(cache := s.cache[name := []], copies := s.copies[name := CopyCount(s, name) + 1])
      else if left then
        At(s, c, Leaving(name, Error)).(cache := s.cache[name := []], broken := Broken(k, s, name, []))
      else At(s, c, Leaving(name, Error))
    case CopyChunk(c, ok, n) =>
      var Copying(name, pos) := s.calls[c];
      var written := s.cache[name] + k.files[name][pos..pos + n];
      var t := s.(cache := s.cache[name := written]);
      if !ok then At(t, c, Leaving(name, Error)).(broken := Broken(k, s, name, written))
      else if n == 0 then At(t, c, Copied(name))
      else At(t, c, Copying(name, pos + n))
    case SeekBack(c) =>
      var name := s.calls[c].name;
      At(s, c, if name in k.seekable then Leaving(name, Contents(k.files[name])) else Reopening(name))
    case Reopen(c, ok) =>
      var name := s.calls[c].name;
      At(s, c, Leaving(name, if ok && name in s.cache then Contents(s.cache[name]) else Error))
    case Unlock(c) =>
      var Leaving(name, result) := s.calls[c];
      At(s, c, Done(name, result)).(held := s.held - {s.locks[name]})
  }

  function Next(k: Config): (State, Action) -> Option<State> {
    (s, a) => if Enabled(k, s, a) then Some(Step(k, s, a)) else None
  }

  // ---------- the invariant ----------

  /** The call is between Lock and Unlock. */
  predicate Inside(pc: Pc) {
    pc.Checking? || pc.Missed? || pc.Creating? || pc.Copying? || pc.Copied? || pc.Reopening? || pc.Leaving?
  }

  /** The call holds its path's mutex. */
  ghost predicate Holds(s: State, c: int) {
    && 0 <= c < |s.calls| && s.calls[c].name in s.locks
    && s.locks[s.calls[c].name] in s.held && s.held[s.locks[s.calls[c].name]] == c
  }

  /** One mutex per path, held by exactly the call that is inside with that path. */
  ghost predicate LockInv(s: State) {
    && (forall n | n in s.locks :: s.locks[n] < s.nextMutex)
    && (forall n, m | n in s.locks && m in s.locks && n != m :: s.locks[n] != s.locks[m])
    && (forall c | 0 <= c < |s.calls| && s.calls[c].Locking? ::
          s.calls[c].name in s.locks && s.locks[s.calls[c].name] == s.calls[c].mutex)
    && (forall c | 0 <= c < |s.calls| && Inside(s.calls[c]) :: Holds(s, c))
    && (forall m | m in s.held :: Holder(s, m, s.held[m]))
  }

  ghost predicate Holder(s: State, m: MutexId, c: Call) {
    c < |s.calls| && Inside(s.calls[c]) && s.calls[c].name in s.locks && s.locks[s.calls[c].name] == m
  }

  ghost predicate BeingCopied(s: State, name: string) {
    exists c :: 0 <= c < |s.calls| && s.calls[c].Copying? && s.calls[c].name == name
  }

  /** The cached file is there to stay, as it is. */
  ghost predicate Settled(s: State, name: string) {
    name in s.cache && !BeingCopied(s, name)
  }

  /** What a call knows about its file. */
  ghost predicate CallOk(k: Config, s: State, pc: Pc) {
    match pc
    case Statting(_) => true
    case Missed(name) => name in k.files && name !in s.cache
    case Creating(name) => name in k.files && name in k.retained && name !in s.cache
    case Copying(name, pos) =>
      name in k.files && name in k.retained && pos <= |k.files[name]| && name in s.cache &&
      s.cache[name] == k.files[name][..pos] && name !in s.broken
    case Copied(name) => Whole(k, s, name)
    case Reopening(name) => Whole(k, s, name)
    case Leaving(name, result) => name in k.files && (result.Contents? ==> Served(k, s, name, result.bytes))
    case Done(name, result) => result.Contents? ==> Served(k, s, name, result.bytes)
    case _ => pc.name in k.files
  }

  ghost predicate Whole(k: Config, s: State, name: string) {
    name in k.files && name in k.retained && Settled(s, name) && s.cache[name] == k.files[name]
  }

  /** What an Open returns: the cached file, or for a file that is not retained the source's. */
  ghost predicate Served(k: Config, s: State, name: string, bytes: seq<byte>) {
    name in k.files && if name in k.retained then Settled(s, name) && bytes == s.cache[name] else bytes == k.files[name]
  }

  /** A cached file has been copied at most once, holds the beginning of the source, and all of it,
      unless a copy is under way, exactly when no copy broke it. */
  ghost predicate NameOk(k: Config, s: State, name: string) {
    && CopyCount(s, name) <= (if name in s.cache then 1 else 0)
    && (name !in s.cache ==> name !in s.broken)
    && (name in s.cache ==>
          name in k.files && name in k.retained && s.cache[name] <= k.files[name] &&
          (BeingCopied(s, name) || (s.cache[name] == k.files[name] <==> name !in s.broken)))
  }

  ghost predicate Inv(k: Config, s: State) {
    && LockInv(s)
    && (forall c | 0 <= c < |s.calls| :: CallOk(k, s, s.calls[c]))
    && (forall name :: NameOk(k, s, name))
  }

  /** Two calls are never inside with the same path. */
  lemma Exclusive(s: State, c: Call, d: Call)
    requires LockInv(s) && c < |s.calls| && d < |s.calls| && Inside(s.calls[c]) && Inside(s.calls[d])
    requires s.calls[c].name == s.calls[d].name
    ensures c == d
  {
    assert Holds(s, c) && Holds(s, d);
  }

  // ---------- the locks ----------

  /** A call goes on without passing Lock or Unlock. */
  lemma LockSame(s: State, t: State, c: Call)
    requires LockInv(s) && c < |s.calls| == |t.calls| && t.calls == s.calls[c := t.calls[c]]
    requires t.locks == s.locks && t.held == s.held && t.nextMutex == s.nextMutex
    requires t.calls[c].name == s.calls[c].name && Inside(t.calls[c]) == Inside(s.calls[c])
    requires t.calls[c].Locking? ==> t.calls[c].name in t.locks && t.locks[t.calls[c].name] == t.calls[c].mutex
    ensures LockInv(t)
  {
    forall d | 0 <= d < |t.calls| && Inside(t.calls[d]) ensures Holds(t, d) {
      assert Holds(s, d);
    }
    forall m | m in t.held ensures Holder(t, m, t.held[m]) {
      assert Holder(s, m, s.held[m]);
    }
  }

  lemma LockBegin(s: State, name: string)
    requires LockInv(s)
    ensures LockInv(s.(calls := s.calls + [Statting(name)]))
  {
    var t := s.(calls := s.calls + [Statting(name)]);
    forall d | 0 <= d < |t.calls| && Inside(t.calls[d]) ensures Holds(t, d) {
      assert Holds(s, d);
    }
    forall m | m in t.held ensures Holder(t, m, t.held[m]) {
      assert Holder(s, m, s.held[m]);
    }
  }

  lemma LockNew(s: State, name: string)
    requires LockInv(s) && name !in s.locks
    ensures LockInv(s.(locks := s.locks[name := s.nextMutex], nextMutex := s.nextMutex + 1))
  {
    var t := s.(locks := s.locks[name := s.nextMutex], nextMutex := s.nextMutex + 1);
    forall d | 0 <= d < |t.calls| && Inside(t.calls[d]) ensures Holds(t, d) {
      assert Holds(s, d);
    }
    forall m | m in t.held ensures Holder(t, m, t.held[m]) {
      assert Holder(s, m, s.held[m]);
    }
  }

  lemma LockFind(k: Config, s: State, c: Call)
    requires LockInv(s) && Enabled(k, s, FindLock(c))
    ensures LockInv(Step(k, s, FindLock(c)))
  {
    var name := s.calls[c].name;
    if name in s.locks {
      LockSame(s, Step(k, s, FindLock(c)), c);
    } else {
      LockNew(s, name);
      LockSame(s.(locks := s.locks[name := s.nextMutex], nextMutex := s.nextMutex + 1), Step(k, s, FindLock(c)), c);
    }
  }

  lemma LockTake(k: Config, s: State, c: Call)
    requires LockInv(s) && Enabled(k, s, TakeLock(c))
    ensures LockInv(Step(k, s, TakeLock(c)))
  {
    var t := Step(k, s, TakeLock(c));
    forall d | 0 <= d < |t.calls| && Inside(t.calls[d]) ensures Holds(t, d) {
      if d != c { assert Holds(s, d); }
    }
    forall m | m in t.held ensures Holder(t, m, t.held[m]) {
      if m in s.held { assert Holder(s, m, s.held[m]); }
    }
  }

  lemma LockRelease(k: Config, s: State, c: Call)
    requires LockInv(s) && Enabled(k, s, Unlock(c))
    ensures LockInv(Step(k, s, Unlock(c)))
  {
    var t := Step(k, s, Unlock(c));
    assert Holds(s, c);
    forall d: Call | d < |t.calls| && Inside(t.calls[d]) ensures Holds(t, d) {
      assert d != c;
      StillHolds(k, s, c, d);
    }
    forall m | m in t.held ensures Holder(t, m, t.held[m]) {
      assert Holder(s, m, s.held[m]);
    }
  }

  lemma StillHolds(k: Config, s: State, c: Call, d: Call)
    requires LockInv(s) && Enabled(k, s, Unlock(c)) && d < |s.calls| && d != c && Inside(s.calls[d])
    ensures Holds(Step(k, s, Unlock(c)), d)
  {
    assert Holds(s, c) && Holds(s, d);
  }

  // ---------- the files ----------

  /** Call c moves to pc; the cache changes at most at its own file, then from inside the lock, and
      not once the file is settled. */
  ghost predicate Moves(s: State, t: State, c: Call, pc: Pc) {
    && c < |s.calls| && t.calls == s.calls[c := pc] && pc.name == s.calls[c].name
    && (Inside(s.calls[c]) || (t.cache == s.cache && t.copies == s.copies && t.broken == s.broken))
    && (s.calls[c].Copying? || pc.Copying? ==> Inside(s.calls[c]))
    && (Settled(s, pc.name) ==> t.cache == s.cache && !pc.Copying?)
    && forall name | name != pc.name :: SameFile(s, t, name)
  }

  ghost predicate SameFile(s: State, t: State, name: string) {
    && (name in t.cache <==> name in s.cache) && (name in s.cache ==> t.cache[name] == s.cache[name])
    && (name in t.broken <==> name in s.broken) && CopyCount(t, name) == CopyCount(s, name)
  }

  /** The other files' copies are where they were, and a settled file stays settled. */
  lemma CopiersKeep(s: State, t: State, c: Call, pc: Pc, name: string)
    requires Moves(s, t, c, pc)
    ensures name != pc.name ==> (BeingCopied(t, name) <==> BeingCopied(s, name))
    ensures Settled(s, name) ==> Settled(t, name) && t.cache[name] == s.cache[name]
  {
    if BeingCopied(s, name) {
      var d :| 0 <= d < |s.calls| && s.calls[d].Copying? && s.calls[d].name == name;
      assert d != c ==> t.calls[d] == s.calls[d];
    }
    if BeingCopied(t, name) {
      var d :| 0 <= d < |t.calls| && t.calls[d].Copying? && t.calls[d].name == name;
      assert d != c ==> s.calls[d] == t.calls[d];
    }
    assert name != pc.name ==> SameFile(s, t, name);
  }

  lemma CallsKeep(k: Config, s: State, t: State, c: Call, pc: Pc)
    requires Inv(k, s) && Moves(s, t, c, pc) && CallOk(k, t, pc)
    ensures forall d | 0 <= d < |t.calls| :: CallOk(k, t, t.calls[d])
  {
    forall d: Call | d < |t.calls| ensures CallOk(k, t, t.calls[d]) {
      if d != c { OtherCallKeeps(k, s, t, c, pc, d); }
    }
  }

  lemma OtherCallKeeps(k: Config, s: State, t: State, c: Call, pc: Pc, d: Call)
    requires Inv(k, s) && Moves(s, t, c, pc) && d < |t.calls| && d != c
    ensures CallOk(k, t, t.calls[d])
  {
    var name := s.calls[d].name;
    assert CallOk(k, s, s.calls[d]);
    CopiersKeep(s, t, c, pc, name);
    if name == pc.name {
      if Inside(s.calls[d]) && Inside(s.calls[c]) { Exclusive(s, c, d); }
    } else {
      assert SameFile(s, t, name);
    }
  }

  lemma NamesKeep(k: Config, s: State, t: State, c: Call, pc: Pc)
    requires Inv(k, s) && Moves(s, t, c, pc) && NameOk(k, t, pc.name)
    ensures forall name :: NameOk(k, t, name)
  {
    forall name ensures NameOk(k, t, name) {
      if name != pc.name {
        assert NameOk(k, s, name) && SameFile(s, t, name);
        CopiersKeep(s, t, c, pc, name);
      }
    }
  }

  /** Nobody else is copying the file of a call that is inside. */
  lemma OnlyCopier(s: State, c: Call)
    requires LockInv(s) && c < |s.calls| && Inside(s.calls[c])
    ensures BeingCopied(s, s.calls[c].name) <==> s.calls[c].Copying?
  {
    forall d: Call | d < |s.calls| && s.calls[d].Copying? && s.calls[d].name == s.calls[c].name ensures d == c {
      Exclusive(s, c, d);
    }
  }

  /** A step that leaves the cache and its history alone. */
  ghost predicate Quiet(s: State, t: State, c: Call, pc: Pc) {
    && c < |s.calls| && t.calls == s.calls[c := pc] && pc.name == s.calls[c].name
    && t.cache == s.cache && t.copies == s.copies && t.broken == s.broken
    && !s.calls[c].Copying? && !pc.Copying?
  }

  lemma QuietStep(k: Config, s: State, t: State, c: Call, pc: Pc)
    requires Inv(k, s) && LockInv(t) && Quiet(s, t, c, pc)
    requires CallOk(k, s, pc)
    ensures Inv(k, t)
  {
    assert forall name :: SameFile(s, t, name);
    assert Moves(s, t, c, pc);
    CopiersKeep(s, t, c, pc, pc.name);
    assert CallOk(k, t, pc);
    CallsKeep(k, s, t, c, pc);
    assert NameOk(k, s, pc.name);
    QuietCopiers(s, t, c, pc);
    NamesKeep(k, s, t, c, pc);
  }

  lemma QuietCopiers(s: State, t: State, c: Call, pc: Pc)
    requires Quiet(s, t, c, pc)
    ensures BeingCopied(t, pc.name) <==> BeingCopied(s, pc.name)
  {
    if BeingCopied(s, pc.name) {
      var d :| 0 <= d < |s.calls| && s.calls[d].Copying? && s.calls[d].name == pc.name;
      assert t.calls[d] == s.calls[d];
    }
    if BeingCopied(t, pc.name) {
      var d :| 0 <= d < |t.calls| && t.calls[d].Copying? && t.calls[d].name == pc.name;
      assert s.calls[d] == t.calls[d];
    }
  }

  lemma StepBegin(k: Config, s: State, name: string)
    requires Inv(k, s)
    ensures Inv(k, Step(k, s, Begin(name)))
  {
    var t := Step(k, s, Begin(name));
    LockBegin(s, name);
    assert |t.calls| == |s.calls| + 1 && forall c | 0 <= c < |s.calls| :: t.calls[c] == s.calls[c];
    forall c: Call | c < |t.calls| ensures CallOk(k, t, t.calls[c]) {
      if c < |s.calls| {
        assert CallOk(k, s, s.calls[c]);
        CopiersBegin(s, t, s.calls[c].name);
      }
    }
    forall n ensures NameOk(k, t, n) {
      assert NameOk(k, s, n);
      CopiersBegin(s, t, n);
    }
  }

  lemma CopiersBegin(s: State, t: State, name: string)
    requires |t.calls| == |s.calls| + 1 && forall c | 0 <= c < |s.calls| :: t.calls[c] == s.calls[c]
    requires t.calls[|s.calls|].Statting?
    ensures BeingCopied(t, name) <==> BeingCopied(s, name)
  {
    if BeingCopied(s, name) {
      var d :| 0 <= d < |s.calls| && s.calls[d].Copying? && s.calls[d].name == name;
      assert t.calls[d] == s.calls[d];
    }
  }

  lemma StepCreate(k: Config, s: State, c: Call, ok: bool, left: bool)
    requires Inv(k, s) && Enabled(k, s, Create(c, ok, left))
    ensures Inv(k, Step(k, s, Create(c, ok, left)))
  {
    var t := Step(k, s, Create(c, ok, left));
    var pc := t.calls[c];
    LockSame(s, t, c);
    assert CallOk(k, s, s.calls[c]) && NameOk(k, s, pc.name);
    OnlyCopier(s, c);
    OnlyCopier(t, c);
    CreateOk(k, s, t, c, ok, left);
    CreateMoves(k, s, t, c, ok, left);
    CallsKeep(k, s, t, c, pc);
    NamesKeep(k, s, t, c, pc);
  }

  lemma CreateMoves(k: Config, s: State, t: State, c: Call, ok: bool, left: bool)
    requires Enabled(k, s, Create(c, ok, left)) && t == Step(k, s, Create(c, ok, left))
    requires s.calls[c].name !in s.cache
    ensures Moves(s, t, c, t.calls[c])
  {
  }

  lemma CreateOk(k: Config, s: State, t: State, c: Call, ok: bool, left: bool)
    requires Enabled(k, s, Create(c, ok, left)) && t == Step(k, s, Create(c, ok, left))
    requires CallOk(k, s, s.calls[c]) && NameOk(k, s, s.calls[c].name)
    requires BeingCopied(t, t.calls[c].name) <==> t.calls[c].Copying?
    ensures CallOk(k, t, t.calls[c]) && NameOk(k, t, t.calls[c].name)
  {
  }

  lemma StepCopyChunk(k: Config, s: State, c: Call, ok: bool, n: nat)
    requires Inv(k, s) && Enabled(k, s, CopyChunk(c, ok, n))
    ensures Inv(k, Step(k, s, CopyChunk(c, ok, n)))
  {
    var t := Step(k, s, CopyChunk(c, ok, n));
    var pc := t.calls[c];
    LockSame(s, t, c);
    assert CallOk(k, s, s.calls[c]) && NameOk(k, s, pc.name);
    OnlyCopier(s, c);
    OnlyCopier(t, c);
    ChunkOk(k, s, t, c, ok, n);
    ChunkMoves(k, s, t, c, ok, n);
    CallsKeep(k, s, t, c, pc);
    NamesKeep(k, s, t, c, pc);
  }

  lemma ChunkMoves(k: Config, s: State, t: State, c: Call, ok: bool, n: nat)
    requires Enabled(k, s, CopyChunk(c, ok, n)) && t == Step(k, s, CopyChunk(c, ok, n))
    requires BeingCopied(s, s.calls[c].name)
    ensures Moves(s, t, c, t.calls[c])
  {
  }

  lemma ChunkOk(k: Config, s: State, t: State, c: Call, ok: bool, n: nat)
    requires Enabled(k, s, CopyChunk(c, ok, n)) && t == Step(k, s, CopyChunk(c, ok, n))
    requires CallOk(k, s, s.calls[c]) && NameOk(k, s, s.calls[c].name)
    requires BeingCopied(t, t.calls[c].name) <==> t.calls[c].Copying?
    ensures CallOk(k, t, t.calls[c]) && NameOk(k, t, t.calls[c].name)
  {
    var Copying(name, pos) := s.calls[c];
    var whole := k.files[name];
    assert whole[..pos] + whole[pos..pos + n] == whole[..pos + n];
    assert whole[..|whole|] == whole;
  }

  lemma StepCheckCache(k: Config, s: State, c: Call, ok: bool)
    requires Inv(k, s) && Enabled(k, s, CheckCache(c, ok))
    ensures Inv(k, Step(k, s, CheckCache(c, ok)))
  {
    var t := Step(k, s, CheckCache(c, ok));
    LockSame(s, t, c);
    assert CallOk(k, s, s.calls[c]) && NameOk(k, s, s.calls[c].name);
    OnlyCopier(s, c);
    QuietStep(k, s, t, c, t.calls[c]);
  }

  lemma StepOpenSource(k: Config, s: State, c: Call, ok: bool)
    requires Inv(k, s) && Enabled(k, s, OpenSource(c, ok))
    ensures Inv(k, Step(k, s, OpenSource(c, ok)))
  {
    var t := Step(k, s, OpenSource(c, ok));
    LockSame(s, t, c);
    assert CallOk(k, s, s.calls[c]);
    QuietStep(k, s, t, c, t.calls[c]);
  }

  lemma StepSeekBack(k: Config, s: State, c: Call)
    requires Inv(k, s) && Enabled(k, s, SeekBack(c))
    ensures Inv(k, Step(k, s, SeekBack(c)))
  {
    var t := Step(k, s, SeekBack(c));
    LockSame(s, t, c);
    assert CallOk(k, s, s.calls[c]);
    QuietStep(k, s, t, c, t.calls[c]);
  }

  lemma StepReopen(k: Config, s: State, c: Call, ok: bool)
    requires Inv(k, s) && Enabled(k, s, Reopen(c, ok))
    ensures Inv(k, Step(k, s, Reopen(c, ok)))
  {
    var t := Step(k, s, Reopen(c, ok));
    LockSame(s, t, c);
    assert CallOk(k, s, s.calls[c]);
    QuietStep(k, s, t, c, t.calls[c]);
  }

  lemma StepUnlock(k: Config, s: State, c: Call)
    requires Inv(k, s) && Enabled(k, s, Unlock(c))
    ensures Inv(k, Step(k, s, Unlock(c)))
  {
    var t := Step(k, s, Unlock(c));
    LockRelease(k, s, c);
    assert CallOk(k, s, s.calls[c]);
    QuietStep(k, s, t, c, t.calls[c]);
  }

  lemma StepStat(k: Config, s: State, c: Call)
    requires Inv(k, s) && Enabled(k, s, Stat(c))
    ensures Inv(k, Step(k, s, Stat(c)))
  {
    var t := Step(k, s, Stat(c));
    LockSame(s, t, c);
    QuietStep(k, s, t, c, t.calls[c]);
  }

  lemma StepFindLock(k: Config, s: State, c: Call)
    requires Inv(k, s) && Enabled(k, s, FindLock(c))
    ensures Inv(k, Step(k, s, FindLock(c)))
  {
    var t := Step(k, s, FindLock(c));
    LockFind(k, s, c);
    assert CallOk(k, s, s.calls[c]);
    QuietStep(k, s, t, c, t.calls[c]);
  }

  lemma StepTakeLock(k: Config, s: State, c: Call)
    requires Inv(k, s) && Enabled(k, s, TakeLock(c))
    ensures Inv(k, Step(k, s, TakeLock(c)))
  {
    var t := Step(k, s, TakeLock(c));
    LockTake(k, s, c);
    assert CallOk(k, s, s.calls[c]);
    QuietStep(k, s, t, c, t.calls[c]);
  }

  lemma InvStep(k: Config, s: State, a: Action)
    requires Inv(k, s) && Enabled(k, s, a)
    ensures Inv(k, Step(k, s, a))
  {
    match a
    case Begin(name) => StepBegin(k, s, name);
    case Stat(c) => StepStat(k, s, c);
    case FindLock(c) => StepFindLock(k, s, c);
    case TakeLock(c) => StepTakeLock(k, s, c);
    case CheckCache(c, ok) => StepCheckCache(k, s, c, ok);
    case OpenSource(c, ok) => StepOpenSource(k, s, c, ok);
    case Create(c, ok, left) => StepCreate(k, s, c, ok, left);
    case CopyChunk(c, ok, n) => StepCopyChunk(k, s, c, ok, n);
    case SeekBack(c) => StepSeekBack(k, s, c);
    case Reopen(c, ok) => StepReopen(k, s, c, ok);
    case Unlock(c) => StepUnlock(k, s, c);
  }

  lemma RunInv(k: Config, s: State, actions: seq<Action>, t: State)
    requires Inv(k, s) && Run(Next(k), s, actions, t)
    ensures Inv(k, t)
  {
    forall u, a | Inv(k, u) && Next(k)(u, a).Some? ensures Inv(k, Next(k)(u, a).value) {
      InvStep(k, u, a);
    }
    RunKeeps(Next(k), u => Inv(k, u), s, actions, t);
  }

  // ---------- the theorem ----------

  ghost predicate LockFree(s: State, name: string) {
    name !in s.locks || s.locks[name] !in s.held
  }

  /** In every interleaving, whichever way a call comes by a file: while its lock is free the cache
      holds nothing or the source's bytes exactly when no failed copy has left less of it; what
      an Open returned is the beginning of the source, and all of it exactly on that condition; a
      file is copied at most once.  Two calls are never inside the lock of one path. */
  lemma CacheAgrees(k: Config, s: State, actions: seq<Action>, t: State, name: string)
    requires Init(s) && Run(Next(k), s, actions, t)
    ensures LockFree(t, name) ==>
              ((name in t.cache ==> name in k.files && t.cache[name] == k.files[name]) <==> name !in t.broken)
    ensures CopyCount(t, name) <= 1
    ensures forall c | 0 <= c < |t.calls| && t.calls[c].Done? && t.calls[c].result.Contents? ::
              t.calls[c].name in k.files && t.calls[c].result.bytes <= k.files[t.calls[c].name] &&
              (t.calls[c].result.bytes == k.files[t.calls[c].name] <==> t.calls[c].name !in t.broken)
    ensures forall c, d | 0 <= c < d < |t.calls| && Inside(t.calls[c]) && Inside(t.calls[d]) ::
            t.calls[c].name != t.calls[d].name
  {
    RunInv(k, s, actions, t);
    assert NameOk(k, t, name);
    if BeingCopied(t, name) {
      var c :| 0 <= c < |t.calls| && t.calls[c].Copying? && t.calls[c].name == name;
      assert Inside(t.calls[c]) && Holds(t, c);
    }
    DoneRight(k, t);
    forall c: Call, d: Call | c < d < |t.calls| && Inside(t.calls[c]) && Inside(t.calls[d])
      ensures t.calls[c].name != t.calls[d].name
    {
      if t.calls[c].name == t.calls[d].name { Exclusive(t, c, d); }
    }
  }

  lemma DoneRight(k: Config, s: State)
    requires Inv(k, s)
    ensures forall c | 0 <= c < |s.calls| && s.calls[c].Done? && s.calls[c].result.Contents? ::
              s.calls[c].name in k.files && s.calls[c].result.bytes <= k.files[s.calls[c].name] &&
              (s.calls[c].result.bytes == k.files[s.calls[c].name] <==> s.calls[c].name !in s.broken)
  {
    forall c: Call | c < |s.calls| && s.calls[c].Done? && s.calls[c].result.Contents?
      ensures s.calls[c].name in k.files && s.calls[c].result.bytes <= k.files[s.calls[c].name]
      ensures s.calls[c].result.bytes == k.files[s.calls[c].name] <==> s.calls[c].name !in s.broken
    {
      assert CallOk(k, s, s.calls[c]) && NameOk(k, s, s.calls[c].name);
    }
  }

  // ---------- every call ends ----------

  /** The action is a step of this call. */
  predicate Own(a: Action, c: Call) {
    !a.Begin? && a.c == c
  }

  /** A call of one of the two file systems fails. */
  predicate Fails(a: Action) {
    (a.CheckCache? || a.OpenSource? || a.Create? || a.CopyChunk? || a.Reopen?) && !a.ok
  }

  ghost predicate CanStep(k: Config, s: State, c: Call) {
    exists a :: Own(a, c) && !Fails(a) && Enabled(k, s, a)
  }

  lemma StepsUnlessWaiting(k: Config, s: State, c: Call)
    requires Inv(k, s) && c < |s.calls| && !s.calls[c].Done?
    requires s.calls[c].Locking? ==> s.calls[c].mutex !in s.held
    ensures CanStep(k, s, c)
  {
    assert CallOk(k, s, s.calls[c]) && (Inside(s.calls[c]) ==> Holds(s, c));
    var a := match s.calls[c]
      case Statting(_) => Stat(c)
      case FindingLock(_) => FindLock(c)
      case Locking(_, _) => TakeLock(c)
      case Checking(_) => CheckCache(c, true)
      case Missed(_) => OpenSource(c, true)
      case Creating(_) => Create(c, true, false)
      case Copying(name, pos) => CopyChunk(c, true, if pos < |k.files[name]| then 1 else 0)
      case Copied(_) => SeekBack(c)
      case Reopening(_) => Reopen(c, true)
      case _ => Unlock(c);
    assert Own(a, c) && !Fails(a) && Enabled(k, s, a);
  }

  /** In every interleaving a call that is not done can go on, or waits for the lock of its path
      while the call that holds it can. */
  lemma NeverStuck(k: Config, s: State, actions: seq<Action>, t: State, c: Call)
    requires Init(s) && Run(Next(k), s, actions, t) && c < |t.calls| && !t.calls[c].Done?
    ensures CanStep(k, t, c) ||
            (t.calls[c].Locking? && t.calls[c].mutex in t.held && CanStep(k, t, t.held[t.calls[c].mutex]))
  {
    RunInv(k, s, actions, t);
    SomebodySteps(k, t, c);
  }

  lemma SomebodySteps(k: Config, s: State, c: Call)
    requires Inv(k, s) && c < |s.calls| && !s.calls[c].Done?
    ensures CanStep(k, s, c) ||
            (s.calls[c].Locking? && s.calls[c].mutex in s.held && CanStep(k, s, s.held[s.calls[c].mutex]))
  {
    if s.calls[c].Locking? && s.calls[c].mutex in s.held {
      var d := s.held[s.calls[c].mutex];
      assert Holder(s, s.calls[c].mutex, d);
      StepsUnlessWaiting(k, s, d);
    } else {
      StepsUnlessWaiting(k, s, c);
    }
  }

  function Size(k: Config, name: string): nat {
    if name in k.files then |k.files[name]| else 0
  }

  /** How many steps a call has before it at most. */
  function StepsLeft(k: Config, pc: Pc): nat {
    match pc
    case Statting(name) => Size(k, name) + 12
    case FindingLock(name) => Size(k, name) + 11
    case Locking(name, _) => Size(k, name) + 10
    case Checking(name) => Size(k, name) + 9
    case Missed(name) => Size(k, name) + 8
    case Creating(name) => Size(k, name) + 7
    case Copying(name, pos) => if pos < Size(k, name) then Size(k, name) - pos + 6 else 6
    case Copied(_) => 4
    case Reopening(_) => 3
    case Leaving(_, _) => 2
    case Done(_, _) => 0
  }

  /** The call has fewer steps left, and every other call is where it was. */
  ghost predicate OneFewer(k: Config, s: State, t: State, c: Call)
    requires c < |s.calls|
  {
    && |t.calls| == |s.calls| && t.calls == s.calls[c := t.calls[c]]
    && t.calls[c].name == s.calls[c].name && StepsLeft(k, t.calls[c]) < StepsLeft(k, s.calls[c])
  }

  lemma OwnStep(k: Config, s: State, a: Action)
    requires Enabled(k, s, a) && !a.Begin?
    ensures OneFewer(k, s, Step(k, s, a), a.c)
  {
    if a.Create? || a.CopyChunk? { CopyStep(k, s, a); }
    else if IsRead(a) { ReadStep(k, s, a); }
    else { LockStep(k, s, a); }
  }

  lemma CopyStep(k: Config, s: State, a: Action)
    requires Enabled(k, s, a) && (a.Create? || a.CopyChunk?)
    ensures OneFewer(k, s, Step(k, s, a), a.c)
  {
  }

  lemma ReadStep(k: Config, s: State, a: Action)
    requires Enabled(k, s, a) && IsRead(a)
    ensures OneFewer(k, s, Step(k, s, a), a.c)
  {
  }

  lemma LockStep(k: Config, s: State, a: Action)
    requires Enabled(k, s, a) && (a.Stat? || a.FindLock? || a.TakeLock? || a.Unlock?)
    ensures OneFewer(k, s, Step(k, s, a), a.c)
  {
  }

  function OwnSteps(actions: seq<Action>, c: Call): nat {
    if actions == [] then 0 else (if Own(actions[0], c) then 1 else 0) + OwnSteps(actions[1..], c)
  }

  lemma {:induction false} StepsInRun(k: Config, s: State, actions: seq<Action>, t: State, c: Call)
    requires Run(Next(k), s, actions, t)
    ensures |s.calls| <= |t.calls|
    ensures c < |t.calls| ==>
              OwnSteps(actions, c) + StepsLeft(k, t.calls[c]) <=
              if c < |s.calls| then StepsLeft(k, s.calls[c]) else Size(k, t.calls[c].name) + 12
    ensures c < |s.calls| ==> t.calls[c].name == s.calls[c].name
    decreases |actions|
  {
    if actions != [] {
      if !actions[0].Begin? { OwnStep(k, s, actions[0]); }
      StepsInRun(k, Step(k, s, actions[0]), actions[1..], t, c);
    }
  }

  /** However a run is interleaved, each call takes at most twelve steps and one for each byte. */
  lemma StepsBounded(k: Config, s: State, actions: seq<Action>, t: State, c: Call)
    requires Init(s) && Run(Next(k), s, actions, t) && c < |t.calls|
    ensures OwnSteps(actions, c) <= Size(k, t.calls[c].name) + 12
  {
    StepsInRun(k, s, actions, t, c);
  }

  function AllSteps(k: Config, calls: seq<Pc>): nat {
    if calls == [] then 0 else StepsLeft(k, calls[0]) + AllSteps(k, calls[1..])
  }

  lemma {:induction false} AllStepsUpdate(k: Config, calls: seq<Pc>, c: Call, pc: Pc)
    requires c < |calls|
    ensures AllSteps(k, calls[c := pc]) == AllSteps(k, calls) - StepsLeft(k, calls[c]) + StepsLeft(k, pc)
    decreases |calls|
  {
    if c > 0 {
      AllStepsUpdate(k, calls[1..], c - 1, pc);
      assert calls[c := pc][1..] == calls[1..][c - 1 := pc];
    } else {
      assert calls[c := pc][1..] == calls[1..];
    }
  }

  ghost predicate AllDone(s: State) {
    forall c | 0 <= c < |s.calls| :: s.calls[c].Done?
  }

  /** Runs in which nothing fails. */
  function Unfailing(k: Config): (State, Action) -> Option<State> {
    (s, a) => if !Fails(a) && Enabled(k, s, a) then Some(Step(k, s, a)) else None
  }

  /** From every reachable state the calls, left to themselves, can all end, with nothing failing. */
  lemma CallsEnd(k: Config, s: State, actions: seq<Action>, t: State)
    requires Init(s) && Run(Next(k), s, actions, t)
    ensures exists u :: Goes(Unfailing(k), t, u) && AllDone(u) && |u.calls| == |t.calls|
  {
    RunInv(k, s, actions, t);
    assert Run(Unfailing(k), t, [], t);
    EndsFrom(k, t, t);
  }

  lemma {:induction false} EndsFrom(k: Config, t: State, v: State)
    requires Inv(k, v) && Goes(Unfailing(k), t, v)
    ensures exists u :: Goes(Unfailing(k), t, u) && AllDone(u) && |u.calls| == |v.calls|
    decreases AllSteps(k, v.calls)
  {
    if !AllDone(v) {
      var c: Call :| c < |v.calls| && !v.calls[c].Done?;
      SomebodySteps(k, v, c);
      var a: Action :| !a.Begin? && !Fails(a) && Enabled(k, v, a);
      Then(Unfailing(k), t, v, a);
      InvStep(k, v, a);
      OwnStep(k, v, a);
      AllStepsUpdate(k, v.calls, a.c, Step(k, v, a).calls[a.c]);
      EndsFrom(k, t, Step(k, v, a));
    }
  }

  // ---------- what an Open returns ----------

  /** The call has failed. */
  predicate InError(pc: Pc) {
    (pc.Leaving? || pc.Done?) && pc.result.Error?
  }

  /** Something has failed under this call. */
  predicate HadFailure(actions: seq<Action>, c: Call) {
    actions != [] && ((Own(actions[0], c) && Fails(actions[0])) || HadFailure(actions[1..], c))
  }

  /** A directory is answered at once, and so is a name that the source does not have. */
  ghost predicate KindOk(k: Config, pc: Pc) {
    && (pc.name in k.dirs ==> pc.Statting? || pc == Done(pc.name, Directory))
    && (pc.name !in k.dirs && pc.name !in k.files ==> pc.Statting? || pc == Done(pc.name, Error))
    && (pc.name !in k.dirs && (pc.Leaving? || pc.Done?) ==> !pc.result.Directory?)
  }

  ghost predicate KindsOk(k: Config, s: State) {
    forall c | 0 <= c < |s.calls| :: KindOk(k, s.calls[c])
  }

  lemma KindsStep(k: Config, s: State, a: Action)
    requires KindsOk(k, s) && Enabled(k, s, a)
    ensures KindsOk(k, Step(k, s, a))
  {
    if !a.Begin? {
      OwnStep(k, s, a);
      assert KindOk(k, s.calls[a.c]);
      KindStep(k, s, a);
    }
  }

  lemma KindStep(k: Config, s: State, a: Action)
    requires Enabled(k, s, a) && !a.Begin? && KindOk(k, s.calls[a.c])
    ensures a.c < |Step(k, s, a).calls| && KindOk(k, Step(k, s, a).calls[a.c])
  {
    if IsRead(a) || a.Create? || a.CopyChunk? { FileStep(k, s, a); }
  }

  lemma FileStep(k: Config, s: State, a: Action)
    requires Enabled(k, s, a) && (IsRead(a) || a.Create? || a.CopyChunk?)
    ensures a.c < |Step(k, s, a).calls|
    ensures var pc := Step(k, s, a).calls[a.c];
            pc.name == s.calls[a.c].name && !pc.Statting? && !pc.Done? && (pc.Leaving? ==> !pc.result.Directory?)
  {
  }

  lemma RunKinds(k: Config, s: State, actions: seq<Action>, t: State)
    requires KindsOk(k, s) && Run(Next(k), s, actions, t)
    ensures KindsOk(k, t)
  {
    forall u, a | KindsOk(k, u) && Next(k)(u, a).Some? ensures KindsOk(k, Next(k)(u, a).value) {
      KindsStep(k, u, a);
    }
    RunKeeps(Next(k), u => KindsOk(k, u), s, actions, t);
  }

  /** A call on a file comes to be in error exactly when something fails under it. */
  lemma ErrorStep(k: Config, s: State, a: Action, c: Call)
    requires Inv(k, s) && Enabled(k, s, a) && c < |s.calls|
    requires s.calls[c].name in k.files && s.calls[c].name !in k.dirs
    ensures c < |Step(k, s, a).calls|
    ensures InError(Step(k, s, a).calls[c]) <==> InError(s.calls[c]) || (Own(a, c) && Fails(a))
  {
    assert CallOk(k, s, s.calls[c]);
    if !a.Begin? { OwnStep(k, s, a); }
    if Own(a, c) { OwnErrorStep(k, s, a); }
  }

  lemma OwnErrorStep(k: Config, s: State, a: Action)
    requires Enabled(k, s, a) && !a.Begin? && s.calls[a.c].name in k.files && s.calls[a.c].name !in k.dirs
    requires s.calls[a.c].Reopening? ==> s.calls[a.c].name in s.cache
    ensures a.c < |Step(k, s, a).calls|
    ensures InError(Step(k, s, a).calls[a.c]) <==> InError(s.calls[a.c]) || Fails(a)
  {
    if a.Create? || a.CopyChunk? { CopyErrorStep(k, s, a); }
    else if IsRead(a) { ReadErrorStep(k, s, a); }
    else { LockErrorStep(k, s, a); }
  }

  predicate IsRead(a: Action) {
    a.CheckCache? || a.OpenSource? || a.SeekBack? || a.Reopen?
  }

  lemma CopyErrorStep(k: Config, s: State, a: Action)
    requires Enabled(k, s, a) && (a.Create? || a.CopyChunk?)
    ensures a.c < |Step(k, s, a).calls| && (InError(Step(k, s, a).calls[a.c]) <==> Fails(a))
  {
  }

  lemma ReadErrorStep(k: Config, s: State, a: Action)
    requires Enabled(k, s, a) && IsRead(a) && (s.calls[a.c].Reopening? ==> s.calls[a.c].name in s.cache)
    ensures a.c < |Step(k, s, a).calls| && (InError(Step(k, s, a).calls[a.c]) <==> Fails(a))
  {
  }

  lemma LockErrorStep(k: Config, s: State, a: Action)
    requires Enabled(k, s, a) && (a.Stat? || a.FindLock? || a.TakeLock? || a.Unlock?)
    requires s.calls[a.c].name in k.files && s.calls[a.c].name !in k.dirs
    ensures a.c < |Step(k, s, a).calls| && (InError(Step(k, s, a).calls[a.c]) <==> InError(s.calls[a.c]))
  {
  }

  lemma {:induction false} ErrorsInRun(k: Config, s: State, actions: seq<Action>, t: State, c: Call)
    requires Inv(k, s) && Run(Next(k), s, actions, t) && c < |t.calls|
    requires t.calls[c].name in k.files && t.calls[c].name !in k.dirs
    ensures InError(t.calls[c]) <==> (c < |s.calls| && InError(s.calls[c])) || HadFailure(actions, c)
    decreases |actions|
  {
    if actions != [] {
      var u := Step(k, s, actions[0]);
      InvStep(k, s, actions[0]);
      StepsInRun(k, s, actions, t, c);
      if c < |s.calls| { ErrorStep(k, s, actions[0], c); } else if !actions[0].Begin? { OwnStep(k, s, actions[0]); }
      ErrorsInRun(k, u, actions[1..], t, c);
    }
  }

  /** In every interleaving, an Open that is done has given the directory for a directory, an error for
      a name that the source does not have, and for a file an error exactly when one of its own
      calls failed, contents otherwise.  A retained file is then in the cache, unless it failed. */
  lemma OpenOutcome(k: Config, s: State, actions: seq<Action>, t: State, c: Call)
    requires Init(s) && Run(Next(k), s, actions, t) && c < |t.calls| && t.calls[c].Done?
    ensures t.calls[c].name in k.dirs <==> t.calls[c].result.Directory?
    ensures t.calls[c].name !in k.dirs && t.calls[c].name !in k.files ==> t.calls[c].result.Error?
    ensures t.calls[c].name !in k.dirs && t.calls[c].name in k.files ==>
              if HadFailure(actions, c) then t.calls[c].result.Error? else t.calls[c].result.Contents?
    ensures t.calls[c].result.Contents? && t.calls[c].name in k.retained ==> t.calls[c].name in t.cache
  {
    RunInv(k, s, actions, t);
    RunKinds(k, s, actions, t);
    assert KindOk(k, t.calls[c]) && CallOk(k, t, t.calls[c]);
    if t.calls[c].name !in k.dirs && t.calls[c].name in k.files { ErrorsInRun(k, s, actions, t, c); }
  }

  // ---------- a copy that failed ----------

  /** One call moves on: what the state is then, with its lists spelled out. */
  lemma Only(pc: Pc, next: Pc)
    ensures [pc][0 := next] == [next] && [] + [pc] == [pc]
  {
  }

  lemma Second(first: Pc, pc: Pc, next: Pc)
    ensures [first, pc][1 := next] == [first, next] && [first] + [pc] == [first, pc]
  {
  }

  /** A file of two bytes, to be retained... */
  const TWO_BYTES := Config(map["a" := [1, 2]], {}, {"a"}, {})

  function Start(calls: seq<Pc>): State {
    State(map[], map[], {}, map[], 0, map[], calls)
  }

  function Locked(calls: seq<Pc>): State {
    State(map[], map[], {}, map["a" := 0], 1, map[0 := 0], calls)
  }

  lemma FirstLocks(s: State)
    requires Init(s)
    ensures Goes(Next(TWO_BYTES), s, Locked([Checking("a")]))
  {
    assert Run(Next(TWO_BYTES), s, [], s);
    Then(Next(TWO_BYTES), s, Start([]), Begin("a"));
    Only(Statting("a"), FindingLock("a"));
    Then(Next(TWO_BYTES), s, Start([Statting("a")]), Stat(0));
    Then(Next(TWO_BYTES), s, Start([FindingLock("a")]), FindLock(0));
    Only(FindingLock("a"), Locking("a", 0));
    var t := State(map[], map[], {}, map["a" := 0], 1, map[], [Locking("a", 0)]);
    assert Start([]).locks["a" := 0] == map["a" := 0];
    Then(Next(TWO_BYTES), s, t, TakeLock(0));
    Only(Locking("a", 0), Checking("a"));
    assert t.held[0 := 0] == map[0 := 0];
  }

  /** ...whose copy fails after one... */
  function Partial(broken: set<string>, held: map<MutexId, Call>, calls: seq<Pc>): State {
    State(map["a" := [1]], map["a" := 1], broken, map["a" := 0], 1, held, calls)
  }

  lemma FirstCreates(s: State)
    requires Goes(Next(TWO_BYTES), s, Locked([Checking("a")]))
    ensures Goes(Next(TWO_BYTES), s, Locked([Copying("a", 0)]).(cache := map["a" := []], copies := map["a" := 1]))
  {
    Then(Next(TWO_BYTES), s, Locked([Checking("a")]), CheckCache(0, true));
    Only(Checking("a"), Missed("a"));
    Then(Next(TWO_BYTES), s, Locked([Missed("a")]), OpenSource(0, true));
    Only(Missed("a"), Creating("a"));
    Then(Next(TWO_BYTES), s, Locked([Creating("a")]), Create(0, true, false));
    Only(Creating("a"), Copying("a", 0));
    assert Locked([]).cache["a" := []] == map["a" := []] && Locked([]).copies["a" := 1] == map["a" := 1];
  }

  lemma FirstFails(s: State)
    requires Goes(Next(TWO_BYTES), s, Locked([Copying("a", 0)]).(cache := map["a" := []], copies := map["a" := 1]))
    ensures Goes(Next(TWO_BYTES), s, Partial({"a"}, map[], [Done("a", Error)]))
  {
    var t := Locked([Copying("a", 0)]).(cache := map["a" := []], copies := map["a" := 1]);
    Then(Next(TWO_BYTES), s, t, CopyChunk(0, false, 1));
    assert t.cache["a"] + TWO_BYTES.files["a"][0..1] == [1];
    assert t.cache["a" := [1]] == map["a" := [1]] && {} + {"a"} == {"a"};
    Only(Copying("a", 0), Leaving("a", Error));
    Then(Next(TWO_BYTES), s, Partial({"a"}, map[0 := 0], [Leaving("a", Error)]), Unlock(0));
    assert map[0 := 0] - {0} == map[];
    Only(Leaving("a", Error), Done("a", Error));
  }

  lemma SecondOpens(s: State)
    requires Goes(Next(TWO_BYTES), s, Partial({"a"}, map[], [Done("a", Error)]))
    ensures Goes(Next(TWO_BYTES), s, Partial({"a"}, map[0 := 1], [Done("a", Error), Checking("a")]))
  {
    var d := Done("a", Error);
    Then(Next(TWO_BYTES), s, Partial({"a"}, map[], [d]), Begin("a"));
    Second(d, Statting("a"), FindingLock("a"));
    Then(Next(TWO_BYTES), s, Partial({"a"}, map[], [d, Statting("a")]), Stat(1));
    Then(Next(TWO_BYTES), s, Partial({"a"}, map[], [d, FindingLock("a")]), FindLock(1));
    Second(d, FindingLock("a"), Locking("a", 0));
    Then(Next(TWO_BYTES), s, Partial({"a"}, map[], [d, Locking("a", 0)]), TakeLock(1));
    Second(d, Locking("a", 0), Checking("a"));
    assert Partial({"a"}, map[], []).held[0 := 1] == map[0 := 1];
  }

  /** ...leaves that byte in the cache, and the next Open returns it for the whole file. */
  lemma PartialServed(s: State)
    requires Init(s)
    ensures exists actions, t ::
              Run(Next(TWO_BYTES), s, actions, t) && t.calls == [Done("a", Error), Done("a", Contents([1]))]
  {
    FirstLocks(s);
    FirstCreates(s);
    FirstFails(s);
    SecondOpens(s);
    var d, r := Done("a", Error), Contents([1]);
    Then(Next(TWO_BYTES), s, Partial({"a"}, map[0 := 1], [d, Checking("a")]), CheckCache(1, true));
    Second(d, Checking("a"), Leaving("a", r));
    Then(Next(TWO_BYTES), s, Partial({"a"}, map[0 := 1], [d, Leaving("a", r)]), Unlock(1));
    Second(d, Leaving("a", r), Done("a", r));
    var t := Step(TWO_BYTES, Partial({"a"}, map[0 := 1], [d, Leaving("a", r)]), Unlock(1));
    var actions :| Run(Next(TWO_BYTES), s, actions, t);
    assert t.calls == [d, Done("a", r)];
  }
}
