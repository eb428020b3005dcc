/** The streaming tar reader as a step relation: the reading goroutine, a background goroutine
    for each small file and directory, the pooled buffers they carry, the one-slot error
    channel, the wait group, and any number of concurrent Open calls. */
module TarReader {
  import opened ByteType
  import opened Runs
  import opened Wrappers

  type Buffer = nat

  datatype Entry = DirEntry(name: string) | FileEntry(name: string, content: seq<byte>)

  /** The archive (with resolved names) and the small buffer pool's dimensions. */
  datatype Config = Config(entries: seq<Entry>, bufSize: nat, maxBuffers: nat)

  /** How far an entry has got.  `bg` tells a background goroutine from the reader itself. */
  datatype Job =
    | Untouched
    | Opening(bg: bool, buf: Buffer)             // writeFile: about to open the destination
    | Writing(bg: bool, buf: Buffer)             // about to write the first buffer
    | Copying(buf: Buffer, done: nat)            // large file: copying the rest
    | Closing(bg: bool, buf: Buffer, ok: bool)   // deferred: close, and emit if all went well
    | Releasing(bg: bool, buf: Buffer, ok: bool) // about to give the buffer back
    | MakingDir
    | Reporting(ok: bool)                        // about to send its error, if any
    | Leaving(ok: bool)                          // about to call wg.Done
    | Ended(ok: bool)

  datatype Main =
    | Selecting                        // top of the loop: look for a background error
    | AtNext                           // about to read the next header
    | Preparing(i: nat)                // context check, parent directories
    | Buffering(i: nat)                // waiting for a small buffer
    | Reading(i: nat, buf: Buffer)
    | Foreground(i: nat)               // inside writeFile for a large file
    | Finishing                        // final select: an error, or all goroutines done
    | Returned(failed: bool)           // readErr has returned
    | Stored(failed: bool)             // the error, if any, is stored
    | Finished(failed: bool)           // the context is cancelled

  datatype Opener =
    | Waiting(name: string)                                // in pubsub.Wait
    | Checking(name: string)                               // Wait returned
    | Rejected(name: string)                               // saw the stored error
    | Passing(name: string)                                // saw none
    | Got(name: string, contents: Option<seq<byte>>)       // what the destination held; None: no such file

  datatype State = State(
    main: Main,
    next: nat,
    jobs: seq<Job>,
    wg: nat,
    errs: bool,                        // an error sits in the channel
    unarchiveErr: bool,
    ctxDone: bool,
    external: bool,                    // somebody else cancelled the context
    visited: set<string>,
    files: map<string, seq<byte>>,     // the destination file system's files
    mem: map<Buffer, seq<byte>>,       // what each buffer holds
    free: set<Buffer>,
    made: nat,
    openers: seq<Opener>
  )

  /** An action names its actor and how the outside world answered it. */
  datatype Action =
    | MainSelect
    | MainNext(ok: bool)
    | MainPrepare(ok: bool)
    | MainTakeBuffer(b: Buffer)
    | MainRead(ok: bool)
    | MainFinish(takeErr: bool)
    | MainStore
    | MainCancel
    | JobOpen(i: nat, ok: bool)
    | JobWrite(i: nat, ok: bool, n: nat)
    | JobCopy(i: nat, ok: bool, n: nat)
    | JobClose(i: nat)
    | JobRelease(i: nat)
    | JobMakeDir(i: nat, ok: bool)
    | JobReport(i: nat)
    | JobLeave(i: nat)
    | CancelFromOutside
    | OpenCall(name: string)
    | OpenWake(o: nat)
    | OpenCheck(o: nat)
    | OpenGet(o: nat)

  predicate Init(c: Config, s: State) {
    && s.main.Selecting? && s.next == 0 && s.wg == 0 && s.made == 0
    && |s.jobs| == |c.entries| && (forall i | 0 <= i < |s.jobs| :: s.jobs[i].Untouched?)
    && !s.errs && !s.unarchiveErr && !s.ctxDone && !s.external
    && s.visited == {} && s.files == map[] && s.free == {} && s.openers == []
  }

  function First(c: Config, e: Entry): seq<byte>
    requires e.FileEntry?
  {
    if |e.content| < c.bufSize then e.content else e.content[..c.bufSize]
  }

  predicate Enabled(c: Config, s: State, a: Action) {
    |s.jobs| == |c.entries| &&
    match a
    case MainSelect => s.main.Selecting?
    case MainNext(_) => s.main.AtNext?
    case MainPrepare(_) => s.main.Preparing? && s.main.i < |s.jobs|
    case MainTakeBuffer(b) => s.main.Buffering? && (b in s.free || (b == s.made && s.made < c.maxBuffers))
    case MainRead(_) => s.main.Reading? && s.main.i < |s.jobs| && c.entries[s.main.i].FileEntry?
    case MainFinish(takeErr) => s.main.Finishing? && if takeErr then s.errs else s.wg == 0
    case MainStore => s.main.Returned?
    case MainCancel => s.main.Stored?
    case JobOpen(i, _) => i < |s.jobs| && s.jobs[i].Opening?
    case JobWrite(i, _, n) =>
      i < |s.jobs| && s.jobs[i].Writing? && s.jobs[i].buf in s.mem && n <= |s.mem[s.jobs[i].buf]|
    case JobCopy(i, ok, n) =>
      i < |s.jobs| && s.jobs[i].Copying? && c.entries[i].FileEntry? &&
      var rest := |c.entries[i].content| - s.jobs[i].done; if ok && rest > 0 then 0 < n <= rest else n == 0
    case JobClose(i) => i < |s.jobs| && s.jobs[i].Closing?
    case JobRelease(i) => i < |s.jobs| && s.jobs[i].Releasing?
    case JobMakeDir(i, _) => i < |s.jobs| && s.jobs[i].MakingDir?
    case JobReport(i) => i < |s.jobs| && s.jobs[i].Reporting? && (s.jobs[i].ok || !s.errs)
    case JobLeave(i) => i < |s.jobs| && s.jobs[i].Leaving? && 0 < s.wg
    case CancelFromOutside => true
    case OpenCall(_) => true
    case OpenWake(o) => o < |s.openers| && s.openers[o].Waiting? && (s.openers[o].name in s.visited || s.ctxDone)
    case OpenCheck(o) => o < |s.openers| && s.openers[o].Checking?
    case OpenGet(o) => o < |s.openers| && s.openers[o].Passing?
  }

  function WithJob(s: State, i: nat, j: Job): State
    requires i < |s.jobs|
  {
    s.(jobs := s.jobs[i := j])
  }

  function WithOpener(s: State, o: nat, p: Opener): State
    requires o < |s.openers|
  {
    s.(openers := s.openers[o := p])
  }

  // ---------- the reader's steps ----------

  function Selected(s: State): State {
    if s.errs then s.(errs := false, main := Returned(true)) else s.(main := AtNext)
  }

  function NextHeader(c: Config, s: State, ok: bool): State {
    if !ok then s.(main := Returned(true))
    else if s.next < |c.entries| then s.(main := Preparing(s.next), next := s.next + 1)
    else s.(main := Finishing)
  }

  /** A directory is made by a goroutine of its own; a file needs a buffer first. */
  function Prepared(c: Config, s: State, ok: bool): State
    requires s.main.Preparing? && s.main.i < |s.jobs| == |c.entries|
  {
    var i := s.main.i;
    if s.ctxDone || !ok then s.(main := Returned(true))
    else if c.entries[i].DirEntry? then WithJob(s, i, MakingDir).(main := Selecting, wg := s.wg + 1)
    else s.(main := Buffering(i))
  }

  function TookBuffer(s: State, b: Buffer): State
    requires s.main.Buffering?
  {
    s.(main := Reading(s.main.i, b), free := s.free - {b}, made := if b in s.free then s.made else s.made + 1)
  }

  /** A small file, now all in the buffer, is written by a goroutine; a large one right here. */
  function ReadIn(c: Config, s: State, ok: bool): State
    requires s.main.Reading? && s.main.i < |s.jobs| == |c.entries| && c.entries[s.main.i].FileEntry?
  {
    var Reading(i, b) := s.main;
    if !ok then s.(main := Returned(true)) else
      var t := s.(mem := s.mem[b := First(c, c.entries[i])]);
      if |c.entries[i].content| < c.bufSize
      then WithJob(t, i, Opening(true, b)).(main := Selecting, wg := s.wg + 1)
      else WithJob(t, i, Opening(false, b)).(main := Foreground(i))
  }

  /** The final select: either case that is ready may be taken. */
  function ReadEnded(s: State, takeErr: bool): State {
    if takeErr then s.(errs := false, main := Returned(true)) else s.(main := Returned(false))
  }

  // ---------- a job's steps ----------

  function Opened(c: Config, s: State, i: nat, ok: bool): State
    requires i < |s.jobs| == |c.entries| && s.jobs[i].Opening?
  {
    var Opening(bg, b) := s.jobs[i];
    if ok then WithJob(s, i, Writing(bg, b)).(files := s.files[c.entries[i].name := []])
    else WithJob(s, i, Releasing(bg, b, false))
  }

  /** The buffer's bytes are written, or some of them when the write fails. */
  function Wrote(c: Config, s: State, i: nat, ok: bool, n: nat): State
    requires i < |s.jobs| == |c.entries| && s.jobs[i].Writing? && s.jobs[i].buf in s.mem && n <= |s.mem[s.jobs[i].buf]|
  {
    var Writing(bg, b) := s.jobs[i];
    var data := if ok then s.mem[b] else s.mem[b][..n];
    var j := if ok && !bg then Copying(b, |data|) else Closing(bg, b, ok);
    WithJob(s, i, j).(files := s.files[c.entries[i].name := data])
  }

  /** The rest of a large file, chunk by chunk, until there is none left. */
  function CopiedOn(c: Config, s: State, i: nat, ok: bool, n: nat): State
    requires i < |s.jobs| == |c.entries| && s.jobs[i].Copying? && c.entries[i].FileEntry?
    requires ok && n != 0 ==> s.jobs[i].done + n <= |c.entries[i].content|
  {
    var Copying(b, done) := s.jobs[i];
    if !ok then WithJob(s, i, Closing(false, b, false))
    else if n == 0 then WithJob(s, i, Closing(false, b, true))
    else WithJob(s, i, Copying(b, done + n)).(files := s.files[c.entries[i].name := c.entries[i].content[..done + n]])
  }

  function Closed(c: Config, s: State, i: nat): State
    requires i < |s.jobs| == |c.entries| && s.jobs[i].Closing?
  {
    var Closing(bg, b, ok) := s.jobs[i];
    WithJob(s, i, Releasing(bg, b, ok)).(visited := if ok then s.visited + {c.entries[i].name} else s.visited)
  }

  /** The buffer goes back; a large file ends with it, and the reader moves on or fails. */
  function Released(s: State, i: nat): State
    requires i < |s.jobs| && s.jobs[i].Releasing?
  {
    var Releasing(bg, b, ok) := s.jobs[i];
    var t := s.(free := s.free + {b});
    if bg then WithJob(t, i, Reporting(ok))
    else WithJob(t, i, Ended(ok)).(main := if ok then Selecting else Returned(true))
  }

  function Reported(s: State, i: nat): State
    requires i < |s.jobs| && s.jobs[i].Reporting?
  {
    WithJob(s, i, Leaving(s.jobs[i].ok)).(errs := s.errs || !s.jobs[i].ok)
  }

  function Left(s: State, i: nat): State
    requires i < |s.jobs| && s.jobs[i].Leaving? && 0 < s.wg
  {
    WithJob(s, i, Ended(s.jobs[i].ok)).(wg := s.wg - 1)
  }

  function Step(c: Config, s: State, a: Action): State
    requires Enabled(c, s, a)
  {
    match a
    case MainSelect => Selected(s)
    case MainNext(ok) => NextHeader(c, s, ok)
    case MainPrepare(ok) => Prepared(c, s, ok)
    case MainTakeBuffer(b) => TookBuffer(s, b)
    case MainRead(ok) => ReadIn(c, s, ok)
    case MainFinish(takeErr) => ReadEnded(s, takeErr)
    case MainStore => s.(unarchiveErr := s.main.failed, main := Stored(s.main.failed))
    case MainCancel => s.(ctxDone := true, main := Finished(s.main.failed))
    case JobOpen(i, ok) => Opened(c, s, i, ok)
    case JobWrite(i, ok, n) => Wrote(c, s, i, ok, n)
    case JobCopy(i, ok, n) => CopiedOn(c, s, i, ok, n)
    case JobClose(i) => Closed(c, s, i)
    case JobRelease(i) => Released(s, i)
    case JobMakeDir(i, ok) => WithJob(s, i, Reporting(ok))
    case JobReport(i) => Reported(s, i)
    case JobLeave(i) => Left(s, i)
    case CancelFromOutside => s.(ctxDone := true, external := true)
    case OpenCall(name) => s.(openers := s.openers + [Waiting(name)])
    case OpenWake(o) => WithOpener(s, o, Checking(s.openers[o].name))
    case OpenCheck(o) =>
      WithOpener(s, o, if s.unarchiveErr then Rejected(s.openers[o].name) else Passing(s.openers[o].name))
    case OpenGet(o) => WithOpener(s, o, Found(s, s.openers[o].name))
  }

  /** What opening the name in the destination gives. */
  function Found(s: State, name: string): Opener {
    Got(name, if name in s.files then Some(s.files[name]) else None)
  }

  function Next(c: Config): (State, Action) -> Option<State> {
    (s, a) => if Enabled(c, s, a) then Some(Step(c, s, a)) else None
  }

  // ---------- what jobs are doing ----------

  predicate HasBuffer(j: Job) {
    j.Opening? || j.Writing? || j.Copying? || j.Closing? || j.Releasing?
  }

  /** The job runs inside the reading goroutine. */
  predicate InForeground(j: Job) {
    j.Copying? || ((j.Opening? || j.Writing? || j.Closing? || j.Releasing?) && !j.bg)
  }

  /** The job is a goroutine the wait group counts. */
  predicate Counted(j: Job) {
    ((j.Opening? || j.Writing? || j.Closing? || j.Releasing?) && j.bg) || j.MakingDir? || j.Reporting? || j.Leaving?
  }

  function CountedJobs(jobs: seq<Job>): nat {
    if jobs == [] then 0 else CountedJobs(jobs[..|jobs| - 1]) + if Counted(jobs[|jobs| - 1]) then 1 else 0
  }

  lemma {:induction false} CountedUpdate(jobs: seq<Job>, i: nat, j: Job)
    requires i < |jobs|
    ensures CountedJobs(jobs[i := j]) ==
            CountedJobs(jobs) - (if Counted(jobs[i]) then 1 else 0) + if Counted(j) then 1 else 0
    ensures Counted(jobs[i]) ==> 0 < CountedJobs(jobs)
    decreases |jobs|
  {
    var n := |jobs| - 1;
    if i < n {
      CountedUpdate(jobs[..n], i, j);
      assert jobs[i := j][..n] == jobs[..n][i := j];
    } else {
      assert jobs[i := j][..n] == jobs[..n];
    }
  }

  lemma {:induction false} NoneCounted(jobs: seq<Job>)
    requires forall i | 0 <= i < |jobs| :: !Counted(jobs[i])
    ensures CountedJobs(jobs) == 0
  {
    if jobs != [] { NoneCounted(jobs[..|jobs| - 1]); }
  }

  /** The entry's own write has succeeded. */
  predicate Written(j: Job) {
    (j.Closing? || j.Releasing? || j.Reporting? || j.Leaving? || j.Ended?) && j.ok
  }

  predicate Failed(j: Job) {
    (j.Leaving? || j.Ended?) && !j.ok
  }

  ghost predicate SomeFailed(jobs: seq<Job>) {
    exists i :: 0 <= i < |jobs| && Failed(jobs[i])
  }

  // ---------- the invariant, in six parts ----------

  ghost predicate DistinctNames(c: Config) {
    forall i, j | 0 <= i < j < |c.entries| :: c.entries[i].name != c.entries[j].name
  }

  /** The reader's position and the jobs agree, and the wait group counts the goroutines. */
  ghost predicate MainInv(c: Config, s: State) {
    && |s.jobs| == |c.entries| && s.next <= |s.jobs|
    && (forall i | s.next <= i < |s.jobs| :: s.jobs[i].Untouched?)
    && (forall i | 0 <= i < |s.jobs| && InForeground(s.jobs[i]) :: s.main == Foreground(i))
    && (match s.main
        case Preparing(i) => i + 1 == s.next && s.jobs[i].Untouched? && AllBegun(s, i)
        case Buffering(i) => i + 1 == s.next && s.jobs[i].Untouched? && AllBegun(s, i) && c.entries[i].FileEntry?
        case Reading(i, _) => i + 1 == s.next && s.jobs[i].Untouched? && AllBegun(s, i) && c.entries[i].FileEntry?
        case Foreground(i) => i + 1 == s.next && InForeground(s.jobs[i]) && AllBegun(s, s.next)
        case Selecting => AllBegun(s, s.next)
        case AtNext => AllBegun(s, s.next)
        case Finishing => AllBegun(s, s.next) && s.next == |s.jobs|
        case _ => true)
    && s.wg == CountedJobs(s.jobs)
  }

  ghost predicate AllBegun(s: State, n: nat) {
    forall i | 0 <= i < n && i < |s.jobs| :: !s.jobs[i].Untouched?
  }

  predicate HasFailed(m: Main) {
    (m.Returned? || m.Stored? || m.Finished?) && m.failed
  }

  predicate HasSucceeded(m: Main) {
    (m.Returned? || m.Stored? || m.Finished?) && !m.failed
  }

  /** How the read ends: in success only when every entry has ended; a failed entry's error is
      in the channel unless the reader took one, and only such errors are; the context is cancelled
      after the error is stored. */
  ghost predicate EndInv(s: State) {
    && (HasSucceeded(s.main) ==> forall i | 0 <= i < |s.jobs| :: s.jobs[i].Ended?)
    && (forall i | 0 <= i < |s.jobs| && Failed(s.jobs[i]) :: s.errs || HasFailed(s.main))
    && (s.errs ==> SomeFailed(s.jobs))
    && (s.unarchiveErr <==> HasFailed(s.main) && !s.main.Returned?)
    && (s.ctxDone && !s.external ==> s.main.Finished?)
    && (s.main.Finished? ==> s.ctxDone)
  }

  /** A buffer is with one job, with the reader, or free; a job's buffer holds its own bytes. */
  ghost predicate BufferInv(c: Config, s: State) {
    && |s.jobs| == |c.entries|
    && (forall b | b in s.free :: b < s.made)
    && (forall i | 0 <= i < |s.jobs| && HasBuffer(s.jobs[i]) ::
          c.entries[i].FileEntry? && s.jobs[i].buf < s.made && s.jobs[i].buf !in s.free &&
          s.jobs[i].buf in s.mem && s.mem[s.jobs[i].buf] == First(c, c.entries[i]))
    && (forall i, j | 0 <= i < j < |s.jobs| && HasBuffer(s.jobs[i]) && HasBuffer(s.jobs[j]) ::
          s.jobs[i].buf != s.jobs[j].buf)
    && (s.main.Reading? ==> s.main.buf < s.made && s.main.buf !in s.free &&
                            forall i | 0 <= i < |s.jobs| && HasBuffer(s.jobs[i]) :: s.jobs[i].buf != s.main.buf)
  }

  /** What the destination holds for each file entry, by how far it has got. */
  ghost predicate FileInv(c: Config, s: State) {
    && |s.jobs| == |c.entries|
    && (forall i | 0 <= i < |s.jobs| && c.entries[i].FileEntry? :: FileProgress(c, s, i))
    && (forall name | name in s.visited :: exists i :: EmittedBy(c, s, i, name))
  }

  ghost predicate FileProgress(c: Config, s: State, i: nat)
    requires i < |s.jobs| == |c.entries| && c.entries[i].FileEntry?
  {
    var FileEntry(name, content) := c.entries[i];
    && !s.jobs[i].MakingDir?
    && (InForeground(s.jobs[i]) ==> c.bufSize <= |content|)
    && (HasBuffer(s.jobs[i]) && !InForeground(s.jobs[i]) ==> |content| < c.bufSize)
    && (s.jobs[i].Copying? ==> c.bufSize <= s.jobs[i].done <= |content| &&
                               name in s.files && s.files[name] == content[..s.jobs[i].done])
    && (Written(s.jobs[i]) ==> name in s.files && s.files[name] == content)
  }

  ghost predicate EmittedBy(c: Config, s: State, i: int, name: string) {
    && 0 <= i < |s.jobs| && i < |c.entries|
    && c.entries[i].FileEntry? && c.entries[i].name == name && Written(s.jobs[i])
  }

  /** What each Open call may have learned. */
  ghost predicate OpenInv(c: Config, s: State) {
    |s.jobs| == |c.entries| && forall o | 0 <= o < |s.openers| :: OpenerOk(c, s, s.openers[o])
  }

  /** No error was stored although the read is over, so every entry has ended. */
  ghost predicate EndedClean(s: State) {
    s.main == Finished(false)
  }

  ghost predicate OpenerOk(c: Config, s: State, p: Opener)
    requires |s.jobs| == |c.entries|
  {
    match p
    case Waiting(_) => true
    case Rejected(_) => true
    case Checking(name) => name in s.visited || s.ctxDone
    case Passing(name) => name in s.visited || s.external || EndedClean(s)
    case Got(name, contents) =>
      && (name in s.visited || s.external || EndedClean(s))
      && (!s.external ==> forall i | 0 <= i < |s.jobs| && c.entries[i].FileEntry? && c.entries[i].name == name &&
                                     Written(s.jobs[i]) :: contents == Some(c.entries[i].content))
  }

  ghost predicate Carried(s: State, b: Buffer) {
    exists i :: 0 <= i < |s.jobs| && HasBuffer(s.jobs[i]) && s.jobs[i].buf == b
  }

  /** No buffer is lost while the reader may still want one; a failed read may keep its own. */
  ghost predicate PoolInv(s: State) {
    forall b: Buffer | b < s.made :: InPool(s, b)
  }

  ghost predicate InPool(s: State, b: Buffer) {
    b in s.free || Carried(s, b) || (s.main.Reading? && s.main.buf == b) || HasFailed(s.main)
  }

  ghost predicate Inv(c: Config, s: State) {
    MainInv(c, s) && EndInv(s) && BufferInv(c, s) && PoolInv(s) && FileInv(c, s) && OpenInv(c, s)
  }

  // ---------- how an invariant survives one job's progress ----------

  /** Job i becomes j; the reader may move only if the job leaves the foreground. */
  ghost predicate JobMoves(c: Config, s: State, t: State, i: nat, j: Job) {
    && i < |s.jobs| && !s.jobs[i].Untouched? && !j.Untouched?
    && t.jobs == s.jobs[i := j] && t.next == s.next
    && t.made == s.made && t.mem == s.mem && t.openers == s.openers
    && t.external == s.external && t.ctxDone == s.ctxDone && t.unarchiveErr == s.unarchiveErr
    && t.wg == s.wg - (if Counted(s.jobs[i]) then 1 else 0) + (if Counted(j) then 1 else 0)
    && (if InForeground(j) == InForeground(s.jobs[i]) then t.main == s.main
        else j.Ended? && t.main == if j.ok then Selecting else Returned(true))
    && (InForeground(j) ==> InForeground(s.jobs[i]))
    && (HasBuffer(j) ==> HasBuffer(s.jobs[i]) && j.buf == s.jobs[i].buf)
    && t.free == (if HasBuffer(s.jobs[i]) && !HasBuffer(j) then s.free + {s.jobs[i].buf} else s.free)
    && (Failed(j) && !Failed(s.jobs[i]) ==> t.errs || HasFailed(t.main)) && (s.errs ==> t.errs)
    && (t.errs ==> s.errs || Failed(j)) && (Failed(s.jobs[i]) ==> Failed(j))
    && (Written(s.jobs[i]) ==> Written(j))
    && (s.jobs[i].Ended? ==> j == s.jobs[i])
  }

  lemma JobKeepsMain(c: Config, s: State, t: State, i: nat, j: Job)
    requires MainInv(c, s) && JobMoves(c, s, t, i, j)
    ensures MainInv(c, t)
  {
    CountedUpdate(s.jobs, i, j);
    forall k | s.next <= k < |t.jobs| ensures t.jobs[k].Untouched? {
      assert s.jobs[k].Untouched?;
    }
  }

  lemma JobKeepsEnd(c: Config, s: State, t: State, i: nat, j: Job)
    requires MainInv(c, s) && EndInv(s) && JobMoves(c, s, t, i, j)
    ensures EndInv(t)
  {
    assert InForeground(s.jobs[i]) ==> s.main == Foreground(i);
    if s.errs {
      var k :| 0 <= k < |s.jobs| && Failed(s.jobs[k]);
      assert Failed(t.jobs[k]);
    } else if t.errs {
      assert Failed(t.jobs[i]);
    }
  }

  lemma JobKeepsBuffers(c: Config, s: State, t: State, i: nat, j: Job)
    requires BufferInv(c, s) && JobMoves(c, s, t, i, j)
    ensures BufferInv(c, t)
  {
  }

  /** A job frees its buffer or keeps it. */
  lemma JobKeepsPool(c: Config, s: State, t: State, i: nat, j: Job)
    requires MainInv(c, s) && PoolInv(s) && JobMoves(c, s, t, i, j)
    ensures PoolInv(t)
  {
    forall b: Buffer | b < t.made ensures InPool(t, b) {
      assert InPool(s, b);
      if Carried(s, b) && b !in t.free {
        var k :| 0 <= k < |s.jobs| && HasBuffer(s.jobs[k]) && s.jobs[k].buf == b;
        assert HasBuffer(t.jobs[k]) && t.jobs[k].buf == b;
      }
    }
  }

  /** The destination changes at most under the job's own name. */
  lemma JobKeepsFiles(c: Config, s: State, t: State, i: nat, j: Job)
    requires DistinctNames(c) && FileInv(c, s) && JobMoves(c, s, t, i, j)
    requires forall name | name != c.entries[i].name ::
             (name in t.files <==> name in s.files) && (name in s.files ==> t.files[name] == s.files[name])
    requires c.entries[i].FileEntry? ==> FileProgress(c, t, i)
    requires t.visited == s.visited ||
             (t.visited == s.visited + {c.entries[i].name} && Written(j) && c.entries[i].FileEntry?)
    ensures FileInv(c, t)
  {
    forall k | 0 <= k < |t.jobs| && c.entries[k].FileEntry? ensures FileProgress(c, t, k) {
      assert FileProgress(c, s, k);
    }
    forall name | name in t.visited ensures exists k :: EmittedBy(c, t, k, name) {
      if name in s.visited {
        var k :| EmittedBy(c, s, k, name);
        assert EmittedBy(c, t, k, name);
      } else {
        assert EmittedBy(c, t, i, name);
      }
    }
  }

  lemma JobKeepsOpeners(c: Config, s: State, t: State, i: nat, j: Job)
    requires DistinctNames(c) && EndInv(s) && FileInv(c, s) && OpenInv(c, s) && JobMoves(c, s, t, i, j)
    requires s.visited <= t.visited
    ensures OpenInv(c, t)
  {
    assert EndedClean(s) ==> s.jobs[i].Ended?;
    if c.entries[i].name in s.visited {
      var k :| EmittedBy(c, s, k, c.entries[i].name);
      assert k == i;
    }
    assert Written(j) && !Written(s.jobs[i]) ==> c.entries[i].name !in s.visited && !EndedClean(s);
    forall o | 0 <= o < |t.openers| ensures OpenerOk(c, t, t.openers[o]) {
      assert OpenerOk(c, s, s.openers[o]);
    }
  }

  lemma JobKeepsAll(c: Config, s: State, t: State, i: nat, j: Job)
    requires DistinctNames(c) && Inv(c, s) && JobMoves(c, s, t, i, j)
    requires forall name | name != c.entries[i].name ::
             (name in t.files <==> name in s.files) && (name in s.files ==> t.files[name] == s.files[name])
    requires c.entries[i].FileEntry? ==> FileProgress(c, t, i)
    requires t.visited == s.visited ||
             (t.visited == s.visited + {c.entries[i].name} && Written(j) && c.entries[i].FileEntry?)
    ensures Inv(c, t)
  {
    JobKeepsMain(c, s, t, i, j);
    JobKeepsEnd(c, s, t, i, j);
    JobKeepsBuffers(c, s, t, i, j);
    JobKeepsPool(c, s, t, i, j);
    JobKeepsFiles(c, s, t, i, j);
    JobKeepsOpeners(c, s, t, i, j);
  }

  // ---------- the jobs' actions ----------

  lemma StepJobOpen(c: Config, s: State, a: Action)
    requires DistinctNames(c) && Inv(c, s) && Enabled(c, s, a) && a.JobOpen?
    ensures Inv(c, Step(c, s, a))
  {
    var i := a.i;
    var t := Opened(c, s, i, a.ok);
    assert FileProgress(c, s, i);
    JobKeepsAll(c, s, t, i, t.jobs[i]);
  }

  lemma StepJobWrite(c: Config, s: State, a: Action)
    requires DistinctNames(c) && Inv(c, s) && Enabled(c, s, a) && a.JobWrite?
    ensures Inv(c, Step(c, s, a))
  {
    var i := a.i;
    var t := Wrote(c, s, i, a.ok, a.n);
    assert FileProgress(c, s, i);
    JobKeepsAll(c, s, t, i, t.jobs[i]);
  }

  lemma StepJobCopy(c: Config, s: State, a: Action)
    requires DistinctNames(c) && Inv(c, s) && Enabled(c, s, a) && a.JobCopy?
    ensures Inv(c, Step(c, s, a))
  {
    var i := a.i;
    var t := CopiedOn(c, s, i, a.ok, a.n);
    assert FileProgress(c, s, i);
    var content := c.entries[i].content;
    assert content[..|content|] == content;
    JobKeepsAll(c, s, t, i, t.jobs[i]);
  }

  lemma StepJobClose(c: Config, s: State, a: Action)
    requires DistinctNames(c) && Inv(c, s) && Enabled(c, s, a) && a.JobClose?
    ensures Inv(c, Step(c, s, a))
  {
    var i := a.i;
    var t := Closed(c, s, i);
    assert FileProgress(c, s, i);
    JobKeepsAll(c, s, t, i, t.jobs[i]);
  }

  lemma StepJobRelease(c: Config, s: State, a: Action)
    requires DistinctNames(c) && Inv(c, s) && Enabled(c, s, a) && a.JobRelease?
    ensures Inv(c, Step(c, s, a))
  {
    var i := a.i;
    var t := Released(s, i);
    ReleaseMoves(c, s, i);
    JobKeepsAll(c, s, t, i, t.jobs[i]);
    assert Step(c, s, a) == t;
  }

  lemma ReleaseMoves(c: Config, s: State, i: nat)
    requires MainInv(c, s) && BufferInv(c, s) && FileInv(c, s) && i < |s.jobs| && s.jobs[i].Releasing?
    ensures var t := Released(s, i);
            && JobMoves(c, s, t, i, t.jobs[i]) && t.files == s.files && t.visited == s.visited
            && c.entries[i].FileEntry? && FileProgress(c, t, i)
  {
    assert FileProgress(c, s, i);
  }

  lemma StepJobMakeDir(c: Config, s: State, a: Action)
    requires DistinctNames(c) && Inv(c, s) && Enabled(c, s, a) && a.JobMakeDir?
    ensures Inv(c, Step(c, s, a))
  {
    var i := a.i;
    var t := Step(c, s, a);
    assert c.entries[i].FileEntry? ==> FileProgress(c, s, i);
    JobKeepsAll(c, s, t, i, t.jobs[i]);
  }

  lemma StepJobReport(c: Config, s: State, a: Action)
    requires DistinctNames(c) && Inv(c, s) && Enabled(c, s, a) && a.JobReport?
    ensures Inv(c, Step(c, s, a))
  {
    var i := a.i;
    var t := Reported(s, i);
    if c.entries[i].FileEntry? { assert FileProgress(c, s, i); }
    JobKeepsAll(c, s, t, i, t.jobs[i]);
  }

  lemma StepJobLeave(c: Config, s: State, a: Action)
    requires DistinctNames(c) && Inv(c, s) && Enabled(c, s, a) && a.JobLeave?
    ensures Inv(c, Step(c, s, a))
  {
    var i := a.i;
    var t := Left(s, i);
    if c.entries[i].FileEntry? { assert FileProgress(c, s, i); }
    JobKeepsAll(c, s, t, i, t.jobs[i]);
  }

  // ---------- the reader's actions ----------

  /** The reader moves on without touching any job. */
  ghost predicate ReaderMoves(c: Config, s: State, t: State) {
    && t.jobs == s.jobs && t.wg == s.wg && t.files == s.files && t.visited == s.visited && t.openers == s.openers
    && t.external == s.external && (s.ctxDone ==> t.ctxDone)
    && (EndedClean(s) ==> EndedClean(t))
  }

  lemma ReaderKeeps(c: Config, s: State, t: State)
    requires FileInv(c, s) && OpenInv(c, s) && ReaderMoves(c, s, t)
    ensures FileInv(c, t) && OpenInv(c, t)
  {
    forall i | 0 <= i < |t.jobs| && c.entries[i].FileEntry? ensures FileProgress(c, t, i) {
      assert FileProgress(c, s, i);
    }
    forall name | name in t.visited ensures exists k :: EmittedBy(c, t, k, name) {
      var k :| EmittedBy(c, s, k, name);
      assert EmittedBy(c, t, k, name);
    }
    forall o | 0 <= o < |t.openers| ensures OpenerOk(c, t, t.openers[o]) {
      assert OpenerOk(c, s, s.openers[o]);
    }
  }

  predicate IsReaderAction(a: Action) {
    a.MainSelect? || a.MainNext? || a.MainTakeBuffer? || a.MainFinish? || a.MainStore? || a.MainCancel?
  }

  /** When the wait group is at zero every entry the reader has begun has ended. */
  lemma AllEnded(c: Config, s: State)
    requires MainInv(c, s) && s.main.Finishing? && s.wg == 0
    ensures forall i | 0 <= i < |s.jobs| :: s.jobs[i].Ended?
  {
    forall i | 0 <= i < |s.jobs| ensures s.jobs[i].Ended? {
      CountedUpdate(s.jobs, i, Untouched);
    }
  }

  /** Outside the loop body, and at its three rest points, MainInv asks little of the reader. */
  lemma AtRest(c: Config, s: State, t: State)
    requires MainInv(c, s) && !s.main.Foreground? && t.jobs == s.jobs && t.wg == s.wg && t.next == s.next
    requires t.main.Returned? || t.main.Stored? || t.main.Finished? ||
             ((t.main.AtNext? || t.main.Finishing?) && AllBegun(s, s.next) &&
              (t.main.Finishing? ==> s.next == |s.jobs|))
    ensures MainInv(c, t)
  {
  }

  lemma NextEntry(c: Config, s: State, t: State)
    requires MainInv(c, s) && s.main.AtNext? && s.next < |s.jobs|
    requires t.jobs == s.jobs && t.wg == s.wg && t.next == s.next + 1 && t.main == Preparing(s.next)
    ensures MainInv(c, t)
  {
  }

  lemma BufferTaken(c: Config, s: State, t: State)
    requires MainInv(c, s) && s.main.Buffering? && t.main.Reading? && t.main.i == s.main.i
    requires t.jobs == s.jobs && t.wg == s.wg && t.next == s.next
    ensures MainInv(c, t)
  {
  }

  lemma ReaderMain(c: Config, s: State, a: Action)
    requires MainInv(c, s) && Enabled(c, s, a) && IsReaderAction(a)
    ensures MainInv(c, Step(c, s, a))
  {
    match a
    case MainNext(ok) => MainAfterNext(c, s, ok);
    case MainTakeBuffer(b) => BufferTaken(c, s, Step(c, s, a));
    case _ => MainAfterRest(c, s, a);
  }

  lemma MainAfterNext(c: Config, s: State, ok: bool)
    requires MainInv(c, s) && Enabled(c, s, MainNext(ok))
    ensures MainInv(c, Step(c, s, MainNext(ok)))
  {
    var t := Step(c, s, MainNext(ok));
    if ok && s.next < |s.jobs| { NextEntry(c, s, t); } else { AtRest(c, s, t); }
  }

  lemma MainAfterRest(c: Config, s: State, a: Action)
    requires MainInv(c, s) && Enabled(c, s, a) && (a.MainSelect? || a.MainFinish? || a.MainStore? || a.MainCancel?)
    ensures MainInv(c, Step(c, s, a))
  {
    AtRest(c, s, Step(c, s, a));
  }

  lemma ReaderEnd(c: Config, s: State, a: Action)
    requires MainInv(c, s) && EndInv(s) && Enabled(c, s, a) && IsReaderAction(a)
    ensures EndInv(Step(c, s, a))
  {
    if a == MainFinish(false) { AllEnded(c, s); }
  }

  lemma ReaderBuffers(c: Config, s: State, t: State)
    requires BufferInv(c, s) && t.jobs == s.jobs && t.mem == s.mem
    requires (t.free == s.free && t.made == s.made && !t.main.Reading?) ||
             (t.main.Reading? && t.free == s.free - {t.main.buf} &&
              (if t.main.buf in s.free then t.made == s.made else t.main.buf == s.made && t.made == s.made + 1) &&
              FreeOfJobs(s, t.main.buf))
    ensures BufferInv(c, t)
  {
  }

  /** The reader takes a buffer, or ends with the one it has. */
  ghost predicate ReaderTakes(s: State, t: State) {
    && t.jobs == s.jobs && (HasFailed(s.main) ==> HasFailed(t.main))
    && if t.main.Reading?
       then !s.main.Reading? && t.free == s.free - {t.main.buf} &&
            (t.made == s.made || (t.main.buf == s.made && t.made == s.made + 1))
       else t.free == s.free && t.made == s.made && (s.main.Reading? ==> HasFailed(t.main))
  }

  lemma ReaderPool(s: State, t: State)
    requires PoolInv(s) && ReaderTakes(s, t)
    ensures PoolInv(t)
  {
    forall b: Buffer | b < t.made ensures InPool(t, b) {
      assert b < s.made ==> InPool(s, b) && (Carried(s, b) <==> Carried(t, b));
    }
  }

  ghost predicate FreeOfJobs(s: State, b: Buffer) {
    forall i | 0 <= i < |s.jobs| && HasBuffer(s.jobs[i]) :: s.jobs[i].buf != b
  }

  lemma StepReader(c: Config, s: State, a: Action)
    requires Inv(c, s) && Enabled(c, s, a) && IsReaderAction(a)
    ensures Inv(c, Step(c, s, a))
  {
    ReaderMain(c, s, a);
    ReaderEnd(c, s, a);
    ReaderRest(c, s, a);
  }

  lemma ReaderRest(c: Config, s: State, a: Action)
    requires Inv(c, s) && Enabled(c, s, a) && IsReaderAction(a)
    ensures var t := Step(c, s, a); BufferInv(c, t) && PoolInv(t) && FileInv(c, t) && OpenInv(c, t)
  {
    ReaderBuffersStep(c, s, a);
    ReaderFilesStep(c, s, a);
  }

  lemma ReaderBuffersStep(c: Config, s: State, a: Action)
    requires BufferInv(c, s) && PoolInv(s) && Enabled(c, s, a) && IsReaderAction(a)
    ensures BufferInv(c, Step(c, s, a)) && PoolInv(Step(c, s, a))
  {
    if a.MainTakeBuffer? { TakeBuffersStep(c, s, a.b); } else { RestBuffersStep(c, s, a); }
  }

  lemma TakeBuffersStep(c: Config, s: State, b: Buffer)
    requires BufferInv(c, s) && PoolInv(s) && Enabled(c, s, MainTakeBuffer(b))
    ensures BufferInv(c, TookBuffer(s, b)) && PoolInv(TookBuffer(s, b))
  {
    ReaderBuffers(c, s, TookBuffer(s, b));
    ReaderPool(s, TookBuffer(s, b));
  }

  /** The reader's other actions neither take nor give a buffer. */
  lemma RestBuffersStep(c: Config, s: State, a: Action)
    requires BufferInv(c, s) && PoolInv(s) && Enabled(c, s, a) && IsReaderAction(a) && !a.MainTakeBuffer?
    ensures BufferInv(c, Step(c, s, a)) && PoolInv(Step(c, s, a))
  {
    var t := Step(c, s, a);
    RestTouchesNone(c, s, a);
    ReaderBuffers(c, s, t);
    ReaderPool(s, t);
  }

  lemma RestTouchesNone(c: Config, s: State, a: Action)
    requires Enabled(c, s, a) && IsReaderAction(a) && !a.MainTakeBuffer?
    ensures TouchesNone(s, Step(c, s, a))
  {
    match a
    case MainSelect => assert TouchesNone(s, Selected(s));
    case MainNext(ok) => assert TouchesNone(s, NextHeader(c, s, ok));
    case MainFinish(takeErr) => assert TouchesNone(s, ReadEnded(s, takeErr));
    case MainStore => assert TouchesNone(s, s.(unarchiveErr := s.main.failed, main := Stored(s.main.failed)));
    case MainCancel => assert TouchesNone(s, s.(ctxDone := true, main := Finished(s.main.failed)));
  }

  predicate TouchesNone(s: State, t: State) {
    && t.jobs == s.jobs && t.mem == s.mem && t.free == s.free && t.made == s.made
    && !s.main.Reading? && !t.main.Reading? && (HasFailed(s.main) ==> HasFailed(t.main))
  }

  lemma ReaderFilesStep(c: Config, s: State, a: Action)
    requires FileInv(c, s) && OpenInv(c, s) && Enabled(c, s, a) && IsReaderAction(a)
    ensures FileInv(c, Step(c, s, a)) && OpenInv(c, Step(c, s, a))
  {
    ReaderMovesOn(c, s, a);
    ReaderKeeps(c, s, Step(c, s, a));
  }

  lemma ReaderMovesOn(c: Config, s: State, a: Action)
    requires Enabled(c, s, a) && IsReaderAction(a)
    ensures ReaderMoves(c, s, Step(c, s, a))
  {
    match a
    case MainSelect => assert ReaderMoves(c, s, Selected(s));
    case MainNext(ok) => assert ReaderMoves(c, s, NextHeader(c, s, ok));
    case MainTakeBuffer(b) => assert ReaderMoves(c, s, TookBuffer(s, b));
    case MainFinish(takeErr) => assert ReaderMoves(c, s, ReadEnded(s, takeErr));
    case MainStore => assert ReaderMoves(c, s, s.(unarchiveErr := s.main.failed, main := Stored(s.main.failed)));
    case MainCancel => assert ReaderMoves(c, s, s.(ctxDone := true, main := Finished(s.main.failed)));
  }

  /** The reader hands the entry it is on to a new job. */
  ghost predicate Begins(c: Config, s: State, t: State, i: nat, j: Job)
    requires |s.jobs| == |c.entries|
  {
    && i + 1 == s.next && i < |s.jobs| && s.jobs[i].Untouched? && AllBegun(s, i)
    && t.jobs == s.jobs[i := j] && t.next == s.next && (j.MakingDir? || j.Opening?)
    && (s.main.Preparing? || s.main.Reading?)
    && t.main == (if InForeground(j) then Foreground(i) else Selecting)
    && t.wg == s.wg + (if Counted(j) then 1 else 0)
    && t.files == s.files && t.visited == s.visited && t.openers == s.openers && t.free == s.free && t.made == s.made
    && t.external == s.external && t.ctxDone == s.ctxDone && t.errs == s.errs && t.unarchiveErr == s.unarchiveErr
    && (j.MakingDir? ==> c.entries[i].DirEntry? && t.mem == s.mem && s.main.Preparing?)
    && (j.Opening? ==> c.entries[i].FileEntry? && s.main == Reading(i, j.buf) &&
                       t.mem == s.mem[j.buf := First(c, c.entries[i])] &&
                       (j.bg <==> |c.entries[i].content| < c.bufSize))
  }

  lemma BeginMain(c: Config, s: State, t: State, i: nat, j: Job)
    requires MainInv(c, s) && EndInv(s) && Begins(c, s, t, i, j)
    ensures MainInv(c, t) && EndInv(t)
  {
    CountedUpdate(s.jobs, i, j);
    if s.errs {
      var k :| 0 <= k < |s.jobs| && Failed(s.jobs[k]);
      assert t.jobs[k] == s.jobs[k];
    }
  }

  lemma BeginBuffers(c: Config, s: State, t: State, i: nat, j: Job)
    requires BufferInv(c, s) && Begins(c, s, t, i, j)
    ensures BufferInv(c, t)
  {
  }

  lemma BeginPool(c: Config, s: State, t: State, i: nat, j: Job)
    requires |s.jobs| == |c.entries| && PoolInv(s) && Begins(c, s, t, i, j)
    ensures PoolInv(t)
  {
    forall b: Buffer | b < t.made ensures InPool(t, b) {
      assert InPool(s, b);
      if Carried(s, b) {
        var k :| 0 <= k < |s.jobs| && HasBuffer(s.jobs[k]) && s.jobs[k].buf == b;
        assert HasBuffer(t.jobs[k]) && t.jobs[k].buf == b;
      } else if s.main.Reading? && s.main.buf == b {
        assert HasBuffer(t.jobs[i]) && t.jobs[i].buf == b;
      }
    }
  }

  lemma BeginFiles(c: Config, s: State, t: State, i: nat, j: Job)
    requires FileInv(c, s) && OpenInv(c, s) && Begins(c, s, t, i, j)
    ensures FileInv(c, t) && OpenInv(c, t)
  {
    forall k | 0 <= k < |t.jobs| && c.entries[k].FileEntry? ensures FileProgress(c, t, k) {
      assert FileProgress(c, s, k);
    }
    forall name | name in t.visited ensures exists k :: EmittedBy(c, t, k, name) {
      var k :| EmittedBy(c, s, k, name);
      assert EmittedBy(c, t, k, name);
    }
    forall o | 0 <= o < |t.openers| ensures OpenerOk(c, t, t.openers[o]) {
      assert OpenerOk(c, s, s.openers[o]);
    }
  }

  lemma BeginKeeps(c: Config, s: State, t: State, i: nat, j: Job)
    requires Inv(c, s) && Begins(c, s, t, i, j)
    ensures Inv(c, t)
  {
    BeginMain(c, s, t, i, j);
    BeginBuffers(c, s, t, i, j);
    BeginPool(c, s, t, i, j);
    BeginFiles(c, s, t, i, j);
  }

  lemma StepPrepare(c: Config, s: State, a: Action)
    requires DistinctNames(c) && Inv(c, s) && Enabled(c, s, a) && a.MainPrepare?
    ensures Inv(c, Step(c, s, a))
  {
    var t := Prepared(c, s, a.ok);
    if t.main.Selecting? {
      BeginKeeps(c, s, t, s.main.i, MakingDir);
    } else {
      assert MainInv(c, t) && EndInv(t) by { PrepareMain(c, s, t); }
      assert BufferInv(c, t) by { ReaderBuffers(c, s, t); }
      assert PoolInv(t) by { ReaderPool(s, t); }
      assert FileInv(c, t) && OpenInv(c, t) by { ReaderKeeps(c, s, t); }
    }
  }

  lemma PrepareMain(c: Config, s: State, t: State)
    requires MainInv(c, s) && EndInv(s) && s.main.Preparing?
    requires t.jobs == s.jobs && t.wg == s.wg && t.next == s.next && t.errs == s.errs &&
             t.unarchiveErr == s.unarchiveErr
    requires t.main == Returned(true) || (t.main == Buffering(s.main.i) && c.entries[s.main.i].FileEntry?)
    requires t.ctxDone == s.ctxDone && t.external == s.external
    ensures MainInv(c, t) && EndInv(t)
  {
  }

  lemma StepRead(c: Config, s: State, a: Action)
    requires DistinctNames(c) && Inv(c, s) && Enabled(c, s, a) && a.MainRead?
    ensures Inv(c, Step(c, s, a))
  {
    if a.ok { ReadOk(c, s); } else { ReadFails(c, s); }
  }

  lemma ReadOk(c: Config, s: State)
    requires DistinctNames(c) && Inv(c, s) && Enabled(c, s, MainRead(true))
    ensures Inv(c, ReadIn(c, s, true))
  {
    var t := ReadIn(c, s, true);
    BeginKeeps(c, s, t, s.main.i, t.jobs[s.main.i]);
  }

  lemma ReadFails(c: Config, s: State)
    requires Inv(c, s) && Enabled(c, s, MainRead(false))
    ensures Inv(c, ReadIn(c, s, false))
  {
    var t := ReadIn(c, s, false);
    assert MainInv(c, t) && EndInv(t) && BufferInv(c, t);
    assert PoolInv(t) by { ReaderPool(s, t); }
    assert FileInv(c, t) && OpenInv(c, t) by { ReaderKeeps(c, s, t); }
  }

  // ---------- Open's actions, and cancellation from outside ----------

  lemma StepOpen(c: Config, s: State, o: nat, p: Opener)
    requires Inv(c, s) && o <= |s.openers| && OpenerOk(c, s, p)
    ensures Inv(c, if o < |s.openers| then WithOpener(s, o, p) else s.(openers := s.openers + [p]))
  {
    var t := if o < |s.openers| then WithOpener(s, o, p) else s.(openers := s.openers + [p]);
    assert MainInv(c, t) && EndInv(t) && BufferInv(c, t);
    assert FileInv(c, t) by { OtherKeepsFiles(c, s, t); }
    assert PoolInv(t) by { PoolSame(s, t); }
    assert OpenInv(c, t) by { OpenersKept(c, s, t, o, p); }
  }

  lemma OpenersKept(c: Config, s: State, t: State, o: nat, p: Opener)
    requires OpenInv(c, s) && OpenerOk(c, s, p) && t == s.(openers := t.openers)
    requires o <= |s.openers| && t.openers == if o < |s.openers| then s.openers[o := p] else s.openers + [p]
    ensures OpenInv(c, t)
  {
    assert OpenerOk(c, t, p);
    forall k | 0 <= k < |t.openers| ensures OpenerOk(c, t, t.openers[k]) {
      if k != o { assert OpenerOk(c, s, s.openers[k]); }
    }
  }

  lemma PoolSame(s: State, t: State)
    requires PoolInv(s) && t.jobs == s.jobs && t.free == s.free && t.made == s.made && t.main == s.main
    ensures PoolInv(t)
  {
    forall b: Buffer | b < t.made ensures InPool(t, b) {
      assert InPool(s, b) && (Carried(s, b) <==> Carried(t, b));
    }
  }

  lemma OtherKeepsFiles(c: Config, s: State, t: State)
    requires FileInv(c, s) && t.jobs == s.jobs && t.files == s.files && t.visited == s.visited
    ensures FileInv(c, t)
  {
    forall i | 0 <= i < |t.jobs| && c.entries[i].FileEntry? ensures FileProgress(c, t, i) {
      assert FileProgress(c, s, i);
    }
    forall name | name in t.visited ensures exists k :: EmittedBy(c, t, k, name) {
      var k :| EmittedBy(c, s, k, name);
      assert EmittedBy(c, t, k, name);
    }
  }

  lemma OpenGetOk(c: Config, s: State, o: nat)
    requires DistinctNames(c) && Inv(c, s) && o < |s.openers| && s.openers[o].Passing?
    ensures var name := s.openers[o].name;
            OpenerOk(c, s, Found(s, name))
  {
    assert OpenerOk(c, s, s.openers[o]);
    forall i | 0 <= i < |s.jobs| && c.entries[i].FileEntry? && Written(s.jobs[i])
      ensures c.entries[i].name in s.files && s.files[c.entries[i].name] == c.entries[i].content
    {
      assert FileProgress(c, s, i);
    }
  }

  lemma StepOpens(c: Config, s: State, a: Action)
    requires DistinctNames(c) && Inv(c, s) && Enabled(c, s, a) &&
             (a.OpenCall? || a.OpenWake? || a.OpenCheck? || a.OpenGet?)
    ensures Inv(c, Step(c, s, a))
  {
    match a
    case OpenCall(name) => StepOpen(c, s, |s.openers|, Waiting(name));
    case OpenWake(o) => StepOpen(c, s, o, Checking(s.openers[o].name));
    case OpenCheck(o) =>
      assert OpenerOk(c, s, s.openers[o]);
      StepOpen(c, s, o, if s.unarchiveErr then Rejected(s.openers[o].name) else Passing(s.openers[o].name));
    case OpenGet(o) =>
      OpenGetOk(c, s, o);
      var name := s.openers[o].name;
      StepOpen(c, s, o, Found(s, name));
  }

  lemma StepCancel(c: Config, s: State)
    requires Inv(c, s) && Enabled(c, s, CancelFromOutside)
    ensures Inv(c, Step(c, s, CancelFromOutside))
  {
    var t := Step(c, s, CancelFromOutside);
    OtherKeepsFiles(c, s, t);
    PoolSame(s, t);
    forall k | 0 <= k < |t.openers| ensures OpenerOk(c, t, t.openers[k]) {
      assert OpenerOk(c, s, s.openers[k]);
    }
  }

  predicate IsMainAction(a: Action) {
    IsReaderAction(a) || a.MainPrepare? || a.MainRead?
  }

  predicate IsJobAction(a: Action) {
    a.JobOpen? || a.JobWrite? || a.JobCopy? || a.JobClose? || a.JobRelease? ||
    a.JobMakeDir? || a.JobReport? || a.JobLeave?
  }

  lemma StepJobs(c: Config, s: State, a: Action)
    requires DistinctNames(c) && Inv(c, s) && Enabled(c, s, a) && IsJobAction(a)
    ensures Inv(c, Step(c, s, a))
  {
    match a
    case JobOpen(_, _) => StepJobOpen(c, s, a);
    case JobWrite(_, _, _) => StepJobWrite(c, s, a);
    case JobCopy(_, _, _) => StepJobCopy(c, s, a);
    case JobClose(_) => StepJobClose(c, s, a);
    case JobRelease(_) => StepJobRelease(c, s, a);
    case JobMakeDir(_, _) => StepJobMakeDir(c, s, a);
    case JobReport(_) => StepJobReport(c, s, a);
    case JobLeave(_) => StepJobLeave(c, s, a);
  }

  lemma InvStep(c: Config, s: State, a: Action)
    requires DistinctNames(c) && Inv(c, s) && Enabled(c, s, a)
    ensures Inv(c, Step(c, s, a))
  {
    if IsJobAction(a) { StepJobs(c, s, a); }
    else if IsMainAction(a) { StepMain(c, s, a); }
    else { StepOutside(c, s, a); }
  }

  lemma StepMain(c: Config, s: State, a: Action)
    requires DistinctNames(c) && Inv(c, s) && Enabled(c, s, a) && IsMainAction(a)
    ensures Inv(c, Step(c, s, a))
  {
    if a.MainPrepare? { StepPrepare(c, s, a); } else if a.MainRead? { StepRead(c, s, a); } else { StepReader(c, s, a); }
  }

  lemma StepOutside(c: Config, s: State, a: Action)
    requires DistinctNames(c) && Inv(c, s) && Enabled(c, s, a) && !IsJobAction(a) && !IsMainAction(a)
    ensures Inv(c, Step(c, s, a))
  {
    if a.CancelFromOutside? { StepCancel(c, s); } else { StepOpens(c, s, a); }
  }

  lemma InitInv(c: Config, s: State)
    requires Init(c, s)
    ensures Inv(c, s)
  {
    NoneCounted(s.jobs);
  }

  lemma RunInv(c: Config, s: State, actions: seq<Action>, t: State)
    requires DistinctNames(c) && Inv(c, s) && Run(Next(c), s, actions, t)
    ensures Inv(c, t)
  {
    forall u, a | Inv(c, u) && Next(c)(u, a).Some? ensures Inv(c, Next(c)(u, a).value) {
      InvStep(c, u, a);
    }
    RunKeeps(Next(c), u => Inv(c, u), s, actions, t);
  }

  // ---------- the theorems ----------

  /** In every interleaving without cancellation from outside, an Open that got through holds the
      full contents of a file entry whose own write succeeded; and if its own write did not, the
      read has ended with that error left unread in the channel. */
  lemma OpenSeesFullFiles(c: Config, s: State, actions: seq<Action>, t: State, o: nat, i: nat)
    requires DistinctNames(c) && Init(c, s) && Run(Next(c), s, actions, t) && !t.external
    requires o < |t.openers| && t.openers[o].Got?
    requires i < |c.entries| && c.entries[i].FileEntry? && c.entries[i].name == t.openers[o].name
    ensures |t.jobs| == |c.entries|
    ensures Written(t.jobs[i]) ==> t.openers[o].contents == Some(c.entries[i].content) &&
                                   c.entries[i].name in t.files && t.files[c.entries[i].name] == c.entries[i].content
    ensures !Written(t.jobs[i]) ==> t.main == Finished(false) && t.errs
    ensures !t.errs ==> t.openers[o].contents == Some(c.entries[i].content)
  {
    InitInv(c, s);
    RunInv(c, s, actions, t);
    assert OpenerOk(c, t, t.openers[o]);
    assert FileProgress(c, t, i);
    if t.openers[o].name in t.visited {
      var k :| EmittedBy(c, t, k, t.openers[o].name);
      assert k == i;
    }
  }

  /** Once the read has ended in success, an error is left unread exactly when some entry failed. */
  lemma ErrorUnreadIff(c: Config, s: State, actions: seq<Action>, t: State)
    requires DistinctNames(c) && Init(c, s) && Run(Next(c), s, actions, t) && t.main == Finished(false)
    ensures t.errs <==> exists i :: 0 <= i < |t.jobs| && t.jobs[i] == Ended(false)
  {
    InitInv(c, s);
    RunInv(c, s, actions, t);
    if t.errs {
      var i :| 0 <= i < |t.jobs| && Failed(t.jobs[i]);
      assert t.jobs[i] == Ended(false);
    }
    if i :| 0 <= i < |t.jobs| && t.jobs[i] == Ended(false) {
      assert Failed(t.jobs[i]);
    }
  }

  /** From every such state an Open of any name gets through, an entry that was not written
      included, and finds whatever the destination holds. */
  lemma AnyOpenGetsThrough(c: Config, s: State, actions: seq<Action>, t: State, name: string)
    requires DistinctNames(c) && Init(c, s) && Run(Next(c), s, actions, t) && t.main == Finished(false)
    ensures Goes(Next(c), t, t.(openers := t.openers + [Found(t, name)]))
  {
    InitInv(c, s);
    RunInv(c, s, actions, t);
    assert Run(Next(c), t, [], t);
    OpenPasses(c, t, name);
    OpenReads(c, t, name);
  }

  lemma OpenPasses(c: Config, t: State, name: string)
    requires |t.jobs| == |c.entries| && (t.ctxDone || name in t.visited) && Goes(Next(c), t, t)
    ensures Goes(Next(c), t, t.(openers := t.openers + [Checking(name)]))
  {
    Then(Next(c), t, t, OpenCall(name));
    Then(Next(c), t, t.(openers := t.openers + [Waiting(name)]), OpenWake(|t.openers|));
    LastOpener(t.openers, Waiting(name), Checking(name));
  }

  lemma OpenReads(c: Config, t: State, name: string)
    requires |t.jobs| == |c.entries| && !t.unarchiveErr && Goes(Next(c), t, t.(openers := t.openers + [Checking(name)]))
    ensures Goes(Next(c), t, t.(openers := t.openers + [Found(t, name)]))
  {
    Then(Next(c), t, t.(openers := t.openers + [Checking(name)]), OpenCheck(|t.openers|));
    LastOpener(t.openers, Checking(name), Passing(name));
    Then(Next(c), t, t.(openers := t.openers + [Passing(name)]), OpenGet(|t.openers|));
    LastOpener(t.openers, Passing(name), Found(t, name));
  }

  lemma LastOpener(openers: seq<Opener>, p: Opener, q: Opener)
    ensures (openers + [p])[|openers| := q] == openers + [q]
  {
  }

  /** A name that no file entry has, a directory's say, is opened only after the whole read has
      ended in success: every entry has been dealt with and every goroutine is gone. */
  lemma OtherOpensWait(c: Config, s: State, actions: seq<Action>, t: State, o: nat)
    requires DistinctNames(c) && Init(c, s) && Run(Next(c), s, actions, t) && !t.external
    requires o < |t.openers| && (t.openers[o].Passing? || t.openers[o].Got?)
    requires forall i | 0 <= i < |c.entries| && c.entries[i].FileEntry? :: c.entries[i].name != t.openers[o].name
    ensures t.main == Finished(false) && t.wg == 0 && forall i | 0 <= i < |t.jobs| :: t.jobs[i].Ended?
  {
    InitInv(c, s);
    RunInv(c, s, actions, t);
    assert OpenerOk(c, t, t.openers[o]);
    assert t.openers[o].name !in t.visited by {
      assert forall k :: !EmittedBy(c, t, k, t.openers[o].name);
    }
    NoneCounted(t.jobs);
  }

  /** Buffers are never shared while in use, so a background write copies its own entry's bytes. */
  lemma BuffersExclusive(c: Config, s: State, actions: seq<Action>, t: State, i: nat, j: nat)
    requires DistinctNames(c) && Init(c, s) && Run(Next(c), s, actions, t)
    requires i < j < |t.jobs| && HasBuffer(t.jobs[i]) && HasBuffer(t.jobs[j])
    ensures t.jobs[i].buf != t.jobs[j].buf && |t.jobs| == |c.entries| && c.entries[i].FileEntry?
    ensures t.jobs[i].buf in t.mem && t.mem[t.jobs[i].buf] == First(c, c.entries[i])
  {
    InitInv(c, s);
    RunInv(c, s, actions, t);
  }

  // ---------- progress ----------

  /** A call to the archive or to a file system fails, or somebody else cancels the context. */
  predicate Fails(a: Action) {
    a.CancelFromOutside? ||
    ((a.MainNext? || a.MainPrepare? || a.MainRead? || a.JobOpen? || a.JobWrite? || a.JobCopy? || a.JobMakeDir?) &&
     !a.ok)
  }

  /** Runs in which nothing fails. */
  function Unfailing(c: Config): (State, Action) -> Option<State> {
    (s, a) => if !Fails(a) && Enabled(c, s, a) then Some(Step(c, s, a)) else None
  }

  /** A job under way can take its next step, unless it waits for room in the error channel. */
  lemma JobCanMove(c: Config, s: State, i: nat)
    requires MainInv(c, s) && BufferInv(c, s) && i < |s.jobs| && (HasBuffer(s.jobs[i]) || Counted(s.jobs[i]))
    requires s.jobs[i].Reporting? && !s.jobs[i].ok ==> !s.errs
    ensures exists a :: IsJobAction(a) && !Fails(a) && Enabled(c, s, a)
  {
    if HasBuffer(s.jobs[i]) { WriterCanMove(c, s, i); } else { LeaverCanMove(c, s, i); }
  }

  lemma WriterCanMove(c: Config, s: State, i: nat)
    requires BufferInv(c, s) && i < |s.jobs| && HasBuffer(s.jobs[i])
    ensures exists a :: IsJobAction(a) && !Fails(a) && Enabled(c, s, a)
  {
    var a := match s.jobs[i]
      case Opening(_, _) => JobOpen(i, true)
      case Writing(_, _) => JobWrite(i, true, 0)
      case Copying(_, _) => JobCopy(i, true, if s.jobs[i].done < |c.entries[i].content| then 1 else 0)
      case Closing(_, _, _) => JobClose(i)
      case _ => JobRelease(i);
    assert IsJobAction(a) && !Fails(a) && Enabled(c, s, a);
  }

  lemma LeaverCanMove(c: Config, s: State, i: nat)
    requires MainInv(c, s) && i < |s.jobs| && Counted(s.jobs[i]) && !HasBuffer(s.jobs[i])
    requires s.jobs[i].Reporting? && !s.jobs[i].ok ==> !s.errs
    ensures exists a :: IsJobAction(a) && !Fails(a) && Enabled(c, s, a)
  {
    CountedUpdate(s.jobs, i, Untouched);
    var a := match s.jobs[i]
      case MakingDir => JobMakeDir(i, true)
      case Reporting(_) => JobReport(i)
      case _ => JobLeave(i);
    assert IsJobAction(a) && !Fails(a) && Enabled(c, s, a);
  }

  lemma {:induction false} SomeCounted(jobs: seq<Job>) returns (i: nat)
    requires 0 < CountedJobs(jobs)
    ensures i < |jobs| && Counted(jobs[i])
  {
    i := |jobs| - 1;
    if !Counted(jobs[i]) { i := SomeCounted(jobs[..i]); }
  }

  /** The reader or a job can move, whatever is held up: it waits for a buffer only while some job
      has one and can go on, and for its goroutines only while one can go on or an error can be read. */
  lemma SomebodyCanMove(c: Config, s: State)
    requires MainInv(c, s) && BufferInv(c, s) && PoolInv(s) && 0 < c.maxBuffers && !s.main.Finished?
    ensures exists a :: (IsMainAction(a) || IsJobAction(a)) && !Fails(a) && Enabled(c, s, a)
  {
    match s.main
    case Selecting => assert Enabled(c, s, MainSelect);
    case AtNext => assert Enabled(c, s, MainNext(true));
    case Preparing(_) => assert Enabled(c, s, MainPrepare(true));
    case Buffering(_) => BufferComes(c, s);
    case Reading(_, _) => assert Enabled(c, s, MainRead(true));
    case Foreground(i) => JobCanMove(c, s, i);
    case Finishing => EndComes(c, s);
    case Returned(_) => assert Enabled(c, s, MainStore);
    case Stored(_) => assert Enabled(c, s, MainCancel);
  }

  lemma BufferComes(c: Config, s: State)
    requires MainInv(c, s) && BufferInv(c, s) && PoolInv(s) && 0 < c.maxBuffers && s.main.Buffering?
    ensures exists a :: (IsMainAction(a) || IsJobAction(a)) && !Fails(a) && Enabled(c, s, a)
  {
    if s.made < c.maxBuffers {
      assert Enabled(c, s, MainTakeBuffer(s.made));
    } else {
      assert InPool(s, 0);
      if 0 in s.free {
        assert Enabled(c, s, MainTakeBuffer(0));
      } else {
        var i :| 0 <= i < |s.jobs| && HasBuffer(s.jobs[i]) && s.jobs[i].buf == 0;
        JobCanMove(c, s, i);
      }
    }
  }

  lemma EndComes(c: Config, s: State)
    requires MainInv(c, s) && BufferInv(c, s) && s.main.Finishing?
    ensures exists a :: (IsMainAction(a) || IsJobAction(a)) && !Fails(a) && Enabled(c, s, a)
  {
    if s.errs {
      assert Enabled(c, s, MainFinish(true));
    } else if s.wg == 0 {
      assert Enabled(c, s, MainFinish(false));
    } else {
      var i := SomeCounted(s.jobs);
      JobCanMove(c, s, i);
    }
  }

  /** In every interleaving, outside cancellation included, the read never gets stuck before it
      has ended. */
  lemma NeverStuck(c: Config, s: State, actions: seq<Action>, t: State)
    requires DistinctNames(c) && Init(c, s) && Run(Next(c), s, actions, t) && 0 < c.maxBuffers && !t.main.Finished?
    ensures exists a :: (IsMainAction(a) || IsJobAction(a)) && !Fails(a) && Enabled(c, t, a)
  {
    InitInv(c, s);
    RunInv(c, s, actions, t);
    SomebodyCanMove(c, t);
  }

  // ---------- the read ends ----------

  function Size(e: Entry): nat {
    match e case DirEntry(_) => 0 case FileEntry(_, content) => |content|
  }

  /** How many steps a job has before it at most: its copy's chunks, and the stages after it. */
  function StepsLeft(e: Entry, j: Job): nat {
    match j
    case Untouched => Size(e) + 10
    case Opening(_, _) => Size(e) + 9
    case Writing(_, _) => Size(e) + 8
    case Copying(_, done) => if done < Size(e) then Size(e) - done + 7 else 7
    case Closing(_, _, _) => 6
    case Releasing(_, _, _) => 5
    case MakingDir => 5
    case Reporting(_) => 3
    case Leaving(_) => 2
    case Ended(_) => 0
  }

  function JobSteps(entries: seq<Entry>, jobs: seq<Job>): nat
    requires |entries| == |jobs|
  {
    if jobs == [] then 0
    else StepsLeft(entries[0], jobs[0]) + JobSteps(entries[1..], jobs[1..])
  }

  /** How many steps the reader has before it at most: six for each entry, and the stages. */
  function ReaderSteps(c: Config, s: State): int {
    6 * (|c.entries| - s.next) + Stage(s.main)
  }

  function Stage(m: Main): nat {
    match m
    case Preparing(_) => 9
    case Buffering(_) => 8
    case Reading(_, _) => 7
    case Foreground(_) => 6
    case Selecting => 5
    case AtNext => 4
    case Finishing => 3
    case Returned(_) => 2
    case Stored(_) => 1
    case Finished(_) => 0
  }

  function AllSteps(c: Config, s: State): int
    requires |s.jobs| == |c.entries|
  {
    ReaderSteps(c, s) + JobSteps(c.entries, s.jobs)
  }

  lemma {:induction false} JobStepsUpdate(entries: seq<Entry>, jobs: seq<Job>, i: nat, j: Job)
    requires i < |jobs| == |entries|
    ensures JobSteps(entries, jobs[i := j]) ==
            JobSteps(entries, jobs) - StepsLeft(entries[i], jobs[i]) + StepsLeft(entries[i], j)
    decreases |jobs|
  {
    if i > 0 {
      JobStepsUpdate(entries[1..], jobs[1..], i - 1, j);
      assert jobs[i := j][1..] == jobs[1..][i - 1 := j];
    } else {
      assert jobs[i := j][1..] == jobs[1..];
    }
  }

  predicate IsWork(a: Action) {
    IsMainAction(a) || IsJobAction(a)
  }

  /** Every step of the reader or of a job leaves fewer; no other step changes their number. */
  lemma WorkDone(c: Config, s: State, a: Action)
    requires MainInv(c, s) && Enabled(c, s, a)
    ensures |Step(c, s, a).jobs| == |c.entries|
    ensures if IsWork(a) then AllSteps(c, Step(c, s, a)) < AllSteps(c, s)
            else AllSteps(c, Step(c, s, a)) == AllSteps(c, s)
  {
    if IsMainAction(a) { ReaderStepDone(c, s, a); } else if IsJobAction(a) { JobStepDone(c, s, a); }
  }

  lemma ReaderStepDone(c: Config, s: State, a: Action)
    requires MainInv(c, s) && Enabled(c, s, a) && IsMainAction(a)
    ensures |Step(c, s, a).jobs| == |c.entries| && AllSteps(c, Step(c, s, a)) < AllSteps(c, s)
  {
    if a.MainPrepare? { PreparedFewer(c, s, a.ok); }
    else if a.MainRead? { ReadFewer(c, s, a.ok); }
    else { ReaderCloser(c, s, a); }
  }

  lemma ReaderCloser(c: Config, s: State, a: Action)
    requires Enabled(c, s, a) && IsReaderAction(a)
    ensures Closer(c, s, Step(c, s, a))
  {
    match a
    case MainSelect => SelectedCloser(c, s);
    case MainNext(ok) => HeaderCloser(c, s, ok);
    case MainTakeBuffer(b) => TookCloser(c, s, b);
    case _ =>
  }

  /** The reader has fewer steps left, and no job has changed. */
  ghost predicate Closer(c: Config, s: State, t: State) {
    t.jobs == s.jobs && ReaderSteps(c, t) < ReaderSteps(c, s)
  }

  lemma SelectedCloser(c: Config, s: State)
    requires s.main.Selecting?
    ensures Closer(c, s, Selected(s))
  {
  }

  lemma HeaderCloser(c: Config, s: State, ok: bool)
    requires s.main.AtNext?
    ensures Closer(c, s, NextHeader(c, s, ok))
  {
  }

  lemma TookCloser(c: Config, s: State, b: Buffer)
    requires s.main.Buffering?
    ensures Closer(c, s, TookBuffer(s, b))
  {
  }

  lemma PreparedFewer(c: Config, s: State, ok: bool)
    requires s.main.Preparing? && s.main.i < |s.jobs| == |c.entries| && s.jobs[s.main.i].Untouched?
    ensures var t := Prepared(c, s, ok); |t.jobs| == |s.jobs| && AllSteps(c, t) < AllSteps(c, s)
  {
    JobStepsUpdate(c.entries, s.jobs, s.main.i, MakingDir);
  }

  lemma ReadFewer(c: Config, s: State, ok: bool)
    requires s.main.Reading? && s.main.i < |s.jobs| == |c.entries| && c.entries[s.main.i].FileEntry?
    requires s.jobs[s.main.i].Untouched?
    ensures var t := ReadIn(c, s, ok); |t.jobs| == |s.jobs| && AllSteps(c, t) < AllSteps(c, s)
  {
    var Reading(i, b) := s.main;
    JobStepsUpdate(c.entries, s.jobs, i, Opening(|c.entries[i].content| < c.bufSize, b));
  }

  lemma JobStepDone(c: Config, s: State, a: Action)
    requires MainInv(c, s) && Enabled(c, s, a) && IsJobAction(a)
    ensures |Step(c, s, a).jobs| == |c.entries| && AllSteps(c, Step(c, s, a)) < AllSteps(c, s)
  {
    JobStepFewer(c, s, a);
    JobStepsUpdate(c.entries, s.jobs, a.i, Step(c, s, a).jobs[a.i]);
  }

  lemma JobStepFewer(c: Config, s: State, a: Action)
    requires MainInv(c, s) && Enabled(c, s, a) && IsJobAction(a)
    ensures OneFewer(c, s, Step(c, s, a), a.i)
  {
    match a
    case JobOpen(i, ok) => OpenedFewer(c, s, i, ok);
    case JobWrite(i, ok, n) => WroteFewer(c, s, i, ok, n);
    case JobCopy(i, ok, n) => CopiedFewer(c, s, i, ok, n);
    case JobClose(i) => ClosedFewer(c, s, i);
    case JobRelease(i) => ReleasedFewer(c, s, i);
    case _ =>
  }

  /** One job has fewer steps left, and the reader no more. */
  ghost predicate OneFewer(c: Config, s: State, t: State, i: nat)
    requires i < |s.jobs| == |c.entries|
  {
    && |t.jobs| == |s.jobs| && t.jobs == s.jobs[i := t.jobs[i]]
    && StepsLeft(c.entries[i], t.jobs[i]) < StepsLeft(c.entries[i], s.jobs[i])
    && ReaderSteps(c, t) <= ReaderSteps(c, s)
  }

  lemma OpenedFewer(c: Config, s: State, i: nat, ok: bool)
    requires i < |s.jobs| == |c.entries| && s.jobs[i].Opening?
    ensures OneFewer(c, s, Opened(c, s, i, ok), i)
  {
  }

  lemma WroteFewer(c: Config, s: State, i: nat, ok: bool, n: nat)
    requires i < |s.jobs| == |c.entries| && s.jobs[i].Writing? && s.jobs[i].buf in s.mem && n <= |s.mem[s.jobs[i].buf]|
    ensures OneFewer(c, s, Wrote(c, s, i, ok, n), i)
  {
  }

  lemma CopiedFewer(c: Config, s: State, i: nat, ok: bool, n: nat)
    requires i < |s.jobs| == |c.entries| && s.jobs[i].Copying? && c.entries[i].FileEntry?
    requires ok && n != 0 ==> s.jobs[i].done + n <= |c.entries[i].content|
    ensures OneFewer(c, s, CopiedOn(c, s, i, ok, n), i)
  {
  }

  lemma ClosedFewer(c: Config, s: State, i: nat)
    requires i < |s.jobs| == |c.entries| && s.jobs[i].Closing?
    ensures OneFewer(c, s, Closed(c, s, i), i)
  {
  }

  lemma ReleasedFewer(c: Config, s: State, i: nat)
    requires i < |s.jobs| == |c.entries| && s.jobs[i].Releasing?
    requires InForeground(s.jobs[i]) ==> s.main == Foreground(i)
    ensures OneFewer(c, s, Released(s, i), i)
  {
    var t := Released(s, i);
    assert t.jobs == s.jobs[i := t.jobs[i]] && t.next == s.next;
    assert Stage(t.main) <= Stage(s.main);
  }

  /** How many of the actions are the reader's or a job's. */
  function Work(actions: seq<Action>): nat {
    if actions == [] then 0 else (if IsWork(actions[0]) then 1 else 0) + Work(actions[1..])
  }

  lemma {:induction false} WorkInRun(c: Config, s: State, actions: seq<Action>, t: State)
    requires DistinctNames(c) && Inv(c, s) && Run(Next(c), s, actions, t)
    ensures |t.jobs| == |c.entries| && Work(actions) + AllSteps(c, t) <= AllSteps(c, s)
    decreases |actions|
  {
    if actions != [] {
      WorkDone(c, s, actions[0]);
      InvStep(c, s, actions[0]);
      WorkInRun(c, Step(c, s, actions[0]), actions[1..], t);
    }
  }

  lemma {:induction false} AllToDo(entries: seq<Entry>, jobs: seq<Job>)
    requires |entries| == |jobs| && forall i | 0 <= i < |jobs| :: jobs[i].Untouched?
    ensures JobSteps(entries, jobs) == Bytes(entries) + 10 * |entries|
    decreases |jobs|
  {
    if jobs != [] { AllToDo(entries[1..], jobs[1..]); }
  }

  function Bytes(entries: seq<Entry>): nat {
    if entries == [] then 0 else Size(entries[0]) + Bytes(entries[1..])
  }

  /** However a run is interleaved, and however often it is cancelled or opened, the reader and its
      goroutines together take at most so many steps. */
  lemma WorkBounded(c: Config, s: State, actions: seq<Action>, t: State)
    requires DistinctNames(c) && Init(c, s) && Run(Next(c), s, actions, t)
    ensures Work(actions) <= Bytes(c.entries) + 16 * |c.entries| + 5
  {
    InitInv(c, s);
    RunInv(c, s, actions, t);
    WorkInRun(c, s, actions, t);
    AllToDo(c.entries, s.jobs);
  }

  /** From every reachable state the reader and its goroutines, left to themselves, end the read, with
      nothing failing on the way. */
  lemma ReadEnds(c: Config, s: State, actions: seq<Action>, t: State)
    requires DistinctNames(c) && Init(c, s) && Run(Next(c), s, actions, t) && 0 < c.maxBuffers
    ensures exists u :: Goes(Unfailing(c), t, u) && u.main.Finished?
  {
    InitInv(c, s);
    RunInv(c, s, actions, t);
    assert Run(Unfailing(c), t, [], t);
    EndsFrom(c, t, t);
  }

  lemma {:induction false} EndsFrom(c: Config, t: State, v: State)
    requires DistinctNames(c) && Inv(c, v) && 0 < c.maxBuffers && Goes(Unfailing(c), t, v)
    ensures exists u :: Goes(Unfailing(c), t, u) && u.main.Finished?
    decreases AllSteps(c, v)
  {
    if !v.main.Finished? {
      SomebodyCanMove(c, v);
      var a :| IsWork(a) && !Fails(a) && Enabled(c, v, a);
      Then(Unfailing(c), t, v, a);
      InvStep(c, v, a);
      WorkDone(c, v, a);
      EndsFrom(c, t, Step(c, v, a));
    }
  }

  // ---------- what the reader does for its callers ----------

  /** The job is past the point where a file that was written is announced. */
  predicate Announced(j: Job) {
    (j.Releasing? || j.Reporting? || j.Leaving? || j.Ended?) && j.ok
  }

  /** The job has failed, whether it has said so or not. */
  predicate Doomed(j: Job) {
    (j.Closing? || j.Releasing? || j.Reporting? || j.Leaving? || j.Ended?) && !j.ok
  }

  /** A file that was written and closed is announced, whatever else is still going on. */
  ghost predicate Announces(c: Config, s: State) {
    |s.jobs| == |c.entries| && forall i | 0 <= i < |s.jobs| && c.entries[i].FileEntry? :: AnnouncesFile(c, s, i)
  }

  ghost predicate AnnouncesFile(c: Config, s: State, i: nat)
    requires i < |s.jobs| == |c.entries|
  {
    !s.jobs[i].MakingDir? && (Announced(s.jobs[i]) ==> c.entries[i].name in s.visited)
  }

  lemma AnnouncesStep(c: Config, s: State, a: Action)
    requires Announces(c, s) && Enabled(c, s, a)
    ensures Announces(c, Step(c, s, a))
  {
    var t := Step(c, s, a);
    if IsJobAction(a) {
      OneJobMoves(c, s, a);
      assert c.entries[a.i].FileEntry? ==> AnnouncesFile(c, s, a.i);
    } else {
      OthersAnnounce(c, s, a);
    }
    forall i | 0 <= i < |t.jobs| && c.entries[i].FileEntry? ensures AnnouncesFile(c, t, i) {
      assert AnnouncesFile(c, s, i);
    }
  }

  /** Job i has moved on, and has announced its name if it came past that point; nothing else has
      changed for the callers, and the reader can have come only to its next entry or to an error. */
  ghost predicate MovedOn(c: Config, s: State, t: State, i: nat)
    requires i < |s.jobs| == |c.entries|
  {
    && |t.jobs| == |s.jobs| && t.jobs == s.jobs[i := t.jobs[i]] && s.visited <= t.visited && !t.jobs[i].MakingDir?
    && (Announced(t.jobs[i]) ==> s.jobs[i].MakingDir? || Announced(s.jobs[i]) || c.entries[i].name in t.visited)
    && t.openers == s.openers && t.unarchiveErr == s.unarchiveErr && t.ctxDone == s.ctxDone && t.next == s.next
    && (t.main == s.main || t.main.Selecting? || t.main.Returned?) && (Doomed(s.jobs[i]) ==> Doomed(t.jobs[i]))
  }

  lemma OneJobMoves(c: Config, s: State, a: Action)
    requires Enabled(c, s, a) && IsJobAction(a)
    ensures MovedOn(c, s, Step(c, s, a), a.i)
  {
    match a
    case JobOpen(i, ok) => OpenedMoves(c, s, i, ok);
    case JobWrite(i, ok, n) => WroteMoves(c, s, i, ok, n);
    case JobCopy(i, ok, n) => CopiedMoves(c, s, i, ok, n);
    case JobClose(i) => ClosedMoves(c, s, i);
    case JobRelease(i) => ReleasedMoves(c, s, i);
    case _ =>
  }

  lemma OpenedMoves(c: Config, s: State, i: nat, ok: bool)
    requires i < |s.jobs| == |c.entries| && s.jobs[i].Opening?
    ensures MovedOn(c, s, Opened(c, s, i, ok), i)
  {
  }

  lemma WroteMoves(c: Config, s: State, i: nat, ok: bool, n: nat)
    requires i < |s.jobs| == |c.entries| && s.jobs[i].Writing? && s.jobs[i].buf in s.mem && n <= |s.mem[s.jobs[i].buf]|
    ensures MovedOn(c, s, Wrote(c, s, i, ok, n), i)
  {
  }

  lemma CopiedMoves(c: Config, s: State, i: nat, ok: bool, n: nat)
    requires i < |s.jobs| == |c.entries| && s.jobs[i].Copying? && c.entries[i].FileEntry?
    requires ok && n != 0 ==> s.jobs[i].done + n <= |c.entries[i].content|
    ensures MovedOn(c, s, CopiedOn(c, s, i, ok, n), i)
  {
  }

  lemma ClosedMoves(c: Config, s: State, i: nat)
    requires i < |s.jobs| == |c.entries| && s.jobs[i].Closing?
    ensures MovedOn(c, s, Closed(c, s, i), i)
  {
  }

  lemma ReleasedMoves(c: Config, s: State, i: nat)
    requires i < |s.jobs| == |c.entries| && s.jobs[i].Releasing?
    ensures MovedOn(c, s, Released(s, i), i)
  {
    if s.jobs[i].bg { BackgroundReleased(c, s, i); } else { ForegroundReleased(c, s, i); }
  }

  lemma BackgroundReleased(c: Config, s: State, i: nat)
    requires i < |s.jobs| == |c.entries| && s.jobs[i].Releasing? && s.jobs[i].bg
    ensures MovedOn(c, s, Released(s, i), i)
  {
  }

  lemma ForegroundReleased(c: Config, s: State, i: nat)
    requires i < |s.jobs| == |c.entries| && s.jobs[i].Releasing? && !s.jobs[i].bg
    ensures MovedOn(c, s, Released(s, i), i)
  {
  }

  /** No job is past its announcement that was not, nor has become a directory's that is a file's. */
  ghost predicate NoneAnnounced(c: Config, s: State, t: State)
    requires |s.jobs| == |c.entries|
  {
    && |t.jobs| == |s.jobs| && t.visited == s.visited
    && forall i | 0 <= i < |s.jobs| && c.entries[i].FileEntry? && !s.jobs[i].MakingDir? ::
         !t.jobs[i].MakingDir? && (Announced(t.jobs[i]) ==> Announced(s.jobs[i]))
  }

  lemma OthersAnnounce(c: Config, s: State, a: Action)
    requires Enabled(c, s, a) && !IsJobAction(a)
    ensures NoneAnnounced(c, s, Step(c, s, a))
  {
    if a.MainPrepare? { PreparedQuiet(c, s, a.ok); }
    else if a.MainRead? { ReadQuiet(c, s, a.ok); }
    else if IsMainAction(a) { ReaderQuiet(c, s, a); }
    else { OutsideQuiet(c, s, a); }
  }

  lemma PreparedQuiet(c: Config, s: State, ok: bool)
    requires s.main.Preparing? && s.main.i < |s.jobs| == |c.entries|
    ensures NoneAnnounced(c, s, Prepared(c, s, ok))
  {
  }

  lemma ReadQuiet(c: Config, s: State, ok: bool)
    requires s.main.Reading? && s.main.i < |s.jobs| == |c.entries| && c.entries[s.main.i].FileEntry?
    ensures NoneAnnounced(c, s, ReadIn(c, s, ok))
  {
    if ok {
      var Reading(i, b) := s.main;
      var t := ReadIn(c, s, ok);
      assert t.jobs == s.jobs[i := Opening(|c.entries[i].content| < c.bufSize, b)];
    }
  }

  lemma ReaderQuiet(c: Config, s: State, a: Action)
    requires Enabled(c, s, a) && IsReaderAction(a)
    ensures Step(c, s, a).jobs == s.jobs && Step(c, s, a).visited == s.visited
  {
    match a
    case MainSelect => SelectedQuiet(s);
    case MainNext(ok) => HeaderQuiet(c, s, ok);
    case MainFinish(takeErr) => EndedQuiet(s, takeErr);
    case _ =>
  }

  lemma SelectedQuiet(s: State)
    ensures Selected(s).jobs == s.jobs && Selected(s).visited == s.visited
  {
  }

  lemma HeaderQuiet(c: Config, s: State, ok: bool)
    ensures NextHeader(c, s, ok).jobs == s.jobs && NextHeader(c, s, ok).visited == s.visited
  {
  }

  lemma EndedQuiet(s: State, takeErr: bool)
    ensures ReadEnded(s, takeErr).jobs == s.jobs && ReadEnded(s, takeErr).visited == s.visited
  {
  }

  lemma OutsideQuiet(c: Config, s: State, a: Action)
    requires Enabled(c, s, a) && !IsMainAction(a) && !IsJobAction(a)
    ensures Step(c, s, a).jobs == s.jobs && Step(c, s, a).visited == s.visited
  {
  }

  lemma RunAnnounces(c: Config, s: State, actions: seq<Action>, t: State)
    requires Init(c, s) && Run(Next(c), s, actions, t)
    ensures Announces(c, t)
  {
    forall u, a | Announces(c, u) && Next(c)(u, a).Some? ensures Announces(c, Next(c)(u, a).value) {
      AnnouncesStep(c, u, a);
    }
    RunKeeps(Next(c), u => Announces(c, u), s, actions, t);
  }

  /** In every interleaving a file that has been written and closed is announced; from then on an Open
      of it can get through at once to its full contents, unless the read has failed, and also while
      the reader is busy with other entries. */
  lemma WrittenOpens(c: Config, s: State, actions: seq<Action>, t: State, i: nat)
    requires DistinctNames(c) && Init(c, s) && Run(Next(c), s, actions, t)
    requires i < |t.jobs| == |c.entries| && c.entries[i].FileEntry? && Announced(t.jobs[i])
    ensures c.entries[i].name in t.visited
    ensures !t.unarchiveErr ==>
              Goes(Next(c), t, t.(openers := t.openers + [Got(c.entries[i].name, Some(c.entries[i].content))]))
  {
    InitInv(c, s);
    RunInv(c, s, actions, t);
    RunAnnounces(c, s, actions, t);
    assert AnnouncesFile(c, t, i) && FileProgress(c, t, i);
    if !t.unarchiveErr {
      assert Run(Next(c), t, [], t);
      OpenPasses(c, t, c.entries[i].name);
      OpenReads(c, t, c.entries[i].name);
    }
  }

  // ---------- a read in which nothing fails ----------

  predicate Successful(j: Job) {
    (j.Closing? || j.Releasing? || j.Reporting? || j.Leaving? || j.Ended?) ==> j.ok
  }

  ghost predicate NoFailure(s: State) {
    && (forall i | 0 <= i < |s.jobs| :: Successful(s.jobs[i]))
    && (forall o | 0 <= o < |s.openers| :: !s.openers[o].Rejected?)
    && !s.errs && !s.unarchiveErr && !s.external && !HasFailed(s.main) && (s.ctxDone ==> s.main.Finished?)
  }

  lemma NoFailureStep(c: Config, s: State, a: Action)
    requires MainInv(c, s) && NoFailure(s) && Enabled(c, s, a) && !Fails(a)
    ensures NoFailure(Step(c, s, a))
  {
    if IsJobAction(a) { NoFailureJob(c, s, a); } else if IsMainAction(a) { NoFailureMain(c, s, a); }
  }

  lemma NoFailureJob(c: Config, s: State, a: Action)
    requires MainInv(c, s) && NoFailure(s) && Enabled(c, s, a) && !Fails(a) && IsJobAction(a)
    ensures NoFailure(Step(c, s, a))
  {
    assert Successful(s.jobs[a.i]);
  }

  lemma NoFailureMain(c: Config, s: State, a: Action)
    requires NoFailure(s) && Enabled(c, s, a) && !Fails(a) && IsMainAction(a)
    ensures NoFailure(Step(c, s, a))
  {
  }

  lemma UnfailingInv(c: Config, s: State, actions: seq<Action>, t: State)
    requires DistinctNames(c) && Inv(c, s) && NoFailure(s) && Run(Unfailing(c), s, actions, t)
    ensures Inv(c, t) && NoFailure(t)
  {
    var inv := (u: State) => Inv(c, u) && NoFailure(u);
    forall u, a | inv(u) && Unfailing(c)(u, a).Some? ensures inv(Unfailing(c)(u, a).value) {
      InvStep(c, u, a);
      NoFailureStep(c, u, a);
    }
    RunKeeps(Unfailing(c), inv, s, actions, t);
  }

  /** Everything is there: each file with its contents. */
  ghost predicate AllThere(c: Config, t: State) {
    && |t.jobs| == |c.entries|
    && forall i | 0 <= i < |t.jobs| :: t.jobs[i] == Ended(true) &&
         (c.entries[i].FileEntry? ==>
            c.entries[i].name in t.files && t.files[c.entries[i].name] == c.entries[i].content)
  }

  /** When nothing fails, no Open is turned away, and the read ends in success with every entry there. */
  lemma UnfailingRead(c: Config, s: State, actions: seq<Action>, t: State)
    requires DistinctNames(c) && Init(c, s) && Run(Unfailing(c), s, actions, t)
    ensures !t.unarchiveErr && forall o | 0 <= o < |t.openers| :: !t.openers[o].Rejected?
    ensures t.main.Finished? ==> t.main == Finished(false) && AllThere(c, t)
  {
    InitInv(c, s);
    UnfailingInv(c, s, actions, t);
    if t.main.Finished? { AllEntriesThere(c, t); }
  }

  lemma AllEntriesThere(c: Config, t: State)
    requires Inv(c, t) && NoFailure(t) && t.main == Finished(false)
    ensures AllThere(c, t)
  {
    forall i | 0 <= i < |t.jobs|
      ensures t.jobs[i] == Ended(true)
      ensures c.entries[i].FileEntry? ==>
                c.entries[i].name in t.files && t.files[c.entries[i].name] == c.entries[i].content
    {
      assert Successful(t.jobs[i]);
      if c.entries[i].FileEntry? { assert FileProgress(c, t, i); }
    }
  }

  /** And the read does come to that end. */
  lemma ReadSucceeds(c: Config, s: State)
    requires DistinctNames(c) && Init(c, s) && 0 < c.maxBuffers
    ensures exists t :: Goes(Unfailing(c), s, t) && t.main == Finished(false) && AllThere(c, t)
  {
    assert Run(Next(c), s, [], s);
    ReadEnds(c, s, [], s);
    var t :| Goes(Unfailing(c), s, t) && t.main.Finished?;
    var actions :| Run(Unfailing(c), s, actions, t);
    UnfailingRead(c, s, actions, t);
  }

  // ---------- a read that fails ----------

  /** Once the reader has failed it stays so. */
  lemma FailedStays(c: Config, s: State, actions: seq<Action>, t: State)
    requires DistinctNames(c) && Inv(c, s) && HasFailed(s.main) && Run(Next(c), s, actions, t)
    ensures HasFailed(t.main)
  {
    var inv := (u: State) => Inv(c, u) && HasFailed(u.main);
    forall u, a | inv(u) && Next(c)(u, a).Some? ensures inv(Next(c)(u, a).value) {
      InvStep(c, u, a);
      FailedStep(c, u, a);
    }
    RunKeeps(Next(c), inv, s, actions, t);
  }

  lemma FailedStep(c: Config, s: State, a: Action)
    requires MainInv(c, s) && HasFailed(s.main) && Enabled(c, s, a)
    ensures HasFailed(Step(c, s, a).main)
  {
    if IsJobAction(a) { JobLeavesReader(c, s, a); }
  }

  /** A job that is not the reader's own does not move the reader. */
  lemma JobLeavesReader(c: Config, s: State, a: Action)
    requires MainInv(c, s) && Enabled(c, s, a) && IsJobAction(a) && !s.main.Foreground?
    ensures Step(c, s, a).main == s.main
  {
    assert !InForeground(s.jobs[a.i]);
  }

  /** A header that cannot be read, a directory that cannot be made or a short archive fails the whole
      read, and so does a job's error once the reader sees it. */
  lemma ReaderFails(c: Config, s: State, before: seq<Action>, t: State, a: Action, after: seq<Action>, u: State)
    requires DistinctNames(c) && Init(c, s) && Run(Next(c), s, before, t)
    requires Enabled(c, t, a) && Run(Next(c), Step(c, t, a), after, u)
    requires ((a.MainNext? || a.MainPrepare? || a.MainRead?) && !a.ok) ||
             (a.MainSelect? && t.errs) || a == MainFinish(true)
    ensures HasFailed(u.main)
  {
    InitInv(c, s);
    RunInv(c, s, before, t);
    InvStep(c, t, a);
    FailedStays(c, Step(c, t, a), after, u);
  }

  /** A call that fails under a job fails the job: its error is sent, or fails the reader that runs it. */
  lemma JobFails(c: Config, s: State, before: seq<Action>, t: State, a: Action, after: seq<Action>, u: State)
    requires DistinctNames(c) && Init(c, s) && Run(Next(c), s, before, t)
    requires Enabled(c, t, a) && Run(Next(c), Step(c, t, a), after, u)
    requires (a.JobOpen? || a.JobWrite? || a.JobCopy? || a.JobMakeDir?) && !a.ok
    ensures a.i < |u.jobs| && Doomed(u.jobs[a.i])
    ensures u.jobs[a.i].Leaving? || u.jobs[a.i].Ended? ==> u.errs || HasFailed(u.main)
  {
    InitInv(c, s);
    RunInv(c, s, before, t);
    InvStep(c, t, a);
    DoomedOnce(c, t, a);
    var inv := (v: State) => Inv(c, v) && a.i < |v.jobs| && Doomed(v.jobs[a.i]);
    forall v, b | inv(v) && Next(c)(v, b).Some? ensures inv(Next(c)(v, b).value) {
      InvStep(c, v, b);
      DoomedStays(c, v, b, a.i);
    }
    RunKeeps(Next(c), inv, Step(c, t, a), after, u);
    assert u.jobs[a.i].Leaving? || u.jobs[a.i].Ended? ==> Failed(u.jobs[a.i]);
  }

  lemma DoomedOnce(c: Config, s: State, a: Action)
    requires Enabled(c, s, a) && (a.JobOpen? || a.JobWrite? || a.JobCopy? || a.JobMakeDir?) && !a.ok
    ensures a.i < |Step(c, s, a).jobs| && Doomed(Step(c, s, a).jobs[a.i])
  {
  }

  lemma DoomedStays(c: Config, s: State, a: Action, i: nat)
    requires MainInv(c, s) && Enabled(c, s, a) && i < |s.jobs| && Doomed(s.jobs[i])
    ensures i < |Step(c, s, a).jobs| && Doomed(Step(c, s, a).jobs[i])
  {
    if IsJobAction(a) {
      OneJobMoves(c, s, a);
    } else if IsMainAction(a) {
      ReaderDooms(c, s, a, i);
    }
  }

  lemma ReaderDooms(c: Config, s: State, a: Action, i: nat)
    requires MainInv(c, s) && Enabled(c, s, a) && IsMainAction(a) && i < |s.jobs| && Doomed(s.jobs[i])
    ensures i < |Step(c, s, a).jobs| && Step(c, s, a).jobs[i] == s.jobs[i]
  {
    if a.MainPrepare? { PreparedDooms(c, s, a.ok, i); }
    else if a.MainRead? { ReadDooms(c, s, a.ok, i); }
    else { ReaderQuiet(c, s, a); }
  }

  lemma PreparedDooms(c: Config, s: State, ok: bool, i: nat)
    requires s.main.Preparing? && s.main.i < |s.jobs| == |c.entries| && i < |s.jobs| && i != s.main.i
    ensures i < |Prepared(c, s, ok).jobs| && Prepared(c, s, ok).jobs[i] == s.jobs[i]
  {
  }

  lemma ReadDooms(c: Config, s: State, ok: bool, i: nat)
    requires s.main.Reading? && s.main.i < |s.jobs| == |c.entries| && c.entries[s.main.i].FileEntry?
    requires i < |s.jobs| && i != s.main.i
    ensures i < |ReadIn(c, s, ok).jobs| && ReadIn(c, s, ok).jobs[i] == s.jobs[i]
  {
  }

  /** After the error is stored, no Open that is yet to come gets through. */
  lemma FailureTurnsAway(c: Config, s: State, before: seq<Action>, t: State, after: seq<Action>, u: State, o: nat)
    requires DistinctNames(c) && Init(c, s) && Run(Next(c), s, before, t) && t.unarchiveErr && Run(Next(c), t, after, u)
    requires |t.openers| <= o < |u.openers|
    ensures !u.openers[o].Passing? && !u.openers[o].Got?
  {
    InitInv(c, s);
    RunInv(c, s, before, t);
    var inv := (v: State) => Inv(c, v) && TurnsAway(v, |t.openers|);
    forall v, a | inv(v) && Next(c)(v, a).Some? ensures inv(Next(c)(v, a).value) {
      InvStep(c, v, a);
      TurnsAwayStep(c, v, a, |t.openers|);
    }
    RunKeeps(Next(c), inv, t, after, u);
  }

  ghost predicate TurnsAway(s: State, n: nat) {
    && s.unarchiveErr && n <= |s.openers|
    && forall o | n <= o < |s.openers| :: !s.openers[o].Passing? && !s.openers[o].Got?
  }

  lemma TurnsAwayStep(c: Config, s: State, a: Action, n: nat)
    requires MainInv(c, s) && EndInv(s) && TurnsAway(s, n) && Enabled(c, s, a)
    ensures TurnsAway(Step(c, s, a), n)
  {
    if IsJobAction(a) { OneJobMoves(c, s, a); } else if IsMainAction(a) { ReaderTurnsAway(c, s, a, n); }
  }

  lemma ReaderTurnsAway(c: Config, s: State, a: Action, n: nat)
    requires EndInv(s) && TurnsAway(s, n) && Enabled(c, s, a) && IsMainAction(a)
    ensures TurnsAway(Step(c, s, a), n)
  {
    assert a.MainStore? ==> !s.main.Returned?;
  }

  /** Once the context is cancelled no further entry is begun. */
  lemma CancelStops(c: Config, s: State, before: seq<Action>, t: State, after: seq<Action>, u: State, i: nat)
    requires DistinctNames(c) && Init(c, s) && Run(Next(c), s, before, t) && t.ctxDone && Run(Next(c), t, after, u)
    requires t.next <= i < |u.jobs|
    ensures u.jobs[i].Untouched?
  {
    InitInv(c, s);
    RunInv(c, s, before, t);
    var inv := (v: State) => Inv(c, v) && Stopping(v, t.next);
    forall v, a | inv(v) && Next(c)(v, a).Some? ensures inv(Next(c)(v, a).value) {
      InvStep(c, v, a);
      StoppingStep(c, v, a, t.next);
    }
    RunKeeps(Next(c), inv, t, after, u);
  }

  ghost predicate Stopping(s: State, n: nat) {
    && s.ctxDone && n <= s.next && (s.main.Buffering? || s.main.Reading? ==> s.main.i < n)
    && forall i | n <= i < |s.jobs| :: s.jobs[i].Untouched?
  }

  lemma StoppingStep(c: Config, s: State, a: Action, n: nat)
    requires MainInv(c, s) && Stopping(s, n) && Enabled(c, s, a)
    ensures Stopping(Step(c, s, a), n)
  {
    if IsJobAction(a) { JobStops(c, s, a, n); } else if IsMainAction(a) { ReaderStops(c, s, a, n); }
  }

  lemma JobStops(c: Config, s: State, a: Action, n: nat)
    requires MainInv(c, s) && Stopping(s, n) && Enabled(c, s, a) && IsJobAction(a)
    ensures Stopping(Step(c, s, a), n)
  {
    assert a.i < n;
    OneJobMoves(c, s, a);
  }

  lemma ReaderStops(c: Config, s: State, a: Action, n: nat)
    requires MainInv(c, s) && Stopping(s, n) && Enabled(c, s, a) && IsMainAction(a)
    ensures Stopping(Step(c, s, a), n)
  {
    match a
    case MainSelect => SelectedQuiet(s);
    case MainNext(ok) => HeaderStops(c, s, ok, n);
    case MainPrepare(ok) =>
    case MainRead(ok) => ReadStops(c, s, ok, n);
    case MainFinish(takeErr) => EndedQuiet(s, takeErr);
    case _ =>
  }

  lemma HeaderStops(c: Config, s: State, ok: bool, n: nat)
    requires Stopping(s, n) && s.main.AtNext?
    ensures Stopping(NextHeader(c, s, ok), n)
  {
  }

  lemma ReadStops(c: Config, s: State, ok: bool, n: nat)
    requires Stopping(s, n) && s.main.Reading? && s.main.i < |s.jobs| == |c.entries| && c.entries[s.main.i].FileEntry?
    ensures Stopping(ReadIn(c, s, ok), n)
  {
  }

  // ---------- an error that is dropped ----------

  lemma Only<T>(x: T, y: T)
    ensures [x][0 := y] == [y]
  {
  }

  /** One small file is read into a buffer and handed to a background goroutine... */
  const ONE_FILE := Config([FileEntry("a", [1])], 2, 1)

  function Handed(mem: map<Buffer, seq<byte>>): State {
    State(Selecting, 1, [Opening(true, 0)], 1, false, false, false, false, {}, map[], mem[0 := [1]], {}, 1, [])
  }

  lemma HandOver(s: State)
    requires Init(ONE_FILE, s)
    ensures Goes(Next(ONE_FILE), s, Handed(s.mem))
  {
    assert Run(Next(ONE_FILE), s, [], s);
    assert s.jobs == [Untouched];
    Then(Next(ONE_FILE), s, s, MainSelect);
    var t1 := s.(main := AtNext);
    Then(Next(ONE_FILE), s, t1, MainNext(true));
    var t2 := s.(main := Preparing(0), next := 1);
    Then(Next(ONE_FILE), s, t2, MainPrepare(true));
    var t3 := t2.(main := Buffering(0));
    Then(Next(ONE_FILE), s, t3, MainTakeBuffer(0));
    var t4 := t2.(main := Reading(0, 0), made := 1);
    assert {} - {0} == {};
    Then(Next(ONE_FILE), s, t4, MainRead(true));
    assert [Untouched][0 := Opening(true, 0)] == [Opening(true, 0)];
  }

  /** ...whose write fails, leaving an empty file... */
  function WriteFailed(mem: map<Buffer, seq<byte>>): State {
    Handed(mem).(jobs := [Reporting(false)], files := map["a" := []], free := {0})
  }

  function PartWritten(mem: map<Buffer, seq<byte>>, j: Job): State {
    Handed(mem).(jobs := [j], files := map["a" := []])
  }

  lemma FailWrite(s: State, mem: map<Buffer, seq<byte>>)
    requires Goes(Next(ONE_FILE), s, Handed(mem))
    ensures Goes(Next(ONE_FILE), s, PartWritten(mem, Closing(true, 0, false)))
  {
    Then(Next(ONE_FILE), s, Handed(mem), JobOpen(0, true));
    Only(Opening(true, 0), Writing(true, 0));
    var t := PartWritten(mem, Writing(true, 0));
    assert Handed(mem).files["a" := []] == map["a" := []];
    Then(Next(ONE_FILE), s, t, JobWrite(0, false, 0));
    Only(Writing(true, 0), Closing(true, 0, false));
    assert t.mem[0][..0] == [] && t.files["a" := []] == t.files;
  }

  lemma FreeBuffer(s: State, mem: map<Buffer, seq<byte>>)
    requires Goes(Next(ONE_FILE), s, PartWritten(mem, Closing(true, 0, false)))
    ensures Goes(Next(ONE_FILE), s, WriteFailed(mem))
  {
    Then(Next(ONE_FILE), s, PartWritten(mem, Closing(true, 0, false)), JobClose(0));
    Only(Closing(true, 0, false), Releasing(true, 0, false));
    Then(Next(ONE_FILE), s, PartWritten(mem, Releasing(true, 0, false)), JobRelease(0));
    Only(Releasing(true, 0, false), Reporting(false));
    assert {} + {0} == {0};
  }

  /** ...while the reader reaches the end... */
  function Failing(mem: map<Buffer, seq<byte>>): State {
    WriteFailed(mem).(main := Finishing)
  }

  lemma ReachEnd(s: State, mem: map<Buffer, seq<byte>>)
    requires Goes(Next(ONE_FILE), s, WriteFailed(mem))
    ensures Goes(Next(ONE_FILE), s, Failing(mem))
  {
    Then(Next(ONE_FILE), s, WriteFailed(mem), MainSelect);
    Then(Next(ONE_FILE), s, WriteFailed(mem).(main := AtNext), MainNext(true));
  }

  /** ...the error is sent, but the final select sees only that all goroutines are done... */
  function ErrorUnread(mem: map<Buffer, seq<byte>>): State {
    Failing(mem).(main := Returned(false), jobs := [Ended(false)], wg := 0, errs := true)
  }

  lemma FinishOverError(s: State, mem: map<Buffer, seq<byte>>)
    requires Goes(Next(ONE_FILE), s, Failing(mem))
    ensures Goes(Next(ONE_FILE), s, ErrorUnread(mem))
  {
    Then(Next(ONE_FILE), s, Failing(mem), JobReport(0));
    Only(Reporting(false), Leaving(false));
    var t1 := Failing(mem).(jobs := [Leaving(false)], errs := true);
    Then(Next(ONE_FILE), s, t1, JobLeave(0));
    Only(Leaving(false), Ended(false));
    var t2 := t1.(jobs := [Ended(false)], wg := 0);
    Then(Next(ONE_FILE), s, t2, MainFinish(false));
  }

  /** ...so that Open then returns the empty file without an error. */
  function EmptyFile(mem: map<Buffer, seq<byte>>, openers: seq<Opener>): State {
    ErrorUnread(mem).(main := Finished(false), ctxDone := true, openers := openers)
  }

  lemma OpenAfter(s: State, mem: map<Buffer, seq<byte>>)
    requires Goes(Next(ONE_FILE), s, ErrorUnread(mem))
    ensures Goes(Next(ONE_FILE), s, EmptyFile(mem, []))
  {
    Then(Next(ONE_FILE), s, ErrorUnread(mem), MainStore);
    Then(Next(ONE_FILE), s, ErrorUnread(mem).(main := Stored(false)), MainCancel);
  }

  /** The last case of OpenSeesFullFiles does happen: an Open can get a file that was not written. */
  lemma DroppedError(s: State)
    requires Init(ONE_FILE, s)
    ensures exists actions, t :: Run(Next(ONE_FILE), s, actions, t) && !t.external && t.openers == [Got("a", Some([]))]
  {
    HandOver(s);
    FailWrite(s, s.mem);
    FreeBuffer(s, s.mem);
    ReachEnd(s, s.mem);
    FinishOverError(s, s.mem);
    OpenAfter(s, s.mem);
    var u, t := EmptyFile(s.mem, []), EmptyFile(s.mem, [Got("a", Some([]))]);
    var before :| Run(Next(ONE_FILE), s, before, u);
    AnyOpenGetsThrough(ONE_FILE, s, before, u, "a");
    assert u.openers + [Got("a", Some([]))] == t.openers;
    var opening :| Run(Next(ONE_FILE), u, opening, t);
    RunConcat(Next(ONE_FILE), s, before, u, opening, t);
  }
}
