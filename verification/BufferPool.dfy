/** The tar reader's buffer pool as a step relation: any number of goroutines taking buffers
    with Wait and giving them back with Done, with every atomic load, compare-and-swap and
    channel operation a step of its own. */
module BufferPool {
  import opened Runs
  import opened Wrappers

  type Buffer = nat  // buffers are numbered as they are made

  /** `since` is how many buffers there were when this Wait found none. */
  datatype Pc =
    | Idle
    | Loading(since: nat)              // addBuffer: about to load count
    | Swapping(since: nat, seen: nat)  // about to compare-and-swap from the count it saw
    | Sending(since: nat, buf: Buffer) // made a buffer, about to send it to the channel
    | Receiving(since: nat)            // in the final, blocking receive of Wait
    | Holding(buf: Buffer)
    | Returning(buf: Buffer)           // Done: about to send the buffer back

  datatype State = State(count: nat, queue: seq<Buffer>, capacity: nat, users: seq<Pc>)

  datatype Action = TryReceive | Load | Swap | Send | Receive | Release | Return

  /** newBufferPool: one buffer, and room for at least one. */
  predicate Init(s: State, maxBuffers: nat) {
    && s.capacity == (if maxBuffers == 0 then 1 else maxBuffers)
    && s.count == 1 && s.queue == [0]
    && forall u | 0 <= u < |s.users| :: s.users[u].Idle?
  }

  /** The user is at the action's statement. */
  predicate At(s: State, u: nat, a: Action) {
    u < |s.users| &&
    match a
    case TryReceive => s.users[u].Idle?
    case Load => s.users[u].Loading?
    case Swap => s.users[u].Swapping?
    case Send => s.users[u].Sending?
    case Receive => s.users[u].Receiving?
    case Release => s.users[u].Holding?
    case Return => s.users[u].Returning?
  }

  /** A channel receive waits for an element, a send for a free slot. */
  predicate Ready(s: State, u: nat, a: Action) {
    At(s, u, a) &&
    match a
    case Receive => s.queue != []
    case Send | Return => |s.queue| < s.capacity
    case _ => true
  }

  function Step(s: State, u: nat, a: Action): State
    requires Ready(s, u, a)
  {
    match a
    case TryReceive =>
      if s.queue != [] then s.(queue := s.queue[1..], users := s.users[u := Holding(s.queue[0])])
      else s.(users := s.users[u := Loading(s.count)])
    case Load =>
      var since := s.users[u].since;
      s.(users := s.users[u := if s.count == s.capacity then Receiving(since) else Swapping(since, s.count)])
    case Swap =>
      var since := s.users[u].since;
      if s.count == s.users[u].seen
      then s.(count := s.count + 1, users := s.users[u := Sending(since, s.count)])
      else s.(users := s.users[u := Loading(since)])
    case Send => s.(queue := s.queue + [s.users[u].buf], users := s.users[u := Receiving(s.users[u].since)])
    case Receive => s.(queue := s.queue[1..], users := s.users[u := Holding(s.queue[0])])
    case Release => s.(users := s.users[u := Returning(s.users[u].buf)])
    case Return => s.(queue := s.queue + [s.users[u].buf], users := s.users[u := Idle])
  }

  // ---------- conservation ----------

  predicate Carries(pc: Pc) {
    pc.Sending? || pc.Holding? || pc.Returning?
  }

  function Has(pc: Pc, b: Buffer): nat {
    if Carries(pc) && pc.buf == b then 1 else 0
  }

  /** In how many users' hands the buffer is. */
  function InHands(users: seq<Pc>, b: Buffer): nat {
    if users == [] then 0 else InHands(users[..|users| - 1], b) + Has(users[|users| - 1], b)
  }

  /** How many users have a buffer in hand. */
  function HandCount(users: seq<Pc>): nat {
    if users == [] then 0 else HandCount(users[..|users| - 1]) + if Carries(users[|users| - 1]) then 1 else 0
  }

  function InQueue(queue: seq<Buffer>, b: Buffer): nat {
    multiset(queue)[b]
  }

  /** The buffer is in exactly one place, if it has been made. */
  ghost predicate InOnePlace(s: State, b: Buffer) {
    InQueue(s.queue, b) + InHands(s.users, b) == if b < s.count then 1 else 0
  }

  /** The count is right, and every buffer ever made is in exactly one place. */
  ghost predicate Inv(s: State) {
    && 1 <= s.count <= s.capacity
    && s.count == |s.queue| + HandCount(s.users)
    && (forall b: Buffer :: InOnePlace(s, b))
    && (forall u | 0 <= u < |s.users| && s.users[u].Swapping? :: s.users[u].seen < s.capacity)
    && forall u | 0 <= u < |s.users| :: HasGrown(s, s.users[u])
  }

  /** A Wait that found no buffer goes to sleep only after the pool has grown, or at its maximum. */
  predicate HasGrown(s: State, pc: Pc) {
    match pc
    case Loading(since) => since <= s.count
    case Swapping(since, seen) => since <= seen <= s.count
    case Sending(since, _) => since < s.count
    case Receiving(since) => since < s.count || s.count == s.capacity
    case _ => true
  }

  lemma {:induction false} HandsUpdate(users: seq<Pc>, u: nat, pc: Pc)
    requires u < |users|
    ensures HandCount(users[u := pc]) ==
            HandCount(users) - (if Carries(users[u]) then 1 else 0) + if Carries(pc) then 1 else 0
    ensures Carries(users[u]) ==> 0 < HandCount(users)
    decreases |users|
  {
    var n := |users| - 1;
    if u < n {
      HandsUpdate(users[..n], u, pc);
      assert users[u := pc][..n] == users[..n][u := pc];
    } else {
      assert users[u := pc][..n] == users[..n];
    }
  }

  lemma {:induction false} HandsUpdateAt(users: seq<Pc>, u: nat, pc: Pc, b: Buffer)
    requires u < |users|
    ensures Has(users[u], b) <= InHands(users, b)
    ensures InHands(users[u := pc], b) == InHands(users, b) - Has(users[u], b) + Has(pc, b)
    decreases |users|
  {
    var n := |users| - 1;
    if u < n {
      HandsUpdateAt(users[..n], u, pc, b);
      assert users[u := pc][..n] == users[..n][u := pc];
    } else {
      assert users[u := pc][..n] == users[..n];
    }
  }

  lemma {:induction false} IdleHands(users: seq<Pc>, b: Buffer)
    requires forall u | 0 <= u < |users| :: users[u].Idle?
    ensures HandCount(users) == 0 && InHands(users, b) == 0
  {
    if users != [] { IdleHands(users[..|users| - 1], b); }
  }

  lemma InitInv(s: State, maxBuffers: nat)
    requires Init(s, maxBuffers)
    ensures Inv(s)
  {
    forall b: Buffer ensures InOnePlace(s, b) {
      IdleHands(s.users, b);
    }
    IdleHands(s.users, 0);
  }

  lemma QueueChange(queue: seq<Buffer>, b: Buffer, c: Buffer)
    ensures InQueue(queue + [c], b) == InQueue(queue, b) + if b == c then 1 else 0
    ensures queue != [] ==> InQueue(queue[1..], b) == InQueue(queue, b) - if b == queue[0] then 1 else 0
  {
    if queue != [] { assert queue == [queue[0]] + queue[1..]; }
  }

  lemma PlaceStep(s: State, u: nat, a: Action, b: Buffer)
    requires Ready(s, u, a) && InOnePlace(s, b)
    ensures InOnePlace(Step(s, u, a), b)
  {
    HandsUpdateAt(s.users, u, Step(s, u, a).users[u], b);
    QueueChange(s.queue, b, if Carries(s.users[u]) then s.users[u].buf else 0);
  }

  lemma InvStep(s: State, u: nat, a: Action)
    requires Inv(s) && Ready(s, u, a)
    ensures Inv(Step(s, u, a)) && Step(s, u, a).capacity == s.capacity
  {
    var t := Step(s, u, a);
    HandsUpdate(s.users, u, t.users[u]);
    assert forall b: Buffer :: InOnePlace(t, b) by {
      forall b: Buffer ensures InOnePlace(t, b) {
        PlaceStep(s, u, a, b);
      }
    }
  }

  // ---------- whole runs ----------

  datatype Move = Move(u: nat, a: Action)

  function Next(): (State, Move) -> Option<State> {
    (s: State, m: Move) => if Ready(s, m.u, m.a) then Some(Step(s, m.u, m.a)) else None
  }

  lemma RunInv(s: State, moves: seq<Move>, t: State)
    requires Inv(s) && Run(Next(), s, moves, t)
    ensures Inv(t) && t.capacity == s.capacity
  {
    var inv := (u: State) => Inv(u) && u.capacity == s.capacity;
    forall u: State, m: Move | inv(u) && Next()(u, m).Some? ensures inv(Next()(u, m).value) {
      InvStep(u, m.u, m.a);
    }
    RunKeeps(Next(), inv, s, moves, t);
  }

  /** In every interleaving: the count is the queued buffers and those in hand, within bounds;
      no send ever finds the channel full; no two users have the same buffer; and a Wait that
      blocks does so only because some buffer is in hand and will come back. */
  lemma Conserved(s: State, maxBuffers: nat, moves: seq<Move>, t: State)
    requires Init(s, maxBuffers) && Run(Next(), s, moves, t)
    ensures t.count == |t.queue| + HandCount(t.users) && 1 <= t.count <= t.capacity == s.capacity
    ensures forall u | At(t, u, Send) :: Ready(t, u, Send)
    ensures forall u | At(t, u, Return) :: Ready(t, u, Return)
    ensures forall u | At(t, u, Receive) && !Ready(t, u, Receive) :: 0 < HandCount(t.users)
    ensures forall u, v | 0 <= u < v < |t.users| && Carries(t.users[u]) && Carries(t.users[v]) ::
            t.users[u].buf != t.users[v].buf
    ensures forall u | 0 <= u < |t.users| && Carries(t.users[u]) ::
            t.users[u].buf !in t.queue && t.users[u].buf < t.count
  {
    InitInv(s, maxBuffers);
    RunInv(s, moves, t);
    forall u: nat | u < |t.users| && Carries(t.users[u])
      ensures 0 < HandCount(t.users) && t.users[u].buf !in t.queue && t.users[u].buf < t.count
    {
      HandsUpdate(t.users, u, Idle);
      HandsUpdateAt(t.users, u, Idle, t.users[u].buf);
      assert InOnePlace(t, t.users[u].buf);
      assert InQueue(t.queue, t.users[u].buf) == 0;
    }
    forall u: nat, v: nat | u < v < |t.users| && Carries(t.users[u]) && Carries(t.users[v])
      ensures t.users[u].buf != t.users[v].buf
    {
      var b := t.users[u].buf;
      HandsUpdateAt(t.users, u, Idle, b);
      HandsUpdateAt(t.users[u := Idle], v, Idle, b);
      assert InOnePlace(t, b);
    }
  }

  /** In every interleaving a Wait that found no buffer has, by the time it blocks, seen the pool grow,
      or the pool is at its maximum. */
  lemma Grows(s: State, maxBuffers: nat, moves: seq<Move>, t: State, u: nat)
    requires Init(s, maxBuffers) && Run(Next(), s, moves, t) && At(t, u, Receive)
    ensures t.users[u].since < t.count || t.count == t.capacity
  {
    InitInv(s, maxBuffers);
    RunInv(s, moves, t);
    assert HasGrown(t, t.users[u]);
  }

  /** Left to itself, a Wait gets the first queued buffer, or makes one where there is room. */
  lemma WaitAlone(s: State, u: nat)
    requires Inv(s) && At(s, u, TryReceive) && (s.queue != [] || s.count < s.capacity)
    ensures Goes(Next(), s, if s.queue != []
                            then s.(queue := s.queue[1..], users := s.users[u := Holding(s.queue[0])])
                            else s.(count := s.count + 1, users := s.users[u := Holding(s.count)]))
  {
    assert Run(Next(), s, [], s);
    Then(Next(), s, s, Move(u, TryReceive));
    if s.queue == [] { Provisions(s, u); }
  }

  lemma Provisions(s: State, u: nat)
    requires u < |s.users| && s.queue == [] && s.count < s.capacity
    requires Goes(Next(), s, s.(users := s.users[u := Loading(s.count)]))
    ensures Goes(Next(), s, s.(count := s.count + 1, users := s.users[u := Holding(s.count)]))
  {
    var n, us := s.count, s.users;
    Then(Next(), s, s.(users := us[u := Loading(n)]), Move(u, Load));
    assert us[u := Loading(n)][u := Swapping(n, n)] == us[u := Swapping(n, n)];
    Then(Next(), s, s.(users := us[u := Swapping(n, n)]), Move(u, Swap));
    assert us[u := Swapping(n, n)][u := Sending(n, n)] == us[u := Sending(n, n)];
    Then(Next(), s, s.(count := n + 1, users := us[u := Sending(n, n)]), Move(u, Send));
    assert us[u := Sending(n, n)][u := Receiving(n)] == us[u := Receiving(n)] && s.queue + [n] == [n];
    var t := s.(count := n + 1, queue := [n], users := us[u := Receiving(n)]);
    Then(Next(), s, t, Move(u, Receive));
    assert us[u := Receiving(n)][u := Holding(n)] == us[u := Holding(n)] && [n][1..] == s.queue;
  }

  /** And Done puts the buffer at the end of the queue. */
  lemma DoneAlone(s: State, u: nat)
    requires Inv(s) && At(s, u, Release)
    ensures Goes(Next(), s, s.(queue := s.queue + [s.users[u].buf], users := s.users[u := Idle]))
  {
    var b, us := s.users[u].buf, s.users;
    assert Run(Next(), s, [], s);
    Then(Next(), s, s, Move(u, Release));
    var t := s.(users := us[u := Returning(b)]);
    HandsUpdate(us, u, Idle);
    assert Ready(t, u, Return);
    Then(Next(), s, t, Move(u, Return));
    assert us[u := Returning(b)][u := Idle] == us[u := Idle];
  }

  // ---------- memory ----------

  const MEBIBYTE: nat := 0x10_0000
  const KIBIBYTE: nat := 0x400
  const MAX_MEMORY: nat := 20 * MEBIBYTE
  const BIG_BUF_MEMORY: nat := 4 * MEBIBYTE
  const SMALL_BUF_MEMORY: nat := 150 * KIBIBYTE
  const BIG_BUF_COUNT: nat := 2
  const SMALL_BUF_COUNT: nat := (MAX_MEMORY - BIG_BUF_COUNT * BIG_BUF_MEMORY) / SMALL_BUF_MEMORY

  /** The reader's two pools together never exceed its memory limit. */
  lemma MemoryBound(s: State, b: State, small: seq<Move>, big: seq<Move>, s': State, b': State)
    requires Init(s, SMALL_BUF_COUNT) && Run(Next(), s, small, s')
    requires Init(b, BIG_BUF_COUNT) && Run(Next(), b, big, b')
    ensures s'.count * SMALL_BUF_MEMORY + b'.count * BIG_BUF_MEMORY <= MAX_MEMORY
  {
    Conserved(s, SMALL_BUF_COUNT, small, s');
    Conserved(b, BIG_BUF_COUNT, big, b');
    assert SMALL_BUF_COUNT == 81;
    assert s'.count <= 81 && b'.count <= 2;
  }
}
