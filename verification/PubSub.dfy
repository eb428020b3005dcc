/** The tar reader's pubsub: Emit and Wait as a step relation.  Each call of either is an
    actor with its own program counter; a step is one critical section, one cancel, or one
    wake-up, taken by any actor at any time. */
module PubSub {
  import opened Runs
  import opened Wrappers

  type Key(==) = string
  type Call = nat  // the calls of Emit are numbered as they start, and so are those of Wait

  datatype EmitPc =
    | Checked(key: Key)                             // read "not visited" under the read lock
    | Cancelling(key: Key, pending: seq<Call>)      // took the subscribers, cancelling them in turn
    | Finished(key: Key)

  datatype WaitPc =
    | Entering(key: Key)   // found the context alive, about to take the lock
    | Blocked(key: Key)    // subscribed; in the final select
    | Returned(key: Key)

  datatype State = State(
    visited: set<Key>,
    subscribers: map<Key, seq<Call>>,
    emits: seq<EmitPc>,
    waits: seq<WaitPc>,
    cancelled: set<Call>,  // Wait calls whose own context was cancelled by an Emit
    ctxDone: bool
  )

  datatype Action =
    | EmitCheck(key: Key)
    | EmitTake(e: Call)
    | EmitCancel(e: Call)
    | EmitEnd(e: Call)
    | WaitCheck(key: Key)
    | WaitSubscribe(w: Call)
    | WaitWake(w: Call)
    | CancelContext

  predicate Init(s: State) {
    s == State({}, map[], [], [], {}, false)
  }

  function Subscribers(s: State, key: Key): seq<Call> {
    if key in s.subscribers then s.subscribers[key] else []
  }

  predicate Enabled(s: State, a: Action) {
    match a
    case EmitCheck(_) => true
    case EmitTake(e) => e < |s.emits| && s.emits[e].Checked?
    case EmitCancel(e) => e < |s.emits| && s.emits[e].Cancelling? && s.emits[e].pending != []
    case EmitEnd(e) => e < |s.emits| && s.emits[e].Cancelling? && s.emits[e].pending == []
    case WaitCheck(_) => true
    case WaitSubscribe(w) => w < |s.waits| && s.waits[w].Entering?
    case WaitWake(w) => w < |s.waits| && s.waits[w].Blocked? && (s.ctxDone || w in s.cancelled)
    case CancelContext => true
  }

  function Step(s: State, a: Action): State
    requires Enabled(s, a)
  {
    match a
    case EmitCheck(key) =>
      s.(emits := s.emits + [if key in s.visited then Finished(key) else Checked(key)])
    case EmitTake(e) =>
      var key := s.emits[e].key;
      s.(visited := s.visited + {key},
         subscribers := s.subscribers[key := []],
         emits := s.emits[e := Cancelling(key, Subscribers(s, key))])
    case EmitCancel(e) =>
      var Cancelling(key, pending) := s.emits[e];
      s.(cancelled := s.cancelled + {pending[0]}, emits := s.emits[e := Cancelling(key, pending[1..])])
    case EmitEnd(e) => s.(emits := s.emits[e := Finished(s.emits[e].key)])
    case WaitCheck(key) =>
      s.(waits := s.waits + [if s.ctxDone then Returned(key) else Entering(key)])
    case WaitSubscribe(w) =>
      var key := s.waits[w].key;
      if key in s.visited then s.(waits := s.waits[w := Returned(key)])
      else s.(subscribers := s.subscribers[key := Subscribers(s, key) + [w]], waits := s.waits[w := Blocked(key)])
    case WaitWake(w) => s.(waits := s.waits[w := Returned(s.waits[w].key)])
    case CancelContext => s.(ctxDone := true)
  }

  // ---------- the invariant ----------

  /** The waiter called Wait on this key and has got as far as subscribing. */
  ghost predicate Subscribed(s: State, w: Call, key: Key) {
    w < |s.waits| && (s.waits[w] == Blocked(key) || s.waits[w] == Returned(key))
  }

  ghost predicate Owes(s: State, e: Call, key: Key, w: Call) {
    e < |s.emits| && s.emits[e].Cancelling? && s.emits[e].key == key && w in s.emits[e].pending
  }

  /** A sleeping waiter is either still subscribed to an unvisited key or on some emitter's list. */
  ghost predicate Accounted(s: State, w: Call) {
    w < |s.waits| && s.waits[w].Blocked? && w !in s.cancelled ==>
      var key := s.waits[w].key;
      if key in s.visited then exists e: Call :: Owes(s, e, key, w) else w in Subscribers(s, key)
  }

  /** Whoever is on a list has subscribed under that key: a key's own list... */
  ghost predicate ListsOk(s: State) {
    && (forall key | key in s.visited :: Subscribers(s, key) == [])
    && (forall key, w: Call | w in Subscribers(s, key) :: Subscribed(s, w, key))
  }

  /** ...or an emitter's, which has visited the key. */
  ghost predicate OwedOk(s: State) {
    && (forall e: Call, key, w: Call | Owes(s, e, key, w) :: Subscribed(s, w, key))
    && (forall e | 0 <= e < |s.emits| && !s.emits[e].Checked? :: s.emits[e].key in s.visited)
  }

  /** Only waiters on visited keys are cancelled, and only they return before the context is done. */
  ghost predicate WakesOk(s: State) {
    && (forall w | w in s.cancelled :: w < |s.waits| && !s.waits[w].Entering? && s.waits[w].key in s.visited)
    && (forall w | 0 <= w < |s.waits| && s.waits[w].Returned? :: s.waits[w].key in s.visited || s.ctxDone)
  }

  ghost predicate Inv(s: State) {
    && ListsOk(s) && OwedOk(s) && WakesOk(s)
    && (forall w: Call :: Accounted(s, w))
  }

  lemma InvStep(s: State, a: Action)
    requires Inv(s) && Enabled(s, a)
    ensures Inv(Step(s, a))
  {
    ListsStep(s, a);
    OwedStep(s, a);
    WakesStep(s, a);
    forall w: Call ensures Accounted(Step(s, a), w) {
      AccountedStep(s, a, w);
    }
  }

  lemma ListsStep(s: State, a: Action)
    requires ListsOk(s) && Enabled(s, a)
    ensures ListsOk(Step(s, a))
  {
    var t := Step(s, a);
    forall key, w: Call | w in Subscribers(t, key) ensures Subscribed(t, w, key) {
      assert w in Subscribers(s, key) || (a == WaitSubscribe(w) && s.waits[w].key == key);
    }
  }

  lemma OwedStep(s: State, a: Action)
    requires ListsOk(s) && OwedOk(s) && Enabled(s, a)
    ensures OwedOk(Step(s, a))
  {
    var t := Step(s, a);
    forall e: Call, key, w: Call | Owes(t, e, key, w) ensures Subscribed(t, w, key) {
      assert Owes(s, e, key, w) || (a == EmitTake(e) && w in Subscribers(s, key));
    }
  }

  lemma WakesStep(s: State, a: Action)
    requires OwedOk(s) && WakesOk(s) && Enabled(s, a)
    ensures WakesOk(Step(s, a))
  {
    if a.EmitCancel? {
      assert Owes(s, a.e, s.emits[a.e].key, s.emits[a.e].pending[0]);
    }
  }

  lemma AccountedStep(s: State, a: Action, w: Call)
    requires Inv(s) && Enabled(s, a)
    ensures Accounted(Step(s, a), w)
  {
    var t := Step(s, a);
    assert Accounted(s, w);
    if w < |t.waits| && t.waits[w].Blocked? && w !in t.cancelled {
      var key := t.waits[w].key;
      if a != WaitSubscribe(w) && key in s.visited {
        var e: Call :| Owes(s, e, key, w);
        assert Owes(t, e, key, w) by {
          if a == EmitCancel(e) { assert w != s.emits[e].pending[0]; }
        }
      } else if a.EmitTake? && s.emits[a.e].key == key {
        assert Owes(t, a.e, key, w);
      }
    }
  }

  // ---------- whole runs ----------

  function Next(): (State, Action) -> Option<State> {
    (s, a) => if Enabled(s, a) then Some(Step(s, a)) else None
  }

  lemma RunInv(s: State, actions: seq<Action>, t: State)
    requires Inv(s) && Run(Next(), s, actions, t)
    ensures Inv(t)
  {
    forall u, a | Inv(u) && Next()(u, a).Some? ensures Inv(Next()(u, a).value) {
      InvStep(u, a);
    }
    RunKeeps(Next(), u => Inv(u), s, actions, t);
  }

  /** In every interleaving: a visited key has no subscribers left, Wait returns only once its
      key is visited or the context is done, and no sleeping waiter has been forgotten. */
  lemma NoLostWakeup(s: State, actions: seq<Action>, t: State)
    requires Init(s) && Run(Next(), s, actions, t)
    ensures forall key | key in t.visited :: Subscribers(t, key) == []
    ensures forall w | 0 <= w < |t.waits| && t.waits[w].Returned? :: t.waits[w].key in t.visited || t.ctxDone
    ensures forall w | 0 <= w < |t.waits| && t.waits[w].Blocked? && t.waits[w].key in t.visited ::
              Enabled(t, WaitWake(w)) || exists e: Call :: Owes(t, e, t.waits[w].key, w) && Enabled(t, EmitCancel(e))
  {
    RunInv(s, actions, t);
    forall w | 0 <= w < |t.waits| && t.waits[w].Blocked? && t.waits[w].key in t.visited
      ensures Enabled(t, WaitWake(w)) || exists e: Call :: Owes(t, e, t.waits[w].key, w) && Enabled(t, EmitCancel(e))
    {
      assert Accounted(t, w);
      if w !in t.cancelled {
        var e: Call :| Owes(t, e, t.waits[w].key, w);
        assert Enabled(t, EmitCancel(e));
      }
    }
  }

  /** In every interleaving an Emit that has returned has visited its key, and one that has not can go
      on, whatever the others do. */
  lemma EmitVisits(s: State, actions: seq<Action>, t: State, e: Call)
    requires Init(s) && Run(Next(), s, actions, t) && e < |t.emits|
    ensures t.emits[e].Finished? ==> t.emits[e].key in t.visited
    ensures !t.emits[e].Finished? ==> Enabled(t, EmitTake(e)) || Enabled(t, EmitCancel(e)) || Enabled(t, EmitEnd(e))
  {
    RunInv(s, actions, t);
  }

  /** A visited key stays visited, and emitting it again does nothing. */
  lemma EmitAgain(s: State, a: Action, key: Key)
    requires Enabled(s, a) && key in s.visited
    ensures key in Step(s, a).visited
    ensures Step(s, EmitCheck(key)) == s.(emits := s.emits + [Finished(key)])
  {
  }

  /** A Wait that begins when its key is visited or the context is done returns without sleeping. */
  lemma WaitReturns(s: State, key: Key)
    requires key in s.visited || s.ctxDone
    ensures Goes(Next(), s, s.(waits := s.waits + [Returned(key)]))
  {
    assert Run(Next(), s, [], s);
    Then(Next(), s, s, WaitCheck(key));
    if !s.ctxDone {
      var t := s.(waits := s.waits + [Entering(key)]);
      Then(Next(), s, t, WaitSubscribe(|s.waits|));
      assert t.waits[|s.waits| := Returned(key)] == s.waits + [Returned(key)];
    }
  }

  /** When the context is done every sleeper can wake. */
  lemma AllWake(s: State, w: Call)
    requires w < |s.waits| && s.waits[w].Blocked? && s.ctxDone
    ensures Enabled(s, WaitWake(w)) && Step(s, WaitWake(w)).waits[w] == Returned(s.waits[w].key)
  {
  }

  // ---------- draining ----------

  /** How many cancels the emitters of a key still have to make. */
  function Debt(emits: seq<EmitPc>, key: Key): nat {
    if emits == [] then 0 else Debt(emits[..|emits| - 1], key) + OwedBy(emits[|emits| - 1], key)
  }

  function OwedBy(pc: EmitPc, key: Key): nat {
    if pc.Cancelling? && pc.key == key then |pc.pending| else 0
  }

  lemma {:induction false} DebtUpdate(emits: seq<EmitPc>, e: Call, pc: EmitPc, key: Key)
    requires e < |emits|
    ensures Debt(emits[e := pc], key) == Debt(emits, key) + OwedBy(pc, key) - OwedBy(emits[e], key)
    decreases |emits|
  {
    var n := |emits| - 1;
    if e < n {
      DebtUpdate(emits[..n], e, pc, key);
      assert emits[e := pc][..n] == emits[..n][e := pc];
    } else {
      assert emits[e := pc][..n] == emits[..n];
    }
  }

  /** Once a key is visited its debt never grows, and each cancel for it pays one off. */
  lemma DebtStep(s: State, a: Action, key: Key)
    requires Inv(s) && Enabled(s, a) && key in s.visited
    ensures Debt(Step(s, a).emits, key) ==
            Debt(s.emits, key) - if a.EmitCancel? && s.emits[a.e].key == key then 1 else 0
  {
    var t := Step(s, a);
    match a
    case EmitCheck(k) => assert t.emits[..|t.emits| - 1] == s.emits;
    case EmitTake(e) => DebtUpdate(s.emits, e, t.emits[e], key);
    case EmitCancel(e) => DebtUpdate(s.emits, e, t.emits[e], key);
    case EmitEnd(e) => DebtUpdate(s.emits, e, t.emits[e], key);
    case _ =>
  }

  /** How many of the actions cancel a waiter of the key. */
  ghost function Cancels(s: State, actions: seq<Action>, t: State, key: Key): nat
    requires Run(Next(), s, actions, t)
    decreases |actions|
  {
    if actions == [] then 0 else
      (if actions[0].EmitCancel? && s.emits[actions[0].e].key == key then 1 else 0) +
      Cancels(Step(s, actions[0]), actions[1..], t, key)
  }

  lemma {:induction false} DebtRun(s: State, actions: seq<Action>, t: State, key: Key)
    requires Inv(s) && Run(Next(), s, actions, t) && key in s.visited
    ensures key in t.visited && Debt(t.emits, key) == Debt(s.emits, key) - Cancels(s, actions, t, key)
    decreases |actions|
  {
    if actions != [] {
      InvStep(s, actions[0]);
      DebtStep(s, actions[0], key);
      DebtRun(Step(s, actions[0]), actions[1..], t, key);
    }
  }

  lemma {:induction false} OwedWithinDebt(emits: seq<EmitPc>, e: Call, key: Key)
    requires e < |emits|
    ensures OwedBy(emits[e], key) <= Debt(emits, key)
    decreases |emits|
  {
    if e < |emits| - 1 { OwedWithinDebt(emits[..|emits| - 1], e, key); }
  }

  /** Draining: whatever else happens meanwhile, after as many cancels as were owed for a visited
      key, every Wait on it has returned or can return at once. */
  lemma Drained(s: State, actions: seq<Action>, t: State, key: Key)
    requires Inv(s) && Run(Next(), s, actions, t) && key in s.visited
    requires Debt(s.emits, key) <= Cancels(s, actions, t, key)
    ensures forall w | 0 <= w < |t.waits| && t.waits[w] == Blocked(key) :: Enabled(t, WaitWake(w))
  {
    RunInv(s, actions, t);
    DebtRun(s, actions, t, key);
    forall w | 0 <= w < |t.waits| && t.waits[w] == Blocked(key) ensures Enabled(t, WaitWake(w)) {
      assert Accounted(t, w);
      forall e: Call ensures !Owes(t, e, key, w) {
        if e < |t.emits| { OwedWithinDebt(t.emits, e, key); }
      }
    }
  }
}
