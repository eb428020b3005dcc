/** Transactions run one operation at a time: the fallback for stores without transactions, and
    the one of the in-memory store.  A caller issues Gets and Sets; each may carry a handler that
    sees the outcome and may issue further operations, or abort, before the next one is issued.
    What follows an operation may depend on its outcome and on all that its handler saw.
    Operations are numbered as they are issued, but finish innermost first. */
module SerialTxn {
  import opened ByteType
  import opened Wrappers

  datatype Error = Nil | NotExist | Canceled | Failed(what: string)

  type Record = seq<byte>

  /** What is stored: a record, nothing (a removal), or a record whose data cannot be read. */
  datatype Source = Remove | Data(value: Record) | Unreadable

  datatype Op = Get(path: string) | Set(path: string, src: Source)

  datatype Outcome = Outcome(record: Option<Record>, err: Error)

  /** How code ends: the error it returns, and the notes it leaves in the variables it shares with
      the code around it. */
  datatype End = End(err: Error, notes: string)

  /** What the issuer of an operation knows when it goes on. */
  datatype Seen = Seen(outcome: Outcome, notes: string)

  /** The code of a caller or of a handler, up to Commit.  A handler is given by what it does for
      each outcome; for an outcome that is not listed it does nothing, as plain Get and Set.  What
      comes after the operation is given for what may be seen by then; it is rest for all that is
      not listed, and after an operation that was refused. */
  datatype Code =
    | Return(end: End)
    | Abort(rest: Code)
    | Issue(op: Op, handler: map<Outcome, Code>, after: map<Seen, Code>, rest: Code)

  datatype OpResult = OpResult(op: nat, record: Option<Record>, err: Error)

  /** The store's answer to one operation. */
  function Answer(store: map<string, Record>, op: Op): (map<string, Record>, Outcome) {
    match op
    case Get(path) => (store, if path in store then Outcome(Some(store[path]), Nil) else Outcome(None, NotExist))
    case Set(path, Remove) => (store - {path}, Outcome(None, Nil))
    case Set(path, Data(v)) => (store[path := v], Outcome(None, Nil))
    case Set(path, Unreadable) => (store, Outcome(None, Failed("data")))
  }

  /** An operation that worked reports its handler's error. */
  function Final(id: nat, outcome: Outcome, handled: Error): OpResult {
    OpResult(id, outcome.record, if outcome.err == Nil then handled else outcome.err)
  }

  const QUIET := End(Nil, "")

  /** What comes after the operation that the code issues first. */
  function Onward(code: Code, seen: Option<Seen>): (onward: Code)
    requires code.Issue?
    ensures onward < code
  {
    if seen.Some? && seen.value in code.after then code.after[seen.value] else code.rest
  }

  /** A record that was set is the one got, one that was removed is not there, and a Get or a Set that
      cannot read its record changes nothing; no operation touches another path. */
  lemma StoreLaw(store: map<string, Record>, path: string, src: Source, q: string)
    ensures var (u, done) := Answer(store, Set(path, src));
            var (v, got) := Answer(u, Get(q));
            && v == u
            && (q == path && src.Data? ==> done.err == Nil && got == Outcome(Some(src.value), Nil))
            && (q == path && src.Remove? ==> done.err == Nil && got == Outcome(None, NotExist))
            && (src.Unreadable? ==> done.err.Failed? && u == store)
            && (q != path ==> got == Answer(store, Get(q)).1)
            && done.record == None && (got.err == Nil <==> got.record.Some?)
  {
  }

  // ---------- running: results in the order in which operations finish ----------

  datatype State = State(store: map<string, Record>, next: nat, aborts: nat, log: seq<OpResult>)

  /** Runs code on the serial transaction, or on the in-memory one, which after an abort numbers
      every operation 0. */
  function Run(serial: bool, code: Code, s: State): (State, End)
    decreases code, 1
  {
    match code
    case Return(end) => (s, end)
    case Abort(rest) => Run(serial, rest, s.(aborts := s.aborts + 1))
    case Issue(_, _, _, _) => Run(serial, After(serial, code, s), Issued(serial, code, s))
  }

  /** What comes after the operation that the code issues first, as this run goes. */
  function After(serial: bool, code: Code, s: State): (onward: Code)
    requires code.Issue?
    ensures onward < code
    decreases code, 0, 1
  {
    var seen := if s.aborts > 0 then None else Some(Seen(Answer(s.store, code.op).1, Handled(serial, code, s).1.notes));
    Onward(code, seen)
  }

  /** After the operation that the code issues first, handler and all. */
  function Issued(serial: bool, code: Code, s: State): State
    requires code.Issue?
    decreases code, 0, 1
  {
    if s.aborts > 0 then Refused(serial, s) else
      var (t, handled) := Handled(serial, code, s);
      Finished(s, code.op, t, handled)
  }

  /** After the operation itself, and before its handler. */
  function Started(s: State, op: Op): State {
    s.(store := Answer(s.store, op).0, next := s.next + 1)
  }

  /** After the handler of the operation that the code issues first. */
  function Handled(serial: bool, code: Code, s: State): (State, End)
    requires code.Issue?
    decreases code, 0, 0
  {
    var outcome := Answer(s.store, code.op).1;
    if outcome in code.handler then Run(serial, code.handler[outcome], Started(s, code.op))
    else (Started(s, code.op), QUIET)
  }

  /** After the operation's result is recorded; s is the state before the operation. */
  function Finished(s: State, op: Op, t: State, handled: End): State {
    t.(log := t.log + [Final(s.next, Answer(s.store, op).1, handled.err)])
  }

  /** The result of an operation is its record, and its own error or else its handler's. */
  lemma ResultLaw(serial: bool, code: Code, s: State)
    requires code.Issue? && s.aborts == 0
    ensures var u := Issued(serial, code, s);
            var handled := Handled(serial, code, s).1.err;
            u.log != [] &&
            var r := u.log[|u.log| - 1];
            && r.op == s.next
            && (r.record.Some? <==> code.op.Get? && code.op.path in s.store)
            && (r.record.Some? ==> r.record.value == s.store[code.op.path] && r.err == handled)
            && (code.op.Get? && code.op.path !in s.store ==> r.err == NotExist)
            && (code.op.Set? ==> if code.op.src.Unreadable? then r.err.Failed? else r.err == handled)
  {
  }

  function Refused(serial: bool, s: State): State {
    var id := if serial then s.next else 0;
    s.(next := if serial then s.next + 1 else s.next, log := s.log + [OpResult(id, None, Canceled)])
  }

  /** After an abort no operation reaches the store, and each is reported as cancelled. */
  lemma {:induction false} AbortStops(serial: bool, code: Code, s: State)
    requires s.aborts > 0
    ensures var t := Run(serial, code, s).0;
            t.store == s.store && t.aborts > 0 && s.log <= t.log &&
            forall i | |s.log| <= i < |t.log| :: t.log[i].record == None && t.log[i].err == Canceled
    decreases code
  {
    match code
    case Return(_) =>
    case Abort(rest) => AbortStops(serial, rest, s.(aborts := s.aborts + 1));
    case Issue(_, _, _, rest) => AbortStops(serial, rest, Refused(serial, s));
  }

  /** A handler runs after its operation: a Get in the handler of a Set gives what was set. */
  lemma HandlerSees(serial: bool, path: string, v: Record, s: State)
    requires s.aborts == 0
    ensures var get := Issue(Get(path), map[], map[], Return(QUIET));
            var code := Issue(Set(path, Data(v)), map[Outcome(None, Nil) := get], map[], Return(QUIET));
            Run(serial, code, s).0.log == s.log + [OpResult(s.next + 1, Some(v), Nil), OpResult(s.next, None, Nil)]
  {
    var get := Issue(Get(path), map[], map[], Return(QUIET));
    var code := Issue(Set(path, Data(v)), map[Outcome(None, Nil) := get], map[], Return(QUIET));
    var t := Started(s, code.op);
    var u := t.(next := t.next + 1, log := t.log + [OpResult(t.next, Some(v), Nil)]);
    assert Handled(serial, get, t) == (t.(next := t.next + 1), QUIET);
    assert Issued(serial, get, t) == u && After(serial, get, t) == Return(QUIET);
    assert Run(serial, get, t) == (u, QUIET);
    assert Answer(s.store, code.op).1 == Outcome(None, Nil) && code.handler[Outcome(None, Nil)] == get;
    assert Handled(serial, code, s) == Run(serial, get, t);
    assert After(serial, code, s) == Return(QUIET);
  }

  // ---------- the reference: one result per issued operation, in the order of issue ----------

  datatype Report = Report(store: map<string, Record>, aborts: nat, end: End, results: seq<OpResult>)

  function InOrder(code: Code, store: map<string, Record>, aborts: nat, first: nat): Report
    decreases code, 1
  {
    match code
    case Return(end) => Report(store, aborts, end, [])
    case Abort(rest) => InOrder(rest, store, aborts + 1, first)
    case Issue(op, _, _, rest) =>
      if aborts > 0 then
        Preceded([OpResult(first, None, Canceled)], InOrder(rest, store, aborts, first + 1))
      else
        var nested := Nested(code, store, first);
        var outcome := Answer(store, op).1;
        var onward := Onward(code, Some(Seen(outcome, nested.end.notes)));
        Preceded([Final(first, outcome, nested.end.err)] + nested.results,
                 InOrder(onward, nested.store, nested.aborts, first + 1 + |nested.results|))
  }

  function Preceded(results: seq<OpResult>, after: Report): Report {
    after.(results := results + after.results)
  }

  /** The report of the handler of the operation that the code issues first. */
  function Nested(code: Code, store: map<string, Record>, first: nat): Report
    requires code.Issue?
    decreases code, 0
  {
    var (stored, outcome) := Answer(store, code.op);
    if outcome in code.handler then InOrder(code.handler[outcome], stored, 0, first + 1)
    else Report(stored, 0, QUIET, [])
  }

  /** The results in order of issue are numbered consecutively. */
  lemma {:induction false} InOrderNumbered(code: Code, store: map<string, Record>, aborts: nat, first: nat, i: nat)
    requires i < |InOrder(code, store, aborts, first).results|
    ensures InOrder(code, store, aborts, first).results[i].op == first + i
    decreases code
  {
    match code
    case Return(_) =>
    case Abort(rest) => InOrderNumbered(rest, store, aborts + 1, first, i);
    case Issue(op, handler, _, rest) =>
      if aborts > 0 {
        if i > 0 { InOrderNumbered(rest, store, aborts, first + 1, i - 1); }
      } else {
        var nested := Nested(code, store, first);
        var n := |nested.results|;
        if 0 < i <= n {
          var (stored, outcome) := Answer(store, op);
          InOrderNumbered(handler[outcome], stored, 0, first + 1, i - 1);
        } else if i > n {
          var onward := Onward(code, Some(Seen(Answer(store, op).1, nested.end.notes)));
          InOrderNumbered(onward, nested.store, nested.aborts, first + 1 + n, i - 1 - n);
        }
      }
  }

  /** A run from s to t did what the report says: what it did to the store, how many operations
      it numbered, and exactly the reported results, in some order. */
  ghost predicate Met(s: State, t: State, r: Report) {
    && t.store == r.store && t.aborts == r.aborts && t.next == s.next + |r.results|
    && multiset(t.log) == multiset(s.log) + multiset(r.results)
  }

  /** Every serial run, aborted or not, does what the reference reports. */
  lemma {:induction false} RunMeetsInOrder(code: Code, s: State)
    ensures Meets(code, s)
    decreases code
  {
    match code
    case Return(_) =>
    case Abort(rest) => RunMeetsInOrder(rest, s.(aborts := s.aborts + 1));
    case Issue(op, handler, _, _) =>
      RunMeetsInOrder(After(true, code, s), Issued(true, code, s));
      if s.aborts > 0 {
        RefusedMeets(code, s);
      } else {
        var outcome := Answer(s.store, op).1;
        if outcome in handler { RunMeetsInOrder(handler[outcome], Started(s, op)); }
        IssueMeets(code, s);
      }
  }

  ghost predicate Meets(code: Code, s: State) {
    var r := InOrder(code, s.store, s.aborts, s.next);
    Met(s, Run(true, code, s).0, r) && Run(true, code, s).1 == r.end
  }

  lemma RefusedMeets(code: Code, s: State)
    requires code.Issue? && s.aborts > 0 && Meets(code.rest, Refused(true, s))
    ensures Meets(code, s)
  {
    var u := Refused(true, s);
    RefusedMet(s, Run(true, code.rest, u).0, InOrder(code.rest, u.store, u.aborts, u.next));
  }

  lemma IssueMeets(code: Code, s: State)
    requires code.Issue? && s.aborts == 0
    requires var outcome := Answer(s.store, code.op).1;
             outcome in code.handler ==> Meets(code.handler[outcome], Started(s, code.op))
    requires Meets(After(true, code, s), Issued(true, code, s))
    ensures Meets(code, s)
  {
    var (t, handled) := Handled(true, code, s);
    var u := Issued(true, code, s);
    var onward := After(true, code, s);
    var after := InOrder(onward, u.store, u.aborts, u.next);
    HandlerMeets(code, s);
    assert Run(true, code, s) == Run(true, onward, u);
    assert Met(u, Run(true, onward, u).0, after);
    FinishedMet(s, code.op, t, handled, Run(true, onward, u).0, Nested(code, s.store, s.next), after);
    InOrderIssued(code, s, t, handled);
  }

  lemma InOrderIssued(code: Code, s: State, t: State, handled: End)
    requires code.Issue? && s.aborts == 0
    requires var nested := Nested(code, s.store, s.next);
             t.store == nested.store && t.aborts == nested.aborts && t.next == s.next + 1 + |nested.results| &&
             handled == nested.end
    ensures var outcome := Answer(s.store, code.op).1;
            InOrder(code, s.store, s.aborts, s.next) ==
            Preceded([Final(s.next, outcome, handled.err)] + Nested(code, s.store, s.next).results,
                     InOrder(Onward(code, Some(Seen(outcome, handled.notes))), t.store, t.aborts, t.next))
  {
    InOrderIssue(code, s.store, s.next);
  }

  lemma InOrderIssue(code: Code, store: map<string, Record>, first: nat)
    requires code.Issue?
    ensures var nested := Nested(code, store, first);
            var outcome := Answer(store, code.op).1;
            InOrder(code, store, 0, first) ==
            Preceded([Final(first, outcome, nested.end.err)] + nested.results,
                     InOrder(Onward(code, Some(Seen(outcome, nested.end.notes))), nested.store, nested.aborts,
                             first + 1 + |nested.results|))
  {
  }

  lemma HandlerMeets(code: Code, s: State)
    requires code.Issue? && s.aborts == 0
    requires var outcome := Answer(s.store, code.op).1;
             outcome in code.handler ==> Meets(code.handler[outcome], Started(s, code.op))
    ensures Met(Started(s, code.op), Handled(true, code, s).0, Nested(code, s.store, s.next))
    ensures Handled(true, code, s).1 == Nested(code, s.store, s.next).end
  {
  }

  lemma RefusedMet(s: State, end: State, after: Report)
    requires Met(Refused(true, s), end, after)
    ensures Met(s, end, Preceded([OpResult(s.next, None, Canceled)], after))
  {
  }

  lemma FinishedMet(s: State, op: Op, t: State, handled: End, end: State, nested: Report, after: Report)
    requires Met(Started(s, op), t, nested) && Met(Finished(s, op, t, handled), end, after)
    ensures Met(s, end, Preceded([Final(s.next, Answer(s.store, op).1, handled.err)] + nested.results, after))
  {
  }

  ghost predicate Issues(code: Code) {
    match code
    case Return(_) => false
    case Abort(rest) => Issues(rest)
    case Issue(_, _, _, _) => true
  }

  /** Code that issues nothing adds no result; code that issues something, from a state without
      an abort, adds its first result for a number not taken before. */
  lemma {:induction false} FirstFinished(serial: bool, code: Code, s: State)
    ensures var t := Run(serial, code, s).0;
            t.aborts >= s.aborts && s.log <= t.log && t.next >= s.next &&
            (!Issues(code) ==> t == s.(aborts := t.aborts)) &&
            (t.aborts == 0 && Issues(code) ==> |t.log| > |s.log| && t.log[|s.log|].op >= s.next) &&
            (t.aborts == 0 ==> t.next - s.next == |t.log| - |s.log|)
    decreases code
  {
    match code
    case Return(_) =>
    case Abort(rest) => FirstFinished(serial, rest, s.(aborts := s.aborts + 1));
    case Issue(op, handler, _, rest) =>
      if s.aborts > 0 {
        FirstFinished(serial, rest, Refused(serial, s));
      } else {
        var outcome := Answer(s.store, op).1;
        var (t, handled) := Handled(serial, code, s);
        if outcome in handler { FirstFinished(serial, handler[outcome], Started(s, op)); }
        FirstFinished(serial, After(serial, code, s), Finished(s, op, t, handled));
      }
  }

  /** Until an abort the two kinds of transaction run alike. */
  lemma {:induction false} SameUntilAbort(serial: bool, code: Code, s: State)
    requires Run(serial, code, s).0.aborts == 0
    ensures s.aborts == 0 && Run(!serial, code, s) == Run(serial, code, s)
    decreases code
  {
    FirstFinished(serial, code, s);
    match code
    case Return(_) =>
    case Abort(rest) => FirstFinished(serial, rest, s.(aborts := s.aborts + 1));
    case Issue(op, handler, _, _) =>
      var outcome := Answer(s.store, op).1;
      var (t, handled) := Handled(serial, code, s);
      SameUntilAbort(serial, After(serial, code, s), Finished(s, op, t, handled));
      if outcome in handler { SameUntilAbort(serial, handler[outcome], Started(s, op)); }
      assert Issued(!serial, code, s) == Issued(serial, code, s);
  }

  // ---------- when the order of finishing is the order of issue ----------

  /** No handler that runs issues an operation of its own. */
  ghost predicate NoNesting(code: Code, s: State)
    decreases code
  {
    match code
    case Return(_) => true
    case Abort(rest) => NoNesting(rest, s.(aborts := s.aborts + 1))
    case Issue(op, handler, _, rest) =>
      if s.aborts > 0 then
        NoNesting(rest, Refused(false, s))
      else
        var outcome := Answer(s.store, op).1;
        var (t, handled) := Handled(false, code, s);
        (outcome in handler ==> !Issues(handler[outcome])) &&
        NoNesting(After(false, code, s), Finished(s, op, t, handled))
  }

  ghost predicate Indexed(results: seq<OpResult>) {
    forall i | 0 <= i < |results| :: results[i].op == i
  }

  lemma IssuedMoves(serial: bool, code: Code, s: State)
    requires code.Issue?
    ensures Issued(serial, code, s).aborts >= s.aborts && Issued(serial, code, s).next >= s.next
  {
    if s.aborts == 0 {
      var outcome := Answer(s.store, code.op).1;
      if outcome in code.handler { FirstFinished(serial, code.handler[outcome], Started(s, code.op)); }
    }
  }

  /** The in-memory transaction appends results as operations finish.  In a run that is not
      aborted they stand at their own numbers exactly when no handler issued an operation. */
  lemma {:induction false} AppendedInOrderIff(code: Code, s: State)
    requires Run(false, code, s).0.aborts == 0 && |s.log| == s.next && Indexed(s.log)
    ensures Indexed(Run(false, code, s).0.log) <==> NoNesting(code, s)
    decreases code
  {
    FirstFinished(false, code, s);
    match code
    case Return(_) =>
    case Abort(rest) => FirstFinished(false, rest, s.(aborts := s.aborts + 1));
    case Issue(op, handler, _, _) =>
      var outcome := Answer(s.store, op).1;
      var (t, handled) := Handled(false, code, s);
      var u, onward := Finished(s, op, t, handled), After(false, code, s);
      FirstFinished(false, onward, u);
      if outcome in handler { FirstFinished(false, handler[outcome], Started(s, op)); }
      var end := Run(false, onward, u).0;
      assert u.log <= end.log;
      if outcome in handler && Issues(handler[outcome]) {
        assert end.log[s.next] == t.log[s.next];
      } else {
        assert t.log == s.log;
        AppendedInOrderIff(onward, u);
      }
  }

  // ---------- the serial transaction ----------

  class Serial {
    var store: map<string, Record>
    var nextOp: nat
    var results: map<nat, OpResult>
    var aborts: nat  // times the context was cancelled; it is done once this is positive
    ghost var log: seq<OpResult>  // results in the order in which they were recorded

    ghost predicate Valid()
      reads this
    {
      && (forall e | e in log :: e.op < nextOp && e.op in results && results[e.op] == e)
      && (forall k | k in results :: results[k] in log && results[k].op == k)
    }

    ghost function Now(): State
      reads this
    {
      State(store, nextOp, aborts, log)
    }

    constructor (store: map<string, Record>)
      ensures Valid() && Now() == State(store, 0, 0, [])
    {
      this.store, nextOp, results, aborts, log := store, 0, map[], 0, [];
    }

    method SetResult(result: OpResult)
      requires Valid() && result.op < nextOp && result.op !in results
      modifies this`results, this`log
      ensures Valid() && log == old(log) + [result] && results.Keys == old(results.Keys) + {result.op}
    {
      assert forall e | e in log :: e.op != result.op;
      results := results[result.op := result];
      log := log + [result];
    }

    /** The caller's or a handler's code, up to Commit. */
    method Perform(code: Code) returns (end: End)
      requires Valid()
      modifies this
      ensures Valid() && (Now(), end) == Run(true, code, old(Now()))
      ensures forall k | k in results :: k in old(results) || old(nextOp) <= k
      decreases code, 1
    {
      match code
      case Return(e) =>
        end := e;
      case Abort(rest) =>
        aborts := aborts + 1;
        end := Perform(rest);
      case Issue(_, _, _, _) =>
        ghost var start := Now();
        var onward := Do(code);
        assert nextOp >= start.next by { IssuedMoves(true, code, start); }
        end := Perform(onward);
    }

    /** GetHandler or SetHandler, for the operation that the code issues first; returns the code
        that its issuer goes on with. */
    method Do(code: Code) returns (onward: Code)
      requires Valid() && code.Issue?
      modifies this
      ensures Valid() && Now() == Issued(true, code, old(Now())) && onward == After(true, code, old(Now()))
      ensures forall k | k in results :: k in old(results) || old(nextOp) <= k
      decreases code, 0
    {
      ghost var start := Now();
      var id := nextOp;
      nextOp := nextOp + 1;
      if aborts > 0 {
        SetResult(OpResult(id, None, Canceled));
        return Onward(code, None);
      }
      var (stored, outcome) := Answer(store, code.op);
      store := stored;
      var handled := QUIET;
      if outcome in code.handler {
        handled := Perform(code.handler[outcome]);
        assert nextOp > id by { FirstFinished(true, code.handler[outcome], Started(start, code.op)); }
      }
      assert (Now(), handled) == Handled(true, code, start);
      SetResult(Final(id, outcome, handled.err));
      onward := Onward(code, Some(Seen(outcome, handled.notes)));
    }

    /** Collects the recorded results by number; fails after an abort or a second time. */
    method Commit(cancelled: bool) returns (collected: seq<Option<OpResult>>, err: Error)
      requires Valid()
      modifies this`aborts
      ensures Valid() && err == if cancelled || old(aborts) > 0 then Canceled else Nil
      ensures err == Nil ==> aborts == 1 && |collected| == nextOp
      ensures err == Nil ==> forall e | e in log :: collected[e.op] == Some(e)
    {
      if cancelled || aborts > 0 {
        return [], Canceled;
      }
      aborts := aborts + 1;
      collected := seq(nextOp, i => None);
      var todo := results.Keys;
      while todo != {}
        invariant todo <= results.Keys && |collected| == nextOp
        invariant forall k | k in results && k !in todo :: collected[k] == Some(results[k])
        decreases todo
      {
        var op :| op in todo;
        collected := collected[op := Some(results[op])];
        todo := todo - {op};
      }
      err := Nil;
    }
  }

  /** A whole serial transaction: without an abort, Commit gives one result for every operation
      issued, at its own number, in the order of issue. */
  method Transact(store: map<string, Record>, code: Code)
    returns (collected: seq<Option<OpResult>>, err: Error, after: map<string, Record>)
    ensures var r := InOrder(code, store, 0, 0);
            after == r.store && err == (if r.aborts > 0 then Canceled else Nil) &&
            (r.aborts == 0 ==>
               |collected| == |r.results| &&
               forall i | 0 <= i < |collected| :: collected[i] == Some(r.results[i]) && r.results[i].op == i)
  {
    var txn := new Serial(store);
    ghost var start := txn.Now();
    var handled := txn.Perform(code);
    after := txn.store;
    ghost var log := txn.log;
    RunMeetsInOrder(code, start);
    collected, err := txn.Commit(false);
    ghost var r := InOrder(code, store, 0, 0);
    if err == Nil {
      CollectedInOrder(code, store, log, collected);
    }
  }

  lemma CollectedInOrder(code: Code, store: map<string, Record>, log: seq<OpResult>, collected: seq<Option<OpResult>>)
    requires var results := InOrder(code, store, 0, 0).results;
             multiset(log) == multiset(results) && |collected| == |results|
    requires forall e | e in log :: e.op < |collected| && collected[e.op] == Some(e)
    ensures var results := InOrder(code, store, 0, 0).results;
            forall i | 0 <= i < |collected| :: collected[i] == Some(results[i]) && results[i].op == i
  {
    var results := InOrder(code, store, 0, 0).results;
    forall i | 0 <= i < |collected| ensures collected[i] == Some(results[i]) && results[i].op == i {
      InOrderNumbered(code, store, 0, 0, i);
      assert results[i] in multiset(results);
      assert results[i] in multiset(log);
    }
  }

  // ---------- the in-memory store's transaction ----------

  class InMemory {
    var store: map<string, Record>
    var op: nat
    var results: seq<OpResult>
    var unlocks: nat  // times the store's mutex was unlocked; it was locked once, to begin
    var aborts: nat

    ghost function Now(): State
      reads this
    {
      State(store, op, aborts, results)
    }

    constructor (store: map<string, Record>)
      ensures Now() == State(store, 0, 0, []) && unlocks == 0
    {
      this.store, op, results, unlocks, aborts := store, 0, [], 0, 0;
    }

    method Perform(code: Code) returns (end: End)
      modifies this
      ensures (Now(), end) == Run(false, code, old(Now()))
      ensures unlocks - aborts == old(unlocks - aborts)
      decreases code, 1
    {
      match code
      case Return(e) =>
        end := e;
      case Abort(rest) =>
        aborts, unlocks := aborts + 1, unlocks + 1;
        end := Perform(rest);
      case Issue(_, _, _, _) =>
        var onward := Do(code);
        end := Perform(onward);
    }

    /** GetHandler or SetHandler, for the operation that the code issues first; returns the code
        that its issuer goes on with. */
    method Do(code: Code) returns (onward: Code)
      requires code.Issue?
      modifies this
      ensures Now() == Issued(false, code, old(Now())) && onward == After(false, code, old(Now()))
      ensures unlocks - aborts == old(unlocks - aborts)
      decreases code, 0
    {
      if aborts > 0 {
        results := results + [OpResult(0, None, Canceled)];
        return Onward(code, None);
      }
      var id := op;
      op := op + 1;
      var (stored, outcome) := Answer(store, code.op);
      store := stored;
      var handled := QUIET;
      if outcome in code.handler {
        handled := Perform(code.handler[outcome]);
      }
      results := results + [Final(id, outcome, handled.err)];
      onward := Onward(code, Some(Seen(outcome, handled.notes)));
    }

    method Commit() returns (out: seq<OpResult>)
      modifies this`aborts, this`unlocks
      ensures out == results && unlocks == old(unlocks) + 1 && aborts == old(aborts) + 1
    {
      aborts, unlocks := aborts + 1, unlocks + 1;
      out := results;
    }
  }

  /** A whole in-memory transaction: the mutex is unlocked once exactly when nothing aborted, and
      then the results are the serial transaction's in the order of finishing.  They are the same
      sequence exactly when no handler issued an operation. */
  method TransactInMemory(store: map<string, Record>, code: Code)
    returns (out: seq<OpResult>, after: map<string, Record>, unlocks: nat)
    ensures var r := InOrder(code, store, 0, 0);
            (unlocks == 1 <==> r.aborts == 0) &&
            (r.aborts == 0 ==>
               after == r.store && multiset(out) == multiset(r.results) &&
               (out == r.results <==> NoNesting(code, State(store, 0, 0, []))))
  {
    var txn := new InMemory(store);
    ghost var start := txn.Now();
    var handled := txn.Perform(code);
    after := txn.store;
    out := txn.Commit();
    unlocks := txn.unlocks;
    ghost var r := InOrder(code, store, 0, 0);
    RunMeetsInOrder(code, start);
    if unlocks == 1 {
      SameUntilAbort(false, code, start);
    }
    if r.aborts == 0 {
      SameUntilAbort(true, code, start);
      AppendedInOrderIff(code, start);
      IndexedSame(out, r.results, code, store);
    }
  }

  /** Two orders of the same results, one consecutive, are equal exactly when both are. */
  lemma IndexedSame(out: seq<OpResult>, results: seq<OpResult>, code: Code, store: map<string, Record>)
    requires results == InOrder(code, store, 0, 0).results && multiset(out) == multiset(results)
    ensures out == results <==> Indexed(out)
  {
    forall i | 0 <= i < |results| ensures results[i].op == i {
      InOrderNumbered(code, store, 0, 0, i);
    }
    assert |out| == |multiset(out)| == |results|;
    if Indexed(out) {
      forall i | 0 <= i < |out| ensures out[i] == results[i] {
        assert out[i] in multiset(results);
      }
    }
  }

  /** A Get whose handler issues another: the second finishes first. */
  const NESTED :=
    Issue(Get("a"), map[Outcome(None, NotExist) := Issue(Get("b"), map[], map[], Return(QUIET))], map[], Return(QUIET))

  lemma NestedOutOfOrder()
    ensures Run(false, NESTED, State(map[], 0, 0, [])).0.log ==
            [OpResult(1, None, NotExist), OpResult(0, None, NotExist)]
    ensures InOrder(NESTED, map[], 0, 0).results == [OpResult(0, None, NotExist), OpResult(1, None, NotExist)]
  {
    var s := State(map[], 0, 0, []);
    var absent := Outcome(None, NotExist);
    var inner := Issue(Get("b"), map[], map[], Return(QUIET));
    assert NESTED.handler[absent] == inner;
    var t := Started(s, Get("a"));
    var u := t.(next := 2, log := [OpResult(1, None, NotExist)]);
    assert Handled(false, inner, t) == (t.(next := 2), QUIET);
    assert Issued(false, inner, t) == u && After(false, inner, t) == Return(QUIET);
    assert Run(false, inner, t) == (u, QUIET);
    assert Issued(false, NESTED, s) == u.(log := u.log + [OpResult(0, None, NotExist)]);
    assert After(false, NESTED, s) == Return(QUIET);
    assert InOrder(inner, map[], 0, 1) == Report(map[], 0, QUIET, [OpResult(1, None, NotExist)]);
  }
}
