/** Runs of a protocol given as a next-state function: whatever the interleaving, a run is a
    sequence of actions each of which could be taken in its turn. */
module Runs {
  import opened Wrappers

  ghost predicate Run<S, A>(next: (S, A) -> Option<S>, s: S, actions: seq<A>, t: S)
    decreases |actions|
  {
    if actions == [] then s == t
    else
      match next(s, actions[0])
      case None => false
      case Some(u) => Run(next, u, actions[1..], t)
  }

  ghost predicate Goes<S, A(!new)>(next: (S, A) -> Option<S>, s: S, t: S) {
    exists actions :: Run(next, s, actions, t)
  }

  lemma {:induction false} RunConcat<S, A>(next: (S, A) -> Option<S>, s: S, a: seq<A>, t: S, b: seq<A>, u: S)
    requires Run(next, s, a, t) && Run(next, t, b, u)
    ensures Run(next, s, a + b, u)
    decreases |a|
  {
    if a == [] {
      assert a + b == b;
    } else {
      assert (a + b)[1..] == a[1..] + b;
      RunConcat(next, next(s, a[0]).value, a[1..], t, b, u);
    }
  }

  lemma Then<S, A(!new)>(next: (S, A) -> Option<S>, s: S, t: S, a: A)
    requires Goes(next, s, t) && next(t, a).Some?
    ensures Goes(next, s, next(t, a).value)
  {
    var actions :| Run(next, s, actions, t);
    var u := next(t, a).value;
    assert Run(next, t, [a], u) by { assert [a][1..] == []; }
    RunConcat(next, s, actions, t, [a], u);
  }

  /** What every action keeps, every run keeps. */
  lemma {:induction false} RunKeeps<S(!new), A(!new)>(next: (S, A) -> Option<S>, inv: S -> bool, s: S, actions: seq<A>,
                                      t: S)
    requires forall u, a :: inv(u) && next(u, a).Some? ==> inv(next(u, a).value)
    requires inv(s) && Run(next, s, actions, t)
    ensures inv(t)
    decreases |actions|
  {
    if actions != [] {
      RunKeeps(next, inv, next(s, actions[0]).value, actions[1..], t);
    }
  }
}
