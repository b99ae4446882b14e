/** Executions of a state machine: what the two concurrent programs have in common. */
module Executions {
  import opened Records

  // es is an execution from s to t, where next(u, e) is the state after e, or None where u has no event e.
  predicate Execution<S(==), E>(next: (S, E) -> Option<S>, s: S, es: seq<E>, t: S)
    decreases |es|
  {
    if es == [] then s == t else next(s, es[0]).Some? && Execution(next, next(s, es[0]).value, es[1..], t)
  }

  /** What every event keeps, every execution keeps. */
  lemma {:induction false} Induction<S, E>(next: (S, E) -> Option<S>, inv: S -> bool, s: S, es: seq<E>, t: S)
    requires forall u, e :: inv(u) && next(u, e).Some? ==> inv(next(u, e).value)
    requires inv(s) && Execution(next, s, es, t)
    ensures inv(t)
    decreases |es|
  {
    if es != [] {
      Induction(next, inv, next(s, es[0]).value, es[1..], t);
    }
  }

  lemma {:induction false} Snoc<S, E>(next: (S, E) -> Option<S>, s: S, es: seq<E>, t: S, e: E)
    requires Execution(next, s, es, t) && next(t, e).Some?
    ensures Execution(next, s, es + [e], next(t, e).value)
    decreases |es|
  {
    if es == [] {
      assert es + [e] == [e] && [e][1..] == [];
    } else {
      assert (es + [e])[1..] == es[1..] + [e];
      Snoc(next, next(s, es[0]).value, es[1..], t, e);
    }
  }
}
