/** Runs of step systems.  A step is a partial function: its precondition says when it can be taken. */
module Runs {

  /** The events `es`, taken one after the other from `s`, lead to `d`. */
  ghost predicate Leads<S, E>(step: (S, E) --> S, s: S, es: seq<E>, d: S) {
    if es == [] then s == d
    else step.requires(s, es[0]) && Leads(step, step(s, es[0]), es[1..], d)
  }

  /** What every step keeps holds at the end of every run. */
  lemma {:induction false} Kept<S(!new), E(!new)>(step: (S, E) --> S, inv: S -> bool, s: S, es: seq<E>, d: S)
    requires Leads(step, s, es, d) && inv(s)
    requires forall c, e :: inv(c) && step.requires(c, e) ==> inv(step(c, e))
    ensures inv(d)
    decreases |es|
  {
    if es != [] {
      Kept(step, inv, step(s, es[0]), es[1..], d);
    }
  }

  /** A run may be followed by another. */
  lemma {:induction false} Joined<S, E>(step: (S, E) --> S, s: S, es: seq<E>, d: S, more: seq<E>, last: S)
    requires Leads(step, s, es, d) && Leads(step, d, more, last)
    ensures Leads(step, s, es + more, last)
    decreases |es|
  {
    if es == [] {
      assert es + more == more;
    } else {
      assert (es + more)[0] == es[0] && (es + more)[1..] == es[1..] + more;
      Joined(step, step(s, es[0]), es[1..], d, more, last);
    }
  }

  lemma OneMore<S, E>(step: (S, E) --> S, s: S, es: seq<E>, d: S, e: E)
    requires Leads(step, s, es, d) && step.requires(d, e)
    ensures Leads(step, s, es + [e], step(d, e))
  {
    assert [e][1..] == [];
    Joined(step, s, es, d, [e], step(d, e));
  }

  lemma OneFirst<S, E>(step: (S, E) --> S, s: S, e: E, es: seq<E>, d: S)
    requires step.requires(s, e) && Leads(step, step(s, e), es, d)
    ensures Leads(step, s, [e] + es, d)
  {
    assert ([e] + es)[1..] == es;
  }

  /** The same event `n` times. */
  function Times<E>(e: E, n: nat): (es: seq<E>)
    ensures |es| == n
  {
    if n == 0 then [] else [e] + Times(e, n - 1)
  }

  lemma OnceMore<S, E>(step: (S, E) --> S, s: S, e: E, n: nat, d: S)
    requires n > 0 && step.requires(s, e) && Leads(step, step(s, e), Times(e, n - 1), d)
    ensures Leads(step, s, Times(e, n), d)
  {
    OneFirst(step, s, e, Times(e, n - 1), d);
  }

  /** A run leads to one state only. */
  lemma {:induction false} SameEnd<S, E>(step: (S, E) --> S, s: S, es: seq<E>, d: S, e: S)
    requires Leads(step, s, es, d) && Leads(step, s, es, e)
    ensures d == e
    decreases |es|
  {
    if es != [] {
      SameEnd(step, step(s, es[0]), es[1..], d, e);
    }
  }

  /** The state before the last event of a run. */
  lemma {:induction false} LastStep<S, E>(step: (S, E) --> S, s: S, es: seq<E>, d: S) returns (m: S)
    requires es != [] && Leads(step, s, es, d)
    ensures Leads(step, s, es[..|es| - 1], m)
    ensures step.requires(m, es[|es| - 1]) && step(m, es[|es| - 1]) == d
    decreases |es|
  {
    if |es| == 1 {
      m := s;
    } else {
      m := LastStep(step, step(s, es[0]), es[1..], d);
      assert es[1..][..|es| - 2] == es[..|es| - 1][1..];
    }
  }
}
