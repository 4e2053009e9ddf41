/** Finite runs of a state machine whose next state is a function of the state and the step. */
module Runs {
  import opened Wrappers

  /** These steps lead from s to s'; `next` is None where a step is not enabled. */
  ghost predicate Leads<S, T>(next: (S, T) -> Option<S>, s: S, steps: seq<T>, s': S)
    decreases |steps|
  {
    if steps == [] then s' == s
    else next(s, steps[0]).Some? && Leads(next, next(s, steps[0]).value, steps[1..], s')
  }

  lemma {:induction false} LeadsOn<S, T>(next: (S, T) -> Option<S>, s: S, steps: seq<T>, mid: S, step: T)
    requires Leads(next, s, steps, mid) && next(mid, step).Some?
    ensures Leads(next, s, steps + [step], next(mid, step).value)
    decreases |steps|
  {
    if steps == [] {
      assert [step][1..] == [];
    } else {
      LeadsOn(next, next(s, steps[0]).value, steps[1..], mid, step);
      assert (steps + [step])[1..] == steps[1..] + [step];
    }
  }

  lemma {:induction false} LeadsThen<S, T>(next: (S, T) -> Option<S>, s: S, a: seq<T>, mid: S, b: seq<T>, s': S)
    requires Leads(next, s, a, mid) && Leads(next, mid, b, s')
    ensures Leads(next, s, a + b, s')
    decreases |a|
  {
    if a == [] {
      assert a + b == b;
    } else {
      assert (a + b)[1..] == a[1..] + b;
      LeadsThen(next, next(s, a[0]).value, a[1..], mid, b, s');
    }
  }
}
