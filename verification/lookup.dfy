/** "First entry in declared order that satisfies a test": the search both the
    calculator's rewrite-rule loop and the demo orchestrator's response table do. */
module Lookup {
  import opened Wrappers

  /** Index `i` is the first entry of `xs` that passes `test`. */
  predicate IsFirst<T>(xs: seq<T>, test: T -> bool, i: nat) {
    i < |xs| && test(xs[i]) && forall j :: 0 <= j < i ==> !test(xs[j])
  }

  predicate NonePass<T>(xs: seq<T>, test: T -> bool) {
    forall j :: 0 <= j < |xs| ==> !test(xs[j])
  }

  /** A Python `for ... if ...: ... break` scan. */
  function FirstIndex<T>(xs: seq<T>, test: T -> bool): (r: Option<nat>)
    ensures r.Some? ==> IsFirst(xs, test, r.value)
    ensures r.None? ==> NonePass(xs, test)
  {
    if |xs| == 0 then None
    else if test(xs[0]) then Some(0)
    else match FirstIndex(xs[1..], test)
      case None => None
      case Some(i) => Some(i + 1)
  }

  /** At most one index is the first to pass. */
  lemma FirstIsUnique<T>(xs: seq<T>, test: T -> bool, i: nat, j: nat)
    requires IsFirst(xs, test, i) && IsFirst(xs, test, j)
    ensures i == j
  {
  }

  /** An entry whose test is implied by the test of an earlier entry is never
      the first to pass: ordering alone makes it unreachable. */
  lemma ShadowedNeverFirst<T>(xs: seq<T>, test: T -> bool, early: nat, late: nat)
    requires early < late < |xs|
    requires test(xs[late]) ==> test(xs[early])
    ensures !IsFirst(xs, test, late)
  {
  }
}
