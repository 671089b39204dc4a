/** Where in a sequence the elements are that one looks for. */
module Positions {

  /** The positions of all wanted elements, in order. */
  ghost predicate AllWanted<T>(xs: seq<T>, wanted: T -> bool, at: seq<nat>) {
    && (forall i :: 0 <= i < |at| ==> at[i] < |xs| && wanted(xs[at[i]]))
    && (forall i, j :: 0 <= i < j < |at| ==> at[i] < at[j])
    && forall k :: 0 <= k < |xs| && wanted(xs[k]) ==> k in at
  }

  lemma {:induction false} OneMoreWanted<T>(xs: seq<T>, x: T, wanted: T -> bool, at: seq<nat>)
    requires AllWanted(xs, wanted, at)
    ensures AllWanted(xs + [x], wanted, at + if wanted(x) then [|xs|] else [])
  {
    var r := at + if wanted(x) then [|xs|] else [];
    forall k | 0 <= k < |xs + [x]| && wanted((xs + [x])[k]) ensures k in r {
      if k < |xs| { assert wanted(xs[k]) && k in at; } else { assert r[|at|] == k; }
    }
  }

  lemma {:induction false} NoneWanted<T>(wanted: T -> bool)
    ensures AllWanted([], wanted, [])
  {
  }
}
