/** Which positions of a list a selection takes: all of a set, in increasing order. */
module Positions {
  ghost predicate Lists(at: seq<nat>, wanted: set<nat>) {
    && (forall k, l :: 0 <= k < l < |at| ==> at[k] < at[l])
    && (forall i :: i in at <==> i in wanted)
  }

  lemma NoneListed()
    ensures Lists([], {})
  {
  }

  lemma OneMoreListed(at: seq<nat>, wanted: set<nat>, n: nat)
    requires Lists(at, wanted) && forall i :: i in wanted ==> i < n
    ensures Lists(at + [n], wanted + {n})
  {
    forall k | 0 <= k < |at| ensures at[k] < n {
      assert at[k] in wanted;
    }
  }

  /** There is only one such list, and it is as long as the set is large. */
  lemma {:induction false} ListedAll(at: seq<nat>, wanted: set<nat>)
    requires Lists(at, wanted)
    ensures |at| == |wanted|
    decreases |at|
  {
    if at == [] {
      assert wanted == {};
    } else {
      var n := |at| - 1;
      var init := at[..n];
      assert at == init + [at[n]];
      assert at[n] !in init;
      forall i ensures i in init <==> i in wanted - {at[n]} {
      }
      ListedAll(init, wanted - {at[n]});
    }
  }
}
