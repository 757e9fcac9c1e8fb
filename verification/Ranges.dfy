/** Sets of consecutive numbers, and the sizes of sets. */
module Ranges {
  ghost function Range(a: nat, b: nat): (r: set<nat>)
    ensures forall i :: i in r <==> a <= i < b
    decreases b
  {
    if b <= a then {} else Range(a, b - 1) + {b - 1}
  }

  lemma {:induction false} RangeCard(a: nat, b: nat)
    requires a <= b
    ensures |Range(a, b)| == b - a
    decreases b
  {
    if a < b {
      RangeCard(a, b - 1);
    }
  }

  lemma SmallerSet(a: set<nat>, b: set<nat>)
    ensures a <= b ==> |a| <= |b|
    ensures a < b ==> |a| < |b|
  {
    if a <= b {
      assert b == a + (b - a) && a !! (b - a);
    }
  }
}
