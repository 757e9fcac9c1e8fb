/** How many threads are at given places. */
module Counting {
  function Count<T(==)>(cs: seq<T>, of: set<T>): (n: nat)
    ensures n <= |cs|
  {
    if cs == [] then 0 else Count(cs[..|cs| - 1], of) + if cs[|cs| - 1] in of then 1 else 0
  }

  lemma {:induction false} CountUpdate<T>(cs: seq<T>, of: set<T>, i: nat, x: T)
    requires i < |cs|
    ensures Count(cs[i := x], of)
            == Count(cs, of) - (if cs[i] in of then 1 else 0) + (if x in of then 1 else 0)
  {
    if i < |cs| - 1 {
      CountUpdate(cs[..|cs| - 1], of, i, x);
      assert cs[i := x][..|cs| - 1] == cs[..|cs| - 1][i := x];
    } else {
      assert cs[i := x][..|cs| - 1] == cs[..|cs| - 1];
    }
  }

  lemma {:induction false} CountZero<T>(cs: seq<T>, of: set<T>)
    requires forall i | 0 <= i < |cs| :: cs[i] !in of
    ensures Count(cs, of) == 0
  {
    if cs != [] { CountZero(cs[..|cs| - 1], of); }
  }

  lemma {:induction false} CountAll<T>(cs: seq<T>, of: set<T>)
    requires forall i | 0 <= i < |cs| :: cs[i] in of
    ensures Count(cs, of) == |cs|
  {
    if cs != [] { CountAll(cs[..|cs| - 1], of); }
  }

  lemma {:induction false} CountFull<T>(cs: seq<T>, of: set<T>)
    requires Count(cs, of) == |cs|
    ensures forall i | 0 <= i < |cs| :: cs[i] in of
  {
    if cs != [] { CountFull(cs[..|cs| - 1], of); }
  }

  lemma {:induction false} CountSome<T>(cs: seq<T>, of: set<T>)
    requires Count(cs, of) > 0
    ensures exists i | 0 <= i < |cs| :: cs[i] in of
  {
    if cs[|cs| - 1] !in of {
      CountSome(cs[..|cs| - 1], of);
      var i :| 0 <= i < |cs| - 1 && cs[..|cs| - 1][i] in of;
      assert cs[i] in of;
    }
  }

  /** Someone at a place is counted there. */
  lemma {:induction false} CountOne<T>(cs: seq<T>, of: set<T>, i: nat)
    requires i < |cs| && cs[i] in of
    ensures Count(cs, of) >= 1
  {
    if i < |cs| - 1 { CountOne(cs[..|cs| - 1], of, i); }
  }

  lemma {:induction false} CountTwo<T>(cs: seq<T>, of: set<T>, i: nat, j: nat)
    requires i < j < |cs| && cs[i] in of && cs[j] in of
    ensures Count(cs, of) >= 2
  {
    if j < |cs| - 1 { CountTwo(cs[..|cs| - 1], of, i, j); } else { CountOne(cs[..|cs| - 1], of, i); }
  }

  /** Disjoint places are counted separately. */
  lemma {:induction false} CountUnion<T>(cs: seq<T>, a: set<T>, b: set<T>)
    requires a !! b
    ensures Count(cs, a + b) == Count(cs, a) + Count(cs, b)
  {
    if cs != [] { CountUnion(cs[..|cs| - 1], a, b); }
  }

  lemma {:induction false} CountMono<T>(cs: seq<T>, a: set<T>, b: set<T>)
    requires a <= b
    ensures Count(cs, a) <= Count(cs, b)
  {
    if cs != [] { CountMono(cs[..|cs| - 1], a, b); }
  }

  /** A prefix of a prefix is a prefix. */
  lemma Prefix<T>(a: seq<T>, x: T, b: seq<T>)
    requires a + [x] <= b
    ensures a <= b
  {
    assert b[..|a|] == (a + [x])[..|a|];
  }
}
