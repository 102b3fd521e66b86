/** Sizes of subsets. */
module FiniteSets {
  lemma SubsetSize<T>(a: set<T>, b: set<T>)
    requires a <= b
    ensures |a| <= |b|
  {
    assert b == a + (b - a);
  }

  lemma ProperSubsetSize<T>(a: set<T>, b: set<T>)
    requires a < b
    ensures |a| < |b|
  {
    assert b == a + (b - a);
    assert b - a != {};
  }

  lemma {:induction false} SetBelow(s: set<nat>, n: nat)
    requires forall x :: x in s ==> x < n
    ensures |s| <= n
  {
    if n == 0 {
      assert s == {};
    } else {
      SetBelow(s - {n - 1}, n - 1);
      SubsetSize(s, s - {n - 1} + {n - 1});
    }
  }

  /** A set of numbers below n that leaves one of them out. */
  lemma OneMore(s: set<nat>, i: nat, n: nat)
    requires i < n && forall x :: x in s ==> x < n && x != i
    ensures |s| < n
  {
    SetBelow(s + {i}, n);
  }
}
