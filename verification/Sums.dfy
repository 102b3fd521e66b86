/** Sums of natural numbers. */
module Sums {
  function Sum(ns: seq<nat>): nat {
    if ns == [] then 0 else Sum(ns[..|ns| - 1]) + ns[|ns| - 1]
  }

  /** One more of the first n numbers. */
  lemma SumPrefix(ns: seq<nat>, n: nat)
    requires n < |ns|
    ensures Sum(ns[..n + 1]) == Sum(ns[..n]) + ns[n]
  {
    assert ns[..n + 1][..n] == ns[..n];
  }

  lemma {:induction false} SumIsZeroIff(ns: seq<nat>)
    ensures Sum(ns) == 0 <==> forall i :: 0 <= i < |ns| ==> ns[i] == 0
  {
    if ns != [] {
      SumIsZeroIff(ns[..|ns| - 1]);
      assert forall i :: 0 <= i < |ns| ==> ns[i] == if i < |ns| - 1 then ns[..|ns| - 1][i] else ns[|ns| - 1];
    }
  }

  lemma {:induction false} SumAppend(a: seq<nat>, b: seq<nat>)
    ensures Sum(a + b) == Sum(a) + Sum(b)
  {
    if b == [] {
      assert a + b == a;
    } else {
      assert (a + b)[..|a + b| - 1] == a + b[..|b| - 1];
      SumAppend(a, b[..|b| - 1]);
    }
  }

  lemma SumUpdate(ws: seq<nat>, i: nat, w: nat)
    requires i < |ws|
    ensures Sum(ws[i := w]) == Sum(ws) - ws[i] + w
  {
    var a, b := ws[..i], ws[i + 1..];
    assert ws == a + ([ws[i]] + b) && ws[i := w] == a + ([w] + b);
    SumAppend(a, [ws[i]] + b);
    SumAppend([ws[i]], b);
    SumAppend(a, [w] + b);
    SumAppend([w], b);
    assert Sum([ws[i]]) == ws[i] && Sum([w]) == w;
  }

  lemma TakeOut(b: seq<nat>, k: nat)
    requires k < |b|
    ensures var rest := b[..k] + b[k + 1..];
            Sum(b) == Sum(rest) + b[k] && multiset(rest) == multiset(b) - multiset{b[k]}
  {
    assert b == b[..k] + ([b[k]] + b[k + 1..]);
    SumAppend(b[..k], [b[k]] + b[k + 1..]);
    SumAppend([b[k]], b[k + 1..]);
    SumAppend(b[..k], b[k + 1..]);
    assert Sum([b[k]]) == b[k];
  }

  /** The sum depends on which numbers there are, not on their order. */
  lemma {:induction false} SumOfPermutation(a: seq<nat>, b: seq<nat>)
    requires multiset(a) == multiset(b)
    ensures Sum(a) == Sum(b)
    decreases |a|
  {
    if a == [] {
      assert |multiset(b)| == 0;
      assert b == [];
    } else {
      var last := a[|a| - 1];
      assert last in multiset(b);
      var k :| 0 <= k < |b| && b[k] == last;
      var rest := b[..k] + b[k + 1..];
      TakeOut(b, k);
      assert a == a[..|a| - 1] + [last];
      assert multiset(a[..|a| - 1]) == multiset(a) - multiset{last};
      SumOfPermutation(a[..|a| - 1], rest);
    }
  }
}
