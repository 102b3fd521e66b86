/** Order and division facts about products of reals. */
module Reals {
  /** A product as a term of its own, so that equal factors make equal products. */
  function Times(x: real, y: real): real {
    x * y
  }

  lemma TimesAdds(x: real, y: real, z: real)
    ensures Times(x, y + z) == Times(x, y) + Times(x, z)
  {
  }

  lemma NonNegTimes(x: real, y: real)
    requires 0.0 <= x && 0.0 <= y
    ensures 0.0 <= Times(x, y)
  {
  }

  lemma NonPositiveTimes(x: real, y: real)
    requires x <= 0.0 && 0.0 < y
    ensures Times(x, y) <= 0.0 && Times(y, x) <= 0.0
  {
  }

  lemma LessTimes(x: real, y: real, z: real)
    requires x <= y && 0.0 < z
    ensures Times(x, z) <= Times(y, z) && Times(z, x) <= Times(z, y)
    ensures x < y ==> Times(x, z) < Times(y, z) && Times(z, x) < Times(z, y)
  {
  }

  lemma SameOrder(z: real, x: real, y: real)
    requires 0.0 < z
    ensures Times(z, x) < Times(z, y) <==> x < y
  {
    if x < y { LessTimes(x, y, z); } else { LessTimes(y, x, z); }
  }

  lemma TimesPositive(x: real, y: real)
    requires 0.0 < x && 0.0 < y
    ensures 0.0 < Times(x, y)
  {
  }

  lemma TimesSubtracts(x: real, y: real, z: real)
    ensures Times(x - y, z) == Times(x, z) - Times(y, z)
    ensures Times(x, -z) == -Times(x, z)
  {
  }

  lemma TimesOne(x: real)
    ensures Times(1.0, x) == x
  {
  }

  /** A factor between 0 and 1 takes a number towards zero, not across it. */
  lemma Shrinks(q: real, d: real)
    requires 0.0 < q < 1.0
    ensures 0.0 < d ==> 0.0 < Times(q, d) < d
    ensures d < 0.0 ==> d < Times(q, d) < 0.0
  {
    TimesSubtracts(1.0, q, d);
    TimesSubtracts(q, 0.0, d);
    TimesSubtracts(1.0 - q, 0.0, d);
    TimesOne(d);
    if d > 0.0 {
      TimesPositive(q, d);
      TimesPositive(1.0 - q, d);
    }
    if d < 0.0 {
      TimesPositive(q, -d);
      TimesPositive(1.0 - q, -d);
    }
  }

  lemma Quotient(x: real, d: real)
    requires 0.0 < x && 0.0 < d
    ensures 0.0 < x / d && Times(x / d, d) == x
  {
  }

  /** Comparing fractions by their cross products. */
  lemma RatioOrder(x: real, d: real, y: real, e: real)
    requires 0.0 < d && 0.0 < e
    ensures x / d < y / e <==> Times(x, e) < Times(y, d)
    ensures x / d == y / e <==> Times(x, e) == Times(y, d)
  {
    var p, q := x / d, y / e;
    assert p * d == x && q * e == y;
    assert Times(x, e) - Times(y, d) == (p - q) * (d * e);
    assert d * e > 0.0;
  }

  lemma RatioPositive(x: real, d: real)
    requires 0.0 < d
    ensures x / d > 0.0 <==> x > 0.0
  {
    assert x == (x / d) * d;
  }
}
