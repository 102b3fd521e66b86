/** The two proportional-fair listings: pick the backlogged UE with the highest ratio
    of instantaneous to average rate, then smooth the averages.

    Rates are reals; alpha is the smoothing factor (0.1 in the listings) and eps the
    EPSILON that keeps the second listing's divisor away from zero. actualRate is the
    rate that goes into the average: actual_rate, or current_rate in the first listing. */
module PfScheduler {
  import opened Reals

  datatype Ue = Ue(hasData: bool, instRate: real, actualRate: real, avgRate: real)

  // --------------------------------------------------------------- selection

  /** best is the first of the greatest positive metrics among the first n, or -1. */
  ghost predicate IsBest(ms: seq<real>, n: nat, best: int)
    requires n <= |ms|
  {
    && -1 <= best < n
    && (best >= 0 ==> ms[best] > 0.0)
    && (best >= 0 ==> forall j :: 0 <= j < n ==> ms[j] <= ms[best])
    && (best >= 0 ==> forall j :: 0 <= j < best ==> ms[j] < ms[best])
    && (best == -1 ==> forall j :: 0 <= j < n ==> ms[j] <= 0.0)
  }

  function Best(ms: seq<real>, n: nat): (best: int)
    requires n <= |ms|
    ensures IsBest(ms, n, best)
  {
    if n == 0 then -1 else
    var best := Best(ms, n - 1);
    if ms[n - 1] > (if best == -1 then 0.0 else ms[best]) then n - 1 else best
  }

  /** IsBest leaves no choice, so Best is determined by it. */
  lemma BestIsUnique(ms: seq<real>, best: int)
    requires IsBest(ms, |ms|, best)
    ensures Best(ms, |ms|) == best
  {
  }

  // --------------------------------------------------------------- averaging

  /** The exponential moving average. */
  function Smooth(alpha: real, avg: real, rNow: real): real {
    (1.0 - alpha) * avg + alpha * rNow
  }

  function RateNow(ue: Ue, wasScheduled: bool): real {
    if wasScheduled then ue.actualRate else 0.0
  }

  function Aged(ue: Ue, wasScheduled: bool, alpha: real): Ue {
    ue.(avgRate := Smooth(alpha, ue.avgRate, RateNow(ue, wasScheduled)))
  }

  /** The average moves towards the rate of this TTI without reaching it, and its
      distance shrinks by 1 - alpha; nothing else about the UE changes. */
  lemma AgedStaysBetween(ue: Ue, wasScheduled: bool, alpha: real)
    requires 0.0 < alpha < 1.0
    ensures var r, now := Aged(ue, wasScheduled, alpha), RateNow(ue, wasScheduled);
            && r.(avgRate := ue.avgRate) == ue
            && r.avgRate - now == Times(1.0 - alpha, ue.avgRate - now)
            && (ue.avgRate < now ==> ue.avgRate < r.avgRate < now)
            && (ue.avgRate == now ==> r.avgRate == now)
            && (now < ue.avgRate ==> now < r.avgRate < ue.avgRate)
  {
    SmoothIsBetween(alpha, ue.avgRate, RateNow(ue, wasScheduled));
  }

  lemma SmoothIsBetween(alpha: real, avg: real, rNow: real)
    requires 0.0 < alpha < 1.0
    ensures Smooth(alpha, avg, rNow) - rNow == Times(1.0 - alpha, avg - rNow)
    ensures avg < rNow ==> avg < Smooth(alpha, avg, rNow) < rNow
    ensures avg == rNow ==> Smooth(alpha, avg, rNow) == rNow
    ensures rNow < avg ==> rNow < Smooth(alpha, avg, rNow) < avg
  {
    Shrinks(1.0 - alpha, avg - rNow);
    assert Smooth(alpha, avg, rNow) - rNow == Times(1.0 - alpha, avg - rNow);
  }

  method UpdateAvgRate(ue: Ue, wasScheduled: bool, alpha: real) returns (r: Ue)
    ensures r == Aged(ue, wasScheduled, alpha)
  {
    var rNow := if wasScheduled then ue.actualRate else 0.0;
    r := ue.(avgRate := (1.0 - alpha) * ue.avgRate + alpha * rNow);
  }

  // ------------------------------------- the second listing: everyone is aged

  datatype Config = Config(alpha: real, eps: real) {
    predicate Ok() {
      0.0 < alpha < 1.0 && 0.0 < eps
    }
  }

  function Divisor(ue: Ue, eps: real): real {
    if ue.avgRate < eps then eps else ue.avgRate
  }

  function PfPriority(ue: Ue, eps: real): real
    requires 0.0 < eps
  {
    ue.instRate / Divisor(ue, eps)
  }

  /** A UE without data counts as 0, which is never chosen. */
  function Priorities(ues: seq<Ue>, eps: real): (ms: seq<real>)
    requires 0.0 < eps
    ensures |ms| == |ues|
  {
    seq(|ues|, i requires 0 <= i < |ues| => if ues[i].hasData then PfPriority(ues[i], eps) else 0.0)
  }

  function Chosen(ues: seq<Ue>, cfg: Config): (best: int)
    requires cfg.Ok()
    ensures -1 <= best < |ues|
    ensures best >= 0 ==>
              && ues[best].hasData && PfPriority(ues[best], cfg.eps) > 0.0
              && (forall j :: 0 <= j < |ues| && ues[j].hasData ==>
                    PfPriority(ues[j], cfg.eps) <= PfPriority(ues[best], cfg.eps))
              && (forall j :: 0 <= j < best && ues[j].hasData ==>
                    PfPriority(ues[j], cfg.eps) < PfPriority(ues[best], cfg.eps))
    ensures best == -1 ==> forall j :: 0 <= j < |ues| && ues[j].hasData ==> PfPriority(ues[j], cfg.eps) <= 0.0
  {
    var ms := Priorities(ues, cfg.eps);
    assert forall j :: 0 <= j < |ues| && ues[j].hasData ==> ms[j] == PfPriority(ues[j], cfg.eps);
    Best(ms, |ms|)
  }

  function Tti(ues: seq<Ue>, cfg: Config): (r: seq<Ue>)
    requires cfg.Ok()
    ensures |r| == |ues|
  {
    var best := Chosen(ues, cfg);
    seq(|ues|, i requires 0 <= i < |ues| => Aged(ues[i], i == best, cfg.alpha))
  }

  method SelectPf(ues: array<Ue>, cfg: Config) returns (best: int)
    requires cfg.Ok()
    ensures best == Chosen(ues[..], cfg)
  {
    best := -1;
    var maxMetric := 0.0;
    ghost var ms := Priorities(ues[..], cfg.eps);
    for i := 0 to ues.Length
      invariant best == Best(ms, i)
      invariant maxMetric == if best == -1 then 0.0 else ms[best]
    {
      if ues[i].hasData {
        var metric := PfPriority(ues[i], cfg.eps);
        if metric > maxMetric {
          maxMetric, best := metric, i;
        }
      }
    }
  }

  /** One TTI in place: select, then update_avg_rate on every UE. */
  method ScheduleTti(ues: array<Ue>, cfg: Config) returns (best: int)
    requires cfg.Ok()
    modifies ues
    ensures best == Chosen(old(ues[..]), cfg)
    ensures ues[..] == Tti(old(ues[..]), cfg)
  {
    best := SelectPf(ues, cfg);
    for i := 0 to ues.Length
      invariant forall j :: 0 <= j < i ==> ues[j] == Aged(old(ues[j]), j == best, cfg.alpha)
      invariant forall j :: i <= j < ues.Length ==> ues[j] == old(ues[j])
    {
      var ue := UpdateAvgRate(ues[i], i == best, cfg.alpha);
      ues[i] := ue;
    }
  }

  // -------------------------------- the first listing: only the chosen is aged

  /** pf_metric divides by the average as it is, which must not be zero. */
  predicate Started(ues: seq<Ue>) {
    forall i :: 0 <= i < |ues| ==> ues[i].avgRate > 0.0 && ues[i].actualRate >= 0.0
  }

  function PfMetric(ue: Ue): real
    requires ue.avgRate > 0.0
  {
    ue.instRate / ue.avgRate
  }

  function Metrics(ues: seq<Ue>): (ms: seq<real>)
    requires Started(ues)
    ensures |ms| == |ues|
  {
    seq(|ues|, i requires 0 <= i < |ues| => if ues[i].hasData then PfMetric(ues[i]) else 0.0)
  }

  function ChosenByMetric(ues: seq<Ue>): int
    requires Started(ues)
  {
    Best(Metrics(ues), |ues|)
  }

  function TtiBestOnly(ues: seq<Ue>, alpha: real): (r: seq<Ue>)
    requires 0.0 < alpha < 1.0 && Started(ues)
    ensures |r| == |ues| && Started(r)
  {
    var best := ChosenByMetric(ues);
    if best < 0 then ues else
    SmoothIsBetween(alpha, ues[best].avgRate, ues[best].actualRate);
    ues[best := Aged(ues[best], true, alpha)]
  }

  /** select_pf, which ages the UE it returns. */
  method SelectPfAndAge(ues: array<Ue>, alpha: real) returns (best: int)
    requires 0.0 < alpha < 1.0 && Started(ues[..])
    modifies ues
    ensures best == ChosenByMetric(old(ues[..]))
    ensures ues[..] == TtiBestOnly(old(ues[..]), alpha)
  {
    best := -1;
    var maxMetric := 0.0;
    ghost var ms := Metrics(ues[..]);
    for i := 0 to ues.Length
      invariant ues[..] == old(ues[..]) && best == Best(ms, i)
      invariant maxMetric == if best == -1 then 0.0 else ms[best]
    {
      assert ues[i] == ues[..][i];
      if ues[i].hasData {
        var metric := PfMetric(ues[i]);
        if metric > maxMetric {
          maxMetric, best := metric, i;
        }
      }
    }
    if best >= 0 {
      var ue := UpdateAvgRate(ues[best], true, alpha);
      ues[best] := ue;
    }
  }

  // ------------------------------------------------------------------ decay

  /** The average after t TTIs without service. */
  function Decayed(avg: real, alpha: real, t: nat): real {
    if t == 0 then avg else Smooth(alpha, Decayed(avg, alpha, t - 1), 0.0)
  }

  lemma {:induction false} DecayedShrinks(avg: real, alpha: real, m: nat, n: nat)
    requires 0.0 < alpha < 1.0 && 0.0 < avg && m <= n
    ensures 0.0 < Decayed(avg, alpha, n) <= Decayed(avg, alpha, m)
    decreases n
  {
    if n > 0 {
      DecayedShrinks(avg, alpha, if m < n then m else m - 1, n - 1);
      SmoothIsBetween(alpha, Decayed(avg, alpha, n - 1), 0.0);
    }
  }

  lemma SmoothGrows(alpha: real, x: real, y: real, rNow: real)
    requires 0.0 < alpha < 1.0 && x <= y
    ensures Smooth(alpha, x, rNow) <= Smooth(alpha, y, rNow)
  {
    assert Smooth(alpha, y, rNow) - Smooth(alpha, x, rNow) == Times(1.0 - alpha, y - x);
    if x < y { TimesPositive(1.0 - alpha, y - x); }
  }

  lemma {:induction false} DecayedGrows(x: real, y: real, alpha: real, n: nat)
    requires 0.0 < alpha < 1.0 && x <= y
    ensures Decayed(x, alpha, n) <= Decayed(y, alpha, n)
  {
    if n > 0 {
      DecayedGrows(x, y, alpha, n - 1);
      SmoothGrows(alpha, Decayed(x, alpha, n - 1), Decayed(y, alpha, n - 1), 0.0);
    }
  }

  lemma {:induction false} DecayedAgain(avg: real, alpha: real, m: nat, n: nat)
    ensures Decayed(Decayed(avg, alpha, m), alpha, n) == Decayed(avg, alpha, m + n)
  {
    if n > 0 { DecayedAgain(avg, alpha, m, n - 1); }
  }

  /** Bernoulli's inequality, for the decaying average. */
  lemma {:induction false} DecayRate(avg: real, alpha: real, c: nat, d: real)
    requires 0.0 < alpha < 1.0 && 0.0 < avg
    requires d == 1.0 + Times(c as real, alpha)
    ensures Times(Decayed(avg, alpha, c), d) <= avg
  {
    if c > 0 {
      var k := (c - 1) as real;
      var e := 1.0 + Times(k, alpha);
      DecayRate(avg, alpha, c - 1, e);
      DecayedShrinks(avg, alpha, 0, c - 1);
      assert c as real == k + 1.0;
      Bernoulli(Decayed(avg, alpha, c - 1), alpha, k, e, d);
    }
  }

  lemma Bernoulli(p: real, a: real, k: real, e: real, d: real)
    requires 0.0 <= k && 0.0 < a < 1.0 && 0.0 < p
    requires e == 1.0 + Times(k, a) && d == 1.0 + Times(k + 1.0, a)
    ensures Times(Smooth(a, p, 0.0), d) <= Times(p, e)
  {
    assert d == e + a;
    assert e >= 1.0 by { NonNegTimes(k, a); }
    assert (1.0 - a) * (e + a) == e + a - a * e - a * a;
    assert a * e >= a by { LessTimes(1.0, e, a); }
    assert a * a >= 0.0;
    LessTimes((1.0 - a) * d, e, p);
    assert ((1.0 - a) * p) * d == p * ((1.0 - a) * d);
  }

  /** Without service an average falls below any positive target, within
      avg / target / alpha + 1 TTIs. */
  lemma DecaysBelow(avg: real, target: real, alpha: real) returns (c: nat)
    requires 0.0 < alpha < 1.0 && 0.0 < target && 0.0 < avg
    ensures c as real <= avg / target / alpha + 1.0
    ensures Decayed(avg, alpha, c) < target
  {
    var x := avg / target;
    Quotient(avg, target);
    var y := x / alpha;
    Quotient(x, alpha);
    c := y.Floor + 1;
    var d := 1.0 + Times(c as real, alpha);
    LessTimes(y, c as real, alpha);
    DecayRate(avg, alpha, c, d);
    LessTimes(x, d, target);
    assert avg < Times(d, target);
    Cancel(Decayed(avg, alpha, c), target, d, avg);
  }

  lemma Cancel(p: real, r: real, d: real, avg: real)
    requires Times(p, d) <= avg < Times(d, r) && 0.0 < d
    ensures p < r
  {
    if p >= r { LessTimes(r, p, d); }
  }
}
