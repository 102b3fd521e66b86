/** How large EPSILON may be. UEs of lower rate cannot keep a UE waiting whose average has
    been clamped to EPSILON; among m others a UE is served for good, from every state and
    under every backlog, if eps * (1 + q + ... + q^(m-1)) < share * rate * q^(m-1), where
    q = 1 - alpha. PfRoundRobin shows that no larger EPSILON will do. */
module PfEpsilon {
  import opened Reals
  import opened PfScheduler
  import opened PfFairness

  /** 1 + q + ... + q^(m-1). */
  function Geometric(alpha: real, m: nat): real {
    if m == 0 then 0.0 else Geometric(alpha, m - 1) + Decayed(1.0, alpha, m - 1)
  }

  predicate EpsSuffices(rate: real, rivals: nat, share: real, cfg: Config) {
    rivals == 0 ||
    Times(cfg.eps, Geometric(cfg.alpha, rivals)) < Times(Times(share, rate), Decayed(1.0, cfg.alpha, rivals - 1))
  }

  /** Against one other UE the bound is the share of its rate itself; against two, with
      alpha = 0.1, it is 9/19 of that. */
  lemma SmallCases(rate: real, share: real, eps: real)
    requires 0.0 < eps
    ensures EpsSuffices(rate, 1, share, Config(0.1, eps)) <==> eps < Times(share, rate)
    ensures EpsSuffices(rate, 2, share, Config(0.1, eps)) <==> 1.9 * eps < 0.9 * Times(share, rate)
  {
    assert Decayed(1.0, 0.1, 0) == 1.0 && Decayed(1.0, 0.1, 1) == Smooth(0.1, Decayed(1.0, 0.1, 0), 0.0);
    assert Geometric(0.1, 1) == Geometric(0.1, 0) + 1.0;
    assert Geometric(0.1, 2) == Geometric(0.1, 1) + 0.9;
  }

  lemma {:induction false} GeometricIs(alpha: real, m: nat)
    ensures Times(alpha, Geometric(alpha, m)) == 1.0 - Decayed(1.0, alpha, m)
  {
    if m > 0 {
      GeometricIs(alpha, m - 1);
      TimesAdds(alpha, Geometric(alpha, m - 1), Decayed(1.0, alpha, m - 1));
    }
  }

  lemma {:induction false} GeometricGrows(alpha: real, m: nat, n: nat)
    requires 0.0 < alpha < 1.0 && m <= n
    ensures 0.0 <= Geometric(alpha, m) <= Geometric(alpha, n)
    ensures m < n ==> Geometric(alpha, m) < Geometric(alpha, n)
    decreases n
  {
    if n > 0 {
      DecayedShrinks(1.0, alpha, 0, n - 1);
      GeometricGrows(alpha, if m < n then m else m - 1, n - 1);
    }
  }

  // ------------------------------------------------ averages in order of service

  function Total(ys: seq<real>): real {
    if ys == [] then 0.0 else Total(ys[..|ys| - 1]) + ys[|ys| - 1]
  }

  /** Which place comes to place k when place p comes to the front. */
  function From(k: nat, p: nat): nat {
    if k == 0 then p else if k <= p then k - 1 else k
  }

  /** One TTI: the one in place p is served at rate 1 and comes first; the others decay. */
  function ServeAt(ys: seq<real>, p: nat, alpha: real): (r: seq<real>)
    requires p < |ys|
    ensures |r| == |ys|
  {
    seq(|ys|, k requires 0 <= k < |ys| => Smooth(alpha, ys[From(k, p)], if k == 0 then 1.0 else 0.0))
  }

  lemma {:induction false} TotalServed(ys: seq<real>, p: nat, n: nat, alpha: real)
    requires p < |ys| && 0 < n <= |ys|
    ensures Total(ServeAt(ys, p, alpha)[..n]) ==
            if n <= p then Smooth(alpha, Total(ys[..n - 1]) + ys[p], 1.0) else Smooth(alpha, Total(ys[..n]), 1.0)
  {
    var r := ServeAt(ys, p, alpha);
    assert r[..n][..n - 1] == r[..n - 1] && ys[..n][..n - 1] == ys[..n - 1];
    if n > 1 {
      TotalServed(ys, p, n - 1, alpha);
      assert ys[..n - 1][..n - 2] == ys[..n - 2];
      if n <= p {
        SmoothAdds(alpha, Total(ys[..n - 2]) + ys[p], ys[n - 2]);
      } else if n - 1 <= p {
        SmoothAdds(alpha, Total(ys[..n - 2]) + ys[p], ys[n - 2]);
      } else {
        SmoothAdds(alpha, Total(ys[..n - 1]), ys[n - 1]);
      }
    } else {
      assert r[..1] == [r[0]] && r[..0] == [] && ys[..0] == [] && ys[..1] == [ys[0]];
      assert Total(r[..1]) == r[0] && Total(ys[..1]) == ys[0];
    }
  }

  lemma SmoothAdds(alpha: real, x: real, y: real)
    ensures Smooth(alpha, x, 1.0) + Smooth(alpha, y, 0.0) == Smooth(alpha, x + y, 1.0)
    ensures Smooth(alpha, x, 0.0) + Smooth(alpha, y, 0.0) == Smooth(alpha, x + y, 0.0)
  {
  }

  /** The k-th last served is at most level, decayed k times, plus what is left of the start. */
  ghost predicate Below(ys: seq<real>, level: real, slack: real, alpha: real) {
    forall k :: 0 <= k < |ys| ==> ys[k] <= Decayed(level, alpha, k) + slack
  }

  lemma ServeKeepsBelow(ys: seq<real>, p: nat, beta: real, slack: real, alpha: real)
    requires 0.0 < alpha < 1.0 && 0.0 < beta && 0.0 < slack && p < |ys| && ys[p] <= beta
    requires Below(ys, Smooth(alpha, beta, 1.0), slack, alpha)
    ensures Below(ServeAt(ys, p, alpha), Smooth(alpha, beta, 1.0), Smooth(alpha, slack, 0.0), alpha)
  {
    var level, r := Smooth(alpha, beta, 1.0), ServeAt(ys, p, alpha);
    SmoothIsBetween(alpha, beta, 1.0);
    SmoothIsBetween(alpha, slack, 0.0);
    forall k | 0 <= k < |r| ensures r[k] <= Decayed(level, alpha, k) + Smooth(alpha, slack, 0.0) {
      if k == 0 {
        SmoothGrows(alpha, ys[p], beta, 1.0);
      } else {
        var from := if k <= p then k - 1 else k;
        SmoothGrows(alpha, ys[from], Decayed(level, alpha, from) + slack, 0.0);
        SmoothAdds(alpha, Decayed(level, alpha, from), slack);
        DecayedShrinks(level, alpha, k, from + 1);
      }
    }
  }

  lemma ServeKeepsTotal(ys: seq<real>, p: nat, rest: real, alpha: real)
    requires 0.0 < alpha < 1.0 && p < |ys| && Total(ys) >= 1.0 - rest
    ensures Total(ServeAt(ys, p, alpha)) >= 1.0 - Smooth(alpha, rest, 0.0)
  {
    TotalServed(ys, p, |ys|, alpha);
    assert ys[..|ys|] == ys && ServeAt(ys, p, alpha)[..|ys|] == ServeAt(ys, p, alpha);
    SmoothGrows(alpha, 1.0 - rest, Total(ys), 1.0);
  }

  lemma {:induction false} DecayedScales(level: real, alpha: real, k: nat)
    ensures Decayed(level, alpha, k) == Times(level, Decayed(1.0, alpha, k))
  {
    if k == 0 {
      assert Times(level, 1.0) == level;
    } else {
      DecayedScales(level, alpha, k - 1);
      ScaleIdle(level, alpha, Decayed(1.0, alpha, k - 1));
    }
  }

  lemma ScaleIdle(level: real, alpha: real, d: real)
    ensures Smooth(alpha, Times(level, d), 0.0) == Times(level, Smooth(alpha, d, 0.0))
  {
    assert level * ((1.0 - alpha) * d) == (1.0 - alpha) * (level * d);
  }

  lemma {:induction false} TotalBelow(ys: seq<real>, level: real, slack: real, alpha: real)
    requires Below(ys, level, slack, alpha)
    ensures Total(ys) <= Times(level, Geometric(alpha, |ys|)) + Times(|ys| as real, slack)
  {
    if ys != [] {
      var n := |ys| - 1;
      TotalBelow(ys[..n], level, slack, alpha);
      DecayedScales(level, alpha, n);
      TimesAdds(level, Geometric(alpha, n), Decayed(1.0, alpha, n));
      OneMoreTime(n as real, slack);
      assert |ys| as real == n as real + 1.0;
    }
  }

  lemma OneMoreTime(n: real, x: real)
    ensures Times(n + 1.0, x) == Times(n, x) + x
  {
  }

  // ------------------------------------------------- while UE i is not chosen

  /** j is preferred to i when both are clamped: a higher rate, or the same and a lower index. */
  ghost predicate Rival(ues: seq<Ue>, j: nat, i: nat)
    requires j < |ues| && i < |ues|
  {
    ues[j].instRate > ues[i].instRate || (ues[j].instRate == ues[i].instRate && j < i)
  }

  ghost function RivalCount(ues: seq<Ue>, i: nat, n: nat): (c: nat)
    requires i < |ues| && n <= |ues|
    ensures c <= if i < n then n - 1 else n
  {
    if n == 0 then 0 else RivalCount(ues, i, n - 1) + if Rival(ues, n - 1, i) then 1 else 0
  }

  ghost predicate NonNeg(ue: Ue) {
    ue.avgRate >= 0.0 && ue.actualRate >= 0.0
  }

  /** Service puts at least this share of its rate into the average of every rival of i. */
  ghost predicate RivalsRise(ues: seq<Ue>, i: nat, share: real)
    requires i < |ues|
  {
    && (forall j :: 0 <= j < |ues| ==> NonNeg(ues[j]))
    && (forall j :: 0 <= j < |ues| && Rival(ues, j, i) ==> ues[j].actualRate >= Times(share, ues[j].instRate))
  }

  /** order lists the rivals of i, last served first. */
  ghost predicate Race(now: seq<Ue>, i: nat, order: seq<nat>)
    requires i < |now|
  {
    && (forall k :: 0 <= k < |order| ==> Competes(now, i, order[k]))
    && Distinct(order)
    && (forall j :: 0 <= j < |now| && Rival(now, j, i) ==> j in order)
  }

  ghost predicate Competes(now: seq<Ue>, i: nat, j: nat)
    requires i < |now|
  {
    j < |now| && Rival(now, j, i) && now[j].actualRate > 0.0
  }

  ghost predicate Distinct(order: seq<nat>) {
    forall k, l :: 0 <= k < l < |order| ==> order[k] != order[l]
  }

  /** The average in units of what service puts into it. */
  function Relative(ue: Ue): real {
    if ue.actualRate > 0.0 then ue.avgRate / ue.actualRate else 0.0
  }

  ghost function Relatives(now: seq<Ue>, i: nat, order: seq<nat>): (ys: seq<real>)
    requires i < |now| && Race(now, i, order)
    ensures |ys| == |order|
  {
    seq(|order|, k requires 0 <= k < |order| => Relative(now[order[k]]))
  }

  function ToFront(order: seq<nat>, p: nat): (r: seq<nat>)
    requires p < |order|
    ensures |r| == |order|
  {
    seq(|order|, k requires 0 <= k < |order| => order[From(k, p)])
  }

  lemma RelativeSmooth(ue: Ue, hit: bool, alpha: real)
    requires ue.actualRate > 0.0
    ensures Relative(Aged(ue, hit, alpha)) == Smooth(alpha, Relative(ue), if hit then 1.0 else 0.0)
  {
    var x := Relative(ue);
    assert Times(x, ue.actualRate) == ue.avgRate;
    var r := if hit then 1.0 else 0.0;
    assert RateNow(ue, hit) == Times(r, ue.actualRate);
    SmoothTimes(alpha, x, r, ue.actualRate);
    OverItself(Smooth(alpha, x, r), ue.actualRate);
  }

  lemma SmoothTimes(alpha: real, x: real, r: real, z: real)
    ensures Smooth(alpha, Times(x, z), Times(r, z)) == Times(Smooth(alpha, x, r), z)
  {
  }

  lemma OverItself(x: real, d: real)
    requires 0.0 < d
    ensures Times(x, d) / d == x
  {
  }

  lemma ToFrontKeeps(order: seq<nat>, p: nat)
    requires p < |order| && Distinct(order)
    ensures Distinct(ToFront(order, p))
    ensures forall j :: j in ToFront(order, p) <==> j in order
  {
    var r := ToFront(order, p);
    forall k, l | 0 <= k < l < |r| ensures r[k] != r[l] {
      var x, y := From(k, p), From(l, p);
      assert r[k] == order[x] && r[l] == order[y] && x != y;
      assert order[if x < y then x else y] != order[if x < y then y else x];
    }
    forall k | 0 <= k < |order| ensures order[k] in r {
      assert r[if k == p then 0 else if k < p then k + 1 else k] == order[k];
    }
    forall k | 0 <= k < |r| ensures r[k] in order {
      assert r[k] == order[From(k, p)];
    }
  }

  /** Who is chosen instead of a UE clamped to eps is a rival and has a low average itself. */
  lemma ChosenIsLow(now: seq<Ue>, i: nat, beta: real, share: real, cfg: Config)
    requires cfg.Ok() && i < |now| && 0.0 < share && RivalsRise(now, i, share)
    requires now[i].hasData && now[i].instRate > 0.0 && now[i].avgRate <= cfg.eps
    requires Times(beta, Times(share, now[i].instRate)) == cfg.eps
    requires Chosen(now, cfg) != i
    ensures var c := Chosen(now, cfg); c >= 0 && Competes(now, i, c) && Relative(now[c]) <= beta
  {
    var c := Chosen(now, cfg);
    ChosenIsRival(now, i, cfg);
    TimesPositive(share, now[c].instRate);
    RatioOrder(now[c].instRate, Divisor(now[c], cfg.eps), now[i].instRate, cfg.eps);
    assert Divisor(now[i], cfg.eps) == cfg.eps;
    LowAverage(now[c], now[i].instRate, Divisor(now[c], cfg.eps), beta, share, cfg.eps);
  }

  lemma ChosenIsRival(now: seq<Ue>, i: nat, cfg: Config)
    requires cfg.Ok() && i < |now| && Chosen(now, cfg) != i
    requires now[i].hasData && now[i].instRate > 0.0 && now[i].avgRate <= cfg.eps
    ensures var c := Chosen(now, cfg); c >= 0 && now[c].instRate > 0.0 && Rival(now, c, i)
  {
    var c := Chosen(now, cfg);
    RatioPositive(now[i].instRate, cfg.eps);
    RatioPositive(now[c].instRate, Divisor(now[c], cfg.eps));
    assert Divisor(now[i], cfg.eps) == cfg.eps;
    RatioOrder(now[c].instRate, Divisor(now[c], cfg.eps), now[i].instRate, cfg.eps);
    LessTimes(cfg.eps, Divisor(now[c], cfg.eps), now[i].instRate);
    SameOrder(cfg.eps, now[c].instRate, now[i].instRate);
    assert Times(cfg.eps, now[c].instRate) == Times(now[c].instRate, cfg.eps);
    assert Times(cfg.eps, now[i].instRate) == Times(now[i].instRate, cfg.eps);
  }

  lemma LowAverage(ue: Ue, rate: real, d: real, beta: real, share: real, eps: real)
    requires 0.0 < rate && 0.0 < share && 0.0 < eps && 0.0 < ue.instRate
    requires ue.avgRate <= d && Times(rate, d) <= Times(ue.instRate, eps)
    requires ue.actualRate >= Times(share, ue.instRate) && ue.actualRate > 0.0
    requires Times(beta, Times(share, rate)) == eps
    ensures Relative(ue) <= beta
  {
    TimesPositive(share, rate);
    if beta <= 0.0 { NonPositiveTimes(beta, Times(share, rate)); }
    assert Times(ue.instRate, eps) == Times(rate, Times(beta, Times(share, ue.instRate)));
    var top := Times(beta, Times(share, ue.instRate));
    if d > top { LessTimes(top, d, rate); }
    LessTimes(Times(share, ue.instRate), ue.actualRate, beta);
    assert ue.avgRate <= Times(beta, ue.actualRate);
    var y := Relative(ue);
    assert Times(y, ue.actualRate) == ue.avgRate;
    if y > beta { LessTimes(beta, y, ue.actualRate); }
  }

  lemma RaceGoesOn(now: seq<Ue>, i: nat, order: seq<nat>, p: nat, cfg: Config)
    requires cfg.Ok() && i < |now| && Race(now, i, order) && p < |order|
    ensures Race(Tti(now, cfg), i, ToFront(order, p))
  {
    var next, r := Tti(now, cfg), ToFront(order, p);
    ToFrontKeeps(order, p);
    forall k | 0 <= k < |r| ensures Competes(next, i, r[k]) {
      assert r[k] in order;
      assert Competes(now, i, r[k]);
    }
    forall j | 0 <= j < |next| && Rival(next, j, i) ensures j in r {
      assert Rival(now, j, i);
    }
  }

  /** One TTI of the race, seen in order of service. */
  lemma RaceStep(now: seq<Ue>, i: nat, order: seq<nat>, p: nat, cfg: Config)
    requires cfg.Ok() && i < |now| && Race(now, i, order) && p < |order| && Chosen(now, cfg) == order[p]
    ensures var next := Tti(now, cfg);
            && Race(next, i, ToFront(order, p))
            && Relatives(next, i, ToFront(order, p)) == ServeAt(Relatives(now, i, order), p, cfg.alpha)
  {
    RaceGoesOn(now, i, order, p, cfg);
    var next, order' := Tti(now, cfg), ToFront(order, p);
    var ys, r := Relatives(now, i, order), Relatives(next, i, order');
    forall k | 0 <= k < |order'| ensures r[k] == ServeAt(ys, p, cfg.alpha)[k] {
      RelativeStep(now, order, k, p, cfg);
    }
  }

  lemma RelativeStep(now: seq<Ue>, order: seq<nat>, k: nat, p: nat, cfg: Config)
    requires cfg.Ok() && k < |order| && p < |order| && Distinct(order) && Chosen(now, cfg) == order[p]
    requires order[From(k, p)] < |now| && now[order[From(k, p)]].actualRate > 0.0
    ensures Relative(Tti(now, cfg)[order[From(k, p)]])
            == Smooth(cfg.alpha, Relative(now[order[From(k, p)]]), if k == 0 then 1.0 else 0.0)
  {
    var from := From(k, p);
    assert from == p <==> k == 0;
    assert from < p ==> order[from] != order[p];
    assert p < from ==> order[p] != order[from];
    RelativeSmooth(now[order[from]], k == 0, cfg.alpha);
  }

  /** While UE i waits, clamped, the averages of its rivals add up to almost 1, yet in
      order of service none exceeds what it can have if it was low when served. */
  ghost predicate Holding(now: seq<Ue>, i: nat, order: seq<nat>, t: nat, beta: real, slack: real,
                          share: real, cfg: Config) {
    && i < |now| && RivalsRise(now, i, share) && now[i].avgRate <= cfg.eps && Race(now, i, order)
    && Below(Relatives(now, i, order), Smooth(cfg.alpha, beta, 1.0), slack, cfg.alpha)
    && Total(Relatives(now, i, order)) >= 1.0 - Decayed(1.0, cfg.alpha, t)
  }

  lemma LoadKeepsHolding(now: seq<Ue>, backlog: set<nat>, i: nat, order: seq<nat>, t: nat, beta: real, slack: real,
                         share: real, cfg: Config)
    requires Holding(now, i, order, t, beta, slack, share, cfg)
    ensures Holding(Load(now, backlog), i, order, t, beta, slack, share, cfg)
  {
    var loaded := Load(now, backlog);
    LoadKeepsRise(now, backlog, i, share);
    assert forall k :: 0 <= k < |order| ==> Competes(now, i, order[k]);
    forall j | 0 <= j < |loaded| && Rival(loaded, j, i) ensures j in order { assert Rival(now, j, i); }
    assert Race(loaded, i, order);
    assert Relatives(loaded, i, order) == Relatives(now, i, order);
  }

  lemma LoadKeepsRise(now: seq<Ue>, backlog: set<nat>, i: nat, share: real)
    requires i < |now| && RivalsRise(now, i, share)
    ensures RivalsRise(Load(now, backlog), i, share)
  {
    var loaded := Load(now, backlog);
    forall j | 0 <= j < |loaded| && Rival(loaded, j, i)
      ensures loaded[j].actualRate >= Times(share, loaded[j].instRate)
    {
      assert Rival(now, j, i);
    }
    forall j | 0 <= j < |loaded| ensures NonNeg(loaded[j]) { assert NonNeg(now[j]); }
  }

  lemma HoldStep(now: seq<Ue>, backlog: set<nat>, next: seq<Ue>, i: nat, order: seq<nat>, t: nat,
                 beta: real, slack: real, share: real, cfg: Config)
      returns (order': seq<nat>)
    requires cfg.Ok() && 0.0 < share && 0.0 < beta && 0.0 < slack
    requires Holding(now, i, order, t, beta, slack, share, cfg)
    requires now[i].instRate > 0.0 && Times(beta, Times(share, now[i].instRate)) == cfg.eps
    requires Follows(now, backlog, next, cfg) && i in backlog && ChosenFrom(now, backlog, cfg) != i
    ensures |order'| == |order| && i < |next| && SameRates(next[i], now[i])
    ensures Holding(next, i, order', t + 1, beta, Smooth(cfg.alpha, slack, 0.0), share, cfg)
  {
    LoadKeepsHolding(now, backlog, i, order, t, beta, slack, share, cfg);
    var loaded := Load(now, backlog);
    ChosenIsLow(loaded, i, beta, share, cfg);
    var c := Chosen(loaded, cfg);
    var p :| 0 <= p < |order| && order[p] == c;
    order' := ToFront(order, p);
    RaceStep(loaded, i, order, p, cfg);
    var ys := Relatives(loaded, i, order);
    assert ys[p] == Relative(loaded[c]);
    ServeKeepsBelow(ys, p, beta, slack, cfg.alpha);
    ServeKeepsTotal(ys, p, Decayed(1.0, cfg.alpha, t), cfg.alpha);
    WaiterDecays(now, backlog, next, i, share, cfg);
  }

  lemma WaiterDecays(now: seq<Ue>, backlog: set<nat>, next: seq<Ue>, i: nat, share: real, cfg: Config)
    requires cfg.Ok() && i < |now| && RivalsRise(now, i, share)
    requires Follows(now, backlog, next, cfg) && ChosenFrom(now, backlog, cfg) != i
    ensures |next| == |now| && RivalsRise(next, i, share) && SameRates(next[i], now[i])
    ensures next[i].avgRate <= now[i].avgRate
  {
    RiseStep(now, backlog, next, i, share, cfg);
    assert NonNeg(now[i]);
    SmoothIsBetween(cfg.alpha, now[i].avgRate, 0.0);
  }

  lemma RiseStep(now: seq<Ue>, backlog: set<nat>, next: seq<Ue>, i: nat, share: real, cfg: Config)
    requires cfg.Ok() && i < |now| && RivalsRise(now, i, share) && Follows(now, backlog, next, cfg)
    ensures |next| == |now| && RivalsRise(next, i, share)
    ensures forall j :: 0 <= j < |now| ==> SameRates(next[j], now[j])
  {
    var loaded := Load(now, backlog);
    forall j | 0 <= j < |next| ensures NonNeg(next[j]) && SameRates(next[j], now[j]) {
      assert NonNeg(now[j]);
      SmoothIsBetween(cfg.alpha, loaded[j].avgRate, RateNow(loaded[j], j == Chosen(loaded, cfg)));
    }
    forall j | 0 <= j < |next| && Rival(next, j, i) ensures next[j].actualRate >= Times(share, next[j].instRate) {
      assert Rival(now, j, i);
    }
  }

  lemma {:induction false} HoldUntil(run: seq<seq<Ue>>, env: seq<set<nat>>, i: nat, order: seq<nat>, t: nat,
                                     beta: real, top: real, share: real, cfg: Config)
      returns (order': seq<nat>)
    requires cfg.Ok() && IsRun(run, env, cfg) && t <= |env| && i < |run[0]| && AlwaysBacklogged(env, i)
    requires 0.0 < share && 0.0 < beta && 0.0 < top && Holding(run[0], i, order, 0, beta, top, share, cfg)
    requires run[0][i].instRate > 0.0 && Times(beta, Times(share, run[0][i].instRate)) == cfg.eps
    requires forall u :: 0 <= u < t ==> ChosenFrom(run[u], env[u], cfg) != i
    ensures |order'| == |order| && i < |run[t]| && SameRates(run[t][i], run[0][i])
    ensures Holding(run[t], i, order', t, beta, Decayed(top, cfg.alpha, t), share, cfg)
  {
    if t == 0 {
      order' := order;
    } else {
      var before := HoldUntil(run, env, i, order, t - 1, beta, top, share, cfg);
      DecayedShrinks(top, cfg.alpha, 0, t - 1);
      assert Follows(run[t - 1], env[t - 1], run[t - 1 + 1], cfg);
      var slack := Decayed(top, cfg.alpha, t - 1);
      order' := HoldStep(run[t - 1], env[t - 1], run[t], i, before, t - 1, beta, slack, share, cfg);
    }
  }

  lemma {:induction false} FirstOrder(now: seq<Ue>, i: nat, n: nat, share: real) returns (order: seq<nat>)
    requires n <= |now| && i < |now| && 0.0 < share && RivalsRise(now, i, share) && now[i].instRate > 0.0
    ensures forall k :: 0 <= k < |order| ==> order[k] < n && Competes(now, i, order[k])
    ensures Distinct(order)
    ensures forall j :: 0 <= j < n && Rival(now, j, i) ==> j in order
    ensures |order| == RivalCount(now, i, n)
  {
    order := [];
    if n > 0 {
      order := FirstOrder(now, i, n - 1, share);
      if Rival(now, n - 1, i) {
        TimesPositive(share, now[n - 1].instRate);
        order := order + [n - 1];
      }
    }
  }

  lemma {:induction false} TotalNonNeg(ys: seq<real>)
    requires forall k :: 0 <= k < |ys| ==> ys[k] >= 0.0
    ensures Total(ys) >= 0.0
  {
    if ys != [] { TotalNonNeg(ys[..|ys| - 1]); }
  }

  /** No average of a rival exceeds top times what service puts into it, and top bounds
      the average of i as well. */
  ghost predicate Capped(ues: seq<Ue>, i: nat, top: real)
    requires i < |ues|
  {
    && ues[i].avgRate <= top && ues[i].actualRate <= top
    && forall j :: 0 <= j < |ues| && Rival(ues, j, i) ==> ues[j].avgRate <= Times(top, ues[j].actualRate)
  }

  lemma StartHolding(now: seq<Ue>, i: nat, beta: real, top: real, share: real, cfg: Config) returns (order: seq<nat>)
    requires cfg.Ok() && i < |now| && 0.0 < share && RivalsRise(now, i, share) && now[i].avgRate <= cfg.eps
    requires 0.0 < beta && Capped(now, i, top) && now[i].instRate > 0.0
    ensures |order| == RivalCount(now, i, |now|) && Holding(now, i, order, 0, beta, top, share, cfg)
  {
    order := FirstOrder(now, i, |now|, share);
    assert Race(now, i, order);
    var ys, level := Relatives(now, i, order), Smooth(cfg.alpha, beta, 1.0);
    SmoothIsBetween(cfg.alpha, beta, 1.0);
    forall k | 0 <= k < |ys| ensures 0.0 <= ys[k] <= Decayed(level, cfg.alpha, k) + top {
      assert Competes(now, i, order[k]);
      assert NonNeg(now[order[k]]);
      RelativeBounds(now[order[k]], top);
      DecayedShrinks(level, cfg.alpha, 0, k);
    }
    TotalNonNeg(ys);
  }

  lemma RelativeBounds(ue: Ue, top: real)
    requires 0.0 <= ue.avgRate <= Times(top, ue.actualRate) && 0.0 < ue.actualRate
    ensures 0.0 <= Relative(ue) <= top
  {
    var y := Relative(ue);
    assert Times(y, ue.actualRate) == ue.avgRate;
    if y < 0.0 { LessTimes(y, 0.0, ue.actualRate); }
    if y > top { LessTimes(top, y, ue.actualRate); }
  }

  // ------------------------------------------------ it cannot go on for ever

  lemma LevelFits(rate: real, others: nat, beta: real, share: real, cfg: Config)
    requires cfg.Ok() && 0.0 < share && 0.0 < rate && EpsSuffices(rate, others, share, cfg)
    requires Times(beta, Times(share, rate)) == cfg.eps
    ensures Times(Smooth(cfg.alpha, beta, 1.0), Geometric(cfg.alpha, others)) < 1.0
  {
    if others > 0 {
      var g, d := Geometric(cfg.alpha, others), Decayed(1.0, cfg.alpha, others - 1);
      TimesPositive(share, rate);
      assert Times(cfg.eps, g) == Times(Times(share, rate), Times(beta, g));
      if Times(beta, g) >= d { LessTimes(d, Times(beta, g), Times(share, rate)); }
      GeometricIs(cfg.alpha, others);
      SmoothTimes(cfg.alpha, beta, 1.0, g);
      assert Times(1.0, g) == g;
      assert Smooth(cfg.alpha, Times(beta, g), g) < Smooth(cfg.alpha, d, 0.0) + Times(cfg.alpha, g) by {
        LessTimes(Times(beta, g), d, 1.0 - cfg.alpha);
      }
    } else {
      assert Times(Smooth(cfg.alpha, beta, 1.0), 0.0) == 0.0;
    }
  }

  /** m averages that Below bounds cannot add up to what they must after c TTIs. */
  ghost predicate CannotHold(m: nat, level: real, top: real, c: nat, alpha: real) {
    Times(level, Geometric(alpha, m)) + Times(m as real, Decayed(top, alpha, c)) < 1.0 - Decayed(1.0, alpha, c)
  }

  /** How long up to others UEs can hold UE i off once it is clamped. */
  lemma HoldBound(others: nat, level: real, top: real, alpha: real) returns (c: nat)
    requires 0.0 < alpha < 1.0 && 0.0 < level && 0.0 < top
    requires Times(level, Geometric(alpha, others)) < 1.0
    ensures forall m: nat :: m <= others ==> CannotHold(m, level, top, c, alpha)
  {
    var all := 1.0 + Times(others as real, top);
    NonNegTimes(others as real, top);
    c := DecaysBelow(all, 1.0 - Times(level, Geometric(alpha, others)), alpha);
    AllDecayed(others as real, top, alpha, c);
    forall m: nat | m <= others ensures CannotHold(m, level, top, c, alpha) {
      GeometricGrows(alpha, m, others);
      LessTimes(Geometric(alpha, m), Geometric(alpha, others), level);
      DecayedShrinks(top, alpha, 0, c);
      LessTimes(m as real, others as real, Decayed(top, alpha, c));
    }
  }

  lemma AllDecayed(n: real, top: real, alpha: real, c: nat)
    ensures Decayed(1.0 + Times(n, top), alpha, c) == Decayed(1.0, alpha, c) + Times(n, Decayed(top, alpha, c))
  {
    var d := Decayed(1.0, alpha, c);
    DecayedScales(1.0 + Times(n, top), alpha, c);
    DecayedScales(top, alpha, c);
    Distribute(n, top, d);
  }

  lemma Distribute(n: real, x: real, d: real)
    ensures Times(1.0 + Times(n, x), d) == d + Times(n, Times(x, d))
  {
  }

  /** The clamped UE i is served within c TTIs: a capped state from which up to m rivals
      cannot hold it off. */
  ghost predicate Doomed(now: seq<Ue>, i: nat, m: nat, c: nat, beta: real, top: real, share: real, cfg: Config) {
    && i < |now| && RivalsRise(now, i, share) && Capped(now, i, top) && RivalCount(now, i, |now|) <= m
    && now[i].instRate > 0.0 && Times(beta, Times(share, now[i].instRate)) == cfg.eps
    && 0.0 < share && 0.0 < beta && 1.0 <= top
    && forall k: nat :: k <= m ==> CannotHold(k, Smooth(cfg.alpha, beta, 1.0), top, c, cfg.alpha)
  }

  lemma ServedOnceClamped(run: seq<seq<Ue>>, env: seq<set<nat>>, i: nat, m: nat, c: nat, beta: real, top: real,
                          share: real, cfg: Config)
    requires cfg.Ok() && IsRun(run, env, cfg) && c <= |env| && AlwaysBacklogged(env, i)
    requires Doomed(run[0], i, m, c, beta, top, share, cfg) && run[0][i].avgRate <= cfg.eps
    ensures Served(run, env, i, 0, c, cfg)
  {
    if forall u :: 0 <= u < c ==> ChosenFrom(run[u], env[u], cfg) != i {
      var order := StartHolding(run[0], i, beta, top, share, cfg);
      order := HoldUntil(run, env, i, order, c, beta, top, share, cfg);
      assert CannotHold(|order|, Smooth(cfg.alpha, beta, 1.0), top, c, cfg.alpha);
      TotalBelow(Relatives(run[c], i, order), Smooth(cfg.alpha, beta, 1.0), Decayed(top, cfg.alpha, c), cfg.alpha);
    }
  }

  lemma {:induction false} SameRivals(a: seq<Ue>, b: seq<Ue>, i: nat, n: nat)
    requires |a| == |b| && i < |a| && n <= |a|
    requires forall j :: 0 <= j < |a| ==> SameRates(a[j], b[j])
    ensures RivalCount(a, i, n) == RivalCount(b, i, n)
  {
    if n > 0 {
      SameRivals(a, b, i, n - 1);
      assert Rival(a, n - 1, i) <==> Rival(b, n - 1, i);
    }
  }

  /** The conditions of service hold in every state of a run. */
  lemma {:induction false} RunKeepsDoomed(run: seq<seq<Ue>>, env: seq<set<nat>>, i: nat, m: nat, c: nat, beta: real,
                                          top: real, t: nat, share: real, cfg: Config)
    requires cfg.Ok() && IsRun(run, env, cfg) && t <= |env| && Doomed(run[0], i, m, c, beta, top, share, cfg)
    ensures Doomed(run[t], i, m, c, beta, top, share, cfg)
    ensures (forall u :: 0 <= u < t ==> ChosenFrom(run[u], env[u], cfg) != i) ==>
              run[t][i].avgRate == Decayed(run[0][i].avgRate, cfg.alpha, t)
  {
    if t > 0 {
      RunKeepsDoomed(run, env, i, m, c, beta, top, t - 1, share, cfg);
      assert Follows(run[t - 1], env[t - 1], run[t - 1 + 1], cfg);
      RiseStep(run[t - 1], env[t - 1], run[t], i, share, cfg);
      CappedStep(run[t - 1], env[t - 1], run[t], i, top, share, cfg);
      SameRivals(run[t], run[t - 1], i, |run[t]|);
    }
  }

  lemma CappedStep(now: seq<Ue>, backlog: set<nat>, next: seq<Ue>, i: nat, top: real, share: real, cfg: Config)
    requires cfg.Ok() && Follows(now, backlog, next, cfg) && i < |now| && 1.0 <= top
    requires RivalsRise(now, i, share) && Capped(now, i, top)
    ensures |next| == |now| && Capped(next, i, top)
    ensures ChosenFrom(now, backlog, cfg) != i ==> next[i].avgRate == Smooth(cfg.alpha, now[i].avgRate, 0.0)
  {
    var loaded := Load(now, backlog);
    var best := Chosen(loaded, cfg);
    assert NonNeg(now[i]);
    SmoothIsBetween(cfg.alpha, loaded[i].avgRate, RateNow(loaded[i], i == best));
    forall j | 0 <= j < |next| && Rival(next, j, i) ensures next[j].avgRate <= Times(top, next[j].actualRate) {
      assert Rival(now, j, i) && NonNeg(now[j]);
      SmoothIsBetween(cfg.alpha, loaded[j].avgRate, RateNow(loaded[j], j == best));
      TopIsAbove(top, now[j].actualRate);
    }
  }

  lemma TopIsAbove(top: real, x: real)
    requires 1.0 <= top && 0.0 <= x
    ensures 0.0 <= x <= Times(top, x)
  {
    if x > 0.0 {
      LessTimes(1.0, top, x);
      TimesOne(x);
    }
  }

  lemma {:induction false} CapExists(ues: seq<Ue>, i: nat, n: nat, share: real) returns (top: real)
    requires i < |ues| && n <= |ues| && 0.0 < share && RivalsRise(ues, i, share) && 0.0 < ues[i].instRate
    ensures 1.0 <= top && ues[i].avgRate <= top && ues[i].actualRate <= top
    ensures forall j :: 0 <= j < n && Rival(ues, j, i) ==> ues[j].avgRate <= Times(top, ues[j].actualRate)
  {
    if n == 0 {
      top := 1.0 + ues[i].avgRate + ues[i].actualRate;
      assert NonNeg(ues[i]);
    } else {
      var rest := CapExists(ues, i, n - 1, share);
      top := rest;
      var last := ues[n - 1];
      if Rival(ues, n - 1, i) {
        TimesPositive(share, last.instRate);
        var y := last.avgRate / last.actualRate;
        assert Times(y, last.actualRate) == last.avgRate;
        top := if rest <= y then y else rest;
        LessTimes(y, top, last.actualRate);
      }
      forall j | 0 <= j < n - 1 && Rival(ues, j, i) ensures ues[j].avgRate <= Times(top, ues[j].actualRate) {
        TimesPositive(share, ues[j].instRate);
        LessTimes(rest, top, ues[j].actualRate);
      }
    }
  }

  /** From any state of the run: c0 TTIs until clamped, then held off for c more at most. */
  lemma ServedFrom(run: seq<seq<Ue>>, env: seq<set<nat>>, i: nat, a: nat, m: nat, c0: nat, c: nat, beta: real,
                   top: real, share: real, cfg: Config)
    requires cfg.Ok() && IsRun(run, env, cfg) && a + c0 + c <= |env| && AlwaysBacklogged(env, i)
    requires Doomed(run[0], i, m, c, beta, top, share, cfg) && Decayed(top, cfg.alpha, c0) <= cfg.eps
    ensures Served(run, env, i, a, a + c0 + c, cfg)
  {
    if forall u :: a <= u < a + c0 ==> ChosenFrom(run[u], env[u], cfg) != i {
      RunKeepsDoomed(run, env, i, m, c, beta, top, a, share, cfg);
      RunFrom(run, env, a, cfg);
      ServedAfterWait(run[a..], env[a..], i, m, c0, c, beta, top, share, cfg);
      var u :| c0 <= u < c0 + c && ChosenFrom(run[a..][u], env[a..][u], cfg) == i;
      assert ChosenFrom(run[a + u], env[a + u], cfg) == i;
    }
  }

  lemma ServedAfterWait(run: seq<seq<Ue>>, env: seq<set<nat>>, i: nat, m: nat, c0: nat, c: nat, beta: real, top: real,
                        share: real, cfg: Config)
    requires cfg.Ok() && IsRun(run, env, cfg) && c0 + c <= |env| && AlwaysBacklogged(env, i)
    requires Doomed(run[0], i, m, c, beta, top, share, cfg) && Decayed(top, cfg.alpha, c0) <= cfg.eps
    requires forall u :: 0 <= u < c0 ==> ChosenFrom(run[u], env[u], cfg) != i
    ensures Served(run, env, i, c0, c0 + c, cfg)
  {
    RunKeepsDoomed(run, env, i, m, c, beta, top, c0, share, cfg);
    DecayedGrows(run[0][i].avgRate, top, cfg.alpha, c0);
    RunFrom(run, env, c0, cfg);
    ServedOnceClamped(run[c0..], env[c0..], i, m, c, beta, top, share, cfg);
    var u :| 0 <= u < c && ChosenFrom(run[c0..][u], env[c0..][u], cfg) == i;
    assert ChosenFrom(run[c0 + u], env[c0 + u], cfg) == i;
  }

  /** Every run from this state that keeps UE i backlogged serves it in every window of some length. */
  ghost predicate NeverStarves(start: seq<Ue>, i: nat, cfg: Config)
    requires cfg.Ok()
  {
    exists window: nat :: ServedEvery(start, i, window, cfg)
  }

  ghost predicate ServedEvery(start: seq<Ue>, i: nat, window: nat, cfg: Config)
    requires cfg.Ok()
  {
    forall run, env :: IsRun(run, env, cfg) && run[0] == start && AlwaysBacklogged(env, i) ==>
      InEveryWindow(run, env, i, window, cfg)
  }

  /** With up to m rivals, who all rise under service, such an EPSILON suffices. */
  lemma EpsSufficesServes(start: seq<Ue>, i: nat, m: nat, share: real, cfg: Config) returns (window: nat)
    requires cfg.Ok() && i < |start| && 0.0 < share && RivalsRise(start, i, share)
    requires RivalCount(start, i, |start|) <= m
    requires start[i].instRate > 0.0 && EpsSuffices(start[i].instRate, m, share, cfg)
    ensures ServedEvery(start, i, window, cfg)
  {
    var unit := Times(share, start[i].instRate);
    TimesPositive(share, start[i].instRate);
    Quotient(cfg.eps, unit);
    var beta := cfg.eps / unit;
    SmoothIsBetween(cfg.alpha, beta, 1.0);
    LevelFits(start[i].instRate, m, beta, share, cfg);
    var top := CapExists(start, i, |start|, share);
    var c := HoldBound(m, Smooth(cfg.alpha, beta, 1.0), top, cfg.alpha);
    var c0 := DecaysBelow(top, cfg.eps, cfg.alpha);
    window := c0 + c;
    forall run, env | IsRun(run, env, cfg) && run[0] == start && AlwaysBacklogged(env, i)
      ensures InEveryWindow(run, env, i, window, cfg)
    {
      forall a: nat, b: nat | b == a + window && b <= |env| ensures Served(run, env, i, a, b, cfg) {
        ServedFrom(run, env, i, a, m, c0, c, beta, top, share, cfg);
      }
    }
  }

  // ------------------------------------------------------------- starvation

  function Everyone(n: nat): (s: set<nat>)
    ensures forall j: nat :: j in s <==> j < n
  {
    if n == 0 then {} else Everyone(n - 1) + {n - 1}
  }

  ghost predicate AllBacklogged(env: seq<set<nat>>, n: nat) {
    forall t :: 0 <= t < |env| ==> env[t] == Everyone(n)
  }

  /** A UE that is no longer chosen, from some TTI on, when everyone always has data. */
  lemma NotServedEvery(start: seq<Ue>, i: nat, from: nat, window: nat, cfg: Config)
    requires cfg.Ok() && i < |start|
    requires forall run, env :: IsRun(run, env, cfg) && run[0] == start && AllBacklogged(env, |start|) ==>
               forall t :: from <= t < |env| ==> ChosenFrom(run[t], env[t], cfg) != i
    ensures !ServedEvery(start, i, window, cfg)
  {
    var env := seq(from + window, _ => Everyone(|start|));
    var run := RunExists(start, env, cfg);
    assert AllBacklogged(env, |start|) && AlwaysBacklogged(env, i);
    assert !Served(run, env, i, from, from + window, cfg);
    assert !InEveryWindow(run, env, i, window, cfg);
  }
}
