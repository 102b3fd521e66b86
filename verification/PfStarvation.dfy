/** Who starves under the second listing: exactly which UEs must rise under service for
    another to be served for good, and what becomes of one whose rate is below EPSILON. */
module PfStarvation {
  import opened Reals
  import opened PfScheduler
  import opened PfFairness
  import opened PfEpsilon

  /** j has the higher priority, without the divisions. */
  ghost predicate Outranks(j: Ue, i: Ue, eps: real) {
    Times(i.instRate, Divisor(j, eps)) < Times(j.instRate, Divisor(i, eps))
  }

  lemma OutrankedIsNotChosen(now: seq<Ue>, backlog: set<nat>, i: nat, j: nat, cfg: Config)
    requires cfg.Ok() && i < |now| && j < |now| && j in backlog && Outranks(now[j], now[i], cfg.eps)
    ensures ChosenFrom(now, backlog, cfg) != i
  {
    RatioOrder(now[i].instRate, Divisor(now[i], cfg.eps), now[j].instRate, Divisor(now[j], cfg.eps));
    var loaded := Load(now, backlog);
    assert loaded[j].hasData && PfPriority(loaded[i], cfg.eps) < PfPriority(loaded[j], cfg.eps);
  }

  /** Nothing but the average of a UE changes over a run. */
  lemma FollowsAged(now: seq<Ue>, backlog: set<nat>, next: seq<Ue>, i: nat, cfg: Config) returns (hit: bool)
    requires cfg.Ok() && Follows(now, backlog, next, cfg) && i < |now|
    ensures |next| == |now| && hit == (ChosenFrom(now, backlog, cfg) == i)
    ensures SameRates(next[i], now[i]) && next[i].avgRate == Smooth(cfg.alpha, now[i].avgRate, RateNow(now[i], hit))
  {
    hit := ChosenFrom(now, backlog, cfg) == i;
  }

  /** The rate of i is below eps, and j's average stays at or below a rate that is not. */
  ghost predicate Clamped(i: Ue, j: Ue, eps: real) {
    i.instRate < eps <= j.instRate && j.avgRate <= j.instRate && j.actualRate <= j.instRate
  }

  lemma ClampedIsOutranked(i: Ue, j: Ue, eps: real)
    requires 0.0 < eps && Clamped(i, j, eps)
    ensures Outranks(j, i, eps)
  {
    var d, e := Divisor(j, eps), Divisor(i, eps);
    LessTimes(i.instRate, e, d);
    LessTimes(d, j.instRate, e);
    assert Times(d, e) == Times(e, d);
  }

  /** EPSILON starves: a UE with a rate below it is never chosen next to one that always
      has data, a rate of at least EPSILON, and an average that does not exceed its rate. */
  lemma {:induction false} ClampedUeStarves(run: seq<seq<Ue>>, env: seq<set<nat>>, i: nat, j: nat, t: nat, cfg: Config)
    requires cfg.Ok() && IsRun(run, env, cfg) && t <= |env| && i < |run[0]| && j < |run[0]|
    requires AlwaysBacklogged(env, j) && Clamped(run[0][i], run[0][j], cfg.eps)
    ensures |run[t]| == |run[0]| && Clamped(run[t][i], run[t][j], cfg.eps)
    ensures t < |env| ==> ChosenFrom(run[t], env[t], cfg) != i
  {
    if t > 0 {
      ClampedUeStarves(run, env, i, j, t - 1, cfg);
      assert Follows(run[t - 1], env[t - 1], run[t - 1 + 1], cfg);
      var hitI := FollowsAged(run[t - 1], env[t - 1], run[t], i, cfg);
      var hitJ := FollowsAged(run[t - 1], env[t - 1], run[t], j, cfg);
      SmoothIsBetween(cfg.alpha, run[t - 1][j].avgRate, RateNow(run[t - 1][j], hitJ));
    }
    if t < |env| {
      ClampedIsOutranked(run[t][i], run[t][j], cfg.eps);
      OutrankedIsNotChosen(run[t], env[t], i, j, cfg);
    }
  }

  /** Service does not raise j's average, and j is ahead of i in rate and in priority. */
  ghost predicate Dead(i: Ue, j: Ue) {
    && j.actualRate == 0.0 && 0.0 < j.instRate && i.instRate < j.instRate
    && Times(i.instRate, j.avgRate) < Times(j.instRate, i.avgRate)
  }

  lemma DeadIsAhead(i: Ue, j: Ue, eps: real)
    requires 0.0 < eps && Dead(i, j)
    ensures Outranks(j, i, eps)
  {
    var d, e := Divisor(j, eps), Divisor(i, eps);
    if j.avgRate < eps {
      LessTimes(i.instRate, j.instRate, eps);
      LessTimes(eps, e, j.instRate);
    } else {
      LessTimes(i.avgRate, e, j.instRate);
    }
  }

  lemma DeadStays(i: Ue, j: Ue, alpha: real)
    requires 0.0 < alpha < 1.0 && Dead(i, j)
    ensures Dead(Aged(i, false, alpha), Aged(j, false, alpha))
  {
    var q, x, y := 1.0 - alpha, Times(i.instRate, j.avgRate), Times(j.instRate, i.avgRate);
    LessTimes(x, y, q);
    assert i.instRate * (q * j.avgRate) == q * x;
    assert j.instRate * (q * i.avgRate) == q * y;
  }

  /** A rate that service does not move starves too, for every EPSILON: a UE whose
      actual rate is zero keeps the priority it has over a UE of lower rate for ever. */
  lemma {:induction false} DeadRateStarves(run: seq<seq<Ue>>, env: seq<set<nat>>, i: nat, j: nat, t: nat, cfg: Config)
    requires cfg.Ok() && IsRun(run, env, cfg) && t <= |env| && i < |run[0]| && j < |run[0]|
    requires AlwaysBacklogged(env, j) && Dead(run[0][i], run[0][j])
    ensures |run[t]| == |run[0]| && Dead(run[t][i], run[t][j])
    ensures t < |env| ==> ChosenFrom(run[t], env[t], cfg) != i
  {
    if t > 0 {
      DeadRateStarves(run, env, i, j, t - 1, cfg);
      assert Follows(run[t - 1], env[t - 1], run[t - 1 + 1], cfg);
      var hitI := FollowsAged(run[t - 1], env[t - 1], run[t], i, cfg);
      var hitJ := FollowsAged(run[t - 1], env[t - 1], run[t], j, cfg);
      DeadStays(run[t - 1][i], run[t - 1][j], cfg.alpha);
    }
    if t < |env| {
      DeadIsAhead(run[t][i], run[t][j], cfg.eps);
      OutrankedIsNotChosen(run[t], env[t], i, j, cfg);
    }
  }

  /** For one: UE 1 is served in full and UE 0 not at all, yet only UE 0 is chosen. */
  lemma DeadRateExample(run: seq<seq<Ue>>, env: seq<set<nat>>, t: nat, cfg: Config)
    requires cfg.Ok() && IsRun(run, env, cfg) && t < |env|
    requires run[0] == [Ue(true, 2.0, 0.0, 1.0), Ue(true, 1.0, 1.0, 1.0)] && AlwaysBacklogged(env, 0)
    ensures ChosenFrom(run[t], env[t], cfg) != 1
  {
    assert Dead(run[0][1], run[0][0]);
    DeadRateStarves(run, env, 1, 0, t, cfg);
  }

  // ------------------------------------------------ exactly who must rise

  /** A rival that service does not move: once its average has decayed to eps, UE i is not
      chosen in any TTI in which the rival has data, whatever the priorities were. */
  lemma DeadRivalStarves(run: seq<seq<Ue>>, env: seq<set<nat>>, i: nat, j: nat, c: nat, t: nat, cfg: Config)
    requires cfg.Ok() && IsRun(run, env, cfg) && c <= t < |env| && i < |run[0]| && j < |run[0]|
    requires Rival(run[0], j, i) && run[0][j].actualRate == 0.0
    requires Decayed(run[0][j].avgRate, cfg.alpha, c) <= cfg.eps && j in env[t]
    ensures ChosenFrom(run[t], env[t], cfg) != i
  {
    RunKeepsRates(run, env, i, t, cfg);
    RunKeepsRates(run, env, j, t, cfg);
    DeadDecays(run, env, j, t, cfg);
    StaysDecayed(run[0][j].avgRate, cfg.eps, cfg.alpha, c, t);
    ClampedRivalWins(run[t], env[t], i, j, cfg);
  }

  lemma {:induction false} RunKeepsRates(run: seq<seq<Ue>>, env: seq<set<nat>>, i: nat, t: nat, cfg: Config)
    requires cfg.Ok() && IsRun(run, env, cfg) && t <= |env| && i < |run[0]|
    ensures |run[t]| == |run[0]| && SameRates(run[t][i], run[0][i])
    ensures NonNeg(run[0][i]) ==> NonNeg(run[t][i])
  {
    if t > 0 {
      RunKeepsRates(run, env, i, t - 1, cfg);
      assert Follows(run[t - 1], env[t - 1], run[t - 1 + 1], cfg);
      var hit := FollowsAged(run[t - 1], env[t - 1], run[t], i, cfg);
      SmoothIsBetween(cfg.alpha, run[t - 1][i].avgRate, RateNow(run[t - 1][i], hit));
    }
  }

  lemma {:induction false} DeadDecays(run: seq<seq<Ue>>, env: seq<set<nat>>, j: nat, t: nat, cfg: Config)
    requires cfg.Ok() && IsRun(run, env, cfg) && t <= |env| && j < |run[0]| && run[0][j].actualRate == 0.0
    ensures |run[t]| == |run[0]| && run[t][j].avgRate == Decayed(run[0][j].avgRate, cfg.alpha, t)
  {
    if t > 0 {
      DeadDecays(run, env, j, t - 1, cfg);
      RunKeepsRates(run, env, j, t - 1, cfg);
      assert Follows(run[t - 1], env[t - 1], run[t - 1 + 1], cfg);
      var hit := FollowsAged(run[t - 1], env[t - 1], run[t], j, cfg);
    }
  }

  lemma {:induction false} StaysDecayed(avg: real, level: real, alpha: real, c: nat, t: nat)
    requires 0.0 < alpha < 1.0 && 0.0 < level && c <= t && Decayed(avg, alpha, c) <= level
    ensures Decayed(avg, alpha, t) <= level
    ensures Decayed(avg, alpha, c) < level ==> Decayed(avg, alpha, t) < level
  {
    if c < t {
      StaysDecayed(avg, level, alpha, c, t - 1);
      SmoothIsBetween(alpha, Decayed(avg, alpha, t - 1), 0.0);
    }
  }

  lemma ClampedRivalWins(now: seq<Ue>, backlog: set<nat>, i: nat, j: nat, cfg: Config)
    requires cfg.Ok() && i < |now| && j < |now| && j in backlog && Rival(now, j, i) && now[j].avgRate <= cfg.eps
    ensures ChosenFrom(now, backlog, cfg) != i
  {
    var d, loaded := Divisor(now[i], cfg.eps), Load(now, backlog);
    assert Divisor(now[j], cfg.eps) == cfg.eps && loaded[j].hasData;
    RatioOrder(now[i].instRate, d, now[j].instRate, cfg.eps);
    RatioPositive(now[i].instRate, d);
    if now[i].instRate > 0.0 {
      LessTimes(cfg.eps, d, now[i].instRate);
      if now[i].instRate < now[j].instRate { LessTimes(now[i].instRate, now[j].instRate, d); }
    }
    assert PfPriority(loaded[i], cfg.eps) == now[i].instRate / d;
    assert PfPriority(loaded[j], cfg.eps) == now[j].instRate / cfg.eps;
  }

  /** A share that all rivals of i rise by. */
  lemma RivalShareExists(ues: seq<Ue>, i: nat) returns (share: real)
    requires i < |ues| && (forall j :: 0 <= j < |ues| ==> NonNeg(ues[j])) && ues[i].instRate > 0.0
    requires forall j :: 0 <= j < |ues| && Rival(ues, j, i) ==> ues[j].actualRate > 0.0
    ensures 0.0 < share && RivalsRise(ues, i, share)
  {
    var nobody := Ue(false, 0.0, 0.0, 0.0);
    var rivals := seq(|ues|, j requires 0 <= j < |ues| => if Rival(ues, j, i) then ues[j] else nobody);
    forall j | 0 <= j < |rivals|
      ensures rivals[j].avgRate >= 0.0 && rivals[j].actualRate >= 0.0
      ensures rivals[j].instRate > 0.0 ==> rivals[j].actualRate > 0.0
    {
      assert NonNeg(ues[j]);
    }
    share := ShareExists(rivals);
    forall j | 0 <= j < |ues| && Rival(ues, j, i) ensures ues[j].actualRate >= Times(share, ues[j].instRate) {
      assert SaneUe(rivals[j], share);
    }
  }

  ghost predicate ServedUpTo(start: seq<Ue>, i: nat, alpha: real, bound: real)
    requires 0.0 < alpha < 1.0
  {
    forall eps :: 0.0 < eps <= bound ==> NeverStarves(start, i, Config(alpha, eps))
  }

  /** No starvation, exactly: for every EPSILON up to some positive bound a UE of positive
      rate is served for good in every run, if and only if every rival of it, that is every
      UE of higher rate, or of its rate and a lower index, has a positive actual rate. */
  lemma NoUeStarvesIff(start: seq<Ue>, i: nat, alpha: real)
    requires 0.0 < alpha < 1.0 && i < |start| && start[i].instRate > 0.0
    requires forall j :: 0 <= j < |start| ==> NonNeg(start[j])
    ensures (exists bound :: 0.0 < bound && ServedUpTo(start, i, alpha, bound))
       <==> forall j :: 0 <= j < |start| && Rival(start, j, i) ==> start[j].actualRate > 0.0
  {
    if forall j :: 0 <= j < |start| && Rival(start, j, i) ==> start[j].actualRate > 0.0 {
      var bound := SmallEpsServes(start, i, alpha);
    } else {
      var j :| 0 <= j < |start| && Rival(start, j, i) && start[j].actualRate <= 0.0;
      assert NonNeg(start[j]);
      forall bound | 0.0 < bound ensures !ServedUpTo(start, i, alpha, bound) {
        DeadRivalNeverServes(start, i, j, Config(alpha, bound));
      }
    }
  }

  lemma SmallEpsServes(start: seq<Ue>, i: nat, alpha: real) returns (bound: real)
    requires 0.0 < alpha < 1.0 && i < |start| && start[i].instRate > 0.0
    requires forall j :: 0 <= j < |start| ==> NonNeg(start[j])
    requires forall j :: 0 <= j < |start| && Rival(start, j, i) ==> start[j].actualRate > 0.0
    ensures 0.0 < bound && ServedUpTo(start, i, alpha, bound)
  {
    var share := RivalShareExists(start, i);
    var m := RivalCount(start, i, |start|);
    bound := SmallEps(start[i].instRate, m, share, alpha);
    forall eps | 0.0 < eps <= bound ensures NeverStarves(start, i, Config(alpha, eps)) {
      var window := EpsSufficesServes(start, i, m, share, Config(alpha, eps));
    }
  }

  lemma SmallEps(rate: real, m: nat, share: real, alpha: real) returns (bound: real)
    requires 0.0 < alpha < 1.0 && 0.0 < rate && 0.0 < share
    ensures 0.0 < bound
    ensures forall eps :: 0.0 < eps <= bound ==> EpsSuffices(rate, m, share, Config(alpha, eps))
  {
    bound := 1.0;
    if m > 0 {
      var g, top := Geometric(alpha, m), Times(Times(share, rate), Decayed(1.0, alpha, m - 1));
      GeometricGrows(alpha, 0, m);
      DecayedShrinks(1.0, alpha, 0, m - 1);
      TimesPositive(share, rate);
      TimesPositive(Times(share, rate), Decayed(1.0, alpha, m - 1));
      bound := top / 2.0 / g;
      Quotient(top / 2.0, g);
      forall eps | 0.0 < eps <= bound ensures EpsSuffices(rate, m, share, Config(alpha, eps)) {
        LessTimes(eps, bound, g);
      }
    }
  }

  lemma DeadRivalNeverServes(start: seq<Ue>, i: nat, j: nat, cfg: Config)
    requires cfg.Ok() && i < |start| && j < |start| && Rival(start, j, i)
    requires start[j].actualRate == 0.0 && start[j].avgRate >= 0.0
    ensures !NeverStarves(start, i, cfg)
  {
    var c := DecaysBelow(start[j].avgRate + 1.0, cfg.eps, cfg.alpha);
    DecayedGrows(start[j].avgRate, start[j].avgRate + 1.0, cfg.alpha, c);
    forall run, env, t | IsRun(run, env, cfg) && run[0] == start && AllBacklogged(env, |start|) && c <= t < |env|
      ensures ChosenFrom(run[t], env[t], cfg) != i
    {
      DeadRivalStarves(run, env, i, j, c, t, cfg);
    }
    forall window: nat ensures !ServedEvery(start, i, window, cfg) {
      NotServedEvery(start, i, c, window, cfg);
    }
  }

  // ------------------------------------------- one window for every EPSILON

  ghost predicate OneWindow(start: seq<Ue>, i: nat, alpha: real, window: nat, bound: real)
    requires 0.0 < alpha < 1.0
  {
    forall eps :: 0.0 < eps <= bound ==> ServedEvery(start, i, window, Config(alpha, eps))
  }

  /** A UE served in every window keeps its average up, by a bound that eps has no part in. */
  lemma BusyIsHigh(run: seq<seq<Ue>>, env: seq<set<nat>>, i: nat, window: nat, t: nat, cfg: Config)
    requires cfg.Ok() && IsRun(run, env, cfg) && i < |run[0]| && NonNeg(run[0][i])
    requires InEveryWindow(run, env, i, window, cfg) && window <= t <= |env|
    ensures |run[t]| == |run[0]|
    ensures run[t][i].avgRate >= Decayed(Times(cfg.alpha, run[0][i].actualRate), cfg.alpha, window)
  {
    assert Served(run, env, i, t - window, t, cfg);
    var u :| t - window <= u < t && ChosenFrom(run[u], env[u], cfg) == i;
    RunKeepsRates(run, env, i, u, cfg);
    assert Follows(run[u], env[u], run[u + 1], cfg);
    var hit := FollowsAged(run[u], env[u], run[u + 1], i, cfg);
    var served := Times(cfg.alpha, run[0][i].actualRate);
    NonNegTimes(cfg.alpha, run[0][i].actualRate);
    SmoothAtLeast(cfg.alpha, run[u][i].avgRate, 0.0, run[0][i].actualRate);
    DecaysAtMost(run, env, i, served, u + 1, t, cfg);
    LongerIsLower(served, cfg.alpha, t - u - 1, window);
  }

  lemma SmoothAtLeast(alpha: real, avg: real, low: real, r: real)
    requires 0.0 < alpha < 1.0 && avg >= low && r >= 0.0
    ensures Smooth(alpha, avg, r) >= Smooth(alpha, low, 0.0) + Times(alpha, r) >= Smooth(alpha, low, 0.0)
  {
    SmoothGrows(alpha, low, avg, 0.0);
    NonNegTimes(alpha, r);
  }

  lemma {:induction false} DecaysAtMost(run: seq<seq<Ue>>, env: seq<set<nat>>, i: nat, low: real, u: nat, t: nat,
                                        cfg: Config)
    requires cfg.Ok() && IsRun(run, env, cfg) && u <= t <= |env| && i < |run[0]| && NonNeg(run[0][i])
    requires i < |run[u]| && run[u][i].avgRate >= low
    ensures |run[t]| == |run[0]| && run[t][i].avgRate >= Decayed(low, cfg.alpha, t - u)
    decreases t
  {
    RunKeepsRates(run, env, i, t, cfg);
    if u < t {
      DecaysAtMost(run, env, i, low, u, t - 1, cfg);
      RunKeepsRates(run, env, i, t - 1, cfg);
      assert Follows(run[t - 1], env[t - 1], run[t - 1 + 1], cfg);
      var hit := FollowsAged(run[t - 1], env[t - 1], run[t], i, cfg);
      SmoothAtLeast(cfg.alpha, run[t - 1][i].avgRate, Decayed(low, cfg.alpha, t - 1 - u), RateNow(run[t - 1][i], hit));
    }
  }

  lemma LongerIsLower(x: real, alpha: real, m: nat, n: nat)
    requires 0.0 < alpha < 1.0 && 0.0 <= x && m <= n
    ensures Decayed(x, alpha, n) <= Decayed(x, alpha, m)
  {
    DecayedScales(x, alpha, m);
    DecayedScales(x, alpha, n);
    if x > 0.0 { DecayedShrinks(x, alpha, m, n); }
  }

  /** A UE that service does not move, of any positive rate, makes the wait grow without
      bound as eps falls: no one window will do. */
  lemma NoOneWindow(start: seq<Ue>, i: nat, j: nat, alpha: real, window: nat, bound: real)
    requires 0.0 < alpha < 1.0 && i < |start| && j < |start| && j != i && 0.0 < bound
    requires NonNeg(start[i]) && 0.0 < start[i].instRate && 0.0 < start[i].actualRate
    requires 0.0 < start[j].instRate && start[j].actualRate == 0.0 && start[j].avgRate >= 0.0
    ensures !OneWindow(start, i, alpha, window, bound)
  {
    var low := Decayed(Times(alpha, start[i].actualRate), alpha, window);
    TimesPositive(alpha, start[i].actualRate);
    DecayedShrinks(Times(alpha, start[i].actualRate), alpha, 0, window);
    TimesPositive(start[j].instRate, low);
    Quotient(Times(start[j].instRate, low), start[i].instRate);
    var level := Times(start[j].instRate, low) / start[i].instRate;
    var eps := if bound <= level / 2.0 then bound else level / 2.0;
    WindowTooShort(start, i, j, window, level, Config(alpha, eps));
  }

  lemma WindowTooShort(start: seq<Ue>, i: nat, j: nat, window: nat, level: real, cfg: Config)
    requires cfg.Ok() && i < |start| && j < |start| && cfg.eps < level
    requires NonNeg(start[i]) && 0.0 < start[i].instRate
    requires 0.0 < start[j].instRate && start[j].actualRate == 0.0 && start[j].avgRate >= 0.0
    requires Times(level, start[i].instRate)
             == Times(start[j].instRate, Decayed(Times(cfg.alpha, start[i].actualRate), cfg.alpha, window))
    ensures !ServedEvery(start, i, window, cfg)
  {
    var c := DecaysBelow(start[j].avgRate + 1.0, level, cfg.alpha);
    DecayedGrows(start[j].avgRate, start[j].avgRate + 1.0, cfg.alpha, c);
    var from := if c <= window then window else c;
    var env := seq(from + window, _ => {i, j});
    var run := RunExists(start, env, cfg);
    assert AlwaysBacklogged(env, i);
    if ServedEvery(start, i, window, cfg) {
      assert Served(run, env, i, from, from + window, cfg);
      var t :| from <= t < from + window && ChosenFrom(run[t], env[t], cfg) == i;
      StaysDecayed(start[j].avgRate, level, cfg.alpha, c, t);
      DeadKeepsOut(run, env, i, j, window, t, level, cfg);
      assert false;
    }
  }

  lemma DeadKeepsOut(run: seq<seq<Ue>>, env: seq<set<nat>>, i: nat, j: nat, window: nat, t: nat,
                     level: real, cfg: Config)
    requires cfg.Ok() && IsRun(run, env, cfg) && i < |run[0]| && j < |run[0]| && window <= t < |env| && j in env[t]
    requires NonNeg(run[0][i]) && 0.0 < run[0][i].instRate
    requires 0.0 < run[0][j].instRate && run[0][j].actualRate == 0.0 && cfg.eps < level
    requires Times(level, run[0][i].instRate)
             == Times(run[0][j].instRate, Decayed(Times(cfg.alpha, run[0][i].actualRate), cfg.alpha, window))
    requires Decayed(run[0][j].avgRate, cfg.alpha, t) < level && InEveryWindow(run, env, i, window, cfg)
    ensures ChosenFrom(run[t], env[t], cfg) != i
  {
    BusyIsHigh(run, env, i, window, t, cfg);
    DeadDecays(run, env, j, t, cfg);
    RunKeepsRates(run, env, i, t, cfg);
    RunKeepsRates(run, env, j, t, cfg);
    var low := Decayed(Times(cfg.alpha, run[0][i].actualRate), cfg.alpha, window);
    DeadIsPreferred(run[t][i], run[t][j], low, level, cfg.eps);
    OutrankedIsNotChosen(run[t], env[t], i, j, cfg);
  }

  lemma DeadIsPreferred(i: Ue, j: Ue, low: real, level: real, eps: real)
    requires 0.0 < i.instRate && 0.0 < j.instRate && 0.0 < eps < level
    requires Times(level, i.instRate) == Times(j.instRate, low)
    requires i.avgRate >= low && j.avgRate < level
    ensures Outranks(j, i, eps)
  {
    LessTimes(Divisor(j, eps), level, i.instRate);
    LessTimes(low, Divisor(i, eps), j.instRate);
    assert Times(level, i.instRate) == Times(i.instRate, level);
  }

  /** One window serves for every EPSILON up to some bound if and only if service moves the
      average of every other UE of positive rate, rival or not. */
  lemma OneWindowIff(start: seq<Ue>, i: nat, alpha: real)
    requires 0.0 < alpha < 1.0 && i < |start|
    requires forall j :: 0 <= j < |start| ==> NonNeg(start[j])
    requires start[i].instRate > 0.0 && start[i].actualRate > 0.0 && start[i].avgRate > 0.0
    ensures (exists window: nat, bound :: 0.0 < bound && OneWindow(start, i, alpha, window, bound))
       <==> forall j :: 0 <= j < |start| && j != i && start[j].instRate > 0.0 ==> start[j].actualRate > 0.0
  {
    if forall j :: 0 <= j < |start| && j != i && start[j].instRate > 0.0 ==> start[j].actualRate > 0.0 {
      assert forall j :: 0 <= j < |start| ==> NonNeg(start[j]);
      var window, bound := OneWindowServes(start, i, alpha);
      forall eps | 0.0 < eps <= bound ensures ServedEvery(start, i, window, Config(alpha, eps)) {
      }
      assert OneWindow(start, i, alpha, window, bound);
    } else {
      var j :| 0 <= j < |start| && j != i && start[j].instRate > 0.0 && start[j].actualRate <= 0.0;
      assert NonNeg(start[j]) && NonNeg(start[i]);
      forall window: nat, bound | 0.0 < bound ensures !OneWindow(start, i, alpha, window, bound) {
        NoOneWindow(start, i, j, alpha, window, bound);
      }
    }
  }
}
