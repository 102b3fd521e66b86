/** The EPSILON of PfEpsilon is exact: with any larger one there are m UEs that, served in
    turn, never let a UE be chosen, whatever its place. */
module PfRoundRobin {
  import opened Reals
  import opened PfScheduler
  import opened PfFairness
  import opened PfEpsilon

  /** The place of UE j among the m others of UE i, and back. */
  function Rank(j: nat, i: nat): nat {
    if j > i then j - 1 else j
  }

  function Unrank(k: nat, i: nat): nat {
    if k < i then k else k + 1
  }

  /** m equal UEs served in turn: how long ago the k-th was served when it is p's turn. */
  function Age(k: nat, p: nat, m: nat): nat
    requires k < m && p < m
  {
    if k < p then p - 1 - k else m - 1 - k + p
  }

  /** The averages of the cycle: unit right after service, then decaying; slack below that. */
  function CycleAvg(age: nat, unit: real, slack: real, alpha: real): real {
    Times(unit, Decayed(1.0, alpha, age)) - slack
  }

  ghost predicate InCycle(ue: Ue, age: nat, m: nat, unit: real, slack: real, rate: real, alpha: real) {
    && ue.instRate == rate && ue.actualRate == Times(unit, Geometric(alpha, m))
    && ue.avgRate == CycleAvg(age, unit, slack, alpha)
  }

  /** It is the turn of the p-th other UE; UE i waits. */
  ghost predicate Turn(now: seq<Ue>, i: nat, p: nat, m: nat, unit: real, slack: real, rate: real, cfg: Config) {
    && |now| == m + 1 && i <= m && p < m
    && forall j :: 0 <= j <= m && j != i ==> InCycle(now[j], Age(Rank(j, i), p, m), m, unit, slack, rate, cfg.alpha)
  }

  /** The cycle never comes down to eps, and its lowest average has the priority over a
      clamped UE of rate own. */
  ghost predicate Dominates(m: nat, unit: real, slack: real, rate: real, own: real, cfg: Config) {
    && 0 < m && 0.0 < own && 0.0 < slack <= cfg.eps && 2.0 * own <= rate && 0.0 < unit
    && Times(unit, Decayed(1.0, cfg.alpha, m - 1)) == 2.0 * cfg.eps
  }

  lemma {:induction false} DecaysStrictly(alpha: real, m: nat, n: nat)
    requires 0.0 < alpha < 1.0 && m < n
    ensures 0.0 < Decayed(1.0, alpha, n) < Decayed(1.0, alpha, m)
  {
    DecayedShrinks(1.0, alpha, m, n - 1);
    SmoothIsBetween(alpha, Decayed(1.0, alpha, n - 1), 0.0);
  }

  lemma CycleOrder(age: nat, m: nat, unit: real, slack: real, rate: real, own: real, cfg: Config)
    requires cfg.Ok() && Dominates(m, unit, slack, rate, own, cfg) && age < m
    ensures cfg.eps <= CycleAvg(m - 1, unit, slack, cfg.alpha) < 2.0 * cfg.eps
    ensures age < m - 1 ==> CycleAvg(m - 1, unit, slack, cfg.alpha) < CycleAvg(age, unit, slack, cfg.alpha)
  {
    if age < m - 1 {
      DecaysStrictly(cfg.alpha, age, m - 1);
      LessTimes(Decayed(1.0, cfg.alpha, m - 1), Decayed(1.0, cfg.alpha, age), unit);
    }
  }

  lemma TurnIsTaken(now: seq<Ue>, i: nat, p: nat, m: nat, unit: real, slack: real, rate: real, cfg: Config)
    requires cfg.Ok() && Turn(now, i, p, m, unit, slack, rate, cfg)
    requires Dominates(m, unit, slack, rate, now[i].instRate, cfg)
    requires forall j :: 0 <= j <= m ==> now[j].hasData
    ensures Chosen(now, cfg) == Unrank(p, i)
  {
    var best, u, own := Chosen(now, cfg), Unrank(p, i), now[i].instRate;
    assert Rank(u, i) == p && Age(p, p, m) == m - 1;
    assert InCycle(now[u], m - 1, m, unit, slack, rate, cfg.alpha);
    CycleOrder(m - 1, m, unit, slack, rate, own, cfg);
    RatioPositive(rate, now[u].avgRate);
    assert PfPriority(now[u], cfg.eps) == rate / now[u].avgRate;
    if best == i {
      WaiterLoses(own, Divisor(now[i], cfg.eps), rate, now[u].avgRate, cfg.eps);
    } else if best >= 0 && best != u {
      var age := Age(Rank(best, i), p, m);
      assert age < m - 1 && InCycle(now[best], age, m, unit, slack, rate, cfg.alpha);
      CycleOrder(age, m, unit, slack, rate, own, cfg);
      LessTimes(now[u].avgRate, now[best].avgRate, rate);
      RatioOrder(rate, now[best].avgRate, rate, now[u].avgRate);
    }
  }

  lemma WaiterLoses(own: real, d: real, rate: real, avg: real, eps: real)
    requires 0.0 < eps <= d && eps <= avg < 2.0 * eps && 0.0 < own && 2.0 * own <= rate
    ensures own / d < rate / avg
  {
    LessTimes(avg, 2.0 * eps, own);
    LessTimes(2.0 * own, rate, eps);
    LessTimes(eps, d, rate);
    assert Times(own, 2.0 * eps) == Times(2.0 * own, eps);
    RatioOrder(own, d, rate, avg);
  }

  lemma TurnPasses(now: seq<Ue>, i: nat, p: nat, m: nat, unit: real, slack: real, rate: real, cfg: Config)
      returns (q: nat)
    requires cfg.Ok() && Turn(now, i, p, m, unit, slack, rate, cfg) && Chosen(now, cfg) == Unrank(p, i)
    ensures Turn(Tti(now, cfg), i, q, m, unit, Smooth(cfg.alpha, slack, 0.0), rate, cfg)
  {
    q := if p + 1 == m then 0 else p + 1;
    var next := Tti(now, cfg);
    forall j | 0 <= j <= m && j != i
      ensures InCycle(next[j], Age(Rank(j, i), q, m), m, unit, Smooth(cfg.alpha, slack, 0.0), rate, cfg.alpha)
    {
      var age := Age(Rank(j, i), p, m);
      assert InCycle(now[j], age, m, unit, slack, rate, cfg.alpha);
      assert j == Unrank(p, i) <==> Rank(j, i) == p;
      assert Age(Rank(j, i), q, m) == if Rank(j, i) == p then 0 else age + 1;
      if Rank(j, i) == p {
        ServedInCycle(m, unit, slack, cfg.alpha);
      } else {
        IdleInCycle(age, unit, slack, cfg.alpha);
      }
    }
  }

  lemma ServedInCycle(m: nat, unit: real, slack: real, alpha: real)
    requires 0 < m
    ensures Smooth(alpha, CycleAvg(m - 1, unit, slack, alpha), Times(unit, Geometric(alpha, m)))
            == CycleAvg(0, unit, Smooth(alpha, slack, 0.0), alpha)
  {
    var d, g := Decayed(1.0, alpha, m - 1), Geometric(alpha, m);
    GeometricIs(alpha, m);
    BackToUnit(alpha, unit, d, g);
    LessSlack(alpha, Times(unit, d), slack, Times(unit, g));
  }

  lemma IdleInCycle(age: nat, unit: real, slack: real, alpha: real)
    ensures Smooth(alpha, CycleAvg(age, unit, slack, alpha), 0.0)
            == CycleAvg(age + 1, unit, Smooth(alpha, slack, 0.0), alpha)
  {
    ScaleIdle(unit, alpha, Decayed(1.0, alpha, age));
    LessSlack(alpha, Times(unit, Decayed(1.0, alpha, age)), slack, 0.0);
  }

  lemma LessSlack(alpha: real, x: real, slack: real, z: real)
    ensures Smooth(alpha, x - slack, z) == Smooth(alpha, x, z) - Smooth(alpha, slack, 0.0)
  {
  }

  lemma BackToUnit(alpha: real, unit: real, d: real, g: real)
    requires Times(alpha, g) == 1.0 - Smooth(alpha, d, 0.0)
    ensures Smooth(alpha, Times(unit, d), Times(unit, g)) == Times(unit, 1.0)
  {
    assert Smooth(alpha, Times(unit, d), Times(unit, g)) == Times(unit, Smooth(alpha, d, g));
    assert Smooth(alpha, d, g) == Smooth(alpha, d, 0.0) + Times(alpha, g);
  }

  // ----------------------------------------------------------- runs of the cycle

  lemma {:induction false} TurnsGoOn(run: seq<seq<Ue>>, env: seq<set<nat>>, i: nat, t: nat, m: nat,
                                     unit: real, slack: real, rate: real, cfg: Config)
      returns (p: nat)
    requires cfg.Ok() && IsRun(run, env, cfg) && t <= |env| && AllBacklogged(env, m + 1)
    requires 0 < m && Turn(run[0], i, 0, m, unit, slack, rate, cfg)
    requires Dominates(m, unit, slack, rate, run[0][i].instRate, cfg)
    ensures Turn(run[t], i, p, m, unit, Decayed(slack, cfg.alpha, t), rate, cfg)
    ensures run[t][i].instRate == run[0][i].instRate
    ensures t < |env| ==> ChosenFrom(run[t], env[t], cfg) == Unrank(p, i)
  {
    p := 0;
    if t > 0 {
      var before := TurnsGoOn(run, env, i, t - 1, m, unit, slack, rate, cfg);
      assert Follows(run[t - 1], env[t - 1], run[t - 1 + 1], cfg);
      p := TurnStep(run[t - 1], env[t - 1], run[t], i, before, m, unit, Decayed(slack, cfg.alpha, t - 1), rate, cfg);
    }
    if t < |env| {
      DecayedShrinks(slack, cfg.alpha, 0, t);
      LoadKeepsTurn(run[t], env[t], i, p, m, unit, Decayed(slack, cfg.alpha, t), rate, cfg);
      TurnIsTaken(Load(run[t], env[t]), i, p, m, unit, Decayed(slack, cfg.alpha, t), rate, cfg);
    }
  }

  lemma TurnStep(now: seq<Ue>, backlog: set<nat>, next: seq<Ue>, i: nat, p: nat, m: nat,
                 unit: real, slack: real, rate: real, cfg: Config)
      returns (q: nat)
    requires cfg.Ok() && Turn(now, i, p, m, unit, slack, rate, cfg)
    requires Follows(now, backlog, next, cfg) && ChosenFrom(now, backlog, cfg) == Unrank(p, i)
    ensures Turn(next, i, q, m, unit, Smooth(cfg.alpha, slack, 0.0), rate, cfg)
    ensures next[i].instRate == now[i].instRate
  {
    LoadKeepsTurn(now, backlog, i, p, m, unit, slack, rate, cfg);
    q := TurnPasses(Load(now, backlog), i, p, m, unit, slack, rate, cfg);
  }

  lemma LoadKeepsTurn(now: seq<Ue>, backlog: set<nat>, i: nat, p: nat, m: nat, unit: real, slack: real, rate: real,
                      cfg: Config)
    requires Turn(now, i, p, m, unit, slack, rate, cfg)
    ensures Turn(Load(now, backlog), i, p, m, unit, slack, rate, cfg)
  {
    forall j | 0 <= j <= m && j != i
      ensures InCycle(Load(now, backlog)[j], Age(Rank(j, i), p, m), m, unit, slack, rate, cfg.alpha)
    {
      assert InCycle(now[j], Age(Rank(j, i), p, m), m, unit, slack, rate, cfg.alpha);
    }
  }

  /** Where EPSILON does not suffice there are m others, served in turn, between whom the
      UE is never chosen, in any place. */
  lemma EpsTooLargeStarves(ue: Ue, i: nat, m: nat, share: real, cfg: Config) returns (start: seq<Ue>)
    requires cfg.Ok() && 0.0 < share && NonNeg(ue) && ue.instRate > 0.0 && i <= m
    requires !EpsSuffices(ue.instRate, m, share, cfg)
    ensures |start| == m + 1 && start[i] == ue && RivalsRise(start, i, share)
    ensures forall run, env :: IsRun(run, env, cfg) && run[0] == start && AllBacklogged(env, m + 1) ==>
              forall t :: 0 <= t < |env| ==> ChosenFrom(run[t], env[t], cfg) != i
  {
    var g, d := Geometric(cfg.alpha, m), Decayed(1.0, cfg.alpha, m - 1);
    DecayedShrinks(1.0, cfg.alpha, 0, m - 1);
    GeometricGrows(cfg.alpha, 0, m);
    Quotient(2.0 * cfg.eps, d);
    var unit := 2.0 * cfg.eps / d;
    TimesPositive(unit, g);
    Quotient(Times(unit, g), share);
    var rate := Times(unit, g) / share;
    RateIsHigher(cfg.eps, unit, d, g, share, ue.instRate, rate);
    start := seq(m + 1, j requires 0 <= j <= m => if j == i then ue else CycleUe(Rank(j, i), m, unit, rate, cfg));
    assert Dominates(m, unit, cfg.eps, rate, ue.instRate, cfg);
    forall j | 0 <= j <= m && j != i
      ensures InCycle(start[j], Age(Rank(j, i), 0, m), m, unit, cfg.eps, rate, cfg.alpha)
      ensures NonNeg(start[j]) && start[j].actualRate >= Times(share, start[j].instRate)
    {
      CycleOrder(Age(Rank(j, i), 0, m), m, unit, cfg.eps, rate, ue.instRate, cfg);
      assert Times(share, rate) == Times(rate, share);
    }
    assert Turn(start, i, 0, m, unit, cfg.eps, rate, cfg);
    forall run, env, t | IsRun(run, env, cfg) && run[0] == start && AllBacklogged(env, m + 1) && 0 <= t < |env|
      ensures ChosenFrom(run[t], env[t], cfg) != i
    {
      var p := TurnsGoOn(run, env, i, t, m, unit, cfg.eps, rate, cfg);
    }
  }

  function CycleUe(k: nat, m: nat, unit: real, rate: real, cfg: Config): Ue
    requires k < m
  {
    Ue(true, rate, Times(unit, Geometric(cfg.alpha, m)), CycleAvg(Age(k, 0, m), unit, cfg.eps, cfg.alpha))
  }

  lemma RateIsHigher(eps: real, unit: real, d: real, g: real, share: real, own: real, rate: real)
    requires 0.0 < d && 0.0 < share && Times(unit, d) == 2.0 * eps && Times(rate, share) == Times(unit, g)
    requires Times(eps, g) >= Times(Times(share, own), d)
    ensures 2.0 * own <= rate
  {
    assert 2.0 * Times(eps, g) == Times(Times(rate, share), d);
    assert Times(Times(2.0 * own, share), d) == 2.0 * Times(Times(share, own), d);
    if rate < 2.0 * own {
      LessTimes(rate, 2.0 * own, share);
      LessTimes(Times(rate, share), Times(2.0 * own, share), d);
    }
  }

  /** The exact EPSILON: a UE is served for good, from every state with at most m rivals
      and under every backlog, as long as service puts at least this share of their rate
      into their average, if and only if EPSILON is below the bound. */
  lemma NeverStarvesIff(ue: Ue, i: nat, m: nat, share: real, cfg: Config)
    requires cfg.Ok() && 0.0 < share && NonNeg(ue) && ue.instRate > 0.0 && i <= m
    ensures (forall start :: i < |start| && start[i] == ue && RivalCount(start, i, |start|) <= m
                             && RivalsRise(start, i, share) ==>
               NeverStarves(start, i, cfg))
       <==> EpsSuffices(ue.instRate, m, share, cfg)
  {
    if EpsSuffices(ue.instRate, m, share, cfg) {
      forall start | i < |start| && start[i] == ue && RivalCount(start, i, |start|) <= m && RivalsRise(start, i, share)
        ensures NeverStarves(start, i, cfg)
      {
        var window := EpsSufficesServes(start, i, m, share, cfg);
      }
    } else {
      var start := EpsTooLargeStarves(ue, i, m, share, cfg);
      forall window: nat ensures !ServedEvery(start, i, window, cfg) {
        NotServedEvery(start, i, 0, window, cfg);
      }
    }
  }
}
