/** What the second listing is for: no UE starves. The theorems range over every run,
    whatever data the other UEs have in each TTI. */
module PfFairness {
  import opened Reals
  import opened FiniteSets
  import opened PfScheduler

  // -------------------------------------------------------------------- runs

  function Load(ues: seq<Ue>, backlog: set<nat>): (r: seq<Ue>)
    ensures |r| == |ues|
  {
    seq(|ues|, i requires 0 <= i < |ues| => ues[i].(hasData := i in backlog))
  }

  /** run[t] is the state before TTI t, and env[t] the set of UEs that have data in it. */
  ghost predicate IsRun(run: seq<seq<Ue>>, env: seq<set<nat>>, cfg: Config)
    requires cfg.Ok()
  {
    |run| == |env| + 1 && forall t :: 0 <= t < |env| ==> Follows(run[t], env[t], run[t + 1], cfg)
  }

  ghost predicate Follows(now: seq<Ue>, backlog: set<nat>, next: seq<Ue>, cfg: Config)
    requires cfg.Ok()
  {
    next == Tti(Load(now, backlog), cfg)
  }

  function ChosenFrom(now: seq<Ue>, backlog: set<nat>, cfg: Config): int
    requires cfg.Ok()
  {
    Chosen(Load(now, backlog), cfg)
  }

  ghost predicate AlwaysBacklogged(env: seq<set<nat>>, i: nat) {
    forall t :: 0 <= t < |env| ==> i in env[t]
  }

  /** UE i is chosen in some TTI from a up to b. */
  ghost predicate Served(run: seq<seq<Ue>>, env: seq<set<nat>>, i: nat, a: nat, b: nat, cfg: Config)
    requires cfg.Ok() && IsRun(run, env, cfg) && b <= |env|
  {
    exists t :: a <= t < b && ChosenFrom(run[t], env[t], cfg) == i
  }

  /** Every starting state has a run under every sequence of backlogs. */
  lemma {:induction false} RunExists(start: seq<Ue>, env: seq<set<nat>>, cfg: Config) returns (run: seq<seq<Ue>>)
    requires cfg.Ok()
    ensures IsRun(run, env, cfg) && run[0] == start
    decreases |env|
  {
    if env == [] {
      run := [start];
    } else {
      var rest := RunExists(Tti(Load(start, env[0]), cfg), env[1..], cfg);
      run := [start] + rest;
      forall t | 0 <= t < |env| ensures Follows(run[t], env[t], run[t + 1], cfg) {
        if t > 0 { assert Follows(rest[t - 1], env[1..][t - 1], rest[t - 1 + 1], cfg); }
      }
    }
  }

  // --------------------------------------------------------- comparing two UEs

  /** a's priority is below b's, without the divisions; b's own average is not clamped. */
  ghost predicate Behind(a: Ue, b: Ue, eps: real) {
    Times(a.instRate, b.avgRate) < Times(b.instRate, Divisor(a, eps))
  }

  lemma BehindIsLower(a: Ue, b: Ue, eps: real)
    requires 0.0 < eps <= b.avgRate && Behind(a, b, eps)
    ensures PfPriority(a, eps) < PfPriority(b, eps)
  {
    RatioOrder(a.instRate, Divisor(a, eps), b.instRate, b.avgRate);
  }

  /** A UE that is behind b and is not scheduled stays behind while b waits. */
  lemma StaysBehind(a: Ue, b: Ue, cfg: Config)
    requires cfg.Ok() && 0.0 < b.instRate && 0.0 < b.avgRate && Behind(a, b, cfg.eps)
    ensures Behind(Aged(a, false, cfg.alpha), Aged(b, false, cfg.alpha), cfg.eps)
  {
    var q := 1.0 - cfg.alpha;
    var d, d' := Divisor(a, cfg.eps), Divisor(Aged(a, false, cfg.alpha), cfg.eps);
    assert d' >= Times(q, d) by { Shrinks(q, cfg.eps); }
    ScaleBoth(a.instRate, d, d', b.instRate, b.avgRate, q);
  }

  lemma ScaleBoth(x: real, d: real, d': real, y: real, a: real, q: real)
    requires 0.0 < q < 1.0 && 0.0 < y && 0.0 < a
    requires x * a < y * d && d' >= q * d
    ensures x * (q * a) < y * d'
  {
    assert x * (q * a) == q * (x * a);
    assert q * (x * a) < q * (y * d);
    assert q * (y * d) == y * (q * d);
    assert y * (q * d) <= y * d';
  }

  /** What one service puts into the average is at least alpha times this share of
      the instantaneous rate. */
  ghost predicate SaneUe(ue: Ue, share: real) {
    ue.avgRate >= 0.0 && ue.actualRate >= 0.0 && ue.actualRate >= Times(share, ue.instRate)
  }

  /** The least average a UE can have right after it was scheduled. */
  function Floor(ue: Ue, share: real, alpha: real): real {
    Times(Times(alpha, share), ue.instRate)
  }

  lemma ServedIsAboveFloor(ue: Ue, share: real, alpha: real)
    requires 0.0 < alpha < 1.0 && SaneUe(ue, share)
    ensures Aged(ue, true, alpha).avgRate >= Floor(ue, share, alpha)
  {
    NonNegTimes(1.0 - alpha, ue.avgRate);
    LessTimes(Times(share, ue.instRate), ue.actualRate, alpha);
    assert alpha * Times(share, ue.instRate) == Floor(ue, share, alpha);
  }

  lemma FloorIsPositive(ue: Ue, share: real, alpha: real)
    requires 0.0 < alpha && 0.0 < share && 0.0 < ue.instRate
    ensures 0.0 < Floor(ue, share, alpha)
  {
    LessTimes(0.0, alpha, share);
    LessTimes(0.0, Times(alpha, share), ue.instRate);
  }

  /** A UE that has just been scheduled is behind b once b's average is below b's floor. */
  lemma FallsBehind(a: Ue, b: Ue, share: real, cfg: Config)
    requires cfg.Ok() && 0.0 < share && SaneUe(a, share) && 0.0 < a.instRate
    requires 0.0 < b.instRate && 0.0 < b.avgRate < Floor(b, share, cfg.alpha)
    ensures Behind(Aged(a, true, cfg.alpha), Aged(b, false, cfg.alpha), cfg.eps)
  {
    var gain := Times(cfg.alpha, share);
    LessTimes(0.0, cfg.alpha, share);
    ServedIsAboveFloor(a, share, cfg.alpha);
    SmoothIsBetween(cfg.alpha, b.avgRate, 0.0);
    JustServed(a.instRate, Divisor(Aged(a, true, cfg.alpha), cfg.eps), b.instRate,
               Aged(b, false, cfg.alpha).avgRate, gain);
  }

  lemma JustServed(x: real, d: real, y: real, a: real, gain: real)
    requires 0.0 < gain && 0.0 < x && 0.0 < y && a < Times(gain, y) && d >= Times(gain, x)
    ensures Times(x, a) < Times(y, d)
  {
    LessTimes(a, gain * y, x);
    assert x * (gain * y) == y * (gain * x);
    LessTimes(gain * x, d, y);
  }

  // ---------------------------------------------------------- bounded waiting

  ghost predicate SameRates(a: Ue, b: Ue) {
    a.instRate == b.instRate && a.actualRate == b.actualRate
  }

  ghost predicate AllSane(ues: seq<Ue>, share: real) {
    forall j :: 0 <= j < |ues| ==> SaneUe(ues[j], share)
  }

  lemma AgedIsSane(ue: Ue, wasScheduled: bool, share: real, alpha: real)
    requires 0.0 < alpha < 1.0 && SaneUe(ue, share)
    ensures SaneUe(Aged(ue, wasScheduled, alpha), share) && SameRates(Aged(ue, wasScheduled, alpha), ue)
  {
    SmoothIsBetween(alpha, ue.avgRate, RateNow(ue, wasScheduled));
  }

  /** What holds in every TTI until UE i is chosen: its average has only decayed,
      and the UEs in served, one per TTI since TTI c, are behind it. */
  ghost predicate Waiting(now: seq<Ue>, start: seq<Ue>, i: nat, t: nat, c: nat, served: set<nat>,
                          share: real, cfg: Config)
    requires |now| == |start| && i < |start|
  {
    && AllSane(now, share)
    && (forall j :: 0 <= j < |now| ==> SameRates(now[j], start[j]))
    && now[i].avgRate == Decayed(start[i].avgRate, cfg.alpha, t)
    && (forall j :: j in served ==> j < |now| && j != i && Behind(now[j], now[i], cfg.eps))
    && |served| == if t <= c then 0 else t - c
  }

  lemma LoadKeepsWaiting(now: seq<Ue>, backlog: set<nat>, start: seq<Ue>, i: nat, t: nat, c: nat,
                         served: set<nat>, share: real, cfg: Config)
    requires |now| == |start| && i < |start| && Waiting(now, start, i, t, c, served, share, cfg)
    ensures Waiting(Load(now, backlog), start, i, t, c, served, share, cfg)
  {
    var now' := Load(now, backlog);
    forall j | 0 <= j < |now'| ensures SaneUe(now'[j], share) && SameRates(now'[j], start[j]) {
      assert SaneUe(now[j], share);
    }
    forall j | j in served ensures Behind(now'[j], now'[i], cfg.eps) {
      assert Behind(now[j], now[i], cfg.eps);
    }
  }

  /** The UE chosen instead of i is not one of those already behind it. */
  lemma ChosenIsNew(now: seq<Ue>, i: nat, served: set<nat>, cfg: Config)
    requires cfg.Ok() && i < |now| && now[i].hasData && now[i].instRate > 0.0 && now[i].avgRate >= cfg.eps
    requires forall j :: j in served ==> j < |now| && Behind(now[j], now[i], cfg.eps)
    ensures var b := Chosen(now, cfg); b >= 0 && b !in served && now[b].instRate > 0.0
  {
    var b := Chosen(now, cfg);
    RatioPositive(now[i].instRate, now[i].avgRate);
    if b in served {
      BehindIsLower(now[b], now[i], cfg.eps);
    }
    RatioPositive(now[b].instRate, Divisor(now[b], cfg.eps));
  }

  lemma WaitOneMore(now: seq<Ue>, start: seq<Ue>, i: nat, t: nat, c: nat, served: set<nat>, share: real, cfg: Config)
      returns (served': set<nat>)
    requires cfg.Ok() && |now| == |start| && i < |start| && 0.0 < share
    requires Waiting(now, start, i, t, c, served, share, cfg)
    requires now[i].hasData && Chosen(now, cfg) != i
    requires start[i].instRate > 0.0
    requires now[i].avgRate >= cfg.eps
    requires t >= c ==> now[i].avgRate < Floor(start[i], share, cfg.alpha)
    ensures Waiting(Tti(now, cfg), start, i, t + 1, c, served', share, cfg)
  {
    var next := Tti(now, cfg);
    var b := Chosen(now, cfg);
    ChosenIsNew(now, i, served, cfg);
    forall j | 0 <= j < |next| ensures SameRates(next[j], start[j]) && SaneUe(next[j], share) {
      AgedIsSane(now[j], j == b, share, cfg.alpha);
    }
    forall j | j in served ensures Behind(next[j], next[i], cfg.eps) {
      StaysBehind(now[j], now[i], cfg);
    }
    served' := served;
    if t >= c {
      FallsBehind(now[b], now[i], share, cfg);
      served' := served + {b};
    }
  }

  lemma WaitStep(now: seq<Ue>, backlog: set<nat>, next: seq<Ue>, start: seq<Ue>, i: nat, t: nat, c: nat,
                 served: set<nat>, share: real, cfg: Config)
      returns (served': set<nat>)
    requires cfg.Ok() && |now| == |start| && i < |start| && 0.0 < share
    requires Waiting(now, start, i, t, c, served, share, cfg)
    requires Follows(now, backlog, next, cfg) && i in backlog && ChosenFrom(now, backlog, cfg) != i
    requires start[i].instRate > 0.0 && Decayed(start[i].avgRate, cfg.alpha, t) >= cfg.eps
    requires t >= c ==> Decayed(start[i].avgRate, cfg.alpha, t) < Floor(start[i], share, cfg.alpha)
    ensures |next| == |start| && Waiting(next, start, i, t + 1, c, served', share, cfg)
  {
    LoadKeepsWaiting(now, backlog, start, i, t, c, served, share, cfg);
    served' := WaitOneMore(Load(now, backlog), start, i, t, c, served, share, cfg);
  }

  lemma {:induction false} WaitUntil(run: seq<seq<Ue>>, env: seq<set<nat>>, i: nat, t: nat, c: nat,
                                     share: real, cfg: Config)
      returns (served: set<nat>)
    requires cfg.Ok() && IsRun(run, env, cfg) && t <= |env| && i < |run[0]| && 0.0 < share
    requires AllSane(run[0], share) && AlwaysBacklogged(env, i)
    requires forall u :: 0 <= u < t ==> ChosenFrom(run[u], env[u], cfg) != i
    requires run[0][i].instRate > 0.0
    requires forall u: nat :: u < t ==> Decayed(run[0][i].avgRate, cfg.alpha, u) >= cfg.eps
    requires forall u: nat :: u >= c ==> Decayed(run[0][i].avgRate, cfg.alpha, u) < Floor(run[0][i], share, cfg.alpha)
    ensures |run[t]| == |run[0]| && Waiting(run[t], run[0], i, t, c, served, share, cfg)
  {
    if t == 0 {
      served := {};
    } else {
      served := WaitUntil(run, env, i, t - 1, c, share, cfg);
      assert Follows(run[t - 1], env[t - 1], run[t - 1 + 1], cfg);
      served := WaitStep(run[t - 1], env[t - 1], run[t], run[0], i, t - 1, c, served, share, cfg);
    }
  }

  /** Bounded waiting. If c idle TTIs bring its average below its floor, a UE with
      data and a positive rate is chosen within c + n TTIs, whatever data the other
      n-1 UEs have in each TTI, as long as its average cannot decay below eps meanwhile. */
  lemma BoundedWaiting(run: seq<seq<Ue>>, env: seq<set<nat>>, i: nat, c: nat, share: real, cfg: Config)
    requires cfg.Ok() && IsRun(run, env, cfg) && i < |run[0]| && 0.0 < share
    requires AllSane(run[0], share) && AlwaysBacklogged(env, i)
    requires |env| >= c + |run[0]|
    requires run[0][i].instRate > 0.0 && run[0][i].avgRate > 0.0
    requires Decayed(run[0][i].avgRate, cfg.alpha, c) < Floor(run[0][i], share, cfg.alpha)
    requires Decayed(run[0][i].avgRate, cfg.alpha, c + |run[0]| - 1) >= cfg.eps
    ensures Served(run, env, i, 0, c + |run[0]|, cfg)
  {
    var avg, end := run[0][i].avgRate, c + |run[0]|;
    forall u: nat | u < end ensures Decayed(avg, cfg.alpha, u) >= cfg.eps {
      DecayedShrinks(avg, cfg.alpha, u, end - 1);
    }
    forall u: nat | u >= c ensures Decayed(avg, cfg.alpha, u) < Floor(run[0][i], share, cfg.alpha) {
      DecayedShrinks(avg, cfg.alpha, c, u);
    }
    if forall t :: 0 <= t < end ==> ChosenFrom(run[t], env[t], cfg) != i {
      var served := WaitUntil(run, env, i, end, c, share, cfg);
      OneMore(served, i, |run[0]|);
    }
  }

  /** A common share exists as soon as every UE with a positive instantaneous rate has
      a positive actual rate. */
  lemma {:induction false} ShareExists(ues: seq<Ue>) returns (share: real)
    requires forall j :: 0 <= j < |ues| ==> ues[j].avgRate >= 0.0 && ues[j].actualRate >= 0.0
    requires forall j :: 0 <= j < |ues| ==> ues[j].instRate > 0.0 ==> ues[j].actualRate > 0.0
    ensures 0.0 < share && AllSane(ues, share)
  {
    if ues == [] {
      share := 1.0;
    } else {
      var n := |ues| - 1;
      var rest := ShareExists(ues[..n]);
      var last := ues[n];
      share := rest;
      if last.instRate > 0.0 {
        Quotient(last.actualRate, last.instRate);
        share := if rest <= last.actualRate / last.instRate then rest else last.actualRate / last.instRate;
        LessTimes(share, last.actualRate / last.instRate, last.instRate);
      } else {
        NonPositiveTimes(last.instRate, share);
      }
      forall j | 0 <= j < |ues| ensures SaneUe(ues[j], share) {
        if j < n {
          assert SaneUe(ues[..n][j], rest);
          SmallerShare(ues[j], share, rest);
        }
      }
    }
  }

  lemma SmallerShare(ue: Ue, share: real, rest: real)
    requires 0.0 < share <= rest && SaneUe(ue, rest)
    ensures SaneUe(ue, share)
  {
    if ue.instRate > 0.0 {
      LessTimes(share, rest, ue.instRate);
    } else {
      NonPositiveTimes(ue.instRate, share);
    }
  }

  // -------------------------------------------------------- service for good

  /** An EPSILON that leaves UE i unclamped while it waits among n UEs: what is left after
      n idle TTIs of its floor, and of the average it starts with. Every service puts the average
      at or above the floor, so from the first one on the floor alone decides. */
  ghost predicate EpsFits(ue: Ue, n: nat, share: real, cfg: Config) {
    cfg.eps <= Decayed(Floor(ue, share, cfg.alpha), cfg.alpha, n) && cfg.eps <= Decayed(ue.avgRate, cfg.alpha, n)
  }

  /** With such an EPSILON a UE is served within c + n TTIs. */
  lemma ServedAgain(run: seq<seq<Ue>>, env: seq<set<nat>>, i: nat, c: nat, share: real, cfg: Config)
    requires cfg.Ok() && IsRun(run, env, cfg) && i < |run[0]| && 0.0 < share
    requires AllSane(run[0], share) && AlwaysBacklogged(env, i)
    requires |env| >= c + |run[0]|
    requires run[0][i].instRate > 0.0 && run[0][i].avgRate > 0.0
    requires Decayed(run[0][i].avgRate, cfg.alpha, c) < Floor(run[0][i], share, cfg.alpha)
    requires EpsFits(run[0][i], |run[0]|, share, cfg)
    ensures Served(run, env, i, 0, c + |run[0]|, cfg)
  {
    var avg, floor, n := run[0][i].avgRate, Floor(run[0][i], share, cfg.alpha), |run[0]|;
    var first := 0;
    if avg >= floor {
      var k := LastAbove(avg, floor, cfg.alpha, c);
      DecayedAgain(avg, cfg.alpha, k, n);
      DecayedGrows(floor, Decayed(avg, cfg.alpha, k), cfg.alpha, n);
      first := k + 1;
    } else {
      DecayedShrinks(avg, cfg.alpha, n - 1, n);
    }
    BoundedWaiting(run, env, i, first, share, cfg);
    var t :| 0 <= t < first + n && ChosenFrom(run[t], env[t], cfg) == i;
    assert t < c + n;
  }

  lemma {:induction false} LastAbove(avg: real, floor: real, alpha: real, c: nat) returns (k: nat)
    requires avg >= floor && Decayed(avg, alpha, c) < floor
    ensures k < c && Decayed(avg, alpha, k) >= floor > Decayed(avg, alpha, k + 1)
  {
    if Decayed(avg, alpha, c - 1) >= floor {
      k := c - 1;
    } else {
      k := LastAbove(avg, floor, alpha, c - 1);
    }
  }

  /** Over a run the rates stay, and UE i's average stays below what bounds it and its rate. */
  lemma {:induction false} RunKeepsSane(run: seq<seq<Ue>>, env: seq<set<nat>>, i: nat, top: real, t: nat,
                                        share: real, cfg: Config)
    requires cfg.Ok() && IsRun(run, env, cfg) && t <= |env| && i < |run[0]|
    requires AllSane(run[0], share) && run[0][i].avgRate <= top && run[0][i].actualRate <= top
    ensures |run[t]| == |run[0]| && AllSane(run[t], share) && SameRates(run[t][i], run[0][i])
    ensures run[t][i].avgRate <= top
  {
    if t > 0 {
      RunKeepsSane(run, env, i, top, t - 1, share, cfg);
      assert Follows(run[t - 1], env[t - 1], run[t - 1 + 1], cfg);
      SaneStep(run[t - 1], env[t - 1], run[t], i, top, share, cfg);
    }
  }

  lemma SaneStep(now: seq<Ue>, backlog: set<nat>, next: seq<Ue>, i: nat, top: real, share: real, cfg: Config)
    requires cfg.Ok() && Follows(now, backlog, next, cfg) && i < |now|
    requires AllSane(now, share) && now[i].avgRate <= top && now[i].actualRate <= top
    ensures |next| == |now| && AllSane(next, share) && SameRates(next[i], now[i])
    ensures next[i].avgRate <= top
  {
    var loaded := Load(now, backlog);
    var best := Chosen(loaded, cfg);
    forall j | 0 <= j < |next| ensures SaneUe(next[j], share) && SameRates(next[j], now[j]) {
      assert SaneUe(now[j], share);
      AgedIsSane(loaded[j], j == best, share, cfg.alpha);
    }
    SmoothIsBetween(cfg.alpha, loaded[i].avgRate, RateNow(loaded[i], i == best));
    assert SaneUe(now[i], share);
  }

  lemma EpsStillFits(now: Ue, start: Ue, n: nat, t: nat, share: real, cfg: Config)
    requires cfg.Ok() && 0.0 < share && 0.0 < start.instRate && 0.0 < start.avgRate && SameRates(now, start)
    requires EpsFits(start, n, share, cfg)
    requires (t == 0 && now.avgRate == start.avgRate) || now.avgRate >= Floor(start, share, cfg.alpha)
    ensures EpsFits(now, n, share, cfg) && 0.0 < now.avgRate
  {
    FloorIsPositive(start, share, cfg.alpha);
    if now.avgRate >= Floor(start, share, cfg.alpha) {
      DecayedGrows(Floor(start, share, cfg.alpha), now.avgRate, cfg.alpha, n);
    }
  }

  lemma RunFrom(run: seq<seq<Ue>>, env: seq<set<nat>>, t: nat, cfg: Config)
    requires cfg.Ok() && IsRun(run, env, cfg) && t <= |env|
    ensures IsRun(run[t..], env[t..], cfg)
  {
    forall u | 0 <= u < |env| - t ensures Follows(run[t..][u], env[t..][u], run[t..][u + 1], cfg) {
      assert Follows(run[t + u], env[t + u], run[t + u + 1], cfg);
    }
  }

  /** For good: every window of c + n TTIs contains a service of UE i. top bounds its
      average and its rate, and c idle TTIs bring top below the floor. */
  lemma {:induction false} ServedInEveryWindow(run: seq<seq<Ue>>, env: seq<set<nat>>, i: nat, top: real, c: nat,
                                               t: nat, share: real, cfg: Config)
    requires cfg.Ok() && IsRun(run, env, cfg) && i < |run[0]| && 0.0 < share
    requires AllSane(run[0], share) && AlwaysBacklogged(env, i)
    requires run[0][i].instRate > 0.0 && EpsFits(run[0][i], |run[0]|, share, cfg)
    requires 0.0 < run[0][i].avgRate <= top && run[0][i].actualRate <= top
    requires Decayed(top, cfg.alpha, c) < Floor(run[0][i], share, cfg.alpha)
    requires t + c + |run[0]| <= |env|
    ensures Served(run, env, i, t, t + c + |run[0]|, cfg)
  {
    RunKeepsSane(run, env, i, top, t, share, cfg);
    if t == 0 || run[t][i].avgRate >= Floor(run[0][i], share, cfg.alpha) {
      EpsStillFits(run[t][i], run[0][i], |run[0]|, t, share, cfg);
      DecayedGrows(run[t][i].avgRate, top, cfg.alpha, c);
      ServedFromHere(run, env, i, c, t, share, cfg);
    } else {
      ServedInEveryWindow(run, env, i, top, c, t - 1, share, cfg);
      RunKeepsSane(run, env, i, top, t - 1, share, cfg);
      NotJustServed(run, env, i, t - 1, share, cfg);
      var u :| t - 1 <= u < t - 1 + c + |run[0]| && ChosenFrom(run[u], env[u], cfg) == i;
      assert t <= u < t + c + |run[0]|;
    }
  }

  lemma NotJustServed(run: seq<seq<Ue>>, env: seq<set<nat>>, i: nat, t: nat, share: real, cfg: Config)
    requires cfg.Ok() && IsRun(run, env, cfg) && t < |env| && i < |run[t]| && AllSane(run[t], share)
    requires i < |run[t + 1]| && run[t + 1][i].avgRate < Floor(run[t][i], share, cfg.alpha)
    ensures ChosenFrom(run[t], env[t], cfg) != i
  {
    assert Follows(run[t], env[t], run[t + 1], cfg);
    assert SaneUe(run[t][i], share);
    ServedIsAboveFloor(Load(run[t], env[t])[i], share, cfg.alpha);
  }

  lemma ServedFromHere(run: seq<seq<Ue>>, env: seq<set<nat>>, i: nat, c: nat, t: nat, share: real, cfg: Config)
    requires cfg.Ok() && IsRun(run, env, cfg) && t <= |env| && i < |run[t]| && 0.0 < share
    requires AllSane(run[t], share) && AlwaysBacklogged(env, i)
    requires t + c + |run[t]| <= |env|
    requires run[t][i].instRate > 0.0 && run[t][i].avgRate > 0.0
    requires Decayed(run[t][i].avgRate, cfg.alpha, c) < Floor(run[t][i], share, cfg.alpha)
    requires EpsFits(run[t][i], |run[t]|, share, cfg)
    ensures Served(run, env, i, t, t + c + |run[t]|, cfg)
  {
    RunFrom(run, env, t, cfg);
    ServedAgain(run[t..], env[t..], i, c, share, cfg);
    var u :| 0 <= u < c + |run[t]| && ChosenFrom(run[t..][u], env[t..][u], cfg) == i;
    assert ChosenFrom(run[t + u], env[t + u], cfg) == i;
  }

  ghost predicate InEveryWindow(run: seq<seq<Ue>>, env: seq<set<nat>>, i: nat, window: nat, cfg: Config)
    requires cfg.Ok() && IsRun(run, env, cfg)
  {
    forall a: nat, b: nat :: b == a + window && b <= |env| ==> Served(run, env, i, a, b, cfg)
  }

  /** Recurring service for one fixed EPSILON, with the window spelled out. */
  lemma ServedForGood(start: seq<Ue>, i: nat, share: real, cfg: Config) returns (window: nat)
    requires cfg.Ok() && i < |start| && 0.0 < share && AllSane(start, share)
    requires start[i].instRate > 0.0 && start[i].avgRate > 0.0 && EpsFits(start[i], |start|, share, cfg)
    ensures var top := if start[i].avgRate >= start[i].actualRate then start[i].avgRate else start[i].actualRate;
            var floor := Floor(start[i], share, cfg.alpha);
            floor > 0.0 && window as real <= top / floor / cfg.alpha + 1.0 + |start| as real
    ensures forall run, env :: IsRun(run, env, cfg) && run[0] == start && AlwaysBacklogged(env, i) ==>
              InEveryWindow(run, env, i, window, cfg)
  {
    var top := if start[i].avgRate >= start[i].actualRate then start[i].avgRate else start[i].actualRate;
    FloorIsPositive(start[i], share, cfg.alpha);
    var c := DecaysBelow(top, Floor(start[i], share, cfg.alpha), cfg.alpha);
    window := c + |start|;
    ServedWithin(start, i, top, c, share, cfg);
  }

  lemma ServedWithin(start: seq<Ue>, i: nat, top: real, c: nat, share: real, cfg: Config)
    requires cfg.Ok() && i < |start| && 0.0 < share && AllSane(start, share)
    requires start[i].instRate > 0.0 && EpsFits(start[i], |start|, share, cfg)
    requires 0.0 < start[i].avgRate <= top && start[i].actualRate <= top
    requires Decayed(top, cfg.alpha, c) < Floor(start[i], share, cfg.alpha)
    ensures forall run, env :: IsRun(run, env, cfg) && run[0] == start && AlwaysBacklogged(env, i) ==>
              InEveryWindow(run, env, i, c + |start|, cfg)
  {
    forall run, env | IsRun(run, env, cfg) && run[0] == start && AlwaysBacklogged(env, i)
      ensures InEveryWindow(run, env, i, c + |start|, cfg)
    {
      forall a: nat, b: nat | b == a + (c + |start|) && b <= |env| ensures Served(run, env, i, a, b, cfg) {
        ServedInEveryWindow(run, env, i, top, c, a, share, cfg);
      }
    }
  }

  /** No starvation, with one window for every EPSILON up to a positive bound: if service
      raises the averages of all, a UE with a positive rate is served in every window of
      every run in which it has data. (OneWindowIff in PfStarvation: it takes all of them;
      without the one window, NoUeStarvesIff: it takes the rivals only.) */
  lemma OneWindowServes(start: seq<Ue>, i: nat, alpha: real) returns (window: nat, bound: real)
    requires 0.0 < alpha < 1.0 && i < |start|
    requires forall j :: 0 <= j < |start| ==> start[j].avgRate >= 0.0 && start[j].actualRate >= 0.0
    requires forall j :: 0 <= j < |start| ==> start[j].instRate > 0.0 ==> start[j].actualRate > 0.0
    requires start[i].instRate > 0.0 && start[i].avgRate > 0.0
    ensures 0.0 < bound
    ensures forall run, env, eps :: 0.0 < eps <= bound && IsRun(run, env, Config(alpha, eps)) ==>
              run[0] == start && AlwaysBacklogged(env, i) ==>
                InEveryWindow(run, env, i, window, Config(alpha, eps))
  {
    var share := ShareExists(start);
    var top := if start[i].avgRate >= start[i].actualRate then start[i].avgRate else start[i].actualRate;
    var floor := Floor(start[i], share, alpha);
    FloorIsPositive(start[i], share, alpha);
    var c := DecaysBelow(top, floor, alpha);
    window := c + |start|;
    DecayedShrinks(floor, alpha, 0, |start|);
    DecayedShrinks(start[i].avgRate, alpha, 0, |start|);
    var x, y := Decayed(floor, alpha, |start|), Decayed(start[i].avgRate, alpha, |start|);
    bound := if x <= y then x else y;
    forall eps | 0.0 < eps <= bound
      ensures forall run, env :: IsRun(run, env, Config(alpha, eps)) && run[0] == start && AlwaysBacklogged(env, i) ==>
                InEveryWindow(run, env, i, window, Config(alpha, eps))
    {
      ServedWithin(start, i, top, c, share, Config(alpha, eps));
    }
  }
}
