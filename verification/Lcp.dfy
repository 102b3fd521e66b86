/** Logical channel prioritization: token buckets in phase 1, strict priority in
    phase 2. Channels are listed in priority order, highest first. fill_pdu_with_lc
    is taken to move at most what is queued. */
module Lcp {
  import opened Reals
  import opened Sums

  /** bj is the bucket level, pbr its fill rate, bsd the time it can save up; queue is what waits. */
  datatype Channel = Channel(bj: real, pbr: real, bsd: real, queue: nat) {
    function Cap(): real {
      Times(bsd, pbr)
    }

    predicate Ok() {
      0.0 <= pbr && 0.0 <= bj <= Cap()
    }
  }

  predicate AllOk(cs: seq<Channel>) {
    forall i :: 0 <= i < |cs| ==> cs[i].Ok()
  }

  /** All that serving a grant needs of the buckets. */
  predicate Stocked(cs: seq<Channel>) {
    forall i :: 0 <= i < |cs| ==> cs[i].bj >= 0.0
  }

  function Min(a: nat, b: nat): nat {
    if a <= b then a else b
  }

  function Least(x: real, y: real): real {
    if x <= y then x else y
  }

  function Filled(c: Channel, dt: real): Channel {
    c.(bj := if c.bj + Times(c.pbr, dt) > c.Cap() then c.Cap() else c.bj + Times(c.pbr, dt))
  }

  /** int allocated = min(Bj, available_grant): the fraction is cut off. */
  function Offer(c: Channel, grant: nat): (n: nat)
    requires c.bj >= 0.0
    ensures n <= grant && n as real <= c.bj
  {
    if c.bj < grant as real then c.bj.Floor else grant
  }

  /** A phase-1 allocation is charged in full, whatever the queue held. */
  function Charged(c: Channel, n: nat): Channel {
    c.(bj := c.bj - n as real, queue := c.queue - Min(n, c.queue))
  }

  function Drained(c: Channel, n: nat): Channel {
    c.(queue := c.queue - Min(n, c.queue))
  }

  /** The grant still available when phase 1 reaches channel n. */
  function Left1(cs: seq<Channel>, grant: nat, n: nat): nat
    requires Stocked(cs) && n <= |cs|
    decreases n, 0
  {
    if n == 0 then grant else Left1(cs, grant, n - 1) - Given1(cs, grant, n - 1)
  }

  /** The grant still available when phase 2 reaches channel n. */
  function Left2(cs: seq<Channel>, grant: nat, n: nat): nat
    requires n <= |cs|
    decreases n, 0
  {
    if n == 0 then grant else Left2(cs, grant, n - 1) - Given2(cs, grant, n - 1)
  }

  function Given1(cs: seq<Channel>, grant: nat, i: nat): (n: nat)
    requires Stocked(cs) && i < |cs|
    ensures n <= Left1(cs, grant, i)
    decreases i, 1
  {
    Offer(cs[i], Left1(cs, grant, i))
  }

  function Given2(cs: seq<Channel>, grant: nat, i: nat): (n: nat)
    requires i < |cs|
    ensures n <= Left2(cs, grant, i)
    decreases i, 1
  {
    Min(cs[i].queue, Left2(cs, grant, i))
  }

  function Phase1(cs: seq<Channel>, grant: nat): (ns: seq<nat>)
    requires Stocked(cs)
    ensures |ns| == |cs|
  {
    seq(|cs|, i requires 0 <= i < |cs| => Given1(cs, grant, i))
  }

  function Phase2(cs: seq<Channel>, grant: nat): (ns: seq<nat>)
    ensures |ns| == |cs|
  {
    seq(|cs|, i requires 0 <= i < |cs| => Given2(cs, grant, i))
  }

  /** The channels after the first |ns| have been charged. */
  function AfterPhase1(cs: seq<Channel>, ns: seq<nat>): (r: seq<Channel>)
    requires |ns| <= |cs|
    ensures |r| == |cs|
  {
    seq(|cs|, i requires 0 <= i < |cs| => if i < |ns| then Charged(cs[i], ns[i]) else cs[i])
  }

  function AfterPhase2(cs: seq<Channel>, ns: seq<nat>): (r: seq<Channel>)
    requires |ns| <= |cs|
    ensures |r| == |cs|
  {
    seq(|cs|, i requires 0 <= i < |cs| => if i < |ns| then Drained(cs[i], ns[i]) else cs[i])
  }

  /** What one grant does. */
  datatype Outcome = Outcome(first: seq<nat>, second: seq<nat>, leftover: nat, channels: seq<Channel>)

  /** The state between the phases. */
  function Midway(cs: seq<Channel>, grant: nat): (mid: seq<Channel>)
    requires Stocked(cs)
    ensures |mid| == |cs|
  {
    AfterPhase1(cs, Phase1(cs, grant))
  }

  function Serve(cs: seq<Channel>, grant: nat): (o: Outcome)
    requires Stocked(cs)
    ensures |o.first| == |o.second| == |o.channels| == |cs|
  {
    var mid, rest := Midway(cs, grant), Left1(cs, grant, |cs|);
    Outcome(Phase1(cs, grant), Phase2(mid, rest), Left2(mid, rest, |cs|), AfterPhase2(mid, Phase2(mid, rest)))
  }

  class LcpMac {
    var channels: seq<Channel>

    method UpdateBuckets(dt: real)
      modifies this
      ensures channels == seq(|old(channels)|, i requires 0 <= i < |old(channels)| => Filled(old(channels)[i], dt))
      ensures forall i :: 0 <= i < |channels| ==>
                channels[i].bj == Least(old(channels)[i].Cap(), old(channels)[i].bj + Times(old(channels)[i].pbr, dt))
    {
      for i := 0 to |channels|
        invariant |channels| == |old(channels)|
        invariant forall j :: 0 <= j < i ==> channels[j] == Filled(old(channels)[j], dt)
        invariant forall j :: i <= j < |channels| ==> channels[j] == old(channels)[j]
      {
        var c := channels[i];
        c := c.(bj := c.bj + Times(c.pbr, dt));
        if c.bj > Times(c.bsd, c.pbr) {
          c := c.(bj := Times(c.bsd, c.pbr));
        }
        channels := channels[i := c];
      }
    }

    /** Phase 1. */
    method PrioritizedPass(grant: nat) returns (ns: seq<nat>, available: nat)
      requires Stocked(channels)
      modifies this
      ensures ns == Phase1(old(channels), grant) && available == Left1(old(channels), grant, |old(channels)|)
      ensures channels == AfterPhase1(old(channels), ns)
    {
      ghost var cs := channels;
      ns, available := [], grant;
      assert channels == AfterPhase1(cs, ns);
      for i := 0 to |channels|
        invariant |channels| == |cs| && ns == Phase1(cs, grant)[..i] && channels == AfterPhase1(cs, ns)
        invariant available == Left1(cs, grant, i)
      {
        NextCharge(cs, grant, i);
        var offered := Offer(channels[i], available);
        channels := channels[i := Charged(channels[i], offered)];
        ns, available := ns + [offered], available - offered;
      }
      assert Phase1(cs, grant)[..|cs|] == Phase1(cs, grant);
    }

    /** Phase 2: it breaks off when nothing is available. */
    method StrictPass(grant: nat) returns (ns: seq<nat>, available: nat)
      modifies this
      ensures ns == Phase2(old(channels), grant) && available == Left2(old(channels), grant, |old(channels)|)
      ensures channels == AfterPhase2(old(channels), ns)
    {
      ghost var cs := channels;
      ns, available := [], grant;
      assert channels == AfterPhase2(cs, ns);
      for i := 0 to |channels|
        invariant |channels| == |cs| && ns == Phase2(cs, grant)[..i] && channels == AfterPhase2(cs, ns)
        invariant available == Left2(cs, grant, i)
      {
        if available == 0 {
          NothingMore(cs, grant, i);
          ns := ns + seq(|channels| - i, _ => 0);
          return;
        }
        NextDrain(cs, grant, i);
        var more := Min(channels[i].queue, available);
        channels := channels[i := Drained(channels[i], more)];
        ns, available := ns + [more], available - more;
      }
      assert Phase2(cs, grant)[..|cs|] == Phase2(cs, grant);
    }

    method ServeGrant(grant: nat) returns (first: seq<nat>, second: seq<nat>, leftover: nat)
      requires Stocked(channels)
      modifies this
      ensures Outcome(first, second, leftover, channels) == Serve(old(channels), grant)
    {
      first, leftover := PrioritizedPass(grant);
      second, leftover := StrictPass(leftover);
    }
  }

  lemma NextCharge(cs: seq<Channel>, grant: nat, i: nat)
    requires Stocked(cs) && i < |cs|
    ensures var ns, n := Phase1(cs, grant), Offer(cs[i], Left1(cs, grant, i));
            var now := AfterPhase1(cs, ns[..i]);
            && now[i] == cs[i] && ns[..i + 1] == ns[..i] + [n]
            && now[i := Charged(cs[i], n)] == AfterPhase1(cs, ns[..i + 1])
            && Left1(cs, grant, i + 1) == Left1(cs, grant, i) - n
  {
    assert Phase1(cs, grant)[i] == Given1(cs, grant, i);
  }

  lemma NextDrain(cs: seq<Channel>, grant: nat, i: nat)
    requires i < |cs|
    ensures var ns, n := Phase2(cs, grant), Min(cs[i].queue, Left2(cs, grant, i));
            var now := AfterPhase2(cs, ns[..i]);
            && now[i] == cs[i] && ns[..i + 1] == ns[..i] + [n]
            && now[i := Drained(cs[i], n)] == AfterPhase2(cs, ns[..i + 1])
            && Left2(cs, grant, i + 1) == Left2(cs, grant, i) - n
  {
    assert Phase2(cs, grant)[i] == Given2(cs, grant, i);
  }

  /** Breaking off when nothing is available gives the remaining channels nothing. */
  lemma NothingMore(cs: seq<Channel>, grant: nat, i: nat)
    requires i <= |cs| && Left2(cs, grant, i) == 0
    ensures Left2(cs, grant, |cs|) == 0
    ensures Phase2(cs, grant) == Phase2(cs, grant)[..i] + seq(|cs| - i, _ => 0)
    ensures AfterPhase2(cs, Phase2(cs, grant)) == AfterPhase2(cs, Phase2(cs, grant)[..i])
  {
    forall j | i <= j <= |cs| ensures Left2(cs, grant, j) == 0 { StaysEmpty(cs, grant, i, j); }
    forall j | i <= j < |cs| ensures Phase2(cs, grant)[j] == 0 {
      assert Phase2(cs, grant)[j] == Given2(cs, grant, j);
    }
    ZeroTail(cs, Phase2(cs, grant), i);
  }

  lemma ZeroTail(cs: seq<Channel>, ns: seq<nat>, i: nat)
    requires i <= |ns| == |cs| && forall j :: i <= j < |cs| ==> ns[j] == 0
    ensures ns == ns[..i] + seq(|cs| - i, _ => 0)
    ensures AfterPhase2(cs, ns) == AfterPhase2(cs, ns[..i])
  {
  }

  lemma {:induction false} StaysEmpty(cs: seq<Channel>, grant: nat, i: nat, n: nat)
    requires i <= n <= |cs| && Left2(cs, grant, i) == 0
    ensures Left2(cs, grant, n) == 0
  {
    if i < n {
      StaysEmpty(cs, grant, i, n - 1);
      assert Given2(cs, grant, n - 1) == 0;
    }
  }

  // ------------------------------------------------------------- one grant

  /** What one grant leaves of a channel: the phase-1 allocation off the bucket, and what
      both phases moved off the queue. */
  lemma GrantCharges(cs: seq<Channel>, grant: nat, i: nat)
    requires Stocked(cs) && i < |cs|
    ensures var o := Serve(cs, grant);
            && o.channels[i].bj == cs[i].bj - o.first[i] as real
            && o.channels[i].queue + Min(o.first[i], cs[i].queue) + o.second[i] == cs[i].queue
            && o.channels[i].pbr == cs[i].pbr && o.channels[i].bsd == cs[i].bsd
  {
    assert Serve(cs, grant).second[i] == Given2(Midway(cs, grant), Left1(cs, grant, |cs|), i);
  }

  /** While phase 2 has grant to give, every channel it has passed is drained. */
  lemma {:induction false} Phase2Drains(cs: seq<Channel>, grant: nat, n: nat)
    requires n <= |cs| && Left2(cs, grant, n) > 0
    ensures forall j :: 0 <= j < n ==> Given2(cs, grant, j) == cs[j].queue
  {
    if n > 0 { Phase2Drains(cs, grant, n - 1); }
  }

  /** Grant is left over only when every queue is empty. */
  lemma LeftoverMeansDrained(cs: seq<Channel>, grant: nat)
    requires Stocked(cs)
    ensures var o := Serve(cs, grant);
            o.leftover > 0 ==> forall i :: 0 <= i < |cs| ==> o.channels[i].queue == 0
  {
    if Serve(cs, grant).leftover > 0 {
      Phase2Drains(Midway(cs, grant), Left1(cs, grant, |cs|), |cs|);
    }
  }

  /** In phase 2 a channel is served only if every channel of higher priority is drained. */
  lemma PriorityIsStrict(cs: seq<Channel>, grant: nat, i: nat, j: nat)
    requires Stocked(cs) && j < i < |cs|
    ensures Serve(cs, grant).second[i] > 0 ==> Serve(cs, grant).channels[j].queue == 0
  {
    if Serve(cs, grant).second[i] > 0 {
      Phase2Drains(Midway(cs, grant), Left1(cs, grant, |cs|), i);
    }
  }

  function Queues(cs: seq<Channel>): (r: seq<nat>)
    ensures |r| == |cs|
  {
    seq(|cs|, i requires 0 <= i < |cs| => cs[i].queue)
  }

  /** The phase-1 allocations that found no data to carry. */
  function Waste(cs: seq<Channel>, ns: seq<nat>): (r: seq<nat>)
    requires |ns| == |cs|
    ensures |r| == |cs|
  {
    seq(|cs|, i requires 0 <= i < |cs| => ns[i] - Min(ns[i], cs[i].queue))
  }

  lemma {:induction false} Telescope(left: seq<nat>, given: seq<nat>, n: nat)
    requires n <= |given| < |left|
    requires forall i :: 0 <= i < n ==> left[i + 1] + given[i] == left[i]
    ensures Sum(given[..n]) + left[n] == left[0]
  {
    if n > 0 {
      Telescope(left, given, n - 1);
      SumPrefix(given, n - 1);
    }
  }

  lemma Phase1AddsUp(cs: seq<Channel>, grant: nat)
    requires Stocked(cs)
    ensures Sum(Phase1(cs, grant)) + Left1(cs, grant, |cs|) == grant
  {
    var left := seq(|cs| + 1, i requires 0 <= i <= |cs| => Left1(cs, grant, i));
    Telescope(left, Phase1(cs, grant), |cs|);
    assert Phase1(cs, grant)[..|cs|] == Phase1(cs, grant);
  }

  lemma Phase2AddsUp(cs: seq<Channel>, grant: nat)
    ensures Sum(Phase2(cs, grant)) + Left2(cs, grant, |cs|) == grant
  {
    var left := seq(|cs| + 1, i requires 0 <= i <= |cs| => Left2(cs, grant, i));
    Telescope(left, Phase2(cs, grant), |cs|);
    assert Phase2(cs, grant)[..|cs|] == Phase2(cs, grant);
  }

  /** Where the numbers of four sequences balance place by place, so do their sums. */
  lemma {:induction false} SumsBalance(a: seq<nat>, b: seq<nat>, c: seq<nat>, d: seq<nat>)
    requires |a| == |b| == |c| == |d|
    requires forall i :: 0 <= i < |a| ==> a[i] + b[i] == c[i] + d[i]
    ensures Sum(a) + Sum(b) == Sum(c) + Sum(d)
  {
    if a != [] {
      var n := |a| - 1;
      SumsBalance(a[..n], b[..n], c[..n], d[..n]);
    }
  }

  lemma Phase1Moves(cs: seq<Channel>, ns: seq<nat>)
    requires |ns| == |cs|
    ensures Sum(Queues(cs)) + Sum(Waste(cs, ns)) == Sum(Queues(AfterPhase1(cs, ns))) + Sum(ns)
  {
    SumsBalance(Queues(cs), Waste(cs, ns), Queues(AfterPhase1(cs, ns)), ns);
  }

  lemma Phase2Moves(cs: seq<Channel>, grant: nat)
    ensures Sum(Queues(cs)) == Sum(Queues(AfterPhase2(cs, Phase2(cs, grant)))) + Sum(Phase2(cs, grant))
  {
    var ns := Phase2(cs, grant);
    var none := seq(|cs|, _ => 0);
    SumIsZeroIff(none);
    forall i | 0 <= i < |cs| ensures Queues(cs)[i] + none[i] == Queues(AfterPhase2(cs, ns))[i] + ns[i] {
      assert ns[i] == Given2(cs, grant, i) <= cs[i].queue;
    }
    SumsBalance(Queues(cs), none, Queues(AfterPhase2(cs, ns)), ns);
  }

  /** Conservation: the allocations of the two phases and the leftover are the grant. */
  lemma AllocationsAddUp(cs: seq<Channel>, grant: nat)
    requires Stocked(cs)
    ensures var o := Serve(cs, grant); Sum(o.first) + Sum(o.second) + o.leftover == grant
  {
    Phase1AddsUp(cs, grant);
    Phase2AddsUp(Midway(cs, grant), Left1(cs, grant, |cs|));
  }

  /** Whole bytes in each bucket. */
  function Levels(cs: seq<Channel>): (r: seq<nat>)
    requires Stocked(cs)
    ensures |r| == |cs|
  {
    seq(|cs|, i requires 0 <= i < |cs| => cs[i].bj.Floor)
  }

  /** What phase 1 offers channel i, read off the buckets: its level, or what the levels
      before it leave of the grant. */
  function Allotment(cs: seq<Channel>, grant: nat, i: nat): nat
    requires Stocked(cs) && i < |cs|
  {
    Min(Levels(cs)[i], Monus(grant, Sum(Levels(cs)[..i])))
  }

  function Monus(a: nat, b: nat): nat {
    if a <= b then 0 else a - b
  }

  lemma OfferIsMin(c: Channel, grant: nat)
    requires 0.0 <= c.bj
    ensures Offer(c, grant) == Min(c.bj.Floor, grant)
  {
  }

  lemma {:induction false} LeftByLevels(cs: seq<Channel>, grant: nat, n: nat)
    requires Stocked(cs) && n <= |cs|
    ensures Left1(cs, grant, n) == Monus(grant, Sum(Levels(cs)[..n]))
  {
    if n > 0 {
      LeftByLevels(cs, grant, n - 1);
      OfferIsMin(cs[n - 1], Left1(cs, grant, n - 1));
      SumPrefix(Levels(cs), n - 1);
      assert Levels(cs)[n - 1] == cs[n - 1].bj.Floor;
    }
  }

  lemma GivenIsAllotment(cs: seq<Channel>, grant: nat, i: nat)
    requires Stocked(cs) && i < |cs|
    ensures Phase1(cs, grant)[i] == Allotment(cs, grant, i)
  {
    LeftByLevels(cs, grant, i);
    assert Phase1(cs, grant)[i] == Given1(cs, grant, i);
    OfferIsMin(cs[i], Left1(cs, grant, i));
  }

  /** Phase 1 secures the prioritized rates: a grant that covers the levels down to
      channel i gives it what its bucket holds, and passes on the rest. */
  lemma BucketsAreHonoured(cs: seq<Channel>, grant: nat, i: nat)
    requires Stocked(cs) && i < |cs|
    requires Sum(Levels(cs)[..i + 1]) <= grant
    ensures Phase1(cs, grant)[i] == Levels(cs)[i]
    ensures Left1(cs, grant, i + 1) == grant - Sum(Levels(cs)[..i + 1])
  {
    LeftByLevels(cs, grant, i + 1);
    GivenIsAllotment(cs, grant, i);
    SumPrefix(Levels(cs), i);
  }

  /** Data moved plus leftover is the grant exactly when no bucket, as far as the
      grant reaches, holds more than its queue; otherwise the difference is wasted. */
  lemma GrantIsAllDataIff(cs: seq<Channel>, grant: nat)
    requires Stocked(cs)
    ensures var o := Serve(cs, grant);
            && Sum(Queues(cs)) + Sum(Waste(cs, o.first)) + o.leftover == Sum(Queues(o.channels)) + grant
            && (Sum(Queues(cs)) + o.leftover == Sum(Queues(o.channels)) + grant <==>
                  forall i :: 0 <= i < |cs| ==> Allotment(cs, grant, i) <= cs[i].queue)
  {
    var o, n := Serve(cs, grant), |cs|;
    AllocationsAddUp(cs, grant);
    Phase1Moves(cs, o.first);
    Phase2Moves(Midway(cs, grant), Left1(cs, grant, n));
    SumIsZeroIff(Waste(cs, o.first));
    forall i | 0 <= i < n ensures Waste(cs, o.first)[i] == 0 <==> Allotment(cs, grant, i) <= cs[i].queue {
      GivenIsAllotment(cs, grant, i);
    }
  }

  /** The waste is real: an empty channel with a full bucket uses up the grant, and
      the channel behind it, waiting with an empty bucket, gets nothing. */
  lemma FullBucketEmptyQueue(a: Channel, b: Channel, grant: nat)
    requires a.queue == 0 && a.bj >= grant as real && b.bj == 0.0
    ensures Stocked([a, b]) && Serve([a, b], grant).channels[1].queue == b.queue
  {
    var cs := [a, b];
    assert Left1(cs, grant, 1) == 0 by { assert Left1(cs, grant, 0) == grant; }
    assert Left1(cs, grant, 2) == 0;
    StaysEmpty(Midway(cs, grant), 0, 0, 1);
  }

  // -------------------------------------------------------------------- runs

  datatype Event = Tick(dt: real) | Grant(bytes: nat) | Arrival(channel: nat, bytes: nat)

  /** Time does not run backwards. */
  function Apply(cs: seq<Channel>, e: Event): (r: seq<Channel>)
    requires AllOk(cs)
    ensures |r| == |cs|
  {
    match e
    case Tick(dt) => if dt < 0.0 then cs else seq(|cs|, i requires 0 <= i < |cs| => Filled(cs[i], dt))
    case Grant(bytes) => Serve(cs, bytes).channels
    case Arrival(i, bytes) => if i < |cs| then cs[i := cs[i].(queue := cs[i].queue + bytes)] else cs
  }

  /** The buckets stay between empty and full: 0 <= Bj <= BSD * PBR. */
  lemma BucketsStayInRange(cs: seq<Channel>, e: Event)
    requires AllOk(cs)
    ensures AllOk(Apply(cs, e))
    ensures forall i :: 0 <= i < |cs| ==> Apply(cs, e)[i].pbr == cs[i].pbr && Apply(cs, e)[i].bsd == cs[i].bsd
  {
    match e
    case Tick(dt) =>
      if dt >= 0.0 {
        forall i | 0 <= i < |cs| ensures Filled(cs[i], dt).Ok() { FilledIsOk(cs[i], dt); }
      }
    case Grant(bytes) =>
      assert forall i :: 0 <= i < |cs| ==> Serve(cs, bytes).channels[i].bj == cs[i].bj - Serve(cs, bytes).first[i] as real;
    case _ =>
  }

  lemma FilledIsOk(c: Channel, dt: real)
    requires c.Ok() && 0.0 <= dt
    ensures Filled(c, dt).Ok()
    ensures Filled(c, dt).bj <= c.bj + Times(c.pbr, dt)
  {
    assert 0.0 <= Times(c.pbr, dt);
  }

  function Duration(e: Event): real {
    if e.Tick? && e.dt >= 0.0 then e.dt else 0.0
  }

  /** Time passed, and bytes given to channel i in phase 1, over a run. */
  function Elapsed(es: seq<Event>): (t: real)
    ensures 0.0 <= t
  {
    if es == [] then 0.0
    else Duration(es[0]) + Elapsed(es[1..])
  }

  // ------------------------------------------------------------- conservation

  /** Bytes that came for channel i, and bytes that grants moved out of it, over a run. */
  function Arrived(es: seq<Event>, i: nat): nat {
    if es == [] then 0
    else (if es[0].Arrival? && es[0].channel == i then es[0].bytes else 0) + Arrived(es[1..], i)
  }

  function Moved(cs: seq<Channel>, es: seq<Event>, i: nat): nat
    requires AllOk(cs) && i < |cs|
    decreases |es|
  {
    if es == [] then 0 else
    BucketsStayInRange(cs, es[0]);
    MovedBy(cs, es[0], i) + Moved(Apply(cs, es[0]), es[1..], i)
  }

  function MovedBy(cs: seq<Channel>, e: Event, i: nat): nat
    requires AllOk(cs) && i < |cs|
  {
    if e.Grant? then Min(Serve(cs, e.bytes).first[i], cs[i].queue) + Serve(cs, e.bytes).second[i] else 0
  }

  /** Over any run nothing queued is lost or made up: what was there and what came is what
      was moved and what is there. */
  lemma {:induction false} BytesAreConserved(cs: seq<Channel>, es: seq<Event>, i: nat)
    requires AllOk(cs) && i < |cs|
    ensures cs[i].queue + Arrived(es, i) == Moved(cs, es, i) + Run(cs, es)[i].queue
    decreases |es|
  {
    if es != [] {
      BucketsStayInRange(cs, es[0]);
      if es[0].Grant? { GrantCharges(cs, es[0].bytes, i); }
      BytesAreConserved(Apply(cs, es[0]), es[1..], i);
      assert Moved(cs, es, i) == MovedBy(cs, es[0], i) + Moved(Apply(cs, es[0]), es[1..], i);
      assert Run(cs, es) == Run(Apply(cs, es[0]), es[1..]);
    }
  }

  // --------------------------------------------------- the rate that is guaranteed

  /** The bucket of c after t without a grant, read off the start. */
  function LevelAfter(c: Channel, t: real): real {
    Least(c.Cap(), c.bj + Times(c.pbr, t))
  }

  predicate NoGrant(es: seq<Event>) {
    forall k :: 0 <= k < |es| ==> !es[k].Grant?
  }

  lemma FillAgain(cap: real, bj: real, x: real, y: real)
    requires 0.0 <= y
    ensures Least(cap, Least(cap, bj + x) + y) == Least(cap, bj + (x + y))
  {
  }

  lemma FillsExactly(c: Channel, dt: real)
    ensures Filled(c, dt) == c.(bj := Least(c.Cap(), c.bj + Times(c.pbr, dt)))
  {
  }

  lemma EventFills(c: Channel, cs: seq<Channel>, e: Event, i: nat)
    requires AllOk(cs) && i < |cs| && c == cs[i] && !e.Grant?
    ensures var r := Apply(cs, e)[i]; r.bj == LevelAfter(c, Duration(e)) && r.pbr == c.pbr && r.bsd == c.bsd
  {
    assert c.Ok();
    assert Times(c.pbr, 0.0) == 0.0;
    if e.Tick? { FillsExactly(c, e.dt); }
  }

  /** Between grants every bucket is exactly full to min(BSD * PBR, Bj + PBR * T), however
      the time T is cut into ticks. */
  lemma {:induction false} BucketsFillExactly(cs: seq<Channel>, es: seq<Event>, i: nat)
    requires AllOk(cs) && i < |cs| && NoGrant(es)
    ensures Run(cs, es)[i].bj == LevelAfter(cs[i], Elapsed(es))
    decreases |es|
  {
    assert cs[i].Ok();
    if es == [] {
      assert Times(cs[i].pbr, 0.0) == 0.0;
    } else {
      var next := Apply(cs, es[0]);
      BucketsStayInRange(cs, es[0]);
      EventFills(cs[i], cs, es[0], i);
      BucketsFillExactly(next, es[1..], i);
      NonNegTimes(cs[i].pbr, Elapsed(es[1..]));
      TimesAdds(cs[i].pbr, Duration(es[0]), Elapsed(es[1..]));
      FillAgain(cs[i].Cap(), cs[i].bj, Times(cs[i].pbr, Duration(es[0])), Times(cs[i].pbr, Elapsed(es[1..])));
      assert Run(cs, es) == Run(next, es[1..]);
    }
  }

  function LevelsAfter(cs: seq<Channel>, t: real): (r: seq<nat>)
    requires AllOk(cs) && 0.0 <= t
    ensures |r| == |cs|
  {
    seq(|cs|, i requires 0 <= i < |cs| => WholeLevel(cs[i], t))
  }

  function WholeLevel(c: Channel, t: real): nat
    requires c.Ok() && 0.0 <= t
  {
    NonNegTimes(c.pbr, t);
    LevelAfter(c, t).Floor
  }

  /** The prioritized rate is guaranteed: after any time T without a grant, a grant that
      covers the levels down to channel i gives it, in phase 1, the whole bytes of
      min(BSD * PBR, Bj + PBR * T). */
  lemma PrioritizedRateIsGuaranteed(cs: seq<Channel>, es: seq<Event>, i: nat, grant: nat)
    requires AllOk(cs) && i < |cs| && NoGrant(es)
    requires Sum(LevelsAfter(cs, Elapsed(es))[..i + 1]) <= grant
    ensures Phase1(Run(cs, es), grant)[i] == WholeLevel(cs[i], Elapsed(es))
  {
    var now := Run(cs, es);
    forall k | 0 <= k < |cs| ensures Levels(now)[k] == LevelsAfter(cs, Elapsed(es))[k] {
      BucketsFillExactly(cs, es, k);
    }
    assert Levels(now) == LevelsAfter(cs, Elapsed(es));
    BucketsAreHonoured(now, grant, i);
  }

  /** The example of the notes: rates 200 and 100, queues 1000 and 500, one second, a grant
      of 600: 200 and 100 in phase 1, the remaining 300 to the first channel. */
  lemma NotesExample(a: Channel, b: Channel)
    requires a == Channel(0.0, 200.0, 1.0, 1000) && b == Channel(0.0, 100.0, 1.0, 500)
    ensures AllOk([a, b])
    ensures var cs := Apply([a, b], Tick(1.0));
            && Stocked(cs)
            && Serve(cs, 600).first == [200, 100] && Serve(cs, 600).second == [300, 0]
            && Serve(cs, 600).leftover == 0
  {
    FillsExactly(a, 1.0);
    FillsExactly(b, 1.0);
    var cs := Apply([a, b], Tick(1.0));
    assert cs[0].bj == 200.0 && cs[1].bj == 100.0;
    assert Left1(cs, 600, 0) == 600;
    assert Given1(cs, 600, 0) == 200 && Left1(cs, 600, 1) == 400;
    assert Given1(cs, 600, 1) == 100 && Left1(cs, 600, 2) == 300;
    var mid := Midway(cs, 600);
    assert mid[0].queue == 800 && Left2(mid, 300, 0) == 300;
    assert Given2(mid, 300, 0) == 300 && Left2(mid, 300, 1) == 0;
    assert Given2(mid, 300, 1) == 0 && Left2(mid, 300, 2) == 0;
  }

  function Service(cs: seq<Channel>, e: Event, i: nat): nat
    requires AllOk(cs) && i < |cs|
  {
    if e.Grant? then Serve(cs, e.bytes).first[i] else 0
  }

  function Phase1Service(cs: seq<Channel>, es: seq<Event>, i: nat): nat
    requires AllOk(cs) && i < |cs|
    decreases |es|
  {
    if es == [] then 0 else
    BucketsStayInRange(cs, es[0]);
    Service(cs, es[0], i) + Phase1Service(Apply(cs, es[0]), es[1..], i)
  }

  function Run(cs: seq<Channel>, es: seq<Event>): (r: seq<Channel>)
    requires AllOk(cs)
    ensures AllOk(r) && |r| == |cs|
    decreases |es|
  {
    if es == [] then cs else
    BucketsStayInRange(cs, es[0]);
    Run(Apply(cs, es[0]), es[1..])
  }

  lemma StepCharges(cs: seq<Channel>, e: Event, i: nat)
    requires AllOk(cs) && i < |cs|
    ensures Service(cs, e, i) as real + Apply(cs, e)[i].bj <= cs[i].bj + Times(cs[i].pbr, Duration(e))
  {
    if e.Tick? && e.dt >= 0.0 { FilledIsOk(cs[i], e.dt); }
  }

  lemma {:induction false} ServiceWithinBucket(cs: seq<Channel>, es: seq<Event>, i: nat)
    requires AllOk(cs) && i < |cs|
    ensures Phase1Service(cs, es, i) as real + Run(cs, es)[i].bj <= cs[i].bj + Times(cs[i].pbr, Elapsed(es))
    decreases |es|
  {
    if es != [] {
      var next := Apply(cs, es[0]);
      BucketsStayInRange(cs, es[0]);
      StepCharges(cs, es[0], i);
      ServiceWithinBucket(next, es[1..], i);
      assert Phase1Service(cs, es, i) == Service(cs, es[0], i) + Phase1Service(next, es[1..], i);
      assert Run(cs, es) == Run(next, es[1..]);
      TimesAdds(cs[i].pbr, Duration(es[0]), Elapsed(es[1..]));
    }
  }

  /** Over any run of any length T, phase 1 gives a channel at most its saved-up
      bucket and its rate: BSD * PBR + PBR * T. */
  lemma PrioritizedRateIsCapped(cs: seq<Channel>, es: seq<Event>, i: nat)
    requires AllOk(cs) && i < |cs|
    ensures Phase1Service(cs, es, i) as real <= cs[i].Cap() + Times(cs[i].pbr, Elapsed(es))
  {
    ServiceWithinBucket(cs, es, i);
  }
}
