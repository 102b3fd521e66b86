/** PDCP end to end: a transmitter that may duplicate each PDU over two RLC
    paths, each of which may lose, duplicate and reorder, and the receiver of
    module Pdcp with its timer. Events that are not enabled change nothing. */
module PdcpRuns {
  import opened Pdcp

  datatype Net = Net(sent: seq<Sdu>, path1: set<Pdu>, path2: set<Pdu>, arrived: set<nat>, rx: Receiver)

  datatype Event =
    | Transmit(sdu: Sdu, duplicate: bool)
    | Arrives(pdu: Pdu)
    | Lost(pdu: Pdu, onPath1: bool)
    | Expiry

  const START := Net([], {}, {}, {}, INITIAL)

  /** TX_NEXT is |sent|; arrived records which COUNTs reached the receiver on either path. */
  function Apply(s: Net, e: Event): Net {
    match e
    case Transmit(sdu, duplicate) =>
      var pdu := Pdu(|s.sent|, sdu);
      s.(sent := s.sent + [sdu], path1 := s.path1 + {pdu},
         path2 := if duplicate then s.path2 + {pdu} else s.path2)
    case Arrives(pdu) =>
      if pdu in s.path1 || pdu in s.path2
      then s.(rx := OnPdu(s.rx, pdu), arrived := s.arrived + {pdu.count})
      else s
    case Lost(pdu, onPath1) =>
      if onPath1 then s.(path1 := s.path1 - {pdu}) else s.(path2 := s.path2 - {pdu})
    case Expiry =>
      if s.rx.running then s.(rx := OnExpiry(s.rx)) else s
  }

  function Run(s: Net, es: seq<Event>): Net
    decreases |es|
  {
    if es == [] then s else Run(Apply(s, es[0]), es[1..])
  }

  function Expiries(es: seq<Event>): nat {
    if es == [] then 0 else (if es[0].Expiry? then 1 else 0) + Expiries(es[1..])
  }

  // ------------------------------------------------------------- invariant

  ghost predicate Genuine(s: Net, p: Pdu) {
    p.count < |s.sent| && s.sent[p.count] == p.sdu
  }

  ghost predicate NetInv(s: Net) {
    && Inv(s.rx)
    && (forall p :: p in s.path1 || p in s.path2 ==> Genuine(s, p))
    && (forall p :: Holds(s.rx, p) ==> Genuine(s, p) && p.count in s.arrived)
    && (forall c: nat :: c in s.arrived ==> c < |s.sent| && (c < s.rx.deliv || Holds(s.rx, Pdu(c, s.sent[c]))))
  }

  lemma StepKeepsNetInv(s: Net, e: Event)
    requires NetInv(s)
    ensures NetInv(Apply(s, e))
  {
    var s' := Apply(s, e);
    match e
    case Transmit(sdu, duplicate) =>
      assert forall p :: Genuine(s, p) ==> Genuine(s', p);
      assert Genuine(s', Pdu(|s.sent|, sdu));
    case Arrives(pdu) =>
      if pdu in s.path1 || pdu in s.path2 {
        OnPduKeepsInv(s.rx, pdu);
        assert forall p :: Genuine(s', p) <==> Genuine(s, p);
        if pdu.count in s.rx.buffer {
          assert Holds(s.rx, Pdu(pdu.count, s.rx.buffer[pdu.count]));
        }
      }
    case Lost(pdu, onPath1) =>
      assert forall p :: Genuine(s', p) <==> Genuine(s, p);
    case Expiry =>
      if s.rx.running {
        OnExpiryKeepsInv(s.rx);
        assert forall p :: Genuine(s', p) <==> Genuine(s, p);
      }
  }

  lemma {:induction false} RunKeepsNetInv(s: Net, es: seq<Event>)
    requires NetInv(s)
    ensures NetInv(Run(s, es))
    decreases |es|
  {
    if es != [] {
      StepKeepsNetInv(s, es[0]);
      RunKeepsNetInv(Apply(s, es[0]), es[1..]);
    }
  }

  // -------------------------------------------------------------- theorems

  /** Whatever the paths and the timer do: no duplicate, no reordering, no alteration. */
  lemma DeliversOnceInOrder(es: seq<Event>)
    ensures var s := Run(START, es);
            && Increasing(s.rx.delivered)
            && (forall p :: p in s.rx.delivered ==> p.count < |s.sent| && p.sdu == s.sent[p.count])
  {
    RunKeepsNetInv(START, es);
    var s := Run(START, es);
    assert forall p :: p in s.rx.delivered ==> Holds(s.rx, p);
  }

  /** No stall: a COUNT that is held back always has the timer running behind it. */
  lemma HeldBackMeansTimerRuns(es: seq<Event>)
    ensures var rx := Run(START, es).rx;
            && (rx.deliv < rx.next <==> rx.buffer != map[])
            && (rx.buffer != map[] ==> rx.running)
  {
    RunKeepsNetInv(START, es);
    var rx := Run(START, es).rx;
    if c: nat :| c in rx.buffer {
      assert rx.deliv <= c < rx.next;
    }
  }

  /** Without an expiry the receiver has handed up exactly the COUNTs before the
      first one that never arrived on either path. */
  lemma NoExpiryDeliversGapFreePrefix(es: seq<Event>)
    requires Expiries(es) == 0
    ensures var s := Run(START, es);
            && s.rx.deliv <= |s.sent| && s.rx.deliv !in s.arrived
            && (forall c: nat :: c < s.rx.deliv ==> c in s.arrived)
            && s.rx.delivered == seq(s.rx.deliv, i requires 0 <= i < s.rx.deliv => Pdu(i, s.sent[i]))
  {
    RunKeepsNetInv(START, es);
    NoExpiryLeavesNoGap(START, es);
    var s := Run(START, es);
    assert s.rx.deliv <= |s.sent| by {
      if s.rx.deliv > 0 { assert s.rx.deliv - 1 in s.arrived; }
    }
    assert s.rx.deliv < |s.sent| ==> !Holds(s.rx, Pdu(s.rx.deliv, s.sent[s.rx.deliv]));
    DenseIsIdentity(s.rx.delivered, s.rx.deliv);
    assert forall i :: 0 <= i < s.rx.deliv ==> Holds(s.rx, s.rx.delivered[i]);
  }

  ghost predicate NoGap(s: Net) {
    |s.rx.delivered| == s.rx.deliv && forall c: nat :: c < s.rx.deliv ==> c in s.arrived
  }

  lemma {:induction false} NoExpiryLeavesNoGap(s: Net, es: seq<Event>)
    requires NetInv(s) && NoGap(s) && Expiries(es) == 0
    ensures NoGap(Run(s, es))
    decreases |es|
  {
    if es != [] {
      StepKeepsNetInv(s, es[0]);
      if es[0].Arrives? {
        ArrivalLeavesNoGap(s, es[0].pdu);
      }
      NoExpiryLeavesNoGap(Apply(s, es[0]), es[1..]);
    }
  }

  lemma ArrivalLeavesNoGap(s: Net, pdu: Pdu)
    requires NetInv(s) && NoGap(s)
    ensures NoGap(Apply(s, Arrives(pdu)))
  {
    if (pdu in s.path1 || pdu in s.path2) && !Discards(s.rx, pdu.count) {
      var stored := Store(s.rx, pdu);
      assert Ordered(stored);
      DeliverInOrderDelivers(stored);
      DeliveryCounts(stored);
      forall c: nat | c in stored.buffer ensures c in s.arrived + {pdu.count} {
        if c != pdu.count { assert Holds(s.rx, Pdu(c, s.rx.buffer[c])); }
      }
    }
  }

  lemma {:induction false} DeliveryCounts(rx: Receiver)
    ensures |DeliverInOrder(rx).delivered| - |rx.delivered| == DeliverInOrder(rx).deliv - rx.deliv
    decreases rx.buffer.Keys
  {
    if rx.deliv in rx.buffer {
      DeliveryCounts(Skip(rx));
    }
  }

  /** n strictly increasing COUNTs below n are 0, 1, ..., n-1. */
  lemma DenseIsIdentity(ps: seq<Pdu>, n: nat)
    requires Increasing(ps) && |ps| == n && forall p :: p in ps ==> p.count < n
    ensures forall i :: 0 <= i < n ==> ps[i].count == i
  {
    AtLeastIndex(ps, n);
    forall i | 0 <= i < n ensures ps[i].count <= i {
      AtMostIndex(ps, n, i);
    }
  }

  lemma {:induction false} AtLeastIndex(ps: seq<Pdu>, k: nat)
    requires Increasing(ps) && k <= |ps|
    ensures forall i :: 0 <= i < k ==> i <= ps[i].count
  {
    if k > 0 {
      AtLeastIndex(ps, k - 1);
      if k > 1 { assert ps[k - 2].count < ps[k - 1].count; }
    }
  }

  lemma {:induction false} AtMostIndex(ps: seq<Pdu>, n: nat, i: nat)
    requires Increasing(ps) && |ps| == n && i < n && forall p :: p in ps ==> p.count < n
    ensures ps[i].count <= i
    decreases n - i
  {
    assert ps[i] in ps;
    if i + 1 < n {
      AtMostIndex(ps, n, i + 1);
      assert ps[i].count < ps[i + 1].count;
    }
  }

  /** If every COUNT made it over at least one of the two paths before any
      expiry, everything sent has been delivered, once and in order. */
  lemma OnePathSuffices(es: seq<Event>)
    requires Expiries(es) == 0
    requires forall c: nat :: c < |Run(START, es).sent| ==> c in Run(START, es).arrived
    ensures var s := Run(START, es);
            s.rx.delivered == seq(|s.sent|, i requires 0 <= i < |s.sent| => Pdu(i, s.sent[i]))
  {
    NoExpiryDeliversGapFreePrefix(es);
    assert Run(START, es).rx.deliv == |Run(START, es).sent|;
  }

  // ------------------------------------------------------- what a timer is for

  /** An event after which t-Reordering has just been started. */
  predicate StartsTimer(s: Net, e: Event) {
    Apply(s, e).rx.running && (!s.rx.running || e.Expiry?)
  }

  /** RX_NEXT at the last moment of the run at which t-Reordering was started; start
      stands for a moment before the run. */
  function StartedAt(s: Net, es: seq<Event>, start: nat): nat
    decreases |es|
  {
    if es == [] then start else
    StartedAt(Apply(s, es[0]), es[1..], if StartsTimer(s, es[0]) then Apply(s, es[0]).rx.next else start)
  }

  lemma {:induction false} ReordIsStartedAt(s: Net, es: seq<Event>, start: nat)
    requires s.rx.running ==> s.rx.reord == start
    ensures Run(s, es).rx.running ==> Run(s, es).rx.reord == StartedAt(s, es, start)
    decreases |es|
  {
    if es != [] {
      match es[0] {
        case Arrives(pdu) => ReceptionIs(s.rx, pdu);
        case Expiry => ExpiryIs(s.rx);
        case _ =>
      }
      ReordIsStartedAt(Apply(s, es[0]), es[1..], if StartsTimer(s, es[0]) then Apply(s, es[0]).rx.next else start);
    }
  }

  /** In every run an expiry gives up on exactly the missing COUNTs below the RX_NEXT of the
      moment its timer was started: later gaps get a timer of their own. */
  lemma ExpiryGivesUpOnOldGaps(es: seq<Event>, c: nat)
    requires Run(START, es).rx.running
    ensures var s, s' := Run(START, es), Apply(Run(START, es), Expiry);
            s.rx.deliv <= c && c !in s.rx.buffer ==>
              (c < s'.rx.deliv <==> c < StartedAt(START, es, 0))
  {
    ReordIsStartedAt(START, es, 0);
    ExpiryIs(Run(START, es).rx);
  }

  // ------------------------------------------------------------- duplication

  /** Duplication is for this: after a duplicated transmission either path may lose the PDU
      and it still arrives; one that is not duplicated does not survive the loss. */
  lemma DuplicateSurvivesEitherLoss(es: seq<Event>, sdu: Sdu, duplicate: bool, onPath1: bool)
    ensures var s := Run(START, es);
            var pdu := Pdu(|s.sent|, sdu);
            var lossy := Apply(Apply(s, Transmit(sdu, duplicate)), Lost(pdu, onPath1));
            && lossy.sent == s.sent + [sdu]
            && (pdu in lossy.path1 || pdu in lossy.path2 <==> duplicate || !onPath1)
            && (pdu.count in Apply(lossy, Arrives(pdu)).arrived <==> duplicate || !onPath1)
  {
    RunKeepsNetInv(START, es);
    var s := Run(START, es);
    assert Pdu(|s.sent|, sdu) in s.path1 || Pdu(|s.sent|, sdu) in s.path2 ==> Genuine(s, Pdu(|s.sent|, sdu));
  }

  // ------------------------------------------------- bounded reordering delay

  /** How many expiries a stored PDU may still have to wait for. */
  ghost predicate WaitsAtMost(rx: Receiver, p: Pdu, k: nat) {
    p in rx.delivered || (Holds(rx, p) && (k >= 2 || (k == 1 && p.count < rx.reord)))
  }

  lemma StepKeepsWait(s: Net, e: Event, p: Pdu, k: nat)
    requires NetInv(s) && WaitsAtMost(s.rx, p, k)
    ensures WaitsAtMost(Apply(s, e).rx, p, if e.Expiry? && k > 0 then k - 1 else k)
  {
    var s' := Apply(s, e);
    StepKeepsNetInv(s, e);
    match e
    case Arrives(pdu) =>
      if pdu in s.path1 || pdu in s.path2 {
        OnPduKeepsInv(s.rx, pdu);
        ReceptionGrows(s.rx, pdu);
        if p !in s'.rx.delivered {
          assert p.count in s'.rx.buffer;
        }
      }
    case Expiry =>
      if s.rx.running {
        OnExpiryKeepsInv(s.rx);
        ExpiryGrows(s.rx);
        if p !in s'.rx.delivered {
          assert p.count in s'.rx.buffer;
          assert s.rx.reord <= p.count < s'.rx.next;
          assert s'.rx.reord == s'.rx.next;
        }
      } else {
        assert forall c: nat :: c in s.rx.buffer ==> s.rx.deliv <= c < s.rx.next;
      }
    case _ =>
  }

  lemma ReceptionGrows(rx: Receiver, pdu: Pdu)
    requires Inv(rx)
    ensures rx.delivered <= OnPdu(rx, pdu).delivered
    ensures var r := OnPdu(rx, pdu); r.reord == rx.reord || r.reord == r.next
  {
    if !Discards(rx, pdu.count) {
      assert Ordered(Store(rx, pdu));
      DeliverInOrderDelivers(Store(rx, pdu));
    }
  }

  lemma ExpiryGrows(rx: Receiver)
    requires Inv(rx)
    ensures rx.delivered <= OnExpiry(rx).delivered
    ensures OnExpiry(rx).deliv < rx.next ==> OnExpiry(rx).reord == rx.next == OnExpiry(rx).next
    ensures OnExpiry(rx).next == rx.next
  {
    FlushDelivers(rx, rx.reord);
    DeliverInOrderDelivers(Flush(rx, rx.reord));
  }

  lemma {:induction false} WaitRunsOut(s: Net, es: seq<Event>, p: Pdu, k: nat)
    requires NetInv(s) && WaitsAtMost(s.rx, p, k) && Expiries(es) >= k
    ensures p in Run(s, es).rx.delivered
    decreases |es|
  {
    if es != [] {
      StepKeepsNetInv(s, es[0]);
      StepKeepsWait(s, es[0], p, k);
      WaitRunsOut(Apply(s, es[0]), es[1..], p, if es[0].Expiry? && k > 0 then k - 1 else k);
    }
  }

  /** A PDU stored in any reachable state is delivered by the second expiry that
      follows, whatever else happens in between. */
  lemma DeliveredBySecondExpiry(es: seq<Event>, c: nat, more: seq<Event>)
    requires c in Run(START, es).rx.buffer
    requires Expiries(more) >= 2
    ensures Pdu(c, Run(START, es).rx.buffer[c]) in Run(Run(START, es), more).rx.delivered
  {
    RunKeepsNetInv(START, es);
    WaitRunsOut(Run(START, es), more, Pdu(c, Run(START, es).rx.buffer[c]), 2);
  }
}
