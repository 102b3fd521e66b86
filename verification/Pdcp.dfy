/** The PDCP receiving entity: duplicate discard, reordering and t-Reordering.

    COUNT values are unbounded. RX_NEXT is advanced on reception and COUNTs
    below RX_DELIV are discarded, as section 5.2.2.1 of TS 38.323 requires;
    module PdcpAsWritten is about the handler without those two rules. */
module Pdcp {
  type Sdu = seq<bv8>

  datatype Pdu = Pdu(count: nat, sdu: Sdu)

  /** delivered is the log of deliver_to_upper. */
  datatype Receiver = Receiver(next: nat, deliv: nat, reord: nat, running: bool,
                               buffer: map<nat, Sdu>, delivered: seq<Pdu>)

  const INITIAL := Receiver(0, 0, 0, false, map[], [])

  /** Hands up COUNT = deliv if it is there, and moves past it either way. */
  function Skip(rx: Receiver): (r: Receiver)
    ensures r.buffer.Keys == rx.buffer.Keys - {rx.deliv}
  {
    if rx.deliv in rx.buffer
    then rx.(deliv := rx.deliv + 1, buffer := rx.buffer - {rx.deliv},
             delivered := rx.delivered + [Pdu(rx.deliv, rx.buffer[rx.deliv])])
    else rx.(deliv := rx.deliv + 1)
  }

  /** Consecutive delivery: up to the first missing COUNT. */
  function DeliverInOrder(rx: Receiver): Receiver
    decreases rx.buffer.Keys
  {
    if rx.deliv in rx.buffer then DeliverInOrder(Skip(rx)) else rx
  }

  /** Forced delivery: everything stored below upto, gaps or not. */
  function Flush(rx: Receiver, upto: nat): Receiver
    decreases upto - rx.deliv
  {
    if rx.deliv < upto then Flush(Skip(rx), upto) else rx
  }

  function StartTimer(rx: Receiver): Receiver {
    if rx.deliv < rx.next && !rx.running then rx.(running := true, reord := rx.next) else rx
  }

  predicate Discards(rx: Receiver, count: nat) {
    count < rx.deliv || count in rx.buffer
  }

  function Store(rx: Receiver, pdu: Pdu): Receiver {
    rx.(buffer := rx.buffer[pdu.count := pdu.sdu],
        next := if rx.next <= pdu.count then pdu.count + 1 else rx.next)
  }

  function OnPdu(rx: Receiver, pdu: Pdu): Receiver {
    if Discards(rx, pdu.count) then rx else StartTimer(DeliverInOrder(Store(rx, pdu)))
  }

  function OnExpiry(rx: Receiver): Receiver {
    StartTimer(DeliverInOrder(Flush(rx, rx.reord)).(running := false))
  }

  // ------------------------------------------------- what delivery preserves

  ghost predicate Increasing(ps: seq<Pdu>) {
    forall i, j :: 0 <= i < j < |ps| ==> ps[i].count < ps[j].count
  }

  /** Every PDU handed up is below deliv, every PDU kept is at or above it. */
  ghost predicate Ordered(rx: Receiver) {
    && Increasing(rx.delivered)
    && (forall p :: p in rx.delivered ==> p.count < rx.deliv)
    && (forall c: nat :: c in rx.buffer ==> rx.deliv <= c)
  }

  predicate Holds(rx: Receiver, pdu: Pdu) {
    pdu in rx.delivered || (pdu.count in rx.buffer && rx.buffer[pdu.count] == pdu.sdu)
  }

  /** after comes from before by handing up stored PDUs in order: nothing the
      receiver held is dropped, altered or duplicated. */
  ghost predicate DeliversFrom(before: Receiver, after: Receiver) {
    && Ordered(after) && before.deliv <= after.deliv && before.delivered <= after.delivered
    && after.next == before.next && after.reord == before.reord && after.running == before.running
    && (forall p :: Holds(after, p) <==> Holds(before, p))
    && after.buffer.Keys <= before.buffer.Keys
  }

  lemma SkipDelivers(rx: Receiver)
    requires Ordered(rx)
    ensures DeliversFrom(rx, Skip(rx))
    ensures rx.deliv !in Skip(rx).buffer
  {
    var r := Skip(rx);
    forall p ensures Holds(r, p) <==> Holds(rx, p) {
      if rx.deliv in rx.buffer {
        assert p in r.delivered <==> p in rx.delivered || p == Pdu(rx.deliv, rx.buffer[rx.deliv]);
      }
    }
  }

  lemma {:induction false} DeliverInOrderDelivers(rx: Receiver)
    requires Ordered(rx)
    ensures DeliversFrom(rx, DeliverInOrder(rx))
    ensures DeliverInOrder(rx).deliv !in DeliverInOrder(rx).buffer
    ensures forall c :: rx.deliv <= c < DeliverInOrder(rx).deliv ==> c in rx.buffer
    decreases rx.buffer.Keys
  {
    if rx.deliv in rx.buffer {
      SkipDelivers(rx);
      DeliverInOrderDelivers(Skip(rx));
    }
  }

  lemma {:induction false} FlushDelivers(rx: Receiver, upto: nat)
    requires Ordered(rx)
    ensures DeliversFrom(rx, Flush(rx, upto))
    ensures Flush(rx, upto).deliv == if rx.deliv < upto then upto else rx.deliv
    decreases upto - rx.deliv
  {
    if rx.deliv < upto {
      SkipDelivers(rx);
      FlushDelivers(Skip(rx), upto);
    }
  }

  // ------------------------------------------------------------- invariant

  ghost predicate Inv(rx: Receiver) {
    && Ordered(rx)
    && rx.deliv !in rx.buffer
    && rx.deliv <= rx.next && rx.reord <= rx.next
    && (forall c: nat :: c in rx.buffer ==> c < rx.next)
    && (rx.deliv < rx.next ==> rx.running && rx.next - 1 in rx.buffer)
  }

  lemma OnPduKeepsInv(rx: Receiver, pdu: Pdu)
    requires Inv(rx)
    ensures Inv(OnPdu(rx, pdu))
    ensures OnPdu(rx, pdu).deliv >= rx.deliv
    ensures forall p :: Holds(OnPdu(rx, pdu), p) <==> Holds(rx, p) || (p == pdu && !Discards(rx, pdu.count))
  {
    if !Discards(rx, pdu.count) {
      var stored := Store(rx, pdu);
      forall p ensures Holds(stored, p) <==> Holds(rx, p) || p == pdu {
        if p in rx.delivered { assert p in stored.delivered; }
      }
      assert Ordered(stored);
      DeliverInOrderDelivers(stored);
      var d := DeliverInOrder(stored);
      KeepsTop(stored, d);
      assert d.deliv <= d.next by {
        assert d.next !in stored.buffer;
      }
      assert forall p :: Holds(StartTimer(d), p) <==> Holds(d, p);
    }
  }

  /** An expiry gives up on missing COUNTs below RX_REORD, and on none from there on. */
  lemma OnExpiryKeepsInv(rx: Receiver)
    requires Inv(rx)
    ensures Inv(OnExpiry(rx))
    ensures OnExpiry(rx).deliv >= rx.deliv && OnExpiry(rx).deliv >= rx.reord
    ensures forall c :: rx.deliv <= c < OnExpiry(rx).deliv && rx.reord <= c ==> c in rx.buffer
    ensures forall p :: Holds(OnExpiry(rx), p) <==> Holds(rx, p)
  {
    FlushDelivers(rx, rx.reord);
    var f := Flush(rx, rx.reord);
    DeliverInOrderDelivers(f);
    var d := DeliverInOrder(f);
    KeepsTop(rx, d);
    assert d.deliv <= d.next by {
      assert d.next !in f.buffer;
    }
    assert forall p :: Holds(OnExpiry(rx), p) <==> Holds(d, p);
    assert forall c :: f.deliv <= c < d.deliv ==> c in f.buffer;
  }

  /** The highest COUNT seen is kept until it is delivered. */
  lemma KeepsTop(before: Receiver, after: Receiver)
    requires forall p :: Holds(after, p) <==> Holds(before, p)
    requires Ordered(before) && Ordered(after) && before.next == after.next
    requires after.deliv < after.next ==> before.next - 1 in before.buffer
    ensures after.deliv < after.next ==> after.next - 1 in after.buffer
  {
    if after.deliv < after.next {
      var top := Pdu(before.next - 1, before.buffer[before.next - 1]);
      assert Holds(before, top);
      assert Holds(after, top);
    }
  }

  // --------------------------------------------- the handlers, without a loop

  /** The PDUs stored for COUNTs lo to hi - 1, in order. */
  ghost function Stored(buffer: map<nat, Sdu>, lo: nat, hi: nat): (r: seq<Pdu>)
    decreases hi - lo
  {
    if lo >= hi then []
    else (if lo in buffer then [Pdu(lo, buffer[lo])] else []) + Stored(buffer, lo + 1, hi)
  }

  /** after hands up exactly what before has stored below some COUNT, and keeps the rest. */
  ghost predicate HandsUpBelow(before: Receiver, after: Receiver) {
    && before.deliv <= after.deliv
    && after.delivered == before.delivered + Stored(before.buffer, before.deliv, after.deliv)
    && after.buffer == (map c: nat | c in before.buffer && !(before.deliv <= c < after.deliv) :: before.buffer[c])
    && after.next == before.next && after.reord == before.reord && after.running == before.running
  }

  lemma StoredOutside(b1: map<nat, Sdu>, b2: map<nat, Sdu>, lo: nat, hi: nat)
    requires forall c: nat :: lo <= c < hi ==> (c in b1 <==> c in b2) && (c in b1 ==> b1[c] == b2[c])
    ensures Stored(b1, lo, hi) == Stored(b2, lo, hi)
    decreases hi - lo
  {
    if lo < hi { StoredOutside(b1, b2, lo + 1, hi); }
  }

  lemma SkipThenHandsUp(rx: Receiver, after: Receiver)
    requires HandsUpBelow(Skip(rx), after)
    ensures HandsUpBelow(rx, after)
  {
    var s := Skip(rx);
    StoredOutside(rx.buffer, s.buffer, rx.deliv + 1, after.deliv);
    var first := if rx.deliv in rx.buffer then [Pdu(rx.deliv, rx.buffer[rx.deliv])] else [];
    assert s.delivered == rx.delivered + first;
    assert after.delivered == rx.delivered + (first + Stored(s.buffer, rx.deliv + 1, after.deliv));
  }

  lemma NothingHandedUp(rx: Receiver)
    ensures HandsUpBelow(rx, rx)
  {
    assert rx.delivered + [] == rx.delivered;
  }

  lemma {:induction false} DeliverInOrderIs(rx: Receiver)
    ensures var d := DeliverInOrder(rx);
            && HandsUpBelow(rx, d) && d.deliv !in rx.buffer
            && forall c :: rx.deliv <= c < d.deliv ==> c in rx.buffer
    decreases rx.buffer.Keys
  {
    if rx.deliv in rx.buffer {
      DeliverInOrderIs(Skip(rx));
      SkipThenHandsUp(rx, DeliverInOrder(rx));
    } else {
      NothingHandedUp(rx);
    }
  }

  lemma {:induction false} FlushIs(rx: Receiver, upto: nat)
    ensures HandsUpBelow(rx, Flush(rx, upto))
    ensures Flush(rx, upto).deliv == if rx.deliv < upto then upto else rx.deliv
    decreases upto - rx.deliv
  {
    if rx.deliv < upto {
      FlushIs(Skip(rx), upto);
      SkipThenHandsUp(rx, Flush(rx, upto));
    } else {
      NothingHandedUp(rx);
    }
  }

  /** Reception, in every state: a discarded PDU changes nothing; any other is stored and
      delivery goes on to the first missing COUNT. A running timer is left alone, with its
      RX_REORD; one that is not running starts exactly if something is still held back,
      with RX_REORD the COUNT after the highest seen. */
  lemma ReceptionIs(rx: Receiver, pdu: Pdu)
    ensures var r := OnPdu(rx, pdu);
            && (rx.running ==> r.running && r.reord == rx.reord)
            && ((pdu.count < rx.deliv || pdu.count in rx.buffer) ==> r == rx)
            && (pdu.count >= rx.deliv && pdu.count !in rx.buffer ==>
                  var stored := rx.buffer[pdu.count := pdu.sdu];
                  && r.next == (if pdu.count + 1 > rx.next then pdu.count + 1 else rx.next)
                  && r.deliv !in stored && rx.deliv <= r.deliv
                  && (forall c :: rx.deliv <= c < r.deliv ==> c in stored)
                  && r.delivered == rx.delivered + Stored(stored, rx.deliv, r.deliv)
                  && r.buffer == (map c: nat | c in stored && !(rx.deliv <= c < r.deliv) :: stored[c])
                  && (!rx.running ==> (r.running <==> r.deliv < r.next))
                  && (!rx.running ==> r.reord == if r.running then r.next else rx.reord))
  {
    DeliverInOrderIs(Store(rx, pdu));
  }

  /** Expiry, in every state: everything stored below RX_REORD is handed up, then everything
      to the first missing COUNT; the timer runs on exactly if something is still held
      back, with a new RX_REORD. */
  lemma ExpiryIs(rx: Receiver)
    ensures var r := OnExpiry(rx);
            && rx.reord <= r.deliv && rx.deliv <= r.deliv && r.deliv !in rx.buffer
            && (forall c :: rx.deliv <= c < r.deliv && rx.reord <= c ==> c in rx.buffer)
            && r.delivered == rx.delivered + Stored(rx.buffer, rx.deliv, r.deliv)
            && r.buffer == (map c: nat | c in rx.buffer && !(rx.deliv <= c < r.deliv) :: rx.buffer[c])
            && r.next == rx.next && (r.running <==> r.deliv < r.next)
            && r.reord == if r.running then r.next else rx.reord
  {
    var f := Flush(rx, rx.reord);
    FlushIs(rx, rx.reord);
    DeliverInOrderIs(f);
    var d := DeliverInOrder(f);
    StoredSplit(rx.buffer, f.buffer, rx.deliv, f.deliv, d.deliv);
    assert rx.delivered + Stored(rx.buffer, rx.deliv, f.deliv) + Stored(f.buffer, f.deliv, d.deliv)
        == rx.delivered + (Stored(rx.buffer, rx.deliv, f.deliv) + Stored(f.buffer, f.deliv, d.deliv));
  }

  lemma {:induction false} StoredSplit(b1: map<nat, Sdu>, b2: map<nat, Sdu>, lo: nat, mid: nat, hi: nat)
    requires lo <= mid <= hi
    requires forall c: nat :: mid <= c < hi ==> (c in b1 <==> c in b2) && (c in b1 ==> b1[c] == b2[c])
    ensures Stored(b1, lo, mid) + Stored(b2, mid, hi) == Stored(b1, lo, hi)
    decreases mid - lo
  {
    if lo < mid {
      StoredSplit(b1, b2, lo + 1, mid, hi);
    } else {
      StoredOutside(b1, b2, mid, hi);
      assert [] + Stored(b2, mid, hi) == Stored(b2, mid, hi);
    }
  }

  // ------------------------------------------------------------- the entity

  class PdcpReceiver {
    var rxNext: nat
    var rxDeliv: nat
    var rxReord: nat
    var tReorderingRunning: bool
    var buffer: map<nat, Sdu>
    var delivered: seq<Pdu>

    ghost function State(): Receiver
      reads this
    {
      Receiver(rxNext, rxDeliv, rxReord, tReorderingRunning, buffer, delivered)
    }

    constructor ()
      ensures State() == INITIAL
    {
      rxNext, rxDeliv, rxReord, tReorderingRunning, buffer, delivered := 0, 0, 0, false, map[], [];
    }

    method DeliverConsecutive()
      modifies this
      ensures State() == DeliverInOrder(old(State()))
      ensures (rxNext, rxReord, tReorderingRunning) == old((rxNext, rxReord, tReorderingRunning))
    {
      while rxDeliv in buffer
        invariant DeliverInOrder(State()) == DeliverInOrder(old(State()))
        invariant (rxNext, rxReord, tReorderingRunning) == old((rxNext, rxReord, tReorderingRunning))
        decreases buffer.Keys
      {
        delivered := delivered + [Pdu(rxDeliv, buffer[rxDeliv])];
        buffer := buffer - {rxDeliv};
        rxDeliv := rxDeliv + 1;
      }
    }

    method OnPduReceived(pdu: Pdu)
      modifies this
      ensures State() == OnPdu(old(State()), pdu)
      ensures old(tReorderingRunning) ==> tReorderingRunning && rxReord == old(rxReord)
      ensures !old(tReorderingRunning) && tReorderingRunning ==> rxDeliv < rxNext == rxReord
    {
      if pdu.count < rxDeliv || pdu.count in buffer {
        return;
      }
      buffer := buffer[pdu.count := pdu.sdu];
      if rxNext <= pdu.count {
        rxNext := pdu.count + 1;
      }
      DeliverConsecutive();
      if rxDeliv < rxNext {
        if !tReorderingRunning {
          tReorderingRunning, rxReord := true, rxNext;
        }
      }
    }

    method OnReorderingExpiry()
      modifies this
      ensures State() == OnExpiry(old(State()))
    {
      while rxDeliv < rxReord
        invariant rxReord == old(rxReord)
        invariant Flush(State(), rxReord) == Flush(old(State()), rxReord)
        decreases rxReord - rxDeliv
      {
        if rxDeliv in buffer {
          delivered := delivered + [Pdu(rxDeliv, buffer[rxDeliv])];
          buffer := buffer - {rxDeliv};
        }
        rxDeliv := rxDeliv + 1;
      }
      DeliverConsecutive();
      tReorderingRunning := false;
      if rxDeliv < rxNext {
        tReorderingRunning, rxReord := true, rxNext;
      }
    }
  }
}
