/** on_pdu_received exactly as its listing has it: the window test is done on
    uint32_t and RX_NEXT is never advanced. Both points keep the handler from
    doing what it is for; these lemmas say when. */
module PdcpAsWritten {
  import opened Words
  import opened Pdcp

  /** sn < RX_DELIV - WINDOW_SIZE/2, with the subtraction modulo 2^32. */
  predicate OutOfWindow(sn: nat, deliv: nat, window: nat) {
    sn < (deliv - window / 2) % WORD32
  }

  function OnPduAsWritten(rx: Receiver, pdu: Pdu, window: nat): Receiver {
    if Discards(rx, pdu.count) || OutOfWindow(pdu.count, rx.deliv, window) then rx
    else StartTimer(DeliverInOrder(rx.(buffer := rx.buffer[pdu.count := pdu.sdu])))
  }

  function ReceiveAll(rx: Receiver, pdus: seq<Pdu>, window: nat): Receiver
    decreases |pdus|
  {
    if pdus == [] then rx else ReceiveAll(OnPduAsWritten(rx, pdus[0], window), pdus[1..], window)
  }

  /** The test means "below the window" exactly when the subtraction does not
      wrap, or the SN lies beyond the wrapped bound as well. */
  lemma WindowTestIsRightIff(sn: nat, deliv: nat, window: nat)
    requires sn < WORD32 && deliv < WORD32 && window < WORD32
    ensures (OutOfWindow(sn, deliv, window) <==> sn < deliv - window / 2)
       <==> (deliv >= window / 2 || sn >= WORD32 + deliv - window / 2)
  {
    if deliv < window / 2 {
      assert (deliv - window / 2) % WORD32 == WORD32 + deliv - window / 2;
    }
  }

  /** Nothing has been delivered, and nothing that is stored can be. */
  ghost predicate Idle(rx: Receiver, window: nat) {
    rx == INITIAL.(buffer := rx.buffer) && forall c: nat :: c in rx.buffer ==> c >= WORD32 - window / 2
  }

  lemma {:induction false} StaysIdle(rx: Receiver, pdus: seq<Pdu>, window: nat)
    requires 2 <= window < WORD32 && Idle(rx, window)
    requires forall p :: p in pdus ==> p.count < WORD32
    ensures Idle(ReceiveAll(rx, pdus, window), window)
    ensures (forall p :: p in pdus ==> p.count < WORD32 - window / 2) ==> ReceiveAll(rx, pdus, window) == rx
    decreases |pdus|
  {
    if pdus != [] {
      var p, next := pdus[0], OnPduAsWritten(rx, pdus[0], window);
      assert p in pdus;
      assert OutOfWindow(p.count, 0, window) <==> p.count < WORD32 - window / 2;
      assert Idle(next, window);
      StaysIdle(next, pdus[1..], window);
    }
  }

  /** The test wraps in the initial state, so a fresh receiver takes nothing: whatever
      arrives, RX_DELIV stays 0 and nothing is delivered, and the only SNs it even stores
      are those in the last half window below 2^32. */
  lemma FreshReceiverTakesNothing(pdus: seq<Pdu>, window: nat)
    requires 2 <= window < WORD32
    requires forall p :: p in pdus ==> p.count < WORD32
    ensures var r := ReceiveAll(INITIAL, pdus, window);
            && r.delivered == [] && r.deliv == 0 && !r.running
            && (forall c: nat :: c in r.buffer ==> c >= WORD32 - window / 2)
            && ((forall p :: p in pdus ==> p.count < WORD32 - window / 2) ==> r == INITIAL)
  {
    StaysIdle(INITIAL, pdus, window);
  }

  /** Past the wrap (RX_DELIV at least half a window) the receiver works, but RX_NEXT
      stays behind, so t-Reordering never starts. By FreshReceiverTakesNothing a fresh
      receiver never gets there: such a state has to be set up from outside. */
  ghost predicate Stuck(rx: Receiver, from: nat, arrived: set<nat>) {
    && Ordered(rx) && rx.next == 0 && !rx.running && from <= rx.deliv && rx.deliv !in rx.buffer
    && forall c: nat :: c in arrived <==> from <= c && (c < rx.deliv || c in rx.buffer)
  }

  function Counts(pdus: seq<Pdu>): set<nat> {
    set p | p in pdus :: p.count
  }

  ghost predicate InRange(rx: Receiver) {
    rx.deliv < WORD32 && forall c: nat :: c in rx.buffer ==> c < WORD32 - 1
  }

  lemma AsWrittenStep(rx: Receiver, p: Pdu, window: nat, from: nat, arrived: set<nat>)
    requires window / 2 <= from && Stuck(rx, from, arrived) && InRange(rx)
    requires from <= p.count < WORD32 - 1
    ensures var r := OnPduAsWritten(rx, p, window); Stuck(r, from, arrived + {p.count}) && InRange(r)
  {
    if Discards(rx, p.count) {
      assert arrived + {p.count} == arrived;
    } else {
      var stored := rx.(buffer := rx.buffer[p.count := p.sdu]);
      DeliverInOrderDelivers(stored);
      var d := DeliverInOrder(stored);
      forall c: nat ensures c in arrived + {p.count} <==> from <= c && (c < d.deliv || c in d.buffer) {
        if c in stored.buffer {
          assert Holds(stored, Pdu(c, stored.buffer[c]));
          assert Holds(d, Pdu(c, stored.buffer[c]));
        }
      }
      assert d.deliv > rx.deliv ==> d.deliv - 1 in stored.buffer;
    }
  }

  lemma {:induction false} AsWrittenRun(rx: Receiver, pdus: seq<Pdu>, window: nat, from: nat, arrived: set<nat>)
    requires window / 2 <= from && Stuck(rx, from, arrived) && InRange(rx)
    requires forall p :: p in pdus ==> from <= p.count < WORD32 - 1
    ensures Stuck(ReceiveAll(rx, pdus, window), from, arrived + Counts(pdus))
    decreases |pdus|
  {
    if pdus == [] {
      assert arrived + Counts(pdus) == arrived;
    } else {
      var p := pdus[0];
      AsWrittenStep(rx, p, window, from, arrived);
      AsWrittenRun(OnPduAsWritten(rx, p, window), pdus[1..], window, from, arrived + {p.count});
      assert pdus == [p] + pdus[1..];
      assert arrived + {p.count} + Counts(pdus[1..]) == arrived + Counts(pdus);
    }
  }

  /** A PDU that arrived is ever delivered if and only if every COUNT between
      the starting point and its own arrived too: one lost PDU stalls the bearer
      for good, with no timer running to force progress. */
  lemma OneLossStallsForever(start: Receiver, pdus: seq<Pdu>, window: nat, x: nat)
    requires start == INITIAL.(deliv := start.deliv) && window / 2 <= start.deliv < WORD32
    requires forall p :: p in pdus ==> start.deliv <= p.count < WORD32 - 1
    requires x in Counts(pdus)
    ensures var r := ReceiveAll(start, pdus, window);
            && !r.running
            && (x < r.deliv <==> forall c :: start.deliv <= c <= x ==> c in Counts(pdus))
            && (x >= r.deliv ==> x in r.buffer)
  {
    AsWrittenRun(start, pdus, window, start.deliv, {});
    assert {} + Counts(pdus) == Counts(pdus);
    var r := ReceiveAll(start, pdus, window);
    if x >= r.deliv {
      assert r.deliv !in Counts(pdus);
    }
  }
}
