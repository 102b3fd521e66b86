/** RLC acknowledged mode: the two endpoints of the ARQ.

    Each endpoint is a class whose methods update its variables in place, and
    every method is specified by a function on the endpoint's abstract state.
    The functions are what module RlcProtocol runs against each other. */
module Rlc {
  import opened Option

  type Sdu = seq<bv8>

  datatype Pdu = Pdu(sn: nat, sdu: Sdu)

  /** ackSn is one past the highest SN received; nacks are the SNs below it that are missing. */
  datatype Status = Status(ackSn: nat, nacks: set<nat>)

  // ---------------------------------------------------------------- receiver

  /** delivered is the log of deliver_to_pdcp; timer is Some(target) while t-Reassembly runs. */
  datatype Receiver = Receiver(rxNext: nat, buffer: map<nat, Sdu>, delivered: seq<Sdu>, timer: Option<nat>)

  predicate Received(rx: Receiver, sn: nat) {
    sn < rx.rxNext || sn in rx.buffer
  }

  function DeliverInOrder(rx: Receiver): Receiver
    decreases rx.buffer.Keys
  {
    if rx.rxNext in rx.buffer then
      DeliverInOrder(rx.(rxNext := rx.rxNext + 1,
                         buffer := rx.buffer - {rx.rxNext},
                         delivered := rx.delivered + [rx.buffer[rx.rxNext]]))
    else rx
  }

  function OnPdu(rx: Receiver, pdu: Pdu): Receiver {
    if Received(rx, pdu.sn) then rx else
    var timer := if pdu.sn > rx.rxNext && rx.timer.None? then Some(pdu.sn) else rx.timer;
    var d := DeliverInOrder(rx.(buffer := rx.buffer[pdu.sn := pdu.sdu], timer := timer));
    if d.timer.Some? && d.rxNext > d.timer.value then d.(timer := None) else d
  }

  /** What delivery does, without the loop: after stops at the first missing SN,
      has handed up everything before it in SN order and keeps the rest. */
  ghost predicate DeliversUpToGap(rx: Receiver, after: Receiver) {
    && rx.rxNext <= after.rxNext && after.rxNext !in after.buffer && after.timer == rx.timer
    && (forall sn: nat :: rx.rxNext <= sn < after.rxNext ==> sn in rx.buffer)
    && after.buffer == (map sn: nat | sn in rx.buffer && !(rx.rxNext <= sn < after.rxNext) :: rx.buffer[sn])
    && after.delivered == rx.delivered + Consecutive(rx.buffer, rx.rxNext, after.rxNext)
  }

  /** The SDUs stored for SNs lo to hi - 1. */
  function Consecutive(buffer: map<nat, Sdu>, lo: nat, hi: nat): (r: seq<Sdu>)
    ensures |r| == if lo <= hi then hi - lo else 0
  {
    seq(if lo <= hi then hi - lo else 0, i requires 0 <= i => if lo + i in buffer then buffer[lo + i] else [])
  }

  lemma {:induction false} DeliverInOrderStops(rx: Receiver)
    ensures DeliversUpToGap(rx, DeliverInOrder(rx))
    decreases rx.buffer.Keys
  {
    if rx.rxNext in rx.buffer {
      var next := rx.(rxNext := rx.rxNext + 1,
                      buffer := rx.buffer - {rx.rxNext},
                      delivered := rx.delivered + [rx.buffer[rx.rxNext]]);
      DeliverInOrderStops(next);
      var d := DeliverInOrder(rx);
      assert Consecutive(rx.buffer, rx.rxNext, d.rxNext)
          == [rx.buffer[rx.rxNext]] + Consecutive(next.buffer, next.rxNext, d.rxNext);
    } else {
      assert Consecutive(rx.buffer, rx.rxNext, rx.rxNext) == [];
      assert rx.delivered + [] == rx.delivered;
    }
  }

  /** An SN is received afterwards exactly when it was before or just arrived. */
  lemma OnPduReceives(rx: Receiver, pdu: Pdu, sn: nat)
    ensures Received(OnPdu(rx, pdu), sn) <==> Received(rx, sn) || sn == pdu.sn
  {
    if !Received(rx, pdu.sn) {
      var timer := if pdu.sn > rx.rxNext && rx.timer.None? then Some(pdu.sn) else rx.timer;
      var stored := rx.(buffer := rx.buffer[pdu.sn := pdu.sdu], timer := timer);
      DeliverInOrderStops(stored);
      assert Received(DeliverInOrder(stored), sn) <==> Received(stored, sn);
    }
  }

  /** Reception, in every state: a PDU received before changes nothing; any other is stored
      and delivery goes on to the first missing SN. t-Reassembly runs afterwards exactly if
      it ran before, or the PDU was out of order, and its target is not passed yet; a
      running timer keeps its target. */
  lemma ReceptionIs(rx: Receiver, pdu: Pdu)
    ensures var r := OnPdu(rx, pdu);
            && (Received(rx, pdu.sn) ==> r == rx)
            && (!Received(rx, pdu.sn) ==>
                  var target := if rx.timer.Some? then rx.timer.value else pdu.sn;
                  && DeliversUpToGap(rx.(buffer := rx.buffer[pdu.sn := pdu.sdu]), r.(timer := rx.timer))
                  && (r.timer.Some? <==> (rx.timer.Some? || pdu.sn > rx.rxNext) && r.rxNext <= target)
                  && (r.timer.Some? ==> r.timer.value == target))
  {
    if !Received(rx, pdu.sn) {
      var timer := if pdu.sn > rx.rxNext && rx.timer.None? then Some(pdu.sn) else rx.timer;
      DeliverInOrderStops(rx.(buffer := rx.buffer[pdu.sn := pdu.sdu], timer := timer));
    }
  }

  ghost predicate IsReport(rx: Receiver, st: Status) {
    && rx.rxNext <= st.ackSn
    && (forall sn: nat :: sn in rx.buffer ==> sn < st.ackSn)
    && (st.ackSn == 0 || Received(rx, st.ackSn - 1))
    && (forall sn: nat :: sn in st.nacks <==> sn < st.ackSn && !Received(rx, sn))
  }

  /** The report is determined by the receiver: there is only one to send. */
  lemma ReportIsUnique(rx: Receiver, s1: Status, s2: Status)
    requires IsReport(rx, s1) && IsReport(rx, s2)
    ensures s1 == s2
  {
    assert s1.ackSn == s2.ackSn;
    assert s1.nacks == s2.nacks;
  }

  /** a is one past the highest SN received: rxNext, or past the highest of sns. */
  predicate IsAck(rxNext: nat, sns: set<nat>, a: nat) {
    rxNext <= a && (forall sn :: sn in sns ==> sn < a) && (a == rxNext || a - 1 in sns)
  }

  lemma {:induction false} AckExists(rxNext: nat, sns: set<nat>)
    ensures exists a: nat :: IsAck(rxNext, sns, a)
    decreases sns
  {
    if sn :| sn in sns && sn >= rxNext {
      AckExists(sn + 1, sns - {sn});
      var a: nat :| IsAck(sn + 1, sns - {sn}, a);
      assert IsAck(rxNext, sns, a) by {
        assert forall x :: x in sns ==> x == sn || x in sns - {sn};
      }
    } else {
      assert IsAck(rxNext, sns, rxNext);
    }
  }

  function AckSn(rxNext: nat, sns: set<nat>): (a: nat)
    ensures IsAck(rxNext, sns, a)
  {
    AckExists(rxNext, sns);
    var a: nat :| IsAck(rxNext, sns, a);
    a
  }

  function Report(rx: Receiver): (st: Status)
    ensures IsReport(rx, st)
  {
    var ack := AckSn(rx.rxNext, rx.buffer.Keys);
    Status(ack, set sn: nat | sn < ack && !Received(rx, sn))
  }

  class AmReceiver {
    var rxNext: nat
    var buffer: map<nat, Sdu>
    var reassemblyRunning: bool
    var reassemblyTarget: nat
    var delivered: seq<Sdu>

    ghost function State(): Receiver
      reads this
    {
      Receiver(rxNext, buffer, delivered, if reassemblyRunning then Some(reassemblyTarget) else None)
    }

    constructor ()
      ensures State() == Receiver(0, map[], [], None)
    {
      rxNext, buffer, delivered := 0, map[], [];
      reassemblyRunning, reassemblyTarget := false, 0;
    }

    method OnPduReceived(pdu: Pdu)
      modifies this
      ensures State() == OnPdu(old(State()), pdu)
    {
      if pdu.sn < rxNext || pdu.sn in buffer {
        return;
      }
      if pdu.sn > rxNext {
        if !reassemblyRunning {
          reassemblyRunning, reassemblyTarget := true, pdu.sn;
        }
      }
      buffer := buffer[pdu.sn := pdu.sdu];
      ghost var stored := State();
      DeliverConsecutive();
      DeliverInOrderStops(stored);
      if rxNext > reassemblyTarget {
        reassemblyRunning := false;
      }
    }

    method DeliverConsecutive()
      modifies this
      ensures State() == DeliverInOrder(old(State()))
    {
      while rxNext in buffer
        invariant DeliverInOrder(State()) == DeliverInOrder(old(State()))
        decreases buffer.Keys
      {
        delivered := delivered + [buffer[rxNext]];
        buffer := buffer - {rxNext};
        rxNext := rxNext + 1;
      }
    }

    /** STATUS: scan from RX_Next up to the highest SN received, listing the holes. */
    method BuildStatus() returns (st: Status)
      ensures st == Report(State())
    {
      var ack, remaining := rxNext, buffer.Keys;
      while remaining != {}
        invariant remaining <= buffer.Keys && rxNext <= ack
        invariant forall sn :: sn in buffer && sn !in remaining ==> sn < ack
        invariant ack == rxNext || ack - 1 in buffer
        decreases remaining
      {
        var sn :| sn in remaining;
        if sn >= ack {
          ack := sn + 1;
        }
        remaining := remaining - {sn};
      }
      var nacks: set<nat> := {};
      for sn := rxNext to ack
        invariant forall x :: x in nacks <==> rxNext <= x < sn && x !in buffer
      {
        if sn !in buffer {
          nacks := nacks + {sn};
        }
      }
      st := Status(ack, nacks);
      ReportIsUnique(State(), st, Report(State()));
    }

    method OnReassemblyExpiry() returns (st: Status)
      modifies this
      ensures State() == old(State()).(timer := None)
      ensures st == Report(State())
    {
      reassemblyRunning := false;
      st := BuildStatus();
    }
  }

  // ------------------------------------------------------------------ sender

  /** buffer holds the PDUs sent and not yet acknowledged; txNextAck is the lowest of them. */
  datatype Sender = Sender(txNext: nat, txNextAck: nat, window: nat, buffer: map<nat, Sdu>)

  predicate WindowOpen(tx: Sender) {
    tx.txNext < tx.txNextAck + tx.window
  }

  function Submit(tx: Sender, sdu: Sdu): Sender {
    if WindowOpen(tx) then tx.(txNext := tx.txNext + 1, buffer := tx.buffer[tx.txNext := sdu]) else tx
  }

  predicate Acks(st: Status, sn: nat) {
    sn < st.ackSn && sn !in st.nacks
  }

  /** The first SN from lo on that is still in the buffer, or hi. */
  function LowestUnacked(buffer: map<nat, Sdu>, lo: nat, hi: nat): (sn: nat)
    requires lo <= hi
    ensures lo <= sn <= hi && (sn == hi || sn in buffer)
    ensures forall x :: lo <= x < sn ==> x !in buffer
    decreases hi - lo
  {
    if lo < hi && lo !in buffer then LowestUnacked(buffer, lo + 1, hi) else lo
  }

  function OnStatus(tx: Sender, st: Status): Sender
    requires tx.txNextAck <= tx.txNext
  {
    var rest := map sn | sn in tx.buffer && !Acks(st, sn) :: tx.buffer[sn];
    tx.(buffer := rest, txNextAck := LowestUnacked(rest, tx.txNextAck, tx.txNext))
  }

  /** The PDUs a STATUS makes the sender transmit again. */
  function Retransmissions(tx: Sender, st: Status): set<Pdu> {
    set sn | sn in tx.buffer && sn in st.nacks :: Pdu(sn, tx.buffer[sn])
  }

  class AmSender {
    var txNext: nat
    var txNextAck: nat
    const window: nat
    var buffer: map<nat, Sdu>

    ghost function State(): Sender
      reads this
    {
      Sender(txNext, txNextAck, window, buffer)
    }

    ghost predicate Valid()
      reads this
    {
      txNextAck <= txNext && forall sn :: sn in buffer ==> txNextAck <= sn < txNext
    }

    constructor (window: nat)
      ensures Valid() && State() == Sender(0, 0, window, map[])
    {
      txNext, txNextAck, buffer := 0, 0, map[];
      this.window := window;
    }

    /** Returns the PDU put on the air, or None when the window is full. */
    method SendSdu(sdu: Sdu) returns (pdu: Option<Pdu>)
      requires Valid()
      modifies this
      ensures Valid() && State() == Submit(old(State()), sdu)
      ensures pdu == if WindowOpen(old(State())) then Some(Pdu(old(txNext), sdu)) else None
    {
      if txNext >= txNextAck + window {
        return None;
      }
      pdu := Some(Pdu(txNext, sdu));
      buffer := buffer[txNext := sdu];
      txNext := txNext + 1;
    }

    /** Removes what is acknowledged and sends again what is reported missing, lowest SN first. */
    method OnStatusReceived(st: Status) returns (again: seq<Pdu>)
      requires Valid()
      modifies this
      ensures Valid() && State() == OnStatus(old(State()), st)
      ensures forall p :: p in again <==> p.sn in st.nacks && p.sn in old(buffer) && p.sdu == old(buffer)[p.sn]
      ensures forall i, j :: 0 <= i < j < |again| ==> again[i].sn < again[j].sn
      ensures forall sn :: sn in buffer <==> sn in old(buffer) && (sn >= st.ackSn || sn in st.nacks)
      ensures forall sn :: sn in buffer ==> txNextAck <= sn && buffer[sn] == old(buffer)[sn]
      ensures txNextAck in buffer || txNextAck == txNext == old(txNext)
      ensures (set p | p in again) == Retransmissions(old(State()), st)
    {
      again := RetransmitNacked(st);
      ReleaseAcked(st);
      while txNextAck < txNext && txNextAck !in buffer
        invariant buffer == old(OnStatus(State(), st).buffer)
        invariant txNext == old(txNext) && txNextAck <= txNext
        invariant forall x :: x in buffer ==> txNextAck <= x < txNext
        invariant LowestUnacked(buffer, txNextAck, txNext) == LowestUnacked(buffer, old(txNextAck), txNext)
      {
        txNextAck := txNextAck + 1;
      }
    }

    method RetransmitNacked(st: Status) returns (again: seq<Pdu>)
      requires Valid()
      ensures forall p :: p in again <==> p.sn in st.nacks && p.sn in buffer && p.sdu == buffer[p.sn]
      ensures (set p | p in again) == Retransmissions(State(), st)
      ensures forall i, j :: 0 <= i < j < |again| ==> again[i].sn < again[j].sn
    {
      again := [];
      for sn := txNextAck to txNext
        invariant forall p :: p in again <==>
                    p.sn < sn && p.sn in st.nacks && p.sn in buffer && p.sdu == buffer[p.sn]
        invariant forall i, j :: 0 <= i < j < |again| ==> again[i].sn < again[j].sn
      {
        if sn in buffer && sn in st.nacks {
          again := again + [Pdu(sn, buffer[sn])];
        }
      }
    }

    method ReleaseAcked(st: Status)
      requires Valid()
      modifies this
      ensures forall sn :: sn in buffer <==> sn in old(buffer) && (sn >= st.ackSn || sn in st.nacks)
      ensures buffer == OnStatus(old(State()), st).buffer
      ensures txNext == old(txNext) && txNextAck == old(txNextAck)
    {
      for sn := txNextAck to txNext
        invariant txNext == old(txNext) && txNextAck == old(txNextAck)
        invariant buffer == map x | x in old(buffer) && !(x < sn && Acks(st, x)) :: old(buffer)[x]
      {
        if sn in buffer && sn < st.ackSn && sn !in st.nacks {
          buffer := buffer - {sn};
        }
      }
    }

    /** t-PollRetransmit expiry: the oldest unacknowledged PDU goes out again. */
    method RetransmitOldest() returns (pdu: Option<Pdu>)
      requires Valid()
      ensures pdu.Some? <==> txNextAck in buffer
      ensures pdu.Some? ==> pdu.value == Pdu(txNextAck, buffer[txNextAck])
                            && forall sn :: sn in buffer ==> pdu.value.sn <= sn
    {
      if txNextAck in buffer {
        pdu := Some(Pdu(txNextAck, buffer[txNextAck]));
      } else {
        pdu := None;
      }
    }
  }
}
