/** RLC AM end to end: one sender, one receiver and a channel in each direction
    that may lose, duplicate and reorder whatever was put on it.

    A PDU stays available on its channel until it is lost, so it can arrive any
    number of times, in any order and arbitrarily late: stale STATUS PDUs are
    ordinary. An event that is not enabled changes nothing, so the theorems
    range over every list of events. STATUS may be sent at any moment, which
    covers polls, t-Reassembly expiry and any use of t-StatusProhibit. */
module RlcProtocol {
  import opened Option
  import opened Rlc
  import opened FiniteSets

  datatype Net = Net(tx: Sender, rx: Receiver, submitted: seq<Sdu>, data: set<Pdu>, status: set<Status>)

  datatype Event =
    | SubmitSdu(sdu: Sdu)
    | PollRetransmitExpiry
    | DataArrives(pdu: Pdu)
    | DataLost(pdu: Pdu)
    | SendStatus
    | ReassemblyExpiry
    | StatusArrives(st: Status)
    | StatusLost(st: Status)

  function Init(window: nat): Net {
    Net(Sender(0, 0, window, map[]), Receiver(0, map[], [], None), [], {}, {})
  }

  function Apply(s: Net, e: Event): Net {
    match e
    case SubmitSdu(sdu) =>
      if WindowOpen(s.tx)
      then s.(tx := Submit(s.tx, sdu), submitted := s.submitted + [sdu], data := s.data + {Pdu(s.tx.txNext, sdu)})
      else s
    case PollRetransmitExpiry =>
      if s.tx.txNextAck in s.tx.buffer
      then s.(data := s.data + {Pdu(s.tx.txNextAck, s.tx.buffer[s.tx.txNextAck])})
      else s
    case DataArrives(pdu) =>
      if pdu in s.data then s.(rx := OnPdu(s.rx, pdu)) else s
    case DataLost(pdu) => s.(data := s.data - {pdu})
    case SendStatus => s.(status := s.status + {Report(s.rx)})
    case ReassemblyExpiry =>
      if s.rx.timer.Some?
      then s.(rx := s.rx.(timer := None), status := s.status + {Report(s.rx)})
      else s
    case StatusArrives(st) =>
      if st in s.status && s.tx.txNextAck <= s.tx.txNext
      then s.(tx := OnStatus(s.tx, st), data := s.data + Retransmissions(s.tx, st))
      else s
    case StatusLost(st) => s.(status := s.status - {st})
  }

  function Run(s: Net, es: seq<Event>): Net
    decreases |es|
  {
    if es == [] then s else Run(Apply(s, es[0]), es[1..])
  }

  lemma {:induction false} RunAppend(s: Net, a: seq<Event>, b: seq<Event>)
    ensures Run(s, a + b) == Run(Run(s, a), b)
    decreases |a|
  {
    if a == [] {
      assert a + b == b;
    } else {
      RunAppend(Apply(s, a[0]), a[1..], b);
      assert (a + b)[1..] == a[1..] + b;
    }
  }

  // ------------------------------------------------------------- invariant

  ghost predicate SentAsSubmitted(s: Net, sn: nat, sdu: Sdu) {
    sn < |s.submitted| && sdu == s.submitted[sn]
  }

  ghost predicate SenderOk(s: Net) {
    && |s.submitted| == s.tx.txNext
    && s.tx.txNextAck <= s.tx.txNext <= s.tx.txNextAck + s.tx.window
    && (forall sn: nat :: sn in s.tx.buffer ==> s.tx.txNextAck <= sn && SentAsSubmitted(s, sn, s.tx.buffer[sn]))
    && (s.tx.txNextAck in s.tx.buffer || s.tx.txNextAck == s.tx.txNext)
  }

  ghost predicate ReceiverOk(s: Net) {
    && s.rx.rxNext <= |s.submitted| && s.rx.rxNext !in s.rx.buffer
    && s.rx.delivered == s.submitted[..s.rx.rxNext]
    && (forall sn: nat :: sn in s.rx.buffer ==> s.rx.rxNext < sn && SentAsSubmitted(s, sn, s.rx.buffer[sn]))
    && (s.rx.timer.Some? ==> s.rx.timer.value in s.rx.buffer)
  }

  ghost predicate ChannelsOk(s: Net) {
    && (forall p :: p in s.data ==> SentAsSubmitted(s, p.sn, p.sdu))
    && (forall st, sn: nat :: st in s.status && Acks(st, sn) ==> Received(s.rx, sn))
  }

  /** The acknowledgement invariant: whatever the sender has let go of, the receiver has. */
  ghost predicate AckedAreReceived(s: Net) {
    forall sn: nat :: sn < s.tx.txNext && sn !in s.tx.buffer ==> Received(s.rx, sn)
  }

  ghost predicate Inv(s: Net) {
    SenderOk(s) && ReceiverOk(s) && ChannelsOk(s) && AckedAreReceived(s)
  }

  /** Delivery from a buffer of genuine SDUs extends a genuine prefix. */
  lemma DeliveryStaysGenuine(s: Net, stored: Receiver, d: Receiver)
    requires DeliversUpToGap(stored, d) && stored.rxNext <= |s.submitted|
    requires stored.delivered == s.submitted[..stored.rxNext]
    requires forall sn: nat :: sn in stored.buffer ==> stored.rxNext <= sn && SentAsSubmitted(s, sn, stored.buffer[sn])
    requires stored.timer.Some? ==> stored.timer.value in stored.buffer
    ensures d.rxNext <= |s.submitted| && d.delivered == s.submitted[..d.rxNext]
    ensures forall sn: nat :: sn in d.buffer ==> d.rxNext < sn && SentAsSubmitted(s, sn, d.buffer[sn])
    ensures d.timer.Some? ==> d.rxNext > d.timer.value || d.timer.value in d.buffer
  {
    assert |s.submitted| !in stored.buffer;
    var handed := Consecutive(stored.buffer, stored.rxNext, d.rxNext);
    forall i | 0 <= i < |handed| ensures handed[i] == s.submitted[stored.rxNext + i] {
      assert stored.rxNext + i in stored.buffer;
    }
    assert d.delivered == s.submitted[..stored.rxNext] + handed;
  }

  lemma DataArrivalKeepsInv(s: Net, pdu: Pdu)
    requires Inv(s) && pdu in s.data
    ensures Inv(s.(rx := OnPdu(s.rx, pdu)))
  {
    var rx := s.rx;
    if !Received(rx, pdu.sn) {
      var timer := if pdu.sn > rx.rxNext && rx.timer.None? then Some(pdu.sn) else rx.timer;
      var stored := rx.(buffer := rx.buffer[pdu.sn := pdu.sdu], timer := timer);
      DeliverInOrderStops(stored);
      DeliveryStaysGenuine(s, stored, DeliverInOrder(stored));
      var s' := s.(rx := OnPdu(rx, pdu));
      assert ReceiverOk(s') by {
        assert forall sn: nat, d :: SentAsSubmitted(s', sn, d) <==> SentAsSubmitted(s, sn, d);
      }
      forall sn: nat ensures Received(s'.rx, sn) <==> Received(rx, sn) || sn == pdu.sn {
        OnPduReceives(rx, pdu, sn);
      }
      assert ChannelsOk(s') && SenderOk(s');
    }
  }

  lemma StatusArrivalKeepsInv(s: Net, st: Status)
    requires Inv(s) && st in s.status
    ensures Inv(s.(tx := OnStatus(s.tx, st), data := s.data + Retransmissions(s.tx, st)))
  {
    var s' := s.(tx := OnStatus(s.tx, st), data := s.data + Retransmissions(s.tx, st));
    assert forall sn: nat :: sn in s'.tx.buffer ==> SentAsSubmitted(s', sn, s.tx.buffer[sn]);
    assert SenderOk(s');
    assert ReceiverOk(s');
    forall p | p in s'.data ensures SentAsSubmitted(s', p.sn, p.sdu) {
      if p !in s.data { assert p in Retransmissions(s.tx, st); assert SentAsSubmitted(s, p.sn, p.sdu); }
    }
    assert ChannelsOk(s');
  }

  lemma SubmissionKeepsInv(s: Net, sdu: Sdu)
    requires Inv(s) && WindowOpen(s.tx)
    ensures Inv(Apply(s, SubmitSdu(sdu)))
  {
    var s' := Apply(s, SubmitSdu(sdu));
    assert forall sn: nat, d :: SentAsSubmitted(s, sn, d) ==> SentAsSubmitted(s', sn, d);
    assert SentAsSubmitted(s', s.tx.txNext, sdu);
    assert s'.rx.delivered == s'.submitted[..s'.rx.rxNext];
  }

  /** Events that touch only the channels, or stop the timer. */
  lemma ChannelEventKeepsInv(s: Net, e: Event)
    requires Inv(s) && !e.SubmitSdu? && !e.DataArrives? && !e.StatusArrives?
    ensures Inv(Apply(s, e))
  {
    var s' := Apply(s, e);
    assert forall sn: nat, d :: SentAsSubmitted(s', sn, d) <==> SentAsSubmitted(s, sn, d);
    assert IsReport(s.rx, Report(s.rx));
    if e.PollRetransmitExpiry? && s.tx.txNextAck in s.tx.buffer {
      assert SentAsSubmitted(s, s.tx.txNextAck, s.tx.buffer[s.tx.txNextAck]);
    }
  }

  lemma StepKeepsInv(s: Net, e: Event)
    requires Inv(s)
    ensures Inv(Apply(s, e))
  {
    match e
    case SubmitSdu(sdu) =>
      if WindowOpen(s.tx) { SubmissionKeepsInv(s, sdu); }
    case DataArrives(pdu) =>
      if pdu in s.data { DataArrivalKeepsInv(s, pdu); }
    case StatusArrives(st) =>
      if st in s.status { StatusArrivalKeepsInv(s, st); }
    case _ => ChannelEventKeepsInv(s, e);
  }

  lemma {:induction false} RunKeepsInv(s: Net, es: seq<Event>)
    requires Inv(s)
    ensures Inv(Run(s, es))
    decreases |es|
  {
    if es != [] {
      StepKeepsInv(s, es[0]);
      RunKeepsInv(Apply(s, es[0]), es[1..]);
    }
  }

  // -------------------------------------------------------------- theorems

  /** In every run what PDCP got is a prefix of what the sender accepted. */
  lemma DeliveredIsPrefixOfSubmitted(window: nat, es: seq<Event>)
    ensures var s := Run(Init(window), es); s.rx.delivered <= s.submitted
  {
    RunKeepsInv(Init(window), es);
  }

  /** In every run: the window inequalities, no PDU released before the receiver
      has it, and an empty transmit buffer only when everything was delivered. */
  lemma AcknowledgementsAreSound(window: nat, es: seq<Event>)
    ensures var s := Run(Init(window), es);
            && s.tx.txNextAck <= s.rx.rxNext <= s.tx.txNext <= s.tx.txNextAck + window
            && (forall sn: nat :: sn < s.tx.txNext && sn !in s.tx.buffer ==> Received(s.rx, sn))
            && (s.tx.buffer == map[] ==> s.rx.delivered == s.submitted)
  {
    var s := Run(Init(window), es);
    RunKeepsInv(Init(window), es);
    WindowIsConstant(Init(window), es);
    AckNeverPassesReceiver(s);
  }

  lemma AckNeverPassesReceiver(s: Net)
    requires Inv(s)
    ensures s.tx.txNextAck <= s.rx.rxNext
    ensures s.tx.buffer == map[] ==> s.rx.delivered == s.submitted
  {
    assert s.rx.rxNext in s.tx.buffer || s.rx.rxNext >= s.tx.txNext || Received(s.rx, s.rx.rxNext);
  }

  lemma {:induction false} WindowIsConstant(s: Net, es: seq<Event>)
    ensures Run(s, es).tx.window == s.tx.window
    decreases |es|
  {
    if es != [] {
      WindowIsConstant(Apply(s, es[0]), es[1..]);
    }
  }

  /** The receiver never holds a PDU as far ahead as a window, so it needs less than a window of buffers. */
  lemma ReceiverBufferFitsWindow(window: nat, es: seq<Event>)
    ensures var s := Run(Init(window), es);
            forall sn: nat :: sn in s.rx.buffer ==> s.rx.rxNext < sn < s.rx.rxNext + window
  {
    AcknowledgementsAreSound(window, es);
    RunKeepsInv(Init(window), es);
  }

  /** t-Reassembly is never left running once the gap that started it has closed. */
  lemma ReassemblyTimerMeansGap(window: nat, es: seq<Event>)
    ensures var rx := Run(Init(window), es).rx;
            rx.timer.Some? ==> rx.rxNext < rx.timer.value && rx.rxNext in Report(rx).nacks
  {
    RunKeepsInv(Init(window), es);
    var rx := Run(Init(window), es).rx;
    assert IsReport(rx, Report(rx));
  }

  /** Reception starts t-Reassembly exactly for a new out-of-order PDU while it is not
      running, and stops it exactly when its target has been delivered. */
  lemma TimerFollowsGap(window: nat, es: seq<Event>, pdu: Pdu)
    ensures var rx := Run(Init(window), es).rx;
            var r := OnPdu(rx, pdu);
            && (rx.timer.Some? ==> r.timer == if r.rxNext > rx.timer.value then None else rx.timer)
            && (rx.timer.None? ==>
                  r.timer == if pdu.sn > rx.rxNext && !Received(rx, pdu.sn) then Some(pdu.sn) else None)
  {
    RunKeepsInv(Init(window), es);
    var rx := Run(Init(window), es).rx;
    var timer := if pdu.sn > rx.rxNext && rx.timer.None? then Some(pdu.sn) else rx.timer;
    DeliverInOrderStops(rx.(buffer := rx.buffer[pdu.sn := pdu.sdu], timer := timer));
  }

  /** One STATUS repairs everything below its ACK_SN: when the current report gets
      back, each SN below it that the receiver still misses is on the air again,
      with the SDU submitted under it. */
  lemma ReportedGapsAreSentAgain(window: nat, es: seq<Event>, sn: nat)
    ensures var s := Run(Init(window), es);
            var st := Report(s.rx);
            var s' := Apply(Apply(s, SendStatus), StatusArrives(st));
            sn < st.ackSn && !Received(s.rx, sn) ==>
              sn < |s.submitted| && Pdu(sn, s.submitted[sn]) in s'.data && sn in s'.tx.buffer
  {
    RunKeepsInv(Init(window), es);
    var s := Run(Init(window), es);
    var st := Report(s.rx);
    assert IsReport(s.rx, st);
    if sn < st.ackSn && !Received(s.rx, sn) {
      assert st.ackSn - 1 in s.rx.buffer || st.ackSn <= s.rx.rxNext;
      assert sn < s.tx.txNext && sn in s.tx.buffer;
      assert SentAsSubmitted(s, sn, s.tx.buffer[sn]);
      assert Pdu(sn, s.tx.buffer[sn]) in Retransmissions(s.tx, st);
    }
  }

  /** One STATUS round trip puts the sender in step with the receiver. From any state of
      the invariant, when the current report reaches the sender: it holds exactly the SNs the
      receiver misses, its window starts at RX_Next, and what is new on the channel is
      exactly the SNs missed below ACK_SN, each with its SDU, and nothing else. */
  lemma ReportSynchronises(s: Net, s': Net)
    requires Inv(s) && Report(s.rx) in s.status && s' == Apply(s, StatusArrives(Report(s.rx)))
    ensures forall sn: nat :: sn in s'.tx.buffer <==> sn < s.tx.txNext && !Received(s.rx, sn)
    ensures s'.tx.txNextAck == s.rx.rxNext && s'.tx.txNext == s.tx.txNext && s'.rx == s.rx
    ensures forall p :: p in s'.data <==>
              p in s.data || (p.sn < Report(s.rx).ackSn && !Received(s.rx, p.sn) && SentAsSubmitted(s, p.sn, p.sdu))
  {
    var st := Report(s.rx);
    assert IsReport(s.rx, st);
    StepKeepsInv(s, StatusArrives(st));
    assert st.ackSn - 1 in s.rx.buffer || st.ackSn <= s.rx.rxNext;
    forall sn: nat | sn < s.tx.txNext && !Received(s.rx, sn) ensures sn in s.tx.buffer { }
    assert !Received(s.rx, s.rx.rxNext) && s.rx.rxNext <= s.tx.txNext;
    assert s'.tx.txNextAck in s'.tx.buffer || s'.tx.txNextAck == s'.tx.txNext;
    assert s.rx.rxNext < s.tx.txNext ==> s.rx.rxNext in s'.tx.buffer;
    forall p: Pdu | p.sn < st.ackSn && !Received(s.rx, p.sn) && SentAsSubmitted(s, p.sn, p.sdu) ensures p in s'.data {
      assert SentAsSubmitted(s, p.sn, s.tx.buffer[p.sn]);
      assert p in Retransmissions(s.tx, st);
    }
    forall p | p in s'.data && p !in s.data
      ensures p.sn < st.ackSn && !Received(s.rx, p.sn) && SentAsSubmitted(s, p.sn, p.sdu)
    {
      assert p in Retransmissions(s.tx, st);
      assert SentAsSubmitted(s, p.sn, s.tx.buffer[p.sn]);
    }
  }

  /** So it is in every run, whether STATUS is sent on a poll or on expiry of t-Reassembly. */
  lemma StatusRoundTrip(window: nat, es: seq<Event>, onExpiry: bool)
    requires onExpiry ==> Run(Init(window), es).rx.timer.Some?
    ensures var s := Run(Init(window), es);
            var sent := Apply(s, if onExpiry then ReassemblyExpiry else SendStatus);
            var s' := Apply(sent, StatusArrives(Report(s.rx)));
            && (onExpiry ==> s'.rx.timer.None?)
            && s'.tx.txNextAck == s.rx.rxNext
            && (forall sn: nat :: sn in s'.tx.buffer <==> sn < s.tx.txNext && !Received(s.rx, sn))
            && (forall p :: p in s'.data <==>
                  p in s.data || (p.sn < Report(s.rx).ackSn && !Received(s.rx, p.sn) && SentAsSubmitted(s, p.sn, p.sdu)))
  {
    var s := Run(Init(window), es);
    RunKeepsInv(Init(window), es);
    var e := if onExpiry then ReassemblyExpiry else SendStatus;
    var sent := Apply(s, e);
    StepKeepsInv(s, e);
    ReportIgnoresTimer(s.rx);
    ReportSynchronises(sent, Apply(sent, StatusArrives(Report(s.rx))));
    assert forall sn: nat, d :: SentAsSubmitted(sent, sn, d) <==> SentAsSubmitted(s, sn, d);
    assert forall sn: nat :: Received(sent.rx, sn) <==> Received(s.rx, sn);
  }

  lemma ReportIgnoresTimer(rx: Receiver)
    ensures Report(rx.(timer := None)) == Report(rx)
  {
    var r := rx.(timer := None);
    assert IsReport(rx, Report(rx)) && IsReport(r, Report(r));
    assert forall sn: nat :: Received(r, sn) <==> Received(rx, sn);
    assert IsReport(rx, Report(r));
    ReportIsUnique(rx, Report(rx), Report(r));
  }

  // ----------------------------------------------------------- the whole window

  function Submissions(sdus: seq<Sdu>): seq<Event> {
    if sdus == [] then [] else [SubmitSdu(sdus[0])] + Submissions(sdus[1..])
  }

  /** How many more SNs fit before TX_Next_Ack + window. */
  function Room(tx: Sender): nat {
    if tx.txNextAck + tx.window <= tx.txNext then 0 else tx.txNextAck + tx.window - tx.txNext
  }

  function FirstOf(sdus: seq<Sdu>, room: nat): seq<Sdu> {
    if |sdus| <= room then sdus else sdus[..room]
  }

  lemma FirstOfCons(sdus: seq<Sdu>, room: nat, before: seq<Sdu>)
    requires sdus != []
    ensures room > 0 ==>
              before + FirstOf(sdus, room) == before + [sdus[0]] + FirstOf(sdus[1..], room - 1)
    ensures room == 0 ==> FirstOf(sdus, room) == FirstOf(sdus[1..], room)
  {
    if room > 0 { assert FirstOf(sdus, room) == [sdus[0]] + FirstOf(sdus[1..], room - 1); }
  }

  lemma SubmitOne(s: Net, sdu: Sdu)
    requires Inv(s)
    ensures var next := Apply(s, SubmitSdu(sdu));
            if Room(s.tx) > 0 then next.submitted == s.submitted + [sdu] && Room(next.tx) == Room(s.tx) - 1 else next == s
  {
  }

  lemma {:induction false} SubmitAll(s: Net, sdus: seq<Sdu>)
    requires Inv(s)
    ensures Run(s, Submissions(sdus)).submitted == s.submitted + FirstOf(sdus, Room(s.tx))
    decreases |sdus|
  {
    if sdus != [] {
      var es := Submissions(sdus);
      assert es[1..] == Submissions(sdus[1..]);
      StepKeepsInv(s, es[0]);
      SubmitOne(s, sdus[0]);
      SubmitAll(Apply(s, es[0]), sdus[1..]);
      FirstOfCons(sdus, Room(s.tx), s.submitted);
    }
  }

  lemma {:induction false} SubmissionsGoOut(s: Net, sdus: seq<Sdu>)
    requires Inv(s)
    ensures s.submitted <= Run(s, Submissions(sdus)).submitted
    ensures forall p :: p in Run(s, Submissions(sdus)).data <==>
              p in s.data || (p.sn >= s.tx.txNext && SentAsSubmitted(Run(s, Submissions(sdus)), p.sn, p.sdu))
    decreases |sdus|
  {
    if sdus != [] {
      var next := Apply(s, SubmitSdu(sdus[0]));
      assert Submissions(sdus)[1..] == Submissions(sdus[1..]);
      StepKeepsInv(s, SubmitSdu(sdus[0]));
      SubmissionsGoOut(next, sdus[1..]);
    }
  }

  /** The window is exactly as wide as it says: in every run the sender takes, of any
      further SDUs, as many as fit between TX_Next and TX_Next_Ack + window, in order and
      each on the air under the next SN, and no more until something is acknowledged. */
  lemma WholeWindowIsUsable(window: nat, es: seq<Event>, sdus: seq<Sdu>)
    ensures var s := Run(Init(window), es);
            var s' := Run(s, Submissions(sdus));
            && s.tx.txNext + Room(s.tx) == s.tx.txNextAck + window
            && s'.submitted == s.submitted + FirstOf(sdus, Room(s.tx))
            && (forall p :: p in s'.data <==> p in s.data || (p.sn >= s.tx.txNext && SentAsSubmitted(s', p.sn, p.sdu)))
  {
    RunKeepsInv(Init(window), es);
    WindowIsConstant(Init(window), es);
    SubmitAll(Run(Init(window), es), sdus);
    SubmissionsGoOut(Run(Init(window), es), sdus);
  }

  // ------------------------------------------------------------ no deadlock

  /** Four events that get the oldest outstanding PDU delivered and acknowledged. */
  function RecoverOldest(s: Net): seq<Event>
    requires s.tx.txNextAck in s.tx.buffer
  {
    var pdu := Pdu(s.tx.txNextAck, s.tx.buffer[s.tx.txNextAck]);
    [PollRetransmitExpiry, DataArrives(pdu), SendStatus, StatusArrives(Report(OnPdu(s.rx, pdu)))]
  }

  lemma RunOfFour(s: Net, a: Event, b: Event, c: Event, d: Event)
    ensures Run(s, [a, b, c, d]) == Apply(Apply(Apply(Apply(s, a), b), c), d)
  {
    RunOfTwo(s, a, b);
    RunOfTwo(Apply(Apply(s, a), b), c, d);
    RunAppend(s, [a, b], [c, d]);
    assert [a, b] + [c, d] == [a, b, c, d];
  }

  lemma RunOfTwo(s: Net, a: Event, b: Event)
    ensures Run(s, [a, b]) == Apply(Apply(s, a), b)
  {
    assert [a, b][1..] == [b] && [b][1..] == [];
    assert Run(Apply(s, a), [b]) == Run(Apply(Apply(s, a), b), []);
  }

  lemma RecoverOldestWorks(s: Net)
    requires Inv(s) && s.tx.txNextAck in s.tx.buffer
    ensures var s' := Run(s, RecoverOldest(s));
            && Inv(s') && s'.submitted == s.submitted
            && s'.tx.buffer.Keys < s.tx.buffer.Keys
  {
    var sn, es := s.tx.txNextAck, RecoverOldest(s);
    RunOfFour(s, es[0], es[1], es[2], es[3]);
    RunKeepsInv(s, es);
    var pdu := Pdu(sn, s.tx.buffer[sn]);
    var rx := OnPdu(s.rx, pdu);
    OnPduReceives(s.rx, pdu, sn);
    assert Acks(Report(rx), sn) by { assert IsReport(rx, Report(rx)); }
    assert sn !in OnStatus(s.tx, Report(rx)).buffer;
  }

  /** From every reachable state, without a new submission and within four
      events per outstanding PDU, everything accepted can still be delivered
      and acknowledged: neither loss nor a stale STATUS can wedge the protocol. */
  lemma {:induction false} CanAlwaysDrain(s: Net) returns (es: seq<Event>)
    requires Inv(s)
    ensures |es| <= 4 * |s.tx.buffer|
    ensures forall e :: e in es ==> !e.SubmitSdu?
    ensures Run(s, es).submitted == s.submitted
    ensures Run(s, es).tx.buffer == map[] && Run(s, es).rx.delivered == s.submitted
    decreases s.tx.buffer.Keys
  {
    if s.tx.txNextAck in s.tx.buffer {
      var first := RecoverOldest(s);
      var s' := Run(s, first);
      RecoverOldestWorks(s);
      var rest := CanAlwaysDrain(s');
      es := first + rest;
      RunAppend(s, first, rest);
      ProperSubsetSize(s'.tx.buffer.Keys, s.tx.buffer.Keys);
      assert |s'.tx.buffer.Keys| == |s'.tx.buffer| && |s.tx.buffer.Keys| == |s.tx.buffer|;
    } else {
      es := [];
      assert s.tx.buffer == map[];
      AckNeverPassesReceiver(s);
    }
  }

  lemma ReachableCanDrain(window: nat, es: seq<Event>) returns (more: seq<Event>)
    ensures var s := Run(Init(window), es + more);
            && s.submitted == Run(Init(window), es).submitted
            && s.rx.delivered == s.submitted
  {
    RunKeepsInv(Init(window), es);
    more := CanAlwaysDrain(Run(Init(window), es));
    RunAppend(Init(window), es, more);
  }
}
