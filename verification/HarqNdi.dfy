/** The New Data Indicator as an alternating bit: one HARQ process, a sender that
    toggles NDI per transport block, and a receiver that clears its soft buffer
    when NDI differs from the stored one and combines when it does not. */
module HarqNdi {
  /** One transmission as it ends up in the soft buffer. */
  datatype Transmission = Transmission(block: nat, rv: nat)

  /** block counts the transport blocks started; gap counts those started since the
      receiver last got anything. */
  datatype Link = Link(ndi: bool, rv: nat, block: nat, storedNdi: bool, soft: seq<Transmission>, gap: nat)

  const START := Link(false, 0, 0, false, [], 0)

  /** Each event is one transmission, of a new block or again, that arrives or is lost. */
  datatype Event = NewBlock(arrives: bool) | Again(arrives: bool)

  /** 0, 2, 3, 1 and round. */
  function NextRv(rv: nat): nat {
    match rv
    case 0 => 2
    case 2 => 3
    case 3 => 1
    case _ => 0
  }

  /** The sender's rule: toggle NDI and start with redundancy version 0, or keep NDI and go to the next. */
  function SenderRule(ndi: bool, rv: nat, newData: bool): (bool, nat) {
    if newData then (!ndi, 0) else (ndi, NextRv(rv))
  }

  /** The receiver's rule: a changed NDI replaces the soft buffer, an unchanged one adds to it. */
  function ReceiverRule(storedNdi: bool, soft: seq<Transmission>, ndi: bool, t: Transmission)
      : (bool, seq<Transmission>) {
    if ndi != storedNdi then (ndi, [t]) else (storedNdi, soft + [t])
  }

  function Sent(s: Link, newData: bool): Link {
    var (ndi, rv) := SenderRule(s.ndi, s.rv, newData);
    var started := if newData then 1 else 0;
    s.(ndi := ndi, rv := rv, block := s.block + started, gap := s.gap + started)
  }

  function Received(s: Link): Link {
    var (storedNdi, soft) := ReceiverRule(s.storedNdi, s.soft, s.ndi, Transmission(s.block, s.rv));
    s.(storedNdi := storedNdi, soft := soft, gap := 0)
  }

  /** A retransmission before any block was started sends nothing. */
  function Apply(s: Link, e: Event): Link {
    if e.Again? && s.block == 0 then s else
    var t := Sent(s, e.NewBlock?);
    if e.arrives then Received(t) else t
  }

  function Run(s: Link, es: seq<Event>): Link
    decreases |es|
  {
    if es == [] then s else Run(Apply(s, es[0]), es[1..])
  }

  predicate Unmixed(s: Link) {
    forall i, j :: 0 <= i < |s.soft| && 0 <= j < |s.soft| ==> s.soft[i].block == s.soft[j].block
  }

  /** No state along the run has a soft buffer with parts of two blocks. */
  predicate NeverMixes(s: Link, es: seq<Event>)
    decreases |es|
  {
    Unmixed(s) && (es == [] || NeverMixes(Apply(s, es[0]), es[1..]))
  }

  /** A new block is started only once the receiver has got something of the current one. */
  predicate Waits(s: Link, es: seq<Event>)
    decreases |es|
  {
    es == [] || ((es[0].NewBlock? ==> s.gap == 0) && Waits(Apply(s, es[0]), es[1..]))
  }

  /** The one thing that mixes blocks: an even, positive number of blocks started
      since the last arrival, so that NDI is back at its old value. */
  predicate HidesNewBlock(s: Link, e: Event) {
    var gap := if e.NewBlock? then s.gap + 1 else s.gap;
    e.arrives && !(e.Again? && s.block == 0) && s.soft != [] && gap > 0 && gap % 2 == 0
  }

  predicate NeverHides(s: Link, es: seq<Event>)
    decreases |es|
  {
    es == [] || (!HidesNewBlock(s, es[0]) && NeverHides(Apply(s, es[0]), es[1..]))
  }

  ghost predicate Inv(s: Link) {
    && (s.ndi == s.storedNdi <==> s.gap % 2 == 0)
    && s.gap <= s.block
    && (forall t :: t in s.soft ==> t.block <= s.block - s.gap)
    && (s.soft != [] ==> s.soft[|s.soft| - 1].block == s.block - s.gap)
  }

  lemma StepMixesIff(s: Link, e: Event)
    requires Inv(s) && Unmixed(s)
    ensures Inv(Apply(s, e))
    ensures Unmixed(Apply(s, e)) <==> !HidesNewBlock(s, e)
  {
    var s' := Apply(s, e);
    if e.arrives && !(e.Again? && s.block == 0) {
      var t := Sent(s, e.NewBlock?);
      assert t.ndi == t.storedNdi <==> t.gap % 2 == 0;
      if t.ndi == t.storedNdi && s.soft != [] {
        assert s'.soft == s.soft + [Transmission(t.block, t.rv)];
        var n := |s.soft|;
        assert s'.soft[n].block == s.soft[n - 1].block + t.gap && s'.soft[n - 1] == s.soft[n - 1];
        assert forall i :: 0 <= i < n ==> s'.soft[i] == s.soft[i];
      }
    }
  }

  /** Exactly when the soft buffer stays pure, over every lossy run. */
  lemma {:induction false} PureIff(s: Link, es: seq<Event>)
    requires Inv(s) && Unmixed(s)
    ensures NeverMixes(s, es) <==> NeverHides(s, es)
    decreases |es|
  {
    if es != [] {
      StepMixesIff(s, es[0]);
      if !HidesNewBlock(s, es[0]) {
        PureIff(Apply(s, es[0]), es[1..]);
      } else {
        assert !NeverMixes(Apply(s, es[0]), es[1..]);
      }
    }
  }

  lemma {:induction false} WaitingNeverHides(s: Link, es: seq<Event>)
    requires s.gap <= 1 && Waits(s, es)
    ensures NeverHides(s, es)
    decreases |es|
  {
    if es != [] {
      WaitingNeverHides(Apply(s, es[0]), es[1..]);
    }
  }

  /** With the sender waiting for each block to get through once, no lossy run with
      any retransmissions ever combines two blocks. */
  lemma WaitingSenderNeverMixes(es: seq<Event>)
    requires Waits(START, es)
    ensures NeverMixes(START, es)
  {
    WaitingNeverHides(START, es);
    PureIff(START, es);
  }

  /** Without waiting it can go wrong: after one block is lost whole, the next one
      carries the old bit and is combined with the block before. */
  lemma LostBlockHidesTheNext()
    ensures !NeverMixes(START, [NewBlock(true), NewBlock(false), NewBlock(true)])
  {
    var es := [NewBlock(true), NewBlock(false), NewBlock(true)];
    assert es[1..] == [NewBlock(false), NewBlock(true)];
    assert es[1..][1..] == [NewBlock(true)];
    var s2 := Apply(Apply(START, es[0]), es[1]);
    assert HidesNewBlock(s2, NewBlock(true));
    assert !NeverHides(s2, [NewBlock(true)]);
    assert !NeverHides(START, es);
    PureIff(START, es);
  }

  /** The order in which a block's redundancy versions go out. */
  const RV_ORDER := [0, 2, 3, 1]

  lemma NextRvFollowsOrder(k: nat)
    ensures NextRv(RV_ORDER[k % 4]) == RV_ORDER[(k + 1) % 4]
  {
    assert (k + 1) % 4 == if k % 4 == 3 then 0 else k % 4 + 1;
  }

  /** How often the current block has been sent again; k stands for before the run. */
  function Repeats(s: Link, es: seq<Event>, k: nat): nat
    decreases |es|
  {
    if es == [] then k else
    Repeats(Apply(s, es[0]), es[1..], if es[0].NewBlock? then 0 else if s.block == 0 then k else k + 1)
  }

  lemma {:induction false} RvCountsRepeats(s: Link, es: seq<Event>, k: nat)
    requires s.rv == RV_ORDER[k % 4]
    ensures Run(s, es).rv == RV_ORDER[Repeats(s, es, k) % 4]
    decreases |es|
  {
    if es != [] {
      NextRvFollowsOrder(k);
      RvCountsRepeats(Apply(s, es[0]), es[1..], if es[0].NewBlock? then 0 else if s.block == 0 then k else k + 1);
    }
  }

  /** In every run the k-th repetition of a block goes out with entry k mod 4 of the order,
      the block itself with 0, and that is what a transmission that arrives adds to the
      soft buffer. */
  lemma RvOnTheAir(es: seq<Event>, e: Event)
    requires e.arrives && (e.NewBlock? || Run(START, es).block > 0)
    ensures var k := if e.NewBlock? then 0 else Repeats(START, es, 0) + 1;
            var s := Apply(Run(START, es), e);
            s.rv == RV_ORDER[k % 4] && s.soft != [] && s.soft[|s.soft| - 1] == Transmission(s.block, RV_ORDER[k % 4])
  {
    RvCountsRepeats(START, es, 0);
    NextRvFollowsOrder(Repeats(START, es, 0));
  }

  /** Four transmissions in a row use every redundancy version once. */
  lemma RvCycle(rv: nat)
    requires rv < 4
    ensures {rv, NextRv(rv), NextRv(NextRv(rv)), NextRv(NextRv(NextRv(rv)))} == {0, 1, 2, 3}
    ensures NextRv(NextRv(NextRv(NextRv(rv)))) == rv
  {
    assert rv in {0, 1, 2, 3};
  }

  class NdiSender {
    var ndi: bool
    var rv: nat

    /** Returns the NDI and redundancy version that go on the air. */
    method Transmit(newData: bool) returns (sentNdi: bool, sentRv: nat)
      modifies this
      ensures (ndi, rv) == (sentNdi, sentRv) == SenderRule(old(ndi), old(rv), newData)
    {
      if newData {
        ndi, rv := !ndi, 0;
      } else {
        rv := NextRv(rv);
      }
      return ndi, rv;
    }
  }

  class NdiReceiver {
    var storedNdi: bool
    var soft: seq<Transmission>

    method OnTransmission(ndi: bool, t: Transmission)
      modifies this
      ensures (storedNdi, soft) == ReceiverRule(old(storedNdi), old(soft), ndi, t)
    {
      if ndi != storedNdi {
        soft := [t];
        storedNdi := ndi;
      } else {
        soft := soft + [t];
      }
    }
  }
}
