/** Random access: the retry state machine of one UE, and contention between UEs
    that were given the same temporary identity.

    The states the listing elides follow the handlers for Msg3 failure, contention
    timer and Msg4 in the RACH notes; every failure goes through the one shared
    retry counter. */
module Rach {
  import opened Option

  datatype State = Init | PreambleTx | WaitRar | Msg3Tx | WaitMsg4 | Success | Failed

  /** Msg4 carries the temporary identity it is addressed with and the contention identity. */
  datatype Event =
    | TriggerRach
    | RarReceived(tcRnti: nat)
    | TimerExpired
    | Msg3Done(acked: bool)
    | Msg4Received(tcRnti: nat, crId: nat)
    | Other

  /** preambles counts what send_preamble was called for. */
  datatype Machine = Machine(state: State, retries: nat, maxRetries: nat, preambles: nat,
                             crId: nat, tcRnti: nat, cRnti: Option<nat>)

  function Fresh(maxRetries: nat, crId: nat): Machine {
    Machine(Init, 0, maxRetries, 0, crId, 0, None)
  }

  /** ++retry_count > max_retries: give up, or start over with another preamble. */
  function Retry(m: Machine): Machine {
    if m.retries + 1 > m.maxRetries then m.(retries := m.retries + 1, state := Failed)
    else m.(retries := m.retries + 1, preambles := m.preambles + 1, state := PreambleTx)
  }

  function Apply(m: Machine, e: Event): Machine {
    match m.state
    case Init => if e.TriggerRach? then m.(preambles := m.preambles + 1, state := PreambleTx) else m
    case PreambleTx => m.(state := WaitRar)
    case WaitRar =>
      if e.RarReceived? then m.(tcRnti := e.tcRnti, state := Msg3Tx)
      else if e.TimerExpired? then Retry(m)
      else m
    case Msg3Tx =>
      if e.Msg3Done? then (if e.acked then m.(state := WaitMsg4) else Retry(m)) else m
    case WaitMsg4 =>
      if e.Msg4Received? && e.tcRnti == m.tcRnti then
        if e.crId == m.crId then m.(cRnti := Some(m.tcRnti), state := Success) else Retry(m)
      else if e.TimerExpired? then Retry(m)
      else m
    case _ => m
  }

  function Run(m: Machine, es: seq<Event>): Machine
    decreases |es|
  {
    if es == [] then m else Run(Apply(m, es[0]), es[1..])
  }

  /** How many of the events changed the state. */
  function Changes(m: Machine, es: seq<Event>): nat
    decreases |es|
  {
    if es == [] then 0
    else (if Apply(m, es[0]).state != m.state then 1 else 0) + Changes(Apply(m, es[0]), es[1..])
  }

  class RachStateMachine {
    var currentState: State
    var retryCount: nat
    const maxRetries: nat
    var preambles: nat
    const crId: nat
    var tcRnti: nat
    var cRnti: Option<nat>

    ghost function Model(): Machine
      reads this
    {
      Machine(currentState, retryCount, maxRetries, preambles, crId, tcRnti, cRnti)
    }

    /** The listing has max_retries = 10. */
    constructor (maxRetries: nat, crId: nat)
      ensures Model() == Fresh(maxRetries, crId)
    {
      currentState, retryCount, preambles, tcRnti, cRnti := Init, 0, 0, 0, None;
      this.maxRetries, this.crId := maxRetries, crId;
    }

    method SendPreamble()
      modifies this
      ensures Model() == old(Model()).(preambles := old(preambles) + 1, state := PreambleTx)
    {
      preambles := preambles + 1;
      currentState := PreambleTx;
    }

    method RetryOrFail()
      modifies this
      ensures Model() == Retry(old(Model()))
    {
      retryCount := retryCount + 1;
      if retryCount > maxRetries {
        currentState := Failed;
      } else {
        SendPreamble();
      }
    }

    method ProcessEvent(event: Event)
      modifies this
      ensures Model() == Apply(old(Model()), event)
      ensures Fails(old(Model()), event) ==>
                && retryCount == old(retryCount) + 1
                && if retryCount > maxRetries then currentState == Failed && preambles == old(preambles)
                   else currentState == PreambleTx && preambles == old(preambles) + 1
      ensures !Fails(old(Model()), event) && !Advances(old(Model()), event) ==> Model() == old(Model())
    {
      match currentState {
        case Init =>
          if event.TriggerRach? { SendPreamble(); }
        case PreambleTx =>
          currentState := WaitRar;
        case WaitRar =>
          if event.RarReceived? {
            tcRnti := event.tcRnti;
            currentState := Msg3Tx;
          } else if event.TimerExpired? {
            RetryOrFail();
          }
        case Msg3Tx =>
          if event.Msg3Done? {
            if event.acked { currentState := WaitMsg4; } else { RetryOrFail(); }
          }
        case WaitMsg4 =>
          if event.Msg4Received? && event.tcRnti == tcRnti {
            if event.crId == crId {
              cRnti := Some(tcRnti);
              currentState := Success;
            } else {
              RetryOrFail();
            }
          } else if event.TimerExpired? {
            RetryOrFail();
          }
        case Success =>
        case Failed =>
      }
    }
  }

  /** msg3_transmit: send until acknowledged, but stop after maxAttempts sendings; the
      test comes after the first one, so one is always made. */
  method Msg3Transmit(acked: nat -> bool, maxAttempts: int) returns (sent: nat, failed: bool)
    ensures sent >= 1 && forall k :: 0 <= k < sent - 1 ==> !acked(k)
    ensures failed <==> !acked(sent - 1)
    ensures sent <= (if maxAttempts < 1 then 1 else maxAttempts)
    ensures failed ==> sent == if maxAttempts < 1 then 1 else maxAttempts
  {
    var attempts := 0;
    sent := 0;
    while true
      invariant sent == attempts && (attempts == 0 || attempts < maxAttempts)
      invariant forall k :: 0 <= k < attempts ==> !acked(k)
      decreases maxAttempts - attempts
    {
      sent := sent + 1;
      if acked(sent - 1) {
        return sent, false;
      }
      attempts := attempts + 1;
      if attempts >= maxAttempts {
        return sent, true;
      }
    }
  }

  // ---------------------------------------------------- what one attempt may meet

  /** The four ways in which an attempt fails: no RAR, Msg3 not acknowledged, no Msg4, or a
      Msg4 for its temporary identity that names another UE. */
  predicate Fails(m: Machine, e: Event) {
    match m.state
    case WaitRar => e.TimerExpired?
    case Msg3Tx => e.Msg3Done? && !e.acked
    case WaitMsg4 => e.TimerExpired? || (e.Msg4Received? && e.tcRnti == m.tcRnti && e.crId != m.crId)
    case _ => false
  }

  /** Every failure counts, and never leaves the UE waiting: it starts over with exactly
      one more preamble, or gives up without one if that is one retry too many. */
  lemma FailureStartsOver(m: Machine, e: Event)
    requires Fails(m, e)
    ensures var r := Apply(m, e);
            && r.retries == m.retries + 1
            && (m.retries < m.maxRetries ==> r.state == PreambleTx && r.preambles == m.preambles + 1)
            && (m.retries >= m.maxRetries ==> r.state == Failed && r.preambles == m.preambles)
            && r.cRnti == m.cRnti && r.tcRnti == m.tcRnti && r.crId == m.crId && r.maxRetries == m.maxRetries
  {
  }

  /** The events that take an attempt one step further. */
  predicate Advances(m: Machine, e: Event) {
    match m.state
    case Init => e.TriggerRach?
    case PreambleTx => true
    case WaitRar => e.RarReceived?
    case Msg3Tx => e.Msg3Done? && e.acked
    case WaitMsg4 => e.Msg4Received? && e.tcRnti == m.tcRnti && e.crId == m.crId
    case _ => false
  }

  /** Anything else is ignored, in particular a Msg4 for another temporary identity, and
      everything once the procedure has ended. */
  lemma OthersAreIgnored(m: Machine, e: Event)
    ensures Apply(m, e) == m <==> !Fails(m, e) && !Advances(m, e)
  {
  }

  /** n failed attempts after a trigger, each failing in any of the four ways, and then one
      that meets with nothing: the UE holds the temporary identity of the last RAR as its
      C-RNTI after n + 1 preambles. */
  datatype Mishap = NoRar | NoMsg3Ack | NoMsg4 | OtherWins(crId: nat)

  function FailedAttempt(h: Mishap, tc: nat): seq<Event> {
    match h
    case NoRar => [Other, TimerExpired]
    case NoMsg3Ack => [Other, RarReceived(tc), Msg3Done(false)]
    case NoMsg4 => [Other, RarReceived(tc), Msg3Done(true), TimerExpired]
    case OtherWins(id) => [Other, RarReceived(tc), Msg3Done(true), Msg4Received(tc, id)]
  }

  lemma {:induction false} RunJoins(m: Machine, a: seq<Event>, b: seq<Event>)
    ensures Run(m, a + b) == Run(Run(m, a), b)
    decreases |a|
  {
    if a == [] {
      assert a + b == b;
    } else {
      assert (a + b)[1..] == a[1..] + b;
      RunJoins(Apply(m, a[0]), a[1..], b);
    }
  }

  lemma RunOne(m: Machine, e: Event)
    ensures Run(m, [e]) == Apply(m, e)
  {
    assert [e][1..] == [];
  }

  lemma RunThree(m: Machine, a: Event, b: Event, c: Event)
    ensures Run(m, [a, b]) == Apply(Apply(m, a), b)
    ensures Run(m, [a, b, c]) == Apply(Apply(Apply(m, a), b), c)
  {
    RunOne(m, a);
    RunOne(Apply(m, a), b);
    RunJoins(m, [a], [b]);
    RunOne(Apply(Apply(m, a), b), c);
    RunJoins(m, [a, b], [c]);
    assert [a] + [b] == [a, b] && [a, b] + [c] == [a, b, c];
  }

  lemma AttemptFails(m: Machine, h: Mishap, tc: nat)
    requires m.state == PreambleTx && m.retries < m.maxRetries && (h.OtherWins? ==> h.crId != m.crId)
    ensures var r := Run(m, FailedAttempt(h, tc));
            && r.state == PreambleTx && r.retries == m.retries + 1 && r.preambles == m.preambles + 1
            && r.crId == m.crId && r.maxRetries == m.maxRetries
  {
    var es := FailedAttempt(h, tc);
    RunThree(m, Other, if h.NoRar? then TimerExpired else RarReceived(tc), if h.NoMsg3Ack? then Msg3Done(false) else Msg3Done(true));
    if |es| == 4 {
      RunJoins(m, es[..3], [es[3]]);
      RunOne(Run(m, es[..3]), es[3]);
      assert es == es[..3] + [es[3]] && es[..3] == [Other, RarReceived(tc), Msg3Done(true)];
    }
  }

  function Attempts(hs: seq<Mishap>, tc: nat): seq<Event> {
    if hs == [] then [] else FailedAttempt(hs[0], tc) + Attempts(hs[1..], tc)
  }

  lemma {:induction false} AttemptsFail(m: Machine, hs: seq<Mishap>, tc: nat)
    requires m.state == PreambleTx && m.retries + |hs| <= m.maxRetries
    requires forall k :: 0 <= k < |hs| ==> hs[k].OtherWins? ==> hs[k].crId != m.crId
    ensures var r := Run(m, Attempts(hs, tc));
            && r.state == PreambleTx && r.retries == m.retries + |hs| && r.preambles == m.preambles + |hs|
            && r.crId == m.crId
    decreases |hs|
  {
    if hs != [] {
      AttemptFails(m, hs[0], tc);
      AttemptsFail(Run(m, FailedAttempt(hs[0], tc)), hs[1..], tc);
      RunJoins(m, FailedAttempt(hs[0], tc), Attempts(hs[1..], tc));
    }
  }

  /** Up to max_retries failures of any kind do not keep a UE from getting in. */
  lemma SucceedsAfterFailures(maxRetries: nat, crId: nat, hs: seq<Mishap>, lost: nat, tc: nat)
    requires |hs| <= maxRetries
    requires forall k :: 0 <= k < |hs| ==> hs[k].OtherWins? ==> hs[k].crId != crId
    ensures var es := [TriggerRach] + Attempts(hs, lost)
                      + [Other, RarReceived(tc), Msg3Done(true), Msg4Received(tc, crId)];
            var m := Run(Fresh(maxRetries, crId), es);
            && m.state == Success && m.cRnti == Some(tc)
            && m.retries == |hs| && m.preambles == |hs| + 1
  {
    var m := Fresh(maxRetries, crId);
    var last := [Other, RarReceived(tc), Msg3Done(true)];
    RunOne(m, TriggerRach);
    AttemptsFail(Apply(m, TriggerRach), hs, lost);
    RunJoins(m, [TriggerRach], Attempts(hs, lost));
    var before := Run(m, [TriggerRach] + Attempts(hs, lost));
    RunThree(before, Other, RarReceived(tc), Msg3Done(true));
    RunOne(Run(before, last), Msg4Received(tc, crId));
    RunJoins(before, last, [Msg4Received(tc, crId)]);
    RunJoins(m, [TriggerRach] + Attempts(hs, lost), last + [Msg4Received(tc, crId)]);
    assert last + [Msg4Received(tc, crId)] == [Other, RarReceived(tc), Msg3Done(true), Msg4Received(tc, crId)];
  }

  // -------------------------------------------------------------- run bound

  /** A measure every state change lowers: attempts left, then place in the attempt. */
  function ChangesLeft(m: Machine): nat
    requires m.state.Success? || m.state.Failed? || m.retries <= m.maxRetries
  {
    if m.state.Success? || m.state.Failed? then 0 else
    4 * (m.maxRetries - m.retries) + match m.state {
      case Init => 5
      case PreambleTx => 4
      case WaitRar => 3
      case Msg3Tx => 2
      case _ => 1
    }
  }

  ghost predicate Inv(m: Machine) {
    match m.state
    case Init => m.retries == 0 && m.preambles == 0
    case Failed => m.retries == m.maxRetries + 1 && m.preambles == m.retries
    case _ => m.retries <= m.maxRetries && m.preambles == m.retries + 1
  }

  lemma StepKeepsInv(m: Machine, e: Event)
    requires Inv(m)
    ensures Inv(Apply(m, e)) && Apply(m, e).maxRetries == m.maxRetries
    ensures Apply(m, e).state != m.state ==> ChangesLeft(Apply(m, e)) < ChangesLeft(m)
    ensures Apply(m, e).state == m.state ==> ChangesLeft(Apply(m, e)) == ChangesLeft(m)
  {
  }

  lemma {:induction false} RunKeepsInv(m: Machine, es: seq<Event>)
    requires Inv(m)
    ensures Inv(Run(m, es)) && Run(m, es).maxRetries == m.maxRetries
    ensures Changes(m, es) + ChangesLeft(Run(m, es)) <= ChangesLeft(m)
    decreases |es|
  {
    if es != [] {
      StepKeepsInv(m, es[0]);
      RunKeepsInv(Apply(m, es[0]), es[1..]);
    }
  }

  /** Whatever happens, a procedure makes at most 4 * max_retries + 5 state changes and
      sends at most max_retries + 1 preambles; it fails only after exactly that many. */
  lemma RunIsBounded(maxRetries: nat, crId: nat, es: seq<Event>)
    ensures var m := Run(Fresh(maxRetries, crId), es);
            && Changes(Fresh(maxRetries, crId), es) <= 4 * maxRetries + 5
            && m.preambles <= maxRetries + 1
            && (m.state == Failed ==> m.preambles == maxRetries + 1)
  {
    RunKeepsInv(Fresh(maxRetries, crId), es);
  }

  /** n attempts that all lose the contention. */
  function LosingAttempts(n: nat): seq<Event> {
    if n == 0 then [] else [Other, RarReceived(0), Msg3Done(true), TimerExpired] + LosingAttempts(n - 1)
  }

  lemma OneEvent(m: Machine, e: Event, rest: seq<Event>)
    ensures Run(m, [e] + rest) == Run(Apply(m, e), rest)
    ensures Changes(m, [e] + rest) == (if Apply(m, e).state != m.state then 1 else 0) + Changes(Apply(m, e), rest)
  {
    assert ([e] + rest)[1..] == rest;
  }

  /** One attempt that loses the contention changes the state four times. */
  lemma LosingAttempt(m: Machine, rest: seq<Event>)
    requires m.state == PreambleTx
    ensures var m4 := Retry(m.(state := WaitMsg4, tcRnti := 0));
            var es := [Other, RarReceived(0), Msg3Done(true), TimerExpired] + rest;
            Run(m, es) == Run(m4, rest) && Changes(m, es) == 4 + Changes(m4, rest)
  {
    var d := [TimerExpired] + rest;
    var c := [Msg3Done(true)] + d;
    var b := [RarReceived(0)] + c;
    assert [Other, RarReceived(0), Msg3Done(true), TimerExpired] + rest == [Other] + b;
    OneEvent(m, Other, b);
    OneEvent(m.(state := WaitRar), RarReceived(0), c);
    OneEvent(m.(state := Msg3Tx, tcRnti := 0), Msg3Done(true), d);
    OneEvent(m.(state := WaitMsg4, tcRnti := 0), TimerExpired, rest);
  }

  lemma {:induction false} LosingRun(m: Machine, n: nat)
    requires Inv(m) && m.state == PreambleTx && m.retries + n == m.maxRetries + 1
    ensures Run(m, LosingAttempts(n)).state == Failed && Changes(m, LosingAttempts(n)) == 4 * n
    decreases n
  {
    LosingAttempt(m, LosingAttempts(n - 1));
    if n > 1 {
      LosingRun(Retry(m.(state := WaitMsg4, tcRnti := 0)), n - 1);
    }
  }

  /** The bound is attained: max_retries + 1 attempts that all lose the contention. */
  lemma BoundIsAttained(maxRetries: nat, crId: nat)
    ensures var es := [TriggerRach] + LosingAttempts(maxRetries + 1);
            && Changes(Fresh(maxRetries, crId), es) == 4 * maxRetries + 5
            && Run(Fresh(maxRetries, crId), es).state == Failed
  {
    var m := Fresh(maxRetries, crId);
    OneEvent(m, TriggerRach, LosingAttempts(maxRetries + 1));
    LosingRun(Apply(m, TriggerRach), maxRetries + 1);
  }

  // -------------------------------------------------------------- contention

  /** Several UEs and a network that answers each temporary identity with one Msg4. */
  datatype Cell = Cell(ues: seq<Machine>, msg4: map<nat, nat>)

  datatype Step =
    | Local(ue: nat, event: Event)
    | SendMsg4(tcRnti: nat, crId: nat)
    | DeliverMsg4(ue: nat, tcRnti: nat)

  function Next(c: Cell, s: Step): Cell {
    match s
    case Local(u, e) =>
      if u < |c.ues| && !e.Msg4Received? then c.(ues := c.ues[u := Apply(c.ues[u], e)]) else c
    case SendMsg4(tc, id) => if tc in c.msg4 then c else c.(msg4 := c.msg4[tc := id])
    case DeliverMsg4(u, tc) =>
      if u < |c.ues| && tc in c.msg4
      then c.(ues := c.ues[u := Apply(c.ues[u], Msg4Received(tc, c.msg4[tc]))])
      else c
  }

  function RunCell(c: Cell, steps: seq<Step>): (r: Cell)
    ensures |r.ues| == |c.ues|
    decreases |steps|
  {
    if steps == [] then c else RunCell(Next(c, steps[0]), steps[1..])
  }

  /** An identity is promoted only by the UE that its Msg4 named. */
  ghost predicate PromotedByWinner(c: Cell) {
    forall u :: 0 <= u < |c.ues| && c.ues[u].cRnti.Some? ==>
      c.ues[u].cRnti.value in c.msg4 && c.msg4[c.ues[u].cRnti.value] == c.ues[u].crId
  }

  lemma {:induction false} WinnersOnly(c: Cell, steps: seq<Step>)
    requires PromotedByWinner(c)
    ensures PromotedByWinner(RunCell(c, steps))
    ensures forall u :: 0 <= u < |c.ues| ==> RunCell(c, steps).ues[u].crId == c.ues[u].crId
    decreases |steps|
  {
    if steps != [] {
      WinnersOnly(Next(c, steps[0]), steps[1..]);
    }
  }

  predicate Waiting(m: Machine, tc: nat) {
    m.state == WaitMsg4 && m.tcRnti == tc
  }

  /** What the Msg4 of tc, naming id, has made of a UE that got it (once or more often), or
      did not get it. A loser has started over or given up; a UE in PreambleTx goes on to
      wait for its RAR on any event. */
  predicate Resolved(before: Machine, after: Machine, tc: nat, id: nat, got: bool) {
    if !got then after == before
    else if Waiting(before, tc) && before.crId == id then after == before.(state := Success, cRnti := Some(tc))
    else if Waiting(before, tc) then
      && after.retries == before.retries + 1 && after.cRnti == before.cRnti && after.crId == before.crId
      && after.maxRetries == before.maxRetries
      && if before.retries < before.maxRetries
         then after.state in {PreambleTx, WaitRar} && after.preambles == before.preambles + 1
         else after.state == Failed && after.preambles == before.preambles
    else after == before || (before.state == PreambleTx && after == before.(state := WaitRar))
  }

  lemma {:induction false} DeliveryResolves(before: Machine, c: Cell, steps: seq<Step>, tc: nat, u: nat, got: bool)
    requires u < |c.ues| && tc in c.msg4 && Resolved(before, c.ues[u], tc, c.msg4[tc], got)
    requires forall k :: 0 <= k < |steps| ==> steps[k].DeliverMsg4? && steps[k].tcRnti == tc
    ensures RunCell(c, steps).msg4 == c.msg4
    ensures Resolved(before, RunCell(c, steps).ues[u], tc, c.msg4[tc], got || DeliverMsg4(u, tc) in steps)
    decreases |steps|
  {
    if steps != [] {
      var s := steps[0];
      assert DeliverMsg4(u, tc) in steps <==> s.ue == u || DeliverMsg4(u, tc) in steps[1..];
      DeliveryResolves(before, Next(c, s), steps[1..], tc, u, got || s.ue == u);
    }
  }

  /** Contention resolution: once the Msg4 of a temporary identity has been delivered, in any
      order and any number of times, to every UE that waits under it, exactly those it names
      are in Success with that identity, nobody is waiting under it any more, and every
      loser has counted a failure and started over or given up. */
  lemma ContentionIsResolved(c: Cell, steps: seq<Step>, tc: nat, u: nat)
    requires u < |c.ues| && tc in c.msg4
    requires forall k :: 0 <= k < |steps| ==> steps[k].DeliverMsg4? && steps[k].tcRnti == tc
    requires forall v :: 0 <= v < |c.ues| && Waiting(c.ues[v], tc) ==> DeliverMsg4(v, tc) in steps
    ensures var m, m' := c.ues[u], RunCell(c, steps).ues[u];
            && !Waiting(m', tc)
            && (Waiting(m, tc) && m.crId == c.msg4[tc] ==> m'.state == Success && m'.cRnti == Some(tc))
            && (Waiting(m, tc) && m.crId != c.msg4[tc] ==>
                  && m'.state != Success && m'.cRnti == m.cRnti && m'.retries == m.retries + 1
                  && (m'.state == Failed <==> m.retries >= m.maxRetries)
                  && m'.preambles == m.preambles + if m'.state == Failed then 0 else 1)
            && (!Waiting(m, tc) && m.state != PreambleTx ==> m' == m)
  {
    DeliveryResolves(c.ues[u], c, steps, tc, u, false);
  }

  /** With distinct contention identities no two UEs end up with the same C-RNTI,
      however many share preambles and temporary identities. */
  lemma NoSharedCRnti(ues: seq<Machine>, steps: seq<Step>, u: nat, v: nat)
    requires forall i :: 0 <= i < |ues| ==> ues[i].cRnti == None
    requires forall i, j :: 0 <= i < j < |ues| ==> ues[i].crId != ues[j].crId
    requires u < v < |ues|
    ensures var c := RunCell(Cell(ues, map[]), steps);
            c.ues[u].cRnti.Some? ==> c.ues[u].cRnti != c.ues[v].cRnti
  {
    WinnersOnly(Cell(ues, map[]), steps);
  }

  /** Distinct identities are needed: with equal ones a single Msg4 promotes two UEs. */
  lemma EqualIdentitiesClash(crId: nat, tcRnti: nat)
    ensures var ue := Fresh(10, crId).(state := WaitMsg4, tcRnti := tcRnti);
            var c := RunCell(Cell([ue, ue], map[]),
                             [SendMsg4(tcRnti, crId), DeliverMsg4(0, tcRnti), DeliverMsg4(1, tcRnti)]);
            c.ues[0].cRnti == c.ues[1].cRnti == Some(tcRnti)
  {
    var ue := Fresh(10, crId).(state := WaitMsg4, tcRnti := tcRnti);
    var steps := [SendMsg4(tcRnti, crId), DeliverMsg4(0, tcRnti), DeliverMsg4(1, tcRnti)];
    var c1 := Next(Cell([ue, ue], map[]), steps[0]);
    var c2 := Next(c1, steps[1]);
    assert steps[1..] == [steps[1], steps[2]] && steps[1..][1..] == [steps[2]];
    assert RunCell(c2, [steps[2]]) == Next(c2, steps[2]);
    assert RunCell(c1, [steps[1], steps[2]]) == RunCell(c2, [steps[2]]);
  }

  /** So is one Msg4 per temporary identity: two of them, naming two UEs that wait under
      the same one, promote both to the same C-RNTI. */
  lemma TwoMsg4sClash(a: Machine, b: Machine)
    requires a.state == b.state == WaitMsg4 && a.tcRnti == b.tcRnti
    ensures Apply(a, Msg4Received(a.tcRnti, a.crId)).cRnti == Apply(b, Msg4Received(b.tcRnti, b.crId)).cRnti
            == Some(a.tcRnti)
  {
  }
}
