/** The HARQ processes of one UE: the downlink scheduling order, the feedback
    handler as listed, and the bitmap search for a free process.

    schedule_retransmission is taken to send the process's block again and to
    clear its pending flag. Every transmission is answered at most once; the
    answer names the process, not the block. */
module HarqEntity {
  import opened Option
  import opened HarqNdi

  const PROCESSES := 8

  datatype Process = Process(active: bool, pendingRetx: bool, rv: nat, retxCount: nat)

  datatype Action = Nothing | Retransmit(proc: nat) | SendNew(proc: nat)

  // ---------------------------------------------------- free-process search

  /** The linear scan: the first process that is not active, or -1. */
  function FirstFree(active: seq<bool>): (i: int)
    ensures -1 <= i < |active|
    ensures i >= 0 ==> !active[i] && forall j :: 0 <= j < i ==> active[j]
    ensures i == -1 ==> forall j :: 0 <= j < |active| ==> active[j]
  {
    if active == [] then -1
    else if !active[0] then 0
    else var i := FirstFree(active[1..]); if i == -1 then -1 else i + 1
  }

  function Mask(active: seq<bool>): nat {
    if active == [] then 0 else (if active[0] then 1 else 0) + 2 * Mask(active[1..])
  }

  function Pow2(n: nat): nat {
    if n == 0 then 1 else 2 * Pow2(n - 1)
  }

  lemma {:induction false} MaskBounds(active: seq<bool>)
    ensures Mask(active) < Pow2(|active|)
    ensures Mask(active) == Pow2(|active|) - 1 <==> forall j :: 0 <= j < |active| ==> active[j]
  {
    if active != [] {
      MaskBounds(active[1..]);
      assert forall j :: 0 <= j < |active| ==> active[j] == if j == 0 then active[0] else active[1..][j - 1];
    }
  }

  /** Setting or clearing one flag sets or clears one bit. */
  lemma {:induction false} MaskUpdate(active: seq<bool>, i: nat, b: bool)
    requires i < |active|
    ensures Mask(active[i := b]) + (if active[i] then Pow2(i) else 0) == Mask(active) + (if b then Pow2(i) else 0)
  {
    if i == 0 {
      assert active[i := b][1..] == active[1..];
    } else {
      assert active[i := b][1..] == active[1..][i - 1 := b];
      MaskUpdate(active[1..], i - 1, b);
    }
  }

  /** __builtin_ctz: the number of trailing zero bits of a non-zero word. */
  function CountTrailingZeros(n: nat): nat
    requires n > 0
  {
    if n % 2 == 1 then 0 else 1 + CountTrailingZeros(n / 2)
  }

  /** The low k bits of n are ones. */
  predicate LowOnes(n: nat, k: nat) {
    k == 0 || (n % 2 == 1 && LowOnes(n / 2, k - 1))
  }

  lemma {:induction false} ComplementBit(n: nat, active: seq<bool>)
    requires LowOnes(n, |active|) && FirstFree(active) >= 0 && Mask(active) <= n
    ensures n > Mask(active) && CountTrailingZeros(n - Mask(active)) == FirstFree(active)
  {
    if active[0] {
      var rest := active[1..];
      assert n - Mask(active) == 2 * (n / 2 - Mask(rest));
      ComplementBit(n / 2, rest);
    } else {
      assert (n - Mask(active)) % 2 == 1;
    }
  }

  /** The bitmap search: all ones, or the lowest zero bit of the 32-bit complement. */
  function BitmapSearch(mask: nat): int
    requires mask <= 0xFF
  {
    if mask == 0xFF then -1 else CountTrailingZeros(0xFFFF_FFFF - mask)
  }

  /** The fast search finds what the linear scan finds. */
  lemma BitmapSearchIsLinearScan(active: seq<bool>)
    requires |active| == PROCESSES
    ensures Mask(active) <= 0xFF && BitmapSearch(Mask(active)) == FirstFree(active)
  {
    MaskBounds(active);
    assert Pow2(8) == 256 by { assert Pow2(4) == 16; assert Pow2(6) == 64; }
    if FirstFree(active) >= 0 {
      assert LowOnes(0xFFFF_FFFF / 16, 4) by { assert LowOnes(0xFFFF_FFFF / 64, 2); }
      assert LowOnes(0xFFFF_FFFF, 8) by {
        assert LowOnes(0xFFFF_FFFF / 4, 6);
      }
      ComplementBit(0xFFFF_FFFF, active);
    }
  }

  // ------------------------------------------------- scheduling and feedback

  function Active(ps: seq<Process>): (r: seq<bool>)
    ensures |r| == |ps|
  {
    seq(|ps|, i requires 0 <= i < |ps| => ps[i].active)
  }

  /** The lowest process with a retransmission pending, or -1. */
  function FirstPending(ps: seq<Process>, from: nat): (i: int)
    requires from <= |ps|
    ensures i == -1 || (from <= i < |ps| && ps[i].pendingRetx && forall j :: from <= j < i ==> !ps[j].pendingRetx)
    ensures i == -1 ==> forall j :: from <= j < |ps| ==> !ps[j].pendingRetx
    decreases |ps| - from
  {
    if from == |ps| then -1 else if ps[from].pendingRetx then from else FirstPending(ps, from + 1)
  }

  function Choose(ps: seq<Process>, hasData: bool): Action {
    var p := FirstPending(ps, 0);
    if p >= 0 then Retransmit(p)
    else if FirstFree(Active(ps)) >= 0 && hasData then SendNew(FirstFree(Active(ps)))
    else Nothing
  }

  function Scheduled(ps: seq<Process>, hasData: bool): (r: seq<Process>)
    ensures |r| == |ps|
  {
    match Choose(ps, hasData)
    case Nothing => ps
    case Retransmit(p) => ps[p := ps[p].(pendingRetx := false)]
    case SendNew(p) => ps[p := ps[p].(active := true, rv := 0)]
  }

  function FeedbackOn(p: Process, ack: bool, maxRetx: nat): Process {
    if ack then p.(active := false, retxCount := 0)
    else if p.retxCount + 1 >= maxRetx then p.(pendingRetx := true, retxCount := p.retxCount + 1, active := false)
    else p.(pendingRetx := true, retxCount := p.retxCount + 1, rv := NextRv(p.rv))
  }

  class UeHarq {
    const processes: array<Process>
    var activeMask: nat

    ghost predicate Valid()
      reads this, processes
    {
      processes.Length == PROCESSES && activeMask == Mask(Active(processes[..]))
    }

    constructor ()
      ensures Valid() && fresh(processes)
      ensures processes[..] == seq(PROCESSES, _ => Process(false, false, 0, 0))
    {
      processes := new Process[PROCESSES](_ => Process(false, false, 0, 0));
      activeMask := 0;
      new;
      MaskBounds(Active(processes[..]));
      AllIdle(Active(processes[..]));
    }

    method FindFree() returns (free: int)
      requires Valid()
      ensures free == FirstFree(Active(processes[..]))
    {
      BitmapSearchIsLinearScan(Active(processes[..]));
      if activeMask == 0xFF {
        return -1;
      }
      return CountTrailingZeros(0xFFFF_FFFF - activeMask);
    }

    method Update(i: nat, p: Process)
      requires Valid() && i < PROCESSES
      modifies this, processes
      ensures Valid() && processes[..] == old(processes[..])[i := p]
    {
      MaskUpdate(Active(processes[..]), i, p.active);
      if p.active && !processes[i].active {
        activeMask := activeMask + Pow2(i);
      } else if !p.active && processes[i].active {
        activeMask := activeMask - Pow2(i);
      }
      processes[i] := p;
      assert Active(processes[..]) == Active(old(processes[..]))[i := p.active];
    }

    method ScheduleDl(hasData: bool) returns (action: Action)
      requires Valid()
      modifies this, processes
      ensures Valid()
      ensures action == Choose(old(processes[..]), hasData)
      ensures processes[..] == Scheduled(old(processes[..]), hasData)
      ensures forall p :: 0 <= p < PROCESSES && old(processes[p].pendingRetx) ==>
                action.Retransmit? && action.proc <= p
      ensures action.Retransmit? ==>
                && action.proc < PROCESSES && old(processes[action.proc]).pendingRetx
                && processes[action.proc] == old(processes[action.proc]).(pendingRetx := false)
      ensures action.SendNew? ==>
                && hasData && action.proc < PROCESSES && !old(processes[action.proc]).active
                && (forall p :: 0 <= p < action.proc ==> old(processes[p]).active)
                && processes[action.proc].active && processes[action.proc].rv == 0
      ensures action.Nothing? && hasData ==> forall p :: 0 <= p < PROCESSES ==> processes[p].active
    {
      for p := 0 to PROCESSES
        invariant Valid() && processes[..] == old(processes[..])
        invariant FirstPending(processes[..], 0) == FirstPending(processes[..], p)
      {
        if processes[p].pendingRetx {
          Update(p, processes[p].(pendingRetx := false));
          return Retransmit(p);
        }
      }
      assert forall p :: 0 <= p < PROCESSES ==> Active(processes[..])[p] == old(processes[p].active);
      var free := FindFree();
      if free == -1 {
        return Nothing;
      }
      if hasData {
        Update(free, processes[free].(active := true, rv := 0));
        return SendNew(free);
      }
      return Nothing;
    }

    method OnHarqFeedback(i: nat, ack: bool, maxRetx: nat) returns (failed: bool)
      requires Valid() && i < PROCESSES
      modifies this, processes
      ensures Valid() && processes[..] == old(processes[..])[i := FeedbackOn(old(processes[i]), ack, maxRetx)]
      ensures failed == (!ack && old(processes[i]).retxCount + 1 >= maxRetx)
      ensures processes[i].active == (old(processes[i]).active && !ack && !failed)
      ensures processes[i].pendingRetx == (old(processes[i]).pendingRetx || !ack)
      ensures processes[i].retxCount == if ack then 0 else old(processes[i]).retxCount + 1
      ensures processes[i].rv == if ack || failed then old(processes[i]).rv else NextRv(old(processes[i]).rv)
    {
      var p := processes[i];
      failed := false;
      if ack {
        p := p.(active := false, retxCount := 0);
      } else {
        p := p.(pendingRetx := true, retxCount := p.retxCount + 1);
        if p.retxCount >= maxRetx {
          failed := true;
          p := p.(active := false);
        } else {
          p := p.(rv := NextRv(p.rv));
        }
      }
      Update(i, p);
    }
  }

  lemma {:induction false} AllIdle(active: seq<bool>)
    requires forall i :: 0 <= i < |active| ==> !active[i]
    ensures Mask(active) == 0
  {
    if active != [] { AllIdle(active[1..]); }
  }

  // ------------------------------------------------ what the handler achieves

  /** inFlight[p] counts the transmissions of process p still to be answered. */
  datatype Entity = Entity(ps: seq<Process>, inFlight: seq<nat>) {
    predicate Ok() {
      |ps| == |inFlight|
    }
  }

  function Idle(n: nat): (u: Entity)
    ensures u.Ok() && |u.ps| == n
  {
    Entity(seq(n, _ => Process(false, false, 0, 0)), seq(n, _ => 0))
  }

  datatype Event = Schedule(hasData: bool) | Feedback(proc: nat, ack: bool)

  predicate Awaited(u: Entity, i: nat)
    requires u.Ok()
  {
    i < |u.ps| && u.inFlight[i] > 0
  }

  function Apply(u: Entity, e: Event, maxRetx: nat): (r: Entity)
    requires u.Ok()
    ensures r.Ok() && |r.ps| == |u.ps|
  {
    match e
    case Schedule(hasData) =>
      (match Choose(u.ps, hasData)
       case Nothing => u
       case Retransmit(p) => Entity(Scheduled(u.ps, hasData), u.inFlight[p := u.inFlight[p] + 1])
       case SendNew(p) => Entity(Scheduled(u.ps, hasData), u.inFlight[p := u.inFlight[p] + 1]))
    case Feedback(i, ack) =>
      if !Awaited(u, i) then u
      else Entity(u.ps[i := FeedbackOn(u.ps[i], ack, maxRetx)], u.inFlight[i := u.inFlight[i] - 1])
  }

  predicate FinalFailure(u: Entity, e: Event, maxRetx: nat)
    requires u.Ok()
  {
    e.Feedback? && Awaited(u, e.proc) && !e.ack && u.ps[e.proc].retxCount + 1 >= maxRetx
  }

  /** A process and its transmissions in step: it is active exactly while one is in
      flight or pending, never both, and a count belongs to a block it still has. */
  predicate InOrderAt(p: Process, inFlight: nat) {
    && inFlight <= 1
    && (p.active <==> inFlight == 1 || p.pendingRetx)
    && !(inFlight == 1 && p.pendingRetx)
    && (p.retxCount > 0 ==> p.active)
  }

  predicate InOrder(u: Entity)
    requires u.Ok()
  {
    forall i :: 0 <= i < |u.ps| ==> InOrderAt(u.ps[i], u.inFlight[i])
  }

  /** Only processes that own a block have a retransmission pending. */
  predicate PendingIsActive(u: Entity) {
    forall i :: 0 <= i < |u.ps| ==> u.ps[i].pendingRetx ==> u.ps[i].active
  }

  /** The handler keeps this exactly as long as no process reaches MAX_RETX: the
      final failure frees the process and leaves its retransmission pending. */
  lemma InOrderIff(u: Entity, e: Event, maxRetx: nat)
    requires u.Ok() && InOrder(u)
    ensures InOrder(Apply(u, e, maxRetx)) <==> !FinalFailure(u, e, maxRetx)
    ensures PendingIsActive(Apply(u, e, maxRetx)) <==> !FinalFailure(u, e, maxRetx)
  {
    var r := Apply(u, e, maxRetx);
    if FinalFailure(u, e, maxRetx) {
      assert r.ps[e.proc].pendingRetx && !r.ps[e.proc].active;
      assert !InOrderAt(r.ps[e.proc], r.inFlight[e.proc]);
    } else {
      forall i | 0 <= i < |r.ps| ensures InOrderAt(r.ps[i], r.inFlight[i]) {
        assert InOrderAt(u.ps[i], u.inFlight[i]);
      }
      assert forall i :: 0 <= i < |r.ps| ==> InOrderAt(r.ps[i], r.inFlight[i]);
    }
  }

  function Run(u: Entity, es: seq<Event>, maxRetx: nat): (r: Entity)
    requires u.Ok()
    ensures r.Ok() && |r.ps| == |u.ps|
  {
    if es == [] then u else Apply(Run(u, es[..|es| - 1], maxRetx), es[|es| - 1], maxRetx)
  }

  predicate NeverFails(u: Entity, es: seq<Event>, maxRetx: nat)
    requires u.Ok()
  {
    es == [] ||
    (NeverFails(u, es[..|es| - 1], maxRetx) && !FinalFailure(Run(u, es[..|es| - 1], maxRetx), es[|es| - 1], maxRetx))
  }

  /** No state along the run has a freed process with a retransmission pending. */
  predicate NeverOrphans(u: Entity, es: seq<Event>, maxRetx: nat)
    requires u.Ok()
  {
    (es == [] || NeverOrphans(u, es[..|es| - 1], maxRetx)) && PendingIsActive(Run(u, es, maxRetx))
  }

  lemma {:induction false} OrphansIffFailure(u: Entity, es: seq<Event>, maxRetx: nat)
    requires u.Ok() && InOrder(u)
    ensures NeverOrphans(u, es, maxRetx) <==> NeverFails(u, es, maxRetx)
    ensures NeverFails(u, es, maxRetx) ==> InOrder(Run(u, es, maxRetx))
  {
    if es == [] {
      assert forall i :: 0 <= i < |u.ps| ==> InOrderAt(u.ps[i], u.inFlight[i]);
    } else {
      OrphansIffFailure(u, es[..|es| - 1], maxRetx);
      if NeverFails(u, es[..|es| - 1], maxRetx) {
        InOrderIff(Run(u, es[..|es| - 1], maxRetx), es[|es| - 1], maxRetx);
      }
    }
  }

  /** After a final failure the scheduler keeps the freed process's block going: the
      next grant is a retransmission for a process that is not active, and the grant
      after that puts a new block on it while the old one is still in the air. */
  lemma OrphanOverlapsNewBlock(u: Entity, i: nat, maxRetx: nat, hasData: bool)
    requires u.Ok() && InOrder(u) && FinalFailure(u, Feedback(i, false), maxRetx)
    requires forall j :: 0 <= j < |u.ps| ==> !u.ps[j].pendingRetx
    requires forall j :: 0 <= j < i ==> u.ps[j].active
    ensures var failed := Apply(u, Feedback(i, false), maxRetx);
            var again := Apply(failed, Schedule(hasData), maxRetx);
            && Choose(failed.ps, hasData) == Retransmit(i) && !failed.ps[i].active
            && again.ps[i].rv == u.ps[i].rv && again.inFlight[i] == 1
            && Choose(again.ps, true) == SendNew(i)
            && Apply(again, Schedule(true), maxRetx).inFlight[i] == 2
  {
    assert InOrderAt(u.ps[i], u.inFlight[i]);
    var failed := Apply(u, Feedback(i, false), maxRetx);
    assert failed.ps[i].pendingRetx;
    var again := Apply(failed, Schedule(hasData), maxRetx);
    assert !Active(again.ps)[i];
    assert forall j :: 0 <= j < i ==> Active(again.ps)[j];
  }

  // -------------------------------------------------- what the count remembers

  datatype Answer = Ack | Nack | Final

  function OwnAnswer(u: Entity, e: Event, p: nat, maxRetx: nat): seq<Answer>
    requires u.Ok()
  {
    if e.Feedback? && e.proc == p && Awaited(u, p)
    then [if e.ack then Ack else if FinalFailure(u, e, maxRetx) then Final else Nack]
    else []
  }

  /** The answers for process p along a run, in order. */
  function Answers(u: Entity, es: seq<Event>, p: nat, maxRetx: nat): seq<Answer>
    requires u.Ok()
  {
    if es == [] then [] else
    Answers(u, es[..|es| - 1], p, maxRetx) + OwnAnswer(Run(u, es[..|es| - 1], maxRetx), es[|es| - 1], p, maxRetx)
  }

  function NacksSinceAck(log: seq<Answer>): nat {
    if log == [] || log[|log| - 1] == Ack then 0 else NacksSinceAck(log[..|log| - 1]) + 1
  }

  predicate FailedSinceAck(log: seq<Answer>) {
    log != [] && log[|log| - 1] != Ack && (log[|log| - 1] == Final || FailedSinceAck(log[..|log| - 1]))
  }

  ghost predicate CountTells(u: Entity, p: nat, log: seq<Answer>, maxRetx: nat)
    requires u.Ok() && p < |u.ps|
  {
    u.ps[p].retxCount == NacksSinceAck(log) && (u.ps[p].retxCount >= maxRetx <==> FailedSinceAck(log))
  }

  lemma LogGrows(log: seq<Answer>, a: Answer)
    ensures NacksSinceAck(log + [a]) == if a == Ack then 0 else NacksSinceAck(log) + 1
    ensures FailedSinceAck(log + [a]) <==> a == Final || (a == Nack && FailedSinceAck(log))
  {
    assert (log + [a])[..|log + [a]| - 1] == log;
  }

  lemma SameCount(u: Entity, e: Event, p: nat, maxRetx: nat)
    requires u.Ok() && p < |u.ps| && !(e.Feedback? && e.proc == p && Awaited(u, p))
    ensures Apply(u, e, maxRetx).ps[p].retxCount == u.ps[p].retxCount
  {
  }

  lemma CountStep(u: Entity, e: Event, p: nat, log: seq<Answer>, maxRetx: nat)
    requires u.Ok() && p < |u.ps| && maxRetx > 0 && CountTells(u, p, log, maxRetx)
    ensures CountTells(Apply(u, e, maxRetx), p, log + OwnAnswer(u, e, p, maxRetx), maxRetx)
  {
    var own, r := OwnAnswer(u, e, p, maxRetx), Apply(u, e, maxRetx);
    if e.Feedback? && e.proc == p && Awaited(u, p) {
      assert r.ps[p] == FeedbackOn(u.ps[p], e.ack, maxRetx);
      LogGrows(log, own[0]);
    } else {
      assert own == [] && log + own == log;
      SameCount(u, e, p, maxRetx);
    }
  }

  /** In every run retx_count is the number of NACKs since the last ACK, whatever block
      they were for, and it has reached MAX_RETX exactly if one of them was final. */
  lemma {:induction false} CountIsNacksSinceAck(n: nat, es: seq<Event>, p: nat, maxRetx: nat)
    requires p < n && maxRetx > 0
    ensures var count, log := Run(Idle(n), es, maxRetx).ps[p].retxCount, Answers(Idle(n), es, p, maxRetx);
            && count == NacksSinceAck(log)
            && (count >= maxRetx <==> FailedSinceAck(log))
  {
    if es != [] {
      var init := es[..|es| - 1];
      CountIsNacksSinceAck(n, init, p, maxRetx);
      CountStep(Run(Idle(n), init, maxRetx), es[|es| - 1], p, Answers(Idle(n), init, p, maxRetx), maxRetx);
    }
  }

  /** In no state of the run does p have two transmissions in flight. */
  predicate OneAtATime(u: Entity, es: seq<Event>, p: nat, maxRetx: nat)
    requires u.Ok() && p < |u.ps|
  {
    (es == [] || OneAtATime(u, es[..|es| - 1], p, maxRetx)) && Run(u, es, maxRetx).inFlight[p] <= 1
  }

  /** Freed by a final failure, with the old block pending or in the air. */
  predicate FailedAt(p: Process, inFlight: nat, maxRetx: nat) {
    inFlight <= 1 && !p.active && p.retxCount >= maxRetx && (p.pendingRetx <==> inFlight == 0)
  }

  lemma ProcessStep(u: Entity, e: Event, p: nat, maxRetx: nat)
    requires u.Ok() && p < |u.ps|
    requires InOrderAt(u.ps[p], u.inFlight[p]) || FailedAt(u.ps[p], u.inFlight[p], maxRetx)
    requires Apply(u, e, maxRetx).inFlight[p] <= 1
    ensures var r := Apply(u, e, maxRetx);
            InOrderAt(r.ps[p], r.inFlight[p]) || FailedAt(r.ps[p], r.inFlight[p], maxRetx)
  {
  }

  lemma {:induction false} InOrderOrFailed(n: nat, es: seq<Event>, p: nat, maxRetx: nat)
    requires p < n && OneAtATime(Idle(n), es, p, maxRetx)
    ensures var r := Run(Idle(n), es, maxRetx);
            InOrderAt(r.ps[p], r.inFlight[p]) || FailedAt(r.ps[p], r.inFlight[p], maxRetx)
  {
    if es != [] {
      InOrderOrFailed(n, es[..|es| - 1], p, maxRetx);
      ProcessStep(Run(Idle(n), es[..|es| - 1], maxRetx), es[|es| - 1], p, maxRetx);
    }
  }

  /** In every run, up to and including the first block that p starts with an old
      transmission of its own in the air: a new block starts with count 0 exactly if p
      has not failed for good since its last ACK, and exactly if nothing of p is in the
      air; otherwise its first NACK is final. */
  lemma NewBlockStartsCleanIff(n: nat, es: seq<Event>, p: nat, hasData: bool, maxRetx: nat)
    requires p < n && maxRetx > 0 && OneAtATime(Idle(n), es, p, maxRetx)
    requires Choose(Run(Idle(n), es, maxRetx).ps, hasData) == SendNew(p)
    ensures var r, log := Run(Idle(n), es, maxRetx), Answers(Idle(n), es, p, maxRetx);
            var next := Apply(r, Schedule(hasData), maxRetx);
            && (r.ps[p].retxCount == 0 <==> !FailedSinceAck(log))
            && (r.ps[p].retxCount == 0 <==> r.inFlight[p] == 0)
            && (maxRetx > 1 ==> (FinalFailure(next, Feedback(p, false), maxRetx) <==> FailedSinceAck(log)))
  {
    CountIsNacksSinceAck(n, es, p, maxRetx);
    InOrderOrFailed(n, es, p, maxRetx);
    var r := Run(Idle(n), es, maxRetx);
    assert !Active(r.ps)[p];
  }

  /** After such an overlap the first half of this no longer holds: an ACK for one of the
      two transmissions and a NACK for the other leave a freed process with count 1,
      although nothing has failed for good since the ACK. */
  lemma OverlapLeavesACount(u: Entity, p: nat, maxRetx: nat)
    requires u.Ok() && p < |u.ps| && u.inFlight[p] == 2 && maxRetx > 1
    ensures var acked := Apply(u, Feedback(p, true), maxRetx);
            var r := Apply(acked, Feedback(p, false), maxRetx);
            && !FinalFailure(acked, Feedback(p, false), maxRetx)
            && r.ps[p].retxCount == 1 && !r.ps[p].active && r.ps[p].pendingRetx && r.inFlight[p] == 0
  {
  }

  // ---------------------------------------------------- redundancy versions

  /** What a scheduling decision puts on the air: the process and its redundancy version. */
  datatype Sending = Sending(proc: nat, rv: nat, isNew: bool)

  function OnAir(u: Entity, e: Event): (r: Option<Sending>)
    requires u.Ok()
    ensures r.Some? ==> r.value.proc < |u.ps|
  {
    if e.Feedback? then None else
    var ps := Scheduled(u.ps, e.hasData);
    match Choose(u.ps, e.hasData)
    case Nothing => None
    case Retransmit(p) => Some(Sending(p, ps[p].rv, false))
    case SendNew(p) => Some(Sending(p, ps[p].rv, true))
  }

  predicate Sends(u: Entity, e: Event, p: nat, isNew: bool)
    requires u.Ok()
  {
    OnAir(u, e).Some? && OnAir(u, e).value.proc == p && OnAir(u, e).value.isNew == isNew
  }

  /** The scheduling order: the lowest pending retransmission first; new data only if nothing
      is pending and there is some, on the lowest process that owns no block; nothing at all
      only if nothing is pending and there is no data or no such process. */
  lemma SchedulingOrder(u: Entity, hasData: bool)
    requires u.Ok()
    ensures var r := OnAir(u, Schedule(hasData));
            && (forall j :: 0 <= j < |u.ps| && u.ps[j].pendingRetx ==> r.Some? && !r.value.isNew && r.value.proc <= j)
            && (r.Some? && !r.value.isNew ==> u.ps[r.value.proc].pendingRetx)
            && (r.Some? && r.value.isNew ==>
                  hasData && !u.ps[r.value.proc].active && forall j :: 0 <= j < r.value.proc ==> u.ps[j].active)
            && (r.None? ==> !hasData || forall j :: 0 <= j < |u.ps| ==> u.ps[j].active)
  {
    assert forall j :: 0 <= j < |u.ps| ==> Active(u.ps)[j] == u.ps[j].active;
  }

  /** How often p has sent its current block again. */
  function Repeats(u: Entity, es: seq<Event>, p: nat, maxRetx: nat): nat
    requires u.Ok()
  {
    if es == [] then 0 else
    var before := Run(u, es[..|es| - 1], maxRetx);
    var k := Repeats(u, es[..|es| - 1], p, maxRetx);
    if Sends(before, es[|es| - 1], p, true) then 0
    else if Sends(before, es[|es| - 1], p, false) then k + 1
    else k
  }

  /** p has sent a new block, and in every state since then it was in step. */
  predicate InStepSinceNew(u: Entity, es: seq<Event>, p: nat, maxRetx: nat)
    requires u.Ok() && p < |u.ps|
  {
    && es != []
    && (Sends(Run(u, es[..|es| - 1], maxRetx), es[|es| - 1], p, true) || InStepSinceNew(u, es[..|es| - 1], p, maxRetx))
    && InOrderAt(Run(u, es, maxRetx).ps[p], Run(u, es, maxRetx).inFlight[p])
  }

  /** The version last sent, or with a retransmission pending the one to send next. */
  predicate RvFits(p: Process, k: nat) {
    p.active ==> p.rv == RV_ORDER[(if p.pendingRetx then k + 1 else k) % 4]
  }

  lemma RvStep(u: Entity, e: Event, p: nat, k: nat, maxRetx: nat)
    requires u.Ok() && p < |u.ps|
    requires Sends(u, e, p, true) || (RvFits(u.ps[p], k) && InOrderAt(u.ps[p], u.inFlight[p]))
    requires var r := Apply(u, e, maxRetx); InOrderAt(r.ps[p], r.inFlight[p])
    ensures RvFits(Apply(u, e, maxRetx).ps[p],
                   if Sends(u, e, p, true) then 0 else if Sends(u, e, p, false) then k + 1 else k)
  {
    NextRvFollowsOrder(k);
  }

  lemma {:induction false} RvCountsRepeats(n: nat, es: seq<Event>, p: nat, maxRetx: nat)
    requires p < n && InStepSinceNew(Idle(n), es, p, maxRetx)
    ensures RvFits(Run(Idle(n), es, maxRetx).ps[p], Repeats(Idle(n), es, p, maxRetx))
  {
    var init := es[..|es| - 1];
    var u := Run(Idle(n), init, maxRetx);
    if !Sends(u, es[|es| - 1], p, true) {
      RvCountsRepeats(n, init, p, maxRetx);
    }
    RvStep(u, es[|es| - 1], p, Repeats(Idle(n), init, p, maxRetx), maxRetx);
  }

  /** In every run a new block goes out with redundancy version 0, and the k-th
      retransmission of a block, if its process has been in step since the block was
      started, with entry k mod 4 of 0, 2, 3, 1. */
  lemma RvOnTheAir(n: nat, es: seq<Event>, e: Event, p: nat, maxRetx: nat)
    ensures var u := Run(Idle(n), es, maxRetx);
            && (Sends(u, e, p, true) ==> OnAir(u, e).value.rv == 0)
            && (p < n && Sends(u, e, p, false) && InStepSinceNew(Idle(n), es, p, maxRetx) ==>
                  OnAir(u, e).value.rv == [0, 2, 3, 1][(Repeats(Idle(n), es, p, maxRetx) + 1) % 4])
  {
    var u := Run(Idle(n), es, maxRetx);
    if p < n && Sends(u, e, p, false) && InStepSinceNew(Idle(n), es, p, maxRetx) {
      RvCountsRepeats(n, es, p, maxRetx);
      assert u.ps[p].pendingRetx && InOrderAt(u.ps[p], u.inFlight[p]);
    }
  }

  /** The process after k transmissions in a row were answered with NACK. */
  function AfterNacks(p: Process, k: nat, maxRetx: nat): Process {
    if k == 0 then p else FeedbackOn(AfterNacks(p, k - 1, maxRetx).(pendingRetx := false), false, maxRetx)
  }

  /** A block on an active process with count c survives k > 0 NACKs exactly when
      c + k < MAX_RETX. */
  lemma {:induction false} SurvivesNacksIff(p: Process, k: nat, maxRetx: nat)
    requires p.active && k > 0
    ensures AfterNacks(p, k, maxRetx).active <==> p.retxCount + k < maxRetx
    ensures AfterNacks(p, k, maxRetx).retxCount == p.retxCount + k
  {
    if k > 1 {
      SurvivesNacksIff(p, k - 1, maxRetx);
    } else {
      assert AfterNacks(p, 0, maxRetx) == p;
    }
  }
}
