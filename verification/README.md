# Verified models of the protocol code in the interview notes

The repository is a collection of networking and telecom notes with compilable C
programs and C/C++ listings. This project models the listings that carry real
protocol state or arithmetic and proves what they are for, for every input, every
run or every reachable state.

| file | component |
|---|---|
| `Rlc.dfy`, `RlcProtocol.dfy` | RLC acknowledged mode: both endpoints, and the whole protocol over lossy channels |
| `Pdcp.dfy`, `PdcpRuns.dfy`, `PdcpAsWritten.dfy` | PDCP reordering and duplication over two paths; the listing taken literally |
| `PfScheduler.dfy`, `PfBestOnly.dfy` | proportional-fair scheduling: both listings; whom the first one serves |
| `PfFairness.dfy`, `PfEpsilon.dfy`, `PfRoundRobin.dfy`, `PfStarvation.dfy` | the second: bounded waiting, the exact EPSILON, who starves |
| `HarqNdi.dfy`, `HarqEntity.dfy` | New Data Indicator; HARQ processes, feedback and the bitmap search |
| `Lcp.dfy` | logical channel prioritization |
| `Rach.dfy` | random access and contention resolution |
| `OnesComplement.dfy`, `Checksum.dfy`, `IpHeader.dfy` | the Internet checksum |
| `Esp.dfy`, `ReplayWindow.dfy` | ESP security-association database and anti-replay |
| `LinkedList.dfy`, `Containers.dfy` | pointer and buffer structures |
| `Option.dfy`, `Words.dfy`, `Reals.dfy`, `Sums.dfy`, `FiniteSets.dfy` | shared types and arithmetic |

Code that changes state is modelled as classes and loops. Each method is specified by
a function on the abstract state, and the theorems about runs are about those
functions. In the run models an event that is not enabled changes nothing, so the
theorems range over every list of events.

## Where code and notes need reading with care

Findings about the code as it stands. Each is a lemma with a concrete case and the exact
condition under which the code does what it should:

- PDCP `on_pdu_received` computes `RX_DELIV - WINDOW_SIZE/2` on `uint32_t` and never
  advances RX_NEXT. A fresh receiver never delivers anything, so RX_DELIV stays 0;
  and a receiver set up past the wrap from outside, which no fresh one reaches, delivers up to
  the first lost PDU and then stalls for good (`PdcpAsWritten`). The main model advances
  RX_NEXT and discards COUNT < RX_DELIV, as section 5.2.2.1 of TS 38.323 says; it keeps the
  listing's choice not to stop a running timer.
- `on_harq_feedback` leaves `pending_retx` and `retx_count` set on the final failure: the
  freed process is retransmitted, and a new block can start on it while the old one is in the
  air. That block starts with the old count, and fails on its first NACK, exactly if no ACK
  came since the failure. Once two blocks of a process are in the air the count is only the
  number of NACKs since the last ACK, whichever block they were for.
- LCP phase 1 charges a channel for more than it has queued, which wastes grant.
- The first proportional-fair listing ages only the chosen UE. A UE is served again and again
  exactly if either its average is below its actual rate and no UE with data outlasts it
  (has a lowest metric above the one service takes it down to), or its average is not below
  and everyone ahead of it tends to a lower metric. With agreeing rates that is: its metric
  exceeds 1 or it is the first choice. All others starve, some after a first service.
- The second listing serves a UE for good, for every EPSILON up to some positive bound,
  exactly if every rival, that is every UE of a higher rate, or of its rate and a lower index,
  has a positive `actual_rate`; with one window for all those EPSILON, exactly if every other
  UE of positive rate has. With q = 1 - alpha, at most m rivals, and a share of its rate that
  every rival's `actual_rate` reaches, the exact bound over all starting states, rivals and
  backlogs is EPSILON * (1 + q + ... + q^(m-1)) < share * rate * q^(m-1). An EPSILON that
  never clamps the waiting UE gives a window of c + n TTIs with c explicit.
- `check_replay` refuses every late packet, inside the window or not, so the documented
  64-entry window accepts strictly more.
- The 32-bit checksum accumulator wraps from 65538 words on.
- NDI is one bit: a whole block lost unnoticed makes the receiver combine two blocks.

Readings chosen where the text is open:

- `TX_Next_Ack` is commented "Highest acked"; it is used as the lowest unacknowledged SN.
- The notes say that after t-Reassembly expiry the receiver moves on; the handler does not
  touch RX_Next, and the model follows the handler. `t_reassembly_target`, never assigned in
  the listing, is the SN that started the timer.
- `schedule_retransmission` is taken to clear `pending_retx`, `fill_pdu_with_lc` to move at
  most what is queued, `deliver_in_order_until` as section 5.2.2.2 of TS 38.323 describes.
- The states the RACH listing elides come from the failure handlers in the RACH notes, all
  with the retry limit of `process_event`; `msg3_transmit` stops at `>=`, as coded.
- A channel is the set of messages put on it and not yet lost: a message can arrive any number
  of times, in any order and arbitrarily late.
- Host order is little-endian. `validate_checksum` covers exactly 20 bytes.

## Model

| member | source | states |
|---|---|---|
| `Rlc.AmReceiver.OnPduReceived` | interview-prep/L2-MAC-Telecom/03_RLC_LAYER_DEEP.md:425-443 | A PDU already delivered or stored is discarded; otherwise it is stored, t-Reassembly is started for an out-of-order arrival and stopped once its target is passed, and everything consecutive is delivered: the new state is `OnPdu` of the old one. |
| `Rlc.AmReceiver.DeliverConsecutive` | interview-prep/L2-MAC-Telecom/03_RLC_LAYER_DEEP.md:253-258 | The delivery loop, in place, computes `DeliverInOrder`. |
| `Rlc.DeliverInOrderStops` | interview-prep/L2-MAC-Telecom/03_RLC_LAYER_DEEP.md:253-258 | Delivery stops at the first missing SN, hands up exactly the stored SDUs before it in SN order, and keeps the rest of the buffer unchanged. |
| `Rlc.OnPduReceives` | interview-prep/L2-MAC-Telecom/03_RLC_LAYER_DEEP.md:241-246 | An SN counts as received after an arrival exactly if it did before or has just arrived. |
| `Rlc.ReceptionIs` | interview-prep/L2-MAC-Telecom/03_RLC_LAYER_DEEP.md:425-443 | In every state: what was received before changes nothing; otherwise the PDU is stored, delivery goes to the first missing SN, a running timer keeps its target, and the timer runs afterwards exactly if it ran or the PDU was out of order, and the target is not passed. |
| `Rlc.AmReceiver.BuildStatus` | interview-prep/L2-MAC-Telecom/03_RLC_LAYER_DEEP.md:451-454 | The scan computes the report: ACK_SN one past the highest SN received, the NACK list exactly the missing SNs below it. |
| `Rlc.ReportIsUnique` | interview-prep/L2-MAC-Telecom/03_RLC_LAYER_DEEP.md:451-454 | A receiver state admits only one such report. |
| `Rlc.AmReceiver.OnReassemblyExpiry` | interview-prep/L2-MAC-Telecom/03_RLC_LAYER_DEEP.md:284-287 | Expiry stops the timer, moves nothing, and yields the current report. |
| `Rlc.AmSender.SendSdu` | interview-prep/L2-MAC-Telecom/03_RLC_LAYER_DEEP.md:133-141 | The SDU takes the next SN and is kept for retransmission if the window has room; with a full window nothing changes. |
| `Rlc.AmSender.OnStatusReceived` | interview-prep/L2-MAC-Telecom/03_RLC_LAYER_DEEP.md:331-336 | Acknowledged PDUs are released, those reported missing and still held are sent again lowest SN first, TX_Next_Ack moves to the lowest PDU still held. |
| `Rlc.AmSender.RetransmitNacked` | interview-prep/L2-MAC-Telecom/03_RLC_LAYER_DEEP.md:335 | Exactly the held PDUs on the NACK list, with their own SDUs, in SN order. |
| `Rlc.AmSender.ReleaseAcked` | interview-prep/L2-MAC-Telecom/03_RLC_LAYER_DEEP.md:336 | Exactly the PDUs below ACK_SN and not on the NACK list leave the buffer; the window variables stay. |
| `Rlc.AmSender.RetransmitOldest` | interview-prep/L2-MAC-Telecom/03_RLC_LAYER_DEEP.md:299-303 | Poll-retransmit expiry sends the unacknowledged PDU with the lowest SN. |
| `RlcProtocol.StepKeepsInv` | interview-prep/L2-MAC-Telecom/03_RLC_LAYER_DEEP.md:425-443 | Every event of sender, receiver and both lossy channels keeps the protocol invariant: genuine PDUs in flight and in the buffers, acknowledgements only for what was received, window inequalities. |
| `RlcProtocol.DeliveredIsPrefixOfSubmitted` | interview-prep/L2-MAC-Telecom/03_RLC_LAYER_DEEP.md:241-257 | In every run over channels that lose, duplicate and reorder, what PDCP received is a prefix of what the sender accepted. |
| `RlcProtocol.AcknowledgementsAreSound` | interview-prep/L2-MAC-Telecom/03_RLC_LAYER_DEEP.md:329-343 | In every run TX_Next_Ack <= RX_Next <= TX_Next <= TX_Next_Ack + window; a PDU leaves the transmit buffer only if the receiver has it; an empty transmit buffer means everything was delivered. |
| `RlcProtocol.ReceiverBufferFitsWindow` | interview-prep/L2-MAC-Telecom/03_RLC_LAYER_DEEP.md:147-152 | Stored PDUs always lie strictly between RX_Next and RX_Next + window. |
| `RlcProtocol.ReassemblyTimerMeansGap` | interview-prep/L2-MAC-Telecom/03_RLC_LAYER_DEEP.md:275-281 | In every run, while t-Reassembly runs the gap is still open and RX_Next is reported missing. |
| `RlcProtocol.TimerFollowsGap` | interview-prep/L2-MAC-Telecom/03_RLC_LAYER_DEEP.md:425-443 | In every run reception starts t-Reassembly exactly for a new out-of-order PDU while it is not running, and stops it exactly when the target has been delivered. |
| `RlcProtocol.ReportedGapsAreSentAgain` | interview-prep/L2-MAC-Telecom/03_RLC_LAYER_DEEP.md:342 | When the current report reaches the sender, every SN below its ACK_SN that the receiver misses is on the air again with the SDU submitted under it. |
| `RlcProtocol.ReportSynchronises` | interview-prep/L2-MAC-Telecom/03_RLC_LAYER_DEEP.md:329-343 | When the current report reaches the sender its transmit buffer is exactly the SNs the receiver misses, TX_Next_Ack is RX_Next, and exactly the SNs missed below ACK_SN are new on the air, each with its SDU. |
| `RlcProtocol.StatusRoundTrip` | interview-prep/L2-MAC-Telecom/03_RLC_LAYER_DEEP.md:284-287 | The same in every run, for a STATUS on request and for the one on expiry of t-Reassembly, which also stops the timer. |
| `RlcProtocol.WholeWindowIsUsable` | interview-prep/L2-MAC-Telecom/03_RLC_LAYER_DEEP.md:133-152 | In every run the sender takes, of any further SDUs, exactly as many as fit between TX_Next and TX_Next_Ack + window, each on the air under the next SN. |
| `RlcProtocol.RecoverOldestWorks` | interview-prep/L2-MAC-Telecom/03_RLC_LAYER_DEEP.md:299-303 | A poll-retransmit round that gets through releases at least the oldest outstanding PDU and submits nothing new. |
| `RlcProtocol.CanAlwaysDrain` | interview-prep/L2-MAC-Telecom/03_RLC_LAYER_DEEP.md:329-343 | From every state of the invariant at most four events per outstanding PDU, none a new submission, lead to an empty transmit buffer with everything delivered: no deadlock. |
| `RlcProtocol.ReachableCanDrain` | interview-prep/L2-MAC-Telecom/03_RLC_LAYER_DEEP.md:329-343 | The same from every state a run can reach. |
| `Pdcp.PdcpReceiver.OnPduReceived` | interview-prep/L2-MAC-Telecom/04_PDCP_LAYER_DEEP.md:177-207 | In place: discard a duplicate or a COUNT below RX_DELIV, store, advance RX_NEXT, deliver consecutively, start t-Reordering if something is held back and it is not running; a running timer keeps its RX_REORD. |
| `Pdcp.PdcpReceiver.DeliverConsecutive` | interview-prep/L2-MAC-Telecom/04_PDCP_LAYER_DEEP.md:195-198 | The delivery loop, in place, computes `DeliverInOrder`. |
| `Pdcp.PdcpReceiver.OnReorderingExpiry` | interview-prep/L2-MAC-Telecom/04_PDCP_LAYER_DEEP.md:209-218 | In place: deliver everything stored below RX_REORD, then consecutively, then restart the timer if something is still held back. |
| `Pdcp.DeliverInOrderDelivers` | interview-prep/L2-MAC-Telecom/04_PDCP_LAYER_DEEP.md:195-198 | Consecutive delivery hands up stored PDUs in order, loses and alters none, passes no missing COUNT and stops at one. |
| `Pdcp.FlushDelivers` | interview-prep/L2-MAC-Telecom/04_PDCP_LAYER_DEEP.md:211 | Forced delivery moves RX_DELIV to the target, handing up every stored PDU below it in order. |
| `Pdcp.OnPduKeepsInv` | interview-prep/L2-MAC-Telecom/04_PDCP_LAYER_DEEP.md:177-207 | Reception keeps the invariant (ordered log, timer running whenever something is held back) and holds exactly what was held plus the PDU unless it is discarded. |
| `Pdcp.OnExpiryKeepsInv` | interview-prep/L2-MAC-Telecom/04_PDCP_LAYER_DEEP.md:209-218 | Expiry keeps the invariant, loses nothing stored, passes RX_REORD, and gives up on no missing COUNT from RX_REORD on. |
| `Pdcp.ReceptionIs` | interview-prep/L2-MAC-Telecom/04_PDCP_LAYER_DEEP.md:177-207 | In every state: what is stored, delivered and kept; a running timer and its RX_REORD are left alone, one not running starts exactly if RX_DELIV < RX_NEXT, with RX_REORD = RX_NEXT. |
| `Pdcp.ExpiryIs` | interview-prep/L2-MAC-Telecom/04_PDCP_LAYER_DEEP.md:209-218 | In every state: what is delivered and kept; the timer runs on exactly if RX_DELIV < RX_NEXT, with a new RX_REORD. |
| `PdcpRuns.StepKeepsNetInv` | interview-prep/L2-MAC-Telecom/04_PDCP_LAYER_DEEP.md:252-260 | Every event of transmitter, both paths, receiver and timer keeps the end-to-end invariant. |
| `PdcpRuns.DeliversOnceInOrder` | interview-prep/L2-MAC-Telecom/04_PDCP_LAYER_DEEP.md:269-297 | For any interleaving of two lossy, duplicating, reordering paths and timer expiries, delivered COUNTs strictly increase and each carries the SDU sent under it. |
| `PdcpRuns.HeldBackMeansTimerRuns` | interview-prep/L2-MAC-Telecom/04_PDCP_LAYER_DEEP.md:200-206 | In every run something is stored exactly if RX_DELIV < RX_NEXT, and then t-Reordering runs. |
| `PdcpRuns.ExpiryGivesUpOnOldGaps` | interview-prep/L2-MAC-Telecom/04_PDCP_LAYER_DEEP.md:200-218 | In every run an expiry gives up on exactly the missing COUNTs below the RX_NEXT of the moment its timer was started. |
| `PdcpRuns.DuplicateSurvivesEitherLoss` | interview-prep/L2-MAC-Telecom/04_PDCP_LAYER_DEEP.md:252-260 | In every run a PDU just transmitted still arrives after a loss on one path if and only if it was duplicated or the loss was on the other path. |
| `PdcpRuns.NoExpiryDeliversGapFreePrefix` | interview-prep/L2-MAC-Telecom/04_PDCP_LAYER_DEEP.md:194-198 | Without an expiry the delivered sequence is exactly the COUNTs before the first one that arrived on neither path, gap-free. |
| `PdcpRuns.OnePathSuffices` | interview-prep/L2-MAC-Telecom/04_PDCP_LAYER_DEEP.md:225-226 | If every COUNT got through on at least one path and no expiry came, everything sent is delivered once and in order. |
| `PdcpRuns.StepKeepsWait` | interview-prep/L2-MAC-Telecom/04_PDCP_LAYER_DEEP.md:209-218 | A stored PDU stays stored or is delivered, and each expiry uses up one of the at most two it may wait for. |
| `PdcpRuns.DeliveredBySecondExpiry` | interview-prep/L2-MAC-Telecom/04_PDCP_LAYER_DEEP.md:209-218 | A PDU stored in any reachable state is delivered by the second expiry that follows, whatever else happens. |
| `PdcpAsWritten.WindowTestIsRightIff` | interview-prep/L2-MAC-Telecom/04_PDCP_LAYER_DEEP.md:181-182 | The uint32_t window test means what it says exactly if RX_DELIV >= WINDOW_SIZE/2 or the SN lies beyond the wrapped bound. |
| `PdcpAsWritten.FreshReceiverTakesNothing` | interview-prep/L2-MAC-Telecom/04_PDCP_LAYER_DEEP.md:177-185 | With the listed test a receiver starting at 0 delivers nothing and never moves RX_DELIV, for every stream of 32-bit SNs; it stores only SNs in the last half window below 2^32. |
| `PdcpAsWritten.OneLossStallsForever` | interview-prep/L2-MAC-Telecom/04_PDCP_LAYER_DEEP.md:194-206 | With RX_NEXT never advanced a PDU that arrived is delivered if and only if every COUNT before it arrived too, and the timer never runs. |
| `PfScheduler.Best` | interview-prep/L2-MAC-Telecom/05_MAC_SCHEDULER.md:130-142 | The scan over the metrics finds the first of the greatest positive ones, -1 only if none is positive. |
| `PfScheduler.BestIsUnique` | interview-prep/L2-MAC-Telecom/05_MAC_SCHEDULER.md:130-142 | No other index is the first of the greatest positive metrics: the selection is determined. |
| `PfScheduler.Chosen` | interview-prep/L2-MAC-Telecom/05_MAC_SCHEDULER.md:430-441 | Second listing: the chosen UE has data and the greatest positive priority, the first such; -1 only if no UE with data has a positive one. |
| `PfScheduler.AgedStaysBetween` | interview-prep/L2-MAC-Telecom/05_MAC_SCHEDULER.md:443-448 | The average moves strictly towards the rate of this TTI (zero if not scheduled) without reaching it, its distance shrinking by 1 - alpha; nothing else changes. |
| `PfScheduler.SelectPf` | interview-prep/L2-MAC-Telecom/05_MAC_SCHEDULER.md:130-149 | The selection loop over the UE array, with the second listing's priority, computes `Chosen`. |
| `PfScheduler.ScheduleTti` | interview-prep/L2-MAC-Telecom/05_MAC_SCHEDULER.md:433-448 | Second listing, one TTI in place: select on the old averages, then age the average of every UE. |
| `PfScheduler.SelectPfAndAge` | interview-prep/L2-MAC-Telecom/05_MAC_SCHEDULER.md:117-157 | First listing, one TTI in place: select by the unclamped metric, then age the chosen UE only. |
| `PfScheduler.DecaysBelow` | interview-prep/L2-MAC-Telecom/05_MAC_SCHEDULER.md:443-448 | Without service an average falls below any positive target, within avg / target / alpha + 1 TTIs. |
| `PfFairness.StaysBehind` | interview-prep/L2-MAC-Telecom/05_MAC_SCHEDULER.md:133-142 | A UE whose priority is below that of a waiting UE and that is not scheduled stays below it after ageing. |
| `PfFairness.FallsBehind` | interview-prep/L2-MAC-Telecom/05_MAC_SCHEDULER.md:443-448 | A UE just scheduled falls below a waiting UE whose average is under its floor: alpha times the share of its rate that service puts into the average. |
| `PfFairness.BoundedWaiting` | interview-prep/L2-MAC-Telecom/05_MAC_SCHEDULER.md:419-429 | If c idle TTIs bring its average under its floor, a UE with data is chosen within c + n TTIs, whatever data the other n-1 UEs have, as long as its average stays at or above EPSILON. |
| `PfFairness.ServedInEveryWindow` | interview-prep/L2-MAC-Telecom/05_MAC_SCHEDULER.md:419-449 | With EPSILON at most what n idle TTIs leave of its floor and of its first average, every window of c + n TTIs of every run in which it has data contains a service of the UE. |
| `PfFairness.ServedForGood` | interview-prep/L2-MAC-Telecom/05_MAC_SCHEDULER.md:430-449 | The same from a starting state, with the window bounded by top / floor / alpha + 1 + n, top being the larger of its average and its actual rate. |
| `PfFairness.OneWindowServes` | interview-prep/L2-MAC-Telecom/05_MAC_SCHEDULER.md:160-163 | If every UE of positive rate has a positive actual rate, one window serves for every EPSILON up to a positive bound: a UE of positive rate is served in every such window of every run in which it has data. |
| `PfEpsilon.ChosenIsLow` | interview-prep/L2-MAC-Telecom/05_MAC_SCHEDULER.md:430-441 | Who is chosen over a UE clamped to EPSILON is a rival (a higher rate, or the same and a lower index) and its own average is low. |
| `PfEpsilon.EpsSufficesServes` | interview-prep/L2-MAC-Telecom/05_MAC_SCHEDULER.md:433-448 | From every state, for a UE in any place, some window length serves it in every window of every run in which it has data, if EPSILON * (1 + q + ... + q^(m-1)) < share * rate * q^(m-1), for q = 1 - alpha and at most m rivals whose actual_rate is at least the share of their rate. |
| `PfEpsilon.SmallCases` | interview-prep/L2-MAC-Telecom/05_MAC_SCHEDULER.md:433-448 | With alpha = 0.1 the bound is share * rate beside one rival, and 9/19 of it beside two. |
| `PfRoundRobin.EpsTooLargeStarves` | interview-prep/L2-MAC-Telecom/05_MAC_SCHEDULER.md:433-448 | Otherwise there are m competitors, served in turn, between whom the UE is never chosen in any place although everyone always has data. |
| `PfRoundRobin.NeverStarvesIff` | interview-prep/L2-MAC-Telecom/05_MAC_SCHEDULER.md:160-163 | The exact EPSILON: a UE in any place never starves, whatever the starting state, the at most m rivals and the backlogs, if and only if EPSILON is below that bound. |
| `PfStarvation.NoUeStarvesIff` | interview-prep/L2-MAC-Telecom/05_MAC_SCHEDULER.md:160-163 | From a given starting state a UE of positive rate never starves for every EPSILON up to some positive bound, if and only if every rival of it has a positive actual_rate. |
| `PfStarvation.OneWindowIff` | interview-prep/L2-MAC-Telecom/05_MAC_SCHEDULER.md:160-163 | One window length serves for all those EPSILON if and only if every other UE of positive rate, rival or not, has a positive actual_rate. |
| `PfStarvation.DeadRivalStarves` | interview-prep/L2-MAC-Telecom/05_MAC_SCHEDULER.md:443-448 | Beside a rival with actual_rate 0, whatever the priorities were: once the rival's average has decayed to EPSILON the UE is chosen in no TTI in which the rival has data. |
| `PfStarvation.DeadRateStarves` | interview-prep/L2-MAC-Telecom/05_MAC_SCHEDULER.md:443-448 | If that rival has the higher rate and priority from the start and always has data, the UE is never chosen at all. |
| `PfStarvation.DeadRateExample` | interview-prep/L2-MAC-Telecom/05_MAC_SCHEDULER.md:443-448 | So, for one: a UE served in full is never chosen beside one of twice its rate and no actual_rate. |
| `PfStarvation.ClampedUeStarves` | interview-prep/L2-MAC-Telecom/05_MAC_SCHEDULER.md:437-438 | Any number of UEs and any backlogs: a UE whose rate is below EPSILON is never chosen while another with a rate of at least EPSILON, and an average within it, always has data. |
| `PfBestOnly.BestOnlyServesForGoodIff` | interview-prep/L2-MAC-Telecom/05_MAC_SCHEDULER.md:117-163 | First listing, any rates and averages: a UE is chosen again and again if and only if it has data and a positive rate and, if its average is below its actual rate, no other UE with data outlasts it; if not, everyone ahead of it in the first TTI tends to a metric below its own. |
| `PfBestOnly.BestOnlyServesIff` | interview-prep/L2-MAC-Telecom/05_MAC_SCHEDULER.md:117-163 | The step towards it: a UE is chosen at least once if and only if it has data and a positive rate and everyone ahead of it in the first TTI tends to a metric below its own. |
| `PfBestOnly.MetricAboveOneIff` | interview-prep/L2-MAC-Telecom/05_MAC_SCHEDULER.md:117-163 | First listing, with the rates agreeing: a UE is chosen again and again, and even once, if and only if its metric exceeds 1 or it is the first choice. |
| `PfBestOnly.BestOnlyStarves` | interview-prep/L2-MAC-Telecom/05_MAC_SCHEDULER.md:144-163 | So, for one, a UE with half the metric of another is never chosen. |
| `PfBestOnly.ChosenOnceThenStarves` | interview-prep/L2-MAC-Telecom/05_MAC_SCHEDULER.md:144-163 | And the first choice can starve after it has been served. |
| `HarqNdi.NdiSender.Transmit` | interview-prep/L2-MAC-Telecom/07_RACH_HARQ.md:836-842 | New data toggles NDI and starts with RV 0; a retransmission keeps NDI and takes the next RV. |
| `HarqNdi.NdiReceiver.OnTransmission` | interview-prep/L2-MAC-Telecom/07_RACH_HARQ.md:847-855 | A changed NDI replaces the soft buffer and is remembered; an unchanged one is combined. |
| `HarqNdi.RvCycle` | interview-prep/L2-MAC-Telecom/07_RACH_HARQ.md:460 | Four transmissions in a row use each redundancy version once. |
| `HarqNdi.RvOnTheAir` | interview-prep/L2-MAC-Telecom/07_RACH_HARQ.md:836-842 | In every run a new block goes out with RV 0 and its k-th repetition with entry k mod 4 of 0, 2, 3, 1; so it is stored on arrival. |
| `HarqNdi.StepMixesIff` | interview-prep/L2-MAC-Telecom/07_RACH_HARQ.md:823-832 | One transmission mixes two blocks in the soft buffer exactly if it arrives and an even, positive number of blocks was started since the last arrival. |
| `HarqNdi.PureIff` | interview-prep/L2-MAC-Telecom/07_RACH_HARQ.md:836-856 | Over every lossy run the soft buffer never mixes blocks if and only if that never happens. |
| `HarqNdi.WaitingSenderNeverMixes` | interview-prep/L2-MAC-Telecom/07_RACH_HARQ.md:836-856 | If each new block is started only after something of the current one got through, no lossy run with any retransmissions mixes blocks. |
| `HarqNdi.LostBlockHidesTheNext` | interview-prep/L2-MAC-Telecom/07_RACH_HARQ.md:823-832 | Without that, one block lost whole is enough: the next one is combined with the block before. |
| `HarqEntity.FirstFree` | interview-prep/L2-MAC-Telecom/05_MAC_SCHEDULER.md:549-554 | The linear scan: the first process that is not active, -1 exactly if all are. |
| `HarqEntity.MaskUpdate` | interview-prep/L2-MAC-Telecom/07_RACH_HARQ.md:429-432 | Setting or clearing one process's flag changes exactly its bit of the mask. |
| `HarqEntity.BitmapSearchIsLinearScan` | interview-prep/L2-MAC-Telecom/05_MAC_SCHEDULER.md:556-560 | The bitmap search returns what the linear scan returns. |
| `HarqEntity.UeHarq.FindFree` | interview-prep/L2-MAC-Telecom/05_MAC_SCHEDULER.md:556-560 | The bitmap search on the kept mask finds the first free process. |
| `HarqEntity.UeHarq.ScheduleDl` | interview-prep/L2-MAC-Telecom/05_MAC_SCHEDULER.md:468-489 | The lowest process with a pending retransmission goes first; otherwise new data takes the first free process; the mask keeps mirroring the active flags. |
| `HarqEntity.UeHarq.OnHarqFeedback` | interview-prep/L2-MAC-Telecom/05_MAC_SCHEDULER.md:494-513 | The handler as listed, on one process, others untouched; it reports failure exactly on the NACK that reaches MAX_RETX. |
| `HarqEntity.SchedulingOrder` | interview-prep/L2-MAC-Telecom/05_MAC_SCHEDULER.md:468-489 | The lowest pending retransmission first; new data only if nothing is pending and there is data, on the lowest process without a block; nothing only if neither applies. |
| `HarqEntity.RvOnTheAir` | interview-prep/L2-MAC-Telecom/05_MAC_SCHEDULER.md:483-507 | In every run a new block goes out with RV 0, and the k-th retransmission of a block whose process stayed in step with entry k mod 4 of 0, 2, 3, 1. |
| `HarqEntity.InOrderIff` | interview-prep/L2-MAC-Telecom/05_MAC_SCHEDULER.md:494-513 | A step keeps every process in step with its transmissions (active exactly while one is in flight or pending), and keeps "pending implies active", exactly if it is not a final failure. |
| `HarqEntity.OrphansIffFailure` | interview-prep/L2-MAC-Telecom/05_MAC_SCHEDULER.md:494-513 | Over every run no freed process is left with a pending retransmission if and only if no process ever reaches MAX_RETX; then every process stays in step. |
| `HarqEntity.OrphanOverlapsNewBlock` | interview-prep/L2-MAC-Telecom/05_MAC_SCHEDULER.md:468-489 | After a final failure with nothing else pending the next grant retransmits for the process just freed, and if it is the first free one the grant after that puts new data on it while the old block is in the air. |
| `HarqEntity.CountIsNacksSinceAck` | interview-prep/L2-MAC-Telecom/05_MAC_SCHEDULER.md:494-513 | In every run retx_count is the number of NACKs since the last ACK, whatever block they were for, and is at least MAX_RETX exactly if one of them was a final failure. |
| `HarqEntity.NewBlockStartsCleanIff` | interview-prep/L2-MAC-Telecom/05_MAC_SCHEDULER.md:496-507 | In every run in which a process had one transmission in flight at a time, a new block on it starts with count 0 if and only if it has not failed for good since its last ACK, and if and only if nothing of it is in the air; otherwise the block fails on its first NACK. |
| `HarqEntity.OverlapLeavesACount` | interview-prep/L2-MAC-Telecom/05_MAC_SCHEDULER.md:496-507 | After such an overlap an ACK and a NACK leave a freed process with count 1 though nothing failed since the ACK. |
| `HarqEntity.SurvivesNacksIff` | interview-prep/L2-MAC-Telecom/05_MAC_SCHEDULER.md:500-507 | With count c a block survives k NACKs in a row exactly if c + k < MAX_RETX. |
| `Lcp.LcpMac.UpdateBuckets` | interview-prep/L2-MAC-Telecom/05_MAC_SCHEDULER.md:597-604 | Every bucket gains PBR times the time passed, capped at BSD times PBR. |
| `Lcp.LcpMac.PrioritizedPass` | interview-prep/L2-MAC-Telecom/05_MAC_SCHEDULER.md:607-612 | Phase 1 in place, channel by channel in priority order. |
| `Lcp.LcpMac.StrictPass` | interview-prep/L2-MAC-Telecom/05_MAC_SCHEDULER.md:618-624 | Phase 2 in place, breaking off when nothing is available. |
| `Lcp.LcpMac.ServeGrant` | interview-prep/L2-MAC-Telecom/05_MAC_SCHEDULER.md:606-624 | One grant: phase 1, then phase 2 on what is left. |
| `Lcp.BucketsStayInRange` | interview-prep/L2-MAC-Telecom/05_MAC_SCHEDULER.md:597-604 | Every event keeps 0 <= Bj <= BSD * PBR and the configured rates. |
| `Lcp.BucketsFillExactly` | interview-prep/L2-MAC-Telecom/05_MAC_SCHEDULER.md:597-604 | Between grants a bucket holds exactly min(BSD * PBR, Bj + PBR * T) after time T, however T is cut into updates. |
| `Lcp.PrioritizedRateIsGuaranteed` | interview-prep/L2-MAC-Telecom/05_MAC_SCHEDULER.md:643-645 | After time T without a grant, a grant that covers the levels down to a channel gives it the whole bytes of min(BSD * PBR, Bj + PBR * T) in phase 1. |
| `Lcp.NotesExample` | interview-prep/L2-MAC-Telecom/05_MAC_SCHEDULER.md:627-641 | Rates 200 and 100, queues 1000 and 500, one second, a grant of 600: 200 and 100 in phase 1, the other 300 to the first channel. |
| `Lcp.AllocationsAddUp` | interview-prep/L2-MAC-Telecom/05_MAC_SCHEDULER.md:606-624 | The allocations of both phases and the leftover are the grant. |
| `Lcp.GrantCharges` | interview-prep/L2-MAC-Telecom/05_MAC_SCHEDULER.md:606-624 | A grant takes exactly the phase-1 allocation off a bucket, and off the queue what both phases moved. |
| `Lcp.BytesAreConserved` | interview-prep/L2-MAC-Telecom/05_MAC_SCHEDULER.md:606-624 | Over every run what was queued and what came is what grants moved and what is queued. |
| `Lcp.BucketsAreHonoured` | interview-prep/L2-MAC-Telecom/05_MAC_SCHEDULER.md:643-645 | If the grant covers the whole bytes in the buckets down to a channel, phase 1 gives that channel its own and passes on the rest. |
| `Lcp.GrantIsAllDataIff` | interview-prep/L2-MAC-Telecom/05_MAC_SCHEDULER.md:607-612 | Data moved, waste and leftover make up the grant; nothing is wasted if and only if, before the grant, for every channel min(whole bytes in its bucket, grant less the buckets before it) is at most its queue. |
| `Lcp.FullBucketEmptyQueue` | interview-prep/L2-MAC-Telecom/05_MAC_SCHEDULER.md:607-612 | The waste is real: a full bucket with an empty queue can leave the next channel with nothing. |
| `Lcp.LeftoverMeansDrained` | interview-prep/L2-MAC-Telecom/05_MAC_SCHEDULER.md:618-624 | Something is left over only if every queue is empty. |
| `Lcp.PriorityIsStrict` | interview-prep/L2-MAC-Telecom/05_MAC_SCHEDULER.md:618-624 | Phase 2 serves a channel only if every channel of higher priority is drained. |
| `Lcp.PrioritizedRateIsCapped` | interview-prep/L2-MAC-Telecom/05_MAC_SCHEDULER.md:597-612 | Over any run of length T phase 1 gives a channel at most BSD * PBR + PBR * T. |
| `Rach.RachStateMachine.ProcessEvent` | interview-prep/L2-MAC-Telecom/09_CPP_INTERVIEW.md:670-700 | One event on the listed states and those it elides; every failure goes through the shared retry counter. |
| `Rach.RachStateMachine.RetryOrFail` | interview-prep/L2-MAC-Telecom/09_CPP_INTERVIEW.md:689-694 | Give up when the incremented counter exceeds max_retries, else send another preamble. |
| `Rach.FailureStartsOver` | interview-prep/L2-MAC-Telecom/07_RACH_HARQ.md:769-810 | No RAR, Msg3 not acknowledged, no Msg4, or a Msg4 for its TC-RNTI that names another UE: each counts one retry and ends in exactly one more preamble, or in FAILED without one if that is one too many. |
| `Rach.OthersAreIgnored` | interview-prep/L2-MAC-Telecom/09_CPP_INTERVIEW.md:670-700 | Every event that neither fails nor advances the attempt changes nothing, a Msg4 for another TC-RNTI among them. |
| `Rach.SucceedsAfterFailures` | interview-prep/L2-MAC-Telecom/07_RACH_HARQ.md:769-810 | After up to max_retries failed attempts, each failing in any of the four ways, one undisturbed attempt succeeds with its TC-RNTI as C-RNTI. |
| `Rach.Msg3Transmit` | interview-prep/L2-MAC-Telecom/07_RACH_HARQ.md:265-279 | Sends until the first ACK, at least once and at most maxHARQ-Msg3Tx times; it fails exactly if none of those was acknowledged. |
| `Rach.StepKeepsInv` | interview-prep/L2-MAC-Telecom/09_CPP_INTERVIEW.md:670-700 | Every event keeps the tie between retries and preambles, and every state change lowers the lexicographic measure. |
| `Rach.RunIsBounded` | interview-prep/L2-MAC-Telecom/07_RACH_HARQ.md:769-809 | Any run makes at most 4 * max_retries + 5 state changes and sends at most max_retries + 1 preambles; FAILED is reached only after exactly that many. |
| `Rach.BoundIsAttained` | interview-prep/L2-MAC-Telecom/07_RACH_HARQ.md:331-344 | The bound is attained by max_retries + 1 attempts that lose the contention. |
| `Rach.WinnersOnly` | interview-prep/L2-MAC-Telecom/07_RACH_HARQ.md:312-326 | In every run of a cell with one Msg4 per TC-RNTI, a promoted identity belongs to the UE its Msg4 named. |
| `Rach.ContentionIsResolved` | interview-prep/L2-MAC-Telecom/07_RACH_HARQ.md:312-326 | Once the Msg4 of a TC-RNTI has been delivered, in any order and any number of times, to every UE waiting under it, exactly those it names are in Success and no one waits under it: every loser has counted a failure and started over or given up. |
| `Rach.NoSharedCRnti` | interview-prep/L2-MAC-Telecom/07_RACH_HARQ.md:312-326 | With distinct contention identities no two UEs ever hold the same C-RNTI. |
| `Rach.EqualIdentitiesClash` | interview-prep/L2-MAC-Telecom/07_RACH_HARQ.md:299-301 | With equal identities one Msg4 promotes both UEs. |
| `Rach.TwoMsg4sClash` | interview-prep/L2-MAC-Telecom/07_RACH_HARQ.md:312-326 | Two Msg4s for one TC-RNTI promote two waiting UEs with different identities. |
| `OnesComplement.FoldOnce` | interview-prep/coding-problems/05_checksum_calculator.c:29-31 | One pass of the fold loop keeps the folded value and makes the sum smaller. |
| `OnesComplement.DeferredCarries` | interview-prep/coding-problems/05_checksum_calculator.c:17-31 | Folding the plain sum gives the word-by-word end-around-carry sum. |
| `Checksum.AddWords` | interview-prep/coding-problems/05_checksum_calculator.c:64-73 | The summing loop of both functions, odd last byte included, on a 32-bit accumulator that wraps. |
| `Checksum.Finish` | interview-prep/coding-problems/05_checksum_calculator.c:75-80 | The fold loop ends and returns the complement of the folded sum. |
| `Checksum.CalculateChecksum` | interview-prep/coding-problems/05_checksum_calculator.c:13-34 | For every length the complement of the folded 32-bit sum; up to 131074 bytes the Internet checksum. |
| `Checksum.NoWrap` | interview-prep/coding-problems/05_checksum_calculator.c:18-21 | Up to 65537 words the accumulator cannot wrap and the result is the reference checksum. |
| `Checksum.RightIffNoWrap` | interview-prep/coding-problems/05_checksum_calculator.c:13-34 | For every length an int can hold the code is right if and only if the plain sum is below 2^32. |
| `Checksum.BoundIsTight` | interview-prep/coding-problems/05_checksum_calculator.c:14 | All ones: right at 131074 bytes, wrong at 131076. |
| `OnesComplement.EacSumSwapped` | interview-prep/coding-problems/05_checksum_calculator.c:15-19 | Summing byte-swapped words gives the byte-swapped sum. |
| `Checksum.SameBytesOnTheWire` | interview-prep/coding-problems/05_checksum_calculator.c:12-34 | The bytes of the result in a little-endian host's memory are those of the network-order checksum of the zero-padded data. |
| `Checksum.WordOrderIsIrrelevant` | interview-prep/coding-problems/05_checksum_calculator.c:17-21 | Permuting whole words leaves the checksum alone. |
| `Checksum.CalculateTcpUdpChecksum` | interview-prep/coding-problems/05_checksum_calculator.c:46-81 | Equals the checksum of the twelve pseudo-header bytes followed by the data, for every length. |
| `Checksum.PseudoHeaderFields` | interview-prep/coding-problems/05_checksum_calculator.c:37-53 | Addresses as the host holds them, a zero byte, the protocol, and the low 16 bits of the length in network order. |
| `OnesComplement.IncrementalUpdate` | interview-prep/coding-problems/04_ip_header_parser.c:43-64 | Replacing one word gives the checksum of section 3 of RFC 1624, ~(~HC + ~m + m'), if and only if the new data is not all zero. |
| `OnesComplement.UndetectedChange` | interview-prep/coding-problems/04_ip_header_parser.c:43-64 | Changing one word leaves the checksum as it was if and only if it swaps 0x0000 and 0xFFFF and the other words are not all zero. |
| `IpHeader.ValidateChecksum` | interview-prep/coding-problems/04_ip_header_parser.c:67-75 | Leaves the header as it was and answers whether the stored field equals the recomputed checksum. |
| `IpHeader.FillChecksum` | interview-prep/coding-problems/04_ip_header_parser.c:205-206 | Writes only the checksum field, and the result is accepted by validation. |
| `IpHeader.AcceptsIffSumIsAllOnes` | interview-prep/coding-problems/04_ip_header_parser.c:67-75 | Validation accepts if and only if the receiver's sum over the 20 bytes is 0xFFFF, except that it refuses a stored 0xFFFF when the rest is not all zero. |
| `IpHeader.CorruptionGoesUnnoticedIff` | interview-prep/coding-problems/04_ip_header_parser.c:67-75 | In an accepted header a change of one other word is still accepted if and only if it swaps 0x0000 and 0xFFFF and the remaining words are not all zero. |
| `Esp.SaDatabase.AddSa` | interview-prep/coding-problems/10_ipsec_esp_parser.c:78-93 | Appends a fresh association with number 0 and window 64; a full table is unchanged. |
| `Esp.SaDatabase.LookupSa` | interview-prep/coding-problems/10_ipsec_esp_parser.c:96-103 | The linear search finds the first slot with the SPI, or none. |
| `Esp.SaDatabase.CheckReplay` | interview-prep/coding-problems/10_ipsec_esp_parser.c:106-127 | Accepts exactly the numbers above the stored one, and stores them; no other slot changes. |
| `Esp.SaDatabase.ParseEspPacket` | interview-prep/coding-problems/10_ipsec_esp_parser.c:155-187 | Short packets and unknown SPIs are dropped with no change; otherwise SPI and number are read in network order and the replay check decides. |
| `Esp.HeaderRoundTrip` | interview-prep/coding-problems/10_ipsec_esp_parser.c:161-163 | SPI and sequence number written in network order are what is read. |
| `Esp.TableHoldsTen` | interview-prep/coding-problems/10_ipsec_esp_parser.c:78-84 | Ten associations fit and further adds are refused. |
| `Esp.AddDecidesParameters` | interview-prep/coding-problems/10_ipsec_esp_parser.c:78-93 | The first add of an SPI that finds room decides its algorithms, the first 63 characters of its description and the window of 64 for good; its number starts at 0 and is the highest received since. |
| `Esp.SlotIsStable` | interview-prep/coding-problems/10_ipsec_esp_parser.c:96-103 | Through any run a known SPI keeps resolving to the same slot, repeated adds included. |
| `Esp.HistoryIsOwn` | interview-prep/coding-problems/10_ipsec_esp_parser.c:106-127 | Once an SPI is known, its accept/drop history and its stored number depend on its own packets alone, whatever is added and whoever else sends; the stored number is the maximum. |
| `Esp.UnknownIsDropped` | interview-prep/coding-problems/10_ipsec_esp_parser.c:170-175 | Every packet of an SPI that is never added is dropped. |
| `Esp.WholeHistory` | interview-prep/coding-problems/10_ipsec_esp_parser.c:78-127 | A run from the empty database: drops up to the SPI's first add that finds room, after that its own strict maxima. |
| `Esp.AcceptedStrictlyIncrease` | interview-prep/coding-problems/10_ipsec_esp_parser.c:112-126 | Accepted numbers of an SPI are non-zero and strictly increasing. |
| `Esp.AcceptedIffNewMaximum` | interview-prep/coding-problems/10_ipsec_esp_parser.c:112-126 | A packet is accepted if and only if its number exceeds every earlier number of its SPI. |
| `ReplayWindow.BitmapIsWhatWasSeen` | interview-prep/concepts/IPSEC_COMPLETE_GUIDE.md:514-528 | After any stream the bitmap is exactly the set of numbers received in the window and the right edge is the highest number. |
| `ReplayWindow.AcceptsIff` | interview-prep/concepts/IPSEC_COMPLETE_GUIDE.md:519-527 | The window accepts a number if and only if it is not zero, not seen, and above the highest number minus 64. |
| `ReplayWindow.CodeRefinesWindow` | interview-prep/coding-problems/10_ipsec_esp_parser.c:106-127 | On every stream both keep the same right edge, the code accepts only what the window accepts, and they differ exactly on unseen numbers that are late but inside the window. |
| `ReplayWindow.LatePacketIsLost` | interview-prep/concepts/IPSEC_COMPLETE_GUIDE.md:514-523 | The documentation's example: a late 1003 after 1065 is taken by the window and dropped by the code. |
| `LinkedList.TheyMeet` | interview-prep/L2-MAC-Telecom/09_CPP_INTERVIEW.md:738-743 | Within as many rounds as there are nodes tortoise and hare stand on the same node or both at the end. |
| `LinkedList.MeetingMeansCycle` | interview-prep/L2-MAC-Telecom/09_CPP_INTERVIEW.md:742 | Meeting on a node proves that the list never ends. |
| `LinkedList.HasCycle` | interview-prep/L2-MAC-Telecom/09_CPP_INTERVIEW.md:734-746 | On any finite heap it ends within one round per node and returns true if and only if following next never reaches null. |
| `LinkedList.TrailExists` | interview-prep/mock-questions/MOCK_INTERVIEW_QUESTIONS.md:112-125 | Every list in a finite heap, ending or not, has the trail that Reverse is specified by. |
| `LinkedList.Reverse` | interview-prep/L2-MAC-Telecom/09_CPP_INTERVIEW.md:716-729 | An ending list is turned round; a list that runs into a cycle keeps its head and lead-in and has its cycle reversed; no data changes. |
| `LinkedList.ReverseTwice` | interview-prep/L2-MAC-Telecom/09_CPP_INTERVIEW.md:716-729 | Reversing twice restores head and every next pointer, cycle or not. |
| `LinkedList.TurnedTwice` | interview-prep/L2-MAC-Telecom/09_CPP_INTERVIEW.md:716-729 | The same on trails: turning a trail twice gives it back. |
| `Containers.CircularBuffer.Push` | interview-prep/L2-MAC-Telecom/09_CPP_INTERVIEW.md:623-629 | Appends to the contents unless N elements are held; the answer says which. |
| `Containers.CircularBuffer.Pop` | interview-prep/L2-MAC-Telecom/09_CPP_INTERVIEW.md:631-637 | Removes and returns the oldest element; an empty buffer is unchanged. |
| `Containers.Queue.Push` | interview-prep/L2-MAC-Telecom/09_CPP_INTERVIEW.md:757-759 | Appends to the queue without moving an element. |
| `Containers.Queue.Pop` | interview-prep/L2-MAC-Telecom/09_CPP_INTERVIEW.md:761-772 | Removes and returns the oldest element; total moves between the stacks never exceed total pushes. |
| `Containers.UseBuffer` | interview-prep/L2-MAC-Telecom/09_CPP_INTERVIEW.md:613-641 | Any sequence of operations on the ring buffer is a run of the FIFO of its capacity: nothing accepted is lost, duplicated or reordered, and never more than the capacity is held. |
| `Containers.UseQueue` | interview-prep/L2-MAC-Telecom/09_CPP_INTERVIEW.md:752-773 | Any sequence of operations on the queue, popping only what is there, is a run of the unbounded FIFO: nothing is lost, duplicated or reordered. |
| `Containers.InOrderAndBounded` | interview-prep/L2-MAC-Telecom/09_CPP_INTERVIEW.md:613-641 | The FIFO itself, bounded or not: what was held and accepted is what was taken and is held, in order, within the capacity. |

## Left out

- Sequence-number wrap-around in RLC and PDCP: the listings compare plain integers, so SNs and COUNTs are unbounded.
- RLC segmentation and reassembly by SI, polling counters, t-StatusProhibit, RX_Highest_Status, maximum retransmissions and re-establishment: a PDU carries a whole SDU, and STATUS may be sent at any moment.
- PDCP ciphering, integrity, header compression, the discard timer and the fixed size of the reorder buffer.
- PfFairness.BoundedWaiting: rates are fixed over the run, because the notes promise nothing when the channel changes; `actual_rate` may differ from the rate from the CQI either way as long as it stays above a positive share of it (EpsSufficesServes asks that of rivals only), and which UEs have data may change in every TTI.
- PfBestOnly.BestOnlyServesForGoodIff: who has data is fixed over the run, and averages start positive, because the first listing divides by them.
- PfEpsilon.NeverStarvesIff: the bound is exact over all competitors and starting states, not for one given set of competitors; necessity is shown in cells of m + 1 UEs, for any place in them.
- HarqEntity: feedback that answers no transmission; every transmission is answered at most once.
- CQI and MCS tables, rates from CQI, power formulas, timing advance: elided tables or physics with no code.
- Floating point: rates, buckets and averages are real numbers, because rounding is not the point.
- `store_soft_bits`: the 8-bit addition overflows before the clip, so its saturation claim is about other code; the soft buffer here records which transmissions were combined.
- Containers.Queue.Pop: popping an empty queue is undefined in the source and is excluded.
- LinkedList.Reverse: the trail of the list is a ghost argument; `TrailExists` shows that every finite heap provides it.
- Element type, size and memory management of the C++ templates; `push_front` and `find` of the linked list, which are easy members.
- Esp.SaDatabase.ParseEspPacket: prints, payload display and decryption notes are not modelled, only the accept or drop decision and the database.
- RACH: power ramping, backoff times, preamble groups, the two-step procedure and RA-RNTI formulas.
- Sockets, raw capture, TUN and process set-up; the WireGuard demonstration and `simple_encrypt`; printing and field display everywhere.
