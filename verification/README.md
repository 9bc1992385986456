# Redfire switch: verified models

This project models the parts of the switch whose correctness rests on their own arithmetic and state,
and proves what those parts are for. `dafny verify dfyconfig.toml` checks everything with Dafny 4.11.

Where the code updates an object, the model is a class with the same fields, and every method's
postcondition equates the new state with a specification function of the old state. The laws are lemmas
about those functions: over single calls, over whole runs, and between a fast form and a simple one.
Clock readings, session ids, database contents, spurious failures, and the answers of sockets, routing
and codecs are arguments or parts of an event. Integers are unbounded unless a width matters (sequence
numbers, samples and octets have their exact ranges). Money and ratios are exact rationals.

| module | what it models |
|---|---|
| `CesopsnPacket` | the CESoPSN header and packet codec |
| `JitterBuffer`, `JitterWindow`, `JitterReorder` | the jitter buffer; its refinement of a queue ordered by unbounded packet indices; reordering and the exact window |
| `CallControl`, `CallAdmission`, `CallAdmissionRuns` | call admission run serially; as interleaved atomic steps; that the steps are the operations and the bounds are reached |
| `CallAdmissionTrunks`, `CallAdmissionRates` | trunk limits and calls per second under interleaved admission |
| `G711`, `G711Octets`, `G711Processor` | mu-law and A-law companding; its octets bit by bit; the lookup tables, frames and tandem passes |
| `SessionIndex`, `SessionRuns`, `SessionCalls`, `SessionOutcomes` | the session index of the B2BUA; serial runs of its handlers; what each message does and the life of a call; which calls count as successful |
| `BlockBilling` | initial-period-and-increment billing and the per-minute rounding |
| `AccountCache`, `AccountRuns` | billing checks over the cached account records and the locks of their map; runs of them |
| `LongestPrefix`, `Rating` | prefix lookup; the rating engine and trunk rate overrides |
| `Compliance`, `ComplianceRecords` | the compliance framework's call tracking and its CDR engine; tracked states and stored CDRs told from the events |
| `AniII` | ANI-II header reader and writer |
| `Resampler` | the linear resampler |
| `BufferPool` | the pool of reusable buffers |

## What the proofs found

- **The jitter window is exact.** The 16-bit buffer takes the step of an unbounded queue if and only if
  the arrival is placeable (`JitterWindow.AddAgreesExactly`). Offsets -32767 to 32766 always are; 32767
  and -32768 are not (`WindowTopIsTight`, `WindowBottomIsTight`).
- **Admission overshoots by exactly n - 1.** With n callers between check and count the limit is passed
  by at most n - 1, and some interleaving reaches that. With a weak exchange failing spuriously, one
  second admits up to twice the rate limit, and that too is reached.
- **The mu-law error bound needs no clipping condition.** It holds for all 65536 samples.
- **Splitting a call can be cheaper.** Exactly when the increment does not divide the initial period
  (`BlockBilling.SplittingNeverPaysExactly`).
- **`total_call_minutes` is always zero.** Termination sets the duration on a copy of the session.
- **No session is ever `Connecting`**, so the ACK handler's state update never happens.
- **A refused answer is timed as if it had connected.** When the codecs of an answer do not agree and the
  next route fails, the call counts as failed and its CDR still carries a duration from that answer
  (`SessionCalls.RefusedAnswerIsTimed`).
- **A late `update_session` resurrects a session** and breaks the index, whatever it was: the session
  results are about serial runs.
- **A lookup of an expired account record never returns.** `get_account_status` removes the record while
  the guard that found it is alive (src/billing.rs:550-558), and the removal waits for that guard. From
  then on no lookup of that customer, no invalidation in its shard and no sweep returns
  (`AccountRuns.StaleLookupIsFinal`). A run is free of this exactly when every expired record is swept or
  forgotten before it is looked up (`AccountRuns.AllReturnExactly`); so a sweep can turn a hang into an
  answer, and to a run that returns without it a sweep changes nothing (`AccountRuns.SweepsInvisible`).
- **`cdrs_generated` counts CDRs that were never stored.** A call that did not start with a call attempt
  has no CDR; its end is counted and nothing is stored (`Compliance.StoredExactly`,
  `EndAloneStoresNothing`).
- **No stored CDR carries quality metrics**: the engine is told them after the CDR has left it
  (`Compliance.NoMetricsEver`). Without CDRs no call is ever forgotten.
- **Delayed callers multiply the call rate.** With m busy callers a clock second completes at most
  (m + 1) * (limit + m - 1) registrations, because a delayed store of zero erases a later second's counts.
- **An ANI-II code already in Remote-Party-ID wins over the written one** (`AniII.ReadBackExactly`). This
  is about all inputs of the header writer: its one caller, `create_b_leg_invite_with_ani_ii`, builds its
  headers without a Remote-Party-ID and is itself called from nowhere.

## Model

| member | source | states |
|---|---|---|
| CesopsnPacket.HeaderToBytes | src/cesopsn.rs:97-118 | the pushed bytes are the twelve header bytes |
| CesopsnPacket.PacketToBytes | src/cesopsn.rs:191-195 | the header bytes followed by the payload |
| CesopsnPacket.WireFormat | src/cesopsn.rs:97-118 | every byte of every packet: flag bits, the numbers most significant byte first at their offsets, then the payload |
| CesopsnPacket.ParsePrint | src/cesopsn.rs:97-149 | for every packet, parsing what was printed gives the packet with only the circuit id and the payload type's top bit lost, or refuses it with the version bits that were sent |
| CesopsnPacket.RoundTripExact | src/cesopsn.rs:121-149 | a packet survives with only its circuit id cleared if and only if it is version 0 with a payload type below 128 |
| CesopsnPacket.PrintParse | src/cesopsn.rs:191-207 | printing what was parsed changes at most the padding and CSRC-count bits, and gives the same bytes if and only if those were zero |
| CesopsnPacket.ParseAccepts | src/cesopsn.rs:121-129 | a byte string is accepted if and only if it holds a whole header of version 0 |
| JitterBuffer.CesopsnJitterBuffer.constructor | src/cesopsn.rs:280-291 | a new buffer is empty, expects 0 and targets half its size |
| JitterBuffer.CesopsnJitterBuffer.AddPacket | src/cesopsn.rs:294-330 | late rejection, overflow drop and sorted insertion change the fields exactly as `Add` says |
| JitterBuffer.CesopsnJitterBuffer.GetNextPacket | src/cesopsn.rs:333-354 | the expected packet, the adaptive skip or nothing, and the fields after it, as `Get` says |
| JitterBuffer.InsertPosition | src/cesopsn.rs:319-326 | the first place whose packet compares later, everything before it not later |
| JitterBuffer.AddExactly | src/cesopsn.rs:294-330 | every field after an arrival: a late packet is only counted; any other is stamped and put among those kept, at the expense of the front packet alone and only when full |
| JitterBuffer.GetExactly | src/cesopsn.rs:333-354 | a get releases the front packet if and only if it is the expected one or the buffer is deeper than the target |
| JitterBuffer.RunFromEmptyAccounts | src/cesopsn.rs:294-354 | over every run, received = late + dropped + played out + buffered, and the depth never exceeds max(max_size, 1) |
| JitterBuffer.GetProgress | src/cesopsn.rs:333-354 | a get removes exactly the front packet and expects the number after it, or changes nothing with the depth at most the target |
| JitterBuffer.PlayoutsDrain | src/cesopsn.rs:333-354 | n gets in a row release the front of the buffer in order, down to the target depth |
| JitterWindow.LateAgrees | src/cesopsn.rs:357-360 | within half the space, the 16-bit late test is the index comparison except at exactly -32768 |
| JitterWindow.CompareAgrees | src/cesopsn.rs:363-366 | the 16-bit comparison is the index comparison except at half the space ahead |
| JitterWindow.InsertionAgrees | src/cesopsn.rs:318-328 | the insert position found on 16-bit numbers is the place in index order |
| JitterWindow.AddAgreesExactly | src/cesopsn.rs:294-330 | for arrivals within half the space either side, the 16-bit step is the unbounded queue's step if and only if the arrival fits |
| JitterWindow.GetAgrees | src/cesopsn.rs:333-354 | a get on the 16-bit buffer is a get on the queue, with the same packet |
| JitterWindow.BufferRefinesQueue | src/cesopsn.rs:294-366 | over any run whose arrivals fit, across any number of wraparounds, the buffer's state and playout are the queue's |
| JitterWindow.WindowFits | src/cesopsn.rs:357-366 | arrivals at offsets -32767 to 32766 always fit, whatever is buffered |
| JitterWindow.PlayoutInOrder | src/cesopsn.rs:333-354 | indices played out never decrease and the next index never moves back |
| JitterWindow.PlayoutStrictlyIncreasing | src/cesopsn.rs:333-354 | playout is strictly increasing if no arrival repeats an index still buffered |
| JitterWindow.BufferPlaysInOrder | src/cesopsn.rs:294-354 | the same on the 16-bit buffer from new: ordered, and strictly increasing when no index arrives twice |
| JitterReorder.ReorderingUndone | src/cesopsn.rs:734-752 | k packets s, s+1, ... in any arrival order, then k gets: they come out in sequence, each with its payload, none late or dropped, for k up to the size and 32768 |
| JitterReorder.WindowTopIsTight | src/cesopsn.rs:363-366 | at offset 32767 a concrete run departs from the queue |
| JitterReorder.WindowBottomIsTight | src/cesopsn.rs:357-360 | at offset -32768 a packet half the space behind is not called late |
| CallControl.CallControlService.CanAdmitCallFast | src/call_control.rs:111-191 | the verdict and the reset are those of `Admit`: enabled, global limit, reset, rate limit, trunk limit, in that order |
| CallControl.AdmitExactly | src/call_control.rs:111-191 | each verdict if and only if its own check fails and the earlier ones pass, with a trunk's check counting exactly the sessions of that trunk; and what is reset |
| CallControl.OtherTrunksDoNotMatter | src/call_control.rs:159-184 | sessions of other trunks never change a trunk's verdict |
| CallControl.CallControlService.RegisterCall | src/call_control.rs:200-257 | one session stored and three counters raised |
| CallControl.EstablishedExactly | src/call_control.rs:240-246 | over every serial run the established total grows by exactly the registrations |
| CallControl.CallControlService.EndCall | src/call_control.rs:260-273 | a known session leaves the map and the counter; an unknown one changes nothing |
| CallControl.CallControlService.GetTrunkCallCount | src/call_control.rs:310-322 | the number of sessions of the trunk |
| CallControl.CallsPerSecondBounded | src/call_control.rs:134-156 | in any clock second at most the limit registers when no exchange fails spuriously, at most twice the limit always |
| CallControl.DoubleRateReached | src/call_control.rs:139-147 | twice the limit is reached, for every limit |
| CallControl.SerialLimitsExact | src/call_control.rs:124-184 | run serially, the counter is the session count and no global or trunk limit is ever passed |
| CallAdmission.StepKeepsAccounts | src/call_control.rs:240-263 | every atomic step keeps the counter equal to the sessions minus those not yet counted plus those removed and not yet uncounted |
| CallAdmission.StepKeepsSum | src/call_control.rs:124-132 | every atomic step keeps counter plus callers in flight at most the limit plus n - 1 |
| CallAdmission.AdmissionSafety | src/call_control.rs:124-263 | in every interleaving with at most n callers in flight the counter never underflows and neither it nor the session map exceeds max_concurrent_calls + n - 1 |
| CallAdmissionRuns.AdmitSteps | src/call_control.rs:111-191 | one caller's uninterrupted admission steps have the effect and verdict of `Admit` |
| CallAdmissionRuns.RegisterSteps | src/call_control.rs:240-246 | its registration steps have the effect of `Register` |
| CallAdmissionRuns.EndSteps | src/call_control.rs:260-263 | its ending steps have the effect of `End` |
| CallAdmissionRuns.OvershootReached | src/call_control.rs:124-132 | for every limit and n some run brings counter and map to exactly the limit plus n - 1 |
| CallAdmissionRuns.TrunkOvershootReached | src/call_control.rs:159-184 | for every positive trunk limit the global limit has room for, some run brings the trunk to exactly its limit plus n - 1 |
| CallAdmissionTrunks.TrunkSafety | src/call_control.rs:159-184 | in every interleaving with at most n callers in flight the sessions of a limited trunk never exceed its limit plus n - 1 |
| CallAdmissionTrunks.StepKeepsTrunkSum | src/call_control.rs:159-240 | every atomic step keeps the trunk's sessions plus the callers past its check at most its limit plus n - 1 |
| CallAdmissionRates.StepKeepsCounter | src/call_control.rs:149-246 | every atomic step keeps the rate counter plus the callers past the rate check at most the limit plus m - 1 |
| CallAdmissionRates.StepOnResets | src/call_control.rs:134-147 | within one clock second no step adds a reset still to come, and storing a zero takes one away |
| CallAdmissionRates.RateOvershootBounded | src/call_control.rs:134-246 | in every interleaving with at most m busy callers, whatever fails or is delayed, a clock second completes at most (m + 1) * (limit + m - 1) registrations |
| CallAdmissionRuns.DisabledHasNoBound | src/call_control.rs:116-122 | with admission disabled the counter can reach any value |
| G711.SegmentByBounds | src/codec_optimized.rs:206-211 | the leading-zeros segment is the threshold segment, always below 8 |
| G711.UlawError | src/codec_optimized.rs:130-190 | 32 times the mu-law error is at most the magnitude plus 132, for every sample |
| G711.UlawMonotone | src/codec_optimized.rs:130-190 | mu-law quantization keeps the order of samples |
| G711.UlawIdempotent | src/codec_optimized.rs:130-190 | quantizing a quantized sample changes nothing |
| G711.UlawCodeRoundTrip | src/codec_optimized.rs:130-190 | every octet survives decode and encode but negative zero, which becomes positive zero |
| G711.AlawError | src/codec_optimized.rs:147-215 | 32 times the A-law error is at most max(256, magnitude) |
| G711.AlawMonotone | src/codec_optimized.rs:147-215 | A-law quantization keeps the order of samples |
| G711.AlawIdempotent | src/codec_optimized.rs:147-215 | quantizing a quantized sample changes nothing |
| G711.AlawCodeRoundTrip | src/codec_optimized.rs:147-215 | every A-law octet survives decode and encode |
| G711Octets.FlipEvenBitsExact | src/codec_optimized.rs:147-215 | the A-law mask flips exactly the even-numbered bits of every octet |
| G711Octets.UlawOctet | src/codec_optimized.rs:167-190 | the octet of every sample: sign, segment and mantissa inverted, with the clipped and biased magnitude in that mantissa's interval |
| G711Octets.UlawSample | src/codec_optimized.rs:130-145 | the sample of every mu-law octet from its fields |
| G711Octets.AlawOctet | src/codec_optimized.rs:193-215 | the octet of every sample: sign, segment and quantum with the even bits flipped, with the folded magnitude in that quantum's interval |
| G711Octets.AlawSample | src/codec_optimized.rs:147-165 | the sample of every A-law octet from the fields its flipped bits hold |
| G711Octets.Silence | src/codec_optimized.rs:130-215 | sample 0 is 0xFF in mu-law and 0xD5 in A-law, which decode to 0 and 8 |
| G711Processor.LinearToUlawSlow | src/codec_optimized.rs:167-190 | the bit-testing loop finds the segment, so the octet is the mu-law code |
| G711Processor.OptimizedCodecProcessor.InitTables | src/codec_optimized.rs:31-53 | after the loops every entry of all four tables is the reference conversion of its index |
| G711Processor.OptimizedCodecProcessor.UlawToLinearFast | src/codec_optimized.rs:57-60 | the lookup is the reference decoder |
| G711Processor.OptimizedCodecProcessor.AlawToLinearFast | src/codec_optimized.rs:64-67 | the lookup is the reference decoder |
| G711Processor.OptimizedCodecProcessor.LinearToUlawFast | src/codec_optimized.rs:71-75 | the lookup at the offset index is the reference encoder |
| G711Processor.OptimizedCodecProcessor.LinearToAlawFast | src/codec_optimized.rs:79-83 | the lookup at the offset index is the reference encoder |
| G711Processor.TandemSettles | src/codec_optimized.rs:130-215 | any number of tandem passes over a frame of any length equals one pass |
| G711Processor.TandemError | src/codec_optimized.rs:130-215 | the error bound of one pass is the error bound of the whole chain |
| G711Processor.TandemMonotone | src/codec_optimized.rs:130-215 | a chain keeps the order of samples within and between frames |
| G711Processor.RecodedFrame | src/codec_optimized.rs:264-285 | a coded frame comes back from decode and encode but for mu-law negative zeros |
| SessionIndex.SessionManager.Add | src/class4_b2bua.rs:2987-3005 | legs mapped, session stored, totals, active count and peak raised |
| SessionIndex.SessionManager.Update | src/class4_b2bua.rs:3024-3027 | the session is stored unconditionally |
| SessionIndex.SessionManager.Remove | src/class4_b2bua.rs:3029-3052 | session and leg mappings gone, the call counted as successful or failed by its stored state |
| SessionIndex.SessionManager.CleanupExpired | src/class4_b2bua.rs:3054-3074 | exactly the expired sessions are removed, in some order |
| SessionIndex.NothingDangles | src/class4_b2bua.rs:3034-3039 | after a removal no call id maps to the removed session |
| SessionIndex.MinutesOfRemoved | src/class4_b2bua.rs:3043-3048 | a removed session adds its whole minutes if it was connected and has a duration, else none |
| SessionIndex.LateUpdateBreaks | src/class4_b2bua.rs:3024-3027 | an update after removal always breaks the index |
| SessionRuns.Class4B2BUA.Terminate | src/class4_b2bua.rs:1788-1864 | the CDR with duration is sent if enabled, and the stored session is removed |
| SessionRuns.Class4B2BUA.Attempt | src/class4_b2bua.rs:1407-1437 | the session gets its second leg and the leg's call id is mapped |
| SessionRuns.Class4B2BUA.Cleanup | src/class4_b2bua.rs:2946-2951 | the periodic cleanup is the cleanup step of a run, over exactly the expired sessions |
| SessionRuns.StepKeepsGood | src/class4_b2bua.rs:953-1785 | every handler and the cleanup, with every outcome, keeps the whole invariant |
| SessionRuns.SerialRunInvariant | src/class4_b2bua.rs:2987-3074 | active = live sessions, total = active + successful + failed, every mapped call id is a leg of a live session, at most one CDR per session, and with CDRs total = active + CDRs + expired |
| SessionRuns.CallMinutesStayZero | src/class4_b2bua.rs:1794-1821 | total_call_minutes is zero after every serial run |
| SessionRuns.ByeEndsItsCall | src/class4_b2bua.rs:1677-1696 | with callers' ids apart from second-leg names, a BYE ends exactly its caller's session, leaves no mapping to it, counts it and sends its CDR |
| SessionCalls.AnswerConnects | src/class4_b2bua.rs:1533-1546 | an answer with agreed codecs connects the session it reaches from that moment, keeps its legs, and touches nothing else |
| SessionCalls.DisagreementAdvances | src/class4_b2bua.rs:1556-1630 | an answer without a common codec unmaps the second leg and attempts the next route, which keeps the answer time, or ends the call with 488 |
| SessionCalls.ErrorAdvances | src/class4_b2bua.rs:1637-1674 | an error response attempts the next route or ends the call with the response's code |
| SessionCalls.HangUpEnds | src/class4_b2bua.rs:1677-1864 | a BYE or CANCEL ends the session it reaches: legs unmapped, counted by whether it was connected, and its CDR's cause, end and connected time |
| SessionCalls.NothingToDo | src/class4_b2bua.rs:990-994 | repeated invites, messages of unknown calls and ACKs of calls that are not Connecting change nothing |
| SessionCalls.InviteStarts | src/class4_b2bua.rs:1316-1395 | a new invite leaves a session in the state routing reached, with its call ids mapped, or fails at once with 488 or 503 and a CDR |
| SessionCalls.CleanupExactly | src/class4_b2bua.rs:3054-3074 | the cleanup removes exactly the sessions without activity since the cutoff, and sends no CDR for them |
| SessionCalls.PeakIsHighest | src/class4_b2bua.rs:2998-3004 | the peak rises exactly when the active count passes it |
| SessionCalls.AnsweredCallSucceeds | src/class4_b2bua.rs:1525-1864 | after any run, a call answered at t and hung up at u, whatever other calls do in between, is one more successful call with a CDR of duration max(0, u - t) |
| SessionCalls.UnansweredCallFails | src/class4_b2bua.rs:1766-1864 | a call cancelled unanswered is one more failed call with a CDR without duration |
| SessionCalls.RefusedAnswerIsTimed | src/class4_b2bua.rs:1597-1630 | a call refused for codecs at t whose next route fails at u is counted failed and its CDR lasts from t to u |
| SessionOutcomes.SuccessNeedsAnswer | src/class4_b2bua.rs:3043-3050 | successful calls and connected sessions never outnumber answers with agreed codecs, and no session is ever Connecting |
| BlockBilling.LeastCoveringBlock | src/class4_b2bua.rs:550-569 | what is billed is the least initial + k * increment covering the call |
| BlockBilling.UnblockedBilling | src/class4_b2bua.rs:555-560 | no duration costs nothing, and without a positive increment every second is billed as it is |
| BlockBilling.Idempotent | src/class4_b2bua.rs:550-569 | a billed length is billed as itself and covers the call, for all settings |
| BlockBilling.Monotone | src/class4_b2bua.rs:550-569 | a longer call is never billed less |
| BlockBilling.SplittingNeverPaysExactly | src/class4_b2bua.rs:550-569 | splitting a call never lowers the bill if and only if the increment divides the initial period or is not positive |
| BlockBilling.FinerGridBillsLess | src/class4_b2bua.rs:580-593 | a side whose blocks include the other side's never bills more |
| BlockBilling.MinutesMatchSeconds | src/class4_b2bua.rs:602-609 | with no initial period both roundings charge the same, for every increment |
| AccountCache.BillingService.AccountStatusOf | src/billing.rs:546-580 | hit, miss, failed fetch and refill, and the hang on an expired record with its shard left held, as `GetAccountStatus` says |
| AccountCache.BillingService.CheckCallAuthorization | src/billing.rs:384-481 | verdict or hang, cache and statistics, as `Authorize` says |
| AccountCache.BillingService.InvalidateAccountCache | src/billing.rs:713-716 | the customer's record is forgotten, unless its shard is held |
| AccountCache.BillingService.CleanupExpiredCache | src/billing.rs:756-772 | the expired records go, up to the first held shard |
| AccountRuns.HangsExactly | src/billing.rs:550-558 | while no shard is held, an operation hangs if and only if it looks up an expired record |
| AccountRuns.AllReturnExactly | src/billing.rs:546-580 | over every run, all operations return if and only if no lookup finds a record that expired and was neither swept nor forgotten since |
| AccountRuns.AnswersExactly | src/billing.rs:384-580 | in a run that returned throughout, every read answers exactly the account the database held when the cached record was fetched, or holds now if none is cached, and every check is the verdict on exactly that account |
| AccountRuns.JudgeExactly | src/billing.rs:424-540 | each verdict on an account if and only if its condition on status, type, balance and limits holds |
| AccountRuns.EmergencyExactly | src/billing.rs:399-543 | an emergency passes if and only if allowed and marked, or the number is listed as it is or without its leading plus signs and then ones |
| AccountRuns.ForgetExactly | src/billing.rs:713-716 | an invalidation that returns removes exactly the customer's record |
| AccountRuns.SweepExactly | src/billing.rs:756-772 | a sweep returns if and only if no shard is held, and removes exactly the expired records before the first held shard |
| AccountRuns.HitsExactly | src/billing.rs:551-566 | in a run that returned throughout, hits and misses are exactly the lookups that found a record cached and those that did not |
| AccountRuns.StaleLookupIsFinal | src/billing.rs:550-558 | after one lookup of an expired record, no lookup of that customer, no invalidation in its shard and no sweep ever returns |
| AccountRuns.SweepRescues | src/billing.rs:550-558 | two reads one cache duration apart: the second hangs, and with a sweep between them is the database's answer; a check in its place is counted only in the total |
| AccountRuns.ReadsAreRecent | src/billing.rs:546-580 | every read that returns an account is the database value of an instant less than cache_duration before it, or of the read, and after the last invalidation |
| AccountRuns.ReadAfterInvalidation | src/billing.rs:713-716 | the first read after an invalidation, however much later, is the current database value, or hangs on a shard lost since |
| AccountRuns.ApprovalsAreRecent | src/billing.rs:384-530 | every non-emergency approval was justified by the database less than cache_duration ago: the account was in good standing or in grace, and could pay |
| AccountRuns.ChecksAreCounted | src/billing.rs:394-478 | every statistic is the number of checks answered so; the total is approved, blocked and hung, so the two outcomes make the total if and only if no check hung |
| AccountRuns.SweepsInvisible | src/billing.rs:756-772 | adding sweeps to a run that returns throughout changes no answer and no statistic; a run that returns throughout answers as without its sweeps if and only if it returns throughout without them |
| LongestPrefix.Scan | src/billing.rs:1090-1100 | the scan, in any order, finds the longest non-empty matching prefix, or nothing when none matches |
| LongestPrefix.LookupUnique | src/billing.rs:1094-1100 | that answer is unique |
| LongestPrefix.RemoveFallsBack | src/billing.rs:1155-1159 | removing any prefix touches exactly the numbers whose longest match it was, and they fall back to their next-longest match |
| Rating.RatingEngine.CalculatePricing | src/billing.rs:1085-1142 | the price is that of the longest match, else of the default rates |
| Rating.RatingEngine.UpdateRate | src/billing.rs:1145-1152 | the entry is stored under its own prefix |
| Rating.RatingEngine.RemoveRate | src/billing.rs:1155-1159 | the entry of the prefix is gone |
| Rating.QuoteExactly | src/billing.rs:1103-1141 | every field of every quote: the matched entry's terms with a floor of one cent, or the default rate chosen by the destination's first digits with the default floor |
| Rating.UpdateReprices | src/billing.rs:1145-1152 | an update reprices exactly the destinations that start with its prefix and have no longer match |
| Rating.RemovalRestoresPrices | src/billing.rs:1155-1159 | removing a freshly added prefix restores every price |
| Rating.RemovalReprices | src/billing.rs:1155-1159 | removing any entry reprices exactly the destinations whose longest match it was, by the next-longest entry or the default rates |
| Rating.CallRates.ApplyRateOverrides | src/class4_b2bua.rs:612-633 | the side's rate becomes that of the longest matching override, and nothing else changes |
| Compliance.JStd025CdrEngine.Start | src/j_std_025.rs:614-632 | a fresh CDR is kept for the call |
| Compliance.JStd025CdrEngine.Answer | src/j_std_025.rs:635-641 | the call's CDR, if it has one, is answered now |
| Compliance.JStd025CdrEngine.End | src/j_std_025.rs:644-659 | the call's CDR leaves the running ones and is stored with its durations; without one nothing happens |
| Compliance.JStd025CdrEngine.UpdateQosMetrics | src/j_std_025.rs:662-667 | the running CDR, if there is one, gets the metrics |
| Compliance.ComplianceFramework.Process | src/compliance_framework.rs:284-482 | tracking, the engine's CDRs and the statistics, as `ProcessEvent` says |
| Compliance.CallsAccounted | src/compliance_framework.rs:420-479 | with CDRs, total calls = cdrs_generated + tracked calls after every event of every run |
| Compliance.StoredExactly | src/compliance_framework.rs:448-470 | cdrs_generated = CDRs stored + ends of calls not started by a call attempt; so it is the number stored if and only if every ended call had started with one |
| Compliance.EndAloneStoresNothing | src/compliance_framework.rs:451-470 | a call whose first event is its end: one call, one CDR counted, none stored |
| Compliance.StartedIsStoredOrRunning | src/j_std_025.rs:614-659 | the CDRs started by call attempts are the stored and the running ones, none lost or stored twice |
| Compliance.StoredCdrsSound | src/j_std_025.rs:319-350 | under a forward clock every stored CDR has start <= answer <= end, whole-second durations, and is billed for at most what it lasted, for nothing if unanswered |
| Compliance.NoMetricsEver | src/compliance_framework.rs:451-460 | over every run no CDR, stored or running, ever carries quality metrics |
| Compliance.WithoutCdrsNothingIsForgotten | src/compliance_framework.rs:421-470 | without CDRs the tracked calls are all calls ever seen, and the total is their number |
| Compliance.RunAdvances | src/compliance_framework.rs:316-370 | while a call is tracked its rank never falls, and an ended, transferred or forwarded call changes state no more |
| Compliance.RunKeepsOrder | src/compliance_framework.rs:344-369 | start <= answer <= end for every tracked call under non-decreasing timestamps |
| ComplianceRecords.TrackedExactly | src/compliance_framework.rs:295-378 | after every run, with or without CDRs, exactly the calls opened and not closed are tracked, in the state and with the times their events tell |
| ComplianceRecords.RunningExactly | src/j_std_025.rs:614-641 | every running CDR is from its call's attempt, answered at the clock of the last answer since |
| ComplianceRecords.StoredExactlyAsTold | src/j_std_025.rs:319-659 | the stored CDRs are exactly those of ended calls that an attempt had started, in order, each with the attempt's, last answer's and end's clocks, the whole seconds lasted and billed, and the result its response tells |
| ComplianceRecords.StartedAndAnswered | src/j_std_025.rs:614-641 | a CDR has no answer time if and only if no answer came between the attempt and the end, and otherwise that of the last one |
| ComplianceRecords.MarkedExactly | src/compliance_framework.rs:425-446 | a tracked call is marked as having a CDR if and only if one is running for it |
| AniII.ExtractAniIIParameter | src/ani_ii.rs:300-327 | the digit loop extracts the parameter's one or two digits after the first marker |
| AniII.ExtractExactly | src/ani_ii.rs:300-327 | what is extracted from every header: the code of the one or two digits right after the first marker, and nothing otherwise |
| AniII.TrimExactly | src/ani_ii.rs:285-289 | trimming takes off all white space at both ends and nothing else |
| AniII.CodesExactly | src/ani_ii.rs:16-86 | digits stand for exactly the code with that number, and only 23, 27 and 70 trigger the surcharge |
| AniII.AddAniIIToHeaders | src/class4_b2bua.rs:867-902 | the three headers are written as `WriteHeaders` says |
| AniII.WriteExactly | src/class4_b2bua.rs:867-902 | every header after writing: the custom one set, the parameter appended or the header made where missing, everything else as it was |
| AniII.MarkerFoundAtJoin | src/ani_ii.rs:302-307 | the first marker in appended text is the appended one: none earlier, none straddling |
| AniII.ReadBack | src/ani_ii.rs:245-327 | if Remote-Party-ID lacks "ani-ii=", what was written is read back, from Remote-Party-ID |
| AniII.ReadBackExactly | src/ani_ii.rs:245-327 | for all headers, the written code is read back if and only if no other code was there to be found first |
| AniII.OldCodeWins | src/class4_b2bua.rs:883-887 | writing 23 over 70 reads back 70 |
| AniII.WriteTwice | src/class4_b2bua.rs:867-902 | writing twice equals writing once, for every header map |
| Resampler.ResampleAudio | src/codec.rs:946-974 | equal rates copy; otherwise floor(n * to / from) samples, each the truncated interpolation |
| Resampler.OutputLengthExact | src/codec.rs:951-953 | the number of outputs is the inputs times the ratio, rounded down |
| Resampler.InterpolationExact | src/codec.rs:956-965 | every output is the weighted sum of the two inputs around its position, truncated toward zero |
| Resampler.PositionInRange | src/codec.rs:956-968 | every position is within the input: the zero fallback is unreachable |
| Resampler.OutputBetweenNeighbours | src/codec.rs:961-965 | every output lies between its two neighbouring inputs after truncation |
| Resampler.UpsamplingKeepsInput | src/codec.rs:952-970 | sampling up by a whole k keeps input i at output k * i |
| Resampler.ExactPositionsKept | src/codec.rs:956-965 | an output that falls on an input sample is that sample, at any rates |
| Resampler.KeepsMonotone | src/codec.rs:956-965 | a non-decreasing signal stays non-decreasing, at any rates |
| BufferPool.BufferPool.Get | src/buffer_pool.rs:30-41 | the front buffer or a new one is handed out and leaves the shared queue |
| BufferPool.BufferPool.Preallocate | src/buffer_pool.rs:44-52 | the queue is extended with default buffers up to the limit |
| BufferPool.PooledBuffer.Resize | src/buffer_pool.rs:74-76 | the buffer is cut or extended, growing its capacity only when needed |
| BufferPool.PooledBuffer.Drop | src/buffer_pool.rs:79-90 | the buffer returns cleared to its capacity if there is room |
| BufferPool.ResizeExactly | src/buffer_pool.rs:74-76 | a resized buffer keeps its items up to the new length and fills up with the value |
| BufferPool.PreallocateExactly | src/buffer_pool.rs:44-52 | as many default buffers as asked for, but none beyond the limit, behind those pooled |
| BufferPool.FirstInFirstOut | src/buffer_pool.rs:30-90 | a returned buffer comes out cleared after exactly those pooled before it, and never if the pool was full |
| BufferPool.StepKeepsSound | src/buffer_pool.rs:30-90 | every operation keeps the limit, the cleared buffers and created = pooled + held + discarded |
| BufferPool.NextBufferIsClean | src/buffer_pool.rs:30-90 | after any interleaving the next buffer handed out holds only default values, at least buffer_size of them, exactly that many if no holder grew one |

## Left out

- Sockets, tasks, timers, databases and files: only the state change each makes is modelled.
- Counter widths: the 64-bit statistics, the 32-bit active-session count and the pointer-sized call
  counter are unbounded; only the absence of underflow is proved.
- `last_playout_time` of the jitter buffer, `current_load` of admission decisions, `last_updated` of
  statistics, and log messages: nothing depends on them.
- CallAdmission.AdmissionSafety: the trunk count is one atomic step and trunk limits do not change during
  a run, and only ids that registration returned are ended.
- CallAdmissionRates.RateOvershootBounded: reached for one caller; for more it is an upper bound.
- SessionRuns.SerialRunInvariant: handlers and cleanup run one at a time and session ids are fresh; other
  interleavings break the index, as `SessionIndex.LateUpdateBreaks` shows. CDRs of blocked calls, which
  never become sessions, are not counted.
- Clock readings of the B2BUA are whole seconds, so the rounding down of a CDR's duration does not show.
- SessionRuns.ByeEndsItsCall: callers' call ids must differ from `<session>-b` names; the code does not
  enforce it.
- Answers other than 200, provisional responses and ACK forwarding: they change no state modelled here.
- `calculate_costs` and the cost part of `apply_lcr_route_costs`: products read off the code.
- AccountRuns.ReadsAreRecent: a lookup takes one clock reading and reads the database at that instant;
  the mock account used without a database is a database value like any other.
- AccountRuns.StaleLookupIsFinal: of the sharded map only its locks are modelled: readers share a shard, a
  writer waits for all of them, and whether a reader waits behind a waiting writer is left open. The
  thread that a hung lookup takes from the runtime is not part of this model.
- Compliance.CallsAccounted: lawful intercept is off, and the storage is the in-memory one that the
  framework always builds and that never fails, so no event fails and `compliance_errors` stays zero.
- Of a CDR only times, durations, result and metrics are modelled; billing validation only warns.
- Whitespace is the Unicode White_Space set; header text is characters, not UTF-8 bytes.
- `calculate_batch_surcharges`, blocking rules and toll-free detection: sums and single-branch checks.
- Resampler.ResampleAudio: ratios are exact, so the rounding of 64-bit floats in lengths and positions is
  not modelled; a source rate of zero, which the code turns into an infinite ratio, is excluded.
- `g729_encode_chunked`, `g729_decode_chunked`, `bytes_to_pcm16`: plain framing around a codec.
- BufferPool.NextBufferIsClean: a new vector's capacity is exactly its length, and items have a size.
- `G711Codec` of src/codec.rs and the AVX2 batch decoders, G.729 and Opus bodies, cluster management,
  SIP parsing, configuration and the remaining services.
