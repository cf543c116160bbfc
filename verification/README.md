# Verification of the loss-recovery data plane

A Dafny model of the parts of this WebRTC server that repair and measure a lossy packet stream, and of
three small protocols beside them, with proofs of what they guarantee. Sequence numbers on the wire have
16 bits and wrap; most of the difficulty lies there.

Each component is an imperative class, proved against a specification function over values, and then a
set of theorems about that function over whole histories of events.

| component | class and specification | theorems |
|---|---|---|
| in-order forwarder with a ring cache (`src/stream/push_stream.cpp`) | `PushStream.dfy` | `PushStreamRefinement.dfy`, `PushStreamTheorems.dfy`, `PushStreamBound.dfy` |
| NACK bookkeeping (`src/modules/video_coding/nack_requester.cpp`) | `NackRequester.dfy` | `NackIdeal.dfy`, `NackShape.dfy`, `NackRefinement.dfy`, `NackTheorems.dfy`, `NackProgress.dfy` |
| reordering histogram (`src/modules/video_coding/histogram.cpp`) | `Histogram.dfy` | the same file |
| statistics of one SSRC (`src/modules/rtp_rtcp/receive_stat.cpp`) | `StreamStat.dfy` | `StreamHistory.dfy`, `StreamStatTheorems.dfy` |
| round-robin reporting (the same source file) | `ReceiveStat.dfy` | `ReceiveStatTheorems.dfy` |
| single-producer single-consumer queue and pipe doorbell (`src/base/lock_free_queue.h`, `src/server/rtc_worker.cpp`) | `LockFreeQueue.dfy`, `RtcWorker.dfy` | `QueueProtocol.dfy` |
| STUN codec (`src/ice/stun.cpp`) | `Stun.dfy` | `StunTheorems.dfy`, `StunWire.dfy` |
| ICE ping scheduler (`src/ice/ice_controller.cpp`) | `IceSchedule.dfy`, `IceController.dfy` | `IceTheorems.dfy` |

`SeqNum.dfy`, `Modulo.dfy`, `Bytes.dfy` and `Options.dfy` are shared arithmetic and an option type.

The forwarder and the NACK bookkeeping are refined: each is re-told over unbounded extended numbers with
an ordinary map or ordinary comparisons (`Ideal`), the 16-bit code is proved to behave exactly like that,
and the theorems are proved about the unbounded model and carried back. The receiver statistics are
compared with what an observer of the same packets would note who has unbounded numbers, real arithmetic
and no access to the state of the code (`StreamHistory`); the theorems about reports are about the fields
of the blocks that go out. The queue is modelled twice: as a
class whose calls run alone, and as a machine whose steps are single reads and writes of the shared
pointers, interleaved in any order.

`dafny verify dfyconfig.toml` checks everything.

## What the theorems assume

- Packet timestamps of the forwarder are not negative (its first-packet flag is the time -1), so they are
  of type `nat`; `RestartsNear`: a key frame restarts at most 2^15 - 4095 numbers ahead of the frontier.
  `BoundIsExact` says that these are exactly the distances at which the ring never hands on a packet under
  a wrong number. `NoPacketWaits`, `RestartForgetsGap` and `RestartKeepsRun` need no such bound.
- `SaneRun` for the NACK bookkeeping: the clock does not run backward, and one packet moves the frontier by
  less than 2^15, by less than 2^15 - 10000 if it starts a key frame. Beyond that the comparator of the
  ordered containers is no order.
- The queue's pointer accesses are atomic and seen in program order, as the source itself assumes
  (`src/base/lock_free_queue.h:27-28`). The doorbell theorem is about consumers that call `Consume` only to
  answer a token, as the worker does (`NoPoll`).
- HMAC and CRC are arbitrary functions.
- The theorems on how soon everybody is pinged (`EveryoneIsPinged`, `EveryoneIsPingedInOneRound`) hold while
  no writable connection is selected; then exactly the connections with credentials can be pinged. The
  others about the scheduler need no such condition.
- Helpers of the WebRTC library are not part of the repository. They are modelled as documented there:
  `AheadOf`, `AheadOrAt`, `ForwardDiff`, `ReverseDiff`, the unwrapper, and the comparator of the NACK
  containers, which iterate oldest first and are modelled as sequences in that order.

## Where the code and its own comments disagree

- The fraction p of the reordered packets is said to arrive within the quantile N
  (`src/modules/video_coding/nack_requester.cpp:136`). The code counts the samples strictly below N
  (`src/modules/video_coding/histogram.cpp:31-34`), which is more, but it clamps distances to the last of its
  10 buckets. `FarSampleEscapes` is a sample at distance 50, for which N is 10; `QuantileOfTrueDistances` says
  that the promise holds exactly if the fraction p arrives within 10 numbers at all.
- The reported cumulative loss is said to be monotone (`src/modules/rtp_rtcp/receive_stat.cpp:158`).
  `ReportedLossCanDrop` is a history in which it falls from 5 to 3; `ReportFalls` says exactly when it falls,
  and `ReportedLoss` what it really is.
- The fraction is said never to overflow (`src/modules/rtp_rtcp/receive_stat.cpp:147`).
  `BackwardRestartOverflowsFraction` is a history in which it does; `FractionExact` and `FractionFits` say
  exactly when the field is right, in terms of one report and of the history.
- Not every cached packet is forwarded: late packets are cached before their age is checked and may take
  the slot of a waiting one (`LatePacketEvictsPending`). `WaitingStep` says exactly which events do that.

## Model

| member | source | states |
|---|---|---|
| PushStream.PushStream.FindVideoPacket | src/stream/push_stream.cpp:75-82 | returns the slot of `seq % 2048` exactly if it holds that 16-bit number |
| PushStream.PushStream.CacheVideoPacket | src/stream/push_stream.cpp:84-94 | the slot of the number holds the packet unless it already held that number; nothing else changes |
| PushStream.PushStream.ProcessVideoPacket | src/stream/push_stream.cpp:114-155 | the whole new state and what goes downstream are those of `OnPacket` |
| PushStream.PushStream.Forward | src/stream/push_stream.cpp:137-153 | the release loop appends exactly the run of hits and stops at the miss behind it |
| PushStream.PushStream.OnFrame | src/stream/push_stream.cpp:157-201 | a key frame ahead of the frontier restarts there as in `OnKeyFrame`; any other frame, or none, changes nothing |
| PushStream.PushStream.ClearVideoPacketCache | src/stream/push_stream.cpp:203-211 | empties exactly the slots of the numbers from start to end |
| PushStream.RunsEndOnMiss | src/stream/push_stream.cpp:139-151 | a release loop ends on a cache miss after at most 2048 hits, never on its counter |
| PushStreamRefinement.IdealRunInv | src/stream/push_stream.cpp:84-155 | in every reachable state of the unbounded forwarder one packet per slot is kept, numbers sent strictly increase, and every gap among them is a restart |
| PushStreamRefinement.RingRefinesMap | src/stream/push_stream.cpp:75-211 | on every history with near restarts the ring keyed by 16-bit numbers sends the same packets as the map keyed by extended numbers, and lookups in the window agree |
| PushStreamTheorems.NoPacketWaits | src/stream/push_stream.cpp:114-198 | once a first packet came, the number after the frontier is never in the cache |
| PushStreamTheorems.StartsWithFirstPacket | src/stream/push_stream.cpp:114-127 | the forwarder has started, with the arrival time of the first packet, exactly if a packet came, whatever key frames came before |
| PushStreamTheorems.RestartsAreRestarts | src/stream/push_stream.cpp:168-198 | the numbers the model remembers as restarts are exactly those of key frames of the history that were ahead of the frontier |
| PushStreamTheorems.ForwardedInOrder | src/stream/push_stream.cpp:114-198 | the packets sent arrived under extended numbers that strictly increase, and by exactly one except where a key frame of the history restarted |
| PushStreamTheorems.NoAliasing | src/stream/push_stream.cpp:75-94 | a lookup in the window returns a packet that arrived under that extended number, never one from 65536 earlier |
| PushStreamBound.FarRestartAliases | src/stream/push_stream.cpp:157-198 | for every distance from 2^15 - 4094 to 2^15 a history whose last key frame restarts that far ahead and makes the ring send a packet it should not |
| PushStreamBound.BoundIsExact | src/stream/push_stream.cpp:75-211 | no history makes the ring alias at a restart distance if and only if the distance is at most 2^15 - 4095 |
| PushStreamTheorems.RestartForgetsGap | src/stream/push_stream.cpp:194-211 | after a restart no skipped number can be looked up, however long the gap |
| PushStreamTheorems.RestartKeepsRun | src/stream/push_stream.cpp:168-211 | packet j of the newly forwarded run can still be looked up if and only if gap + j < 2048 |
| PushStreamTheorems.WaitingStep | src/stream/push_stream.cpp:84-198 | an event keeps a packet waiting in the ring, or makes the ring send it as its number, if and only if it is not one that takes its slot or wipes it |
| PushStreamTheorems.WaitingIsForwarded | src/stream/push_stream.cpp:84-198 | unless such an event comes, a packet waiting in the ring has been sent, as its number, by the time the frontier reaches it |
| PushStreamTheorems.LatePacketEvictsPending | src/stream/push_stream.cpp:84-94 | packet 63500 throws packet 12 out, which is then never forwarded |
| Histogram.Histogram.Add | src/modules/video_coding/histogram.cpp:13-25 | the ring holds the last `capacity` clamped samples and every bucket equals its multiplicity among them |
| Histogram.Histogram.InverseCdf | src/modules/video_coding/histogram.cpp:27-37 | the accumulating loop returns the quantile of the window; without samples, where the first share is not a number, 1 for a positive probability and 0 otherwise |
| Histogram.QuantileIsLeast | src/modules/video_coding/histogram.cpp:27-37 | for p at most 1 the quantile is the least N with at least the fraction p of the samples below N; it is positive for positive p |
| Histogram.QuantileOfTrueDistances | src/modules/video_coding/nack_requester.cpp:131-144 | the fraction p of the unclamped distances is within the quantile if and only if it is within the number of buckets |
| Histogram.FarSampleEscapes | src/modules/video_coding/histogram.cpp:14-15 | one sample at distance 50: the median is 10, and no sample is within 10 |
| NackRequester.NackRequester.OnReceivedPacket | src/modules/video_coding/nack_requester.cpp:56-128 | new state, return value and signalled batch are those of `OnPacket`, in all branches |
| NackRequester.NackRequester.ProcessNacks | src/modules/video_coding/nack_requester.cpp:48-54 | the timer path: state and batch of a time-only batch, an empty one not signalled |
| NackRequester.NackRequester.RemovePacketsUntilKeyFrame | src/modules/video_coding/nack_requester.cpp:147-160 | drops anchors until one has something older on the list, and drops that |
| NackRequester.NackRequester.EvictForRoom | src/modules/video_coding/nack_requester.cpp:173-177 | the nested eviction loops end, with the result of `EvictLoop` |
| NackRequester.NackRequester.AddPacketsToNack | src/modules/video_coding/nack_requester.cpp:163-193 | ages out, evicts or clears on overflow, and enters the gap as `AddPackets` says |
| NackRequester.NackRequester.GetNackBatch | src/modules/video_coding/nack_requester.cpp:196-233 | batch and remaining list of one pass with erasure in place |
| NackRequester.NackRequester.WaitNumberOfPackets | src/modules/video_coding/nack_requester.cpp:138-144 | the median of the recent reordering distances, 0 without samples |
| NackShape.StepShaped | src/modules/video_coding/nack_requester.cpp:56-233 | every event keeps the list sorted, within 10000 of the frontier and at most 1000 long, and the anchors sorted and recent |
| NackRefinement.LowerBoundRefines | src/modules/video_coding/nack_requester.cpp:113-116 | within half a circle the wrap comparator cuts a container where ordinary comparison does |
| NackRefinement.EvictedIsFirstFit | src/modules/video_coding/nack_requester.cpp:147-177 | the eviction loops stop at the first anchor that makes room in the original list, or use up all anchors |
| NackRefinement.NackRefines | src/modules/video_coding/nack_requester.cpp:56-233 | on every sane history the 16-bit bookkeeping is the wire image of the unbounded one |
| NackTheorems.ReceivedIsReceived | src/modules/video_coding/nack_requester.cpp:56-128 | the model's set of received numbers is exactly what arrived, and holds the frontier |
| NackTheorems.DroppedIsDropped | src/modules/video_coding/nack_requester.cpp:173-185 | the model's set of dropped numbers is exactly what overflows of the history gave up: what preceded the key frame that made room, or everything if none did |
| NackTheorems.NackConservation | src/modules/video_coding/nack_requester.cpp:56-233 | every number from the first packet to the frontier was received, is pending, or was abandoned: it aged out, was asked for ten times, or some overflow dropped that very number; a pending number was neither received nor abandoned |
| NackTheorems.FewAndSpacedNacks | src/modules/video_coding/nack_requester.cpp:196-233 | a number is asked for at most ten times in a whole run, each time more than the round-trip time then in force after every earlier one |
| NackProgress.TimerAsksExactly | src/modules/video_coding/nack_requester.cpp:196-233 | after any sane history the timer asks for exactly the pending numbers last asked for longer ago than the round-trip time, one never asked for counting as asked for at time -1 |
| NackProgress.ArrivalAsksExactly | src/modules/video_coding/nack_requester.cpp:117-128 | an arrival asks for nothing unless it moves the frontier, and then for exactly the pending numbers never asked for whose wait line, fixed when they were found missing, the frontier has reached |
| NackProgress.PendingAfterArrival | src/modules/video_coding/nack_requester.cpp:163-193 | without an overflow the numbers pending behind a new frontier are exactly those that were, unless more than 10000 behind it, and all it passed |
| NackProgress.WaitAndRttAreMeasured | src/modules/video_coding/nack_requester.cpp:131-144 | the wait is the median of how far behind the frontier the last 128 late packets came that were not retransmitted, cut at 9; the round-trip time is the last one reported, 100 ms before |
| NackTheorems.ListStaysShort | src/modules/video_coding/nack_requester.cpp:147-193 | at most 1000 entries, strictly ordered by the wrap comparator, each 1 to 10000 behind the frontier |
| NackTheorems.BatchesAskForTheMissing | src/modules/video_coding/nack_requester.cpp:48-54 | every batch names only numbers never received, none twice, oldest first |
| NackTheorems.ArrivalNacksWait | src/modules/video_coding/nack_requester.cpp:203-214 | a NACK triggered by an arrival is the first for its number and comes only once the frontier has reached the wait line |
| NackTheorems.ReturnsTimesNacked | src/modules/video_coding/nack_requester.cpp:56-128 | after any sane history the return value for any packet is how often its number was asked for, or 0 if it was not pending |
| NackTheorems.WaitIsMedian | src/modules/video_coding/nack_requester.cpp:138-144 | at least half of the recent samples lie below the wait, and below nothing smaller; 0 without samples |
| NackTheorems.OverflowKeepsFromKeyFrame | src/modules/video_coding/nack_requester.cpp:173-193 | an overflow leaves exactly the gap and what is not older than the first key frame that makes room, or nothing if none does |
| StreamStat.StreamStat.UpdateCounters | src/modules/rtp_rtcp/receive_stat.cpp:26-64 | the whole new state is that of `OnPacket`, for first, advancing, late, suspicious and restarting packets |
| StreamStat.StreamStat.UpdateOutOfOrder | src/modules/rtp_rtcp/receive_stat.cpp:94-120 | the verdict on a packet and what it does to frontier, ledger and suspicion |
| StreamStat.StreamStat.UpdateJitter | src/modules/rtp_rtcp/receive_stat.cpp:66-90 | one smoothing step in 32-bit arithmetic, skipped for deviations of five seconds and more |
| StreamStat.StreamStat.MaybeAppendReportBlockAndReset | src/modules/rtp_rtcp/receive_stat.cpp:126-186 | the block and the new baselines, or nothing if no packet came or the stream is stale |
| StreamStatTheorems.LossLedger | src/modules/rtp_rtcp/receive_stat.cpp:26-48 | after any history every counter is the one of an observer with unbounded numbers: the ledger is the sum of the lengths of all epochs, from the first packet to the frontier, minus the packets accepted; max - first + 1 - received if no restart was suspected |
| StreamStatTheorems.UnwrapRecovers | src/modules/rtp_rtcp/receive_stat.cpp:34 | the unwrapper recovers any number within half a circle of the last one, except that a negative one comes out 65536 higher |
| StreamStatTheorems.DeviationIsD | src/modules/rtp_rtcp/receive_stat.cpp:69-78 | the 32-bit difference is the time between two arrivals, in timestamp units, minus the time between their timestamps, whatever wraps, as long as it fits 32 bits itself |
| StreamStatTheorems.ReportedBlocks | src/modules/rtp_rtcp/receive_stat.cpp:126-186 | over every history there is a block for each report that finds a packet received and the frontier moved in the last eight seconds; block i carries the SSRC, the loss above its deepest value, cut at 2^23 - 1, the low 32 bits of the end of the last epoch, a jitter from 1.4375 below to 0.5 above the real-valued average, and the low 8 bits of the 255ths lost since report i - 1 |
| StreamStatTheorems.FractionExact | src/modules/rtp_rtcp/receive_stat.cpp:144-151 | a field with the low 8 bits of the 255ths is the exact one if and only if 255 times the loss is below 256 times what was expected |
| StreamStatTheorems.FractionFits | src/modules/rtp_rtcp/receive_stat.cpp:144-151 | the fraction field of report i is exact if and only if 255 times the distance restarts went back since report i - 1, less the packets accepted meanwhile, is below what was expected, and 0 without loss; the loss stays within what was expected if and only if that excess is not positive |
| StreamStatTheorems.ThirtyTwoBitsSuffice | src/modules/rtp_rtcp/receive_stat.cpp:26-48 | the ledger fits 32 bits for the first 4782813 accepted packets, and the product in the fraction in every interval of at most 18756 |
| StreamStatTheorems.BackwardRestartOverflowsFraction | src/modules/rtp_rtcp/receive_stat.cpp:98-106 | a history with a restart that goes back whose block says 252/255 for 508/255 |
| StreamStatTheorems.ReportedLoss | src/modules/rtp_rtcp/receive_stat.cpp:158-177 | the cumulative loss in block i is min(2^23 - 1, loss_i - min(0, least loss so far)), hence from 0 to 2^23 - 1 |
| StreamStatTheorems.ReportedDifference | src/modules/rtp_rtcp/receive_stat.cpp:153-164 | below the cap, the difference between the losses in two blocks is the true one if and only if no new low came in between |
| StreamStatTheorems.ReportFalls | src/modules/rtp_rtcp/receive_stat.cpp:155-177 | the loss falls from one block to the next if and only if the ledger falls while the earlier block is above 0 and the later report, measured from the low of the earlier, below the cap |
| StreamStatTheorems.ReportedLossCanDrop | src/modules/rtp_rtcp/receive_stat.cpp:155-158 | a history whose two blocks carry the losses 5 and 3 |
| StreamStatTheorems.SmoothedTracks | src/modules/rtp_rtcp/receive_stat.cpp:83-89 | one fixed-point step keeps within 8/16 of the real-valued one and within the range where 32-bit arithmetic is exact |
| StreamStatTheorems.JitterTracksAverage | src/modules/rtp_rtcp/receive_stat.cpp:53-90 | after any history the fixed-point jitter is within 8/16 of the real-valued average of appendix A.8 of RFC 3550, taken over the arrival times and unwrapped timestamps of the packets that moved the frontier, and in range |
| ReceiveStat.ReceiveStat.GetOrCreateStat | src/modules/rtp_rtcp/receive_stat.cpp:206-215 | an unknown SSRC gets empty statistics and is registered once; the registry is exactly the key set |
| ReceiveStat.ReceiveStat.OnRtpPacket | src/modules/rtp_rtcp/receive_stat.cpp:219-224 | the packet changes the statistics of its SSRC only |
| ReceiveStat.ReceiveStat.RtcpReportBlocks | src/modules/rtp_rtcp/receive_stat.cpp:229-245 | blocks, statistics and cursor of one call |
| ReceiveStatTheorems.VisitsAtLeast | src/modules/rtp_rtcp/receive_stat.cpp:234 | a call visits as many SSRCs as it may report, or all |
| ReceiveStatTheorems.VisitsContinue | src/modules/rtp_rtcp/receive_stat.cpp:235-242 | the visits of a call continue the cycle where all earlier calls left it |
| ReceiveStatTheorems.EverySsrcIsVisited | src/modules/rtp_rtcp/receive_stat.cpp:229-245 | with n SSRCs and at least m blocks a call, any ceil(n/m) calls in a row visit every SSRC |
| ReceiveStatTheorems.EverySsrcIsVisitedWhileGrowing | src/modules/rtp_rtcp/receive_stat.cpp:206-245 | the same for SSRCs registered when the calls begin, while others are appended, n being the size the registry grows to |
| ReceiveStatTheorems.NoSsrcTwice | src/modules/rtp_rtcp/receive_stat.cpp:233-239 | no call reports an SSRC twice |
| ReceiveStatTheorems.CallReports | src/modules/rtp_rtcp/receive_stat.cpp:229-245 | a call returns exactly the blocks owed to the SSRCs it visits, from the statistics it found, in order, at most as many as allowed and fewer only if all were visited; the SSRCs reported are reset and all others unchanged |
| ReceiveStatTheorems.EverySsrcIsReported | src/modules/rtp_rtcp/receive_stat.cpp:229-245 | of any ceil(n/m) calls in a row one returns the block of a given SSRC, if it has something to report when its turn comes |
| ReceiveStatTheorems.IdleCall | src/modules/rtp_rtcp/receive_stat.cpp:232-242 | a call that may report nothing, or knows nobody, changes nothing but sends the cursor back to 0 |
| ReceiveStatTheorems.OwnHistory | src/modules/rtp_rtcp/receive_stat.cpp:206-245 | after any history an SSRC is known exactly if it had a packet, and its statistics and all blocks ever sent of it are those of its own packets and reports alone |
| LockFreeQueue.LockFreeQueue.Produce | src/base/lock_free_queue.h:61-71 | appends the value and frees every node in front of the divider |
| LockFreeQueue.LockFreeQueue.Consume | src/base/lock_free_queue.h:73-82 | takes the oldest value if there is one, and frees nothing |
| LockFreeQueue.LockFreeQueue.Empty | src/base/lock_free_queue.h:84-86 | tells whether anything is left to consume |
| RtcWorker.RtcWorker.SendRtcMsg | src/server/rtc_worker.cpp:117-121 | the message is queued before the bell rings and stays queued if ringing fails |
| RtcWorker.RtcWorker.ProcessRtcMsg | src/server/rtc_worker.cpp:250-254 | dispatches the oldest message; messages dispatched and waiting together stay the same |
| RtcWorker.RtcWorker.ProcessNotify | src/server/rtc_worker.cpp:285-297 | dispatches on the token: stops, or handles a message if there is one |
| RtcWorker.RtcWorker.OnPipeReadable | src/server/rtc_worker.cpp:28-40 | takes the first token off the pipe and acts on it, or does nothing if there is none; no message is lost or invented |
| QueueProtocol.StepOk | src/base/lock_free_queue.h:61-82 | every single read or write of either thread keeps the list, its values and its size consistent |
| QueueProtocol.FirstInFirstOut | src/base/lock_free_queue.h:61-82 | under every interleaving what was consumed is a prefix of what was produced, no freed node is touched, nothing at or behind the divider is freed, and the size is right up to two increments in flight |
| QueueProtocol.EveryTokenFindsAMessage | src/server/rtc_worker.cpp:98-121 | every token finds a message, and a drained pipe with both sides at rest leaves exactly the messages whose bell failed |
| Stun.StunMessage.AddAttribute | src/ice/stun.cpp:221-230 | appends the attribute and counts it, padded, in the 16-bit length |
| Stun.StunMessage.Write | src/ice/stun.cpp:309-328 | writes header and attributes as `Print` |
| Stun.StunMessage.Read | src/ice/stun.cpp:232-307 | succeeds exactly if `Parse` does, with its result; a failure leaves exactly the fields read so far changed |
| Stun.StunMessage.AddMessageIntegrity | src/ice/stun.cpp:167-201 | adds the digest of everything before it, or fails and leaves the placeholder if the digest has the wrong size |
| Stun.StunMessage.AddFingerprint | src/ice/stun.cpp:203-219 | adds the checksum of everything before it |
| Stun.StunMessage.ValidateMessageIntegrity | src/ice/stun.cpp:87-106 | remembers the password and the verdict, which is "none" without the attribute |
| Stun.StunMessage.ValidateMessageIntegrityOfType | src/ice/stun.cpp:108-165 | the walk with a moving position decides `IntegrityValid` |
| StunTheorems.WrittenSize | src/ice/stun.cpp:221-230 | a message put together from any attributes is written in 20 + length bytes if and only if the attributes take less than 2^16 |
| StunTheorems.PrintAttrsAligned | src/ice/stun.cpp:404-417 | padding keeps everything on four-byte boundaries |
| StunTheorems.ParseUndoesPrint | src/ice/stun.cpp:232-328 | parsing a written message succeeds, uses every byte, and gives back type, id and, in order, exactly the attributes of known type |
| StunTheorems.FingerprintRoundTrip | src/ice/stun.cpp:55-85 | what AddFingerprint writes passes ValidateFingerprint and only extends the bytes it vouches for |
| StunTheorems.FingerprintHolds | src/ice/stun.cpp:55-85 | bytes followed by a fingerprint are accepted if and only if they are whole words with header and cookie and the value is their own checksum |
| StunTheorems.FingerprintIsLast | src/ice/stun.cpp:55-85 | whatever is accepted ends in a FINGERPRINT attribute of four bytes |
| StunTheorems.DamageIsDetected | src/ice/stun.cpp:83-84 | other bytes with another checksum, or another value, are rejected |
| StunTheorems.IntegrityExact | src/ice/stun.cpp:108-165 | a message with any digest, followed by other attributes or not, is accepted if and only if the digest is that of the bytes the sender signs, under the password of the receiver |
| StunTheorems.LengthIsChecked | src/ice/stun.cpp:108-119 | accepted bytes with the same first four are equally many |
| StunTheorems.UnsignedIsRejected | src/ice/stun.cpp:120-141 | a message written without MESSAGE-INTEGRITY is accepted under no password |
| StunWire.HeaderLayout | src/ice/stun.cpp:309-317 | type, length, cookie and transaction id byte by byte |
| StunWire.AttrLayout | src/ice/stun.cpp:318-328 | type, unpadded length, value and zeros up to the next word, byte by byte |
| StunWire.ParseExact | src/ice/stun.cpp:274-307 | the attribute parser accepts exactly the strings of wire attributes, only the last of which may lack its padding, and returns in order what they say |
| StunWire.MessageExact | src/ice/stun.cpp:232-307 | a message is accepted if and only if it has a header with a clear first bit, a length field that counts the rest, and a rest that is a string of wire attributes; the fields come from their bytes |
| StunTheorems.IntegrityRoundTrip | src/ice/stun.cpp:108-201 | a signed message is accepted under a password if and only if that password gives the same digest of the same bytes |
| StunTheorems.SignedAndFingerprinted | src/ice/stun.cpp:144-152 | the same after a fingerprint was added, which changes the length field; the fingerprint holds as well |
| StunTheorems.SignedMessageIsAccepted | src/ice/stun.cpp:55-328 | what one side signs, fingerprints and writes, the other accepts under the same password and parses, signature included |
| IceController.IceController.AddConnection | src/ice/ice_controller.cpp:30-33 | the connection joins the list and the unpinged set |
| IceController.IceController.OnConnectionDestroyed | src/ice/ice_controller.cpp:35-46 | it leaves the list and both sets; the selected connection is not cleared |
| IceController.IceController.FindNextPingableConnection | src/ice/ice_controller.cpp:95-128 | the selected writable connection if it is due; else one with the oldest ping among those of the round that can be pinged, after starting a new round if there were none |
| IceController.IceController.SelectConnectionToPing | src/ice/ice_controller.cpp:74-93 | the interval in force, and a search only once it has passed |
| IceController.IceController.MarkConnectionPinged | src/ice/ice_controller.cpp:243-247 | moves the connection to the pinged set unless it is there |
| IceController.IceTransportChannel.OnCheckAndPing | src/ice/ice_transport_channel.cpp:339-368 | one turn of the timer: search, ping and mark, or nothing |
| IceController.IceConnection.Ping | src/ice/ice_connection.cpp:400-410 | time and number of pings of this connection |
| IceTheorems.RoundsAlwaysOk | src/ice/ice_controller.cpp:30-46 | in every run the two sets partition the live connections, and nobody pinged in this round was pinged before somebody who was not |
| IceTheorems.SomeoneIsFound | src/ice/ice_controller.cpp:95-128 | a search finds nobody if and only if the selected connection is not due and nobody else can be pinged, whichever set they are in |
| IceTheorems.EveryoneIsPinged | src/ice/ice_controller.cpp:95-128 | from any state and with any clock each of n connections with credentials is pinged within 2n - 1 successive pings |
| IceTheorems.LeastRecentFirst | src/ice/ice_controller.cpp:95-148 | the selected connection if it is due, else the one pinged longest ago of all that can be pinged, although only one set is searched |
| IceTheorems.WhoCanBePinged | src/ice/ice_controller.cpp:59-71 | who can be pinged and when the selected connection is due, in milliseconds: 48 for the first three pings, then 900, or 2500 once the round-trip time is settled |
| IceTheorems.TwoIntervals | src/ice/ice_controller.cpp:74-84 | 480 ms if the selected connection is writable and receiving and everybody was pinged three times, else 48 |
| IceTheorems.PingsAreNoted | src/ice/ice_connection.cpp:400-410 | in every run a connection remembers how often and when it was last pinged since it was added |
| IceTheorems.PingsAreSpaced | src/ice/ice_controller.cpp:150-169 | in every run, with a writable and receiving selection, pings of a connection are at least 48, later 900 or 2500 ms apart |
| IceTheorems.ChannelPaces | src/ice/ice_transport_channel.cpp:339-368 | in every run two pings of the channel are at least 43 ms apart, and 475 once the selection is writable and receiving and everybody was pinged three times |
| IceTheorems.UnansweredPingUnsettles | src/ice/ice_connection.cpp:387-410 | a connection stays settled until its oldest unanswered ping, the new one included, is older than twice the round-trip time |
| IceTheorems.EveryoneIsPingedInOneRound | src/ice/ice_controller.cpp:95-148 | in every run, with an advancing clock, each of n connections with credentials is pinged within n successive pings |
| SeqNum.AheadIsOrder | src/stream/push_stream.cpp:132 | within less than half a circle the wrap comparison is the order of extended numbers |
| SeqNum.TieGoesToLarger | src/stream/push_stream.cpp:132 | exactly half a circle apart the numerically larger number is ahead |
| SeqNum.NearestRecovers | src/stream/push_stream.cpp:130-136 | unwrapping against any frontier within half a circle recovers the extended number |

## Left out

- Sockets, timers, threads, logging, YAML, JSON, DTLS, SRTP, SDP, the stream manager and TCP signaling: outside the core.
- The time is a parameter of every method that reads a clock; the listener and the NACK signal are ghost logs; the outcome of a pipe write is a parameter.
- Hardware memory ordering of the queue: interleavings of atomic steps only; its destructor is not modelled.
- Histogram.Histogram.InverseCdf: probabilities and shares are exact rationals instead of floats, except that zero divided by zero is not a number.
- StreamStat.StreamStat.MaybeAppendReportBlockAndReset: the ledger and the fraction's product are unbounded integers although the code keeps them in 32 bits (`ThirtyTwoBitsSuffice` says for how long that makes no difference); the fraction field is taken as the low 8 bits of the quotient (the report block class is not part of this model).
- StreamStat.StreamStat.UpdateJitter: std::abs of the least 32-bit number is taken mathematically.
- The first report interval starts at number 0 rather than at the first packet, as in the code; `FractionFits` accounts for it.
- ReceiveStatTheorems.EverySsrcIsVisited: like its version for a growing registry, for calls that allow at least one block; a call without visits sends the cursor back to slot 0.
- Stun.StunMessage.ValidateMessageIntegrityOfType: a comparison that would run past the end of the message counts as a mismatch.
- STUN address, error code and 64-bit attributes are written as byte strings and skipped by the parser, as the parser of the code does; write failures of unknown address families are not modelled.
- IceController.IceController.AddConnection: for a connection that is not on the list, which is what the channel passes; a second entry would break the partition.
- IceController.IceTransportChannel.OnCheckAndPing: the refresh of connection states before the search and the restart of the timer after it are not modelled; the theorems let the attributes of connections change between pings.
- IceController.IceController.MarkConnectionPinged: for live connections only, and searches need a selected connection that was not destroyed; the code would follow a dangling pointer otherwise (`MarkKeepsPartition` and `DestructionDangles` in IceTheorems.dfy).
- Sorting and switching of connections, candidate priorities and connection states: the scheduler sees them only as attributes that may change between pings.
- UpdateRtt's caller, the round-trip filter, and the packet buffer that announces key frames: inputs here.
- send_nack_delay_ms_ is the constant 0 in the code and here.
