# wsblast: a verified model of its kernels

wsblast is a WebSocket load generator. This project models the parts of it whose
correctness is not visible from one function, and proves what they promise:

- the permessage-deflate layer (RFC 7692 over the framing of section 5.2 of RFC 6455): a
  byte stream rewritten frame by frame, however it is split, and two such layers end to end;
- the capture queue, a lock-free claim, queue and undo protocol, with its writer threads;
- the sharded latency histogram and the merge of every worker's metrics;
- the arrival-rate and staged load schedulers;
- the Gregorian calendar, the CSV reader, the address race, base64 and capture replay.

One module follows one component. Code that loops over buffers or changes fields is a
`method` or a `class` whose contract ties the new state to a specification function; the
lemmas are about those functions. Nothing is assumed: the compression library is a parameter
`Codec` with the laws in `Deflate.Lawful`, and `Deflate.PairCodecIsLawful` shows that some codec
has them. `Connection.Handshake` shows that two ends can reach an agreement.

| module | component |
|---|---|
| `Common` | options, bytes, sums |
| `FrameHeader`, `Frames` | frame headers, masking, frames on the wire |
| `Rewriting` | the incremental rewriter: cutting, rewriting, heads, cursors |
| `Deflate`, `FrameSteps`, `EndToEnd` | what happens to one frame, and what it means; a run of frames there and back |
| `Fragments` | a compressed message received in fragments |
| `DeflateStream`, `Connection` | the layer as an object; two of them joined, over whole runs |
| `CaptureQueue`, `CaptureRuns`, `CaptureLimit` | the protocol's steps; what every run keeps; when a record is refused |
| `CaptureWriters` | the writer loops |
| `HistogramLayout`, `AtomicHistogram` | bucket arithmetic; sharded recording |
| `Metrics`, `Totals`, `ArrivalCounts` | live counters, merged totals, arrival peaks |
| `Arrivals`, `Stages` | the two schedulers |
| `Csv`, `CsvText`, `CsvAccepted` | the CSV reader; what it finds in printed documents; which texts it accepts |
| `Calendar`, `Base64`, `Replay`, `AddressRace` | self-contained algorithms |

## What turned out differently from what is written

- `METHODOLOGY.md` line 469 says a record is dropped when the limit's number of records
  "have already been queued". Workers that pass the limit check together can claim beyond the
  limit, and such a claim is not given back, so records can be dropped with fewer queued, for
  every queue capacity (`CaptureLimit.OvershootWastesSlot`). In every reachable state a record is
  refused exactly when queued records, slots held by calls in progress and overshoots together
  reach the limit (`CaptureLimit.Refusal`, for the check before the claim and the one on it);
  with no call in progress only queued records and overshoots count (`QuietRefusal`), and when
  calls never overlap only queued records do (`SequentialRefusal`). The file never exceeds the
  limit.
- The counter of bytes sent covers frames with opcode 1 or 2 only: bytes of continuation
  frames are in neither of the two outbound counters. It equals the data bytes exactly when
  every other data frame is empty (`Deflate.OutboundAccounting`).
- `base64::decode` is documented to return `None` for anything `encode` does not write. It
  also accepts a last digit whose unused bits are set, such as `Zh==`
  (`Base64.AcceptsSpareBits`); those texts are the only exception (`Base64.EncodeDecoded`).
- `ArrivalCounts::add` keeps a peak within the highest interval sum even when one machine sent
  no intervals: the merged peak then leaves that machine out, and is below its own peak exactly
  when the other's is lower (`ArrivalCounts.MergeWithoutIntervals`).
- A capture that is finished while a stream is still open can leave a record out of every
  count, whatever the capacity and the limit (`CaptureRuns.EarlyFinishLosesCount`); `CaptureRuns.Conservation` gives the exact
  deficit at every moment.

## Model

| member | source | states |
|---|---|---|
| FrameHeader.BigEndianRoundTrip | src/deflate.rs:225-275 | The length field of either width reads back as the number written. |
| FrameHeader.ParseWritten | src/deflate.rs:221-276 | A written header followed by any bytes parses to the same flags, opcode, mask and payload length, and to its own length. |
| FrameHeader.ParseIsPrefixFree | src/deflate.rs:221-254 | No proper prefix of a header parses; once one does, more bytes never change the result. |
| FrameHeader.WriteParsed | src/deflate.rs:257-276 | Writing a parsed header gives its bytes back if and only if the length was encoded in the shortest form. |
| FrameHeader.ParseLength | src/deflate.rs:221-253 | For every buffer: the length is the 7 bits of the second byte, or the two bytes behind 126, or the eight behind 127; a key of four bytes follows if the top bit is set; and there is no header exactly while bytes of that are missing. |
| FrameHeader.ParseFlags | src/deflate.rs:245-253 | FIN, RSV1, RSV2 and RSV3 and the opcode are the bits 0x80, 0x40, 0x30 and 0x0f of the first byte. |
| FrameHeader.WriteLayout | src/deflate.rs:257-275 | Byte by byte what is written: flags, mask bit and length up to 125, two bytes of length up to 0xffff, eight above, then the key. |
| FrameHeader.FlagByteFields | src/deflate.rs:257-263 | The first byte keeps FIN, RSV1 to RSV3 and the opcode apart. |
| FrameHeader.MaskTwice | src/deflate.rs:280-284 | Masking is its own inverse for every key. |
| FrameHeader.MaskBit | src/deflate.rs:280-284 | In byte `i` exactly the bits are flipped that byte `i` modulo 4 of the key has. |
| FrameHeader.ApplyMask | src/deflate.rs:280-284 | The in-place loop masks every byte with its own key byte and nothing else. |
| Rewriting.RewriteStreams | src/deflate.rs:386-457 | Rewriting `a + b` is rewriting `a`, then the tail it left over together with `b`, from the state it left. |
| Rewriting.RewriteSettles | src/deflate.rs:400-457 | What is left over never holds a complete frame. |
| Rewriting.RewriteUsed | src/deflate.rs:400-457 | The bytes used up, rewritten alone, give the same frames and state with nothing left over. |
| Rewriting.RewriteLoop | src/deflate.rs:400-457 | The loop with its cursor outputs exactly the frames of the one pass, keeps exactly its tail, and fails exactly when it does. |
| Rewriting.HeadEndStable | src/deflate.rs:353-360 | The end of an HTTP head depends on the head alone. |
| Rewriting.HeadEndsAtBlankLine | src/deflate.rs:353-360 | A head ends behind the first CR LF CR LF, and has not ended while there is none. |
| Rewriting.RewriteIsOnePass | src/deflate.rs:386-457 | Whatever was rewritten before, rewriting what waits gives the one pass over everything received. |
| Rewriting.RewriteKeepsTrack | src/deflate.rs:386-457 | After a rewrite, output so far, tail and codec state are those of the one pass. |
| Rewriting.MoveKeepsTrack | src/deflate.rs:397-399 | With compression declined, everything received comes out unchanged. |
| Rewriting.ProcessHalf | src/deflate.rs:386-457 | One direction fails exactly when the one pass over everything received does, and is otherwise settled on it. |
| Rewriting.TakeKeepsTrack | src/deflate.rs:619-628 | Handing bytes to the reader, in any amounts, neither loses nor repeats one. |
| Rewriting.ThroughKeepsTrack | src/deflate.rs:637-639 | Bytes that bypass the buffers of a declined direction arrive in their place. |
| Frames.CutSerialized | src/deflate.rs:401-413 | A frame in front of any bytes is cut off again, or refused for its size. |
| Frames.CutValid | src/deflate.rs:401-413 | A cut takes off a well-formed frame within the limit and leaves the rest. |
| Frames.RewriteSerialized | src/deflate.rs:400-457 | Rewriting serialized frames is folding the frame step over them. |
| Frames.RewriteOfFrames | src/deflate.rs:400-457 | Every error-free rewrite is a fold over frames that, with the tail, make up the input. |
| Frames.WireIsUnique | src/deflate.rs:221-276 | Frames can be read off the wire in only one way. |
| Frames.RebuiltValid | src/deflate.rs:257-284 | A rebuilt frame is well formed and unmasks to the payload put into it. |
| Deflate.InboundAccounting | src/deflate.rs:400-457 | The received counters equal the data bytes delivered and the data bytes taken off the wire; control frames count in neither. |
| FrameSteps.SendsCompressed | src/deflate.rs:144-150 | A client compresses exactly its whole text and binary messages without RSV1, and exactly when its own window is unset or 15 bits; a server likewise with its own. RSV1 tells; any other frame goes out as it is. |
| FrameSteps.SentMessage | src/deflate.rs:509-586 | A compressed frame carries what the deflater gave for the unmasked payload, less `00 00 ff ff`; the context is new for the next message exactly if the agreement says so of the sending end. |
| FrameSteps.SentOther | src/deflate.rs:509-561 | Any other frame leaves the deflater alone and counts if its opcode is 1 or 2. |
| FrameSteps.ReceivedControl | src/deflate.rs:411-456 | A control frame changes nothing and counts in nothing. |
| FrameSteps.ReceivedPlain | src/deflate.rs:411-456 | A data frame of a message that is not compressed comes through as it is and counts in both counters. |
| FrameSteps.ReceivedCompressed | src/deflate.rs:411-493 | A frame of a compressed message is inflated, with `00 00 ff ff` behind the last one, refused exactly when that fails or the message passes 64 MiB; the context is new exactly if the agreement says so of the other end. |
| FrameSteps.FrameLimits | src/deflate.rs:400-407 | Inbound a frame is refused exactly when its payload is above 64 MiB; outbound none is. |
| Deflate.OutboundAccounting | src/deflate.rs:509-561 | The sent counters equal the bytes of the frames that open a message, before and after; and equal all data bytes if and only if other data frames are empty. |
| Deflate.ContinuationBound | src/deflate.rs:461-493 | Over the fragments of a message the running total is exact and stays within the limit. |
| Deflate.MessageBound | src/deflate.rs:461-493 | In every error-free run the bytes delivered for one compressed message, all fragments together, stay within 64 MiB. |
| EndToEnd.DeliveredSame | src/deflate.rs:400-561 | A delivered frame has the same flags, opcode, mask key and payload, and the same bytes if and only if it was not compressed or its length was in shortest form. |
| EndToEnd.FrameRoundTrip | src/deflate.rs:144-166 | One frame sent and received comes back, the codec contexts of both ends stay in step under every agreed reset rule, and a frame over a limit is refused. |
| EndToEnd.RunRoundTrip | src/deflate.rs:386-561 | For every run of frames without RSV1, in both roles and for all parameters: the receiver succeeds if and only if the frames fit its limits, and then delivers the same frames in order with contexts in step. |
| Fragments.FragmentsSurvive | src/deflate.rs:411-441 | However a peer splits a compressed message into fragments, with control frames between, the frames are refused exactly for their size; otherwise each comes through in its place, the payloads joined are the message, and the contexts are in step again. |
| Fragments.FragmentsFrom | src/deflate.rs:417-441 | The same from any fragment on, from the number of bytes inflated before it. |
| EndToEnd.SenderNeverFails | src/deflate.rs:496-586 | Compressing never fails, whatever the frames. |
| DeflateStream.InHeadPasses | src/deflate.rs:353-381 | The inbound head passes unchanged and fixes the agreement on a client only. |
| DeflateStream.OutHeadPasses | src/deflate.rs:353-381 | The outbound head passes unchanged and fixes the agreement on a server only. |
| DeflateStream.DeflateStream.EndHeadIn | src/deflate.rs:353-381 | Fails exactly when more than 64 KiB arrived without a head's end; loses no byte. |
| DeflateStream.DeflateStream.EndHeadOut | src/deflate.rs:353-381 | The same for the outbound direction. |
| DeflateStream.DeflateStream.ProcessIn | src/deflate.rs:386-457 | Either everything that went in is settled on its one-pass rewrite, or that rewrite fails. |
| DeflateStream.DeflateStream.ProcessOut | src/deflate.rs:496-561 | The same for everything accepted from the writer. |
| DeflateStream.DeflateStream.PollRead | src/deflate.rs:611-648 | However the connection delivers bytes, and even if compression was refused before the head came, the reader gets consecutive output, some whenever it has room for it; it waits only when all there is was read and settled; and a settled client stays settled. |
| DeflateStream.DeflateStream.PollDrain | src/deflate.rs:595-607 | Writes send output in order, each as much as the connection takes; a write of nothing is an error; it waits only when the connection took all it could, and success has sent everything that was ready. |
| DeflateStream.DeflateStream.PollWrite | src/deflate.rs:652-673 | Accepts the whole buffer, or what the connection takes once compression is refused, and leaves the outbound side settled; it waits only behind more than 256 KiB or for the connection; or it fails. What was sent only grows, by what the connection took. |
| DeflateStream.DeflateStream.PollFlush | src/deflate.rs:675-682 | A completed flush has sent the whole one-pass rewrite of what was accepted. |
| Connection.ClientAgreement | src/deflate.rs:353-381 | A settled client's agreement is a function of the bytes received. |
| Connection.SplitIndependence | src/deflate.rs:386-457 | Two clients that received the same bytes in different pieces have the same output, tail, codec state and agreement. |
| Connection.DeclinedIsIdentity | src/deflate.rs:346-399 | A declined agreement makes both directions the identity at every moment, before or after their own heads. |
| Connection.AgreementsMatch | src/deflate.rs:353-381 | Two joined ends never hold different agreements. |
| Connection.HandshakeAgrees | src/deflate.rs:353-381 | However the handshake was split, a settled client with the whole response head and the server that wrote it hold the agreement that head names. |
| Connection.DeliveredPrefix | src/deflate.rs:386-561 | Whatever part of the wire has arrived, what was delivered is the writer's first frames. |
| Connection.Delivery | src/deflate.rs:386-561 | For any two joined ends that agreed, the reader has the head and the writer's first frames, in order and unchanged, and all of them once everything put out was received and processed. |
| Connection.RunPolls | src/deflate.rs:593-682 | After any list of reads, writes and flushes of two new ends, what an end received and what is on its way is what the other sent. |
| Connection.Session | src/deflate.rs:353-682 | After any such list, so at every moment of every run, the ends are joined, never hold different agreements, and deliver in both directions. |
| Connection.StreamAccounting | src/deflate.rs:400-457 | The received counters of a live connection equal the data bytes of the frames delivered and taken. |
| Connection.SendAccounting | src/deflate.rs:509-561 | The sent counters of a live connection equal the bytes of the text and binary frames accepted and sent. |
| CaptureRuns.InvRun | src/capture.rs:230-257 | Every interleaving keeps the slot, offer, writer and finish invariants. |
| CaptureRuns.LimitHolds | src/capture.rs:230-257 | In every reachable state claims are queued records, held slots and overshoots; queued records never exceed the limit, and the file is a prefix of the queue order. |
| CaptureRuns.Conservation | src/capture.rs:167-210 | In every reachable state records offered are written, lost, dropped, queued or in a call; after an orderly finish written, dropped and lost add up to them. |
| CaptureRuns.NothingLost | src/capture.rs:418-462 | Without a failing write the file holds every record the writer took. |
| CaptureRuns.NothingWritten | src/capture.rs:418-462 | When the header cannot be written, every record taken is lost. |
| CaptureRuns.NothingDropped | src/capture.rs:230-257 | As long as the queue could hold all records there were, the limit allows them and the writer runs, none is dropped. |
| CaptureRuns.NeverStuck | src/capture.rs:230-257 | In every reachable state each call in progress can take its next step, and each stream between calls can start one or close. |
| CaptureRuns.EarlyFinishLosesCount | src/capture.rs:167-210 | For every capacity and every limit, a run that finishes with a stream open and leaves one record uncounted. |
| CaptureLimit.SequentialLimitIsExact | src/capture.rs:230-257 | Without overlapping calls nothing overshoots, so a record refused by a full queue uses no slot. |
| CaptureLimit.SequentialRefusal | src/capture.rs:230-240 | Without overlapping calls the limit check refuses exactly when the limit is queued. |
| CaptureLimit.Refusal | src/capture.rs:230-240 | In every reachable state the limit check refuses exactly when queued records, held slots and overshoots reach the limit, and so does the check on the claim itself. |
| CaptureLimit.QuietRefusal | src/capture.rs:230-240 | With no call in progress only queued records and overshoots count. |
| CaptureLimit.OvershootWastesSlot | src/capture.rs:230-257 | For every queue capacity, a run of three workers after which a record is refused with room in the queue, fewer records queued than the limit and no call in progress. |
| CaptureWriters.WriteRecords | src/capture.rs:418-462 | The file holds the records before the finish marker up to the first write that fails, and all others are counted lost; none if the header fails. |
| CaptureWriters.ForwardRecords | src/capture.rs:554-587 | Every record received is in exactly one batch, in order, of 1 to 1024 records; the lost count is that of the batches the channel refused. |
| CaptureWriters.TakePoll | src/capture.rs:554-587 | A batch goes out when it has 1024 records or when no record is waiting, and not before. |
| CaptureWriters.MergeBatches | src/capture.rs:661-704 | The file holds the first records received, up to the limit or the first write that fails; written and lost together stay within the limit, and with those over it add up to all received. |
| CaptureWriters.LineIs | src/capture.rs:679-688 | A merged line has its record, its agent, and its time on the coordinator's clock, stopping at the largest 64-bit number. |
| HistogramLayout.BucketBounds | src/histogram.rs:44-50 | Each bucket covers one power of two above 2048, the first everything below. |
| HistogramLayout.Brackets | src/histogram.rs:32-60 | Every value lies from its count's lowest value up to the next count's. |
| HistogramLayout.ValueAtBlock | src/histogram.rs:52-60 | Counts 0 to 1023 are one microsecond each from 0; of every 1024 after that, each is twice as wide as in the block before, from 1024 on. |
| HistogramLayout.BelowIff | src/histogram.rs:44-60 | A value is in a count below `i` if and only if it is below `value_at(i)`. |
| HistogramLayout.IndexOfValueAt | src/histogram.rs:44-60 | `index_of` inverts `value_at` on every index. |
| HistogramLayout.IndexOfMonotone | src/histogram.rs:44-50 | `index_of` is monotone. |
| HistogramLayout.IndexInBounds | src/histogram.rs:40-50 | Every value up to the highest has a count. |
| HistogramLayout.Resolution | src/histogram.rs:44-60 | A value exceeds its count's lowest value by less than one part in 1024. |
| AtomicHistogram.CountsBelow | src/histogram.rs:83-87 | Recording adds to the counts below `i` exactly the clamped samples below `value_at(i)`. |
| AtomicHistogram.QuantilesExact | src/histogram.rs:83-87 | For every list of samples the counts below `i` are exactly the clamped samples below `value_at(i)`. |
| AtomicHistogram.SamplesExact | src/histogram.rs:83-87 | For every list of samples as they were taken, the counts below `i` are exactly the samples below `value_at(i)`, from 1 microsecond to 60 seconds; below that range none, above it all. |
| AtomicHistogram.WhereSamplesGo | src/histogram.rs:83-87 | A sample of 0 counts as 1, one above 60,000,000 as that, any other as itself. |
| AtomicHistogram.AtomicHistogram.Record | src/histogram.rs:83-88 | The shards together hold one sample more, whichever shard it went to. |
| AtomicHistogram.AtomicHistogram.AddTo | src/histogram.rs:91-100 | Merging the shards gives the histogram that recording every sample directly gives. |
| AtomicHistogram.AddShard | src/histogram.rs:91-100 | Replaying a shard by lowest values adds its counts, index by index. |
| Metrics.Snapshot | src/metrics.rs:101-117 | The snapshot is the sum over the shards. |
| Metrics.ContributionStep | src/metrics.rs:343-504 | Every `record_*` call changes a worker's own totals by exactly what it adds to its shard. |
| Metrics.AgreesRun | src/metrics.rs:78-117 | Every trace of calls by any number of workers keeps live and own counts in agreement. |
| Metrics.LiveAgreesWithTotals | src/metrics.rs:343-504 | For every trace the summed shards equal the workers' metrics in every field both keep, and every live counter is that of the trace's calls: opens less closes, first handshakes, failures, reconnects, messages, bytes, errors, unsolicited frames. |
| Metrics.WorkersAreLedgers | src/metrics.rs:343-504 | For every trace each worker's counters are those of its own calls, error categories one by one, and over all workers each category is counted once for every call that reported it. |
| Totals.AbsorbsEachOnce | src/metrics.rs:1257-1275 | Each distinct recorder is counted exactly once. |
| Totals.MergeOrder | src/metrics.rs:1257-1275 | Any order and any repetition of the same recorders gives the same histograms. |
| Totals.HistogramLen | src/metrics.rs:1358-1362 | A merged histogram holds as many values as were recorded. |
| Totals.MetricsTotals.AddRecorder | src/metrics.rs:1265-1275 | The three histograms stay those of the recorders counted so far. |
| Totals.MetricsTotals.AddWorkerCounts | src/metrics.rs:1279-1297 | The totals stay the sum over the workers added; errors add up by category. |
| Totals.MergeWorkers | src/metrics.rs:1421-1431 | A finished run's totals are those of all its workers, with each recorder once. |
| Totals.Report | src/metrics.rs:1337-1368 | For every trace, the merged totals object equals the live snapshot in every field both keep, and the trace's calls in every error category, in errors that ended a sent message and in interrupted workers; from that object, established slots are the first handshakes, interrupted and not started ones follow as far as slots are left, and the rest failed. |
| Totals.Finish | src/metrics.rs:1358-1368 | Established slots are the handshakes without the reconnects, interrupted ones are all there were, each as far as slots are left; the rest failed. |
| Totals.WithNotStarted | src/metrics.rs:1491-1496 | Slots that never started are taken from the failed ones, all of them or until none is left. |
| ArrivalCounts.ObserveConsistent | src/metrics.rs:230-241 | The peak stays the maximum of the interval peaks, filled gaps included. |
| ArrivalCounts.ObservedPeak | src/metrics.rs:230-241 | After any observations the peak is the highest number observed. |
| ArrivalCounts.IntervalPeaksAre | src/metrics.rs:230-241 | The peak of an interval that was observed is its highest count, and that of one passed without an observation the first count after it; there are as many as intervals up to the last observation. |
| ArrivalCounts.MergePeak | src/metrics.rs:244-258 | Merging adds peaks by interval; the merged peak is the highest sum, at least each peak and at most their sum. |
| ArrivalCounts.MergeWithoutIntervals | src/metrics.rs:244-258 | A machine without intervals adds nothing to the peak of one with intervals, so the merged peak covers both exactly when the latter's is the higher; two without add up. |
| ArrivalCounts.MergeAssociates | src/metrics.rs:244-258 | Merging is associative for recorded counts. |
| ArrivalCounts.MergeOrder | src/metrics.rs:244-258 | Any number of machines merged in any order gives the same counts. |
| ArrivalCounts.MergeAllSums | src/metrics.rs:244-258 | The merge of many is the pointwise sum and its maximum, at least each peak and at most the sum of peaks. |
| ArrivalCounts.MergeAllCounters | src/metrics.rs:244-248 | Started and skipped arrivals add up over the machines. |
| ArrivalCounts.Recorder.Observed | src/metrics.rs:230-241 | The in-place update is the specification's. |
| ArrivalCounts.Recorder.Add | src/metrics.rs:244-258 | The in-place merge is the specification's. |
| Arrivals.DueBelow | src/runner.rs:466-501 | A handled count between a due and a not yet due arrival is exactly the due arrivals. |
| Arrivals.CatchUp | src/runner.rs:466-501 | One wake-up handles every arrival due and no other, with no drift, within the cap. |
| Arrivals.RunArrivals | src/runner.rs:426-502 | After every wake-up exactly the arrivals due and before the end were handled, each at the first wake-up at or after its time; an arrival is skipped exactly when the sessions then open reach the cap, and those are the sessions started and not found finished at the wake-ups so far; started and skipped add up, and the peaks are those of the open sessions in each interval. |
| Arrivals.DueIs | src/runner.rs:466-501 | Arrival `k` is due `k / rate` seconds after the start, if that is before the end. |
| Arrivals.IntervalHolds | src/runner.rs:435-437 | The interval of a time is the number of whole intervals before it. |
| Stages.BetweenTargets | src/config.rs:1127-1141 | Within a stage the target stays between its two ends. |
| Stages.MonotoneInStage | src/config.rs:1127-1141 | Of two moments of one stage, the later has the higher target if the stage goes up and the lower one if it goes down. |
| Stages.TargetDuring | src/config.rs:1127-1141 | At a moment of stage `k` the target is on the line from the target before it to its own. |
| Stages.TargetNearest | src/config.rs:1127-1141 | That is the whole number nearest to the straight ramp between the two, the upper one of two as near. |
| Stages.HighestIs | src/config.rs:807-811 | The connections of a staged run are the target of some stage that no other exceeds. |
| Stages.TargetBounded | src/config.rs:1127-1141 | The target never exceeds the highest stage target, and ends at the last. |
| Stages.TargetAt | src/config.rs:1127-1141 | The loop over the stages computes the specification's target. |
| Stages.TicksOk | src/runner.rs:375-408 | After any ticks the open workers number exactly the last target, ids are used once from 0, and each worker is open or closed once. |
| Stages.Tick | src/runner.rs:386-406 | One tick opens or closes to the target, most recent first. |
| Stages.TickMoves | src/runner.rs:386-406 | What a tick opens are the next ids in order; what it closes are the workers opened last, the last one first. |
| Stages.RunStages | src/runner.rs:375-408 | Every worker started is returned exactly once, as many as the targets rise, and none beyond the highest target. |
| Calendar.YearOfEraFits | src/clock.rs:25-30 | The year of era is the one whose days hold the given day. |
| Calendar.CivilValid | src/clock.rs:23-34 | Every day number has a date that exists. |
| Calendar.CivilSuccessor | src/clock.rs:23-34 | The next day number has the next date, leap years and eras included. |
| Calendar.CountInverts | src/clock.rs:23-34 | Counting days inverts the conversion for every integer. |
| Calendar.CivilInverts | src/clock.rs:23-34 | The conversion inverts counting for every date that exists. |
| Calendar.FieldsExact | src/clock.rs:7-20 | The timestamp's fields are in range and give the instant back. |
| Csv.ParseCsv | src/data.rs:145-218 | The character loop with its lookahead computes the specification, errors included. |
| Csv.CheckColumns | src/data.rs:260-270 | Accepts exactly named, distinct columns, and otherwise names the first bad one. |
| Csv.CheckWidths | src/data.rs:203-217 | Accepts exactly rows of the header's width, and otherwise reports the first other row by its line, with its values and the columns. |
| CsvText.ReadsPrinted | src/data.rs:145-218 | However records are printed, with LF or CRLF, blank lines, any sufficient quoting and an optional last line break, the reader finds those records and the lines they end on. |
| CsvText.RoundTrip | src/data.rs:145-218 | Such a document reads back exactly if and only if its records form a table. |
| CsvAccepted.AcceptedIsPrinted | src/data.rs:145-200 | The reader gets through a text if and only if it is the printed form of some document; any other text it refuses for a quote. |
| CsvAccepted.ExplainDoc | src/data.rs:154-200 | The document of an accepted text, from the start of any line on. |
| Csv.WhitespaceIs | src/data.rs:262 | A column has no name when all its characters are among the 25 of Unicode's White_Space. |
| Csv.ParsedIsTable | src/data.rs:198-218 | Whatever the text, what is returned has named, distinct columns and rows of their width. |
| Csv.QuoteErrorsOnTheirLine | src/data.rs:175-197 | An unclosed quote is reported on the last line and a stray one on its own, counting line breaks inside quotes. |
| Base64.Encode | src/base64.rs:26-47 | The loop over chunks of three computes the specification. |
| Base64.Decode | src/base64.rs:53-79 | The loop over groups of four computes the specification. |
| Base64.Sextet | src/base64.rs:82-92 | The digit values are the inverse of the alphabet, and nothing else has one. |
| Base64.DigitsAreStandard | src/base64.rs:7 | The digits are A-Z, a-z, 0-9, `+` and `/`, and the padding is `=`. |
| Base64.ChunkBits | src/base64.rs:27-44 | A chunk's bits go six to a digit from the top, zeros fill the last one, and a `=` stands for every byte missing. |
| Base64.DecodeEncoded | src/base64.rs:26-92 | Every byte string survives encoding and decoding. |
| Base64.AcceptsExactly | src/base64.rs:53-92 | Accepts exactly whole groups of digits with at most two `=` at the very end. |
| Base64.EncodeDecoded | src/base64.rs:26-92 | An accepted text is what the encoder writes for its bytes if and only if its unused bits are zero. |
| Base64.AcceptsSpareBits | src/base64.rs:53-79 | An accepted text that the encoder does not write. |
| Replay.LineSurvives | src/capture.rs:386-413 | The line of any record is readable and gives its received payload back. |
| Replay.LineTells | src/capture.rs:386-413 | A line's time, worker, direction, kind, wire length, code and payload, for every kind of record. |
| Replay.FrameIs | src/mock.rs:1280-1293 | Of any line, only received text and binary frames are replayed, and only a received binary frame that is not base64 is unreadable. |
| Replay.ReadLines | src/mock.rs:1271-1296 | Each worker's entry has its earliest time and its received frames in file order, in agent and worker order; the first unreadable line is reported. |
| Replay.StableOrderIsUnique | src/mock.rs:1298-1303 | Any stable sort by time gives the same order. |
| Replay.Play | src/mock.rs:1298-1312 | Offsets from the first record never go below zero. |
| Replay.OffsetsNeverGoBack | src/mock.rs:1302-1312 | Offsets are non-decreasing and no frame is lost. |
| Replay.InRecordedOrder | src/mock.rs:1302-1312 | Frames recorded in time order are replayed in recording order. |
| Replay.Parse | src/mock.rs:1271-1314 | The script has exactly the workers that received data, in order, each with its frames. |
| Replay.CaptureThenReplay | src/mock.rs:1271-1314 | For every recording, the script gives each worker that received data exactly its payloads in time order; it is empty only if none did, and never unreadable. |
| AddressRace.InterleaveFamilies | src/connect.rs:421-437 | Within each family the order is kept and nothing is lost; families alternate, the first address first, as long as both last. |
| AddressRace.PreferredFirstMovesOne | src/connect.rs:249-264 | One address moves to the front, the others keep their order, whatever position was stored. |
| AddressRace.FailureKeeps | src/connect.rs:366-381 | A failed attempt starts the next at once, keeps the race's invariant and lowers its variant; the race is over only when every attempt failed. |
| AddressRace.DelayKeeps | src/connect.rs:382-387 | The delay starts one more attempt, keeps the invariant and lowers the variant. |
| AddressRace.ConnectTcp | src/connect.rs:358-388 | Whatever ends first: attempts start in list order, once each; it connects only to an address that accepts and fails only after all failed, with the last error; it takes fewer than two turns an address. |

## Left out

- Rewriting.RewriteStreams: works on unbounded lengths; the overflow of a header's length plus its payload beyond 64 bits is not modelled.
- Metrics.ContributionStep: takes one `record_*` call as one step; a snapshot between two atomic updates of one call is not modelled, nor are the chaos counters, named actions and intervals.
- ArrivalCounts.MergePeak: is about counts whose peak is the maximum of their interval peaks, as every recorder's are; `MergeWithoutIntervals` covers a machine that sends a peak alone.
- Arrivals.RunArrivals: computes due times with exact numbers, not with the rounding of `f64` seconds to nanoseconds.
- Stages.TargetAt: computes with exact numbers, not with `f64`, and without an agent's share of the stages.
- AtomicHistogram.AtomicHistogram.AddTo: models the target histogram by its counts; the minimum and maximum that hdrhistogram keeps beside them are not part of this model.
- CaptureWriters.WriteRecords: counts a record as written when it enters the buffered writer; a failing flush afterwards sets an error and changes no count.
- Replay.Parse: starts from the records the JSON lines hold; the JSON text, the header line and its version check are not modelled.
- AddressRace.ConnectTcp: lets every attempt end sooner or later; the length of the delay and the source addresses are not modelled.
- The DEFLATE algorithm is a parameter with three laws: a sync flush ends in `00 00 ff ff`, inflating it from a context in step returns the data and stays in step, and input may be inflated in pieces. Its window size and memory level are not modelled.
- Parsing of the extension header (`Params::parse`, `negotiated`, `accept_offer`) is a function parameter; the counters of offered and negotiated connections are left out.
- `poll_shutdown`, which is the draining of `PollFlush` and a call into the connection.
- Sockets, TLS, name resolution, timers, signals, file systems and the JSON Lines form of data files: only the steps they trigger are modelled.
- `DataSet::row_for` and `frames_for`, which index a list modulo its length.
- Percentiles, reports, rendering, command line and configuration checks, authentication, chaos draws, templates and the distributed protocol: they would add easier members.
