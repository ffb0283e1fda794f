# The data path of tcp-sans-io, in Dafny

tcp-sans-io is a TCP stack that performs no I/O of its own. Its data path rests on
a few fast mutable structures, each of which stands for something simple: a
scoreboard of sent segments stands for sets of bytes, a bitmap for one flag of
those segments, a list of ranges and the free part of a ring for a set of received
bytes, a word-at-a-time checksum for a sum of 16-bit words. This project models
those structures and proves that they are what they stand for, over every input,
every run of operations and every wrap of a sequence number, and then builds the
protocol-level results on top.

## Layout

The model has two layers. The lower holds the structures as the code does, in
classes and arrays with 32-bit sequence numbers, saturating counters and circular
indices. The upper states what each operation does to a value over unbounded
stream positions. Every method of the lower layer is proved equal to its function
in the upper one, and the theorems are proved there.

| files | about |
|---|---|
| `Serial`, `Circular`, `Bits`, `Options` | wrapping numbers, ring slots, 64-bit words |
| `SackBitmap` | the SACKED bitmap: shifting and searching a word at a time |
| `Scoreboard`, `Sacking`, `QueueRuns`, `Sendings`, `Tails`, `ByteEffects` | the retransmission queue as a value: its operations, SACK blocks, whole runs, when each byte was last sent, partial retransmissions, what each operation does to each byte |
| `RtxQueue` | the retransmission queue as stored |
| `Rack`, `RackRuns`, `WinMin` | RACK loss detection, and the windowed minimum it uses |
| `Ranges`, `Recency`, `OooList` | the out-of-order list as a set of positions, the blocks reported of it, and the list as stored |
| `Ring`, `Reassembly`, `Receiver` | the byte ring and the receive step |
| `Protocol`, `AckEffects`, `SystemRuns`, `Link` | sender and receiver joined by a lossy, duplicating, reordering network: as values, what acknowledgements tell and do, its ends as runs of their own, and as stored with 32-bit numbers on the network |
| `Checksum`, `TcpOptions`, `Wire`, `Acceptance`, `Emit` | the checksum, the codec, exactly what parses, writing a datagram in place |
| `Reno`, `CongestionRuns`, `PrrBounds`, `PrrTargets`, `Undo`, `Congestion` | congestion control: events, episodes over runs, what a reduction lets out and where it leads, whether undos are right, the state in place |

## Main results

- `Protocol.ProtocolIsSafe`, `Link.Link.StoredEndsAreSafe`: in every run, what the sender
  believes acknowledged has been received, and what the receiving application reads is a
  prefix of what was sent; each event does to the stored queue, ring and list what it does
  to the values.
- `SystemRuns.CanFinish`: from every reachable state, whatever was lost, the run can go on
  until all that was sent is delivered, read and acknowledged.
- `AckEffects.AckHeeded`, `AckEffects.PeerAckTells`: an acknowledgement names the first
  missing position and the newest runs above it, and the sender marks exactly those, all of
  them if and only if the queue has a slot for each edge that needs one.
- `Reassembly.After`, `Reassembly.CompleteIff`, `Reassembly.RepairCompletes`: any arrivals
  give only the stream, all of it exactly when every position was brought by an arrival
  that was taken, and always after one more pass in order.
- `QueueRuns.After`, `QueueRuns.PipeIsByteSum`: every run of queue operations keeps the
  scoreboard's invariant, and `pipe` is a count of bytes.
- `Sendings.RecordsLastSending`: in every run each byte's record bears the time and number
  of the last transmission issued for it.
- `Tails.TailNeverStranded`, `Tails.CaredThroughoutIff`: the bytes a partial retransmission
  leaves out are acknowledged, up for retransmission or sent again throughout a run exactly
  when no operation of it takes their marks back or puts new data over them.
- `Sacking.SackIsExact`: a SACK block is marked completely if and only if there is a free
  slot for each of its edges that cuts a segment.
- `SackBitmap.ShiftIsBitByBit`: the word-at-a-time shift is the bit-by-bit move.
- `Rack.DetectLoss`, `Rack.RerunFinishes`, `RackRuns.CondemnedIff`: the skipping,
  early-stopping scan equals the full one, and condemns exactly what it should.
- `Wire.DatagramRoundTrip`, `Wire.ParsedRoundTrip`, `Wire.AnyFlipRejected`,
  `Acceptance.AcceptedIff`: the codec's round trips, rejection of every single-bit
  corruption, and exactly which byte strings are accepted, as what, and with which errors.
- `Recency.NewestFirstBounds`, `Recency.FirstBlockIff`: when the blocks reported are the
  newest ranges, newest first, and when the first covers the latest segment.
- `PrrBounds.PrrBound`, `PrrBounds.EpisodeConserves`, `PrrTargets.ReductionLands`,
  `PrrTargets.FlightRegrows`, `CongestionRuns.UndoIff`, `Undo.UndoReliableIff`: how much a
  reduction lets out, that it brings the data in flight to the threshold, by what count it
  is undone, and exactly when undos can be relied on.

## Where the code and its comments differ

- `src/ooo.rs:230-231` calls the wrap of recency tags harmless. The blocks come by the
  age 32-bit tags show. They are the newest ranges, newest first, if each of those
  measures younger than every older range, and only if none measures older
  (`Recency.NewestFirstBounds`); without ties that is exact (`Recency.NewestFirstIff`), and
  it holds while every range was changed within the last 2^32 - 1 insertions.
  `Recency.StaleReportedFirst` is a list whose blocks come out in the wrong order, and
  `Recency.TieGoesEitherWay` shows that on a tie the ranges' positions decide.
- `src/congestion.rs:194-197` promises an undo once every retransmission of the episode
  has been reported. The code counts segments (`CongestionRuns.UndoIff`). That decides
  rightly, now and however the history goes on with blocks as good, exactly when every
  block counts for as many of the unreported retransmissions as it newly reports and 2^32
  are never unreported (`Undo.UndoReliableIff`). A block that arrives twice does not
  qualify: `Undo.RepeatedBlockUndoes` is an undo with one retransmission never reported.
- `src/tcb/ack.rs:296-300` says a network-duplicated D-SACK cannot undo a congestion
  response. The same two blocks pass its check, since together they count for no more
  segments than were retransmitted.
- `src/rtx_queue.rs:11-16` says the unsent rest of a partial retransmission is lost again
  once the prefix is acknowledged. Afterwards `unmark_lost` and `clear_sacked` can take the
  mark, or the acknowledgement, away again: `Tails.UnmarkStrands` and `Tails.ClearStrands`
  reach queues where they do. The timeout handler follows `clear_sacked` with
  `mark_all_lost`, which restores the guarantee (`Tails.LossRestores`).
- `src/property_tests.rs:172-187` lets a datagram with a flipped bit parse if no field it
  compares changed. No flipped bit gets that far: `Wire.AnyFlipRejected` holds for every
  bit of the datagram, the unused header bits and the header length included.

## What is asked of the environment

Serial comparisons order positions only when they are less than 2^31 apart. Queue and
window spans are at most 2^30 bytes (`Serial.MAX_SPAN`); the edges of an ACK or SACK block
given to the queue lie near it (`RtxQueue.Near`), which `Protocol.AckWithin` proves of every
acknowledgement the sender acts on; compared transmissions are fewer than 2^31 apart
(`Rack.Comparable`); no message arrives after its receiver has moved on by 2^31 bytes
(`Protocol.Enabled`). The queue's callers push contiguous data, never retransmit a SACKED
segment, and resend a partial prefix strictly inside the payload (`QueueRuns.Allowed`).
Clocks, ACK arrival and application reads are parameters and events.

## Model

| member | source | states |
|---|---|---|
| SackBitmap.SetBit | src/rtx_queue.rs:249-258 | exactly the named slot's bit changes, to the named value |
| SackBitmap.ShiftUp | src/rtx_queue.rs:263-288 | in place, every bit of the moved stretch is the one below it was and all others stay, around the ring's wrap |
| SackBitmap.ShiftIsBitByBit | src/rtx_queue.rs:870-895 | what the shift leaves is what moving the bits one by one from the top leaves, and only that, for every start, count and capacity |
| SackBitmap.NextClear | src/rtx_queue.rs:292-308 | the first entry from an index on whose bit is clear, across words and the wrap, or the length |
| Scoreboard.TotalIsSize | src/rtx_queue.rs:350-368 | the three byte counters are the sizes of the sets of SACKED, lost and resent bytes |
| Scoreboard.SplitChain | src/rtx_queue.rs:417-475 | a split keeps contiguity, flag exclusions, partial bounds and FIN last, and the queue's span |
| Scoreboard.SplitMarks | src/rtx_queue.rs:436-474 | a split changes no byte's SACKED or resent mark and marks lost exactly the tail of a partial retransmission it leaves behind |
| Scoreboard.AckChain | src/rtx_queue.rs:480-522 | a cumulative ACK keeps the chain, empties it iff it covers it, and otherwise leaves it starting at the ACK |
| Scoreboard.AckMarks | src/rtx_queue.rs:490-512 | from the ACK on, marks stay, except that an uncovered tail of a partial retransmission becomes lost |
| Sacking.SackKeepsChain | src/rtx_queue.rs:527-583 | a block keeps the chain and its span and never outgrows the capacity |
| Sacking.SackIsBounded | src/rtx_queue.rs:527-583 | byte by byte: nothing outside the block is newly SACKED, nothing SACKED is forgotten, a byte becomes lost only as an unsent tail |
| Sacking.SackCountsGrowth | src/rtx_queue.rs:527-583 | the returned count is the size of the growth of the SACKED set |
| Sacking.SackIsExact | src/rtx_queue.rs:540-582 | every byte of the block within the queue ends up SACKED iff there is a free slot for each edge that cuts an un-SACKED segment |
| QueueRuns.StepKeeps | src/rtx_queue.rs:667-724 | each queue operation keeps the structural invariant and the sending order |
| QueueRuns.After | src/rtx_queue.rs:667-724 | so does every sequence of operations |
| QueueRuns.PipeIsByteSum | src/rtx_queue.rs:229-234 | `pipe` counts the bytes neither SACKED nor lost plus the resent bytes in flight (section 4 of RFC 6675), with no subtraction clipped |
| Sendings.RecordsLastSending | src/rtx_queue.rs:333-664 | over any run from the empty queue, the record holding a position bears the time and number of the last push or retransmission issued for the record then holding it, and shows whether that was a retransmission |
| Sendings.RecordsLastPush | src/rtx_queue.rs:417-475 | over any run, a record is a part of the segment that last queued its bytes, with the FIN exactly if it reaches that segment's end and the segment had one |
| ByteEffects.PlainEffect | src/rtx_queue.rs:586-664 | byte by byte: marking lost takes un-SACKED bytes from the resent to the lost ones, loss marks are taken back only where nothing was resent, a retransmission marks just the bytes it sends, clearing forgets the SACKED ones, and no other mark changes |
| ByteEffects.AckHitsAre | src/rtx_queue.rs:480-522 | a cumulative ACK reports, in order, exactly the records that begin below it |
| ByteEffects.SackHitsAre | src/rtx_queue.rs:527-583 | a block reports exactly the bytes it newly SACKs, as they were sent |
| Tails.SparesIff | src/rtx_queue.rs:595-624 | of all queue operations, exactly the sparing ones keep the rest of a partial retransmission tended: new data stays off it and no loss or SACKED mark on it is taken back |
| Tails.TendedIff | src/rtx_queue.rs:436-474 | a tail is tended exactly when each of its bytes is acknowledged, up for retransmission, sent again and in flight, or behind a prefix that is |
| Tails.LossRestores | src/rtx_queue.rs:595-600 | marking everything lost makes every tail tended, whatever went before |
| Tails.TailNeverStranded | src/rtx_queue.rs:436-474 | over any run of sparing operations, once the prefix is acknowledged in whatever pieces: every left-out byte is acknowledged, up for retransmission, or covered by a retransmission really made since and still unacknowledged |
| Tails.CaredThroughoutIff | src/rtx_queue.rs:586-664 | over any run, the bytes of a tail are cared for after every operation exactly when every operation spares them |
| Tails.ResentWasSent | src/rtx_queue.rs:417-664 | no operation makes a byte count as sent again unless it puts it on the wire |
| Tails.UnmarkStrands | src/rtx_queue.rs:604-613 | a run from the empty queue after which taking loss marks back strands a tail |
| Tails.ClearStrands | src/rtx_queue.rs:616-624 | a run from the empty queue after which clearing SACKED marks strands a tail, until everything is marked lost |
| RtxQueue.Queue.constructor | src/rtx_queue.rs:170-190 | an empty, valid queue |
| RtxQueue.Queue.Get | src/rtx_queue.rs:311-316 | the record at a logical index, or none past the end |
| RtxQueue.Queue.Pipe | src/rtx_queue.rs:229-234 | the saturating expression is the exact one |
| RtxQueue.Queue.Push | src/rtx_queue.rs:333-348 | appends and numbers the transmission unless full, keeping bitmap, counters and hint |
| RtxQueue.Queue.SetState | src/rtx_queue.rs:378-394 | replaces one record's flags and prefix, keeping bitmap, counters and hint in step |
| RtxQueue.CountOut | src/rtx_queue.rs:350-368 | taking a record out of the counters never clips at zero |
| RtxQueue.CountIn | src/rtx_queue.rs:350-368 | putting the changed record back never clips at the top |
| RtxQueue.Queue.Find | src/rtx_queue.rs:397-413 | the record containing any 32-bit sequence number, or none iff it lies outside the queue |
| RtxQueue.Queue.NextUnsacked | src/rtx_queue.rs:292-308 | the bitmap search agrees with a linear scan |
| RtxQueue.Queue.Split | src/rtx_queue.rs:417-475 | in place, the split of the value; refused exactly when out of range, not strictly inside, or full |
| RtxQueue.Queue.AckTo | src/rtx_queue.rs:480-522 | in place, the cumulative ACK of the value; returns the bytes removed and reports each touched record as it stood |
| RtxQueue.Queue.Sack | src/rtx_queue.rs:527-583 | in place, the SACK block of the value; returns the newly SACKED bytes and reports each newly SACKED record as it stood |
| RtxQueue.Queue.MarkLost | src/rtx_queue.rs:586-592 | in place, one record marked lost and no longer resent |
| RtxQueue.Queue.MarkAllLost | src/rtx_queue.rs:595-600 | in place, every un-SACKED record lost |
| RtxQueue.Queue.UnmarkLost | src/rtx_queue.rs:604-613 | in place, loss marks not acted on taken back |
| RtxQueue.Queue.ClearSacked | src/rtx_queue.rs:616-624 | in place, SACKED marks taken back |
| RtxQueue.Queue.NextLost | src/rtx_queue.rs:627-638 | the lowest lost record not retransmitted, or none iff there is none, from the cached start |
| RtxQueue.Queue.Retransmitted | src/rtx_queue.rs:641-664 | in place, a whole or partial retransmission with the time it was made and a fresh transmission number |
| Rack.SentAfterIsLater | src/rack.rs:43-46 | the 32-bit order is the true order of transmissions |
| Rack.NothingAbove | src/rack.rs:283-290 | past a never-retransmitted record not sent before RACK's segment there is no candidate, so stopping is right |
| Rack.DetectLoss | src/rack.rs:254-300 | marks the same records and returns the same delay as judging every record: condemned are exactly the unacknowledged records, not lost and waiting, sent before RACK's segment and at least a round trip and the reordering window ago, and the delay is the longest that another such record has left |
| Rack.FilterTells | src/rack.rs:193-207 | the ambiguity filter always credits the latest transmission, never an earlier one that is echoed, and without an echo an earlier one exactly when the latest could have been acknowledged by then |
| Rack.RerunFinishes | src/rack.rs:250-253 | re-run after the returned delay it condemns every remaining candidate and asks for no further run |
| Rack.State.constructor | src/rack.rs:146-163 | nothing known |
| Rack.State.OnAckStart | src/rack.rs:171-174 | remembers the highest delivered position before this ACK |
| Rack.State.OnDelivered | src/rack.rs:179-213 | the 32-bit fields follow the unbounded description of steps 2 and 3 of section 6.2 of RFC 8985 |
| RackRuns.Reached | src/rack.rs:171-213 | in every reachable state RACK's segment is the latest-sent delivery that passed the ambiguity filter, its round trip that of the last, its two positions the highest delivered now and before this ACK, and reordering is seen exactly if something sent once was delivered below what an earlier ACK delivered |
| RackRuns.CondemnedIff | src/rack.rs:254-300 | in every reachable state a scan condemns exactly the unacknowledged records, not lost and waiting, sent at least a round trip and the reordering window ago, for which a later transmission was delivered and passed the filter |
| RackRuns.AckTells | src/tcb/ack.rs:107-127 | a cumulative ACK tells RACK of exactly the records, not SACKED before, that begin below it |
| RackRuns.BlockTells | src/tcb/ack.rs:82-91 | a SACK block tells RACK of exactly the bytes it newly SACKs |
| WinMin.Window.constructor | src/rack.rs:58-64 | no sample |
| WinMin.Window.Reset | src/rack.rs:74-78 | the sample becomes the reported minimum |
| WinMin.Window.Update | src/rack.rs:80-111 | reports a real sample within the window that none since has beaten; on expiry the oldest slot still in the window takes over unless the sample beats it; each slot is the least from its own position on, and later slots stand by after a quarter and half of the window |
| Ranges.InsertOk | src/ooo.rs:116-182 | insertion keeps the list sorted, disjoint, non-adjacent and within its slots |
| Ranges.InsertHolds | src/ooo.rs:116-182 | a stored insertion adds exactly its range, a refused one changes nothing |
| Ranges.FullIff | src/ooo.rs:132-136 | refused iff every slot is used and no range touches the new one |
| Ranges.DupIff | src/ooo.rs:156 | reported duplicate iff every byte was held |
| Ranges.AdvanceOk | src/ooo.rs:205-226 | advancing keeps the list's shape above the new position |
| Ranges.AdvanceHolds | src/ooo.rs:205-226 | the new position is the first missing byte and exactly what lies below it is dropped |
| Ranges.AdvanceStamps | src/ooo.rs:205-226 | the ranges left are ranges there were, as recent as before |
| Ranges.TruncateOk | src/ooo.rs:186-200 | truncation keeps the list's shape |
| Ranges.TruncateHolds | src/ooo.rs:186-200 | exactly the positions below the limit stay held |
| Ranges.TruncateStamps | src/ooo.rs:186-200 | each range left is the start of one there was, as recent as before |
| Recency.ByAgeSorts | src/ooo.rs:228-229 | the reference order is a permutation, newest first |
| Recency.SelectsNewest | src/ooo.rs:235-247 | whatever the ties, the swap loop selects in order and leaves out nothing newer than it selects |
| Recency.NewestFirstBounds | src/ooo.rs:228-251 | for every list and limit: the newest ranges are reported, newest first, if each measures younger than every older range, and only if none measures older |
| Recency.NewestFirstIff | src/ooo.rs:228-251 | without ties between measured ages the condition is exact |
| Recency.FreshLooksNewer | src/ooo.rs:230-233 | the condition holds while every range was changed within the last 2^32 - 1 insertions |
| Recency.FirstBlockIff | src/ooo.rs:130-172 | right after a stored insertion the first block covers it (section 4 of RFC 2018) exactly when every other range measures older, or as old and lies above it |
| Recency.StaleReportedFirst | src/ooo.rs:230-233 | a list whose blocks are reported in the wrong order |
| Recency.TieGoesEitherWay | src/ooo.rs:235-247 | two lists with the same tie, one reported rightly and one not |
| OooList.List.constructor | src/ooo.rs:69-79 | an empty list |
| OooList.List.Insert | src/ooo.rs:116-182 | the array, binary searches and rotations perform the insertion of the value, across sequence wrap |
| OooList.List.Advance | src/ooo.rs:205-226 | the array performs the advance of the value and returns the new next position |
| OooList.List.TruncateFrom | src/ooo.rs:186-200 | the array performs the truncation of the value |
| OooList.List.FillSackBlocks | src/ooo.rs:229-251 | in every state, appends the ranges of least measured age, least first |
| OooList.PushedBlocks | src/wire.rs:94-101 | appending keeps what is there and takes the first blocks there is room for, four in all |
| Ring.PlaceIn | src/ring.rs:78-102 | a written byte is found at its stream offset |
| Ring.PlaceOut | src/ring.rs:166-188 | offsets within a turn past the written bytes keep theirs |
| Ring.Buffer.constructor | src/ring.rs:25-35 | an empty ring |
| Ring.Buffer.Write | src/ring.rs:78-102 | appends what fits |
| Ring.Buffer.WriteAt | src/ring.rs:166-188 | parks bytes past the write cursor, clipped to the free part, with nothing becoming readable |
| Ring.Buffer.Commit | src/ring.rs:194-199 | makes parked bytes readable, clipped to the free part |
| Ring.Buffer.PeekAt | src/ring.rs:137-159 | copies out a stretch of the readable bytes |
| Ring.Buffer.Consume | src/ring.rs:219-223 | drops bytes from the front |
| Ring.Buffer.Read | src/ring.rs:105-109 | copies out and drops |
| Reassembly.DeliverKeeps | src/property_tests.rs:338-365 | any arrival of a slice of the stream keeps: everything readable and held is the stream's, at its final slot |
| Reassembly.DeliverGets | src/property_tests.rs:338-365 | an arrival adds exactly its clipped piece unless a range is needed and none is left; nothing received is given up |
| Reassembly.ReadableIsStream | src/property_tests.rs:373-377 | what can be read is exactly the unread stream up to the next expected position |
| Reassembly.NextIsMissing | src/property_tests.rs:338-365 | the next expected position has not been received |
| Reassembly.DeliverReaches | src/property_tests.rs:379-385 | a segment covering the next expected position moves it to the segment's or the window's end |
| Reassembly.GotIff | src/property_tests.rs:338-365 | over any run, what has been received is exactly what the taken arrivals brought |
| Reassembly.CompleteIff | src/property_tests.rs:366-390 | the whole stream up to its end is out or readable, with the range list empty, exactly when the taken arrivals brought every position of it |
| Reassembly.RepairCompletes | src/property_tests.rs:379-389 | after any history, however much of it was dropped, one more pass in order that the window can hold completes the stream |
| Reassembly.After | src/property_tests.rs:366-378 | after any arrivals and reads the application has read a prefix of the stream, and what is readable or held is the stream's |
| Receiver.AppendIs | src/property_tests.rs:356-361 | the commit after an in-order append is never clipped |
| Receiver.Receiver.constructor | src/property_tests.rs:335-337 | a fresh receiver |
| Receiver.Receiver.Deliver | src/property_tests.rs:338-365 | ring and range list in place, with 32-bit numbers, perform the receive step of the value |
| Receiver.Receiver.Read | src/ring.rs:105-109 | the application's read, on the value |
| Protocol.AckIsHonest | src/ooo.rs:229-251 | an acknowledgement claims only what is held or delivered |
| Protocol.AckWithin | src/tcb/ack.rs:28-42 | no acknowledgement reaches beyond what was sent, and the blocks of one acted on lie within what is outstanding |
| Protocol.StepSafe | src/rtx_queue.rs:480-583 | each event of either end or the network keeps the system safe |
| Protocol.ProtocolIsSafe | src/rtx_queue.rs:480-583 | in every run, SACKED or cumulatively acknowledged bytes are held or delivered, every byte counted as sent was put on the network, and bytes read are a prefix of the stream sent |
| Protocol.ResendPutsOut | src/tcb/output.rs:216-253 | a retransmission puts on the network exactly the bytes the queue then counts as resent, and they are the stream's |
| AckEffects.BlocksExactIff | src/tcb/ack.rs:82-91 | SACK blocks that lie apart are all marked completely iff the queue has a free slot for each of their edges that cuts an un-SACKED segment |
| AckEffects.AckHeeded | src/tcb/ack.rs:38-91 | an old acknowledgement changes nothing; any other leaves only bytes from its number on, SACKS what its blocks cover and nothing else, completely iff their edges find slots, keeps resent bytes resent until SACKED, and changes loss marks only where a byte is SACKED or an unsent tail freed |
| AckEffects.PeerAckTells | src/ooo.rs:229-251 | the acknowledgement sent names the first position missing and as many whole runs of held positions as fit, the most recently changed first while 32-bit tags can tell |
| SystemRuns.ReceiverIsRun | src/property_tests.rs:338-390 | in every run of the system the receiver ends as after its arrivals and reads alone, so all that is proved of those holds |
| SystemRuns.SenderIsRun | src/rtx_queue.rs:333-664 | and the sender's queue as after the operations its events amount to |
| SystemRuns.CanFinish | src/sim_tests.rs:789-806 | from every reachable state some continuation delivers, reads and acknowledges all that was sent and empties the queue |
| Link.Link.constructor | src/rtx_queue.rs:170-190 | two fresh ends are the system at its start |
| Link.Link.Send | src/tcb/output.rs:169-200 | the stored queue and the network take new data as the system does |
| Link.Link.Resend | src/tcb/output.rs:216-253 | a whole or partial retransmission, likewise |
| Link.Link.Own | src/rtx_queue.rs:586-624 | splitting, loss marking and clearing, likewise |
| Link.Absorb | src/tcb/ack.rs:82-91 | the stored queue SACKs each block in turn |
| Link.Link.OnAck | src/tcb/ack.rs:38-91 | with 32-bit comparisons, an old or impossible acknowledgement is ignored; any other marks and trims the stored queue byte by byte as `AckEffects.AckHeeded` says |
| Link.NotDsack | src/tcb/ack.rs:65-68 | the test for a reported duplicate holds of no acknowledgement whose blocks lie above it and apart |
| Link.Link.OnData | src/property_tests.rs:338-365 | the stored receiver takes a segment as the system does |
| Link.Link.OnRead | src/ring.rs:105-109 | the application's read, likewise |
| Link.Link.Acknowledge | src/ooo.rs:229-251 | the stored list's blocks and next number travel as the system's acknowledgement: the first position missing and the newest runs above it |
| Link.Link.StoredEndsAreSafe | src/rtx_queue.rs:480-583 | so of the stored ends too: SACKED or acknowledged bytes are held or delivered, and bytes read are the stream's start |
| Checksum.Fold | src/wire.rs:656-661 | end-around folding is reduction modulo 2^16 - 1, zero only for zero |
| Checksum.NativeSumIsWordSum | src/wire.rs:635-652 | native 32-bit words sum to the 16-bit definition modulo 2^16 - 1, up to the byte swap |
| Checksum.OnesSum | src/wire.rs:635-652 | equals the folded 16-bit definition on either byte order, for every length |
| Checksum.Checksum | src/wire.rs:626-628 | equals the RFC 1071 checksum for every length and seed |
| Checksum.StoredVerifies | src/wire.rs:675-680 | a block with its checksum stored sums to zero |
| Checksum.PartialCompletes | src/wire.rs:682-688 | completing a partial checksum gives the full one |
| Checksum.FlipDetected | src/wire.rs:427-451 | a verified block fails after any one-bit change |
| TcpOptions.ParseLoop | src/wire.rs:256-339 | the loop computes the recursive description, errors included |
| TcpOptions.RoundTrip | src/wire.rs:202-339 | options come back as they were sent |
| TcpOptions.ParsedFits | src/wire.rs:256-339 | however options repeat, overlap or pad, what comes out takes no more room than it came from |
| Wire.IpVerifies | src/wire.rs:566-567 | every emitted IPv4 header verifies |
| Wire.TcpVerifies | src/wire.rs:606-614 | every emitted segment verifies |
| Wire.PartialIsCompleted | src/wire.rs:682-688 | completing a partially checksummed segment gives the full one |
| Wire.DatagramRoundTrip | src/wire.rs:393-472 | every datagram parses back to its fields, whatever follows it in the buffer |
| Wire.ParsedRoundTrip | src/wire.rs:393-617 | whatever parses can be sent again within the limits and parses to the same fields |
| Wire.AnyFlipRejected | src/wire.rs:393-451 | flipping any one bit of an emitted datagram makes it rejected |
| Acceptance.OptionsIff | src/wire.rs:256-339 | options parse iff they lay out one after another with legal kinds and lengths up to the end or an end byte; of each kind the last counts, read most significant byte first; else the packet is malformed |
| Acceptance.AcceptedIff | src/wire.rs:393-472 | a byte string is accepted iff version, header length, total length, fragment bits, protocol, both checksums, data offset and options are right; "not for us" is answered iff it is framed whole, no fragment and not TCP, and "malformed" in every other case; and the field values, byte by byte |
| Acceptance.FragmentRejected | src/wire.rs:410-414 | no datagram with more fragments to come or a fragment offset is accepted |
| Acceptance.HeadersOnWire | src/wire.rs:550-584 | the bytes of an emitted header against the values of its fields, most significant first |
| Emit.WriteOptions | src/wire.rs:202-254 | writes exactly the encoding and touches nothing beyond it |
| Emit.WriteIp | src/wire.rs:550-567 | writes exactly the IPv4 header with its checksum |
| Emit.SegmentSum | src/wire.rs:675-688 | the full or the partial TCP checksum |
| Emit.EmitWith | src/wire.rs:522-617 | writes exactly the datagram; each error in its case, the buffer untouched before any byte is written |
| Emit.EmitSegment | src/wire.rs:480-515 | the buffer then parses back to what was sent |
| Congestion.Control.constructor | src/congestion.rs:77-93 | no episode, nothing to undo, room for slow start |
| Reno.HalvedIsHalf | src/congestion.rs:147 | half the flight, or two segments if that is more |
| Reno.SegsCover | src/congestion.rs:202 | the fewest segments that cover the block, and at least one |
| Congestion.Control.OnAck | src/congestion.rs:121-144 | grows by every byte delivered below the threshold, by at most one segment per window delivered above it, and not at all in a reduction or when the window is not the limit |
| Congestion.Control.EnterRecovery | src/congestion.rs:166-169 | the window it started from is noted, and no D-SACK undoes it before something is retransmitted |
| Congestion.Control.EnterCwr | src/congestion.rs:174-177 | no D-SACK undoes anything of it |
| Congestion.Control.CwrToRecovery | src/congestion.rs:181-185 | the same reduction goes on, and still no D-SACK undoes it |
| Congestion.Control.OnRetransmit | src/congestion.rs:188-192 | one more retransmission to account for exactly within an undoable loss episode, held by the counter; the window left alone |
| Congestion.Control.OnDsack | src/congestion.rs:198-215 | undone exactly when the segments of the noted blocks reach the retransmissions of the episode, window and threshold then raised to its start; otherwise both left alone |
| Congestion.Control.PrrUpdate | src/congestion.rs:221-250 | in bytes really delivered and sent: above the threshold, what is sent and what the window now lets out come to the share of the bytes delivered, or one segment; at or below it the window makes up for what was delivered, at least for this ACK's, and a segment more when safe, at most to the threshold; and the first update always lets something out |
| Congestion.Control.OnSend | src/congestion.rs:253-257 | during a reduction every byte sent is counted, and nothing else changes |
| Congestion.Control.OnRto | src/congestion.rs:262-276 | one segment; only the first timeout of an episode lowers the threshold and, unless congestion was signalled, opens an undoable episode |
| Congestion.Control.MaybeExit | src/congestion.rs:280-291 | an episode ends when the data in flight at its start is acknowledged, a reduction with the window at half that flight |
| Congestion.Control.OnIdleRestart | src/congestion.rs:295-299 | the window is capped outside an episode and never grows |
| PrrBounds.PrrBound | src/congestion.rs:221-257 | while every update finds more in flight than the threshold, the bytes sent stay within the proportional share of the bytes delivered or one segment (section 3 of RFC 6937) |
| PrrBounds.PrrTracks | src/congestion.rs:228-233 | a sender that uses the room it is given sends exactly the proportional share, as long as no counter saturates |
| PrrBounds.LoopObeys | src/tcb/output.rs:54-61 | sending while in-flight data is below the window passes it by less than one segment |
| PrrBounds.RegrowthBound | src/congestion.rs:231-249 | at or below the threshold the window is at most threshold plus one segment, and at most the threshold once anything was sent |
| PrrBounds.EpisodeConserves | src/congestion.rs:221-257 | over a whole episode, either branch: bytes sent exceed those the deliveries entitle to by at most one segment, plus one for each safe update, one for each that found less than a segment in flight, and what the sender overshoots its window by at each update; from a flight of two segments on, deliveries entitle to no more than themselves |
| PrrTargets.RegrowthExact | src/congestion.rs:234-242 | at or below the threshold: exactly how much goes out, while no counter saturates |
| PrrTargets.FlightRegrows | src/congestion.rs:234-242 | with a sender that uses its room and nothing more lost, data in flight at or below the threshold never shrinks, gains a segment per safe update, and reaches the threshold without passing it, as long as no counter saturates |
| PrrTargets.ReductionLands | src/congestion.rs:221-257 | over a whole reduction without loss from a flight of two segments or more, data in flight never falls below half that flight and is exactly half once all of it is delivered, as long as no counter saturates |
| PrrBounds.SlowStartBatches | src/congestion.rs:126-135 | slow start depends on the bytes delivered, not on how ACKs batch them |
| PrrBounds.AvoidanceBound | src/congestion.rs:136-143 | congestion avoidance adds at most one segment per window delivered, over any run of ACKs |
| PrrBounds.AvoidAccounts | src/congestion.rs:136-143 | every delivered byte is in a window paid for with a segment or in the remainder, which is less than a window |
| CongestionRuns.ReductionExits | src/congestion.rs:280-291 | whatever happens during it, a reduction ends exactly when the flight at its start is acknowledged, with the window at the halved flight |
| CongestionRuns.TimeoutHalvesOnce | src/congestion.rs:262-276 | repeated timeouts of one episode leave the threshold unchanged |
| CongestionRuns.UndoIff | src/congestion.rs:198-215 | after any history whose current episode never left 2^32 retransmissions uncounted for, a D-SACK undoes iff the segments of the blocks counted reach the retransmissions of that episode, and window and threshold are then raised to what they were at its start |
| Undo.UndoReliableIff | src/congestion.rs:188-215 | over any history: every undo decision was right, and would be however the history went on from any point with accurate blocks, exactly when every block counted for as many retransmissions as it newly reported and there were never 2^32 unreported |
| Undo.AccurateIsRight | src/congestion.rs:194-197 | with accurate blocks an episode is undone exactly when every retransmission of it has been reported |
| Undo.InaccurateStep | src/congestion.rs:198-215 | any other event is decided wrongly at once or leaves the count off |
| Undo.WrongInTheEnd | src/congestion.rs:198-215 | a count that is off leads to a wrong decision by accurate blocks alone |
| Undo.RepeatedBlockUndoes | src/tcb/ack.rs:296-315 | a believed block that arrives twice undoes with one retransmission never reported |
| Undo.SaturationMisleads | src/congestion.rs:188-192 | from 2^32 unreported retransmissions on, accurate blocks lead to a wrong decision |
| CongestionRuns.SignalledNeverUndone | src/congestion.rs:171-185 | a reduction for signalled congestion, even upgraded or followed by its timeout, is never undone before a new loss episode |

## Left out

- Recency.NewestFirstIff: assumes no tie between a reported range's measured age and an older one's, because on a tie the swap loop's outcome depends on positions; `Recency.NewestFirstBounds` needs no such assumption.
- Link.Link.Send: sends data only, without the FIN the cited lines may add, because the modelled stream has no end.
- Wire.TcpVerifies: states the full checksum only; a partially checksummed segment is completed by the host, which `Wire.PartialIsCompleted` covers.
- `Rack::reo_wnd`, `on_dsack`, `on_recovery_exit`, `sample_rtt`: the reordering window and the round-trip minimum are parameters of the scan and of the deliveries; their own bookkeeping is straight-line.
- `OooList::held_bytes`, `containing`, `first_start`, `last_end`, `clear`: readers of the modelled list.
- `Ring::peek`, `free_regions`, `clear`, and the rejection of a capacity that is not a power of two: `peek` is `peek_at` from zero, the capacity is a precondition.
- `RtxQueue::clear`, `last`, and the compile-time capacity check, which is a precondition.
- `SackBlocks::truncate`, `from_slice`, `Segment::has`, `seq_len`: one-line accessors.
- Segment flags of the queue are a record of booleans, not a byte; closures passed to `ack_to` and `sack` become the sequence of records they are called with; the payload callback of `emit_with` becomes the payload and whether it could be supplied.
- FIN and `truncate_from` do not occur in the two-party protocol, whose stream is unbounded and whose segments carry data; nor do D-SACK blocks, which the receiver of the model does not send (`Link.NotDsack`).
- `initial_window`, `rtx_cap_for`, `src/tx_ring.rs`, `src/state.rs`: the first two compute a constant from a size, the third is a first-in-first-out buffer that never reorders or searches, the fourth a table of transitions with no data.
- `src/tcb/`: segment acceptance, timers, cookies and output; only the sending loop's window rule is used.
- `src/ffi.rs`, `bindings/`, `include/`: foreign interfaces and I/O.
