# A verified model of Polygon's QUIC stack and dispatcher

Polygon is a dispatcher for anycast CDNs built on an early version of ngtcp2 (QUIC draft 08). This
project models the parts of it that are hard to get right and proves what they are for:

* **Receiving streams.** STREAM frames may arrive in any order, overlap and repeat. `Ranges`,
  `GapTracker` and `ReorderBuffer` model the data structures, `StreamReceive` the receiving of one
  frame, `StreamRuns` whole runs of frames, `Connection` and `Receiver` a connection with its flow
  control.
* **Two endpoints and a network** (`Protocol`, `Progress`). The network delays, repeats, reorders and
  drops frames; the receiver still never finds a violation, and hands out what was written. What is
  held back for lack of credit can be sent once credit has been consumed and advertised.
* **Acknowledgements.** `AckFrames` describes the gap/length blocks, `AckBuild` the building of an ACK
  frame, `AckTracker` the removal of exactly what an acknowledged ACK had reported, `AckRuns` whole
  runs.
* **Formats.** `Numbers`, `Wire`, `Fields`, `DataFrames`, `Frames`, `Payloads` and `FrameCodec` cover integers,
  all frames and the receive loop, `Formats` the bytes themselves, `Headers` and `PacketNumbers` packet
  headers and the recovery of packet numbers, `TransportParams` and `ParamBlocks` the handshake parameters
  with Polygon's own fields.
* **Tables.** `StreamIds` tracks used stream ids, `HashTable` is the growing chained hash table, and
  `StreamTable` shows that together they give every id at most one stream.
* **JSON** (`JsonText`, `JsonStrings`, `JsonUnicode`, `Json`, `JsonLayout`, `JsonSpaces`, `JsonCodec`): printing and
  parsing of cJSON trees.
* **Policy.** `Dispatch` selects data centers, `Routing` keeps the two connection-id maps of the
  server in step, `LoadMonitor` is FastRoute's hysteresis.

`Basics` and `Sums` hold shared types and sums over maps. All files are checked together:
`dafny verify dfyconfig.toml`.

State that the source updates in place is held in classes with the source's fields; lists and tables
are sequences that the methods reassign. Each method is proved against a function of its inputs or of
the old state, and the lemmas are about these functions. A position in a buffer that is read is
modelled by the bytes from that position on.

## Where the code falls short of what one would expect

Each of these is proved for all inputs, with the exact condition:

* A STREAM frame with the end flag that arrives after the end is known is dropped together with its
  data, even if the data is new (`StreamRuns.RepeatedEndDropsData`, `StreamRuns.DroppedByte`).
* A reset charges the connection up to the final offset but does not raise the stream's own offset, so
  data overtaken by the reset is refused (`Connection.LateDataAfterReset`,
  `Connection.ResetOvertakesData`), a repeated reset ends the connection (`Connection.RepeatedReset`), and
  if a hole is filled after the reset the application is told that a truncated stream is complete
  (`Connection.TruncatedEnd`, `Connection.TwoOfTen`, `StreamReceive.Stream.Reset`).
* Extending a stream's credit by a length from 2^62 on wraps around. The limit stays between what was
  promised and 2^62 exactly when the length takes back no more than the unadvertised credit
  (`Connection.HandleBalanced`, `Connection.CreditWithdrawn`).
* A write with neither data nor end of stream produces a frame that the receiver refuses
  (`Protocol.EmptyWriteRefused`).
* Without initial stream credit no data is ever delivered, because the receiver cannot raise the limit of a
  stream it has not heard of (`Progress.Deliverable`).
* The ACK builder can emit 256 blocks while the decoder keeps 255. A built frame survives decoding
  exactly when its list has at most 256 runs (`AckRuns.SurvivesDecoding`), which some lists have not
  (`AckBuild.Overfull`); the decoded frame only loses acknowledgements (`DataFrames.ClipIsHonest`,
  `DataFrames.ClipForgets`).
* Recovery of packet numbers never looks at the previous window (`PacketNumbers.OlderPacket`,
  `PacketNumbers.Overtaken`), and 32 bits are not enough for a packet that is far ahead
  (`PacketNumbers.ChosenWidthRecovers`).
* The first gap of the stream-id tracker may be an empty gap. Over all runs it is the least unused slot
  exactly when no claim left an empty gap in front of it, and a claim leaves one exactly when the slot
  before is free and the one after is used (`StreamIds.FirstGapExact`, `StreamIds.TakeEmpties`,
  `StreamIds.FirstGapIsStale`).
* PING and PONG with more than 255 bytes do not survive (`Frames.ExactRoundTrip`).
* Polygon's own transport parameters are not reset when they are absent, and an omit flag above 1
  comes back as 1 (`TransportParams.ExactRoundTrip`).
* A connection id drawn twice breaks the pairing of the server's maps (`Routing.AcceptKeeps`), and one
  that is also a client's id sends that client's packets to another handler
  (`Routing.LookupOfClient`, `Routing.AcceptApart`, `Routing.Misrouted`).
* In a sorted list of latencies a negative front value replaces the least measured one as the base, so a
  near data center can be refused (`Dispatch.NearExact`, `Dispatch.NegativeFront`).
* An integer marked with the wrong sign does not survive printing (`JsonText.IntRoundTrip`).
* The JSON reader skips four bytes after a `u` escape without looking at them, so it can jump over the
  quote at which it stopped counting and write past its memory (`JsonStrings.QuoteSkipped`). Exactly the
  escapes whose four bytes the counting pass gets over in step, in three steps at least, are safe
  whatever follows (`JsonStrings.EscapeSafe`); so are strings with such escapes only
  (`JsonStrings.UnescapedFits`).
* A pair of escapes for one character is put together wrongly exactly when bit 6 of its first half is
  set (`JsonStrings.PairExact`).

## Model

| member | source | states |
|---|---|---|
| `Protocol.SafeRun` | Polygon/lib/ngtcp2_conn.c:4303-4386 | over every run of writes, deliveries (late, repeated, reordered, lost), credit extensions by safe lengths, advertisements and closings: the receiver reports no error, what is written and the limits the sender knows stay within what was granted, for the connection and for every stream, and each stream hands out a prefix of what was written, with its end only after all of it |
| `Protocol.CompleteRun` | Polygon/lib/ngtcp2_conn.c:2909-3020 | once a stream was ended and each of its frames was processed at least once, in any order, the application has exactly the written bytes and the end |
| `Protocol.StepInv` | Polygon/lib/ngtcp2_conn.c:2106-2174 | every action, including stale MAX_DATA and MAX_STREAM_DATA frames, keeps the invariant that ties both endpoints and all frames under way |
| `Protocol.RunInv` | Polygon/lib/ngtcp2_conn.c:1559-1595 | every run of actions, with credit advertised at any time, keeps that invariant |
| `Protocol.InitInv` | Polygon/lib/ngtcp2_conn.c:2757-2780 | two endpoints with agreed limits and no streams satisfy the invariant |
| `Protocol.DeliverAccepted` | Polygon/lib/ngtcp2_conn.c:2909-2971 | any frame the sender ever produced passes the flow-control and final-offset checks of the receiver, whenever it arrives |
| `Protocol.DeliverExact` | Polygon/lib/ngtcp2_conn.c:2827-3020 | a frame under way is given to the receiver; its error, if any, is kept, and otherwise the application sees what has been delivered |
| `Protocol.AllProcessed` | Polygon/lib/ngtcp2_conn.c:2974-3018 | in every state of the invariant, a finished stream all of whose frames were processed has been delivered whole |
| `Protocol.EmptyWriteRefused` | Polygon/lib/ngtcp2_conn.c:4303-4386 | a frame just written is refused by the receiver exactly when it carries neither data nor end |
| `Protocol.WriteExact` | Polygon/lib/ngtcp2_conn.c:4303-4331 | a write on an open stream is held back if and only if there is data and no room in the packet, the stream's credit or the connection's; otherwise the frame starts where the stream stopped, carries as much as all three allow, and has the end if and only if it was asked for and everything fits |
| `Progress.RefillIs` | Polygon/lib/ngtcp2_conn.c:1559-1595 | once credit has been consumed, advertised and delivered, the sender knows exactly the limits that the receiver has granted |
| `Progress.Unblocked` | Polygon/lib/ngtcp2_conn.c:4303-4311 | after any amount has been consumed and advertised, a write is still held back if and only if an offset has reached the largest there is or the amount was too large for the stream's limit |
| `Progress.UnblockedByOne` | Polygon/lib/ngtcp2_conn.c:4303-4311 | after a single byte has been, if and only if an offset has reached 2^62 - 1 |
| `Progress.Closable` | Polygon/lib/ngtcp2_conn.c:4479-4540 | a stream that has been delivered whole can be closed, and what the application has seen stays |
| `Progress.Transfer` | Polygon/lib/ngtcp2_conn.c:4303-4386 | in every state of the invariant, the rest of any open stream that can start can be written and delivered whole, however often credit runs out |
| `Progress.Deliverable` | Polygon/lib/ngtcp2_conn.c:4303-4386 | from the start, some run delivers a given stream whole with its end if and only if it is empty or there is initial stream credit |
| `StreamReceive.Stream.Recv` | Polygon/lib/ngtcp2_conn.c:2909-3020 | receiving a frame through the reorder buffer refines the simple offset-to-byte map: same error, same charge, and the callbacks made so far concatenate to the in-order prefix, with the end flagged on the last call exactly when the stream is finished; each error is given for exactly the frames that are beyond a limit or contradict the end |
| `StreamReceive.AcceptExact` | Polygon/lib/ngtcp2_conn.c:2909-2971 | case by case over offsets, limits and the end: which frames are refused with which error, and otherwise the new highest offset, end, charge and bytes |
| `StreamReceive.Stream.EmitPending` | Polygon/lib/ngtcp2_conn.c:2796-2821 | pieces held out of order are handed out until the first missing byte |
| `StreamReceive.AbsorbAt` | Polygon/lib/ngtcp2_conn.c:2974-3018 | what each offset holds after a frame: bytes already delivered never change, and every missing byte that the frame carries is added |
| `StreamRuns.DeliveryIsStable` | Polygon/lib/ngtcp2_conn.c:2927-3018 | over any arrivals, delivered bytes are never taken back, repeated or changed |
| `StreamRuns.NothingInvented` | Polygon/lib/ngtcp2_conn.c:2927-3018 | every byte held was carried by an arriving frame at that very offset |
| `StreamRuns.InOrderPrefix` | Polygon/lib/ngtcp2_conn.c:2927-3018 | frames cut from one byte string, in any order, overlap and repetition, deliver a prefix of it |
| `StreamRuns.FinishedIsFinal` | Polygon/lib/ngtcp2_conn.c:2927-2932 | after the end was flagged no arrival changes anything, so it is flagged once |
| `StreamRuns.OneEnd` | Polygon/lib/ngtcp2_conn.c:2926-2961 | over any run, no accepted frame, earlier or later, reaches beyond an accepted one that ends the stream, and all that end it do so at one offset |
| `StreamRuns.RepeatedEndDropsData` | Polygon/lib/ngtcp2_conn.c:2927-2932 | an accepted frame leaves all its bytes with the receiver if and only if it does not repeat a known end or its bytes were all there already |
| `StreamRuns.DroppedByte` | Polygon/lib/ngtcp2_conn.c:2927-2932 | two accepted frames of a one-byte stream that deliver nothing |
| `Connection.RecvStreamBalanced` | Polygon/lib/ngtcp2_conn.c:2909-2971 | an accepted STREAM frame keeps the connection balanced: its offset is the sum over all streams ever seen of the highest offset charged, and does not exceed what was advertised |
| `Connection.RecvRstBalanced` | Polygon/lib/ngtcp2_conn.c:3085-3157 | an accepted RST_STREAM frame keeps the connection balanced |
| `Connection.HandleBalanced` | Polygon/lib/ngtcp2_conn.c:4626-4648 | so does every other event, closing, extending credit and advertising it; only extending one stream's credit keeps the balance if and only if the length is below 2^62 or withdraws no more than the unadvertised credit |
| `Connection.RunBalanced` | Polygon/lib/ngtcp2_conn.c:2827-2971 | the balance holds over every run of accepted events in which credit is extended by such lengths only |
| `Connection.CreditEvents` | Polygon/lib/ngtcp2_conn.c:1559-1571 | a run of a new stream, new credit and its advertisement, with its result |
| `Connection.StreamEvents` | Polygon/lib/ngtcp2_conn.c:3119-3156 | a run of new stream credit, its advertisement, a reset and the end of the stream, with its result |
| `Connection.RecvStreamExact` | Polygon/lib/ngtcp2_conn.c:2839-2971 | when a STREAM frame is refused with which error, when it is ignored, and what it changes otherwise |
| `Connection.RecvRstExact` | Polygon/lib/ngtcp2_conn.c:3119-3156 | a reset is refused if and only if it ends below what has arrived, elsewhere than before, or beyond a limit; otherwise it charges the difference and marks the end |
| `Connection.ExtendExact` | Polygon/lib/ngtcp2_conn.c:2350-2354 | new limits in numbers: the connection's is added up to at most 2^62 - 1, a stream's stays where it would grow larger |
| `Connection.SmallIsSafe` | Polygon/lib/ngtcp2_conn.c:2350-2354 | lengths below 2^62 are such lengths, in every state |
| `Connection.CreditWithdrawn` | Polygon/lib/ngtcp2_conn.c:2352-2354 | a length of 2^64 - 1 lowers a stream's limit below the one promised |
| `Connection.LateDataAfterReset` | Polygon/lib/ngtcp2_conn.c:3119-3154 | after a reset, a frame within the final offset is refused if and only if it reaches beyond what had arrived before the reset, announces an end elsewhere, or is empty |
| `Connection.ResetOvertakesData` | Polygon/lib/ngtcp2_conn.c:3145-3154 | a frame that is accepted before a reset and refused after it |
| `Connection.RepeatedReset` | Polygon/lib/ngtcp2_conn.c:3138-3145 | a reset of an open stream that is repeated is refused if and only if it announced more than had arrived |
| `Connection.TruncatedEnd` | Polygon/lib/ngtcp2_conn.c:3138-3156 | whatever follows an accepted reset, in every later state in which the stream counts as finished exactly as much as had arrived before the reset was handed out, less than announced if and only if less had arrived |
| `Connection.TwoOfTen` | Polygon/lib/ngtcp2_conn.c:2796-2821 | a run that finishes a stream after two of the ten bytes that its reset announced |
| `StreamReceive.Stream.Reset` | Polygon/lib/ngtcp2_conn.c:3152-3156 | a reset marks the end without a call, and the calls agree with the state from then on if and only if the end was known or a byte is still missing |
| `Receiver.Connection.RecvStream` | Polygon/lib/ngtcp2_conn.c:2831-2971 | the procedure that looks up or opens the stream and updates the connection in place computes the specified result, and keeps the queue of streams waiting for credit complete |
| `Receiver.Connection.ExtendMaxStreamOffset` | Polygon/lib/ngtcp2_conn.c:2350-2366 | credit is added in 64-bit arithmetic as specified, the stream is queued if and only if it is open and more than half its window is unadvertised, and the connection stays valid if and only if the length is safe |
| `Receiver.Connection.QueueMaxData` | Polygon/lib/ngtcp2_conn.c:1559-1571 | exactly when connection credit is due, a MAX_DATA frame with the new limit is queued in front and the limit is recorded as advertised |
| `Receiver.Connection.QueueMaxStreamData` | Polygon/lib/ngtcp2_conn.c:1573-1595 | every waiting stream gets its frame and its limit recorded, and afterwards no open stream has more than half a window of unadvertised credit |
| `GapTracker.Gaps.Push` | Polygon/lib/ngtcp2_gaptr.c:87-122 | the walk over the list removes exactly the pushed range and keeps the list canonical |
| `GapTracker.Gaps.FirstGapOffset` | Polygon/lib/ngtcp2_gaptr.c:124-129 | the result is the least missing offset |
| `GapTracker.PushAllCovers` | Polygon/lib/ngtcp2_gaptr.c:87-122 | after any pushes an offset is missing if and only if it was missing and none of them covered it, and the list is canonical |
| `GapTracker.PushOrderIrrelevant` | Polygon/lib/ngtcp2_gaptr.c:87-122 | two runs of pushes that cover the same offsets give the very same list |
| `Ranges.SubtractCovers` | Polygon/lib/ngtcp2_range.c:33-57 | cutting a range out of a list of gaps leaves exactly the points outside the range |
| `Ranges.CanonicalUnique` | Polygon/lib/ngtcp2_gaptr.c:87-122 | a canonical list is determined by the points it covers |
| `ReorderBuffer.Buffer.Push` | Polygon/lib/ngtcp2_rob.c:154-201 | the bytes that fill gaps are stored at their offsets, stored bytes outside the gaps are untouched, and the range leaves the gap list |
| `ReorderBuffer.Buffer.WriteData` | Polygon/lib/ngtcp2_rob.c:120-152 | data is written across aligned chunks, allocating the missing ones, and nothing outside its range changes |
| `ReorderBuffer.Buffer.RemovePrefix` | Polygon/lib/ngtcp2_rob.c:203-227 | gaps below the offset go, and every stored byte from the offset on stays |
| `ReorderBuffer.Buffer.DataAt` | Polygon/lib/ngtcp2_rob.c:229-245 | a piece is returned exactly when the offset lies before the first gap; it is the stored data and ends at the gap or the chunk |
| `ReorderBuffer.Buffer.Pop` | Polygon/lib/ngtcp2_rob.c:247-257 | a used-up chunk is dropped and everything behind the popped piece stays |
| `AckFrames.ValidateAck` | Polygon/lib/ngtcp2_pkt.c:1482-1507 | block by block subtraction accepts a frame if and only if its smallest number is not negative |
| `AckFrames.AppendCovers` | Polygon/lib/ngtcp2_conn.c:554-572 | appending a block acknowledges exactly one more run, right below the gap |
| `AckBuild.BuildAck` | Polygon/lib/ngtcp2_conn.c:476-583 | the frame acknowledges exactly the eligible entries walked, up to and with the one that filled it, and is valid; it has one block for every run of eligible numbers but the first, at most 256, within a capacity that is never more than doubling calls for; the walk stops early exactly with more than 256 runs; its largest number and its delay, in units of 2^exponent, are those of the newest eligible entry; no frame if and only if no entry is eligible |
| `AckBuild.Overfull` | Polygon/lib/ngtcp2_conn.c:554-572 | 257 packets that are each followed by a missing one give a frame with 256 blocks |
| `AckRuns.SurvivesDecoding` | Polygon/lib/ngtcp2_pkt.c:483-485 | the decoder keeps a built frame whole if and only if its list has at most 256 runs |
| `AckBuild.EnsureBlks` | Polygon/lib/ngtcp2_conn.c:436-455 | doubling always makes room for one more block |
| `AckTracker.AckTracker.CreateAckFrame` | Polygon/lib/ngtcp2_conn.c:476-583 | the frame is the one built from the list, with the delay of its newest eligible entry; entries are forgotten exactly when there are more than 256 runs, and then only from the last reported one on |
| `AckTracker.AckTracker.Add` | Polygon/lib/ngtcp2_acktr.c:92-135 | a packet is refused exactly when its number is known; otherwise it is linked in descending order, and of more than 1024 the oldest is dropped; count and tail stay right |
| `AckTracker.AckTracker.Forget` | Polygon/lib/ngtcp2_acktr.c:137-154 | an entry and all older ones leave the list, count and tail stay right |
| `AckTracker.AckTracker.AddAck` | Polygon/lib/ngtcp2_acktr.c:176-184 | the record goes in front of a ring of 128, newest first |
| `AckTracker.AckTracker.Remove` | Polygon/lib/ngtcp2_acktr.c:186-201 | one entry is unlinked, the others keep their order, count and tail stay right |
| `AckTracker.AckTracker.RemoveAcked` | Polygon/lib/ngtcp2_acktr.c:203-258 | the nested walk over blocks and entries removes exactly the entries that the frame covers |
| `AckTracker.AckTracker.OnAck` | Polygon/lib/ngtcp2_acktr.c:203-258 | settling a record removes what it covered and drops it and all older records |
| `AckTracker.AckTracker.RecvAck` | Polygon/lib/ngtcp2_acktr.c:260-326 | the newest record that the frame covers and that is eligible is settled, newer ones are kept, older ones dropped; nothing happens if and only if none qualifies |
| `AckTracker.AckOfAck` | Polygon/lib/ngtcp2_acktr.c:203-258 | build a frame, add any packets with new numbers, let the frame be acknowledged: what remains are precisely the later packets and those the frame had to skip, still strictly descending, and with room in the list every later number is there |
| `AckRuns.HonestRun` | Polygon/lib/ngtcp2_acktr.c:92-326 | in every run no recorded ACK claims a packet that was not received, and unless a packet meets a full list or a list has more than 256 runs, every received packet is listed or was reported and confirmed |
| `AckRuns.ReceiveExact` | Polygon/lib/ngtcp2_acktr.c:92-135 | a packet that is not known is received and listed, unless a full list drops it as the oldest |
| `AckRuns.SendExact` | Polygon/lib/ngtcp2_acktr.c:176-184 | a frame that is sent is the newest one on record, with the newest 127 before it |
| `AckRuns.PeerExact` | Polygon/lib/ngtcp2_acktr.c:203-326 | an acknowledgement of the peer settles exactly what the newest frame that qualifies acknowledges, and that frame and all older ones are done with |
| `AckRuns.OnlyOverflowDrops` | Polygon/lib/ngtcp2_acktr.c:92-154 | packets are dropped only in these two events, and only ones older than all that are kept |
| `AckRuns.RunInv` | Polygon/lib/ngtcp2_acktr.c:92-326 | the list stays descending and within 1024 entries, and received packets are always exactly those listed, confirmed or dropped |
| `PacketNumbers.AdjustRecovers` | Polygon/lib/ngtcp2_pkt.c:1467-1480 | in all of the number space, the receiver recovers a truncated number if and only if it is in the current window and less than half a window old, or in the next one and at most half a window ahead, or in the last window |
| `PacketNumbers.RecoveredExactly` | Polygon/lib/ngtcp2_pkt.c:1467-1480 | the same in numbers: with k one more than the largest number received and u the start of its window, which numbers are recovered |
| `PacketNumbers.LastWindowRecovers` | Polygon/lib/ngtcp2_pkt.c:1467-1480 | with the last window of the number space expected, exactly its numbers are recovered |
| `PacketNumbers.ChosenWidthRecovers` | Polygon/lib/ngtcp2_conn.c:757-772 | a packet newer than all received ones is recovered with the width that the sender selects, if and only if, in the case of 32 bits, it is at most half a window ahead or still in the current window |
| `PacketNumbers.WidthLeast` | Polygon/lib/ngtcp2_conn.c:757-772 | the width chosen is the least one with room for more than twice the distance to what was acknowledged, up to 32 bits |
| `PacketNumbers.OlderPacket` | Polygon/lib/ngtcp2_pkt.c:1467-1480 | an overtaken packet is recovered if and only if it lies in the window of the next expected number and, unless that is the last one, is less than half a window old |
| `PacketNumbers.Overtaken` | Polygon/lib/ngtcp2_pkt.c:1467-1480 | packet 255, sent in 8 bits and overtaken by 256, is taken for 511 |
| `Headers.ShortRoundTrip` | Polygon/lib/ngtcp2_pkt.c:95-161 | a short header comes back with the number cut to its width and 0 for an omitted id |
| `Headers.LongRoundTrip` | Polygon/lib/ngtcp2_pkt.c:56-93 | a long header comes back exactly when its type is known or it is a version negotiation |
| `Headers.HeaderBytes` | Polygon/lib/ngtcp2_pkt.c:163-240 | the bytes of both forms of header, from the flags of the first byte to the packet number |
| `Headers.HeaderRefused` | Polygon/lib/ngtcp2_pkt.c:43-160 | a header is refused as too short, or as of unknown type, for exactly these bytes |
| `Headers.NumberCarried` | Polygon/lib/ngtcp2_conn.c:3513-3532 | choosing the width, writing the header, reading it and completing the number gives the full number of a packet newer than all received ones, under exactly that condition |
| `Numbers.UintRoundTrip` | Polygon/lib/ngtcp2_conv.c:100-123 | big-endian integers of any width are read back |
| `Numbers.UintUnique` | Polygon/lib/ngtcp2_conv.c:32-60 | the bytes are recovered from the number they stand for |
| `Numbers.BigEndian` | Polygon/lib/ngtcp2_conv.c:32-66 | one more byte behind multiplies by 256, so the most significant byte comes first |
| `Wire.TakeVarintPut` | Polygon/lib/ngtcp2_conv.c:125-145 | every number below 2^62 is read back from its varint, with the bytes behind it untouched |
| `Wire.TakeVarintRange` | Polygon/lib/ngtcp2_conv.c:67-98 | any varint read is below 2^62 and uses at least one byte |
| `Wire.VarintFormat` | Polygon/lib/ngtcp2_conv.c:125-145 | a varint has 2^e bytes, e in its two top bits, the number in the others, and no shorter form could hold it |
| `Wire.VarintRead` | Polygon/lib/ngtcp2_conv.c:64-98 | any bytes are read as the number behind the two top bits, or not at all if there are fewer than announced |
| `DataFrames.AckRoundTrip` | Polygon/lib/ngtcp2_pkt.c:407-513 | an ACK comes back with its first 255 blocks |
| `DataFrames.ClipIsHonest` | Polygon/lib/ngtcp2_pkt.c:483-485 | a frame cut to 255 blocks acknowledges nothing that the original did not, and stays valid |
| `DataFrames.ClipForgets` | Polygon/lib/ngtcp2_pkt.c:483-485 | with more blocks the smallest acknowledged number is lost |
| `DataFrames.StreamRoundTrip` | Polygon/lib/ngtcp2_pkt.c:312-405 | a STREAM frame comes back whichever optional fields were written |
| `Fields.FieldsRoundTrip` | Polygon/lib/ngtcp2_pkt.c:534-986 | any list of fields is read back from its bytes |
| `Frames.FrameRoundTrip` | Polygon/lib/ngtcp2_pkt.c:249-310 | every frame but padding is decoded from its encoding, up to ACK blocks beyond 255, with the bytes behind it untouched |
| `Frames.PaddingRoundTrip` | Polygon/lib/ngtcp2_pkt.c:515-532 | padding is decoded together with the zero bytes that follow it |
| `Frames.ExactRoundTrip` | Polygon/lib/ngtcp2_pkt.c:988-1032 | a frame comes back as it was if and only if it has at most 255 ACK blocks or 255 bytes of PING or PONG data and is not padding before a zero byte |
| `Frames.DecodeSound` | Polygon/lib/ngtcp2_pkt.c:249-310 | on any input the decoder fails or uses at least one byte, leaves a suffix, and returns a frame that can be encoded without loss |
| `Formats.FrameBytes` | Polygon/lib/ngtcp2_pkt.c:988-1407 | the bytes of each of the sixteen frames, field by field |
| `Formats.BytesDecoded` | Polygon/lib/ngtcp2_pkt.c:249-984 | these bytes are decoded as the frame, with an ACK cut to 255 blocks |
| `Formats.FirstBits` | Polygon/lib/ngtcp2_pkt.c:247-268 | STREAM, its end, length and offset, and ACK are recognised by these bits of the first byte |
| `Formats.StreamForms` | Polygon/lib/ngtcp2_pkt.c:312-404 | a STREAM frame is read in all its forms, without an offset as 0 and without a length to the end of the packet |
| `Formats.UnknownFirst` | Polygon/lib/ngtcp2_pkt.c:268-307 | any other first byte above 0x0d is refused |
| `Formats.CutShort` | Polygon/lib/ngtcp2_pkt.c:312-984 | every strict beginning of an encoded frame is refused |
| `Payloads.PayloadRoundTrip` | Polygon/lib/ngtcp2_conn.c:3597-3604 | the receive loop gives back every list of frames, with adjacent padding merged and ACKs cut to 255 blocks |
| `Payloads.ReceivedExact` | Polygon/lib/ngtcp2_conn.c:3597-3604 | the list comes back unchanged if and only if no two paddings are adjacent and no ACK has more than 255 blocks |
| `Payloads.EncodedLenIs` | Polygon/lib/ngtcp2_pkt.c:1034-1407 | every encoder writes exactly the number of bytes it worked out first |
| `FrameCodec.MeasureAck` | Polygon/lib/ngtcp2_pkt.c:407-481 | the measuring pass over an ACK frame fails exactly when reading it would, and otherwise finds its end |
| `FrameCodec.DecodeAck` | Polygon/lib/ngtcp2_pkt.c:407-513 | the two-pass decoder computes the one-pass specification, and both passes end at the same byte |
| `FrameCodec.DecodeFrame` | Polygon/lib/ngtcp2_pkt.c:249-310 | the dispatch on the first byte computes the specified decoder |
| `FrameCodec.EncodeAck` | Polygon/lib/ngtcp2_pkt.c:1080-1117 | the buffer holds exactly the encoding, or is untouched when it is too short |
| `FrameCodec.ReadPayload` | Polygon/lib/ngtcp2_conn.c:3597-3604 | the receive loop terminates on every payload and handles the specified frames up to the first malformed one |
| `TransportParams.ParamsRoundTrip` | Polygon/lib/ngtcp2_crypto.c:314-645 | decoding an encoded block succeeds exactly when the stream ids have the right parity and the exponent is at most 20, and gives back the parameters up to what was not written and the value of the omit flag |
| `TransportParams.ExactRoundTrip` | Polygon/lib/ngtcp2_crypto.c:609-645 | the same parameters come back if and only if they are lawful and the destination held nothing in Polygon's absent fields (for a client also the same token), and the omit flag is 0 or 1 |
| `TransportParams.UnknownIgnored` | Polygon/lib/ngtcp2_crypto.c:593-602 | a well-formed unknown parameter at any boundary, with the length adjusted, does not change what is decoded |
| `TransportParams.EncodedLenIs` | Polygon/lib/ngtcp2_crypto.c:77-153 | the computed length is the number of bytes written, for all three message types |
| `ParamBlocks.EncodedAs` | Polygon/lib/ngtcp2_crypto.c:155-310 | the block that is written, parameter by parameter: which are written, in which order, of which width |
| `ParamBlocks.BlockDecoded` | Polygon/lib/ngtcp2_crypto.c:402-645 | a block with any list of parameters is refused if and only if one has a wrong length or an inadmissible value or a required one is missing; otherwise the last value of each and these defaults are taken |
| `ParamBlocks.LengthRefused` | Polygon/lib/ngtcp2_crypto.c:365-367 | a length field that does not tell the number of bytes behind it is refused |
| `TransportParams.DecodeParams` | Polygon/lib/ngtcp2_crypto.c:314-645 | the loop over type, length and value computes the specified result for every input |
| `StreamIds.TakeExact` | Polygon/lib/ngtcp2_idtr.c:80-122 | a slot can be claimed if and only if it is free, and then only that slot stops being free |
| `StreamIds.TakeOrdered` | Polygon/lib/ngtcp2_idtr.c:80-122 | a claim keeps the gaps ordered and the last one open-ended |
| `StreamIds.IdTracker.Open` | Polygon/lib/ngtcp2_idtr.c:80-122 | the search and the edit of the gap list compute that claim |
| `StreamIds.IdTracker.IsUsed` | Polygon/lib/ngtcp2_idtr.c:124-143 | the answer agrees with the claims for every stream id |
| `StreamIds.IdTracker.FirstGap` | Polygon/lib/ngtcp2_idtr.c:145-150 | every slot below the result is used, and the result is itself unused if and only if the first gap is not empty |
| `StreamIds.TakeEmpties` | Polygon/lib/ngtcp2_idtr.c:98-118 | a claim leaves an empty gap exactly when the slot before is free and the one after is used, and no claim removes one |
| `StreamIds.EmptyGaps` | Polygon/lib/ngtcp2_idtr.c:80-122 | after any run there is an empty gap at a slot if and only if some claim of the run left it there |
| `StreamIds.FirstGapExact` | Polygon/lib/ngtcp2_idtr.c:145-150 | after any run the first gap is the least unused slot if and only if no claim left an empty gap below which everything is used |
| `StreamIds.GrantedOnce` | Polygon/lib/ngtcp2_conn.c:2879-2907 | in any run a request is granted if and only if the id was not requested before |
| `StreamIds.FirstGapIsStale` | Polygon/lib/ngtcp2_idtr.c:108-113 | a run after which the first gap is an empty one that is not free |
| `StreamTable.ClaimExact` | Polygon/lib/ngtcp2_idtr.c:80-122 | over both directions, claiming an id of the peer makes exactly that id used, and succeeds exactly when it was not |
| `StreamTable.StepGood` | Polygon/lib/ngtcp2_conn.c:2879-2907 | a stream object is only created for an id never used before, and used ids stay used through frames, resets, local opens and closings |
| `StreamTable.CreatesExact` | Polygon/lib/ngtcp2_conn.c:2879-2904 | a frame creates a stream if and only if its id is the peer's and has not been used; a local stream gets the least unused id of its kind |
| `StreamTable.StepExact` | Polygon/lib/ngtcp2_conn.c:2879-2904 | which streams are open and which ids are used after an event |
| `StreamTable.FreshExact` | Polygon/lib/ngtcp2_conn.c:222-326 | at the start only id 0 is used, and the first ids are 1 and 3 at the server, 4 and 2 at the client |
| `StreamTable.KindsOfIds` | Polygon/lib/ngtcp2_conn.c:37-48 | the two low bits of an id tell who opened the stream and whether it goes both ways |
| `StreamTable.NeverDuplicate` | Polygon/lib/ngtcp2_conn.c:2757-2780 | after any run on a new connection, inserting a stream never meets its key in the table, as the code asserts |
| `StreamTable.CreatedOnce` | Polygon/lib/ngtcp2_conn.c:4170-4194 | in any run no id is given a stream twice, whatever is closed in between |
| `HashTable.Map.Insert` | Polygon/lib/ngtcp2_map.c:153-168 | an entry is refused exactly when its key is present, the map changes by that entry only, and the load stays at most three quarters |
| `HashTable.Map.Get` | Polygon/lib/ngtcp2_map.c:170-180 | the search finds what the map holds |
| `HashTable.Map.Remove` | Polygon/lib/ngtcp2_map.c:182-198 | removal succeeds exactly when the key is present and takes out that entry only |
| `HashTable.Map.Grow` | Polygon/lib/ngtcp2_map.c:126-151 | doubling the table and rehashing every chain changes no lookup, and the length stays a power of two |
| `HashTable.MaskIsRemainder` | Polygon/lib/ngtcp2_map.c:90-104 | for such lengths masking the hash value is taking the remainder |
| `HashTable.HashExact` | Polygon/lib/ngtcp2_map.c:89-104 | a bucket is the FNV-1a hash of the eight bytes of the key, most significant first, masked with the length less one |
| `HashTable.PutLookup` | Polygon/lib/ngtcp2_map.c:106-123 | linking a new entry into its bucket changes the lookup of its key only |
| `HashTable.DropLookup` | Polygon/lib/ngtcp2_map.c:182-198 | unlinking an entry changes the lookup of its key only |
| `HashTable.FlattenFind` | Polygon/lib/ngtcp2_map.c:126-151 | reading all buckets in order finds for every key what its bucket holds |
| `JsonText.IntRoundTrip` | Polygon/examples/cJSON.c:119-214 | a 64-bit integer is read back from its printed form if and only if its sign mark says whether it is negative |
| `JsonText.NumberText` | Polygon/examples/cJSON.c:119-165 | a number with any sign, fraction and exponent is read as its digits times ten to the exponent less the digits behind the point, and as whole exactly without both |
| `JsonLayout.NumberRead` | Polygon/examples/cJSON.c:153-165 | a number becomes an integer if it is whole, and otherwise its digits and the power of ten |
| `JsonStrings.StringRoundTrip` | Polygon/examples/cJSON.c:219-391 | every string without NUL is read back through the escapes |
| `JsonStrings.PrintStringLen` | Polygon/examples/cJSON.c:334-343 | a printed string takes exactly the room counted for it |
| `JsonStrings.UnescapedFits` | Polygon/examples/cJSON.c:232-317 | whatever the scan yields, a string all of whose escapes are harmless is unescaped within the memory counted for it, and both passes end at the same place |
| `JsonStrings.PlainHarmless` | Polygon/examples/cJSON.c:266-268 | four bytes without quote, backslash and NUL behind a `u` escape are harmless, whatever follows them |
| `JsonStrings.EscapeSafe` | Polygon/examples/cJSON.c:266-308 | four bytes behind a `u` escape are harmless if and only if no scan and no further text without harmful escapes makes the second pass write past the memory |
| `JsonStrings.HarmfulOverruns` | Polygon/examples/cJSON.c:266-308 | for every four bytes that are not harmless, a text and a scan that overrun the memory |
| `JsonStrings.QuoteSkipped` | Polygon/examples/cJSON.c:266-268 | a real text for which two bytes are counted and at least three are written, whatever is scanned |
| `JsonStrings.PairExact` | Polygon/examples/cJSON.c:273-281 | two halves are put together right if and only if bit 6 of the first is clear |
| `JsonUnicode.Utf8Exact` | Polygon/examples/cJSON.c:284-309 | every character is written in UTF-8: a first byte that tells the length, continuation bytes, and payload bits that give the number back |
| `JsonUnicode.EscapeRead` | Polygon/examples/cJSON.c:266-309 | a `u` escape of four digits is read as that character in UTF-8; NUL and a low half are left out |
| `JsonUnicode.PairRead` | Polygon/examples/cJSON.c:273-309 | two halves are read as their character if and only if bit 6 of the first is clear |
| `JsonUnicode.HalfRead` | Polygon/examples/cJSON.c:273-276 | a high half that no escape follows is left out |
| `JsonUnicode.WrongPair` | Polygon/examples/cJSON.c:273-280 | with an escape behind it that is not a low half, both are left out |
| `JsonUnicode.Letters` | Polygon/examples/cJSON.c:251-266 | each escape by a letter is read as its byte, and the byte is written as that escape |
| `JsonUnicode.EscapeExact` | Polygon/examples/cJSON.c:354-391 | other control bytes are written as four hexadecimal digits, and all others as they are |
| `Json.ValueRoundTrip` | Polygon/examples/cJSON.c:441-786 | reading a printed tree at any depth, compact or formatted, gives it back and stops right behind it |
| `Json.DocumentRoundTrip` | Polygon/examples/cJSON.c:415-438 | a whole document is read back as the same tree and used up |
| `JsonSpaces.SpacedRead` | Polygon/examples/cJSON.c:415-688 | a text of a tree with any white space between its parts is read as that tree, up to the end of its text |
| `JsonSpaces.DocumentRead` | Polygon/examples/cJSON.c:415-430 | so is a whole document, with white space in front |
| `Json.PrintInjective` | Polygon/examples/cJSON.c:431-438 | no two normal trees share a text, even across the layouts |
| `JsonLayout.ValueText` | Polygon/examples/cJSON.c:441-786 | the text of each kind of value in both layouts: words, separators, line ends and indentation |
| `JsonCodec.ReadString` | Polygon/examples/cJSON.c:219-322 | the two passes over a string compute the specified text; there is none where the code reads past the text or would write past its buffer |
| `JsonCodec.ReadNumber` | Polygon/examples/cJSON.c:119-166 | the loops over digits, fraction and exponent compute the specified number |
| `JsonCodec.ReadItems` | Polygon/examples/cJSON.c:519-557 | the loop that appends children computes the recursive specification |
| `JsonCodec.ReadMembers` | Polygon/examples/cJSON.c:630-688 | the loop over names and values computes the recursive specification |
| `JsonCodec.ReadValue` | Polygon/examples/cJSON.c:441-480 | the dispatch on the first byte computes the specified value for every text |
| `JsonCodec.WriteString` | Polygon/examples/cJSON.c:325-391 | the buffer is filled exactly, with quotes, escapes and terminator |
| `JsonCodec.WriteArray` | Polygon/examples/cJSON.c:560-627 | the text is the specified one, and the room computed before is its length plus 4 and one for every item, plus one if formatted; 3 more than it without items |
| `JsonCodec.WriteObject` | Polygon/examples/cJSON.c:691-786 | the text is the specified one, and the room computed before is 6 more than its length, or 5 without members |
| `Dispatch.Select` | Polygon/examples/balancer.cc:2086-2158 | the scanning loop chooses the first eligible data center and then the first suitable ones, as many as the redundancy allows |
| `Dispatch.CheckRedundantSuitable` | Polygon/examples/balancer.cc:1637-1651 | true if and only if the metric is within a tenth of the best and the latency within 30 of the base |
| `Dispatch.EligibleExact` | Polygon/examples/balancer.cc:2086-2110 | a deployed data center may be chosen if its latency is positive, or its share or throughput is at least 0 |
| `Dispatch.SuitableExact` | Polygon/examples/balancer.cc:1637-1651 | suitable means between 9/10 and 11/10 of a best value that is not next to 0, and near |
| `Dispatch.BaseSorted` | Polygon/examples/balancer.cc:1641-1646 | in a sorted list the base is the least positive latency unless a negative one comes first or the entry itself is not positive |
| `Dispatch.NearExact` | Polygon/examples/balancer.cc:1641-1648 | a measured data center is near if and only if it is within 30 of the least measured latency, except exactly where a negative front value is more than 30 below it |
| `Dispatch.NearUnmeasured` | Polygon/examples/balancer.cc:1641-1648 | one without a measured latency is near if and only if it is within 30 of the front of the list |
| `Dispatch.NegativeFront` | Polygon/examples/balancer.cc:1641-1646 | after a latency of -1, a center 25 above the least measured one is refused |
| `Dispatch.ChosenCount` | Polygon/examples/balancer.cc:2202-2257 | at most redundancy + 1 targets, and none if and only if no deployed data center has a measurement |
| `Dispatch.ChosenBest` | Polygon/examples/balancer.cc:2300-2354 | for each metric and any order of measurements, the first target is a best one of all eligible data centers |
| `Dispatch.ChosenExtras` | Polygon/examples/balancer.cc:1637-1651 | every further target is eligible, within 10% of the first and near enough |
| `Dispatch.ChosenAll` | Polygon/examples/balancer.cc:2097-2157 | while there is room, a candidate is chosen if and only if it is the first or suitable |
| `Routing.AcceptKeeps` | Polygon/examples/server.cc:1867-1869 | accepting a client keeps the two maps paired if and only if the id drawn for it is not in use |
| `Routing.GoodOneToOne` | Polygon/examples/server.cc:1866-1879 | while the maps are paired, different client ids lead to different handlers and every handler is reached |
| `Routing.LookupHits` | Polygon/examples/server.cc:1818-1879 | a packet that is found leads to a live handler that owns its id |
| `Routing.AlwaysGood` | Polygon/examples/server.cc:1736-1752 | in every reachable state the client map leads one-to-one onto the live handlers |
| `Routing.LookupOfClient` | Polygon/examples/server.cc:1820-1879 | a packet with a client's id reaches that client's handler if and only if the id is not another handler's key |
| `Routing.AcceptApart` | Polygon/examples/server.cc:1867-1869 | accepting keeps client ids apart from other handlers' keys if and only if the id drawn is not a client's |
| `Routing.Misrouted` | Polygon/examples/server.cc:1820-1822 | two accepted clients, the packets of one of which go to the handler of the other |
| `Routing.AlwaysRouted` | Polygon/examples/server.cc:1818-1879 | if no id is drawn that is a client's, then in every reachable state packets of a known client reach its handler |
| `Routing.ReadExact` | Polygon/examples/server.cc:1818-1927 | for which packets, in which states and with which outcomes a handler appears, and for which the one addressed goes |
| `Routing.TimeoutExact` | Polygon/examples/server.cc:2024-2033 | a handler that times out goes with both its keys, and no other does |
| `Routing.WriteRemoves` | Polygon/examples/server.cc:1736-1752 | exactly the handlers whose write fails before the first one that blocks are removed, and the others are unchanged |
| `Routing.Server.OnRead` | Polygon/examples/server.cc:1818-1927 | accepting, giving up or keeping a handler computes the specified step, and the lookup through the client map never misses |
| `Routing.Server.OnWrite` | Polygon/examples/server.cc:1736-1752 | the walk over all handlers in the order of their keys computes that result |
| `Routing.Server.RemoveHandler` | Polygon/examples/server.cc:2024-2033 | both maps lose the handler and nothing else |
| `Routing.Server.DisconnectAll` | Polygon/examples/server.cc:1677-1693 | the loop ends with both maps empty |
| `LoadMonitor.CountsSmooth` | FastRoute/server/LoadMonitor.py:11-20 | the count of high samples never exceeds the window or the beats and changes by at most one per beat |
| `LoadMonitor.MigrationsApart` | FastRoute/server/LoadMonitor.py:35-57 | for every sequence of samples any two migrations are at least nine beats apart and successive ones go in opposite directions |
| `LoadMonitor.FirstMigration` | FastRoute/server/LoadMonitor.py:49-51 | the first migration goes to the next layer and not before beat 13 |
| `LoadMonitor.WindowIs` | FastRoute/server/LoadMonitor.py:11-20 | the window holds the last 15 samples, or all of them while there are fewer |
| `LoadMonitor.AtNextExact` | FastRoute/server/LoadMonitor.py:38-57 | the domain is at the next layer if and only if some beat counted more than 12 high samples and no later one fewer than 4.5 |
| `LoadMonitor.NineBeats` | FastRoute/server/LoadMonitor.py:35-57 | the bound is reached: samples that migrate at beat 16 and back at beat 25 |
| `LoadMonitor.ThirteenHigh` | FastRoute/server/LoadMonitor.py:49-51 | a load that is high from the start does move the domain at beat 13 |
| `LoadMonitor.AfterIs` | FastRoute/server/LoadMonitor.py:38-57 | the state kept beat by beat agrees with the counts, so what is sent are exactly the migrations |
| `LoadMonitor.Monitor.Beat` | FastRoute/server/LoadMonitor.py:38-57 | one beat sends a request exactly when the domain moves, to the layer it moves to |

## Left out

- Stream 0, the handshake, 0-RTT, stateless retry, version negotiation, key phases and encryption: driven by TLS callbacks.
- Retransmission, loss recovery, deadlines and packet assembly: the network of `Protocol` may deliver any frame again instead.
- Stream-id limits, STOP_SENDING and RST_STREAM between the two endpoints of `Protocol`; resets are covered on the receiving side in `Connection`.
- Memory allocation failures, frees, logging and debug output.
- Linked lists, chunk buffers and the ring of ACK records are sequences, so pointer surgery and aliasing are not captured; the stream tables of `Receiver` and `StreamTable` are maps and values, with `HashTable` and `StreamIds` covering the updates in place.
- Integers of 32-bit platforms: `size_t` has 64 bits.
- Frame encoders other than ACK are functions from frames to bytes, so writing into the caller's buffer is modelled for ACK only.
- JSON numbers with fraction or exponent are read as digits and a power of ten but not printed, because their text is rounded; integers are exact.
- JsonStrings.TakeString: where the code reads past the text or writes past its memory there is no result, because its behaviour is undefined; what a scan of fewer than four digits yields is arbitrary.
- Measurements are real numbers instead of floating point, and sorting is taken as any sorted permutation.
- Routing.Server.OnRead: ids that the server draws are taken as not in use, as `AcceptKeeps` shows they must be; the results of reading and writing packets are inputs.
- Sockets, timers, databases, the HTTP client and server, the name server, configuration and evaluation scripts.
- The window of remote stream ids: extending it increments a pointer instead of the number it points to (Polygon/lib/ngtcp2_conn.c:4475), so nothing can be claimed about it.
- `CJsonObject` and the remaining cJSON editing functions would only add easy members.
