# Pure Reactive Protocol in Dafny

A model of the Pure Reactive Protocol repository and proofs about it: the native PRP/1 session as two
peers joined by FIFO channels, its two wire codecs, its handshake, the RSocket 1.0 compatibility
session, the byte-stream deframers, the back-pressured frame queue, the Rust frame validator, and the
datagram-routing profile.

`dafny verify dfyconfig.toml` checks the whole project.

## How it is built

| modules | what they hold |
|---|---|
| `Bytes`, `Utf8`, `Frames` | byte strings, big-endian integers, strict text, frames, limits and logical items |
| `Codec`, `Leb128`, `Compact` | the 36-byte-header TLV codec, unsigned LEB128 (section 7.6 of DWARF Version 4), and the compact codec, each as functions with the in-place loops proved against them |
| `FragmentPlan` | how `writeDataItem` cuts an item, and why every piece encodes |
| `Sessions`, `Session` | a ready session: each operation as a function on a value, and the class whose methods update fields in place and are proved to do the same |
| `Decisions`, `Wire` | what a session accepts, answers and must refuse in every reachable state, told from what happened so far; its frames as bytes |
| `Totals`, `Accounting`, `SessionRuns` | one session against an arbitrary peer: exact counters, tombstones, id frontiers |
| `StreamLink`, `Views`, `Effects`, `TwoPeers`, `Pipes`, `Moves`, `Steps`, `Receiving`, `Diagnostics`, `Runs` | two sessions: the coupling of a sender's and a receiver's view of a stream through everything in flight, its preservation by every step of either side, and the codes their ERROR frames carry |
| `StreamCounts`, `OpenLimits`, `Saturation`, `Grants`, `Clipping` | the opener's count against the acceptor's limit; runs in which credit saturates, and what that breaks; every granted credit accounted for |
| `Framing`, `Deframer`, `FrameQueues`, `IncomingQueue` | length-prefixed framing and its incremental decoder (both prefix widths); the frame queue with `pushWait` split at its await |
| `Capabilities`, `PeerLimits`, `Handshakes`, `Greetings`, `LateRefusals` | negotiation, limit announcements, the codec each side uses when, which greetings are taken, and an initiator that fails after the WELCOME |
| `RSocketCodec`, `RSocketFragments`, `RSocketReassembly`, `RSocketDecisions`, `RSocketSession` | the five frame kinds fragmentation concerns (RSocket Protocol 1.0, "Fragmentation and Reassembly" and "Stream Identifiers"), lazy fragmentation, reassembly, request starts |
| `RustKernel` | the second frame validator and header encoder |
| `Routing`, `LatestSends` | route tables and latest-wins coalescing |
| `Vectors` | the formats byte by byte: field layouts and concrete wire vectors |

The central argument is `StreamLink.Coupled`. Take the receiver's automaton for one stream and run it
over every frame of that stream the other side has written or decided to write: it never reaches a
violation, and it ends in agreement with the sender (same items, same end of stream, and the sender's
spendable credit plus the DEMANDs under way equal to the credit left). Every application call, write and
delivery keeps this for every stream at once, and the theorems of `Runs` are read off it. Where credit
counters saturate, the same run without a cap on credit goes along (`Saturation`), and what does not speak
of credit carries over from it.

What the code does not decide itself is a parameter: whether an acceptor accepts, throws or finds the
queue full, whether memory for a reassembly can be had, whether a write of an OPEN succeeds, whether
extensions attach, whether a carrier takes a datagram.

## Where the code does less than it says

- Credit saturates at 2^32-1 on each side separately (`addCredit`). `Clipping` shows that a single
  saturated `request` breaks the balance of granted and spendable credit, and gives a run in which a
  sender that spends only what it was granted is accused of exceeding demand.
- `stream.fail` writes whatever code its error has, but the peer treats a code that decodes to nothing (an
  empty one, or a byte order mark alone) as a protocol violation: one such `fail` ends the peer's session
  (`Clipping.UnnamedErrorViolates`). These two violations are the only ones conforming sessions can meet
  (`Saturation.OnlyDemandOrNames`).
- A fragmented RSocket request whose metadata does not fit the first fragment (the first two, for the
  kinds whose metadata-only fragments decode without a data field) is refused by the session's own
  reassembly. `RSocketReassembly.RoundTripIff` gives the exact condition.
- An initiator that fails after a WELCOME reports the failure in the original frame format, while the
  acceptor already reads with its own limits, and compact frames if those were negotiated. The reason
  arrives exactly when they were not and the frame fits (`LateRefusals.LateRefusalReadIff`);
  `LateRefusals.LateRefusalMisread` is a run in which it does not.
- `TextDecoder` drops a byte order mark at the start of an attribute id, so such ids do not round-trip,
  and an id that is nothing else is accepted by the Rust kernel and by the compact decoder's text step,
  but not by the original decoder (`Codec.DecodeEncodedIff`, `RustKernel.KernelAgreesIff`).
- A literal attribute id that spells a dictionary name is accepted by the compact decoder and re-encodes
  differently (`Compact.EncodeCompactDecodedIff`, `Compact.SpelledNameShrinks`).
- An RSocket frame may be encoded with its METADATA flag set and no metadata, and is then misread
  (`RSocketCodec.DecodeEncodedIff`).
- `IncomingFrameQueue` takes frames in the order they were offered if and only if no operation overtakes:
  no push, of either kind, is taken at once while a `pushWait` is suspended, and no `pushWait` resumes
  into the queue before an older one (`FrameQueues.FifoIff`). A producer that pushes nothing while a
  `pushWait` of its own is suspended is safe (`FrameQueues.SingleProducerFifo`);
  `FrameQueues.ImpatientOvertakes` is a run that is not. The queue strands no producer if and only if its
  byte bound admits one maximal frame (`FrameQueues.NoneStrandedIff`).

## Model

| member | source | states |
|---|---|---|
| Runs.NoViolation | src/core/session.ts:818-965 | in every interleaving of two conforming ready sessions (opens, requests, whole and fragmented sends, completes, cancels, fails, refusals for lack of memory or budget, tombstone eviction) no delivered frame reaches a ProtocolViolation branch, as long as no request saturates a credit counter and no error carries a code that decodes to nothing |
| Runs.OnlyUnnamedErrors | src/core/session.ts:187-205 | without the second condition, the violation for such a code is the only one that can arise |
| Saturation.OnlyDemandOrNames | src/core/session.ts:818-965 | without either condition, exceeded demand and such a code are the only violations that can arise between conforming sessions |
| Diagnostics.NamedIff | src/core/session.ts:193-198 | the code of an ERROR is acceptable if and only if it is UTF-8, not empty and not a byte order mark alone |
| Clipping.UnnamedErrorViolates | src/core/session.ts:293-298 | for every other code, a run in which one `fail` with it ends the peer's session with a violation |
| Saturation.InOrderDelivery | src/core/session.ts:610-704 | in every state any run reaches, saturated or not, per stream and direction, the items pushed to the receiver's queue are a prefix of those sent, each once and whole; when the end of the stream has been reported they are all of them |
| Runs.DemandConserved | src/core/session.ts:230-261 | while a stream is live on both sides, whichever directions are completed, the receiver's inbound credit is the sender's outbound credit plus first frames under way plus DEMANDs under way, whatever the fragment counts |
| Grants.GrantedBounds | src/core/session.ts:230-240 | against any peer, in every reachable state: items delivered, one more if an item is under way, and the credit left are together at most the demand granted by requests, and exactly that while the stream is live and nothing has saturated |
| Grants.GrantsAccounted | src/core/session.ts:230-261 | between two sessions, all demand ever granted on a live stream is items delivered, an item being put together, the sender's credit, first frames under way and DEMANDs under way |
| Receiving.ReceiveStep | src/core/session.ts:836-883 | the frame at the head of a channel is accepted and the two-peer invariant survives it, whatever the application answers |
| Receiving.DataStep | src/core/session.ts:885-934 | DATA for a live stream of a conforming peer finds it open, with credit, no item under way and a size within limits, also when the reassembly budget makes the receiver fail the stream |
| Receiving.FragmentStep | src/core/session.ts:936-951 | FRAGMENT finds its item under way and never overruns the declared length |
| Receiving.FinishStep | src/core/session.ts:868-873 | COMPLETE never interrupts an item |
| Receiving.EndStep | src/core/session.ts:874-879 | CANCEL and ERROR stop a stream without putting later frames of either side in the wrong |
| Receiving.LateStep | src/core/session.ts:847-854 | every frame that arrives for a stream no longer in the map is one the tombstones and frontiers let pass, also after the tombstone was evicted |
| Receiving.OpenedStep | src/core/session.ts:1139-1176 | the next OPEN is contiguous, and accepting, refusing or failing it keeps both sides coupled |
| Steps.SendStep | src/core/session.ts:242-261 | sending an item keeps the two-peer invariant |
| Steps.CompleteStep | src/core/session.ts:263-273 | completing a direction, and retiring the stream when it was the second, keeps it |
| Steps.TerminateStep | src/core/session.ts:275-304 | cancelling or failing keeps it although unwritten DATA is dropped and a terminator overtakes nothing |
| Steps.OpenStep | src/core/session.ts:525-547 | opening, including the undone insertion when the OPEN cannot be written, keeps it |
| Steps.RequestStep | src/core/session.ts:230-240 | granting demand keeps it when the counter does not saturate |
| Steps.FlushStep | src/core/session.ts:724-747 | writing the next queued frame with the next sequence number keeps it |
| StreamLink.RxReceive | src/core/session.ts:836-951 | one stream: a coupled receiver accepts the next frame in flight and stays coupled |
| StreamLink.TxCancel | src/core/session.ts:759-774 | one stream: a sender may drop any unwritten DATA tail when it appends a terminator |
| StreamLink.RxCancel | src/core/session.ts:759-774 | one stream: a receiver that cancels can absorb everything still in flight |
| StreamLink.RxEvict | src/core/session.ts:782-797 | one stream: losing its tombstone makes a receiver no stricter |
| StreamLink.RunItem | src/core/session.ts:885-951 | the frames of one item cost one credit and deliver exactly that item, once |
| StreamLink.Delivery | src/core/session.ts:885-951 | coupling implies that received is a prefix of sent, and all of it at the end of input |
| StreamLink.Conservation | src/core/session.ts:861-889 | a coupled live stream has as much credit granted as spendable and under way, whichever ends are closed |
| Saturation.OpenNeverOverLimit | src/core/session.ts:1145-1148 | in every run, saturated or not, whenever an OPEN is next in a channel, the acceptor's live remote streams are fewer than its limit: a conforming opener is never refused by the maxInboundStreams branch |
| StreamCounts.RoomForNext | src/core/session.ts:525-534 | the streams alive at the acceptor when the next OPEN arrives are among those the opener counts |
| Clipping.RequestBalancedIff | src/core/session.ts:159 | in any reachable state a request on a live stream keeps the demand balance if and only if it does not saturate the counter |
| Clipping.SaturationCanViolate | src/core/session.ts:159 | a run of two conforming sessions with one saturated request that ends in the exceeded-demand violation |
| SessionRuns.AccountsExact | src/core/session.ts:749-797 | against any peer, in every reachable state: the four counters are the sums over the stream map within their limits; tombstones are bounded, duplicate-free, disjoint from live streams and behind the frontier |
| SessionRuns.NeverFloored | src/core/session.ts:749-780 | no Math.max(0, ...) ever changes a counter's value |
| SessionRuns.NeverReopened | src/core/session.ts:792-797 | an id that has been used and is not live is never live again, whatever arrives and however long its tombstone is gone |
| Accounting.CancelValid | src/core/session.ts:759-774 | cancelling a stream gives back exactly what it held in every counter |
| Accounting.HandleFrameValid | src/core/session.ts:836-951 | any accepted frame of any peer keeps the accounts |
| Session.Session.constructor | src/core/session.ts:429-446 | a fresh attachment: frontiers by origin, sequences at 1, empty maps, zero counters |
| Session.Session.Retire | src/core/session.ts:782-790 | the in-place update of tombstones is that of the specification |
| Session.Session.ClearReassembly | src/core/session.ts:776-780 | releases exactly the reserved bytes of this stream |
| Session.Session.CancelStream | src/core/session.ts:759-774 | the record is closed and cancelled, the stream leaves the map, unwritten DATA leaves the queue, and nothing else changes |
| Session.Session.ReleaseStream | src/core/session.ts:749-757 | removes and retires the stream exactly when both directions are closed |
| Session.Session.Request | src/core/session.ts:230-240 | adds saturating credit and queues a DEMAND, or refuses |
| Session.Session.Send | src/core/session.ts:242-261 | takes one credit and queues the whole plan, or gives the credit back |
| Session.Session.SendItem | src/core/session.ts:247-256 | the credit is taken first and restored when the plan is refused, so a refusal changes nothing |
| Session.Session.Complete | src/core/session.ts:263-273 | COMPLETE, then the closed flag, then release |
| Session.Session.Terminate | src/core/session.ts:275-304 | cancels the stream and queues its CANCEL or ERROR |
| Session.Session.Open | src/core/session.ts:525-547 | inserts before writing and takes the insertion out again when the write fails |
| Session.Session.InsertUndone | src/core/session.ts:540-546 | undoing an insertion restores every counter exactly |
| Session.Session.WriteNext | src/core/session.ts:724-747 | the next frame gets the next sequence number, until the sequence space ends |
| Session.Session.HandleData | src/core/session.ts:885-934 | same verdict and same new state as the specification, branch by branch |
| Session.Session.HandleFragment | src/core/session.ts:936-951 | likewise |
| Session.Session.HandleStreamFrame | src/core/session.ts:856-882 | likewise, for all frames of a live stream |
| Session.Session.HandleLate | src/core/session.ts:847-854 | likewise, for frames of a stream not in the map |
| Session.Session.HandleOpen | src/core/session.ts:1139-1176 | likewise, with every refusal |
| Session.Session.Receive | src/core/session.ts:818-834 | one turn of the read loop |
| Decisions.OpenDecided | src/core/session.ts:1139-1176 | in every reachable state, against any peer: an OPEN with the next id, for which there is room under the stream limit and the attribute budget, and which the application takes or has queue room for, leaves the stream live and nothing to write; otherwise exactly one ERROR is queued, with the acceptor's code or RESOURCE_EXHAUSTED, and the stream is not live |
| Decisions.OpenAt | src/core/session.ts:1139-1176 | the same for every state with exact accounts, with the condition for the next id and what tombstone a refused OPEN leaves |
| Decisions.FrameJudged | src/core/session.ts:818-882 | in every reachable state, exactly these frames of an arbitrary peer break the session: a sequence number that does not count the arrivals, an OPEN that is not the next of its side, and those with a fault |
| Decisions.FaultAt | src/core/session.ts:847-951 | the faults: frames for a stream never opened, remembered late DATA after the peer's end, DATA after COMPLETE, inside another item, beyond demand or size, fragments of nothing or too long, COMPLETE inside an item, zero demand, an error that names nothing; each with its violation |
| Decisions.StateTells | src/core/session.ts:429-446 | in every reachable state the ids in use are those opened so far by either side, both sequence numbers count the frames that came and went, and the counters are what the live streams hold |
| Decisions.FirstIds | src/core/session.ts:429-446 | the initiator's first stream is 1 and the acceptor's is 2, on both sides |
| Decisions.TombstonesTell | src/core/session.ts:782-797 | in every reachable state there is a tombstone for each of the last maxRetiredStreams streams that ended or were turned away, and it lets late DATA pass exactly where this side cancelled or failed the stream |
| Decisions.DataAt | src/core/session.ts:885-965 | an accepted item frame delivers its item once the last byte is there, and each item costs one credit; an item that cannot be put together fails the stream instead, with RESOURCE_EXHAUSTED |
| Decisions.SignalAt | src/core/session.ts:856-882 | what DEMAND, COMPLETE, CANCEL and ERROR do to the stream, the queue, the tombstones and what the application saw |
| Decisions.SendAt | src/core/session.ts:242-261 | an item is sent if and only if the stream is live, its output not completed, credit left, the item before it written, and it can be planned; then it costs one credit and the frames carry it |
| Decisions.RequestAt | src/core/session.ts:230-240 | a grant is taken if and only if its count is in range and the stream is live with its input open |
| Decisions.CompleteAt | src/core/session.ts:263-273 | completing ends the stream exactly when the other direction has ended |
| Decisions.TerminateAt | src/core/session.ts:275-304 | cancelling or failing a live stream ends it, drops its unwritten DATA, queues the terminator and lets the peer's late DATA pass |
| Decisions.OpenNextAt | src/core/session.ts:525-547 | a stream is opened, with the next id, if and only if the frame can be written, the peer's limit is not reached and the attribute budget has room |
| Decisions.PurgeDrops | src/core/session.ts:685-704 | of a cancelled stream exactly the DATA and FRAGMENT frames are not written |
| Decisions.MemoryIsWire | src/core/session.ts:164-166 | what a stream's attributes are charged is what they take in the original format |
| Wire.ReadBackIff | src/core/session.ts:836-882 | a stream frame that either codec writes is read back as that frame with its sequence number, if and only if none of its attribute ids starts with a byte order mark |
| Wire.NothingElse | src/core/session.ts:836-882 | the session takes from a decoded stream frame all there is in it, apart from the text of terminators |
| Wire.ReadWellShaped | src/core/codec.ts:184-221 | what either decoder accepts has the shape that the theorems about runs assume of arriving frames |
| Wire.SignalsEncode | src/core/session.ts:235-297 | a grant, an end and a bare ERROR encode in both formats at any uint64 id and sequence under any limits |
| FragmentPlan.PlanCarries | src/core/session.ts:610-704 | the frames of a plan carry exactly the item: slices concatenate to the payload, attributes ride on the first frame, later slices are non-empty |
| FragmentPlan.PlanEncodes | src/core/session.ts:622-704 | every planned frame encodes within maxFrameBytes at any uint64 stream id and sequence, in the original form and, when negotiated, in the compact form |
| FragmentPlan.PlanLegit | src/core/session.ts:640-683 | a first slice is always shorter than its item |
| FragmentPlan.CompactHeaderBound | src/core/compact.ts:83-85 | a compact header takes at most 27 bytes, against the 36 reserved |
| FragmentPlan.PlanFrames | src/core/session.ts:610-683 | the imperative planner, which computes each frame from its index, produces that plan |
| FragmentPlan.PlannedIff | src/core/session.ts:610-683 | an item is planned if and only if the peer takes items of its size, an empty DATA frame with its attributes can be written, and either the whole DATA frame can or fragments were negotiated and can carry a byte, with room reserved beside a full header when compact frames may be used; it goes whole exactly when it can, so that more than one frame implies the negotiation |
| FragmentPlan.RefusedBecause | src/core/session.ts:615-648 | each refusal names its cause |
| FragmentPlan.PlanFills | src/core/session.ts:640-683 | no frame of a plan but the last could carry one more byte |
| Codec.DecodeEncodedIff | src/core/codec.ts:150-221 | an encoded frame decodes, under any limits at least as wide, to itself if and only if no attribute id starts with a byte order mark |
| Codec.EncodeDecodedIff | src/core/codec.ts:184-221 | an accepted byte string re-encodes to itself if and only if no id on the wire starts with a byte order mark |
| Codec.DecodeEncoded | src/core/codec.ts:150-221 | what becomes of any encoded frame, byte order marks included |
| Codec.AcceptedIffFits | src/core/codec.ts:150-221 | under limits unrelated to the writer's, an encoded frame is accepted exactly when it fits them itself and no id is a byte order mark alone |
| Codec.FitsExactly | src/core/codec.ts:17-45 | a frame that can be written under wider limits can be written under these if and only if its size, its attribute area, the number of attributes, and each id and value are within them |
| Vectors.ExhaustedVector | src/core/session.ts:900-907 | the code that answers what there is no room for |
| Codec.MeasureAttributes | src/core/codec.ts:17-33 | the measuring loop returns the exact size of the attribute area, or the range error |
| Codec.EncodeAttributes | src/core/codec.ts:17-45 | the in-place writer fills its buffer with exactly the attribute area |
| Codec.ReadAttributes | src/core/codec.ts:53-85 | the reading loop accepts and returns exactly what the recursive parse does |
| Codec.WriteFrame | src/core/codec.ts:150-182 | the in-place encoder, checks in source order |
| Vectors.HeaderLayout | PROTOCOL.md:24-41 | what each byte range of any encoded frame holds |
| Vectors.AttributeLayout | PROTOCOL.md:45-57 | what each byte range of an attribute entry holds |
| Vectors.KindBytes | PROTOCOL.md:59-75 | the kind byte of every stream frame |
| Utf8.ValidIff | src/core/attributes.ts:3-29 | strict decoding accepts exactly the bytes that encode some sequence of Unicode scalar values |
| Leb128.AcceptsExactly | src/core/compact.ts:116-131 | readVarint accepts exactly the shortest encodings of values below 2^32 or 2^64, with anything after them, and consumes that many bytes |
| Leb128.ReadWritten | src/core/compact.ts:25-32 | reading inverts writing, whatever follows |
| Leb128.WrittenRead | src/core/compact.ts:116-131 | nothing but a shortest encoding is accepted |
| Leb128.VarintBytes | src/core/compact.ts:19-23 | the counting loop gives the length of the encoding |
| Leb128.WriteVarint | src/core/compact.ts:25-32 | the writing loop |
| Leb128.ReadAt | src/core/compact.ts:116-131 | the bounded reading loop with its cursor |
| Compact.DecodeCompactEncodedIff | src/core/compact.ts:68-187 | compact round trip, with the same exact condition as the original codec |
| Compact.CodecsAgree | src/core/compact.ts:40-107 | a frame both encoders accept decodes to the same frame through either, and both charge the same logical attribute budget |
| Compact.EncodeCompactDecodedIff | src/core/compact.ts:109-187 | an accepted compact frame re-encodes to the same bytes if and only if no literal id starts with a byte order mark or spells a dictionary name |
| Compact.SpelledNameShrinks | src/core/compact.ts:148-161 | for each dictionary name, a frame of given bytes that spells it out, is accepted, and is shorter when encoded again |
| Compact.PrepareAttributes | src/core/compact.ts:40-60 | checks the original TLV budget and measures the compact section exactly |
| Compact.WriteCompact | src/core/compact.ts:68-107 | the encoder behind a moving cursor |
| Compact.ReadEntries | src/core/compact.ts:143-171 | the attribute loop |
| Compact.ReadCompact | src/core/compact.ts:109-187 | the decoder behind a moving cursor |
| Vectors.CompactLayout | PROTOCOL.md:188-198 | the marker, the control byte and the integers of any compact frame |
| Vectors.DictionaryVector | PROTOCOL.md:202-212 | the dictionary of version 1 |
| Vectors.DataVector | compatibility/fixtures/compact-frames-v1.json:5 | the shared fixture, written and read |
| Vectors.DemandVector | compatibility/fixtures/compact-frames-v1.json:6 | likewise |
| Vectors.FragmentedDataVector | compatibility/fixtures/compact-frames-v1.json:7 | likewise |
| Vectors.CloseVector | compatibility/fixtures/compact-frames-v1.json:8 | likewise |
| Vectors.RpcOpenVector | compatibility/fixtures/compact-frames-v1.json:9-13 | likewise, with dictionary ids |
| Vectors.UnknownAttributeVector | compatibility/fixtures/compact-frames-v1.json:14-16 | likewise, with a literal id outside ASCII |
| Vectors.KindsRefused | test/compact.test.ts:80-93 | unknown and handshake kinds are refused, whatever follows |
| Vectors.ZeroSequenceRefused | test/compact.test.ts:80-93 | sequence zero is refused at any stream id, whatever follows |
| Vectors.ValueRefused | test/compact.test.ts:80-93 | a header value on unfragmented DATA is refused, whatever follows |
| Vectors.TotalRequired | test/compact.test.ts:80-93 | fragmented DATA without a total is refused, whatever follows |
| Vectors.SectionsRefused | test/compact.test.ts:80-93 | an empty attribute section and a dictionary code of a later version are refused, whatever follows |
| PeerLimits.AnnouncementRoundTrip | src/core/limits.ts:95-127 | every resolved limit set survives its 26-byte announcement |
| PeerLimits.AnnouncedIff | src/core/limits.ts:95-127 | an announcement is accepted if and only if it is that of a resolved limit set |
| Vectors.AnnouncementVector | src/core/limits.ts:95-106 | the bytes that announce the default limits |
| PeerLimits.OutboundAdmits | src/core/session.ts:1044-1051 | under the negotiated limits a frame can be written, in either format, if and only if it fits the limits of both sides |
| PeerLimits.NegotiatedSound | src/core/session.ts:1036-1051 | what either encoder produces under the negotiated limits the peer decodes under its own to the same frame, ids without their leading byte order mark; only an id that is that mark alone is refused, by the original codec |
| Capabilities.HandshakeAgrees | src/core/capabilities.ts:119-148 | once the acceptor accepted the HELLO, the initiator accepts the WELCOME if and only if it offered all it requires; both then hold the same versions, each the highest in both ranges, and what either requires and has itself is among them |
| Capabilities.ParseWritten | src/core/capabilities.ts:86-117 | offers survive their attributes, required flags included |
| Capabilities.SettleIff | src/core/capabilities.ts:138-147 | settling fails exactly when a required capability has no common version |
| Capabilities.NegotiateCapabilities | src/core/capabilities.ts:119-148 | the loops over maps compute the specified negotiation |
| Capabilities.NegotiatesIff | src/core/capabilities.ts:119-148 | a negotiation succeeds if and only if everything this side requires is offered, everything the peer requires is known here, and each of these that is known here is offered in a common version |
| Capabilities.SettledAtBest | src/core/capabilities.ts:138-147 | what is settled is what both sides have in common, each at the highest common version |
| Capabilities.HelloAcceptedIff | src/core/capabilities.ts:119-148 | a HELLO is accepted if and only if what the initiator requires of its own offers both have in a common version, and what the acceptor requires the initiator offers, in a common version where the acceptor has it |
| Capabilities.ParsedIff | src/core/capabilities.ts:103-117 | attributes are taken for given offers if and only if the offers among them spell just these, valid and of different capabilities |
| Vectors.OfferVector | src/core/capabilities.ts:86-96 | the id and value of an offer, byte by byte |
| Capabilities.ReadOffers | src/core/capabilities.ts:103-117 | the parsing loop with its set of seen ids |
| Handshakes.CodecsInStep | src/core/session.ts:732-736 | in every run around the handshake each frame is decoded, under the reader's codec and limits of that moment, to what the writer encoded, and none comes early, unless an id is a byte order mark alone in the original format or an initiator's late refusal is one the acceptor cannot read; ready sides use compact frames if and only if some version of them lies in both offers |
| Handshakes.HelloTaken | src/core/session.ts:967-998 | a conforming HELLO leaves the acceptor ready within the initiator's limits with its WELCOME readable, or detached with a readable ERROR |
| Handshakes.HelloReadyIff | src/core/session.ts:967-998 | a conforming HELLO makes the acceptor ready, with the settlement and the WELCOME of the two configurations, if and only if they agree, its extensions attach and the WELCOME fits; otherwise it detaches with an ERROR, if that fits |
| Handshakes.WelcomeTaken | src/core/session.ts:1000-1019 | the WELCOME makes a conforming initiator ready with the same codec choice and within the acceptor's limits |
| Greetings.HelloJudged | src/core/session.ts:967-998 | whoever sent it, a HELLO makes the acceptor ready, within the limits of both, if and only if it names exactly one session and requires nothing unknown, offers what either side insists on in versions both have, announces limits, the extensions attach and the WELCOME fits; otherwise the acceptor detaches with an ERROR |
| Greetings.WelcomeJudged | src/core/session.ts:1000-1019 | likewise for the WELCOME, which must name the initiator's session |
| Greetings.WelcomeMeets | src/core/capabilities.ts:119-148 | for any configuration and any attributes: the initiator accepts the offers if and only if all that either side insists on is in a version both have |
| Greetings.NamedIff | src/core/session.ts:1021-1034 | a greeting names a session if and only if exactly one attribute has that id, is required and holds a non-empty text, and every other required attribute is an offer |
| Greetings.TimelyIff | src/core/session.ts:836-848 | a frame comes in time if and only if it is the greeting a connecting side waits for, anything but a greeting on a ready side, or a session ERROR |
| Greetings.SettledForGood | src/core/session.ts:836-848 | no event of any run changes what a ready side has settled or its limits for sending |
| LateRefusals.LateRefusalReadIff | src/core/session.ts:1014-1018 | the ERROR of an initiator that fails after the WELCOME, once written, is understood by the acceptor if and only if compact frames were not settled and the frame fits the acceptor's own limits |
| LateRefusals.LateRefusalRun | src/core/session.ts:967-1019 | from the start, for any two configurations whose greetings can be written: the run that ends in that ERROR breaks the acceptor under exactly that condition |
| LateRefusals.LateRefusalMisread | src/core/session.ts:1014-1018 | two peers of one ordinary configuration, with compact frames, in which it does |
| Handshakes.GreetingNamed | src/core/session.ts:1021-1034 | a greeting passes the handshake attribute checks and names its session id |
| LateRefusals.LegacyIsNotCompact | src/core/session.ts:821-822 | no frame in the original format is accepted as a compact one |
| RustKernel.KernelAgreesIff | rust-kernel/src/lib.rs:44-196 | under default limits the kernel accepts exactly the frames decodeFrame accepts, but for zero PING/PONG probes and ids that are a bare byte order mark |
| RustKernel.KernelDiffers | rust-kernel/src/lib.rs:100-196 | both exceptions occur |
| RustKernel.AcceptsEncoded | rust-kernel/src/lib.rs:44-196 | the kernel accepts an encoded frame if and only if it is not a zero probe |
| RustKernel.ValidateFrame | rust-kernel/src/lib.rs:44-196 | the imperative validator with its moving offset |
| RustKernel.WriteHeader | rust-kernel/src/lib.rs:199-228 | fills the 36 bytes as specified, or refuses |
| RustKernel.HeaderReadBack | rust-kernel/src/lib.rs:199-228 | any header the kernel writes, the decoder reads back field by field |
| RustKernel.HeaderRewritten | rust-kernel/src/lib.rs:199-228 | any header the decoder reads, the kernel writes byte for byte, if the attribute area is within its limit, and refuses otherwise |
| RustKernel.HeaderEncodersAgree | rust-kernel/src/lib.rs:199-228 | the kernel's header is byte for byte that of encodeFrame |
| Framing.ChunkingInvariant | src/transport/framing.ts:25-51 | however a stream is cut into chunks, frames and final state are those of the whole stream |
| Framing.PushTwice | src/transport/framing.ts:25-51 | two pushes do what one push of both chunks does |
| Framing.DeframesFramed | src/transport/framing.ts:4-51 | framing then deframing returns the frames if and only if the decoder's limit admits each, and fails otherwise |
| Framing.FeedIsParse | src/transport/framing.ts:25-51 | the incremental decoder finds what a one-shot parse of the whole stream finds, with the same rest and the same failures |
| Framing.EncodeIff | src/transport/framing.ts:4-11 | a frame is framed if and only if it is not empty and the prefix can tell its length |
| Framing.EncodeLengthPrefixed | src/compatibility/rsocket-v1/framing.ts:4-12 | the in-place encoder, for either prefix width |
| Vectors.PrefixVectors | src/transport/framing.ts:4-12 | a frame behind four bytes of length, and behind three |
| Deframer.Decoder.constructor | src/compatibility/rsocket-v1/framing.ts:14-24 | starts between frames |
| Deframer.Decoder.Push | src/transport/framing.ts:25-51 | the nested loops over prefix and frame arrays return the frames of the specification and leave its state, or fail with it |
| FrameQueues.QueueInvariant | src/transport/incoming.ts:28-122 | in every interleaving with pushWait split at its await: the byte count is exact, both bounds hold, waiting consumers imply an empty buffer, and what was delivered followed by what is buffered is what was taken in, each frame once |
| FrameQueues.NothingLost | src/transport/incoming.ts:80-112 | in every run, closed or not, what was taken in is what was delivered, what is buffered and what a discarding end dropped; next() reports the end only when nothing is buffered |
| FrameQueues.PushDecided | src/transport/incoming.ts:42-78 | in every run, a push is taken if and only if the queue is open, the frame within its limit, and a consumer waits or the buffer has room for it |
| FrameQueues.ResumeDecided | src/transport/incoming.ts:64-78 | in every run, a woken pushWait is refused if the queue was closed, its frame is taken if and only if a push of it would be, and it sleeps again otherwise |
| FrameQueues.EndsAsFirstClosed | src/transport/incoming.ts:80-104 | the queue ends as the first close said, failed or not |
| FrameQueues.NoneStrandedIff | src/transport/incoming.ts:64-75 | no producer is ever left asleep beside an empty buffer, if and only if the buffer can hold one frame of any admissible size |
| FrameQueues.DefaultsAreRoomy | src/transport/incoming.ts:8-9 | the default bounds satisfy that condition |
| FrameQueues.ServedInOrder | src/transport/incoming.ts:98-112 | over every run, the k-th next() to be answered gets the k-th frame taken in; calls are answered in the order they were made, and while the queue is open none is left out |
| FrameQueues.FifoIff | src/transport/incoming.ts:42-78 | over any mix of producers, frames are taken in the order they were offered if and only if no push is taken beside a suspended one and none resumes into the queue before an older one |
| FrameQueues.FifoDelivery | src/transport/incoming.ts:42-112 | and then what consumers get is what was offered, from the first offer on |
| FrameQueues.SingleProducerFifo | src/transport/incoming.ts:42-78 | a producer that pushes, either way, only while no pushWait of its own is suspended has its frames delivered in order, none skipped |
| FrameQueues.ImpatientOvertakes | src/transport/incoming.ts:56-78 | otherwise a small frame can overtake a large one that waits for space |
| IncomingQueue.IncomingFrameQueue.constructor | src/transport/incoming.ts:19-23 | starts empty and open |
| IncomingQueue.IncomingFrameQueue.TryPush | src/transport/incoming.ts:42-54 | in-place tryPush is the specified step |
| IncomingQueue.IncomingFrameQueue.PushWait | src/transport/incoming.ts:56-66 | pushWait up to its await |
| IncomingQueue.IncomingFrameQueue.Resume | src/transport/incoming.ts:67-78 | pushWait from its await on |
| IncomingQueue.IncomingFrameQueue.Next | src/transport/incoming.ts:98-112 | next, which wakes every producer that waits for space |
| IncomingQueue.IncomingFrameQueue.End | src/transport/incoming.ts:80-96 | end settles every waiting consumer and producer |
| RSocketCodec.DecodeEncodedIff | src/compatibility/rsocket-v1/codec.ts:109-297 | an encoded request or PAYLOAD has the computed size, and decodes to itself with the decoder's defaults if and only if its METADATA flag is not set without metadata |
| RSocketCodec.EncodeDecoded | src/compatibility/rsocket-v1/codec.ts:199-297 | an accepted frame re-encodes to the same bytes |
| Vectors.ResponseRequestVector | src/compatibility/rsocket-v1/codec.ts:109-197 | a request with metadata, byte by byte |
| Vectors.StreamRequestVector | src/compatibility/rsocket-v1/codec.ts:109-197 | a request with an initial count, byte by byte |
| Vectors.RSocketBits | src/compatibility/rsocket-v1/frame.ts:26-30 | the flag bits |
| RSocketCodec.WriteMetadataData | src/compatibility/rsocket-v1/codec.ts:49-58 | the buffer-filling writer |
| RSocketCodec.WriteFrame | src/compatibility/rsocket-v1/codec.ts:109-197 | the encoder's flag and body accumulation, for the five kinds |
| RSocketCodec.ReadFrame | src/compatibility/rsocket-v1/codec.ts:199-297 | the decoder's moving offset, for the five kinds |
| RSocketFragments.FragmentsEncode | src/compatibility/rsocket-v1/session.ts:228-290 | every fragment encodes within maxFrameBytes, unless the first already fails |
| RSocketFragments.NeedsMore | src/compatibility/rsocket-v1/session.ts:235-290 | a frame over the limit really yields several fragments, unless all it sheds is empty metadata |
| RSocketFragments.FragmentsFill | src/compatibility/rsocket-v1/session.ts:235-290 | every fragment but the last is as long as the limit allows |
| RSocketFragments.FragmentFrame | src/compatibility/rsocket-v1/session.ts:235-290 | the loop over the two offsets terminates and yields those fragments |
| RSocketReassembly.RoundTripIff | src/compatibility/rsocket-v1/session.ts:847-916 | fragmenting, encoding, decoding and reassembling hands nothing out before the last fragment, and then the original item, with budgets as before, if and only if the metadata fits the fragments that may carry it; otherwise some fragment is refused as a violation |
| RSocketReassembly.LongMetadataRefused | src/compatibility/rsocket-v1/session.ts:904-909 | a concrete request the session fragments and its own reassembly refuses |
| RSocketReassembly.ReceivedIsDecoded | src/compatibility/rsocket-v1/codec.ts:199-297 | the frames fed to reassembly are what the decoder makes of the encoded fragments |
| RSocketReassembly.ReassembleExact | src/compatibility/rsocket-v1/session.ts:847-925 | any frame, accepted or refused, keeps both budgets exact and bounded |
| RSocketReassembly.BudgetsExact | src/compatibility/rsocket-v1/session.ts:847-925 | so in every run of arbitrary frames and stream ends the budgets are the sums over live assemblies and within bounds |
| RSocketReassembly.DropsWhatWasCounted | src/compatibility/rsocket-v1/session.ts:918-925 | dropping an assembly never floors a counter |
| RSocketDecisions.FateInRun | src/compatibility/rsocket-v1/session.ts:847-925 | in every run against any peer: a frame outside any item is handed on as it is; a fragment is refused exactly for the first objection to it (a request inside an item, an item too long, no room beside the other open items, metadata after data), and otherwise held back, or made with the fragments before it into the item |
| RSocketSession.StartsAccepted | src/compatibility/rsocket-v1/session.ts:784-792 | over any run of refused, oversized, unencodable and successful starts, every request that reaches the wire passes the peer's id check: no gap |
| RSocketSession.StartAllOrNothing | src/compatibility/rsocket-v1/session.ts:544-596 | a request that starts can be written to its last fragment |
| RSocketSession.StartDelivers | src/compatibility/rsocket-v1/session.ts:544-596 | what a started request puts on the wire reaches a peer with room as the request itself: its id, kind, initial count, metadata, data and completion, if and only if the metadata fits |
| RSocketSession.StartRefusedIff | src/compatibility/rsocket-v1/session.ts:544-581 | a request is not started exactly when its payload is over maxItemBytes, the ids are used up or its count cannot be encoded |
| RSocketSession.AcceptedInOrder | src/compatibility/rsocket-v1/session.ts:784-792 | a fresh session accepts a run of requests if and only if their ids are those of the peer's side in order, none left out |
| RSocketSession.FreshStartsAccepted | src/compatibility/rsocket-v1/session.ts:784-792 | a fresh session's peer accepts its requests from the first on |
| RSocketSession.Session.SendInitialRequest | src/compatibility/rsocket-v1/session.ts:544-596 | the id is committed only with the first bytes, and the registration undone otherwise |
| RSocketSession.Session.AcceptRemoteRequestId | src/compatibility/rsocket-v1/session.ts:784-792 | accepts exactly the next id of the peer's parity |
| RSocketSession.Session.DropFragmentAssembly | src/compatibility/rsocket-v1/session.ts:918-925 | in-place drop is the specified one |
| RSocketSession.Session.AppendFragment | src/compatibility/rsocket-v1/session.ts:890-916 | in-place append, with its three refusals |
| RSocketSession.Session.Reassemble | src/compatibility/rsocket-v1/session.ts:847-888 | in-place reassembly, for the five kinds |
| Routing.RoutesRoundTrip | src/profile/datagram-routing/index.ts:68-104 | an acceptable route table survives the wire as its sorted form |
| Routing.EntriesIff | src/profile/datagram-routing/index.ts:85-104 | an area is taken for given routes if and only if it spells just these, in this order, each with or without a leading byte order mark |
| Routing.LessIff | src/profile/datagram-routing/index.ts:59-66 | the order of routes: by the first place where they differ, a beginning before what it begins |
| Vectors.RoutesVector | src/profile/datagram-routing/index.ts:68-83 | the parameters of three routes, byte by byte |
| Routing.TablesAgree | src/profile/datagram-routing/index.ts:146-155 | both peers derive the same one-to-one numbering 1..n of the common routes, from either side's view |
| Routing.AscendingUnique | src/profile/datagram-routing/index.ts:59-66 | a sorted duplicate-free table is determined by its routes |
| Routing.NumberRoutes | src/profile/datagram-routing/index.ts:148-155 | the loop builds the numbering and its inverse |
| Routing.WriteEntries | src/profile/datagram-routing/index.ts:75-80 | the entries one after another |
| Routing.ReadEntries | src/profile/datagram-routing/index.ts:85-104 | the decoding loop accepts and returns exactly the specified entries, each without a leading byte order mark |
| LatestSends.LatestWins | src/profile/datagram-routing/index.ts:240-278 | in every run: at most one drain is active, a resolved call was covered by a successful send of its own or a newer value, and when no drain is active nobody waits |
| LatestSends.SettledByFirst | src/profile/datagram-routing/index.ts:260-278 | in every run, each call is settled by the first attempt to send a value at least as new as its own, resolved when that attempt succeeded and rejected when not |
| LatestSends.NewestGoes | src/profile/datagram-routing/index.ts:240-269 | in every run, what is sent next is the newest value offered |
| LatestSends.Sender.Offer | src/profile/datagram-routing/index.ts:240-258 | sendLatest in place |
| LatestSends.Sender.DrainLatest | src/profile/datagram-routing/index.ts:260-278 | the drain loop from one await to the next |
| LatestSends.Sender.Carried | src/profile/datagram-routing/index.ts:263-269 | the carrier's answer settles exactly the batch that was sent |

## Left out

- Runs.NoViolation: not for runs in which a `request` pushes a counter past 2^32-1 or an error has a code that decodes to nothing, because it is false of them; `Saturation.OnlyDemandOrNames` says that nothing else goes wrong, and `Clipping` gives the failing runs.
- Runs.NoViolation: leaves SIGNAL out, because its byte budget is a local limit an honest peer can exceed.
- Handshakes.CodecsInStep: not for an id that is a byte order mark alone in the original format, nor for an initiator whose extensions fail where the acceptor cannot read its ERROR, because it is false of them; `Codec.DecodeEncoded` and `LateRefusals.LateRefusalReadIff` say what happens.
- RSocketReassembly.RoundTripIff: for a receiver with room in its budgets and no assembly under way on that stream; `RSocketDecisions.FateInRun` says which fragments are refused without room, or inside another item.
- Routing.WriteEntries: grows a byte string where the source fills a preallocated array.
- A `writeTail` operation and the bookkeeping after its await are one step, as the promise chains make them; awaits inside a step are not separate states.
- DATA and FRAGMENT frames of a cancelled stream leave the queue when the stream is cancelled; the source skips them when their turn to be written comes, which puts the same frames on the wire.
- A send waits for credit by being retried: `creditWaiters` and the order in which they wake are not modelled.
- Exhaustion of the 64-bit sequence space ends a run (nothing more is written) instead of detaching; a failed `lane.write` is the end of a run too, except for the undone OPEN.
- `detach` and `close` of a running session, and what happens to a lane after either.
- Methods of `Session.Session` take stream ids where the source keeps handles; a handle to a stream that has left the map finds it gone, which is what its closed flags tell in the source.
- The reassembly buffer is the prefix received so far with the declared total, not a preallocated array; a failed allocation is a parameter.
- Handshake steps are functions on values rather than methods, because each is one straight-line decision; the awaits in them admit no other frame, since the read loop waits too.
- Session errors, close reasons and the texts of messages: CANCEL carries its kind only, ERROR its code. An ERROR that does not fit the limits is written again without its code, which is the model's ERROR without one; that messages are UTF-8 of bounded length is not modelled.
- An ERROR that names two codes or requires another attribute is turned away in `Wire`, before the model's ERROR; the session of the model takes any ERROR with at most one code.
- PING, PONG, CLOSE and liveness: the codecs cover the frames, no state machine does; the liveness capability's parameters are not checked.
- JavaScript string order of routes: routes match an ASCII pattern, on which it is byte order.
- RSocket SETUP, LEASE, KEEPALIVE, METADATA_PUSH, ERROR and CANCEL bodies, request-n credit, routing metadata and the mapping to RPC patterns; CANCEL and ERROR appear only as the end of an assembly.
- The accept loop of a remote OPEN is one verdict: accepted, thrown, or nobody and the queue full or not.
- Datagram lanes and envelopes, the RPC profile, the RxJS adapter, carriers, timers, and the JSON payload helpers: platform I/O or thin layers over what is modelled.
- `pushOrThrow` of the frame queue differs from `tryPush` only in throwing where that returns false, and is modelled by it.
