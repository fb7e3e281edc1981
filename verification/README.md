# gos7: a verified model of one S7 session

This project models the data plane of the gos7 client and the life of its one session,
and proves what the client promises its callers. It is a model in Dafny's terms: the same
branches, limits, constants and error conditions as the Go code, over mathematical values
where the code uses bytes and bounded integers.

## What is modelled

- `Items`, `Protocol`: validation of logical items, and the S7comm read, write and setup
  PDUs with their builders, strict parsers and size functions.
- `Plc`, `Dialogue`: the controller of the test server, a byte memory that parses and
  serves one job at a time. Where the test server can reject one chosen item, the model
  has a `Verdict` that gives any return code to every item, or refuses the whole job with
  a global code. `Dialogue` proves that both sides read every request and reply alike.
- `Framing`, `Negotiation`, `Handshake`: TPKT (section 6 of RFC 1006) and COTP CR, CC and
  DT (sections 13.3, 13.4 and 13.7 of RFC 905) over a stream that takes and gives any
  number of bytes at a time, and the negotiation Connect runs on them.
- `Fragments`, `ReadPlan`, `WritePlan`, `Greedy`: the lazy fragment iterator with its one
  push-back slot, the two greedy planners, and a proof that greedy cutting is optimal.
- `DirectAccess`: what an item means in controller memory with no wire in between. Reads
  and writes are measured against it.
- `Network`: the client object, its connection and the peer. A script of events decides,
  exchange by exchange, everything the code does not: where a writer stops, how many bytes
  arrive, how much of the reply comes back or which bytes are forged, when a context is
  canceled, and whether Close runs before or after. A statement for every script is a
  statement for every run. `HonestScript` is a controller nobody else writes to behind a
  faulty network; any other script is an arbitrary peer.
- `ReadBook`, `ReadPath`, `WritePath`: the read and write loops and the public calls.
- `Lifecycle`: Connect, operations and Close as a transition system whose steps are the
  mutex sections, the gate, the lifecycle cancel, and opening, closing, sending and
  receiving on sockets, interleaved in any way.
- `Addresses`, `S5Time`: the text form of addresses and the S5TIME encoding.

## How the main results fit together

A read is a book of failures and progress over the fragments still owed to each item
(`ReadBook`). The planner may skip fragments of failed items, which changes how later
requests are packed, but takes nothing from any other item (`LiveKeepsOwed`), and each
answer moves exactly one item on (`AnsweredBooks`). With the wire round trips
(`ReadServed`) and the meaning of a fragment (`FragmentFetches`) this gives
`ReadRefinesMemory`, for a read that ends normally and for one cut short alike: the trace
of answered rounds (`TraceOneMore`) says how much of each item was confirmed.

A write carries, as ghost results, the cuts between its requests and one mark per item.
The marks say which items were applied, memory is exactly the marked items applied in
order, and every outcome agrees with the marks (`WriteLocked`). `Sent` says which items
each request that left the client carried; items behind the last cut were in none.

The limits of a Ready session (`NegotiatedLimits`) are what makes every local check behind
them unreachable: no result of a read or write ever carries the error of the local encoder
or planner, except a size limit found before anything is sent.

What an error says about the session is true: `Exchange` determines the state it leaves,
and every operation up to the public calls leaves the session Broken exactly when its
error says so, unless Close ran (`Accounted`). `Lifecycle` says the same of every
interleaving (`FailedExchangeEndsSession`, `LostOnlyByFailure`).

The wire images, the controller and the meaning of addresses are written with the numbers
of S7comm and ISO-on-TCP themselves (`MemoryArea`, `WordCode`, `JobHeader`, `DataHeader`);
the client's builders, parsers and tables use their own constants and are proved against
them.

## Model

| member | source | states |
|---|---|---|
| `Items.ReadItemAccepted` | item.go:152-243 | a read item is accepted exactly when its area, DB number, bit and transport belong together, its count is positive, its length is within the limit, and every element or byte of it has a 24-bit wire address (the code checks one end only) |
| `Items.ReadItemRefused` | item.go:152-243 | which error a refused item gets: an invalid argument or a limit, and exactly when which |
| `Items.WriteItemAccepted` | item.go:245-273 | a write item is accepted exactly when its descriptor is, its count and encoded length fit 16 bits, and the data is the item's own length, a bit being 0 or 1 |
| `Items.WriteItemRefused` | item.go:245-273 | the same for write items |
| `Protocol.ComputeReadResponseSize` | internal/protocol/protocol.go:72-81 | the size loop, padding included, is the specification size |
| `Protocol.ComputeWriteRequestSize` | internal/protocol/protocol.go:84-93 | the same for write requests |
| `Protocol.BlocksSizeFront` | internal/protocol/protocol.go:72-93 | the padded size taken from the front equals the one taken from the end |
| `Protocol.SegmentSize` | internal/protocol/protocol.go:72-93 | any consecutive part of the data blocks needs no more room than all of them |
| `Protocol.ValidateItems` | internal/protocol/protocol.go:259-276 | accepts exactly the valid descriptor lists |
| `Protocol.WriteItemSpec` | internal/protocol/protocol.go:292-303 | writes the 12-byte specification in its place and nothing else |
| `Protocol.FillParameters` | internal/protocol/protocol.go:134-146 | every descriptor of a request stands at its own place in the parameter block |
| `Protocol.BuildJob` | internal/protocol/protocol.go:305-318 | succeeds exactly for a non-zero reference and 16-bit lengths, and returns the wire image of the job |
| `Protocol.BuildReadRequest` | internal/protocol/protocol.go:134-146 | succeeds exactly on valid descriptors; the result is the job image, byte for byte: the job header, function 0x04, the item count and one specification per item; it has exactly the planned size |
| `Protocol.BuildWriteRequest` | internal/protocol/protocol.go:202-235 | the same for writes, with function 0x05 and the padded data blocks |
| `Protocol.WriteBlockAt` | internal/protocol/protocol.go:202-235 | where every data block of a request stands: at an even offset, header and data as given, at most one zero filler behind it and none behind the last |
| `Protocol.AckImage` | internal/protocol/protocol.go:320-342 | the reply header is accepted exactly when the payload is the AckData image of some PDU under this reference, which is then what is returned |
| `Protocol.EncodedBlocksParse` | internal/protocol/protocol.go:161-199 | every encoding of fitting item replies parses back to them |
| `Protocol.ParsedBlocksAreEncoded` | internal/protocol/protocol.go:161-199 | and nothing else parses: data blocks are in order, disjoint and leave nothing over |
| `Protocol.ParseReadResponse` | internal/protocol/protocol.go:148-199 | the parser loop computes the specification parser, errors included |
| `Protocol.ParseReadItem` | internal/protocol/protocol.go:161-199 | one pass of the loop, with its padding and length checks |
| `Protocol.ReadReplyImage` | internal/protocol/protocol.go:148-199 | with global code 0 a read reply is accepted if and only if it is the AckData encoding of some replies that fit the expected descriptors, and the results are those replies |
| `Protocol.WriteReplyImage` | internal/protocol/protocol.go:238-257 | with global code 0 a write reply is accepted if and only if it encodes one return code per item |
| `Protocol.WriteReplySize` | internal/protocol/protocol.go:96-98 | a write reply needs exactly the room the planner reserves |
| `Protocol.WriteBlocksSize` | internal/protocol/protocol.go:84-93 | the encoded write data has exactly the size the planner computed |
| `Protocol.ReadReplySizeBound` | internal/protocol/protocol.go:72-81 | no reply needs more than the planner reserved, and one without failures needs exactly that |
| `Plc.BitsRoundTrip` | internal/testplc/server.go:440-456 | a byte and its eight bits determine each other |
| `Plc.BitOfMeaning` | internal/testplc/server.go:417-426 | bit k is the one the mask 1 << k selects |
| `Plc.PutBitOf` | internal/testplc/server.go:440-453 | setting a bit sets that bit and keeps the seven others |
| `Plc.StorePeek` | internal/testplc/server.go:454-462 | storing bytes changes exactly the stored span of memory |
| `Plc.ParseVariableItems` | internal/testplc/server.go:288-343 | the parser loop computes the specification of a parameter block |
| `Plc.JobImage` | internal/testplc/server.go:464-475 | the controller recovers a job exactly when the payload is that job's image |
| `Plc.Server.ReadItem` | internal/testplc/server.go:417-438 | returns what memory holds of one variable |
| `Plc.Server.WriteItem` | internal/testplc/server.go:440-462 | the memory afterwards, for bits, bytes, timers and counters |
| `Plc.Server.HandleRead` | internal/testplc/server.go:345-373 | answers every item in order under the verdict's return codes |
| `Plc.Server.TakeItem` | internal/testplc/server.go:383-410 | one pass of the write loop: the item is applied before its filler is checked |
| `Plc.Server.HandleWrite` | internal/testplc/server.go:375-415 | applies the accepted items in order and returns their codes, or stops where the data is malformed |
| `Plc.Server.Handle` | internal/testplc/server.go:230-275 | one job in, memory and reply as specified |
| `Dialogue.VariablesRecovered` | internal/protocol/protocol.go:292-303 | the controller reads back every descriptor the client encoded |
| `Dialogue.ServesRead` | internal/testplc/server.go:345-373 | a read request is answered with the encoding of memory under the verdict, and memory stays |
| `Dialogue.WritesAgree` | internal/testplc/server.go:375-415 | the controller finds every data block of a write request where the client put it, padding included |
| `Dialogue.ServesWrite` | internal/testplc/server.go:375-415 | a write request applies exactly the accepted items, in order, and is answered with one code each |
| `Dialogue.ServesRefusal` | internal/testplc/server.go:230-275 | a refused job changes nothing |
| `Framing.WriteFull` | internal/isotcp/framing.go:49-65 | on failure the count is exactly the length of the prefix the writer took; with a writer that makes progress it never fails |
| `Framing.ReadFull` | internal/isotcp/framing.go:25-46 | exactly the asked bytes, whatever the chunks are |
| `Framing.ReadFrame` | internal/isotcp/framing.go:25-46 | returns the first frame of the stream and leaves the rest |
| `Framing.NextFrameImage` | internal/isotcp/framing.go:25-46 | a frame is taken exactly when the stream starts with version 3, a zero, and a length of at least 7 within the limit that is all there |
| `Framing.WrapData` | internal/isotcp/framing.go:210-223 | succeeds exactly up to the frame limit, with the DT frame |
| `Framing.UnwrapImage` | internal/isotcp/framing.go:226-243 | a frame is taken exactly when it is the payload's DT frame, up to the ignored TPDU number |
| `Framing.WrappedIsNext` | internal/isotcp/framing.go:25-46 | a whole frame at the head of any stream is read, and only it |
| `Framing.PartialIsNotNext` | internal/isotcp/framing.go:25-46 | no proper prefix of a frame is ever read as one |
| `Framing.ReadPayloads` | internal/isotcp/framing.go:210-243 | reading the concatenated frames of any payload list, in any chunks, returns exactly those payloads |
| `Negotiation.TpduSizeCode` | internal/isotcp/framing.go:83-92 | a code exists exactly for the powers of two from 128 to 8192, and is the exponent |
| `Negotiation.TpduSizeForS7Pdu` | internal/isotcp/framing.go:70-81 | the smallest size from 1024 on that holds the PDU and its header |
| `Negotiation.BuildConnectionRequest` | internal/isotcp/framing.go:103-120 | succeeds exactly for TPDU sizes |
| `Negotiation.RequestMeaning` | internal/isotcp/framing.go:103-120 | read back as a CR, the request offers the TPDU size and names our TSAP as the calling and theirs as the called one |
| `Negotiation.ParametersImage` | internal/isotcp/framing.go:154-191 | the type-length-value loop reads a list exactly when the rest of the frame is its encoding |
| `Negotiation.ParseConnectionConfirm` | internal/isotcp/framing.go:129-207 | the parser computes its specification on every frame |
| `Negotiation.ConfirmParameters` | internal/isotcp/framing.go:154-191 | the loop ends in bounds and folds the parameters in order |
| `Negotiation.ConfirmMeaning` | internal/isotcp/framing.go:129-207 | a confirm is accepted exactly when its header and parameters are well formed and what is given of the two TSAPs is our pair crossed over, or both echoed; the size left is the least of the offer and every advertised size, a power of two in 128..8192 |
| `Negotiation.NegotiatedLimits` | client.go:175-248 | whatever the peer answers, a Ready session has 240 <= PDU <= proposal <= configured PDU, PDU + 3 <= TPDU and PDU + 7 <= MaxFrameBytes |
| `Negotiation.NegotiateAccepts` | client.go:175-248 | the negotiation gives these limits if and only if the confirm leaves that TPDU, at least 243, and the setup answer is the DT frame of exactly this acknowledgement, with a PDU from 240 up to the smaller of the configured one and TPDU - 3 |
| `Negotiation.NegotiateRefuses` | client.go:175-248 | a failed negotiation carries the controller's own global code, or else is a protocol error |
| `Negotiation.HandshakeNeverFailsLocally` | client.go:154-201 | the local encoder checks of the handshake cannot fail |
| `Negotiation.HonestHandshake` | internal/testplc/server.go:496-507 | against the test controller the handshake succeeds with the smaller PDU size |
| `Handshake.Agree` | client.go:147-248 | the checks of Connect, step by step, decide exactly as Negotiate does; the frames it sends are, byte for byte, our connection request and the setup job for the right PDU; each failure has its error, none is local |
| `Handshake.FailConnect` | client.go:1238-1251 | gives up the socket, leaves a closed client closed and any other disconnected |
| `Handshake.Connect` | client.go:74-276 | succeeds exactly when nothing disturbs the attempt and the two answers negotiate; then Ready, with those limits and nothing under way. A failed attempt leaves the state as it was if it never began, Closed exactly if Close ran during it, and otherwise Disconnected; its error is the one of the step that failed |
| `Fragments.ReadableFacts` | item.go:152-243 | what validation guarantees the planner: whole elements, and all addresses in 24 bits |
| `Fragments.FragmentLimitFacts` | client.go:839-862 | on every session of 240..960 a fragment size exists, is whole elements, leaves room for the reply header, and is the largest such |
| `Fragments.FragmentIsWire` | client.go:892-929 | no fragment fails to encode, its address fits 24 bits, and the controller reads it as meant |
| `Fragments.ItemEncodes` | client.go:999-1029 | a validated item encodes without loss, wrap-around included: the area, type and width numbers are S7's own |
| `Fragments.NumbersAgree` | client.go:1031-1047 | the client numbers the memory areas 0x81 to 0x84, 0x1c and 0x1d and the element types as S7 does, with S7's element widths, and nothing else has a number |
| `Fragments.AreasAreDisjoint` | client.go:1031-1047 | no two areas share memory |
| `Fragments.FragmentsPartition` | client.go:892-929 | the fragments of an item are adjacent, element-aligned and cover it exactly once |
| `Fragments.ItemFragmentCount` | client.go:864-880 | their number is the ceiling the counter takes |
| `Fragments.CountReadFragments` | client.go:864-880 | the counter returns the number of fragments the iterator will make |
| `DirectAccess.FragmentFetches` | internal/testplc/server.go:417-438 | what the controller reads for a fragment is exactly its stretch of the item |
| `DirectAccess.FragmentSpec` | client.go:892-929 | byte by byte, the specification a fragment sends: the item's own area, DB number and element type, the fragment's element count, and the address where it starts |
| `DirectAccess.WriteIsWire` | client.go:728-742 | every valid write item encodes |
| `DirectAccess.WriteSpec` | client.go:999-1029 | the same for a written item |
| `DirectAccess.WriteApplies` | internal/testplc/server.go:440-462 | applying the wire item is writing the item directly |
| `DirectAccess.WriteThenRead` | internal/testplc/server.go:417-462 | a written item reads back as written |
| `DirectAccess.WriteKeepsRest` | internal/testplc/server.go:440-462 | a write changes nothing outside its own bytes of its own area and data block |
| `DirectAccess.BitWriteKeepsRest` | internal/testplc/server.go:440-453 | a native bit write keeps the seven other bits and every other byte |
| `Greedy.GreedyStaysAhead` | client.go:936-997 | after any number of groups the greedy cut is at least as far as any other |
| `Greedy.GreedyIsOptimal` | client.go:936-997 | no cut into fitting consecutive groups has fewer groups than the greedy one |
| `ReadPlan.CutFragment` | client.go:903-926 | the iterator's loop body never fails |
| `ReadPlan.ReadFragmentIterator.constructor` | client.go:882-890 | starts with every fragment of every item still to come |
| `ReadPlan.ReadFragmentIterator.Next` | client.go:892-929 | takes the head of what remains, never fails, and ends exactly when nothing remains |
| `ReadPlan.ReadFragmentIterator.PutBack` | client.go:931-934 | puts a fragment back in front of what remains |
| `ReadPlan.NextReadBatch` | client.go:936-967 | the batch is the next live fragments, in order; it fits all three bounds, is as long as possible, and planning never fails |
| `ReadPlan.OwedAtStart` | client.go:882-929 | at the start every item is owed all its fragments |
| `ReadPlan.LiveKeepsOwed` | client.go:948-950 | skipping the fragments of failed items takes nothing from any other item |
| `ReadPlan.ReadBatchesOptimal` | client.go:936-967 | without rejections no split of the fragments into fitting groups is shorter |
| `WritePlan.NextWriteBatch` | client.go:969-997 | fails exactly on a bad start or an item that fits no request; otherwise the longest group that fits, or one item |
| `WritePlan.WriteBatchesOptimal` | client.go:969-997 | no split of the items into fitting groups is shorter |
| `Network.CutFrame` | internal/isotcp/framing.go:25-46 | a reply that has not wholly arrived is never read |
| `Network.ReplyImage` | client.go:1091-1109 | from any bytes at all, a payload is taken if and only if its DT frame stands at their head and is within frame limit, TPDU and PDU |
| `Network.ReplyTaken` | client.go:1091-1109 | from an otherwise empty connection a controller's reply is taken whole or not at all, and every reply within the PDU that arrives passes the frame, TPDU and PDU checks |
| `Network.Link.Arrive` | internal/testplc/server.go:190-275 | the controller acts on whole requests only, once |
| `Network.ReferenceClosedForm` | client.go:1125-1133 | the k-th reference in closed form |
| `Network.ReferencesDistinct` | client.go:1125-1133 | references are never zero and differ within any 65535 consecutive requests |
| `Network.Client.NextReference` | client.go:1125-1133 | the successor, never zero |
| `Network.Client.ReadyPdu` | client.go:1116-1123 | the negotiated PDU exactly on a Ready session |
| `Network.Client.BreakSession` | client.go:1253-1266 | gives up the socket and leaves a closed client closed |
| `Network.Client.Receive` | client.go:1091-1109 | takes one reply or gives the session up; the error is the I/O failure's when no frame comes, and a protocol error when one comes that does not fit |
| `Network.Client.Converse` | client.go:1079-1113 | after the local checks: what was sent, what the controller did with it, and that no reply is left over on a session that stays usable |
| `Network.Client.Exchange` | client.go:1050-1114 | for every network behaviour: not sent means memory and everything sent before are unchanged; sent with an error means the session is given up; an answer is the controller's own to this request; a request within the PDU meets no local error; in calm every reply that fits is delivered. The state afterwards is determined: only Close closes, only a lost answer breaks, and a context done first or a session not Ready changes nothing; each way out has its error |
| `ReadBook.NextIsDue` | client.go:690-694 | the fragment answered next for an item that has not failed is the one behind its data, so the offset check never skips |
| `ReadBook.AnsweredBooks` | client.go:681-695 | each answer keeps every unfailed item owed exactly the rest of its fragments |
| `ReadBook.ProgressStep` | client.go:681-695 | one answer: the progress it adds to each item is exactly the bytes of the accepted answers seen so far in the batch |
| `ReadBook.TraceOneMore` | client.go:634-696 | each answered round keeps the trace: an item's progress is the bytes its answers brought before its first rejection, and unless it was rejected the answered fragments are the front of its fragments |
| `ReadBook.RejectionMeans` | client.go:684-689 | an item is free of rejections exactly when all its answered fragments were accepted |
| `ReadBook.BookedDone` | client.go:697-709 | when nothing is left to ask every unfailed item is complete: there is no incomplete logical item |
| `ReadBook.CompleteMeansAnswered` | client.go:697-709 | an item that was not rejected is complete if and only if each of its fragments was answered |
| `ReadPath.ReadServed` | internal/testplc/server.go:345-373 | every read request the client builds is answered within the planned size, and the answer parses to memory or the refusal |
| `ReadPath.AskRead` | client.go:643-670 | one request of a read: what was sent, and that the answer is the controller's memory under its verdict; unless Close ran, the session is Broken exactly when the error says so, and otherwise as before |
| `ReadPath.AbsorbOne` | client.go:681-695 | one answer: an in-place copy behind the item's data, or a rejection noted |
| `ReadPath.AbsorbBatch` | client.go:681-695 | all answers of a batch: only growth at each item's end and by exactly what was accepted, first rejections noted, data true to memory |
| `ReadPath.AbsorbTrue` | client.go:690-694 | copied data is the item's own data at that place |
| `ReadPath.MarkReadIncomplete` | client.go:1283-1292 | open items take the error, all data is cut to what is confirmed |
| `ReadPath.FinishRead` | client.go:697-709 | the incomplete-item error is never produced |
| `ReadPath.ReadTurn` | client.go:643-695 | one turn of the loop, any peer and honest peer |
| `ReadPath.PlanBatch` | client.go:634-642 | the planner's turn: the next batch is genuine, fits and is as long as fits, or the read is over with every item complete or rejected |
| `ReadPath.ReadAdvances` | client.go:634-696 | a turn keeps everything the loop relies on |
| `ReadPath.ReadLoop` | client.go:634-696 | whole loop: every batch asked is of the items' own fragments, each item's progress is exactly what its accepted answers brought however the loop ends, no local error occurs; without rejections the batches are consecutive, fitting, maximal cuts of the fragments and use all of them |
| `ReadPath.FewestReads` | client.go:634-660 | a read without rejections sends the fewest requests possible; the premise is what ReadLoop, ReadLocked and Read export about their own requests |
| `ReadPath.CheckRead` | client.go:596-617 | the checks before the first request, in order, with the error of each |
| `ReadPath.ReadLocked` | client.go:593-710 | for any peer and any way out: data length is progress, and progress is exactly what accepted answers brought; no error exactly when complete; each error is the first rejection with its code or the error that ended the read; every request is of the items' own fragments and within the fragment limit, and without failures the requests are the maximal cuts; a limit error only before anything is sent; a request without an answer on record means the session was given up or the whole request refused; unless Close ran, the session is Broken exactly if the error says so and otherwise as before; destination bytes behind the data untouched; for a controller: data is memory, and a refusal of a whole request is reported with its code |
| `ReadPath.PrepareReads` | client.go:543-565 | accepts exactly the admissible batches, and refuses the others with the error of the first thing wrong |
| `ReadPath.Read` | client.go:351-376 | the read contract from the public call; one result per item exactly when the context was not done on entry and the count is within the limit, otherwise none; nothing is sent for a batch that is not admissible, a context done on entry or a gate not reached, and then every result carries that error; the error says why the call was refused |
| `ReadPath.ReadRefinesMemory` | client.go:593-710 | end to end, whatever ended the read: an item is without error if and only if all its fragments were answered and accepted, and then reads exactly its bytes of controller memory, however others were rejected; every other item has exactly the bytes its accepted answers brought, a prefix of its memory; on the normal way out only a rejection prevents completeness |
| `ReadPath.PrepareArea` | client.go:417-435 | what is let through is one admissible byte item of the destination's length; an admissible one is refused only for its context or the gate |
| `ReadPath.ReadRange` | client.go:436-444 | the part of ReadArea behind the checks, with the same promises |
| `ReadPath.ReadArea` | client.go:406-444 | n is exactly the bytes accepted answers brought, even when an error interrupts; they are memory, the destination from n on is unchanged, no error exactly when n is the whole length, and a rejection is reported with its code; in calm only a rejection leaves anything unread; bytes come from the area the address names, and unless Close ran the session is as the error says |
| `WritePath.WriteServed` | internal/testplc/server.go:375-415 | every write request the client builds is answered within the planned size with the verdict's codes, and memory is the accepted items applied |
| `WritePath.GroupIsValid` | client.go:771-784 | no planned batch fails to encode |
| `WritePath.AskWrite` | client.go:766-808 | one request of a write: not sent means not applied; sent without an answer ends the session; unless Close ran, the session is Broken exactly when the error says so, and otherwise as before |
| `WritePath.EncodeWrites` | client.go:728-742 | preparing validated items never fails |
| `WritePath.ControllerAppliesGroup` | internal/testplc/server.go:375-415 | what the controller does with a batch is its items applied one by one where accepted |
| `WritePath.RecordFailure` | client.go:786-808 | a batch without an answer is in doubt exactly if it was sent |
| `WritePath.RecordAnswer` | client.go:809-834 | outcomes follow the answer code by code |
| `WritePath.StopWrite` | client.go:830-834 | a write that stops after a rejection ends with the first error there is, which leaves the session usable |
| `WritePath.MarkUnattempted` | client.go:1302-1308 | only items never attempted and without error take the error |
| `WritePath.AbsorbCodes` | client.go:817-829 | outcomes code by code, and whether one failed |
| `WritePath.FirstWriteError` | client.go:1310-1317 | the error of the first failed item |
| `WritePath.WriteTurn` | client.go:756-834 | one turn: shape of the results, what was sent, and memory as the marked items applied |
| `WritePath.WriteLoop` | client.go:755-836 | whole loop: requests carry consecutive disjoint ranges, outcomes are true of memory, local errors do not occur after the preflight |
| `WritePath.Preflight` | client.go:743-754 | passes exactly when each item fits a request of its own |
| `WritePath.CheckWrite` | client.go:712-754 | the checks before the first request pass exactly on a usable session with items that fit; each failed check has its error |
| `WritePath.WriteLocked` | client.go:712-837 | for any peer: acknowledged and rejected items first, then one unknown block of at most 20, then not attempted; no error exactly when acknowledged, and every item without an answer carries the error that ended the write; for a controller: acknowledged items are applied once, rejected and unattempted ones not, unknown ones at most once, in order; the error that ends a write is some item's own; unless Close ran, the session is Broken exactly if the error says so and otherwise as before |
| `WritePath.PrepareWrites` | client.go:567-591 | accepts exactly the admissible batches, and refuses the others with the error of the first thing wrong |
| `WritePath.Write` | client.go:380-404 | the write contract from the public call; one result per item exactly when the context was not done on entry and the count is within the limit, otherwise none; nothing is sent for a batch that is not admissible, a context done on entry or a gate not reached, and then every result carries that error; the error says why the call was refused |
| `WritePath.WriteRefinesSequence` | client.go:728-836 | without rejections the memory is that of writing the items one by one in input order |
| `WritePath.FewestRequests` | client.go:755-770 | a completed write sends the fewest requests possible |
| `WritePath.ChunkIsLargest` | client.go:484-493 | a chunk size is possible if and only if the item limit, the 16-bit length field and one request with its reply allow it, so the chunk is the largest that can go |
| `WritePath.ChunkAdmissible` | client.go:499-509 | no chunk of a validated range fails validation |
| `WritePath.ChunkFits` | client.go:484-493 | no chunk fails the preflight |
| `WritePath.WriteChunk` | client.go:510-525 | a chunk is acknowledged and stored, or ends the call; the internal errors there do not occur; in calm a rejected chunk is reported with the controller's code |
| `WritePath.WriteChunks` | client.go:498-529 | the chunk loop: the confirmed prefix is stored, and behind it either nothing landed or exactly one more chunk of this session's size; a complete write took exactly the ceiling of length by chunk size in requests |
| `WritePath.WriteArea` | client.go:446-530 | the confirmed prefix is in memory; behind it either nothing or exactly the next chunk of this session's size, and the latter only if the session was given up; requests within the fragment limit; a limit error only before anything is sent; a complete write took the ceiling of length by chunk size in requests; unless Close ran the session is as the error says; a refused range has its error, and in calm a failed write reports the rejected chunk's code |
| `WritePath.PrefixByByte` | client.go:446-530 | the same byte by byte: what landed (the confirmed prefix, or it and one whole chunk more) holds the source, every other byte of memory is as it was |
| `Lifecycle.HolderStep` | client.go:1135-1157 | with the gate exclusive, a step of its holder concerns the holder alone |
| `Lifecycle.CloserKeepsPc` | client.go:280-305 | Close may come between any two steps of Connect or an exchange |
| `Lifecycle.NextKeeps` | client.go:74-305 | every step of every caller and of Close keeps the invariant |
| `Lifecycle.RunKeeps` | client.go:74-305 | so every reachable state has it |
| `Lifecycle.ReadyIsReachable` | client.go:74-276 | the session does get Ready: with any two answers that negotiate, a lone caller arrives there |
| `Lifecycle.ExchangeIsReachable` | client.go:1050-1114 | and operations do run: on that session a lone caller sends its request, takes its own answer, and leaves the session Ready with the gate free |
| `Lifecycle.ReadySessions` | client.go:253-274 | limits are valid exactly when Ready, and Ready means a socket and usable limits |
| `Lifecycle.GateExcludes` | client.go:1135-1157 | one operation at a time; with the gate free nobody is connecting |
| `Lifecycle.OneSocket` | client.go:108-145 | at most one socket is open at any time |
| `Lifecycle.ClosedLeavesNothing` | client.go:280-305 | once Closed with no operation in flight every dialled socket is closed |
| `Lifecycle.OverIsForEver` | client.go:280-305 | Closing and Closed are never left, except Closing to Closed |
| `Lifecycle.ClosedTurnsAway` | client.go:1135-1157 | once Close has cancelled the lifecycle, a caller that is at the gate or comes to it gets no further: it neither dials nor sends |
| `Lifecycle.CloseHasCanceled` | client.go:280-305 | the lifecycle is cancelled exactly when Close is past that step |
| `Lifecycle.StreamAligned` | client.go:1085-1113 | no reply is outstanding on a Ready session with the gate free, and an exchange only takes the reply to its own request |
| `Lifecycle.FailedExchangeEndsSession` | client.go:1050-1114 | from a failed exchange, a malformed answer included, to the release of the gate, however others step in between: the session is not Ready when its caller lets go |
| `Lifecycle.LostOnlyByFailure` | client.go:1253-1266 | no step of a caller gives up a Ready session except breakSession, and only a failed exchange leads there |
| `Lifecycle.OnlyOwnSocket` | client.go:1238-1266 | breakSession and failConnect only close the socket their own caller used |
| `Addresses.DecimalRoundTrip` | address.go:126-132 | a spelled number is read back |
| `Addresses.NumberReadBack` | address.go:126-132 | a number inside a text is read up to whatever follows it |
| `Addresses.DigitsReadBack` | address.go:126-132 | any digits are read as the number they spell, leading zeros included |
| `Addresses.ParseMeaning` | address.go:12-97 | the parser accepts a text if and only if it spells a valid address, by any of the English and German letters, prefixes and widths, and returns what it spells |
| `Addresses.ParseRefused` | address.go:21-97 | everything else is an invalid argument, except a well-spelled address beyond 24 bits, which is a limit |
| `Addresses.NormalizedMeaning` | address.go:25-31 | blanks around a text, its case and one leading percent sign mean nothing |
| `Addresses.FormatIsCanonical` | address.go:134-171 | what is emitted is the one canonical spelling: no alias, no leading zero |
| `Addresses.FormatParses` | address.go:21-171 | exactly the valid pairs have a spelling, and parsing it gives the pair back, a real as a double word |
| `Addresses.ParsedIsValid` | address.go:21-97 | what is parsed is valid, and never a real |
| `Addresses.ParseThenFormatIsCanonical` | address.go:134-171 | formatting what was parsed is canonical: it parses to the same, and formatting again changes nothing |
| `Addresses.SpellingsDiffer` | address.go:134-171 | different addresses never share a spelling |
| `S5Time.DecodeMeaning` | codec/scalar.go:269-282 | the decoder reads the packed base and digits, the tick being ten milliseconds times ten to the base |
| `S5Time.DecodedFields` | codec/scalar.go:269-282 | and accepts nothing else |
| `S5Time.EncodeS5Time` | codec/scalar.go:285-305 | succeeds exactly when some raw value decodes to the duration, returns one that does, with the finest base among all of them |

## Left out

- Sockets, TCP options, DNS, real clocks, deadlines and the Go scheduler: they appear only
  as script events, attempt fields or transition steps.
- Error text, wrapping, the Temporary flag and `Diagnostics`: an error is its kind, its numeric codes and
  whether the session survived. Which of timeout, cancel, close and transport an I/O
  failure is classified as is an event of the script.
- `config.go` apart from its numeric bounds (`ValidConfig`).
- The global refusal of a whole job is not something the test server does; it is added to
  its verdicts so that the client's handling of it is covered.
- A request that a controller applies only after the client has given up on its session:
  in the model a request is applied during its exchange or never.
- ReadLocked: requires distinct destination buffers, which the code does not check;
  `ReadArea`, the only caller that passes any, passes a single one.
- Aliasing of caller slices otherwise: the code clones write data, and they are values here.
- The 32-bit platforms on which Go's `int` is narrower: `MAX_INT` is 64-bit.
- Unicode: `ParseAddress` upper-cases and trims with Unicode rules, the model with ASCII
  rules; texts with other characters are not covered.
- The regular expressions of `address.go` are written out as a grammar with the same
  language and captures.
- Integer, float, string, counter and boolean codecs, and the test server's connection
  handling, delays and recording.
- `Lifecycle` abstracts the operations between two exchanges to one loop state; what they
  compute is in `ReadPath` and `WritePath`, which in turn see Close only at the points of
  an exchange where its effect can differ.
- `New`, `Dial`, `Limits` and `State` are one-line accessors or compositions.
- Contexts and queueing at the gate in `Read`, `Write`, `ReadArea`, `WriteArea` and `Connect`
  are parameters: why the context was already done on entry, and why waiting for the gate
  ended without it. The errors of `acquire` and the public calls for a client not made with
  `New`, a nil client and a nil context are not modelled.
