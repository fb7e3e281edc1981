/** Reading through the session (client.go): Read, ReadArea and the loop under them. */
module ReadPath {
  import opened Bytes
  import opened Errors
  import opened Items
  import opened Protocol
  import opened Plc
  import opened Dialogue
  import opened Negotiation
  import opened Network
  import opened Fragments
  import opened DirectAccess
  import opened ReadPlan
  import opened ReadBook
  import opened Greedy

  // ------------------------------------------------------------ one request

  /** What a controller's answer to a read comes to: its refusal, or its memory. */
  function ControllerReads(memory: Memory, items: seq<Item>, verdict: Verdict): ReadResponse
    requires S7Items(items)
  {
    if verdict.Global() != 0 then ReadResponse(seq(|items|, _ => ItemResult(0, [])), verdict.Global())
    else ReadResponse(ResultsOf(HonestReplies(memory, items, verdict)), 0)
  }

  lemma {:induction false} RefusalIsRead(reference: U16, items: seq<Item>, globalCode: U16)
    requires reference != 0 && globalCode != 0
    ensures |AckPdu(reference, AckData([], [], globalCode))| == 12
    ensures ReadReplyOf(AckPdu(reference, AckData([], [], globalCode)), reference, items)
         == Some(ReadResponse(seq(|items|, _ => ItemResult(0, [])), globalCode))
  {
    hide AckPdu, ParseAckData;
    var ack := AckData([], [], globalCode);
    AckSize(reference, ack);
    AckParses(reference, ack);
  }

  lemma {:induction false} EncodingIsRead(reference: U16, items: seq<Item>, replies: seq<ReadReply>)
    requires reference != 0 && |items| <= WIRE_MAX_ITEMS && RepliesFit(items, replies, 0)
    requires ReadResponseSize(items) <= MAX_U16
    ensures |ReadAck(items, replies).data| <= MAX_U16
    ensures |AckPdu(reference, ReadAck(items, replies))| <= ReadResponseSize(items)
    ensures ReadReplyOf(AckPdu(reference, ReadAck(items, replies)), reference, items)
         == Some(ReadResponse(ResultsOf(replies), 0))
  {
    hide AckPdu, ParseAckData, ReadResponseOf, ReadResponseSize, RepliesFit;
    ReadReplySizeBound(reference, items, replies);
    AckParses(reference, ReadAck(items, replies));
    ReadAckParses(items, replies);
  }

  /** A controller answers every read request of the client, within the size the planner
      reserved, with what its memory holds, and its memory stays the same. */
  lemma {:induction false} ReadServed(memory: Memory, job: Job, reference: U16, items: seq<Item>, verdict: Verdict)
    requires reference != 0 && S7Items(items) && ReadJobFor(job, reference, items) && |job.parameters| <= MAX_U16
    requires 14 <= ReadResponseSize(items) <= MAX_PDU
    ensures
      var served := Serve(memory, JobPdu(job), verdict);
      && served.memory == memory
      && served.reply.Some?
      && |served.reply.value| <= ReadResponseSize(items)
      && ReadReplyOf(served.reply.value, reference, items) == Some(ControllerReads(memory, items, verdict))
  {
    hide Serve, AckPdu, ReadReplyOf, ReadResponseSize, JobPdu, S7Item, ParametersFor;
    if verdict.Global() != 0 {
      ServesRefusal(memory, job, verdict);
      RefusalIsRead(reference, items, verdict.Global());
    } else {
      ServesRead(memory, job, reference, items, verdict);
      EncodingIsRead(reference, items, HonestReplies(memory, items, verdict));
    }
  }

  /** What the parser guarantees of any reply it accepts. */
  ghost predicate ResponseFits(response: ReadResponse, items: seq<Item>) {
    response.globalCode == 0 ==>
      && |response.results| == |items|
      && forall i | 0 <= i < |items| ::
           response.results[i].returnCode == ACCEPTED ==> |response.results[i].data| == items[i].dataBytes
  }

  lemma {:induction false} ParsedFits(payload: seq<Byte>, reference: U16, items: seq<Item>)
    requires |items| <= WIRE_MAX_ITEMS && ReadReplyOf(payload, reference, items).Some?
    ensures ResponseFits(ReadReplyOf(payload, reference, items).value, items)
  {
    hide ParseAckData;
    var response := ReadReplyOf(payload, reference, items).value;
    if response.globalCode == 0 {
      var replies := ParsedIsReadAck(ParseAckData(payload, reference).value, items);
    }
  }

  /** The request a read round sends. */
  ghost predicate IsReadRequest(payload: seq<Byte>, reference: U16, items: seq<Item>) {
    exists job: Job ::
      |job.parameters| <= MAX_U16 && |job.data| <= MAX_U16 && ReadJobFor(job, reference, items) && payload == JobPdu(job)
  }

  /** The trace one turn leaves: at most one request, under the next reference. */
  ghost predicate OneAsked(before: seq<seq<Byte>>, after: seq<seq<Byte>>, reference: U16, now: U16, items: seq<Item>, sent: bool) {
    && before <= after
    && |after| == |before| + (if sent then 1 else 0)
    && (sent ==> now == NextAfter(reference) && IsReadRequest(after[|before|], now, items))
  }

  /** Why a request that left has no answer on record: the session was given up, or the
      controller refused the whole request. */
  predicate NoAnswer(state: State, end: Option<Error>) {
    end.Some? && (state != StateReady || (end.value == Error(ErrorKind.Plc, end.value.code, 0, Unchanged) && end.value.code != 0))
  }

  /** If a controller's refusal of the whole request ended the read, its code is reported. */
  predicate RefusedIn(event: Event, end: Option<Error>) {
    end.Some? && end.value.kind == ErrorKind.Plc ==> end.value == Error(ErrorKind.Plc, event.verdict.Global(), 0, Unchanged)
  }

  /** One turn of the read loop up to its decoded reply; an error ends the whole read. */
  method AskRead(client: Client, items: seq<Item>) returns (r: Result<ReadResponse>, ghost sent: bool)
    requires client.Valid() && S7Items(items)
    requires client.state == StateReady ==>
      ReadRequestSize(|items|) <= client.limits.pdu && 14 <= ReadResponseSize(items) <= client.limits.pdu
    modifies client`state, client`connected, client`limitsValid, client`reference
    modifies client.link`turn, client.link`uplink, client.link`inbox, client.link`departed, client.link.server
    ensures client.Valid() && client.NoLonger(old(client.state))
    ensures r.Ok? ==> sent && ResponseFits(r.value, items) && client.link.turn == old(client.link.turn) + 1
    ensures r.Err? ==> !LocalError(r.error) && r.error.kind != ErrorKind.Plc && (sent ==> client.state != StateReady)
    ensures Accounted(client.link.script, old(client.link.turn), client.link.turn, old(client.state), client.state,
                      if r.Err? then Some(r.error) else None)
    ensures r.Err? && sent ==> LossReported(r.error, client.link.script(old(client.link.turn)))
    ensures client.link.script(old(client.link.turn)).canceledEarly ==>
      && r.Err? && Reports(r.error, client.link.script(old(client.link.turn)).cause, Unchanged)
      && client.link.turn == old(client.link.turn)
    ensures OneAsked(old(client.link.departed), client.link.departed, old(client.reference), client.reference, items, sent)
    ensures client.link.script(old(client.link.turn)).delivery.Honest? && old(client.Quiet()) ==>
      var event := client.link.script(old(client.link.turn));
      && client.Quiet()
      && client.link.server.memory == old(client.link.server.memory)
      && (r.Ok? ==> r.value == ControllerReads(client.link.server.memory, items, event.verdict))
      && (Calm(event) && old(client.state) == StateReady ==> r.Ok? && client.state == StateReady)
  {
    hide Serve, JobPdu, ReadReplyOf, S7Item, ParametersFor, LimitsOk, ControllerReads, ReadResponseSize;
    sent := false;
    var event := client.link.script(client.link.turn);
    if event.canceledEarly {
      return Err(CauseError(event.cause, Unchanged)), false;
    }
    var reference := client.NextReference();
    var request, job := BuildReadRequest(reference, items);
    ItemsAreValid(reference, items);
    if request.Err? {
      return Err(InvariantError()), false;
    }
    if event.delivery.Honest? && client.state == StateReady {
      PduSmall(client);
      ReadServed(client.link.server.memory, job, reference, items, event.verdict);
    }
    label Before:
    var payload, gone := client.Exchange(request.value);
    sent := gone;
    if payload.Err? {
      return Err(payload.error), sent;
    }
    var response := ParseReadResponse(payload.value, reference, items);
    if response.None? {
      client.BreakSession();
      return Err(ProtocolError()), sent;
    }
    ParsedFits(payload.value, reference, items);
    return Ok(response.value), sent;
  }

  lemma {:induction false} ItemsAreValid(reference: U16, items: seq<Item>)
    requires reference != 0 && S7Items(items)
    ensures ValidItems(reference, items)
  {
  }

  // ---------------------------------------------------------- result buffers

  /** One buffer per item, of the item's length, none of them shared. */
  ghost predicate BuffersFor(buffers: seq<array<Byte>>, items: seq<ReadItem>) {
    && |buffers| == |items|
    && (forall i | 0 <= i < |items| :: buffers[i].Length == Length(items[i]))
    && (forall i, j | 0 <= i < j < |buffers| :: buffers[i] != buffers[j])
  }

  ghost function Contents(buffers: seq<array<Byte>>): (contents: seq<seq<Byte>>)
    reads buffers
    ensures |contents| == |buffers|
    ensures forall i | 0 <= i < |buffers| :: contents[i] == buffers[i][..]
  {
    seq(|buffers|, i requires 0 <= i < |buffers| reads buffers => buffers[i][..])
  }

  function Splice(data: seq<Byte>, at: nat, value: seq<Byte>): seq<Byte>
    requires at + |value| <= |data|
  {
    data[..at] + value + data[at + |value|..]
  }

  /** Between two points of a read, data only grows at each item's end: what was confirmed
      stays, what is not yet confirmed is untouched. */
  ghost predicate OnlyGrown(before: seq<seq<Byte>>, beforeBook: Book, after: seq<seq<Byte>>, afterBook: Book) {
    && |before| == |after| == |beforeBook.progress| == |afterBook.progress|
    && |beforeBook.failures| == |afterBook.failures| == |before|
    && forall i | 0 <= i < |before| ::
      && |after[i]| == |before[i]|
      && beforeBook.progress[i] <= afterBook.progress[i] <= |before[i]|
      && after[i][..beforeBook.progress[i]] == before[i][..beforeBook.progress[i]]
      && after[i][afterBook.progress[i]..] == before[i][afterBook.progress[i]..]
      && (beforeBook.failures[i].Some? ==>
           afterBook.failures[i] == beforeBook.failures[i] && afterBook.progress[i] == beforeBook.progress[i])
  }

  lemma {:induction false} GrownTwice(first: seq<seq<Byte>>, firstBook: Book, second: seq<seq<Byte>>, secondBook: Book,
                                      third: seq<seq<Byte>>, thirdBook: Book)
    requires OnlyGrown(first, firstBook, second, secondBook) && OnlyGrown(second, secondBook, third, thirdBook)
    ensures OnlyGrown(first, firstBook, third, thirdBook)
  {
    forall i | 0 <= i < |first|
      ensures third[i][..firstBook.progress[i]] == first[i][..firstBook.progress[i]]
      ensures third[i][thirdBook.progress[i]..] == first[i][thirdBook.progress[i]..]
    {
      var low, middle, high := firstBook.progress[i], secondBook.progress[i], thirdBook.progress[i];
      assert third[i][..low] == third[i][..middle][..low] && second[i][..middle][..low] == second[i][..low];
      assert second[i][high..] == second[i][middle..][high - middle..] && first[i][middle..][high - middle..] == first[i][high..];
    }
  }

  /** The confirmed data of every item is what the controller's memory holds. */
  ghost predicate DataIsMemory(contents: seq<seq<Byte>>, progress: seq<nat>, items: seq<ReadItem>, memory: Memory)
    requires AllReadable(items)
  {
    && |contents| == |progress| == |items|
    && forall i | 0 <= i < |items| ::
         progress[i] <= |contents[i]| == Length(items[i]) && contents[i][..progress[i]] == DirectRead(memory, items[i])[..progress[i]]
  }

  /** The accepted answers to a batch are what its fragments fetch. */
  ghost predicate AnswersAreMemory(batch: seq<Fragment>, results: seq<ItemResult>, memory: Memory) {
    && |results| == |batch|
    && forall k | 0 <= k < |batch| ::
         EncodedLength(batch[k].item).Some? &&
         (results[k].returnCode == ACCEPTED ==> results[k].data == ReadVariable(memory, VariableOf(batch[k].item)))
  }

  // --------------------------------------------------------- one answer

  /** The book and the buffers after one answer. */
  ghost predicate Absorbs(contents: seq<seq<Byte>>, book: Book, fragment: Fragment, result: ItemResult,
                          newContents: seq<seq<Byte>>, newBook: Book)
    requires fragment.original < |book.failures| == |book.progress| == |contents|
  {
    var i := fragment.original;
    && newBook == Answered(book, fragment, result.returnCode)
    && if result.returnCode == ACCEPTED && book.failures[i].None? then
         fragment.offset + |result.data| <= |contents[i]| &&
         newContents == contents[i := Splice(contents[i], fragment.offset, result.data)]
       else newContents == contents
  }

  method AbsorbOne(fragment: Fragment, result: ItemResult, buffers: seq<array<Byte>>, book: Book,
                   ghost items: seq<ReadItem>, ghost rest: seq<Fragment>, ghost pdu: nat) returns (after: Book)
    requires AllReadable(items) && SessionPdu(pdu) && BuffersFor(buffers, items) && Booked(book, items, [fragment] + rest, pdu)
    requires fragment.original < |items|
    requires result.returnCode == ACCEPTED ==> |result.data| == fragment.item.dataBytes
    modifies buffers
    ensures Booked(after, items, rest, pdu)
    ensures Absorbs(old(Contents(buffers)), book, fragment, result, Contents(buffers), after)
    ensures result.returnCode == ACCEPTED && book.failures[fragment.original].None? ==>
      fragment.offset == book.progress[fragment.original]
  {
    hide FragmentItem, FragmentLength, ItemFragments, Owed, Readable, ItemBooked;
    AnsweredBooks(book, items, fragment, rest, result.returnCode, pdu);
    var original := fragment.original;
    after := book;
    if result.returnCode != ACCEPTED {
      if book.failures[original].None? {
        after := book.(failures := book.failures[original := Some(PlcItemError(result.returnCode))]);
      }
      return;
    }
    if book.failures[original].Some? {
      return;
    }
    NextIsDue(book, items, fragment, rest, pdu);
    if fragment.offset != book.progress[original] {
      return;
    }
    FragmentInside(items[original], fragment, pdu);
    ghost var before := Contents(buffers);
    CopyInto(buffers[original], fragment.offset, result.data);
    after := book.(progress := book.progress[original := book.progress[original] + |result.data|]);
    ghost var now := Contents(buffers);
    assert now[original] == Splice(before[original], fragment.offset, result.data) by {
      SplicedBuffer(before[original], now[original], fragment.offset, result.data);
    }
    assert now == before[original := Splice(before[original], fragment.offset, result.data)];
  }

  lemma {:induction false} FragmentInside(item: ReadItem, fragment: Fragment, pdu: nat)
    requires Readable(item) && SessionPdu(pdu) && fragment.offset < Length(item)
    requires fragment.item == FragmentItem(item, fragment.offset, pdu)
    ensures fragment.offset + fragment.item.dataBytes <= Length(item)
  {
  }

  lemma {:induction false} SplicedBuffer(before: seq<Byte>, after: seq<Byte>, at: nat, value: seq<Byte>)
    requires |before| == |after| && at + |value| <= |before|
    requires after[at..at + |value|] == value
    requires forall i | 0 <= i < |before| && !(at <= i < at + |value|) :: after[i] == before[i]
    ensures after == Splice(before, at, value)
  {
  }

  lemma {:induction false} AbsorbGrows(contents: seq<seq<Byte>>, book: Book, fragment: Fragment, result: ItemResult,
                                       newContents: seq<seq<Byte>>, newBook: Book)
    requires fragment.original < |book.failures| == |book.progress| == |contents|
    requires Absorbs(contents, book, fragment, result, newContents, newBook)
    requires forall i | 0 <= i < |contents| :: book.progress[i] <= |contents[i]|
    requires result.returnCode == ACCEPTED ==> |result.data| == fragment.item.dataBytes
    requires result.returnCode == ACCEPTED && book.failures[fragment.original].None? ==>
      fragment.offset == book.progress[fragment.original]
    ensures OnlyGrown(contents, book, newContents, newBook)
  {
  }

  /** Data read for a fragment is the item's own data at that place. */
  lemma {:induction false} AbsorbTrue(contents: seq<seq<Byte>>, book: Book, fragment: Fragment, result: ItemResult,
                                      newContents: seq<seq<Byte>>, newBook: Book, items: seq<ReadItem>, pdu: nat, memory: Memory)
    requires AllReadable(items) && SessionPdu(pdu) && Genuine(fragment, items, pdu)
    requires |book.failures| == |book.progress| == |contents| == |items|
    requires Absorbs(contents, book, fragment, result, newContents, newBook)
    requires DataIsMemory(contents, book.progress, items, memory)
    requires EncodedLength(fragment.item).Some?
    requires result.returnCode == ACCEPTED ==>
      result.data == ReadVariable(memory, VariableOf(fragment.item)) && |result.data| == fragment.item.dataBytes
    requires result.returnCode == ACCEPTED && book.failures[fragment.original].None? ==>
      fragment.offset == book.progress[fragment.original]
    ensures DataIsMemory(newContents, newBook.progress, items, memory)
  {
    hide DirectRead, FragmentItem, FragmentLength, ReadVariable, Readable;
    var i := fragment.original;
    if result.returnCode == ACCEPTED && book.failures[i].None? {
      FragmentFetches(memory, items[i], fragment.offset, pdu);
      var whole, at, next := DirectRead(memory, items[i]), fragment.offset, fragment.offset + |result.data|;
      assert FragmentLength(items[i], fragment.offset, pdu) == fragment.item.dataBytes;
      assert whole[..next] == whole[..at] + whole[at..next];
      assert newContents[i][..next] == contents[i][..at] + result.data;
    }
  }

  lemma {:induction false} FailuresStep(before: seq<Option<Error>>, book: Book, batch: seq<Fragment>, codes: seq<Byte>, count: nat)
    requires count < |batch| == |codes| && |book.progress| == |book.failures|
    requires FailuresAfter(before, book.failures, batch, codes, count) && batch[count].original < |before|
    ensures FailuresAfter(before, Answered(book, batch[count], codes[count]).failures, batch, codes, count + 1)
  {
  }

  function CodesOf(results: seq<ItemResult>): (codes: seq<Byte>)
    ensures |codes| == |results|
    ensures forall k | 0 <= k < |results| :: codes[k] == results[k].returnCode
  {
    seq<Byte>(|results|, k requires 0 <= k < |results| => results[k].returnCode)
  }

  ghost predicate AnswersFit(batch: seq<Fragment>, results: seq<ItemResult>) {
    && |results| == |batch|
    && forall k | 0 <= k < |batch| :: results[k].returnCode == ACCEPTED ==> |results[k].data| == batch[k].item.dataBytes
  }

  /** The answers to a batch, one after the other: rejections are noted, data is copied
      behind what its item already has. */
  method AbsorbBatch(batch: seq<Fragment>, results: seq<ItemResult>, buffers: seq<array<Byte>>, before: Book,
                     ghost items: seq<ReadItem>, ghost rest: seq<Fragment>, ghost pdu: nat, ghost memory: Option<Memory>)
    returns (after: Book)
    requires AllReadable(items) && SessionPdu(pdu) && BuffersFor(buffers, items)
    requires AllGenuine(batch, items, pdu) && AnswersFit(batch, results)
    requires Booked(before, items, batch + rest, pdu)
    requires memory.Some? ==>
      DataIsMemory(Contents(buffers), before.progress, items, memory.value) && AnswersAreMemory(batch, results, memory.value)
    modifies buffers
    ensures Booked(after, items, rest, pdu)
    ensures OnlyGrown(old(Contents(buffers)), before, Contents(buffers), after)
    ensures FailuresAfter(before.failures, after.failures, batch, CodesOf(results), |batch|)
    ensures ProgressAfter(before, after.progress, batch, CodesOf(results), |batch|)
    ensures memory.Some? ==> DataIsMemory(Contents(buffers), after.progress, items, memory.value)
  {
    hide FragmentItem, FragmentLength, ItemFragments, Owed, Readable, Absorbs, Answered, DirectRead, ReadVariable, ItemBooked,
         OnlyGrown, RejectionIn, ReceivedIn, DataIsMemory, FailuresAfter, ProgressAfter;
    after := before;
    assert batch[0..] + rest == batch + rest;
    BookedInside(before, items, batch + rest, pdu, Contents(buffers), buffers);
    NothingGrown(Contents(buffers), before);
    NothingYet(before, batch, CodesOf(results));
    for index := 0 to |batch|
      invariant Booked(after, items, batch[index..] + rest, pdu)
      invariant OnlyGrown(old(Contents(buffers)), before, Contents(buffers), after)
      invariant FailuresAfter(before.failures, after.failures, batch, CodesOf(results), index)
      invariant ProgressAfter(before, after.progress, batch, CodesOf(results), index)
      invariant memory.Some? ==> DataIsMemory(Contents(buffers), after.progress, items, memory.value)
    {
      ghost var contents, book, due := Contents(buffers), after, batch[index + 1..] + rest;
      GenuineFacts(batch[index], items, pdu);
      assert batch[index..] + rest == [batch[index]] + due;
      FailuresStep(before.failures, book, batch, CodesOf(results), index);
      DueNext(book, items, batch[index], due, pdu);
      ProgressStep(before, book, batch, CodesOf(results), index);
      BookedInside(book, items, batch[index..] + rest, pdu, contents, buffers);
      after := AbsorbOne(batch[index], results[index], buffers, after, items, due, pdu);
      AbsorbIs(contents, book, batch[index], results[index], Contents(buffers), after);
      AbsorbGrows(contents, book, batch[index], results[index], Contents(buffers), after);
      GrownTwice(old(Contents(buffers)), before, contents, book, Contents(buffers), after);
      if memory.Some? {
        AbsorbTrue(contents, book, batch[index], results[index], Contents(buffers), after, items, pdu, memory.value);
      }
    }
    assert batch[|batch|..] + rest == rest;
  }

  lemma {:induction false} AbsorbIs(contents: seq<seq<Byte>>, book: Book, fragment: Fragment, result: ItemResult,
                                    newContents: seq<seq<Byte>>, newBook: Book)
    requires fragment.original < |book.failures| == |book.progress| == |contents|
    requires Absorbs(contents, book, fragment, result, newContents, newBook)
    ensures newBook == Answered(book, fragment, result.returnCode)
  {
  }

  lemma {:induction false} NothingGrown(contents: seq<seq<Byte>>, book: Book)
    requires |contents| == |book.progress| == |book.failures|
    requires forall i | 0 <= i < |contents| :: book.progress[i] <= |contents[i]|
    ensures OnlyGrown(contents, book, contents, book)
  {
  }

  lemma {:induction false} NothingYet(book: Book, batch: seq<Fragment>, codes: seq<Byte>)
    requires |batch| == |codes| && |book.failures| == |book.progress|
    ensures FailuresAfter(book.failures, book.failures, batch, codes, 0)
    ensures ProgressAfter(book, book.progress, batch, codes, 0)
  {
  }

  lemma {:induction false} DueNext(book: Book, items: seq<ReadItem>, fragment: Fragment, rest: seq<Fragment>, pdu: nat)
    requires AllReadable(items) && SessionPdu(pdu) && fragment.original < |items|
    requires Booked(book, items, [fragment] + rest, pdu)
    ensures fragment.original < |book.failures| == |book.progress|
    ensures book.failures[fragment.original].None? ==> fragment.offset == book.progress[fragment.original]
  {
    hide FragmentItem, ItemFragments, Owed, Readable;
    if book.failures[fragment.original].None? {
      NextIsDue(book, items, fragment, rest, pdu);
    }
  }

  lemma {:induction false} BookedInside(book: Book, items: seq<ReadItem>, pending: seq<Fragment>, pdu: nat,
                                        contents: seq<seq<Byte>>, buffers: seq<array<Byte>>)
    requires AllReadable(items) && SessionPdu(pdu) && Booked(book, items, pending, pdu)
    requires BuffersFor(buffers, items) && |contents| == |buffers|
    requires forall i | 0 <= i < |buffers| :: |contents[i]| == buffers[i].Length
    ensures |book.failures| == |book.progress| == |contents| == |items|
    ensures forall i | 0 <= i < |items| :: book.progress[i] <= |contents[i]| == Length(items[i])
  {
  }

  /** A controller's answers to a batch are its memory, under the verdict's codes. */
  lemma {:induction false} ControllerAnswers(batch: seq<Fragment>, memory: Memory, verdict: Verdict)
    requires S7Items(Wires(batch)) && verdict.Global() == 0
    ensures
      var results := ControllerReads(memory, Wires(batch), verdict).results;
      && |results| == |batch|
      && AnswersAreMemory(batch, results, memory)
      && forall k | 0 <= k < |batch| :: results[k].returnCode == verdict.Code(k)
  {
    hide ReadVariable;
    var wires := Wires(batch);
    var results := ControllerReads(memory, wires, verdict).results;
    forall k | 0 <= k < |batch|
      ensures EncodedLength(batch[k].item).Some?
      ensures results[k].returnCode == verdict.Code(k)
      ensures results[k].returnCode == ACCEPTED ==> results[k].data == ReadVariable(memory, VariableOf(batch[k].item))
    {
      assert S7Item(wires[k]) && wires[k] == batch[k].item;
      assert results[k] == ResultOf(HonestReply(memory, wires[k], verdict.Code(k)));
    }
  }

  /** Every planned batch is a request the client can build and a reply it can take. */
  lemma {:induction false} BatchIsWire(batch: seq<Fragment>, items: seq<ReadItem>, pdu: nat)
    requires AllReadable(items) && SessionPdu(pdu) && AllGenuine(batch, items, pdu)
    requires batch != [] && BatchFits(batch, pdu)
    ensures S7Items(Wires(batch)) && ReadRequestSize(|Wires(batch)|) <= pdu && 14 <= ReadResponseSize(Wires(batch)) <= pdu
  {
    hide FragmentItem, Readable, S7Item;
    forall k | 0 <= k < |batch|
      ensures S7Item(batch[k].item)
    {
      assert Genuine(batch[k], items, pdu);
      FragmentIsWire(items[batch[k].original], batch[k].offset, pdu);
    }
  }

  // -------------------------------------------------------------- results

  datatype ReadResult = ReadResult(data: seq<Byte>, error: Option<Error>)

  /** markReadIncomplete: items that are neither complete nor failed take the error; every
      item's data is cut to what was confirmed. */
  method MarkReadIncomplete(data: seq<seq<Byte>>, book: Book, lengths: seq<nat>, error: Error) returns (results: seq<ReadResult>)
    requires |data| == |lengths| == |book.failures| == |book.progress|
    requires forall i | 0 <= i < |data| :: book.progress[i] <= |data[i]|
    ensures |results| == |data|
    ensures forall i | 0 <= i < |data| ::
      results[i] == ReadResult(data[i][..book.progress[i]],
                               if book.failures[i].None? && book.progress[i] < lengths[i] then Some(error) else book.failures[i])
  {
    results := [];
    for index := 0 to |data|
      invariant |results| == index
      invariant forall i | 0 <= i < index ::
        results[i] == ReadResult(data[i][..book.progress[i]],
                                 if book.failures[i].None? && book.progress[i] < lengths[i] then Some(error) else book.failures[i])
    {
      var failure := book.failures[index];
      if failure.None? && book.progress[index] < lengths[index] {
        failure := Some(error);
      }
      results := results + [ReadResult(data[index][..book.progress[index]], failure)];
    }
  }

  /** The result contract of every exit, whatever the peer: the data is as long as the
      progress, and an item is without error exactly when it is complete. */
  ghost predicate ResultsSound(results: seq<ReadResult>, progress: seq<nat>, lengths: seq<nat>) {
    && |results| == |progress| == |lengths|
    && forall i | 0 <= i < |results| ::
      && |results[i].data| == progress[i] <= lengths[i]
      && (results[i].error.None? <==> progress[i] == lengths[i])
  }

  /** Each error is the first code that rejected the item, or else, on an incomplete item,
      the error that ended the whole read. */
  ghost predicate ErrorsExplained(results: seq<ReadResult>, progress: seq<nat>, lengths: seq<nat>, rounds: seq<Round>, end: Option<Error>)
    requires |results| == |progress| == |lengths| && Complete(rounds)
  {
    forall i | 0 <= i < |results| ::
      results[i].error == match Rejection(rounds, i)
                          case Some(code) => Some(Error(ErrorKind.Plc, code, code, Unchanged))
                          case None => if progress[i] == lengths[i] then None else end
  }

  /** The error that ended a read is the error of some item. */
  ghost predicate Reported(results: seq<ReadResult>, end: Option<Error>) {
    exists i :: 0 <= i < |results| && results[i].error == end
  }

  /** What a read has sent: one request per batch, under consecutive references. */
  ghost predicate Asked(departed: seq<seq<Byte>>, before: seq<seq<Byte>>, reference: U16, asked: seq<seq<Fragment>>) {
    && before <= departed
    && |departed| == |before| + |asked|
    && forall k: nat | k < |asked| ::
         IsReadRequest(departed[|before| + k], ReferenceAfter(reference, k + 1), Wires(asked[k]))
  }

  /** The answered rounds are the batches asked, all but perhaps the last one. */
  ghost predicate RoundsOf(rounds: seq<Round>, asked: seq<seq<Fragment>>) {
    && |rounds| <= |asked| <= |rounds| + 1
    && Complete(rounds)
    && forall k | 0 <= k < |rounds| :: rounds[k].batch == asked[k]
  }

  /** The codes on record are the ones the controller's verdicts gave. */
  ghost predicate CodesAreVerdicts(rounds: seq<Round>, script: Script, turn: nat) {
    && Complete(rounds)
    && forall k: nat, j: nat | k < |rounds| && j < |rounds[k].codes| ::
         rounds[k].codes[j] == script(turn + k).verdict.Code(j)
  }

  lemma {:induction false} AskedOneMore(departed: seq<seq<Byte>>, before: seq<seq<Byte>>, reference: U16, asked: seq<seq<Fragment>>,
                                        after: seq<seq<Byte>>, batch: seq<Fragment>)
    requires Asked(departed, before, reference, asked)
    requires departed <= after && |after| == |departed| + 1
    requires IsReadRequest(after[|departed|], ReferenceAfter(reference, |asked| + 1), Wires(batch))
    ensures Asked(after, before, reference, asked + [batch])
  {
    hide IsReadRequest, ReferenceAfter;
  }

  lemma {:induction false} RoundExplained(results: seq<ReadResult>, book: Book, lengths: seq<nat>, rounds: seq<Round>, end: Option<Error>)
    requires |results| == |lengths| == |book.progress| == |book.failures| && Complete(rounds)
    requires FailuresAre(book.failures, rounds)
    requires forall i | 0 <= i < |results| ::
      && book.progress[i] <= lengths[i]
      && (book.failures[i].Some? ==> book.progress[i] < lengths[i])
      && results[i].error == (if book.failures[i].None? && book.progress[i] < lengths[i] then end else book.failures[i])
    ensures ErrorsExplained(results, book.progress, lengths, rounds, end)
  {
    hide Rejection;
  }

  // ------------------------------------------------------------- the loop

  /** Some item is incomplete and has not failed; no failed item is complete. */
  ghost predicate StillOpen(book: Book, items: seq<ReadItem>) {
    && |book.failures| == |book.progress| == |items|
    && Unfinished(book, Lengths(items))
    && forall i | 0 <= i < |items| ::
      && book.progress[i] <= Length(items[i])
      && (book.failures[i].Some? ==> book.progress[i] < Length(items[i]))
  }

  lemma {:induction false} TurnIsOpen(book: Book, items: seq<ReadItem>, batch: seq<Fragment>, rest: seq<Fragment>, pdu: nat)
    requires AllReadable(items) && SessionPdu(pdu) && Booked(book, items, batch + rest, pdu)
    requires batch != [] && AllGenuine(batch, items, pdu) && !HasFailed(book.failures, batch[0].original)
    ensures StillOpen(book, items)
  {
    hide Readable, Booked, Unfinished, Genuine;
    GenuineFacts(batch[0], items, pdu);
    BookedBounds(book, items, batch + rest, pdu);
    BatchUnfinished(book, items, batch, rest, pdu);
  }

  /** One turn of the batch loop. A refusal of the whole request ends the read with its
      error; the items of the batch are all incomplete, so it reaches every one of them. */
  method ReadTurn(client: Client, batch: seq<Fragment>, buffers: seq<array<Byte>>, before: Book,
                  ghost items: seq<ReadItem>, ghost rest: seq<Fragment>, ghost pdu: nat)
    returns (after: Book, end: Option<Error>, ghost sent: bool, ghost codes: seq<Byte>)
    requires client.Valid() && client.limits.pdu == pdu && SessionPdu(pdu)
    requires AllReadable(items) && BuffersFor(buffers, items)
    requires batch != [] && AllGenuine(batch, items, pdu) && BatchFits(batch, pdu) && Booked(before, items, batch + rest, pdu)
    requires !HasFailed(before.failures, batch[0].original)
    modifies client`state, client`connected, client`limitsValid, client`reference
    modifies client.link`turn, client.link`uplink, client.link`inbox, client.link`departed, client.link.server
    modifies buffers
    ensures client.Valid() && client.NoLonger(old(client.state))
    ensures end.None? ==>
      && sent && |codes| == |batch|
      && client.link.turn == old(client.link.turn) + 1
      && Booked(after, items, rest, pdu)
      && OnlyGrown(old(Contents(buffers)), before, Contents(buffers), after)
      && FailuresAfter(before.failures, after.failures, batch, codes, |batch|)
      && ProgressAfter(before, after.progress, batch, codes, |batch|)
    ensures end.Some? ==>
      && after == before && Contents(buffers) == old(Contents(buffers)) && !LocalError(end.value)
      && StillOpen(before, items) && (sent ==> NoAnswer(client.state, end))
    ensures Accounted(client.link.script, old(client.link.turn), client.link.turn, old(client.state), client.state, end)
    ensures OneAsked(old(client.link.departed), client.link.departed, old(client.reference), client.reference, Wires(batch), sent)
    ensures client.link.script(old(client.link.turn)).delivery.Honest? && old(client.Quiet())
            && DataIsMemory(old(Contents(buffers)), before.progress, items, old(client.link.server.memory)) ==>
      var event := client.link.script(old(client.link.turn));
      && client.Quiet()
      && client.link.server.memory == old(client.link.server.memory)
      && DataIsMemory(Contents(buffers), after.progress, items, client.link.server.memory)
      && (end.None? ==> forall k | 0 <= k < |codes| :: codes[k] == event.verdict.Code(k))
      && (end.Some? ==> RefusedIn(event, end))
      && (Calm(event) && event.verdict.Global() == 0 && old(client.state) == StateReady ==>
           end.None? && client.state == StateReady)
  {
    hide FragmentsFrom, ItemFragments, Readable, AllReadable, Booked, OnlyGrown, FailuresAfter, DataIsMemory, DirectRead,
         BatchFits, IsReadRequest, AllGenuine, LimitsOk, ControllerReads, S7Items, ReadResponseSize, AnswersAreMemory, OneAsked,
         ProgressAfter;
    after, codes := before, [];
    BatchIsWire(batch, items, pdu);
    TurnIsOpen(before, items, batch, rest, pdu);
    var event := client.link.script(client.link.turn);
    ghost var memory := if event.delivery.Honest? && client.Quiet()
                           && DataIsMemory(Contents(buffers), before.progress, items, client.link.server.memory)
                        then Some(client.link.server.memory) else None;
    var response, gone := AskRead(client, Wires(batch));
    sent := gone;
    if response.Err? {
      return before, Some(response.error), sent, [];
    }
    var ReadResponse(results, globalCode) := response.value;
    if memory.Some? {
      ControllerGlobal(memory.value, Wires(batch), event.verdict);
    }
    if globalCode != 0 {
      return before, Some(PlcError(globalCode)), sent, [];
    }
    if memory.Some? {
      ControllerAnswers(batch, memory.value, event.verdict);
    }
    codes := CodesOf(results);
    after := AbsorbBatch(batch, results, buffers, before, items, rest, pdu, memory);
    end := None;
  }

  lemma {:induction false} ControllerGlobal(memory: Memory, items: seq<Item>, verdict: Verdict)
    requires S7Items(items)
    ensures ControllerReads(memory, items, verdict).globalCode == verdict.Global()
  {
  }

  /** The planner's turn: the next batch, or the end of the read. */
  method PlanBatch(source: ReadFragmentIterator, book: Book, ghost start: ReadStart, ghost trail: Trail)
    returns (next: Result<seq<Fragment>>)
    requires source.Valid() && source.items == start.items && source.pdu == start.pdu
    requires OnTrack(start, trail) && trail.book == book && trail.pending == source.Remaining()
    modifies source
    ensures source.Valid() && next.Ok? && trail.turn == start.turn + |trail.rounds|
    ensures next.value == [] ==>
      ReadOutcome(start, trail.contents, trail.departed, book, None, trail.rounds, trail.asked, trail.cuts)
    ensures next.value != [] ==>
      && Planned(trail, next.value, source.Remaining(), start.pdu)
      && BatchFits(next.value, start.pdu) && AllGenuine(next.value, start.items, start.pdu)
      && Booked(book, start.items, next.value + Live(source.Remaining(), book.failures), start.pdu)
      && !HasFailed(book.failures, next.value[0].original)
      && |source.Remaining()| < |old(source.Remaining())|
  {
    hide OnTrack, ReadOutcome, Live, BatchFits, AllGenuine, Booked, Genuine, FragmentsFrom, OnlyGrown, FailuresAre, Asked, AllReadable;
    TrackFacts(start, trail);
    next := NextReadBatch(source, source.pdu, book.failures);
    ghost var rest := Live(source.Remaining(), book.failures);
    if next.Ok? && next.value == [] {
      assert Live(trail.pending, book.failures) == [] + rest;
      ReadEnds(start, trail, rest);
    } else if next.Ok? {
      TrailBooked(start, trail, next.value, rest);
    }
  }

  /** The batch loop of a read. */
  method ReadLoop(client: Client, items: seq<ReadItem>, lengths: seq<nat>, pdu: nat, buffers: seq<array<Byte>>)
    returns (book: Book, end: Option<Error>, ghost rounds: seq<Round>, ghost asked: seq<seq<Fragment>>, ghost cuts: seq<nat>)
    requires client.Valid() && client.limits.pdu == pdu && SessionPdu(pdu)
    requires AllReadable(items) && lengths == Lengths(items) && BuffersFor(buffers, items)
    modifies client`state, client`connected, client`limitsValid, client`reference
    modifies client.link`turn, client.link`uplink, client.link`inbox, client.link`departed, client.link.server
    modifies buffers
    ensures client.Valid() && client.NoLonger(old(client.state))
    ensures
      var start := ReadStart(items, pdu, old(Contents(buffers)), old(client.link.departed), old(client.reference), old(client.link.turn));
      ReadOutcome(start, Contents(buffers), client.link.departed, book, end, rounds, asked, cuts)
    ensures end.Some? ==> !LocalError(end.value)
    ensures |rounds| < |asked| ==> NoAnswer(client.state, end)
    ensures Accounted(client.link.script, old(client.link.turn), client.link.turn, old(client.state), client.state, end)
    ensures old(Trusted(client)) ==>
      && client.Quiet()
      && client.link.server.memory == old(client.link.server.memory)
      && Truthful(ReadStart(items, pdu, old(Contents(buffers)), old(client.link.departed), old(client.reference), old(client.link.turn)),
                  Contents(buffers), book, rounds, client.link.server.memory, client.link.script)
      && RefusedIn(client.link.script(old(client.link.turn) + |rounds|), end)
    ensures old(Trusted(client)) && CalmScript(client.link.script) && !Refusing(client.link.script)
            && old(client.state) == StateReady ==>
      end.None? && client.state == StateReady
  {
    hide FragmentsFrom, ItemFragments, Readable, AllReadable, Booked, OnlyGrown, FailuresAfter, FailuresAre, DataIsMemory, DirectRead,
         Live, BatchFits, Asked, IsReadRequest, AllGenuine, LimitsOk, ControllerReads, S7Items, ReadResponseSize, ReferenceAfter,
         CodesAreVerdicts, FragmentLimit, Unfinished, CalmScript, HonestScript, Refusing, Calm, ReadRequestSize, NoneFailed, Packed,
         RoundsOf, Complete, OnTrack, OneAsked, Truthful, StillOpen, ReadOutcome, Planned, ProgressAfter, Traced, AllAsked, NoAnswer, Accounted, ReadPlan.ReadFragmentIterator.Valid,
         ReadPlan.ReadFragmentIterator.Remaining;
    book, end, rounds, asked, cuts := NewBook(|items|), None, [], [], [0];
    var source := new ReadFragmentIterator(items, lengths, pdu);
    ghost var trusted, memory, state := Trusted(client), client.link.server.memory, client.state;
    ghost var start := ReadStart(items, pdu, Contents(buffers), client.link.departed, client.reference, client.link.turn);
    ghost var script := client.link.script;
    ReadStarts(start, memory, script);
    AccountedNothing(script, start.turn, state);
    while true
      invariant client.Valid() && client.NoLonger(state) && client.limits.pdu == pdu
      invariant source.Valid() && source.items == items && source.pdu == pdu
      invariant end.None? && |rounds| == |asked|
      invariant Accounted(script, start.turn, client.link.turn, state, client.state, None)
      invariant OnTrack(start, Trail(Contents(buffers), book, source.Remaining(), rounds, asked, cuts, client.link.departed,
                                     client.reference, client.link.turn))
      invariant trusted ==>
        && client.Quiet()
        && client.link.server.memory == memory
        && Truthful(start, Contents(buffers), book, rounds, memory, script)
      invariant trusted && CalmScript(script) && !Refusing(script) && state == StateReady ==> client.state == StateReady
      decreases |source.Remaining()|
    {
      ghost var trail := Trail(Contents(buffers), book, source.Remaining(), rounds, asked, cuts, client.link.departed,
                               client.reference, client.link.turn);
      var next := PlanBatch(source, book, start, trail);
      if next.Err? {
        return book, Some(ErrorOf(next)), rounds, asked, cuts;
      }
      var batch := next.value;
      if batch == [] {
        return;
      }
      ghost var rest := Live(source.Remaining(), book.failures);
      ScriptAt(script, client.link.turn);
      ghost var sent, codes, between;
      between := client.state;
      if trusted {
        TruthfulData(start, trail, memory, script);
      }
      book, end, sent, codes := ReadTurn(client, batch, buffers, book, items, rest, pdu);
      AccountedOn(script, start.turn, trail.turn, client.link.turn, state, between, client.state, end);
      if end.Some? {
        ReadStops(start, trail, batch, source.Remaining(), sent, client.link.departed, client.reference, end);
        asked := if sent then asked + [batch] else asked;
        return;
      }
      ghost var after := Trail(Contents(buffers), book, source.Remaining(), rounds + [Round(batch, codes)], asked + [batch],
                               CutsAfter(trail, |batch|), client.link.departed, client.reference, client.link.turn);
      ReadAdvances(start, trail, after, batch, codes);
      if trusted {
        TruthAdvances(start, trail, after, batch, codes, memory, script);
      }
      rounds, asked, cuts := after.rounds, after.asked, after.cuts;
    }
  }

  // ------------------------------------------------- the loop, without a heap

  /** Where a read starts: what it reads, the blank buffers, what was sent before. */
  datatype ReadStart = ReadStart(items: seq<ReadItem>, pdu: nat, blank: seq<seq<Byte>>, departed: seq<seq<Byte>>, reference: U16,
                                 turn: nat)

  /** How far it has come: the buffers, the book, the fragments still to ask for, and what
      was asked and answered. */
  datatype Trail = Trail(contents: seq<seq<Byte>>, book: Book, pending: seq<Fragment>, rounds: seq<Round>,
                         asked: seq<seq<Fragment>>, cuts: seq<nat>, departed: seq<seq<Byte>>, reference: U16, turn: nat)

  /** Every batch asked is of fragments the iterator makes of these items. */
  ghost predicate AllAsked(asked: seq<seq<Fragment>>, items: seq<ReadItem>, pdu: nat)
    requires AllReadable(items) && SessionPdu(pdu)
  {
    forall k | 0 <= k < |asked| :: AllGenuine(asked[k], items, pdu)
  }

  lemma {:induction false} AllAskedOneMore(asked: seq<seq<Fragment>>, batch: seq<Fragment>, items: seq<ReadItem>, pdu: nat)
    requires AllReadable(items) && SessionPdu(pdu) && AllAsked(asked, items, pdu) && AllGenuine(batch, items, pdu)
    ensures AllAsked(asked + [batch], items, pdu)
  {
    hide AllGenuine;
  }

  ghost predicate OnTrack(start: ReadStart, trail: Trail)
    requires AllReadable(start.items) && SessionPdu(start.pdu)
  {
    var fragments := FragmentsFrom(start.items, 0, 0, start.pdu);
    && Booked(trail.book, start.items, trail.pending, start.pdu)
    && OnlyGrown(start.blank, NewBook(|start.items|), trail.contents, trail.book)
    && RoundsOf(trail.rounds, trail.asked) && |trail.rounds| == |trail.asked|
    && FailuresAre(trail.book.failures, trail.rounds)
    && Traced(trail.rounds, trail.book.progress, start.items, start.pdu)
    && AllAsked(trail.asked, start.items, start.pdu)
    && Asked(trail.departed, start.departed, start.reference, trail.asked)
    && |trail.asked| + |trail.pending| <= |fragments|
    && trail.reference == ReferenceAfter(start.reference, |trail.asked|)
    && trail.turn == start.turn + |trail.rounds|
    && (NoneFailed(trail.book) ==>
         |trail.cuts| == |trail.asked| + 1 && trail.cuts[|trail.asked|] <= |fragments|
         && Packed(trail.asked, trail.cuts, fragments, start.pdu) && trail.pending == fragments[trail.cuts[|trail.asked|]..])
  }

  /** On a trusted connection: the data read is the controller's, the codes its verdicts'. */
  ghost predicate Truthful(start: ReadStart, contents: seq<seq<Byte>>, book: Book, rounds: seq<Round>, memory: Memory, script: Script)
    requires AllReadable(start.items)
  {
    DataIsMemory(contents, book.progress, start.items, memory) && CodesAreVerdicts(rounds, script, start.turn)
  }

  lemma {:induction false} TruthfulData(start: ReadStart, trail: Trail, memory: Memory, script: Script)
    requires AllReadable(start.items) && Truthful(start, trail.contents, trail.book, trail.rounds, memory, script)
    ensures DataIsMemory(trail.contents, trail.book.progress, start.items, memory)
    ensures CodesAreVerdicts(trail.rounds, script, start.turn)
  {
    hide DataIsMemory, CodesAreVerdicts, AllReadable;
  }

  lemma {:induction false} TruthAdvances(start: ReadStart, trail: Trail, after: Trail, batch: seq<Fragment>, codes: seq<Byte>,
                                         memory: Memory, script: Script)
    requires AllReadable(start.items) && SessionPdu(start.pdu) && OnTrack(start, trail)
    requires Truthful(start, trail.contents, trail.book, trail.rounds, memory, script)
    requires DataIsMemory(after.contents, after.book.progress, start.items, memory)
    requires |codes| == |batch| && forall k | 0 <= k < |codes| :: codes[k] == script(trail.turn).verdict.Code(k)
    requires after.rounds == trail.rounds + [Round(batch, codes)]
    ensures Truthful(start, after.contents, after.book, after.rounds, memory, script)
  {
    hide DataIsMemory, CodesAreVerdicts, AllReadable, Booked, OnlyGrown, Asked, FailuresAre, Packed, FragmentsFrom, Traced, AllAsked;
    CodesOneMore(trail.rounds, Round(batch, codes), script, start.turn);
  }

  function CutsAfter(trail: Trail, taken: nat): seq<nat> {
    if trail.cuts == [] then [] else trail.cuts + [trail.cuts[|trail.cuts| - 1] + taken]
  }

  /** What the loop leaves behind, on either way out. */
  ghost predicate ReadOutcome(start: ReadStart, contents: seq<seq<Byte>>, departed: seq<seq<Byte>>, book: Book, end: Option<Error>,
                              rounds: seq<Round>, asked: seq<seq<Fragment>>, cuts: seq<nat>)
    requires AllReadable(start.items) && SessionPdu(start.pdu)
  {
    var fragments := FragmentsFrom(start.items, 0, 0, start.pdu);
    && |book.failures| == |book.progress| == |start.items|
    && OnlyGrown(start.blank, NewBook(|start.items|), contents, book)
    && (forall i | 0 <= i < |start.items| ::
         && book.progress[i] <= Length(start.items[i])
         && (book.failures[i].Some? ==> book.progress[i] < Length(start.items[i]))
         && (end.None? ==> book.failures[i].Some? || book.progress[i] == Length(start.items[i])))
    && (end.Some? ==> Unfinished(book, Lengths(start.items)))
    && RoundsOf(rounds, asked) && FailuresAre(book.failures, rounds)
    && Traced(rounds, book.progress, start.items, start.pdu)
    && AllAsked(asked, start.items, start.pdu)
    && Asked(departed, start.departed, start.reference, asked)
    && |asked| <= |fragments|
    && (end.None? && NoneFailed(book) ==>
         |cuts| == |asked| + 1 && Packed(asked, cuts, fragments, start.pdu) && cuts[|asked|] == |fragments|)
  }

  /** What the planner hands over when it has found a batch. */
  ghost predicate Planned(trail: Trail, batch: seq<Fragment>, rest: seq<Fragment>, pdu: nat) {
    && batch != [] && BatchFits(batch, pdu)
    && Live(trail.pending, trail.book.failures) == batch + Live(rest, trail.book.failures)
    && |rest| + |batch| <= |trail.pending|
    && (Live(rest, trail.book.failures) != [] ==> !BatchFits(batch + [Live(rest, trail.book.failures)[0]], pdu))
  }

  lemma {:induction false} TrackFacts(start: ReadStart, trail: Trail)
    requires AllReadable(start.items) && SessionPdu(start.pdu) && OnTrack(start, trail)
    ensures |trail.book.failures| == |trail.book.progress| == |start.items|
    ensures OnlyGrown(start.blank, NewBook(|start.items|), trail.contents, trail.book)
    ensures Complete(trail.rounds) && RoundsOf(trail.rounds, trail.asked) && FailuresAre(trail.book.failures, trail.rounds)
    ensures Asked(trail.departed, start.departed, start.reference, trail.asked)
    ensures |trail.asked| + |trail.pending| <= |FragmentsFrom(start.items, 0, 0, start.pdu)|
    ensures trail.turn == start.turn + |trail.rounds|
  {
    hide FragmentsFrom, Packed, OnlyGrown, Asked, FailuresAre, AllReadable, ItemBooked, Traced, AllAsked;
  }

  lemma {:induction false} TrailBooked(start: ReadStart, trail: Trail, batch: seq<Fragment>, live: seq<Fragment>)
    requires AllReadable(start.items) && SessionPdu(start.pdu) && OnTrack(start, trail)
    requires Live(trail.pending, trail.book.failures) == batch + live
    ensures Booked(trail.book, start.items, batch + live, start.pdu)
  {
    hide Booked, Live, FragmentsFrom, Packed, OnlyGrown, Asked, FailuresAre, AllReadable, Traced, AllAsked;
    BookedLive(trail.book, start.items, trail.pending, start.pdu);
  }

  /** One answered round keeps the read on track. */
  lemma {:induction false} ReadAdvances(start: ReadStart, trail: Trail, after: Trail, batch: seq<Fragment>, codes: seq<Byte>)
    requires AllReadable(start.items) && SessionPdu(start.pdu) && OnTrack(start, trail)
    requires Planned(trail, batch, after.pending, start.pdu) && |codes| == |batch|
    requires Booked(after.book, start.items, Live(after.pending, trail.book.failures), start.pdu)
    requires OnlyGrown(trail.contents, trail.book, after.contents, after.book)
    requires FailuresAfter(trail.book.failures, after.book.failures, batch, codes, |batch|)
    requires ProgressAfter(trail.book, after.book.progress, batch, codes, |batch|) && AllGenuine(batch, start.items, start.pdu)
    requires OneAsked(trail.departed, after.departed, trail.reference, after.reference, Wires(batch), true)
    requires after.rounds == trail.rounds + [Round(batch, codes)] && after.asked == trail.asked + [batch]
    requires after.cuts == CutsAfter(trail, |batch|) && after.turn == trail.turn + 1
    ensures OnTrack(start, after)
  {
    hide Booked, Live, FragmentsFrom, Packed, OnlyGrown, Asked, FailuresAre, FailuresAfter, AllReadable, IsReadRequest, ReferenceAfter,
         NoneFailed, BatchFits, Traced, AllAsked, ProgressAfter, AllGenuine;
    RoundsOneMore(trail.rounds, trail.asked, batch, codes);
    AllAskedOneMore(trail.asked, batch, start.items, start.pdu);
    BookedLive(trail.book, start.items, trail.pending, start.pdu);
    TraceOneMore(trail.rounds, Round(batch, codes), trail.book, after.book, start.items, Live(after.pending, trail.book.failures),
                 start.pdu);
    ReferenceStep(start.reference, |trail.asked|);
    AskedOneMore(trail.departed, start.departed, start.reference, trail.asked, after.departed, batch);
    GrownTwice(start.blank, NewBook(|start.items|), trail.contents, trail.book, after.contents, after.book);
    RoundBooked(trail.rounds, trail.book.failures, after.book.failures, Round(batch, codes));
    BookedSizes(trail.book, start.items, trail.pending, start.pdu);
    TurnLeaves(trail.book, after.book, start.items, batch, codes, start.pdu, trail.pending, after.pending, trail.asked, trail.cuts,
               FragmentsFrom(start.items, 0, 0, start.pdu));
  }

  lemma {:induction false} BookedSizes(book: Book, items: seq<ReadItem>, pending: seq<Fragment>, pdu: nat)
    requires AllReadable(items) && SessionPdu(pdu) && Booked(book, items, pending, pdu)
    ensures |book.failures| == |items| == |book.progress|
  {
  }

  /** The read ends because an exchange failed. */
  lemma {:induction false} ReadStops(start: ReadStart, trail: Trail, batch: seq<Fragment>, rest: seq<Fragment>, sent: bool,
                                     departed: seq<seq<Byte>>, reference: U16, end: Option<Error>)
    requires AllReadable(start.items) && SessionPdu(start.pdu) && OnTrack(start, trail)
    requires Planned(trail, batch, rest, start.pdu) && StillOpen(trail.book, start.items) && end.Some?
    requires AllGenuine(batch, start.items, start.pdu)
    requires OneAsked(trail.departed, departed, trail.reference, reference, Wires(batch), sent)
    ensures ReadOutcome(start, trail.contents, departed, trail.book, end, trail.rounds,
                        if sent then trail.asked + [batch] else trail.asked, trail.cuts)
  {
    hide Booked, Live, FragmentsFrom, Packed, OnlyGrown, Asked, FailuresAre, AllReadable, IsReadRequest, ReferenceAfter, NoneFailed,
         Unfinished, Traced, AllAsked, AllGenuine;
    RoundsOneMore(trail.rounds, trail.asked, batch, []);
    AllAskedOneMore(trail.asked, batch, start.items, start.pdu);
    ReferenceStep(start.reference, |trail.asked|);
    if sent {
      AskedOneMore(trail.departed, start.departed, start.reference, trail.asked, departed, batch);
    } else {
      assert departed == trail.departed;
    }
  }

  /** The read ends because nothing is left to ask. */
  lemma {:induction false} ReadEnds(start: ReadStart, trail: Trail, rest: seq<Fragment>)
    requires AllReadable(start.items) && SessionPdu(start.pdu) && OnTrack(start, trail)
    requires Live(trail.pending, trail.book.failures) == [] + rest && rest == []
    ensures ReadOutcome(start, trail.contents, trail.departed, trail.book, None, trail.rounds, trail.asked, trail.cuts)
  {
    hide Owed, ItemFragments, Readable, Packed, Live, FragmentsFrom, OnlyGrown, Asked, FailuresAre, AllReadable, NoneFailed,
         Traced, AllAsked;
    BookedLive(trail.book, start.items, trail.pending, start.pdu);
    BookedBounds(trail.book, start.items, trail.pending, start.pdu);
    BookedDone(trail.book, start.items, start.pdu);
    if NoneFailed(trail.book) {
      NothingPending(trail.pending, trail.book);
    }
  }

  ghost predicate NoneFailed(book: Book) {
    forall i | 0 <= i < |book.failures| :: book.failures[i].None?
  }

  /** Batch k is the fragments from cut k up to cut k + 1. */
  ghost predicate CutAt(asked: seq<seq<Fragment>>, cuts: seq<nat>, fragments: seq<Fragment>, k: nat) {
    && k < |asked| && k + 1 < |cuts| && cuts[k] <= cuts[k + 1] <= |fragments|
    && asked[k] == fragments[cuts[k]..cuts[k + 1]]
  }

  ghost predicate AllCut(asked: seq<seq<Fragment>>, cuts: seq<nat>, fragments: seq<Fragment>) {
    forall k: nat | k < |asked| :: CutAt(asked, cuts, fragments, k)
  }

  /** The batches asked are consecutive cuts of the fragments, each of them fitting and as
      long as fits. */
  ghost predicate Packed(asked: seq<seq<Fragment>>, cuts: seq<nat>, fragments: seq<Fragment>, pdu: nat) {
    && |cuts| == |asked| + 1
    && IsCut(cuts, cuts[|asked|]) && cuts[|asked|] <= |fragments|
    && AllCut(asked, cuts, fragments)
    && GroupsFit(cuts, ReadFit(fragments, pdu))
    && Maximal(cuts, |fragments|, ReadFit(fragments, pdu))
  }

  lemma {:induction false} CutsOneMore(asked: seq<seq<Fragment>>, cuts: seq<nat>, fragments: seq<Fragment>, batch: seq<Fragment>)
    requires |cuts| == |asked| + 1 && cuts[|asked|] + |batch| <= |fragments|
    requires AllCut(asked, cuts, fragments)
    requires batch == fragments[cuts[|asked|]..cuts[|asked|] + |batch|]
    ensures AllCut(asked + [batch], cuts + [cuts[|asked|] + |batch|], fragments)
  {
    var moreAsked, moreCuts := asked + [batch], cuts + [cuts[|asked|] + |batch|];
    forall k: nat | k < |moreAsked|
      ensures CutAt(moreAsked, moreCuts, fragments, k)
    {
      assert k < |asked| ==> CutAt(asked, cuts, fragments, k);
    }
  }

  /** A read nothing was rejected in sends no more requests than any way of splitting its
      fragments into consecutive groups that fit. */
  lemma {:induction false} FewestReads(asked: seq<seq<Fragment>>, cuts: seq<nat>, fragments: seq<Fragment>, pdu: nat, other: seq<nat>)
    requires Packed(asked, cuts, fragments, pdu) && cuts[|asked|] == |fragments|
    requires IsCut(other, |fragments|) && GroupsFit(other, ReadFit(fragments, pdu))
    ensures |asked| <= |other| - 1
  {
    hide Maximal, GroupsFit;
    ReadBatchesOptimal(fragments, pdu, cuts, other);
  }

  lemma {:induction false} AllLive(fragments: seq<Fragment>, failures: seq<Option<Error>>)
    requires forall i | 0 <= i < |failures| :: failures[i].None?
    ensures Live(fragments, failures) == fragments
  {
    if fragments != [] {
      AllLive(fragments[1..], failures);
    }
  }

  lemma {:induction false} LongerBatch(fragments: seq<Fragment>, start: nat, batch: seq<Fragment>, rest: seq<Fragment>)
    requires start <= |fragments| && fragments[start..] == batch + rest && rest != []
    ensures start + |batch| < |fragments| && fragments[start..start + |batch| + 1] == batch + [rest[0]]
  {
    var next := start + |batch|;
    assert fragments[start..next + 1] == fragments[start..][..|batch| + 1];
    assert batch + [rest[0]] == (batch + rest)[..|batch| + 1];
  }

  lemma {:induction false} BatchBetween(fragments: seq<Fragment>, start: nat, batch: seq<Fragment>, rest: seq<Fragment>)
    requires start <= |fragments| && fragments[start..] == batch + rest
    ensures start + |batch| <= |fragments|
    ensures fragments[start..start + |batch|] == batch && fragments[start + |batch|..] == rest
  {
    var next := start + |batch|;
    assert fragments[start..next] == fragments[start..][..|batch|] == (batch + rest)[..|batch|];
    assert fragments[start..][|batch|..] == fragments[next..];
    assert (batch + rest)[|batch|..] == rest;
  }

  lemma {:induction false} PackedOneMore(asked: seq<seq<Fragment>>, cuts: seq<nat>, fragments: seq<Fragment>, pdu: nat, book: Book,
                                         pending: seq<Fragment>, batch: seq<Fragment>, rest: seq<Fragment>)
    requires NoneFailed(book)
    requires Packed(asked, cuts, fragments, pdu) && pending == fragments[cuts[|asked|]..]
    requires batch != [] && BatchFits(batch, pdu) && Live(pending, book.failures) == batch + Live(rest, book.failures)
    requires Live(rest, book.failures) != [] ==> !BatchFits(batch + [Live(rest, book.failures)[0]], pdu)
    ensures
      var next := cuts[|asked|] + |batch|;
      next <= |fragments| && Packed(asked + [batch], cuts + [next], fragments, pdu) && rest == fragments[next..]
  {
    hide BatchFits, IsCut, Maximal, GroupsFit, AllCut, Live;
    AllLive(pending, book.failures);
    AllLive(rest, book.failures);
    var start, next := cuts[|asked|], cuts[|asked|] + |batch|;
    BatchBetween(fragments, start, batch, rest);
    CutsOneMore(asked, cuts, fragments, batch);
    if next < |fragments| {
      LongerBatch(fragments, start, batch, rest);
    }
    CutGoesOn(cuts, next, |fragments|, ReadFit(fragments, pdu));
  }

  lemma {:induction false} NothingPending(pending: seq<Fragment>, book: Book)
    requires NoneFailed(book) && Live(pending, book.failures) == []
    ensures pending == []
  {
    AllLive(pending, book.failures);
  }

  lemma {:induction false} PackedStart(fragments: seq<Fragment>, pdu: nat)
    ensures Packed([], [0], fragments, pdu) && fragments[0..] == fragments
  {
  }

  lemma {:induction false} RoundsOneMore(rounds: seq<Round>, asked: seq<seq<Fragment>>, batch: seq<Fragment>, codes: seq<Byte>)
    requires RoundsOf(rounds, asked) && |rounds| == |asked|
    ensures RoundsOf(rounds, asked + [batch])
    ensures |codes| == |batch| ==> RoundsOf(rounds + [Round(batch, codes)], asked + [batch])
  {
  }

  /** What a turn leaves to ask, and how the batches are packed as long as nothing fails. */
  lemma {:induction false} TurnLeaves(before: Book, after: Book, items: seq<ReadItem>, batch: seq<Fragment>, codes: seq<Byte>, pdu: nat,
                                      pending: seq<Fragment>, rest: seq<Fragment>, asked: seq<seq<Fragment>>, cuts: seq<nat>,
                                      fragments: seq<Fragment>)
    requires AllReadable(items) && SessionPdu(pdu) && |batch| == |codes| && |before.failures| == |items|
    requires FailuresAfter(before.failures, after.failures, batch, codes, |batch|)
    requires Booked(after, items, Live(rest, before.failures), pdu)
    requires batch != [] && BatchFits(batch, pdu) && Live(pending, before.failures) == batch + Live(rest, before.failures)
    requires Live(rest, before.failures) != [] ==> !BatchFits(batch + [Live(rest, before.failures)[0]], pdu)
    requires NoneFailed(before) ==>
      |cuts| == |asked| + 1 && cuts[|asked|] <= |fragments|
      && Packed(asked, cuts, fragments, pdu) && pending == fragments[cuts[|asked|]..]
    ensures Booked(after, items, rest, pdu)
    ensures NoneFailed(after) ==>
      && NoneFailed(before)
      && var next := cuts[|asked|] + |batch|;
         next <= |fragments| && Packed(asked + [batch], cuts + [next], fragments, pdu) && rest == fragments[next..]
  {
    hide Booked, FailuresAfter, Live, BatchFits, Packed, Readable, AllReadable;
    FailuresStay(before.failures, after.failures, batch, codes);
    BookedBack(after, items, rest, before.failures, pdu);
    if NoneFailed(after) {
      PackedOneMore(asked, cuts, fragments, pdu, before, pending, batch, rest);
    }
  }

  lemma {:induction false} ReadStarts(start: ReadStart, memory: Memory, script: Script)
    requires AllReadable(start.items) && SessionPdu(start.pdu) && |start.blank| == |start.items|
    requires forall i | 0 <= i < |start.items| :: |start.blank[i]| == Length(start.items[i])
    ensures
      var fragments := FragmentsFrom(start.items, 0, 0, start.pdu);
      OnTrack(start, Trail(start.blank, NewBook(|start.items|), fragments, [], [], [0], start.departed, start.reference, start.turn))
    ensures Truthful(start, start.blank, NewBook(|start.items|), [], memory, script)
  {
    hide FragmentsFrom, Booked, DirectRead, Packed, Traced;
    TraceStarts(start.items, start.pdu);
    NewBooked(start.items, start.pdu);
    PackedStart(FragmentsFrom(start.items, 0, 0, start.pdu), start.pdu);
  }

  lemma {:induction false} BookedBounds(book: Book, items: seq<ReadItem>, pending: seq<Fragment>, pdu: nat)
    requires AllReadable(items) && SessionPdu(pdu) && Booked(book, items, pending, pdu)
    ensures |book.failures| == |book.progress| == |items|
    ensures forall i | 0 <= i < |items| ::
      && book.progress[i] <= Length(items[i])
      && (book.failures[i].Some? ==> book.progress[i] < Length(items[i]))
  {
    hide Owed, ItemFragments, Readable;
  }

  lemma {:induction false} FailuresStay(before: seq<Option<Error>>, after: seq<Option<Error>>, batch: seq<Fragment>, codes: seq<Byte>)
    requires |batch| == |codes| && FailuresAfter(before, after, batch, codes, |batch|)
    ensures |after| == |before| && forall i | 0 <= i < |before| :: before[i].Some? ==> after[i].Some?
  {
  }

  lemma {:induction false} CodesOneMore(rounds: seq<Round>, round: Round, script: Script, turn: nat)
    requires CodesAreVerdicts(rounds, script, turn) && |round.batch| == |round.codes|
    requires forall j | 0 <= j < |round.codes| :: round.codes[j] == script(turn + |rounds|).verdict.Code(j)
    ensures CodesAreVerdicts(rounds + [round], script, turn)
  {
  }

  // ------------------------------------------------------- whole operations

  method AllocateBuffers(lengths: seq<nat>) returns (buffers: seq<array<Byte>>)
    ensures |buffers| == |lengths| && fresh(buffers)
    ensures forall i | 0 <= i < |lengths| :: buffers[i].Length == lengths[i]
    ensures forall i, j | 0 <= i < j < |buffers| :: buffers[i] != buffers[j]
  {
    buffers := [];
    for index := 0 to |lengths|
      invariant |buffers| == index && fresh(buffers)
      invariant forall i | 0 <= i < index :: buffers[i].Length == lengths[i]
      invariant forall i, j | 0 <= i < j < index :: buffers[i] != buffers[j]
    {
      var buffer := new Byte[lengths[index]](_ => 0);
      buffers := buffers + [buffer];
    }
  }

  /** The caller's buffers are either absent or one of the right length per item. */
  ghost predicate DestinationsOk(destinations: Option<seq<array<Byte>>>, items: seq<ReadItem>) {
    destinations.Some? ==> BuffersFor(destinations.value, items)
  }

  ghost predicate Distinct(destinations: Option<seq<array<Byte>>>) {
    destinations.Some? ==> forall i, j | 0 <= i < j < |destinations.value| :: destinations.value[i] != destinations.value[j]
  }

  function Targets(destinations: Option<seq<array<Byte>>>): seq<array<Byte>> {
    if destinations.Some? then destinations.value else []
  }

  function NoData(count: nat): (data: seq<seq<Byte>>)
    ensures |data| == count
    ensures forall i | 0 <= i < count :: data[i] == []
  {
    seq(count, _ => [])
  }

  /** What the read does to the caller's buffers: the confirmed data at the front, every
      byte behind it as it was. */
  ghost predicate OnlyConfirmed(before: seq<seq<Byte>>, after: seq<seq<Byte>>, results: seq<ReadResult>, progress: seq<nat>) {
    && |before| == |after| == |results| == |progress|
    && forall i | 0 <= i < |before| ::
      && progress[i] <= |after[i]| == |before[i]|
      && after[i][..progress[i]] == results[i].data
      && after[i][progress[i]..] == before[i][progress[i]..]
  }

  /** Everything one item got, measured against the controller's memory. */
  ghost predicate ResultsAreMemory(results: seq<ReadResult>, progress: seq<nat>, items: seq<ReadItem>, memory: Memory)
    requires AllReadable(items)
  {
    && |results| == |progress| == |items|
    && forall i | 0 <= i < |items| ::
         progress[i] <= Length(items[i]) && results[i].data == DirectRead(memory, items[i])[..progress[i]]
  }

  /** What a read leaves on record: every batch asked is of the items' own fragments, every
      item's progress is exactly what its accepted answers brought it, and the requests of a
      read in which nothing failed are a maximal cut of the fragments. */
  ghost predicate ReadRecord(results: seq<ReadResult>, progress: seq<nat>, end: Option<Error>, rounds: seq<Round>,
                             asked: seq<seq<Fragment>>, cuts: seq<nat>, items: seq<ReadItem>, pdu: nat)
    requires AllReadable(items) && SessionPdu(pdu)
  {
    var fragments := FragmentsFrom(items, 0, 0, pdu);
    && Complete(rounds) && Traced(rounds, progress, items, pdu) && AllAsked(asked, items, pdu)
    && (end.None? && (forall i | 0 <= i < |results| :: results[i].error.None?) ==>
         |cuts| == |asked| + 1 && Packed(asked, cuts, fragments, pdu) && cuts[|asked|] == |fragments|)
  }

  /** The exit without any exchange. */
  method FailRead(lengths: seq<nat>, error: Error) returns (results: seq<ReadResult>, progress: seq<nat>)
    requires forall i | 0 <= i < |lengths| :: lengths[i] >= 1
    ensures ResultsSound(results, progress, lengths)
    ensures forall i | 0 <= i < |results| :: results[i] == ReadResult([], Some(error)) && progress[i] == 0
  {
    progress := NewBook(|lengths|).progress;
    results := MarkReadIncomplete(NoData(|lengths|), NewBook(|lengths|), lengths, error);
  }

  lemma {:induction false} LengthsPositive(items: seq<ReadItem>)
    requires AllReadable(items)
    ensures forall i | 0 <= i < |items| :: Lengths(items)[i] >= 1
  {
    forall i | 0 <= i < |items|
      ensures Lengths(items)[i] >= 1
    {
      ReadableFacts(items[i]);
    }
  }

  method DataOf(buffers: seq<array<Byte>>) returns (data: seq<seq<Byte>>)
    ensures data == Contents(buffers)
  {
    data := [];
    for index := 0 to |buffers|
      invariant |data| == index
      invariant forall i | 0 <= i < index :: data[i] == buffers[i][..]
    {
      data := data + [buffers[index][..]];
    }
  }

  /** The normal exit: an item that is neither complete nor failed would be an internal
      error, and there is none. */
  method FinishRead(data: seq<seq<Byte>>, book: Book, lengths: seq<nat>) returns (results: seq<ReadResult>, end: Option<Error>)
    requires |data| == |lengths| == |book.failures| == |book.progress|
    requires forall i | 0 <= i < |data| ::
      book.progress[i] <= |data[i]| == lengths[i] && (book.failures[i].Some? || book.progress[i] == lengths[i])
    ensures end == None && |results| == |data|
    ensures forall i | 0 <= i < |data| :: results[i] == ReadResult(data[i][..book.progress[i]], book.failures[i])
  {
    results, end := [], None;
    for index := 0 to |data|
      invariant |results| == index && end.None?
      invariant forall i | 0 <= i < index :: results[i] == ReadResult(data[i][..book.progress[i]], book.failures[i])
    {
      var result := ReadResult(data[index], book.failures[index]);
      if result.error.Some? || book.progress[index] != lengths[index] {
        if result.error.None? {
          if end.None? {
            end := Some(InvariantError());
          }
          result := result.(error := end);
        }
        result := result.(data := data[index][..book.progress[index]]);
      }
      results := results + [result];
    }
  }

  lemma {:induction false} NothingAsked(departed: seq<seq<Byte>>, reference: U16, script: Script, turn: nat)
    ensures RoundsOf([], []) && Asked(departed, departed, reference, []) && CodesAreVerdicts([], script, turn)
    ensures forall i: nat :: Rejection([], i) == None
  {
  }

  lemma {:induction false} GrownFromNew(before: seq<seq<Byte>>, after: seq<seq<Byte>>, book: Book, lengths: seq<nat>)
    requires |before| == |lengths| && OnlyGrown(before, NewBook(|lengths|), after, book)
    requires forall i | 0 <= i < |before| :: |before[i]| == lengths[i]
    ensures |after| == |book.progress| == |book.failures| == |lengths|
    ensures forall i | 0 <= i < |before| ::
      book.progress[i] <= |after[i]| == lengths[i] && after[i][book.progress[i]..] == before[i][book.progress[i]..]
  {
  }

  lemma {:induction false} FinalData(data: seq<seq<Byte>>, results: seq<ReadResult>, book: Book, items: seq<ReadItem>, memory: Memory)
    requires AllReadable(items) && DataIsMemory(data, book.progress, items, memory) && |results| == |items|
    requires forall i | 0 <= i < |items| :: results[i].data == data[i][..book.progress[i]]
    ensures ResultsAreMemory(results, book.progress, items, memory)
  {
    hide DirectRead;
  }

  /** The buffers to read into: the caller's, if they fit the items, or fresh ones. */
  method ResultBuffers(destinations: Option<seq<array<Byte>>>, lengths: seq<nat>, ghost items: seq<ReadItem>)
    returns (r: Option<seq<array<Byte>>>)
    requires lengths == Lengths(items) && Distinct(destinations)
    ensures r.Some? <==> DestinationsOk(destinations, items)
    ensures r.Some? ==> BuffersFor(r.value, items)
    ensures r.Some? && destinations.Some? ==> r == destinations
    ensures r.Some? && destinations.None? ==> fresh(r.value)
  {
    if destinations.None? {
      var buffers := AllocateBuffers(lengths);
      return Some(buffers);
    }
    if |destinations.value| != |lengths| {
      return None;
    }
    for index := 0 to |lengths|
      invariant forall i | 0 <= i < index :: destinations.value[i].Length == lengths[i]
    {
      if destinations.value[index].Length != lengths[index] {
        return None;
      }
    }
    return destinations;
  }

  /** The two ways out of the batch loop. */
  method CloseRead(buffers: seq<array<Byte>>, book: Book, lengths: seq<nat>, left: Option<Error>,
                   ghost items: seq<ReadItem>, ghost rounds: seq<Round>)
    returns (results: seq<ReadResult>, end: Option<Error>)
    requires |buffers| == |book.progress| == |book.failures| == |lengths| && Complete(rounds)
    requires FailuresAre(book.failures, rounds)
    requires forall i | 0 <= i < |lengths| ::
      && book.progress[i] <= buffers[i].Length == lengths[i]
      && (book.failures[i].Some? ==> book.progress[i] < lengths[i])
      && (left.None? ==> book.failures[i].Some? || book.progress[i] == lengths[i])
    requires left.Some? ==> Unfinished(book, lengths)
    ensures end == left && |results| == |lengths|
    ensures forall i | 0 <= i < |lengths| :: results[i].data == buffers[i][..][..book.progress[i]]
    ensures ResultsSound(results, book.progress, lengths)
    ensures ErrorsExplained(results, book.progress, lengths, rounds, end)
    ensures end.Some? ==> Reported(results, end)
    ensures forall i | 0 <= i < |lengths| :: results[i].error.None? ==> book.failures[i].None?
  {
    hide Rejection, FailuresAre, ErrorsExplained;
    var data := DataOf(buffers);
    if left.Some? {
      end := left;
      results := MarkReadIncomplete(data, book, lengths, left.value);
      ghost var open :| 0 <= open < |lengths| && book.failures[open].None? && book.progress[open] < lengths[open];
      assert results[open].error == end;
    } else {
      results, end := FinishRead(data, book, lengths);
    }
    RoundExplained(results, book, lengths, rounds, end);
  }

  /** The batch loop and the results it leaves. */
  method ReadInto(client: Client, items: seq<ReadItem>, lengths: seq<nat>, pdu: nat, buffers: seq<array<Byte>>)
    returns (results: seq<ReadResult>, progress: seq<nat>, end: Option<Error>,
             ghost rounds: seq<Round>, ghost asked: seq<seq<Fragment>>, ghost cuts: seq<nat>)
    requires client.Valid() && client.limits.pdu == pdu && SessionPdu(pdu)
    requires AllReadable(items) && lengths == Lengths(items) && BuffersFor(buffers, items)
    modifies client`state, client`connected, client`limitsValid, client`reference
    modifies client.link`turn, client.link`uplink, client.link`inbox, client.link`departed, client.link.server
    modifies buffers
    ensures client.Valid() && client.NoLonger(old(client.state))
    ensures ResultsSound(results, progress, lengths)
    ensures end.Some? && items != [] ==> Reported(results, end)
    ensures RoundsOf(rounds, asked) && ErrorsExplained(results, progress, lengths, rounds, end)
    ensures Asked(client.link.departed, old(client.link.departed), old(client.reference), asked)
    ensures |asked| <= |FragmentsFrom(items, 0, 0, pdu)|
    ensures ReadRecord(results, progress, end, rounds, asked, cuts, items, pdu)
    ensures end.Some? ==> !LocalError(end.value)
    ensures |rounds| < |asked| ==> NoAnswer(client.state, end)
    ensures Accounted(client.link.script, old(client.link.turn), client.link.turn, old(client.state), client.state, end)
    ensures OnlyConfirmed(old(Contents(buffers)), Contents(buffers), results, progress)
    ensures old(Trusted(client)) ==>
      && client.Quiet()
      && client.link.server.memory == old(client.link.server.memory)
      && ResultsAreMemory(results, progress, items, client.link.server.memory)
      && CodesAreVerdicts(rounds, client.link.script, old(client.link.turn))
      && RefusedIn(client.link.script(old(client.link.turn) + |rounds|), end)
    ensures old(Trusted(client)) && CalmScript(client.link.script) && !Refusing(client.link.script)
            && old(client.state) == StateReady ==>
      end.None? && client.state == StateReady
  {
    hide FragmentsFrom, ItemFragments, Readable, AllReadable, OnlyGrown, FailuresAre, DirectRead, DataIsMemory, LimitsOk,
         ReferenceAfter, IsReadRequest, Rejection, CodesAreVerdicts, Asked, CalmScript, HonestScript, Unfinished, Reported,
         ErrorsExplained, Refusing, Packed, Traced, AllAsked, Accounted;
    ghost var blank := Contents(buffers);
    var book, left;
    book, left, rounds, asked, cuts := ReadLoop(client, items, lengths, pdu, buffers);
    progress := book.progress;
    GrownFromNew(blank, Contents(buffers), book, lengths);
    results, end := CloseRead(buffers, book, lengths, left, items, rounds);
    if old(Trusted(client)) {
      FinalData(Contents(buffers), results, book, items, client.link.server.memory);
    }
  }

  method ReadLocked(client: Client, items: seq<ReadItem>, lengths: seq<nat>, destinations: Option<seq<array<Byte>>>)
    returns (results: seq<ReadResult>, progress: seq<nat>, end: Option<Error>,
             ghost rounds: seq<Round>, ghost asked: seq<seq<Fragment>>, ghost cuts: seq<nat>)
    requires client.Valid() && AllReadable(items) && lengths == Lengths(items) && Distinct(destinations)
    modifies client`state, client`connected, client`limitsValid, client`reference
    modifies client.link`turn, client.link`uplink, client.link`inbox, client.link`departed, client.link.server
    modifies Targets(destinations)
    ensures client.Valid() && client.NoLonger(old(client.state))
    ensures ResultsSound(results, progress, lengths)
    ensures end.Some? && items != [] ==> Reported(results, end)
    ensures RoundsOf(rounds, asked) && ErrorsExplained(results, progress, lengths, rounds, end)
    ensures Asked(client.link.departed, old(client.link.departed), old(client.reference), asked)
    ensures |asked| <= client.config.maxFragmentsPerCall
    ensures old(client.state) != StateReady ==> asked == [] && forall i | 0 <= i < |progress| :: progress[i] == 0
    ensures old(client.state) == StateReady ==>
      ReadRecord(results, progress, end, rounds, asked, cuts, items, client.limits.pdu)
    ensures end == Some(LimitError()) ==> asked == []
    ensures |rounds| < |asked| ==> NoAnswer(client.state, end)
    ensures Accounted(client.link.script, old(client.link.turn), client.link.turn, old(client.state), client.state, end)
    ensures DestinationsOk(destinations, items) ==> end != Some(InvariantError())
    ensures !DestinationsOk(destinations, items) ==> Contents(Targets(destinations)) == old(Contents(Targets(destinations)))
    ensures destinations.Some? && DestinationsOk(destinations, items) ==>
      OnlyConfirmed(old(Contents(destinations.value)), Contents(destinations.value), results, progress)
    ensures old(Trusted(client)) ==>
      && client.Quiet()
      && client.link.server.memory == old(client.link.server.memory)
      && ResultsAreMemory(results, progress, items, client.link.server.memory)
      && CodesAreVerdicts(rounds, client.link.script, old(client.link.turn))
      && RefusedIn(client.link.script(old(client.link.turn) + |rounds|), end)
    ensures old(Trusted(client)) && CalmScript(client.link.script) && !Refusing(client.link.script)
            && old(client.state) == StateReady && DestinationsOk(destinations, items)
            && FragmentCountTo(items, |items|, client.limits.pdu) <= client.config.maxFragmentsPerCall ==>
      end.None? && client.state == StateReady
  {
    hide FragmentsFrom, ItemFragments, Readable, AllReadable, FragmentCountTo, LimitsOk, CalmScript, HonestScript,
         ReferenceAfter, IsReadRequest, Rejection, CodesAreVerdicts, Asked, OnlyConfirmed, BuffersFor, ResultsAreMemory, ReadRecord,
         Accounted, RefusedIn, NoAnswer, ErrorsExplained, Reported, Refusing, Calm;
    LengthsPositive(items);
    ScriptAt(client.link.script, client.link.turn);
    if client.state == StateReady {
      PduSmall(client);
    }
    var pdu, refusal := CheckRead(client, items, lengths);
    if refusal.Some? {
      results, progress := FailRead(lengths, refusal.value);
      RefusedEarly(client, items, results, progress, refusal.value, destinations);
      return results, progress, refusal, [], [], [];
    }
    var buffers := ResultBuffers(destinations, lengths, items);
    if buffers.None? {
      results, progress := FailRead(lengths, InvariantError());
      RefusedEarly(client, items, results, progress, InvariantError(), destinations);
      return results, progress, Some(InvariantError()), [], [], [];
    }
    results, progress, end, rounds, asked, cuts := ReadInto(client, items, lengths, pdu, buffers.value);
  }

  /** The checks before the first exchange: the session is Ready, the fragment count is
      within bounds, the context is not done. */
  method CheckRead(client: Client, items: seq<ReadItem>, lengths: seq<nat>) returns (pdu: nat, refusal: Option<Error>)
    requires client.Valid() && AllReadable(items) && lengths == Lengths(items)
    ensures refusal.None? ==>
      && client.state == StateReady && pdu == client.limits.pdu && SessionPdu(pdu)
      && |FragmentsFrom(items, 0, 0, pdu)| <= client.config.maxFragmentsPerCall
    ensures
      var event := client.link.script(client.link.turn);
      if client.state != StateReady then
        refusal == Some(Error(if Over(client.state) then ErrorKind.Closed else ErrorKind.NotConnected, 0, 0, Unchanged))
      else
        && SessionPdu(client.limits.pdu)
        && if FragmentCountTo(items, |items|, client.limits.pdu) > client.config.maxFragmentsPerCall then
             refusal == Some(Error(ErrorKind.Limit, 0, 0, Unchanged))
           else if event.canceledEarly then refusal.Some? && Reports(refusal.value, event.cause, Unchanged)
           else refusal.None?
    ensures Calm(client.link.script(client.link.turn)) && client.state == StateReady
            && SessionPdu(client.limits.pdu)
            && FragmentCountTo(items, |items|, client.limits.pdu) <= client.config.maxFragmentsPerCall ==>
      refusal.None?
  {
    hide FragmentsFrom, FragmentCountTo, Readable;
    var ready := client.ReadyPdu();
    if ready.Err? {
      return 0, Some(ready.error);
    }
    pdu := ready.value;
    PduSmall(client);
    var count := CountReadFragments(items, lengths, pdu);
    CountIs(items, pdu);
    if count.Err? {
      return pdu, Some(count.error);
    }
    if count.value > client.config.maxFragmentsPerCall {
      return pdu, Some(LimitError());
    }
    var event := client.link.script(client.link.turn);
    if event.canceledEarly {
      return pdu, Some(CauseError(event.cause, Unchanged));
    }
    return pdu, None;
  }

  lemma {:induction false} CountIs(items: seq<ReadItem>, pdu: nat)
    requires AllReadable(items) && SessionPdu(pdu)
    ensures FragmentCountTo(items, |items|, pdu) == |FragmentsFrom(items, 0, 0, pdu)|
  {
    FragmentCountTotal(items, 0, pdu);
  }

  /** An exit before the first exchange meets the contract of a read. */
  lemma {:induction false} RefusedEarly(client: Client, items: seq<ReadItem>, results: seq<ReadResult>, progress: seq<nat>,
                                        error: Error, destinations: Option<seq<array<Byte>>>)
    requires client.Valid() && AllReadable(items) && |results| == |progress| == |items|
    requires forall i | 0 <= i < |items| :: results[i] == ReadResult([], Some(error)) && progress[i] == 0
    requires error.impact == Unchanged && error.kind != ErrorKind.Plc
    ensures Accounted(client.link.script, client.link.turn, client.link.turn, client.state, client.state, Some(error))
    ensures forall event :: RefusedIn(event, Some(error))
    ensures client.state == StateReady ==>
      ReadRecord(results, progress, Some(error), [], [], [], items, client.limits.pdu)
    ensures RoundsOf([], []) && ErrorsExplained(results, progress, Lengths(items), [], Some(error))
    ensures Asked(client.link.departed, client.link.departed, client.reference, [])
    ensures CodesAreVerdicts([], client.link.script, client.link.turn)
    ensures ResultsAreMemory(results, progress, items, client.link.server.memory)
    ensures items != [] ==> Reported(results, Some(error))
    ensures destinations.Some? && DestinationsOk(destinations, items) ==>
      OnlyConfirmed(Contents(destinations.value), Contents(destinations.value), results, progress)
  {
    hide Readable, DirectRead, Traced, LimitsOk, FragmentsFrom;
    if client.state == StateReady {
      PduSmall(client);
      TraceStarts(items, client.limits.pdu);
      assert progress == NewBook(|items|).progress;
    }
    LengthsPositive(items);
    assert items != [] ==> results[0].error == Some(error);
  }

  // --------------------------------------------------------- the public calls

  function TotalLength(items: seq<ReadItem>, count: nat): nat
    requires count <= |items|
  {
    if count == 0 then 0 else TotalLength(items, count - 1) + Length(items[count - 1])
  }

  lemma {:induction false} TotalGrows(items: seq<ReadItem>, low: nat, high: nat)
    requires low <= high <= |items|
    ensures TotalLength(items, low) <= TotalLength(items, high)
  {
    if low < high {
      TotalGrows(items, low, high - 1);
    }
  }

  /** The batches a configuration admits. */
  predicate AdmissibleReads(config: Config, input: seq<ReadItem>) {
    && 1 <= |input| <= config.maxItemsPerCall
    && (forall i | 0 <= i < |input| :: ValidateReadItem(input[i], config.maxItemBytes).Ok?)
    && TotalLength(input, |input|) <= config.maxBatchBytes
  }

  /** The error a batch is refused with: about its size, or about its first bad item. */
  ghost predicate RefusedReads(config: Config, input: seq<ReadItem>, error: Error) {
    if input == [] then error == Error(ErrorKind.InvalidArgument, 0, 0, Unchanged)
    else if |input| > config.maxItemsPerCall then error == Error(ErrorKind.Limit, 0, 0, Unchanged)
    else exists index :: 0 <= index < |input| && RefusedReadAt(config, input, index, error)
  }

  ghost predicate RefusedReadAt(config: Config, input: seq<ReadItem>, index: nat, error: Error)
    requires index < |input|
  {
    && (forall i | 0 <= i < index :: ValidateReadItem(input[i], config.maxItemBytes).Ok?)
    && TotalLength(input, index) <= config.maxBatchBytes
    && match ValidateReadItem(input[index], config.maxItemBytes)
       case Err(refusal) => error == refusal
       case Ok(_) => TotalLength(input, index + 1) > config.maxBatchBytes && error == Error(ErrorKind.Limit, 0, 0, Unchanged)
  }

  method PrepareReads(config: Config, input: seq<ReadItem>) returns (r: Result<(seq<ReadItem>, seq<nat>)>)
    requires ValidConfig(config)
    ensures r.Ok? <==> AdmissibleReads(config, input)
    ensures r.Ok? ==> AllReadable(input) && r.value == (input, Lengths(input))
    ensures r.Err? ==> r.error in {InvalidError(), LimitError()} && RefusedReads(config, input, r.error)
  {
    hide ValidateReadItem;
    if |input| == 0 {
      return Err(InvalidError());
    }
    if |input| > config.maxItemsPerCall {
      return Err(LimitError());
    }
    var lengths: seq<nat> := [];
    var total := 0;
    for index := 0 to |input|
      invariant |lengths| == index && total == TotalLength(input, index) <= config.maxBatchBytes
      invariant forall i | 0 <= i < index ::
        ValidateReadItem(input[i], config.maxItemBytes).Ok? && Readable(input[i]) && lengths[i] == Length(input[i])
    {
      var length := ValidateReadItem(input[index], config.maxItemBytes);
      if length.Err? {
        ValidationErrors(input[index], config.maxItemBytes);
        assert RefusedReadAt(config, input, index, length.error);
        return Err(length.error);
      }
      LimitOnlyTightens(input[index], config.maxItemBytes);
      lengths := lengths + [length.value];
      total := total + length.value;
      if total > config.maxBatchBytes {
        TotalGrows(input, index + 1, |input|);
        assert RefusedReadAt(config, input, index, LimitError());
        return Err(LimitError());
      }
    }
    assert lengths == Lengths(input);
    return Ok((input, lengths));
  }

  lemma {:induction false} ValidationErrors(item: ReadItem, maxItemBytes: nat)
    requires ValidateReadItem(item, maxItemBytes).Err?
    ensures ValidateReadItem(item, maxItemBytes).error in {InvalidError(), LimitError()}
  {
  }

  function FailedReads(count: nat, error: Error): (results: seq<ReadResult>)
    ensures |results| == count
    ensures forall i | 0 <= i < count :: results[i] == ReadResult([], Some(error))
  {
    seq(count, _ => ReadResult([], Some(error)))
  }

  /** Read. `entry` is why the context was already done at the call, if it was: then there
      are no results at all. `queue` is why waiting for the gate ended without it, if it
      did: a context done or a client closed meanwhile. */
  method Read(client: Client, input: seq<ReadItem>, entry: Option<Cause>, queue: Option<Cause>)
    returns (results: seq<ReadResult>, end: Option<Error>,
             ghost rounds: seq<Round>, ghost asked: seq<seq<Fragment>>, ghost cuts: seq<nat>)
    requires client.Valid()
    modifies client`state, client`connected, client`limitsValid, client`reference
    modifies client.link`turn, client.link`uplink, client.link`inbox, client.link`departed, client.link.server
    ensures client.Valid() && client.NoLonger(old(client.state))
    ensures |results| == if entry.Some? || |input| > client.config.maxItemsPerCall then 0 else |input|
    ensures !AdmissibleReads(client.config, input) || entry.Some? || queue.Some? ==>
      && end.Some? && asked == []
      && client.link.departed == old(client.link.departed) && client.state == old(client.state)
      && (if entry.Some? then Reports(end.value, entry.value, Unchanged)
          else if !AdmissibleReads(client.config, input) then RefusedReads(client.config, input, end.value)
          else Reports(end.value, queue.value, Unchanged))
      && forall i | 0 <= i < |results| :: results[i] == ReadResult([], end)
    ensures RoundsOf(rounds, asked) && |asked| <= client.config.maxFragmentsPerCall
    ensures Asked(client.link.departed, old(client.link.departed), old(client.reference), asked)
    ensures end != Some(InvariantError()) && (end == Some(LimitError()) ==> asked == [])
    ensures |rounds| < |asked| ==> NoAnswer(client.state, end)
    ensures Accounted(client.link.script, old(client.link.turn), client.link.turn, old(client.state), client.state, end)
    ensures entry.None? && queue.None? && AdmissibleReads(client.config, input) ==>
      && AllReadable(input)
      && var progress := seq(|results|, i requires 0 <= i < |results| => |results[i].data|);
         && ResultsSound(results, progress, Lengths(input))
         && ErrorsExplained(results, progress, Lengths(input), rounds, end)
         && (asked != [] ==> old(client.state) == StateReady)
         && (old(client.state) == StateReady ==>
              ReadRecord(results, progress, end, rounds, asked, cuts, input, client.limits.pdu))
         && (end.Some? ==> Reported(results, end))
         && (old(Trusted(client)) ==>
              && client.link.server.memory == old(client.link.server.memory)
              && CodesAreVerdicts(rounds, client.link.script, old(client.link.turn))
              && RefusedIn(client.link.script(old(client.link.turn) + |rounds|), end)
              && ResultsAreMemory(results, progress, input, client.link.server.memory))
         && (old(Trusted(client)) && CalmScript(client.link.script) && !Refusing(client.link.script)
             && old(client.state) == StateReady
             && FragmentCountTo(input, |input|, client.limits.pdu) <= client.config.maxFragmentsPerCall ==>
              end.None? && client.state == StateReady)
    ensures old(Trusted(client)) ==> client.Quiet()
  {
    hide Readable, FragmentCountTo, LimitsOk, CalmScript, HonestScript, ReferenceAfter, IsReadRequest, Rejection, ReadRecord,
         CodesAreVerdicts, Asked, ResultsAreMemory, ErrorsExplained, Reported, Refusing, AdmissibleReads, ValidConfig,
         NoAnswer;
    NothingAsked(client.link.departed, client.reference, client.link.script, client.link.turn);
    rounds, asked, cuts := [], [], [];
    if entry.Some? {
      return [], Some(CauseError(entry.value, Unchanged)), rounds, asked, cuts;
    }
    var prepared := PrepareReads(client.config, input);
    if prepared.Err? {
      if |input| > client.config.maxItemsPerCall {
        return [], Some(prepared.error), rounds, asked, cuts;
      }
      return FailedReads(|input|, prepared.error), Some(prepared.error), rounds, asked, cuts;
    }
    AdmissibleCount(client.config, input);
    var (items, lengths) := prepared.value;
    if queue.Some? {
      var failure := CauseError(queue.value, Unchanged);
      return FailedReads(|items|, failure), Some(failure), rounds, asked, cuts;
    }
    var progress;
    results, progress, end, rounds, asked, cuts := ReadLocked(client, items, lengths, None);
    assert progress == seq(|results|, i requires 0 <= i < |results| => |results[i].data|);
  }

  lemma {:induction false} AdmissibleCount(config: Config, input: seq<ReadItem>)
    requires AdmissibleReads(config, input)
    ensures input != [] && |input| <= config.maxItemsPerCall
  {
  }

  /** End to end, on every way out: whatever else was rejected and however that changed the
      packing, an item is without error exactly when every fragment of it was answered and
      none rejected, and it then reads exactly its bytes of controller memory, as if read
      directly. On the normal way out only a rejection keeps an item from that. Whatever the
      way out, an item has exactly the bytes its accepted answers brought. */
  lemma {:induction false} ReadRefinesMemory(results: seq<ReadResult>, progress: seq<nat>, items: seq<ReadItem>, end: Option<Error>,
                                             rounds: seq<Round>, memory: Memory, pdu: nat, i: nat)
    requires AllReadable(items) && SessionPdu(pdu) && Complete(rounds) && i < |items|
    requires Traced(rounds, progress, items, pdu)
    requires ResultsSound(results, progress, Lengths(items))
    requires ErrorsExplained(results, progress, Lengths(items), rounds, end)
    requires ResultsAreMemory(results, progress, items, memory)
    ensures
      var accepted := forall k | 0 <= k < |rounds| :: NoneRejects(rounds[k].batch, rounds[k].codes, i, |rounds[k].batch|);
      && (results[i].error.None? <==> accepted && FullyAnswered(rounds, items[i], i, pdu))
      && (results[i].error.None? ==> results[i].data == DirectRead(memory, items[i]))
      && (end.None? && accepted ==> results[i].error.None?)
    ensures |results[i].data| == Received(rounds, i) && results[i].data == DirectRead(memory, items[i])[..Received(rounds, i)]
  {
    hide Readable, DirectRead, Rejection, NoneRejects, Received, FullyAnswered;
    assert ItemTraced(rounds, progress[i], items[i], i, pdu);
    RejectionMeans(rounds, i);
    if Rejection(rounds, i).None? {
      CompleteMeansAnswered(rounds, progress[i], items[i], i, pdu);
    }
    assert DirectRead(memory, items[i])[..Length(items[i])] == DirectRead(memory, items[i]);
  }

  function AreaItem(area: Area, dbNumber: U16, start: U32, count: U32): ReadItem {
    ReadItem(Address(area, dbNumber, start, 0), TransportByte, count)
  }

  /** A single read the configuration admits and whose fragments are within its limit. */
  ghost predicate AreaWithin(config: Config, item: ReadItem, pdu: nat)
    requires SessionPdu(pdu)
  {
    && AdmissibleReads(config, [item]) && AllReadable([item])
    && FragmentCountTo([item], 1, pdu) <= config.maxFragmentsPerCall
  }

  /** An area read that was rejected reports the first rejection. */
  ghost predicate EndsByRejection(rounds: seq<Round>, end: Option<Error>)
    requires Complete(rounds)
  {
    match Rejection(rounds, 0)
    case Some(code) => end == Some(Error(ErrorKind.Plc, code, code, Unchanged))
    case None => true
  }

  /** Everything ReadArea checks before it touches the session. */
  method PrepareArea(config: Config, area: Area, dbNumber: U16, start: U32, length: nat, entry: Option<Cause>, queue: Option<Cause>,
                     ghost pdu: nat)
    returns (r: Result<(seq<ReadItem>, seq<nat>)>)
    requires ValidConfig(config)
    ensures r.Ok? ==>
      && entry.None? && queue.None? && 1 <= length <= MAX_U32
      && var items := [AreaItem(area, dbNumber, start, length)];
         AllReadable(items) && Lengths(items) == [length] && r.value == (items, [length])
    ensures r.Err? ==> r.error != InvariantError() && r.error.impact == Unchanged && r.error.kind != ErrorKind.Plc
    ensures entry.Some? ==> r.Err? && Reports(r.error, entry.value, Unchanged)
    ensures entry.None? && length == 0 ==> r == Err(Error(ErrorKind.InvalidArgument, 0, 0, Unchanged))
    ensures entry.None? && (length > config.maxItemBytes || length > config.maxBatchBytes || length > 0xFFFF_FFFF) ==>
      r == Err(Error(ErrorKind.Limit, 0, 0, Unchanged))
    ensures entry.None? && r.Err? && 1 <= length <= config.maxItemBytes && length <= config.maxBatchBytes && length <= MAX_U32 ==>
      var items := [AreaItem(area, dbNumber, start, length)];
      if AdmissibleReads(config, items) then queue.Some? && Reports(r.error, queue.value, Unchanged)
      else RefusedReads(config, items, r.error)
    ensures r.Err? && entry.None? && queue.None? && length <= MAX_U32 && SessionPdu(pdu) ==>
      !AreaWithin(config, AreaItem(area, dbNumber, start, length), pdu)
  {
    hide AreaWithin, AdmissibleReads, AllReadable, ValidConfig;
    if entry.Some? {
      return Err(CauseError(entry.value, Unchanged));
    }
    AreaTooLarge(config, area, dbNumber, start, length, pdu);
    if length == 0 {
      return Err(InvalidError());
    }
    if length > config.maxItemBytes || length > config.maxBatchBytes || length > MAX_U32 {
      return Err(LimitError());
    }
    var item := AreaItem(area, dbNumber, start, length);
    var prepared := PrepareReads(config, [item]);
    if SessionPdu(pdu) {
      AreaWithinFacts(config, item, pdu);
    }
    if prepared.Err? {
      return prepared;
    }
    if queue.Some? {
      return Err(CauseError(queue.value, Unchanged));
    }
    assert Lengths([item]) == [length];
    return prepared;
  }

  /** What is left of ReadArea once its range has been checked and the gate is taken. */
  method ReadRange(client: Client, ghost item: ReadItem, items: seq<ReadItem>, lengths: seq<nat>, dst: array<Byte>)
    returns (n: nat, end: Option<Error>, ghost rounds: seq<Round>, ghost asked: seq<seq<Fragment>>)
    requires client.Valid() && items == [item] && AllReadable(items) && lengths == Lengths(items) && lengths == [dst.Length]
    requires item.transport == TransportByte && 1 <= dst.Length
    modifies client`state, client`connected, client`limitsValid, client`reference
    modifies client.link`turn, client.link`uplink, client.link`inbox, client.link`departed, client.link.server
    modifies dst
    ensures client.Valid() && client.NoLonger(old(client.state))
    ensures n <= dst.Length && dst[n..] == old(dst[n..])
    ensures end.None? <==> n == dst.Length
    ensures end != Some(InvariantError()) && (end == Some(LimitError()) ==> asked == [])
    ensures |rounds| < |asked| ==> NoAnswer(client.state, end)
    ensures Accounted(client.link.script, old(client.link.turn), client.link.turn, old(client.state), client.state, end)
    ensures RoundsOf(rounds, asked) && |asked| <= client.config.maxFragmentsPerCall
    ensures Asked(client.link.departed, old(client.link.departed), old(client.reference), asked)
    ensures n == Received(rounds, 0) && EndsByRejection(rounds, end)
    ensures asked != [] ==>
      && old(client.state) == StateReady
      && AllAsked(asked, items, client.limits.pdu)
      && Traced(rounds, [n], items, client.limits.pdu)
    ensures item.address.area != UnknownArea
    ensures old(Trusted(client)) ==>
      && client.Quiet()
      && client.link.server.memory == old(client.link.server.memory)
      && CodesAreVerdicts(rounds, client.link.script, old(client.link.turn))
      && (Rejection(rounds, 0).None? ==> RefusedIn(client.link.script(old(client.link.turn) + |rounds|), end))
      && forall k | 0 <= k < n ::
           dst[k] == Peek(client.link.server.memory,
                          MemoryKey(MemoryArea(item.address.area), item.address.dbNumber, item.address.offset + k))
    ensures old(Trusted(client)) && CalmScript(client.link.script) && !Refusing(client.link.script)
            && old(client.state) == StateReady && AreaWithin(client.config, item, client.limits.pdu) ==>
      n == dst.Length || Rejection(rounds, 0).Some?
  {
    hide Readable, FragmentCountTo, LimitsOk, CalmScript, HonestScript, ReferenceAfter, IsReadRequest, Rejection, Received,
         CodesAreVerdicts, Asked, ResultsAreMemory, Refusing, AdmissibleReads, DirectRead, Traced, AllAsked, Packed, AreaWithin,
         ErrorsExplained, ValidConfig, ReadRecord, Lengths, SessionPdu, Network.Client.Quiet, EndsByRejection, Reported, NoAnswer,
         Accounted;
    NothingReceived();
    if client.state == StateReady {
      PduSmall(client);
      AreaWithinFacts(client.config, item, client.limits.pdu);
    }
    ghost var before := dst[..];
    ghost var script, turn, state := client.link.script, client.link.turn, client.state;
    assert Contents([dst])[0] == dst[..];
    var results, progress;
    ghost var cuts;
    results, progress, end, rounds, asked, cuts := ReadLocked(client, items, lengths, Some([dst]));
    n := progress[0];
    assert Contents([dst])[0] == dst[..];
    assert dst[n..] == dst[..][n..] && before[n..] == old(dst[n..]);
    assert progress == [n];
    ReadableFacts(item);
    AreaEnds(results, progress, dst.Length, rounds, end, client.state);
    if old(client.state) == StateReady {
      AreaRecord(results, progress, end, rounds, asked, cuts, items, client.limits.pdu);
    } else {
      assert rounds == [];
    }
    if end.None? && results[0].error.Some? {
      end := results[0].error;
      AccountedUnchanged(script, turn, client.link.turn, state, client.state, end.value);
    }
    if old(Trusted(client)) {
      AreaData(results, progress, item, dst[..], client.link.server.memory);
    }
  }

  /** ReadArea. The confirmed prefix n is exactly what the accepted answers brought. */
  method ReadArea(client: Client, area: Area, dbNumber: U16, start: U32, dst: array<Byte>, entry: Option<Cause>, queue: Option<Cause>)
    returns (n: nat, end: Option<Error>, ghost rounds: seq<Round>, ghost asked: seq<seq<Fragment>>)
    requires client.Valid()
    modifies client`state, client`connected, client`limitsValid, client`reference
    modifies client.link`turn, client.link`uplink, client.link`inbox, client.link`departed, client.link.server
    modifies dst
    ensures client.Valid() && client.NoLonger(old(client.state))
    ensures n <= dst.Length && dst[n..] == old(dst[n..])
    ensures end.None? <==> n == dst.Length && dst.Length != 0
    ensures end != Some(InvariantError()) && (end == Some(LimitError()) ==> asked == [])
    ensures |rounds| < |asked| ==> NoAnswer(client.state, end)
    ensures Accounted(client.link.script, old(client.link.turn), client.link.turn, old(client.state), client.state, end)
    ensures RoundsOf(rounds, asked) && |asked| <= client.config.maxFragmentsPerCall
    ensures Asked(client.link.departed, old(client.link.departed), old(client.reference), asked)
    ensures entry.Some? || queue.Some? ==> n == 0 && asked == []
    ensures entry.Some? ==> end.Some? && Reports(end.value, entry.value, Unchanged)
    ensures n == Received(rounds, 0) && EndsByRejection(rounds, end)
    ensures asked != [] ==>
      && dst.Length <= MAX_U32 && old(client.state) == StateReady
      && var items := [AreaItem(area, dbNumber, start, dst.Length)];
         && AllReadable(items) && AllAsked(asked, items, client.limits.pdu)
         && Traced(rounds, [n], items, client.limits.pdu)
    ensures n > 0 ==> area != UnknownArea
    ensures old(Trusted(client)) ==>
      && client.Quiet()
      && client.link.server.memory == old(client.link.server.memory)
      && CodesAreVerdicts(rounds, client.link.script, old(client.link.turn))
      && (Rejection(rounds, 0).None? ==> RefusedIn(client.link.script(old(client.link.turn) + |rounds|), end))
      && forall k | 0 <= k < n :: dst[k] == Peek(client.link.server.memory, MemoryKey(MemoryArea(area), dbNumber, start + k))
    ensures old(Trusted(client)) && CalmScript(client.link.script) && !Refusing(client.link.script)
            && old(client.state) == StateReady && entry.None? && queue.None?
            && dst.Length <= MAX_U32 && AreaWithin(client.config, AreaItem(area, dbNumber, start, dst.Length), client.limits.pdu) ==>
      n == dst.Length || Rejection(rounds, 0).Some?
  {
    hide Readable, FragmentCountTo, LimitsOk, CalmScript, HonestScript, ReferenceAfter, IsReadRequest, Rejection, Received,
         CodesAreVerdicts, Asked, Refusing, AdmissibleReads, Traced, AllAsked, AreaWithin, ValidConfig, SessionPdu,
         Network.Client.Quiet, EndsByRejection, NoAnswer, Accounted, RefusedReads, AllReadable, Lengths;
    n, rounds, asked := 0, [], [];
    if client.state == StateReady {
      PduSmall(client);
    }
    NothingAsked(client.link.departed, client.reference, client.link.script, client.link.turn);
    NothingReceived();
    AccountedNothing(client.link.script, client.link.turn, client.state);
    var prepared := PrepareArea(client.config, area, dbNumber, start, dst.Length, entry, queue, client.limits.pdu);
    if prepared.Err? {
      end := Some(prepared.error);
      return;
    }
    ghost var item := AreaItem(area, dbNumber, start, dst.Length);
    n, end, rounds, asked := ReadRange(client, item, prepared.value.0, prepared.value.1, dst);
  }

  lemma {:induction false} NothingReceived()
    ensures Received([], 0) == 0
    ensures forall end :: EndsByRejection([], end)
  {
  }

  lemma {:induction false} AreaRecord(results: seq<ReadResult>, progress: seq<nat>, end: Option<Error>, rounds: seq<Round>,
                                      asked: seq<seq<Fragment>>, cuts: seq<nat>, items: seq<ReadItem>, pdu: nat)
    requires AllReadable(items) && SessionPdu(pdu) && ReadRecord(results, progress, end, rounds, asked, cuts, items, pdu) && items != []
    ensures Complete(rounds) && AllAsked(asked, items, pdu)
    ensures Traced(rounds, progress, items, pdu) && |progress| == |items| && progress[0] == Received(rounds, 0)
  {
    hide Received, Readable, AllAsked, Packed;
    assert ItemTraced(rounds, progress[0], items[0], 0, pdu);
  }

  /** A destination ReadArea refuses by its size would not be an admissible item either. */
  lemma {:induction false} AreaTooLarge(config: Config, area: Area, dbNumber: U16, start: U32, length: nat, pdu: nat)
    ensures SessionPdu(pdu) && length <= MAX_U32 && (length == 0 || length > config.maxItemBytes || length > config.maxBatchBytes) ==>
      !AreaWithin(config, AreaItem(area, dbNumber, start, length), pdu)
  {
    if length <= MAX_U32 {
      var item := AreaItem(area, dbNumber, start, length);
      assert [item][0] == item;
      assert TotalLength([item], 1) == TotalLength([item], 0) + Length(item);
    }
  }

  /** How an area read ends: rejected, interrupted or complete. */
  lemma {:induction false} AreaEnds(results: seq<ReadResult>, progress: seq<nat>, length: nat, rounds: seq<Round>, end: Option<Error>,
                                    state: State)
    requires |results| == |progress| == 1 && Complete(rounds)
    requires ErrorsExplained(results, progress, [length], rounds, end)
    requires results[0].error.None? <==> progress[0] == length
    requires end.Some? ==> Reported(results, end)
    ensures end.None? ==> progress[0] == length || Rejection(rounds, 0).Some?
    ensures end.None? && Rejection(rounds, 0).None? ==> results[0].error.None?
    ensures end.None? && results[0].error.Some? ==>
      !LocalError(results[0].error.value) && results[0].error.value.impact == Unchanged
    ensures end.Some? ==> results[0].error == end
    ensures EndsByRejection(rounds, results[0].error)
    ensures NoAnswer(state, end) ==> end.Some?
  {
    hide Rejection;
  }

  lemma {:induction false} AreaWithinFacts(config: Config, item: ReadItem, pdu: nat)
    requires SessionPdu(pdu)
    ensures AreaWithin(config, item, pdu) <==>
      && AdmissibleReads(config, [item]) && AllReadable([item])
      && FragmentCountTo([item], 1, pdu) <= config.maxFragmentsPerCall
  {
    hide AdmissibleReads, AllReadable, FragmentCountTo;
  }

  lemma {:induction false} AreaData(results: seq<ReadResult>, progress: seq<nat>, item: ReadItem, data: seq<Byte>, memory: Memory)
    requires AllReadable([item]) && ResultsAreMemory(results, progress, [item], memory)
    requires item.transport == TransportByte && progress[0] <= |data| && data[..progress[0]] == results[0].data
    ensures item.address.area != UnknownArea
    ensures forall k | 0 <= k < progress[0] ::
      data[k] == Peek(memory, MemoryKey(MemoryArea(item.address.area), item.address.dbNumber, item.address.offset + k))
  {
    hide Readable;
    assert [item][0] == item;
    ReadableFacts(item);
    assert forall k | 0 <= k < progress[0] :: data[k] == data[..progress[0]][k];
  }
}
