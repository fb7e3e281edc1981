/** Writing through the session (client.go): Write, WriteArea and the loop under them. The
    outcome of every item is proved true of the controller's memory and of what has left
    the client. */
module WritePath {
  import opened Bytes
  import opened Errors
  import opened Items
  import opened Protocol
  import opened Plc
  import opened Dialogue
  import opened Negotiation
  import opened Network
  import opened Fragments
  import opened DirectAccess
  import opened Greedy
  import opened WritePlan

  // ------------------------------------------------------------ one request

  /** The controller's answer to a write request of so many items. */
  function ControllerWrites(count: nat, verdict: Verdict): (response: WriteResponse)
    ensures |response.returnCodes| == count
  {
    if verdict.Global() != 0 then WriteResponse(seq(count, _ => 0), verdict.Global())
    else WriteResponse(CodesFrom(verdict, count, 0), 0)
  }

  /** ... and its memory afterwards. */
  function ControllerApplies(memory: Memory, items: seq<DataItem>, verdict: Verdict): Memory
    requires S7DataItems(items)
  {
    if verdict.Global() != 0 then memory else ApplyFrom(memory, items, verdict, 0)
  }

  lemma {:induction false} RefusalIsWritten(reference: U16, count: nat, globalCode: U16)
    requires reference != 0 && globalCode != 0 && 1 <= count <= WIRE_MAX_ITEMS
    ensures |AckPdu(reference, AckData([], [], globalCode))| == 12
    ensures ParseWriteResponse(AckPdu(reference, AckData([], [], globalCode)), reference, count)
         == Some(WriteResponse(seq(count, _ => 0), globalCode))
  {
    hide AckPdu, ParseAckData;
    var ack := AckData([], [], globalCode);
    AckSize(reference, ack);
    AckParses(reference, ack);
  }

  /** A controller answers every write request of the client, within the reserved size. */
  lemma {:induction false} WriteServed(memory: Memory, job: Job, reference: U16, items: seq<DataItem>, verdict: Verdict)
    requires reference != 0 && S7DataItems(items) && WriteJobFor(job, reference, items)
    requires |job.parameters| <= MAX_U16 && |job.data| <= MAX_U16
    ensures
      var served := Serve(memory, JobPdu(job), verdict);
      && served.memory == ControllerApplies(memory, items, verdict)
      && served.reply.Some?
      && |served.reply.value| <= WriteResponseSize(|items|)
      && ParseWriteResponse(served.reply.value, reference, |items|) == Some(ControllerWrites(|items|, verdict))
  {
    hide Serve, AckPdu, ParseWriteResponse, JobPdu, S7Item, ParametersFor, WriteBlocksFrom, ApplyFrom;
    if verdict.Global() != 0 {
      ServesRefusal(memory, job, verdict);
      RefusalIsWritten(reference, |items|, verdict.Global());
    } else {
      ServesWrite(memory, job, reference, items, verdict);
      var codes := CodesFrom(verdict, |items|, 0);
      AckSize(reference, WriteAck(codes));
      WriteReplyImage(AckPdu(reference, WriteAck(codes)), reference, |items|, codes);
    }
  }

  lemma {:induction false} ParsedWriteFits(payload: seq<Byte>, reference: U16, count: nat)
    requires ParseWriteResponse(payload, reference, count).Some?
    ensures |ParseWriteResponse(payload, reference, count).value.returnCodes| == count
  {
    hide ParseAckData;
  }

  /** The request a write round sends. */
  ghost predicate IsWriteRequest(payload: seq<Byte>, reference: U16, items: seq<DataItem>) {
    exists job: Job ::
      |job.parameters| <= MAX_U16 && |job.data| <= MAX_U16 && WriteJobFor(job, reference, items) && payload == JobPdu(job)
  }

  /** The trace one turn leaves: at most one request, under the next reference. */
  ghost predicate OneWritten(before: seq<seq<Byte>>, after: seq<seq<Byte>>, reference: U16, now: U16, items: seq<DataItem>, sent: bool) {
    && before <= after
    && |after| == |before| + (if sent then 1 else 0)
    && (sent ==> now == NextAfter(reference) && IsWriteRequest(after[|before|], now, items))
  }

  /** Every group the planner cuts from valid items is a request the client can build. */
  lemma {:induction false} GroupIsValid(reference: U16, group: seq<DataItem>, pdu: nat)
    requires reference != 0 && S7DataItems(group) && GroupFits(group, pdu) && pdu <= MAX_PDU
    ensures ValidDataItems(reference, group) && |WriteBlocksFrom(group, 0)| <= MAX_U16
  {
    hide BlocksSize, WriteBlocksFrom;
    WriteBlocksSize(group, 0);
    assert WriteLengths(group)[0..] == WriteLengths(group);
    forall i | 0 <= i < |group|
      ensures ValidItem(group[i].item)
    {
      assert S7Item(Descriptors(group)[i]);
    }
  }

  /** One turn of the write loop up to its decoded reply; an error ends the whole write. */
  method AskWrite(client: Client, items: seq<DataItem>) returns (r: Result<WriteResponse>, sent: bool)
    requires client.Valid() && S7DataItems(items) && items != []
    requires SessionPdu(client.limits.pdu) && GroupFits(items, client.limits.pdu)
    modifies client`state, client`connected, client`limitsValid, client`reference
    modifies client.link`turn, client.link`uplink, client.link`inbox, client.link`departed, client.link.server
    ensures client.Valid() && client.NoLonger(old(client.state))
    ensures r.Ok? ==> sent && |r.value.returnCodes| == |items| && client.link.turn == old(client.link.turn) + 1
    ensures r.Err? ==> !LocalError(r.error)
    ensures OneWritten(old(client.link.departed), client.link.departed, old(client.reference), client.reference, items, sent)
    ensures !sent ==> client.link.server.memory == old(client.link.server.memory)
    ensures r.Err? && sent ==> client.state != StateReady && LossReported(r.error, client.link.script(old(client.link.turn)))
    ensures Accounted(client.link.script, old(client.link.turn), client.link.turn, old(client.state), client.state,
                      if r.Err? then Some(r.error) else None)
    ensures client.link.script(old(client.link.turn)).canceledEarly ==>
      && r.Err? && Reports(r.error, client.link.script(old(client.link.turn)).cause, Unchanged)
      && client.link.turn == old(client.link.turn)
    ensures client.link.script(old(client.link.turn)).delivery.Honest? && old(client.Quiet()) ==>
      var event := client.link.script(old(client.link.turn));
      var applied := ControllerApplies(old(client.link.server.memory), items, event.verdict);
      && client.Quiet()
      && (client.link.server.memory == old(client.link.server.memory) || client.link.server.memory == applied)
      && (r.Ok? ==> client.link.server.memory == applied && r.value == ControllerWrites(|items|, event.verdict))
      && (Calm(event) && old(client.state) == StateReady ==> r.Ok? && client.state == StateReady)
  {
    hide Serve, JobPdu, ParseWriteResponse, S7Item, ParametersFor, LimitsOk, ControllerWrites, ControllerApplies, WriteRequestSize,
         WriteBlocksFrom, S7DataItems, ValidDataItems;
    var event := client.link.script(client.link.turn);
    if event.canceledEarly {
      return Err(CauseError(event.cause, Unchanged)), false;
    }
    var reference := client.NextReference();
    GroupIsValid(reference, items, client.limits.pdu);
    var request, job := BuildWriteRequest(reference, items);
    if request.Err? {
      return Err(InvariantError()), false;
    }
    if event.delivery.Honest? && client.state == StateReady {
      WriteServed(client.link.server.memory, job, reference, items, event.verdict);
    }
    var payload, gone := client.Exchange(request.value);
    sent := gone;
    if payload.Err? {
      return Err(payload.error), sent;
    }
    var response := ParseWriteResponse(payload.value, reference, |items|);
    if response.None? {
      client.BreakSession();
      return Err(ProtocolError()), sent;
    }
    ParsedWriteFits(payload.value, reference, |items|);
    return Ok(response.value), sent;
  }

  // ----------------------------------------------------------------- items

  predicate AllWritable(items: seq<WriteItem>) {
    forall i | 0 <= i < |items| :: Writable(items[i])
  }

  function WireWrites(items: seq<WriteItem>): (wires: seq<DataItem>)
    requires AllWritable(items)
    ensures |wires| == |items|
    ensures forall i | 0 <= i < |items| :: wires[i] == WireWrite(items[i])
  {
    seq(|items|, i requires 0 <= i < |items| => WireWrite(items[i]))
  }

  method EncodeWrites(items: seq<WriteItem>) returns (r: Result<seq<DataItem>>)
    requires AllWritable(items)
    ensures r == Ok(WireWrites(items))
  {
    hide Writable, MakeProtocolItem, WireWrite;
    var wires: seq<DataItem> := [];
    for index := 0 to |items|
      invariant |wires| == index
      invariant forall i | 0 <= i < index :: wires[i] == WireWrite(items[i])
    {
      WriteIsWire(items[index]);
      var wire := MakeProtocolItem(items[index].address, items[index].transport, items[index].count);
      if wire.Err? {
        return Err(InvariantError());
      }
      wires := wires + [DataItem(wire.value, items[index].data)];
    }
    assert wires == WireWrites(items);
    return Ok(wires);
  }

  lemma {:induction false} GroupIsS7(items: seq<WriteItem>, from: nat, to: nat)
    requires AllWritable(items) && from < to <= |items| && to - from <= COMPATIBILITY_MAX_ITEMS
    ensures S7DataItems(WireWrites(items)[from..to])
  {
    hide Writable, S7Item, WireWrite;
    var group := WireWrites(items)[from..to];
    forall j | 0 <= j < |group|
      ensures S7Item(Descriptors(group)[j]) && |group[j].data| == group[j].item.dataBytes
    {
      WriteIsWire(items[from + j]);
      assert group[j] == WireWrite(items[from + j]);
    }
  }

  /** Consecutive items from `start` on, applied in order where they are marked. */
  function ApplyGroup(memory: Memory, items: seq<WriteItem>, start: nat, marks: seq<bool>): Memory
    requires AllWritable(items) && start + |marks| <= |items|
  {
    if marks == [] then memory
    else
      var last := |marks| - 1;
      var before := ApplyGroup(memory, items, start, marks[..last]);
      if marks[last] then DirectWrite(before, items[start + last]) else before
  }

  lemma {:induction false} GroupAfterGroup(memory: Memory, items: seq<WriteItem>, first: seq<bool>, second: seq<bool>)
    requires AllWritable(items) && |first| + |second| <= |items|
    ensures ApplyGroup(ApplyGroup(memory, items, 0, first), items, |first|, second) == ApplyGroup(memory, items, 0, first + second)
    decreases |second|
  {
    hide DirectWrite, Writable;
    if second == [] {
      assert first + second == first;
    } else {
      var front := second[..|second| - 1];
      GroupAfterGroup(memory, items, first, front);
      assert (first + second)[..|first| + |front|] == first + front;
    }
  }

  lemma {:induction false} NothingMarked(memory: Memory, items: seq<WriteItem>, start: nat, marks: seq<bool>)
    requires AllWritable(items) && start + |marks| <= |items|
    requires forall j | 0 <= j < |marks| :: !marks[j]
    ensures ApplyGroup(memory, items, start, marks) == memory
  {
    hide DirectWrite, Writable;
    if marks != [] {
      NothingMarked(memory, items, start, marks[..|marks| - 1]);
    }
  }

  function Accepts(verdict: Verdict, count: nat): (marks: seq<bool>)
    ensures |marks| == count
    ensures forall j | 0 <= j < count :: marks[j] <==> verdict.Global() == 0 && verdict.Code(j) == ACCEPTED
  {
    seq(count, j requires 0 <= j < count => verdict.Global() == 0 && verdict.Code(j) == ACCEPTED)
  }

  lemma {:induction false} ApplyFromIsGroup(memory: Memory, items: seq<WriteItem>, start: nat, group: seq<DataItem>, verdict: Verdict, from: nat)
    requires AllWritable(items) && start + |group| <= |items| && from <= |group|
    requires S7DataItems(group) && group == WireWrites(items)[start..start + |group|] && verdict.Global() == 0
    ensures ApplyFrom(ApplyGroup(memory, items, start, Accepts(verdict, |group|)[..from]), group, verdict, from)
         == ApplyGroup(memory, items, start, Accepts(verdict, |group|))
    decreases |group| - from
  {
    hide DirectWrite, Writable, S7DataItems, WireWrite, ApplyFrom, ApplyGroup, ApplyOne;
    var marks := Accepts(verdict, |group|);
    if from < |group| {
      assert group[from] == WireWrite(items[start + from]);
      ApplyGroupStep(memory, items, start, marks, from);
      ApplyFromStep(ApplyGroup(memory, items, start, marks[..from]), items[start + from], group, verdict, from);
      ApplyFromIsGroup(memory, items, start, group, verdict, from + 1);
    } else {
      assert marks[..from] == marks;
      ApplyFromEnd(ApplyGroup(memory, items, start, marks), group, verdict);
    }
  }

  lemma {:induction false} ApplyFromEnd(memory: Memory, group: seq<DataItem>, verdict: Verdict)
    requires S7DataItems(group)
    ensures ApplyFrom(memory, group, verdict, |group|) == memory
  {
  }

  lemma {:induction false} ApplyFromStep(memory: Memory, item: WriteItem, group: seq<DataItem>, verdict: Verdict, from: nat)
    requires S7DataItems(group) && from < |group| && Writable(item) && group[from] == WireWrite(item)
    ensures ApplyFrom(memory, group, verdict, from)
         == ApplyFrom(if verdict.Code(from) == ACCEPTED then DirectWrite(memory, item) else memory, group, verdict, from + 1)
  {
    hide DirectWrite, WriteVariable, Writable, S7Item, WireWrite;
    assert S7Item(Descriptors(group)[from]);
    WriteApplies(memory, item);
  }

  lemma {:induction false} ApplyGroupStep(memory: Memory, items: seq<WriteItem>, start: nat, marks: seq<bool>, from: nat)
    requires AllWritable(items) && from < |marks| && start + |marks| <= |items|
    ensures
      var before := ApplyGroup(memory, items, start, marks[..from]);
      ApplyGroup(memory, items, start, marks[..from + 1]) == if marks[from] then DirectWrite(before, items[start + from]) else before
  {
    hide DirectWrite, Writable;
    assert marks[..from + 1][..from] == marks[..from];
  }

  /** What a controller does with a group is what its verdict says, item by item. */
  lemma {:induction false} ControllerAppliesGroup(memory: Memory, items: seq<WriteItem>, start: nat, group: seq<DataItem>, verdict: Verdict)
    requires AllWritable(items) && start + |group| <= |items|
    requires S7DataItems(group) && group == WireWrites(items)[start..start + |group|]
    ensures ControllerApplies(memory, group, verdict) == ApplyGroup(memory, items, start, Accepts(verdict, |group|))
  {
    hide ApplyFrom, Writable, WireWrite, S7DataItems;
    if verdict.Global() == 0 {
      ApplyFromIsGroup(memory, items, start, group, verdict, 0);
      NothingMarked(memory, items, start, Accepts(verdict, |group|)[..0]);
    } else {
      NothingMarked(memory, items, start, Accepts(verdict, |group|));
    }
  }

  // --------------------------------------------------------------- outcomes

  datatype WriteOutcome = WriteNotAttempted | WriteAcknowledged | WriteRejected | WriteUnknown

  datatype WriteResult = WriteResult(outcome: WriteOutcome, error: Option<Error>)

  /** Acknowledged, or rejected with a code of the controller. */
  predicate Answered(result: WriteResult) {
    || result.outcome == WriteAcknowledged
    || (result.outcome == WriteRejected && result.error.Some? && result.error.value.kind == Plc
        && result.error.value.impact == Unchanged)
  }

  const BLANK := WriteResult(WriteNotAttempted, None)

  /** The result shape of every exit, whatever the peer: answered items first, then at
      most one request of unknown fate, then items that were never attempted; and an item
      is without error exactly when it is acknowledged. */
  ghost predicate Shape(results: seq<WriteResult>, answered: nat, doubtful: nat) {
    && answered + doubtful <= |results| && doubtful <= 20
    && forall i | 0 <= i < |results| ::
      && (results[i].error.None? <==> results[i].outcome == WriteAcknowledged)
      && (if i < answered then Answered(results[i])
          else if i < answered + doubtful then results[i].outcome == WriteUnknown
          else results[i].outcome == WriteNotAttempted)
  }

  /** Every item without an answer carries the error that ended the write. */
  ghost predicate EndReported(results: seq<WriteResult>, answered: nat, end: Option<Error>) {
    forall i | answered <= i < |results| :: results[i].error == end
  }

  /** Inside the loop everything behind the answered items is blank. */
  ghost predicate Settled(results: seq<WriteResult>, answered: nat) {
    && answered <= |results|
    && forall i | 0 <= i < |results| ::
      if i < answered then
        && Answered(results[i])
        && (results[i].error.None? <==> results[i].outcome == WriteAcknowledged)
      else results[i] == BLANK
  }

  function CodeResult(code: Byte): WriteResult {
    if code == 0xff then WriteResult(WriteAcknowledged, None)
    else WriteResult(WriteRejected, Some(Error(ErrorKind.Plc, code, code, Unchanged)))
  }

  /** What a controller's verdict means for item j of its request. */
  function VerdictResult(verdict: Verdict, j: nat): WriteResult {
    if verdict.Global() != 0 then WriteResult(WriteRejected, Some(Error(ErrorKind.Plc, verdict.Global(), 0, Unchanged)))
    else CodeResult(verdict.Code(j))
  }

  method MarkBatch(results: seq<WriteResult>, from: nat, to: nat, outcome: WriteOutcome, error: Error)
    returns (marked: seq<WriteResult>)
    requires from <= to <= |results|
    ensures |marked| == |results|
    ensures forall i | 0 <= i < |results| ::
      marked[i] == if from <= i < to then WriteResult(outcome, Some(error)) else results[i]
  {
    marked := results;
    for index := from to to
      invariant |marked| == |results|
      invariant forall i | 0 <= i < |results| ::
        marked[i] == if from <= i < index then WriteResult(outcome, Some(error)) else results[i]
    {
      marked := marked[index := WriteResult(outcome, Some(error))];
    }
  }

  method MarkUnattempted(results: seq<WriteResult>, error: Error) returns (marked: seq<WriteResult>)
    ensures |marked| == |results|
    ensures forall i | 0 <= i < |results| ::
      marked[i] == if results[i] == BLANK then WriteResult(WriteNotAttempted, Some(error)) else results[i]
  {
    marked := results;
    for index := 0 to |results|
      invariant |marked| == |results|
      invariant forall i | 0 <= i < |results| ::
        marked[i] == if i < index && results[i] == BLANK then WriteResult(WriteNotAttempted, Some(error)) else results[i]
    {
      if marked[index].outcome == WriteNotAttempted && marked[index].error == None {
        marked := marked[index := WriteResult(WriteNotAttempted, Some(error))];
      }
    }
  }

  method AbsorbCodes(results: seq<WriteResult>, from: nat, codes: seq<Byte>) returns (marked: seq<WriteResult>, failed: bool)
    requires from + |codes| <= |results|
    ensures |marked| == |results|
    ensures forall i | 0 <= i < |results| ::
      marked[i] == if from <= i < from + |codes| then CodeResult(codes[i - from]) else results[i]
    ensures failed <==> exists j :: 0 <= j < |codes| && codes[j] != ACCEPTED
  {
    marked, failed := results, false;
    for index := 0 to |codes|
      invariant |marked| == |results|
      invariant forall i | 0 <= i < |results| ::
        marked[i] == if from <= i < from + index then CodeResult(codes[i - from]) else results[i]
      invariant failed <==> exists j :: 0 <= j < index && codes[j] != ACCEPTED
    {
      if codes[index] == ACCEPTED {
        marked := marked[from + index := WriteResult(WriteAcknowledged, None)];
      } else {
        failed := true;
        marked := marked[from + index := WriteResult(WriteRejected, Some(PlcItemError(codes[index])))];
      }
    }
  }

  method FirstWriteError(results: seq<WriteResult>) returns (error: Error)
    ensures (forall i | 0 <= i < |results| :: results[i].error.None?) ==> error == NewError(Plc, Unchanged)
    ensures (exists i :: 0 <= i < |results| && results[i].error.Some?) ==>
      exists i :: 0 <= i < |results| && results[i].error == Some(error) && forall j | 0 <= j < i :: results[j].error.None?
  {
    for index := 0 to |results|
      invariant forall i | 0 <= i < index :: results[i].error.None?
    {
      if results[index].error.Some? {
        return results[index].error.value;
      }
    }
    return NewError(Plc, Unchanged);
  }

  // ------------------------------------------------------------------ a turn

  /** How one turn ended: how many items have been answered, how many are in doubt. */
  datatype Fate = Fate(answered: nat, doubtful: nat)

  ghost predicate SamePrefix(before: seq<WriteResult>, after: seq<WriteResult>, count: nat) {
    |after| == |before| && count <= |before| && forall i | 0 <= i < count :: after[i] == before[i]
  }

  /** Some item was not acknowledged, and its error is the one the call ends with. */
  ghost predicate SomethingFailed(results: seq<WriteResult>, end: Option<Error>) {
    exists i :: 0 <= i < |results| && results[i].outcome != WriteAcknowledged && results[i].error == end
  }

  ghost predicate NoLocalError(results: seq<WriteResult>) {
    forall i | 0 <= i < |results| :: results[i].error.Some? ==> !LocalError(results[i].error.value)
  }

  /** The marks a turn leaves on the items of its group agree with their outcomes. */
  ghost predicate MarksAgree(results: seq<WriteResult>, start: nat, marks: seq<bool>) {
    && start + |marks| <= |results|
    && forall j | 0 <= j < |marks| ::
      && (results[start + j].outcome == WriteAcknowledged ==> marks[j])
      && (results[start + j].outcome == WriteRejected || results[start + j].outcome == WriteNotAttempted ==> !marks[j])
  }

  ghost predicate AnsweredBy(results: seq<WriteResult>, start: nat, count: nat, verdict: Verdict) {
    && start + count <= |results|
    && forall j | 0 <= j < count :: results[start + j] == VerdictResult(verdict, j)
  }

  /** The batch that got no answer: in doubt if anything of it has left. */
  method RecordFailure(before: seq<WriteResult>, start: nat, count: nat, sent: bool, error: Error)
    returns (after: seq<WriteResult>)
    requires Settled(before, start) && start + count <= |before| && count <= COMPATIBILITY_MAX_ITEMS
    requires NoLocalError(before) && !LocalError(error)
    ensures |after| == |before| && SamePrefix(before, after, start) && NoLocalError(after)
    ensures Shape(after, start, if sent then count else 0) && EndReported(after, start, Some(error))
    ensures count > 0 ==> SomethingFailed(after, Some(error))
  {
    after := MarkBatch(before, start, start + count, if sent then WriteUnknown else WriteNotAttempted, error);
    after := MarkUnattempted(after, error);
    assert count > 0 ==> after[start].outcome != WriteAcknowledged && after[start].error == Some(error);
  }

  function ResponseResult(response: WriteResponse, j: nat): WriteResult
    requires j < |response.returnCodes|
  {
    if response.globalCode != 0 then WriteResult(WriteRejected, Some(PlcError(response.globalCode)))
    else CodeResult(response.returnCodes[j])
  }

  /** Stopping after a rejection: the call ends with the first error there is. */
  method StopWrite(before: seq<WriteResult>, answered: nat) returns (after: seq<WriteResult>, failure: Error)
    requires Settled(before, answered) && NoLocalError(before) && exists i :: 0 <= i < answered && before[i].error.Some?
    ensures |after| == |before| && SamePrefix(before, after, answered) && NoLocalError(after)
    ensures Shape(after, answered, 0) && EndReported(after, answered, Some(failure)) && SomethingFailed(after, Some(failure))
    ensures !LocalError(failure) && failure.impact == Unchanged
  {
    failure := FirstWriteError(before);
    ghost var first :| 0 <= first < |before| && before[first].error == Some(failure);
    after := MarkUnattempted(before, failure);
    assert after[first].outcome != WriteAcknowledged && after[first].error == Some(failure);
  }

  /** The batch that got an answer. */
  method RecordAnswer(before: seq<WriteResult>, start: nat, response: WriteResponse, stopAfterFailure: bool)
    returns (after: seq<WriteResult>, end: Option<Error>)
    requires Settled(before, start) && start + |response.returnCodes| <= |before| && NoLocalError(before)
    ensures |after| == |before| && SamePrefix(before, after, start) && NoLocalError(after)
    ensures forall j | 0 <= j < |response.returnCodes| :: after[start + j] == ResponseResult(response, j)
    ensures end.None? ==> Settled(after, start + |response.returnCodes|)
    ensures end.Some? ==>
      && Shape(after, start + |response.returnCodes|, 0) && EndReported(after, start + |response.returnCodes|, end)
      && (|response.returnCodes| > 0 ==> SomethingFailed(after, end))
      && !LocalError(end.value) && end.value.impact == Unchanged
      && (response.globalCode != 0 ||
           (stopAfterFailure && exists j :: 0 <= j < |response.returnCodes| && response.returnCodes[j] != ACCEPTED))
  {
    var WriteResponse(codes, globalCode) := response;
    if globalCode != 0 {
      after := MarkBatch(before, start, start + |codes|, WriteRejected, PlcError(globalCode));
      after := MarkUnattempted(after, PlcError(globalCode));
      assert |codes| > 0 ==> after[start] == WriteResult(WriteRejected, Some(PlcError(globalCode)));
      return after, Some(PlcError(globalCode));
    }
    var failed;
    after, failed := AbsorbCodes(before, start, codes);
    if stopAfterFailure && failed {
      ghost var bad :| 0 <= bad < |codes| && codes[bad] != ACCEPTED;
      assert after[start + bad] == CodeResult(codes[bad]);
      var failure;
      after, failure := StopWrite(after, start + |codes|);
      return after, Some(failure);
    }
    return after, None;
  }

  lemma {:induction false} ControllerResults(count: nat, verdict: Verdict)
    ensures forall j | 0 <= j < count ::
      ResponseResult(ControllerWrites(count, verdict), j) == VerdictResult(verdict, j)
    ensures ControllerWrites(count, verdict).globalCode == verdict.Global()
    ensures verdict.Global() == 0 ==>
      forall j | 0 <= j < count :: ControllerWrites(count, verdict).returnCodes[j] == verdict.Code(j)
  {
  }

  /** One turn of the batch loop: ask, and record what became of the batch. */
  method WriteTurn(client: Client, batch: seq<DataItem>, before: seq<WriteResult>, start: nat, stopAfterFailure: bool,
                   ghost items: seq<WriteItem>)
    returns (after: seq<WriteResult>, end: Option<Error>, ghost fate: Fate, ghost sent: bool, ghost marks: seq<bool>)
    requires client.Valid() && SessionPdu(client.limits.pdu)
    requires AllWritable(items) && |before| == |items| && Settled(before, start) && NoLocalError(before)
    requires batch != [] && start + |batch| <= |items| && batch == WireWrites(items)[start..start + |batch|]
    requires GroupFits(batch, client.limits.pdu)
    modifies client`state, client`connected, client`limitsValid, client`reference
    modifies client.link`turn, client.link`uplink, client.link`inbox, client.link`departed, client.link.server
    ensures client.Valid() && client.NoLonger(old(client.state))
    ensures |after| == |before| && SamePrefix(before, after, start) && NoLocalError(after)
    ensures end.None? ==>
      && sent && fate == Fate(start + |batch|, 0) && Settled(after, start + |batch|)
      && client.link.turn == old(client.link.turn) + 1
    ensures end.Some? ==>
      && !LocalError(end.value)
      && Shape(after, fate.answered, fate.doubtful) && SomethingFailed(after, end) && EndReported(after, fate.answered, end)
      && (fate == Fate(start, 0) || fate == Fate(start, |batch|) || fate == Fate(start + |batch|, 0))
    ensures fate.answered + fate.doubtful == if sent then start + |batch| else start
    ensures fate.doubtful > 0 ==> client.state != StateReady
    ensures Accounted(client.link.script, old(client.link.turn), client.link.turn, old(client.state), client.state, end)
    ensures OneWritten(old(client.link.departed), client.link.departed, old(client.reference), client.reference, batch, sent)
    ensures |marks| == |batch|
    ensures client.link.script(old(client.link.turn)).delivery.Honest? && old(client.Quiet()) ==>
      var event := client.link.script(old(client.link.turn));
      && client.Quiet()
      && client.link.server.memory == ApplyGroup(old(client.link.server.memory), items, start, marks)
      && MarksAgree(after, start, marks)
      && (fate.answered == start + |batch| ==>
           marks == Accepts(event.verdict, |batch|) && AnsweredBy(after, start, |batch|, event.verdict))
      && (Calm(event) && old(client.state) == StateReady ==>
           && client.state == StateReady && fate.answered == start + |batch|
           && (end.Some? ==> event.verdict.Global() != 0 || (stopAfterFailure && false in marks)))
  {
    hide Writable, WireWrite, ApplyFrom, ControllerApplies, ApplyGroup, IsWriteRequest, LimitsOk, GroupFits, S7DataItems, DirectWrite,
         Calm, NoLocalError, Settled, SamePrefix, ControllerWrites, SomethingFailed, OneWritten, EndReported;
    GroupCount(batch, client.limits.pdu);
    GroupIsS7(items, start, start + |batch|);
    var event := client.link.script(client.link.turn);
    marks := NoMarks(|batch|);
    NothingMarked(client.link.server.memory, items, start, marks);
    ghost var honest, memory := event.delivery.Honest? && client.Quiet(), client.link.server.memory;
    ControllerAppliesGroup(memory, items, start, batch, event.verdict);
    ControllerResults(|batch|, event.verdict);
    var response, gone := AskWrite(client, batch);
    sent := gone;
    if response.Err? {
      after := RecordFailure(before, start, |batch|, gone, response.error);
      end := Some(response.error);
      fate := Fate(start, if sent then |batch| else 0);
      if honest && client.link.server.memory != memory {
        marks := Accepts(event.verdict, |batch|);
      }
      assert !sent ==> client.link.server.memory == memory;
      MarksOfFailure(after, start, sent, marks);
    } else {
      after, end := RecordAnswer(before, start, response.value, stopAfterFailure);
      fate := Fate(start + |batch|, 0);
      if honest {
        marks := Accepts(event.verdict, |batch|);
        assert response.value == ControllerWrites(|batch|, event.verdict);
        MarksOfAnswer(after, start, |batch|, event.verdict);
      }
    }
  }

  lemma {:induction false} MarksOfFailure(results: seq<WriteResult>, start: nat, sent: bool, marks: seq<bool>)
    requires Shape(results, start, if sent then |marks| else 0) && start + |marks| <= |results|
    requires !sent ==> forall j | 0 <= j < |marks| :: !marks[j]
    ensures MarksAgree(results, start, marks)
  {
  }

  lemma {:induction false} MarksOfAnswer(results: seq<WriteResult>, start: nat, count: nat, verdict: Verdict)
    requires start + count <= |results|
    requires forall j | 0 <= j < count :: results[start + j] == ResponseResult(ControllerWrites(count, verdict), j)
    ensures AnsweredBy(results, start, count, verdict)
    ensures MarksAgree(results, start, Accepts(verdict, count))
  {
    hide ControllerWrites;
    ControllerResults(count, verdict);
    var marks := Accepts(verdict, count);
    forall j | 0 <= j < |marks|
      ensures results[start + j] == VerdictResult(verdict, j)
      ensures results[start + j].outcome == WriteAcknowledged <==> marks[j]
    {
      assert results[start + j] == ResponseResult(ControllerWrites(count, verdict), j);
    }
  }

  function NoMarks(count: nat): (marks: seq<bool>)
    ensures |marks| == count
    ensures forall j | 0 <= j < count :: !marks[j]
  {
    seq(count, _ => false)
  }

  lemma {:induction false} GroupCount(group: seq<DataItem>, pdu: nat)
    requires GroupFits(group, pdu)
    ensures |group| <= COMPATIBILITY_MAX_ITEMS
  {
  }

  // ---------------------------------------------------------------- the loop

  /** What a write has sent: request k carried exactly the items between cut k and cut
      k + 1, under consecutive references. No item is in two requests. */
  ghost predicate Sent(departed: seq<seq<Byte>>, before: seq<seq<Byte>>, reference: U16, wires: seq<DataItem>, cuts: seq<nat>) {
    && cuts != [] && IsCut(cuts, cuts[|cuts| - 1]) && cuts[|cuts| - 1] <= |wires|
    && before <= departed
    && |departed| == |before| + |cuts| - 1
    && forall k: nat | k < |cuts| - 1 :: RequestAt(departed, |before|, reference, wires, cuts, k)
  }

  ghost predicate RequestAt(departed: seq<seq<Byte>>, base: nat, reference: U16, wires: seq<DataItem>, cuts: seq<nat>, k: nat) {
    && k + 1 < |cuts| && cuts[k] <= cuts[k + 1] <= |wires|
    && base + k < |departed|
    && IsWriteRequest(departed[base + k], ReferenceAfter(reference, k + 1), wires[cuts[k]..cuts[k + 1]])
  }

  /** Every answered request's outcomes are the ones its verdict gave. */
  ghost predicate OutcomesAreVerdicts(results: seq<WriteResult>, cuts: seq<nat>, answered: nat, script: Script, turn: nat) {
    forall k: nat | k + 1 < |cuts| && cuts[k] <= cuts[k + 1] <= answered :: RoundAnswered(results, cuts, k, script, turn)
  }

  ghost predicate RoundAnswered(results: seq<WriteResult>, cuts: seq<nat>, k: nat, script: Script, turn: nat)
    requires k + 1 < |cuts| && cuts[k] <= cuts[k + 1]
  {
    AnsweredBy(results, cuts[k], cuts[k + 1] - cuts[k], script(turn + k).verdict)
  }

  lemma {:induction false} SentOneMore(departed: seq<seq<Byte>>, before: seq<seq<Byte>>, reference: U16, wires: seq<DataItem>,
                                       cuts: seq<nat>, after: seq<seq<Byte>>, next: nat)
    requires Sent(departed, before, reference, wires, cuts) && cuts[|cuts| - 1] < next <= |wires|
    requires departed <= after && |after| == |departed| + 1
    requires IsWriteRequest(after[|departed|], ReferenceAfter(reference, |cuts|), wires[cuts[|cuts| - 1]..next])
    ensures Sent(after, before, reference, wires, cuts + [next])
  {
    hide IsWriteRequest, ReferenceAfter;
    forall k: nat | k < |cuts + [next]| - 1
      ensures RequestAt(after, |before|, reference, wires, cuts + [next], k)
    {
      if k < |cuts| - 1 {
        assert RequestAt(departed, |before|, reference, wires, cuts, k);
      }
    }
  }

  lemma {:induction false} OutcomesOneMore(before: seq<WriteResult>, after: seq<WriteResult>, cuts: seq<nat>, start: nat, next: nat,
                                           answered: nat, script: Script, turn: nat)
    requires cuts != [] && cuts[|cuts| - 1] == start < next && IsCut(cuts, start)
    requires OutcomesAreVerdicts(before, cuts, start, script, turn) && SamePrefix(before, after, start)
    requires answered == start || answered == next
    requires answered == next ==> AnsweredBy(after, start, next - start, script(turn + |cuts| - 1).verdict)
    ensures OutcomesAreVerdicts(after, cuts + [next], answered, script, turn)
    ensures answered == start ==> OutcomesAreVerdicts(after, cuts, answered, script, turn)
  {
    hide VerdictResult;
    forall k: nat | k + 1 < |cuts| && cuts[k] <= cuts[k + 1] <= answered
      ensures RoundAnswered(after, cuts, k, script, turn)
    {
      RoundKept(before, after, cuts, start, next, k, script, turn);
    }
    var more := cuts + [next];
    forall k: nat | k + 1 < |more| && more[k] <= more[k + 1] <= answered
      ensures RoundAnswered(after, more, k, script, turn)
    {
      if k + 1 < |cuts| {
        RoundKept(before, after, cuts, start, next, k, script, turn);
      }
    }
  }

  lemma {:induction false} RoundKept(before: seq<WriteResult>, after: seq<WriteResult>, cuts: seq<nat>, start: nat, next: nat,
                                     k: nat, script: Script, turn: nat)
    requires IsCut(cuts, start) && k + 1 < |cuts|
    requires OutcomesAreVerdicts(before, cuts, start, script, turn) && SamePrefix(before, after, start)
    ensures cuts[k] <= cuts[k + 1] <= start
    ensures RoundAnswered(after, cuts, k, script, turn)
    ensures cuts[k] <= (cuts + [next])[k + 1] && RoundAnswered(after, cuts + [next], k, script, turn)
  {
    hide VerdictResult;
    CutGrows(cuts, start, k, k + 1);
    CutGrows(cuts, start, k + 1, |cuts| - 1);
    assert RoundAnswered(before, cuts, k, script, turn);
  }

  lemma {:induction false} MarksOneMore(before: seq<WriteResult>, after: seq<WriteResult>, applied: seq<bool>, marks: seq<bool>)
    requires MarksAgree(before, 0, applied) && SamePrefix(before, after, |applied|)
    requires MarksAgree(after, |applied|, marks)
    ensures MarksAgree(after, 0, applied + marks)
  {
    forall j | 0 <= j < |applied + marks|
      ensures after[j].outcome == WriteAcknowledged ==> (applied + marks)[j]
      ensures after[j].outcome == WriteRejected || after[j].outcome == WriteNotAttempted ==> !(applied + marks)[j]
    {
      if j < |applied| {
        assert after[j] == before[0 + j];
      } else {
        assert after[j] == after[|applied| + (j - |applied|)];
      }
    }
  }

  /** Items behind the last batch were not attempted, and are not marked. */
  lemma {:induction false} MarksToTheEnd(results: seq<WriteResult>, applied: seq<bool>, fate: Fate, memory: Memory, items: seq<WriteItem>)
    requires AllWritable(items) && |results| == |items| && |applied| <= |items|
    requires MarksAgree(results, 0, applied) && Shape(results, fate.answered, fate.doubtful)
    requires |applied| >= fate.answered + fate.doubtful
    ensures
      var marks := applied + NoMarks(|items| - |applied|);
      && |marks| == |items|
      && MarksAgree(results, 0, marks)
      && ApplyGroup(memory, items, 0, marks) == ApplyGroup(memory, items, 0, applied)
  {
    hide ApplyGroup, Writable;
    var rest := NoMarks(|items| - |applied|);
    GroupAfterGroup(memory, items, applied, rest);
    NothingMarked(ApplyGroup(memory, items, 0, applied), items, |applied|, rest);
    assert forall i | |applied| <= i < |results| :: results[i].outcome == WriteNotAttempted;
    MarksOneMore(results, results, applied, rest);
  }

  lemma {:induction false} SettledShape(results: seq<WriteResult>)
    requires Settled(results, |results|)
    ensures Shape(results, |results|, 0) && EndReported(results, |results|, None)
  {
  }

  lemma {:induction false} RejectedSomewhere(results: seq<WriteResult>, start: nat, count: nat, verdict: Verdict)
    requires AnsweredBy(results, start, count, verdict) && verdict.Global() == 0 && false in Accepts(verdict, count)
    ensures exists i :: 0 <= i < |results| && results[i].outcome == WriteRejected
  {
    var j :| 0 <= j < count && !Accepts(verdict, count)[j];
    assert results[start + j] == VerdictResult(verdict, j);
  }

  function Blank(count: nat): (results: seq<WriteResult>)
    ensures |results| == count
    ensures forall i | 0 <= i < count :: results[i] == BLANK
  {
    seq(count, _ => BLANK)
  }

  function FailAll(count: nat, error: Error): (results: seq<WriteResult>)
    ensures |results| == count
    ensures forall i | 0 <= i < count :: results[i] == WriteResult(WriteNotAttempted, Some(error))
  {
    seq(count, _ => WriteResult(WriteNotAttempted, Some(error)))
  }

  /** A planning error lands on every item that has none yet. */
  function FillErrors(results: seq<WriteResult>, error: Error): seq<WriteResult> {
    seq(|results|, i requires 0 <= i < |results| =>
          if results[i].error.None? then results[i].(error := Some(error)) else results[i])
  }

  lemma {:induction false} BlankSettled(count: nat)
    ensures Settled(Blank(count), 0) && NoLocalError(Blank(count))
  {
  }

  lemma {:induction false} NothingSent(client: Client, wires: seq<DataItem>, items: seq<WriteItem>, results: seq<WriteResult>, pdu: nat)
    requires AllWritable(items) && |wires| == |items| == |results|
    ensures Sent(client.link.departed, client.link.departed, client.reference, wires, [0])
    ensures GroupsFit([0], WriteFit(wires, pdu)) && Maximal([0], |wires|, WriteFit(wires, pdu))
    ensures forall single ::
      Posted(wires, pdu, single, client.link.departed, client.reference, client.link.departed, client.reference, [0])
    ensures WroteTruth(items, client.link.server.memory, client.link.server.memory, results, [], [0], 0, client.link.script, client.link.turn)
  {
  }

  /** The batch loop of a write, after the preflight. */
  method WriteLoop(client: Client, wires: seq<DataItem>, pdu: nat, stopAfterFailure: bool, ghost items: seq<WriteItem>)
    returns (results: seq<WriteResult>, end: Option<Error>, ghost fate: Fate, ghost cuts: seq<nat>, ghost applied: seq<bool>)
    requires client.Valid() && client.limits.pdu == pdu && SessionPdu(pdu)
    requires AllWritable(items) && wires == WireWrites(items)
    requires forall i | 0 <= i < |wires| :: GroupFits([wires[i]], pdu)
    modifies client`state, client`connected, client`limitsValid, client`reference
    modifies client.link`turn, client.link`uplink, client.link`inbox, client.link`departed, client.link.server
    ensures client.Valid() && client.NoLonger(old(client.state))
    ensures |results| == |items| && Shape(results, fate.answered, fate.doubtful) && NoLocalError(results)
    ensures end.Some? ==> !LocalError(end.value)
    ensures end.None? ==> fate == Fate(|items|, 0)
    ensures end.Some? && items != [] ==> SomethingFailed(results, end)
    ensures EndReported(results, fate.answered, end)
    ensures fate.doubtful > 0 ==> client.state != StateReady
    ensures Accounted(client.link.script, old(client.link.turn), client.link.turn, old(client.state), client.state, end)
    ensures cuts != [] && (end.None? ==> client.link.turn == old(client.link.turn) + |cuts| - 1)
    ensures Sent(client.link.departed, old(client.link.departed), old(client.reference), wires, cuts)
    ensures cuts[|cuts| - 1] == fate.answered + fate.doubtful
    ensures GroupsFit(cuts, WriteFit(wires, pdu)) && (!stopAfterFailure ==> Maximal(cuts, |wires|, WriteFit(wires, pdu)))
    ensures old(Trusted(client)) ==>
      && client.Quiet()
      && |applied| == |items|
      && client.link.server.memory == ApplyGroup(old(client.link.server.memory), items, 0, applied)
      && MarksAgree(results, 0, applied)
      && OutcomesAreVerdicts(results, cuts, fate.answered, client.link.script, old(client.link.turn))
    ensures old(Trusted(client)) && CalmScript(client.link.script) && !Refusing(client.link.script)
            && old(client.state) == StateReady ==>
      client.state == StateReady && fate.doubtful == 0
      && (end.Some? ==> stopAfterFailure && exists i :: 0 <= i < |results| && results[i].outcome == WriteRejected)
  {
    hide Writable, WireWrite, ApplyGroup, IsWriteRequest, LimitsOk, GroupFits, S7DataItems, DirectWrite, Calm, CalmScript, HonestScript,
         Refusing, NoLocalError, Settled, SamePrefix, MarksAgree, Sent, GroupsFit, Maximal, OutcomesAreVerdicts, AnsweredBy,
         ReferenceAfter, IsCut, Shape, AllWritable, WireWrites, Accepts, SomethingFailed, OneWritten, Posted, WroteTruth, EndReported, Accounted;
    results := Blank(|wires|);
    end, fate, cuts, applied := None, Fate(0, 0), [0], [];
    ghost var trusted, memory := Trusted(client), client.link.server.memory;
    ghost var script, turn, state := client.link.script, client.link.turn, client.state;
    ghost var departed, reference := client.link.departed, client.reference;
    NothingSent(client, wires, items, results, pdu);
    BlankSettled(|wires|);
    AccountedNothing(script, turn, state);
    var next := 0;
    while next < |wires|
      invariant client.Valid() && client.NoLonger(state) && client.limits.pdu == pdu
      invariant next <= |wires| && |results| == |items| && Settled(results, next) && NoLocalError(results)
      invariant end.None? && fate == Fate(next, 0) && |applied| == next
      invariant Accounted(script, turn, client.link.turn, state, client.state, None)
      invariant cuts != [] && cuts[|cuts| - 1] == next && client.link.turn == turn + |cuts| - 1
      invariant Posted(wires, pdu, stopAfterFailure, departed, reference, client.link.departed, client.reference, cuts)
      invariant trusted ==>
        client.Quiet() && WroteTruth(items, memory, client.link.server.memory, results, applied, cuts, next, script, turn)
      invariant trusted && CalmScript(script) && !Refusing(script) && state == StateReady ==> client.state == StateReady
    {
      var batch, following := NextWriteBatch(wires, next, pdu, stopAfterFailure);
      if batch.Err? {
        results, end := FillErrors(results, ErrorOf(batch)), Some(ErrorOf(batch));
        return;
      }
      ScriptAt(script, client.link.turn);
      ghost var before, sentBefore, usedBefore := results, client.link.departed, client.reference;
      ghost var sent, marks;
      ghost var earlier, memoryBefore := cuts, client.link.server.memory;
      ghost var middle, between := client.link.turn, client.state;
      results, end, fate, sent, marks := WriteTurn(client, batch.value, results, next, stopAfterFailure, items);
      AccountedOn(script, turn, middle, client.link.turn, state, between, client.state, end);
      cuts := if sent then cuts + [following] else cuts;
      PostedOneMore(wires, pdu, stopAfterFailure, departed, reference, sentBefore, usedBefore, earlier, client.link.departed,
                    client.reference, following, sent);
      if trusted {
        TruthGoesOn(items, memory, memoryBefore, client.link.server.memory, before, results, applied, marks, earlier, next, following,
                    fate.answered, sent, script, turn);
      }
      applied := applied + marks;
      if end.Some? {
        if trusted {
          TruthAtEnd(items, memory, client.link.server.memory, results, applied, cuts, fate, script, turn);
          if CalmScript(script) && !Refusing(script) && state == StateReady {
            RejectedSomewhere(results, next, |batch.value|, script(turn + |earlier| - 1).verdict);
          }
        }
        applied := applied + NoMarks(|items| - |applied|);
        return;
      }
      next := following;
    }
    PostedSent(wires, pdu, stopAfterFailure, departed, reference, client.link.departed, client.reference, cuts);
    SettledShape(results);
    if trusted {
      TruthAtEnd(items, memory, client.link.server.memory, results, applied, cuts, fate, script, turn);
    }
  }

  // -------------------------------------------------- the loop, without a heap

  /** What has been sent so far, with the next reference to use. */
  ghost predicate Posted(wires: seq<DataItem>, pdu: nat, single: bool, before: seq<seq<Byte>>, reference: U16,
                         departed: seq<seq<Byte>>, used: U16, cuts: seq<nat>) {
    && Sent(departed, before, reference, wires, cuts)
    && used == ReferenceAfter(reference, |cuts| - 1)
    && GroupsFit(cuts, WriteFit(wires, pdu))
    && (!single ==> Maximal(cuts, |wires|, WriteFit(wires, pdu)))
  }

  lemma {:induction false} PostedSent(wires: seq<DataItem>, pdu: nat, single: bool, before: seq<seq<Byte>>, reference: U16,
                                      departed: seq<seq<Byte>>, used: U16, cuts: seq<nat>)
    requires Posted(wires, pdu, single, before, reference, departed, used, cuts)
    ensures Sent(departed, before, reference, wires, cuts)
    ensures GroupsFit(cuts, WriteFit(wires, pdu)) && (!single ==> Maximal(cuts, |wires|, WriteFit(wires, pdu)))
  {
    hide Sent, GroupsFit, Maximal, ReferenceAfter;
  }

  lemma {:induction false} PostedOneMore(wires: seq<DataItem>, pdu: nat, single: bool, before: seq<seq<Byte>>, reference: U16,
                                         departed: seq<seq<Byte>>, used: U16, cuts: seq<nat>,
                                         after: seq<seq<Byte>>, now: U16, next: nat, sent: bool)
    requires Posted(wires, pdu, single, before, reference, departed, used, cuts)
    requires cuts != [] && cuts[|cuts| - 1] < next <= |wires| && GroupFits(wires[cuts[|cuts| - 1]..next], pdu)
    requires !single && next < |wires| ==> !GroupFits(wires[cuts[|cuts| - 1]..next + 1], pdu)
    requires OneWritten(departed, after, used, now, wires[cuts[|cuts| - 1]..next], sent)
    ensures sent ==> Posted(wires, pdu, single, before, reference, after, now, cuts + [next])
    ensures IsCut(cuts, cuts[|cuts| - 1])
    ensures
      var now := if sent then cuts + [next] else cuts;
      && Sent(after, before, reference, wires, now)
      && GroupsFit(now, WriteFit(wires, pdu)) && (!single ==> Maximal(now, |wires|, WriteFit(wires, pdu)))
  {
    hide Sent, GroupsFit, Maximal, IsCut, GroupFits, IsWriteRequest, ReferenceAfter;
    SentIsCut(departed, before, reference, wires, cuts);
    if sent {
      ReferenceStep(reference, |cuts| - 1);
      SentOneMore(departed, before, reference, wires, cuts, after, next);
      CutGoesOn(cuts, next, |wires|, WriteFit(wires, pdu));
    } else {
      assert after == departed;
    }
  }

  lemma {:induction false} SentIsCut(departed: seq<seq<Byte>>, before: seq<seq<Byte>>, reference: U16, wires: seq<DataItem>, cuts: seq<nat>)
    requires Sent(departed, before, reference, wires, cuts)
    ensures cuts != [] && IsCut(cuts, cuts[|cuts| - 1])
  {
  }

  /** On a trusted connection: memory holds exactly the marked items, applied in order; the
      outcomes agree with the marks and with the verdicts. */
  ghost predicate WroteTruth(items: seq<WriteItem>, before: Memory, memory: Memory, results: seq<WriteResult>, applied: seq<bool>,
                             cuts: seq<nat>, answered: nat, script: Script, turn: nat)
    requires AllWritable(items)
  {
    && |applied| <= |items|
    && memory == ApplyGroup(before, items, 0, applied)
    && MarksAgree(results, 0, applied)
    && OutcomesAreVerdicts(results, cuts, answered, script, turn)
  }

  lemma {:induction false} TruthGoesOn(items: seq<WriteItem>, origin: Memory, memory: Memory, now: Memory,
                                       before: seq<WriteResult>, results: seq<WriteResult>, applied: seq<bool>, marks: seq<bool>,
                                       cuts: seq<nat>, start: nat, next: nat, answered: nat, sent: bool, script: Script, turn: nat)
    requires AllWritable(items) && WroteTruth(items, origin, memory, before, applied, cuts, start, script, turn)
    requires |applied| == start < next <= |items| && |marks| == next - start
    requires cuts != [] && cuts[|cuts| - 1] == start && IsCut(cuts, start)
    requires now == ApplyGroup(memory, items, start, marks)
    requires SamePrefix(before, results, start) && MarksAgree(results, start, marks)
    requires (answered == start || answered == next) && (answered == next ==> sent)
    requires answered == next ==> AnsweredBy(results, start, next - start, script(turn + |cuts| - 1).verdict)
    ensures WroteTruth(items, origin, now, results, applied + marks, if sent then cuts + [next] else cuts, answered, script, turn)
  {
    hide ApplyGroup, MarksAgree, OutcomesAreVerdicts, AnsweredBy, SamePrefix, IsCut, Writable;
    MarksOneMore(before, results, applied, marks);
    GroupAfterGroup(origin, items, applied, marks);
    OutcomesOneMore(before, results, cuts, start, next, answered, script, turn);
  }

  lemma {:induction false} TruthAtEnd(items: seq<WriteItem>, origin: Memory, memory: Memory, results: seq<WriteResult>,
                                      applied: seq<bool>, cuts: seq<nat>, fate: Fate, script: Script, turn: nat)
    requires AllWritable(items) && |results| == |items|
    requires WroteTruth(items, origin, memory, results, applied, cuts, fate.answered, script, turn)
    requires Shape(results, fate.answered, fate.doubtful) && |applied| >= fate.answered + fate.doubtful
    ensures
      var marks := applied + NoMarks(|items| - |applied|);
      && |marks| == |items|
      && memory == ApplyGroup(origin, items, 0, marks)
      && MarksAgree(results, 0, marks)
      && OutcomesAreVerdicts(results, cuts, fate.answered, script, turn)
    ensures |applied| == |items| ==> applied + NoMarks(0) == applied
  {
    hide ApplyGroup, MarksAgree, OutcomesAreVerdicts, Writable;
    MarksToTheEnd(results, applied, fate, origin, items);
    assert |applied| == |items| ==> applied + NoMarks(|items| - |applied|) == applied;
  }

  // ------------------------------------------------------- whole operations

  ghost predicate OnlyLimitsAreLocal(results: seq<WriteResult>) {
    forall i | 0 <= i < |results| :: results[i].error.Some? && LocalError(results[i].error.value) ==> results[i].error.value.kind == Limit
  }

  /** Each item fits a request of its own. */
  predicate EachFits(wires: seq<DataItem>, pdu: nat) {
    forall i | 0 <= i < |wires| :: GroupFits([wires[i]], pdu)
  }

  /** The preflight: every item is checked against the session before the first is sent. */
  method Preflight(wires: seq<DataItem>, pdu: nat) returns (ok: bool)
    ensures ok <==> EachFits(wires, pdu)
  {
    hide BlocksSize;
    for index := 0 to |wires|
      invariant EachFits(wires[..index], pdu)
    {
      var size := ComputeWriteRequestSize([wires[index]]);
      if size > pdu || WriteResponseSize(1) > pdu {
        assert !GroupFits([wires[index]], pdu);
        return false;
      }
      assert wires[..index + 1] == wires[..index] + [wires[index]];
    }
    assert wires[..|wires|] == wires;
    return true;
  }

  /** The checks before the first exchange. */
  method CheckWrite(client: Client, items: seq<WriteItem>) returns (wires: seq<DataItem>, pdu: nat, refusal: Option<Error>)
    requires client.Valid() && AllWritable(items)
    ensures refusal.None? <==>
      && client.state == StateReady && !client.link.script(client.link.turn).canceledEarly
      && EachFits(WireWrites(items), client.limits.pdu)
    ensures refusal.None? ==> pdu == client.limits.pdu && SessionPdu(pdu) && wires == WireWrites(items)
    ensures refusal.Some? && LocalError(refusal.value) ==>
      refusal.value.kind == Limit && client.state == StateReady && !EachFits(WireWrites(items), client.limits.pdu)
    ensures
      var event := client.link.script(client.link.turn);
      if client.state != StateReady then
        refusal == Some(Error(if Over(client.state) then ErrorKind.Closed else ErrorKind.NotConnected, 0, 0, Unchanged))
      else if event.canceledEarly then refusal.Some? && Reports(refusal.value, event.cause, Unchanged)
      else refusal.Some? ==> refusal == Some(Error(ErrorKind.Limit, 0, 0, Unchanged))
  {
    hide Writable, WireWrite, GroupFits;
    wires := [];
    var ready := client.ReadyPdu();
    if ready.Err? {
      return [], 0, Some(ready.error);
    }
    pdu := ready.value;
    PduSmall(client);
    var event := client.link.script(client.link.turn);
    if event.canceledEarly {
      return [], pdu, Some(CauseError(event.cause, Unchanged));
    }
    var encoded := EncodeWrites(items);
    if encoded.Err? {
      return [], pdu, Some(InvariantError());
    }
    wires := encoded.value;
    var fitting := Preflight(wires, pdu);
    return wires, pdu, if fitting then None else Some(LimitError());
  }

  method WriteLocked(client: Client, items: seq<WriteItem>, stopAfterFailure: bool)
    returns (results: seq<WriteResult>, end: Option<Error>, ghost fate: Fate, ghost cuts: seq<nat>, ghost applied: seq<bool>)
    requires client.Valid() && AllWritable(items)
    modifies client`state, client`connected, client`limitsValid, client`reference
    modifies client.link`turn, client.link`uplink, client.link`inbox, client.link`departed, client.link.server
    ensures client.Valid() && client.NoLonger(old(client.state))
    ensures |results| == |items| && Shape(results, fate.answered, fate.doubtful) && OnlyLimitsAreLocal(results)
    ensures end.Some? && LocalError(end.value) ==>
      end.value.kind == Limit && cuts == [0] && old(client.state) == StateReady && !EachFits(WireWrites(items), client.limits.pdu)
    ensures end.None? ==> fate == Fate(|items|, 0)
    ensures end.Some? && items != [] ==> SomethingFailed(results, end)
    ensures EndReported(results, fate.answered, end)
    ensures fate.doubtful > 0 ==> client.state != StateReady
    ensures Accounted(client.link.script, old(client.link.turn), client.link.turn, old(client.state), client.state, end)
    ensures cuts != [] && (end.None? ==> client.link.turn == old(client.link.turn) + |cuts| - 1)
    ensures Sent(client.link.departed, old(client.link.departed), old(client.reference), WireWrites(items), cuts)
    ensures cuts[|cuts| - 1] == fate.answered + fate.doubtful
    ensures GroupsFit(cuts, WriteFit(WireWrites(items), client.limits.pdu))
    ensures !stopAfterFailure ==> Maximal(cuts, |items|, WriteFit(WireWrites(items), client.limits.pdu))
    ensures old(Trusted(client)) ==>
      && client.Quiet()
      && |applied| == |items|
      && client.link.server.memory == ApplyGroup(old(client.link.server.memory), items, 0, applied)
      && MarksAgree(results, 0, applied)
      && OutcomesAreVerdicts(results, cuts, fate.answered, client.link.script, old(client.link.turn))
    ensures old(Trusted(client)) && CalmScript(client.link.script) && !Refusing(client.link.script)
            && old(client.state) == StateReady && EachFits(WireWrites(items), client.limits.pdu) ==>
      client.state == StateReady && fate.doubtful == 0
      && (end.Some? ==> stopAfterFailure && exists i :: 0 <= i < |results| && results[i].outcome == WriteRejected)
  {
    hide Writable, WireWrite, ApplyGroup, LimitsOk, GroupFits, CalmScript, HonestScript, Refusing, MarksAgree, Sent, GroupsFit,
         Maximal, OutcomesAreVerdicts, ReferenceAfter, IsCut;
    ScriptAt(client.link.script, client.link.turn);
    var wires, pdu, refusal := CheckWrite(client, items);
    if refusal.Some? {
      results, fate, cuts, applied := FailAll(|items|, refusal.value), Fate(0, 0), [0], NoMarks(|items|);
      NothingSent(client, WireWrites(items), items, results, client.limits.pdu);
      TruthAtEnd(items, client.link.server.memory, client.link.server.memory, results, [], [0], fate, client.link.script,
                 client.link.turn);
      assert [] + NoMarks(|items|) == NoMarks(|items|);
      assert items != [] ==> results[0].outcome != WriteAcknowledged && results[0].error == refusal;
      return results, refusal, fate, cuts, applied;
    }
    results, end, fate, cuts, applied := WriteLoop(client, wires, pdu, stopAfterFailure, items);
  }

  // --------------------------------------------------------- the public calls

  function TotalData(items: seq<WriteItem>, count: nat): nat
    requires count <= |items|
  {
    if count == 0 then 0 else TotalData(items, count - 1) + |items[count - 1].data|
  }

  lemma {:induction false} TotalDataGrows(items: seq<WriteItem>, low: nat, high: nat)
    requires low <= high <= |items|
    ensures TotalData(items, low) <= TotalData(items, high)
  {
    if low < high {
      TotalDataGrows(items, low, high - 1);
    }
  }

  /** The batches a configuration admits. */
  predicate AdmissibleWrites(config: Config, input: seq<WriteItem>) {
    && 1 <= |input| <= config.maxItemsPerCall
    && (forall i | 0 <= i < |input| :: ValidateWriteItem(input[i], config.maxItemBytes).Ok?)
    && TotalData(input, |input|) <= config.maxBatchBytes
  }

  lemma {:induction false} WriteLimitTightens(item: WriteItem, maxItemBytes: nat)
    requires maxItemBytes <= MAX_INT && ValidateWriteItem(item, maxItemBytes).Ok?
    ensures Writable(item) && ValidateWriteItem(item, maxItemBytes).value == |item.data|
  {
    hide ValidateReadItem;
    WriteItemAccepted(item, maxItemBytes);
    LimitOnlyTightens(WriteAddress(item), maxItemBytes);
    WriteItemAccepted(item, MAX_INT);
  }

  lemma {:induction false} WriteValidationErrors(item: WriteItem, maxItemBytes: nat)
    requires ValidateWriteItem(item, maxItemBytes).Err?
    ensures ValidateWriteItem(item, maxItemBytes).error in {InvalidError(), LimitError()}
  {
  }

  /** The error a batch is refused with: about its size, or about its first bad item. */
  ghost predicate RefusedWrites(config: Config, input: seq<WriteItem>, error: Error) {
    if input == [] then error == Error(ErrorKind.InvalidArgument, 0, 0, Unchanged)
    else if |input| > config.maxItemsPerCall then error == Error(ErrorKind.Limit, 0, 0, Unchanged)
    else exists index :: 0 <= index < |input| && RefusedWriteAt(config, input, index, error)
  }

  ghost predicate RefusedWriteAt(config: Config, input: seq<WriteItem>, index: nat, error: Error)
    requires index < |input|
  {
    && (forall i | 0 <= i < index :: ValidateWriteItem(input[i], config.maxItemBytes).Ok?)
    && TotalData(input, index) <= config.maxBatchBytes
    && match ValidateWriteItem(input[index], config.maxItemBytes)
       case Err(refusal) => error == refusal
       case Ok(_) => TotalData(input, index + 1) > config.maxBatchBytes && error == Error(ErrorKind.Limit, 0, 0, Unchanged)
  }

  method PrepareWrites(config: Config, input: seq<WriteItem>) returns (r: Result<seq<WriteItem>>)
    requires ValidConfig(config)
    ensures r.Ok? <==> AdmissibleWrites(config, input)
    ensures r.Ok? ==> AllWritable(input) && r.value == input
    ensures r.Err? ==> r.error in {InvalidError(), LimitError()} && RefusedWrites(config, input, r.error)
  {
    hide ValidateWriteItem;
    if |input| == 0 {
      return Err(InvalidError());
    }
    if |input| > config.maxItemsPerCall {
      return Err(LimitError());
    }
    var total := 0;
    for index := 0 to |input|
      invariant total == TotalData(input, index) <= config.maxBatchBytes
      invariant forall i | 0 <= i < index :: ValidateWriteItem(input[i], config.maxItemBytes).Ok? && Writable(input[i])
    {
      var length := ValidateWriteItem(input[index], config.maxItemBytes);
      if length.Err? {
        WriteValidationErrors(input[index], config.maxItemBytes);
        assert RefusedWriteAt(config, input, index, length.error);
        return Err(length.error);
      }
      WriteLimitTightens(input[index], config.maxItemBytes);
      total := total + length.value;
      if total > config.maxBatchBytes {
        TotalDataGrows(input, index + 1, |input|);
        assert RefusedWriteAt(config, input, index, LimitError());
        return Err(LimitError());
      }
    }
    return Ok(input);
  }

  /** Write. `entry` is why the context was already done at the call, if it was: then there
      are no results at all. `queue` is why waiting for the gate ended without it, if it
      did: a context done or a client closed meanwhile. */
  method Write(client: Client, input: seq<WriteItem>, entry: Option<Cause>, queue: Option<Cause>)
    returns (results: seq<WriteResult>, end: Option<Error>, ghost fate: Fate, ghost cuts: seq<nat>, ghost applied: seq<bool>)
    requires client.Valid()
    modifies client`state, client`connected, client`limitsValid, client`reference
    modifies client.link`turn, client.link`uplink, client.link`inbox, client.link`departed, client.link.server
    ensures client.Valid() && client.NoLonger(old(client.state))
    ensures |results| == if entry.Some? || |input| > client.config.maxItemsPerCall then 0 else |input|
    ensures Accounted(client.link.script, old(client.link.turn), client.link.turn, old(client.state), client.state, end)
    ensures Shape(results, fate.answered, fate.doubtful)
    ensures !AdmissibleWrites(client.config, input) || entry.Some? || queue.Some? ==>
      && end.Some? && fate == Fate(0, 0)
      && (if entry.Some? then Reports(end.value, entry.value, Unchanged)
          else if !AdmissibleWrites(client.config, input) then RefusedWrites(client.config, input, end.value)
          else Reports(end.value, queue.value, Unchanged))
      && (forall i | 0 <= i < |results| :: results[i] == WriteResult(WriteNotAttempted, end))
      && client.link.departed == old(client.link.departed) && client.state == old(client.state)
      && client.link.server.memory == old(client.link.server.memory)
    ensures entry.None? && queue.None? && AdmissibleWrites(client.config, input) ==>
      && AllWritable(input)
      && OnlyLimitsAreLocal(results) && (end.Some? && LocalError(end.value) ==> end.value.kind == Limit && cuts == [0])
      && (if end.None? then fate == Fate(|input|, 0) else SomethingFailed(results, end)) && EndReported(results, fate.answered, end)
      && Sent(client.link.departed, old(client.link.departed), old(client.reference), WireWrites(input), cuts)
      && cuts[|cuts| - 1] == fate.answered + fate.doubtful
      && GroupsFit(cuts, WriteFit(WireWrites(input), client.limits.pdu))
      && Maximal(cuts, |input|, WriteFit(WireWrites(input), client.limits.pdu))
      && (old(Trusted(client)) ==>
           && |applied| == |input|
           && client.link.server.memory == ApplyGroup(old(client.link.server.memory), input, 0, applied)
           && MarksAgree(results, 0, applied)
           && OutcomesAreVerdicts(results, cuts, fate.answered, client.link.script, old(client.link.turn)))
      && (old(Trusted(client)) && CalmScript(client.link.script) && !Refusing(client.link.script)
          && old(client.state) == StateReady && EachFits(WireWrites(input), client.limits.pdu) ==>
           end.None? && client.state == StateReady)
    ensures old(Trusted(client)) ==> client.Quiet()
  {
    hide Writable, WireWrite, ApplyGroup, LimitsOk, GroupFits, CalmScript, HonestScript, Refusing, MarksAgree, Sent, GroupsFit,
         Maximal, OutcomesAreVerdicts, ReferenceAfter, IsCut, EachFits, AdmissibleWrites, ValidConfig;
    fate, cuts, applied := Fate(0, 0), [0], [];
    if entry.Some? {
      return [], Some(CauseError(entry.value, Unchanged)), fate, cuts, applied;
    }
    var prepared := PrepareWrites(client.config, input);
    if prepared.Err? {
      if |input| > client.config.maxItemsPerCall {
        return [], Some(prepared.error), fate, cuts, applied;
      }
      return FailAll(|input|, prepared.error), Some(prepared.error), fate, cuts, applied;
    }
    AdmissibleCount(client.config, input);
    if queue.Some? {
      var failure := CauseError(queue.value, Unchanged);
      return FailAll(|input|, failure), Some(failure), fate, cuts, applied;
    }
    results, end, fate, cuts, applied := WriteLocked(client, prepared.value, false);
  }

  lemma {:induction false} AdmissibleCount(config: Config, input: seq<WriteItem>)
    requires AdmissibleWrites(config, input)
    ensures input != [] && |input| <= config.maxItemsPerCall
  {
  }

  /** The items applied one by one in input order, by a client that sends each alone. */
  function SequentialWrites(memory: Memory, items: seq<WriteItem>, count: nat): Memory
    requires AllWritable(items) && count <= |items|
  {
    if count == 0 then memory else DirectWrite(SequentialWrites(memory, items, count - 1), items[count - 1])
  }

  lemma {:induction false} AllMarked(memory: Memory, items: seq<WriteItem>, marks: seq<bool>)
    requires AllWritable(items) && |marks| <= |items| && forall j | 0 <= j < |marks| :: marks[j]
    ensures ApplyGroup(memory, items, 0, marks) == SequentialWrites(memory, items, |marks|)
  {
    hide DirectWrite, Writable;
    if marks != [] {
      AllMarked(memory, items, marks[..|marks| - 1]);
    }
  }

  /** A batched write that nothing was rejected in leaves the memory of sequential writes,
      overlapping items and neighbouring bits included. */
  lemma {:induction false} WriteRefinesSequence(results: seq<WriteResult>, applied: seq<bool>, items: seq<WriteItem>, memory: Memory)
    requires AllWritable(items) && |results| == |applied| == |items|
    requires Shape(results, |items|, 0) && MarksAgree(results, 0, applied)
    requires forall i | 0 <= i < |results| :: results[i].outcome != WriteRejected
    ensures ApplyGroup(memory, items, 0, applied) == SequentialWrites(memory, items, |items|)
  {
    hide ApplyGroup, SequentialWrites, Writable;
    assert forall j | 0 <= j < |applied| :: results[0 + j].outcome == WriteAcknowledged && applied[j];
    AllMarked(memory, items, applied);
  }

  /** A write that is not cut short sends no more requests than any way of splitting its
      items into consecutive groups that fit. */
  lemma {:induction false} FewestRequests(departed: seq<seq<Byte>>, before: seq<seq<Byte>>, reference: U16, wires: seq<DataItem>,
                                          cuts: seq<nat>, other: seq<nat>, pdu: nat)
    requires Sent(departed, before, reference, wires, cuts) && cuts[|cuts| - 1] == |wires|
    requires Maximal(cuts, |wires|, WriteFit(wires, pdu))
    requires IsCut(other, |wires|) && GroupsFit(other, WriteFit(wires, pdu))
    ensures |departed| - |before| <= |other| - 1
  {
    hide Maximal, GroupsFit;
    WriteBatchesOptimal(wires, pdu, cuts, other);
  }

  // ------------------------------------------------------------ WriteArea

  function ChunkItem(area: Area, dbNumber: U16, start: U32, data: seq<Byte>): WriteItem
    requires |data| <= MAX_U32
  {
    WriteItem(Address(area, dbNumber, start, 0), TransportByte, |data|, data)
  }

  /** The largest chunk: what one request carries, a length field expresses, and the
      configuration allows. */
  function MaxChunk(config: Config, pdu: nat): int {
    Min(Min(pdu - 28, 8191), config.maxItemBytes)
  }

  /** A chunk size is possible exactly when the configuration admits an item of that many
      bytes, its bit count fits the length field, and it fits a request of its own. */
  lemma {:induction false} ChunkIsLargest(config: Config, pdu: nat, length: nat, wire: DataItem)
    requires ValidConfig(config) && SessionPdu(pdu) && 1 <= length == |wire.data|
    ensures length <= MaxChunk(config, pdu) <==>
      length <= config.maxItemBytes && 8 * length <= 0xFFFF && GroupFits([wire], pdu)
  {
    assert WriteLengths([wire]) == [length];
    BlocksSizeFront([length]);
  }

  lemma {:induction false} AreaFacts(config: Config, item: ReadItem, offset: nat, length: nat)
    requires ValidConfig(config) && item.transport == TransportByte && item.address.bit == 0
    requires ValidateReadItem(item, config.maxBatchBytes).Ok? && offset + length <= item.count && 1 <= length
    ensures item.address.area != UnknownArea && !IndexedArea(item.address.area)
    ensures (item.address.offset + offset + length - 1) * 8 <= MAX_WIRE_ADDRESS
    ensures ValidateArea(item.address, TransportByte).Pass?
    ensures item.count <= config.maxBatchBytes
  {
    ReadItemAccepted(item, config.maxBatchBytes);
  }

  /** Once the whole range has been validated, no chunk of it can fail validation. */
  lemma {:induction false} ChunkAdmissible(config: Config, pdu: nat, item: ReadItem, offset: nat, data: seq<Byte>)
    requires ValidConfig(config) && SessionPdu(pdu) && item.transport == TransportByte && item.address.bit == 0
    requires ValidateReadItem(item, config.maxBatchBytes).Ok?
    requires 1 <= |data| <= MaxChunk(config, pdu) && offset + |data| <= item.count
    ensures item.address.offset + offset < U32_SPAN
    ensures
      var chunk := ChunkItem(item.address.area, item.address.dbNumber, item.address.offset + offset, data);
      AdmissibleWrites(config, [chunk]) && Writable(chunk)
  {
    hide ValidateReadItem;
    AreaFacts(config, item, offset, |data|);
    var chunk := ChunkItem(item.address.area, item.address.dbNumber, item.address.offset + offset, data);
    var read := WriteAddress(chunk);
    ChunkReadable(read, config.maxItemBytes);
    WriteItemAccepted(chunk, config.maxItemBytes);
    WriteLimitTightens(chunk, config.maxItemBytes);
    assert TotalData([chunk], 1) == TotalData([chunk], 0) + |data|;
  }

  lemma {:induction false} ChunkReadable(item: ReadItem, maxItemBytes: nat)
    requires item.transport == TransportByte && item.address.bit == 0 && 1 <= item.count <= maxItemBytes <= MAX_INT
    requires ValidateArea(item.address, TransportByte).Pass? && !IndexedArea(item.address.area)
    requires (item.address.offset + item.count - 1) * 8 <= MAX_WIRE_ADDRESS
    ensures ValidateReadItem(item, maxItemBytes).Ok?
  {
  }

  lemma {:induction false} ChunkFits(config: Config, pdu: nat, chunk: WriteItem)
    requires SessionPdu(pdu) && Writable(chunk) && |chunk.data| <= MaxChunk(config, pdu)
    ensures EachFits(WireWrites([chunk]), pdu)
  {
    hide Writable;
    var wire := WireWrites([chunk])[0];
    assert WriteLengths([wire]) == [|chunk.data|];
    assert BlocksSize([|chunk.data|]) == 4 + |chunk.data| by {
      BlocksSizeFront([|chunk.data|]);
    }
  }

  /** A byte chunk is stored at its place. */
  lemma {:induction false} ChunkStores(memory: Memory, chunk: WriteItem, mark: bool)
    requires Writable(chunk) && chunk.transport == TransportByte
    ensures chunk.address.area != UnknownArea
    ensures ApplyGroup(memory, [chunk], 0, [mark]) ==
      if mark then Store(memory, MemoryArea(chunk.address.area), chunk.address.dbNumber, chunk.address.offset, chunk.data)
      else memory
  {
    WriteFacts(chunk);
    ReadableFacts(WriteAddress(chunk));
    assert [mark][..0] == [];
  }

  lemma {:induction false} StoreOn(memory: Memory, area: Byte, db: U16, start: nat, first: seq<Byte>, second: seq<Byte>)
    ensures Store(Store(memory, area, db, start, first), area, db, start + |first|, second)
         == Store(memory, area, db, start, first + second)
    decreases |second|
  {
    if second == [] {
      assert first + second == first;
    } else {
      var front := second[..|second| - 1];
      StoreOn(memory, area, db, start, first, front);
      assert (first + second)[..|first| + |front|] == first + front;
    }
  }

  lemma {:induction false} OneRequest(departed: seq<seq<Byte>>, before: seq<seq<Byte>>, reference: U16, wires: seq<DataItem>, cuts: seq<nat>)
    requires |wires| == 1 && Sent(departed, before, reference, wires, cuts)
    ensures |before| <= |departed| <= |before| + 1
    ensures cuts[|cuts| - 1] == 1 ==> |cuts| == 2 && cuts[0] == 0 && cuts[1] == 1 && |departed| == |before| + 1
  {
    if |cuts| > 2 {
      CutGrows(cuts, cuts[|cuts| - 1], 0, 1);
      CutGrows(cuts, cuts[|cuts| - 1], 1, |cuts| - 1);
    }
  }

  lemma {:induction false} ChunkCount(length: nat, maxChunk: nat, chunks: nat)
    requires maxChunk >= 1 && chunks * maxChunk < length
    ensures chunks + 1 <= (length + maxChunk - 1) / maxChunk
  {
    var q, r := (length + maxChunk - 1) / maxChunk, (length + maxChunk - 1) % maxChunk;
    assert length + maxChunk - 1 == q * maxChunk + r;
    if q <= chunks {
      AtMost(q, chunks, maxChunk);
    }
  }

  /** How many chunks a range takes, and where they end. */
  function ChunksFor(length: nat, maxChunk: nat): nat
    requires maxChunk >= 1
  {
    (length + maxChunk - 1) / maxChunk
  }

  function ChunksEnd(chunks: nat, maxChunk: nat, length: nat): nat {
    if chunks * maxChunk < length then chunks * maxChunk else length
  }

  lemma {:induction false} ChunkStep(chunks: nat, maxChunk: nat, length: nat)
    requires maxChunk >= 1
    ensures ChunksEnd(0, maxChunk, length) == 0
    ensures ChunksEnd(chunks, maxChunk, length) < length ==>
      && chunks + 1 <= ChunksFor(length, maxChunk)
      && ChunksEnd(chunks + 1, maxChunk, length)
         == ChunksEnd(chunks, maxChunk, length) + Min(maxChunk, length - ChunksEnd(chunks, maxChunk, length))
    ensures ChunksEnd(chunks, maxChunk, length) == length && chunks <= ChunksFor(length, maxChunk) ==>
      chunks == ChunksFor(length, maxChunk)
  {
    NextChunk(chunks + 1, maxChunk, length);
    if chunks * maxChunk < length {
      ChunkCount(length, maxChunk, chunks);
    } else if chunks <= ChunksFor(length, maxChunk) {
      AllChunks(chunks, maxChunk, length);
    }
  }

  lemma {:induction false} AtMost(low: nat, high: nat, factor: nat)
    requires low <= high
    ensures low * factor <= high * factor
  {
    assert (high - low) * factor >= 0;
  }

  /** Every verdict accepts everything. */
  ghost predicate Accepting(script: Script) {
    && (forall turn :: script(turn).verdict.Global() == 0)
    && (forall turn, j :: script(turn).verdict.Code(j) == ACCEPTED)
  }

  lemma {:induction false} AnsweredAlone(results: seq<WriteResult>, cuts: seq<nat>, answered: nat, script: Script, turn: nat)
    requires |results| == 1 && OutcomesAreVerdicts(results, cuts, answered, script, turn)
    requires answered == 1 && cuts == [0, 1]
    ensures results[0] == VerdictResult(script(turn).verdict, 0)
    ensures Accepting(script) ==> results[0].outcome == WriteAcknowledged
  {
    assert RoundAnswered(results, cuts, 0, script, turn);
    assert results[0 + 0] == VerdictResult(script(turn + 0).verdict, 0);
    assert Accepting(script) ==> script(turn).verdict.Code(0) == ACCEPTED;
  }

  /** The error of a chunk the controller rejected in its answer to this turn. */
  ghost predicate RejectedChunk(script: Script, turn: nat, end: Option<Error>) {
    end == VerdictResult(script(turn).verdict, 0).error
  }

  /** One chunk: acknowledged and stored, or the error that ends the area write. */
  method WriteChunk(client: Client, chunk: WriteItem) returns (failure: Option<Error>, ghost landed: bool)
    requires client.Valid() && Writable(chunk) && chunk.transport == TransportByte
    requires SessionPdu(client.limits.pdu) && EachFits(WireWrites([chunk]), client.limits.pdu)
    modifies client`state, client`connected, client`limitsValid, client`reference
    modifies client.link`turn, client.link`uplink, client.link`inbox, client.link`departed, client.link.server
    ensures client.Valid() && client.NoLonger(old(client.state))
    ensures |old(client.link.departed)| <= |client.link.departed| <= |old(client.link.departed)| + 1
    ensures failure.None? ==> |client.link.departed| == |old(client.link.departed)| + 1 && client.link.turn == old(client.link.turn) + 1
    ensures failure.Some? ==> !LocalError(failure.value)
    ensures Accounted(client.link.script, old(client.link.turn), client.link.turn, old(client.state), client.state, failure)
    ensures chunk.address.area != UnknownArea
    ensures old(Trusted(client)) && CalmScript(client.link.script) && !Refusing(client.link.script)
            && old(client.state) == StateReady ==>
      && client.state == StateReady && |client.link.departed| == |old(client.link.departed)| + 1
      && (failure.Some? ==> RejectedChunk(client.link.script, old(client.link.turn), failure))
    ensures old(Trusted(client)) ==>
      && client.Quiet()
      && client.link.server.memory ==
           (if landed then Store(old(client.link.server.memory), MemoryArea(chunk.address.area), chunk.address.dbNumber,
                                 chunk.address.offset, chunk.data)
            else old(client.link.server.memory))
      && (failure.None? ==> landed)
      && (failure.Some? && client.state == StateReady ==> !landed)
      && (CalmScript(client.link.script) && Accepting(client.link.script) && old(client.state) == StateReady ==>
           failure.None? && client.state == StateReady)
  {
    hide Writable, WireWrite, ApplyGroup, LimitsOk, GroupFits, CalmScript, HonestScript, Refusing, Sent, GroupsFit,
         Maximal, OutcomesAreVerdicts, ReferenceAfter, IsCut, EachFits, Accepting;
    ghost var memory := client.link.server.memory;
    NotRefusing(client.link.script);
    var results, end;
    ghost var fate, cuts, applied;
    results, end, fate, cuts, applied := WriteLocked(client, [chunk], true);
    landed := |applied| == 1 && applied[0];
    OneRequest(client.link.departed, old(client.link.departed), old(client.reference), WireWrites([chunk]), cuts);
    ChunkStores(memory, chunk, landed);
    if old(Trusted(client)) {
      assert applied == [applied[0]];
      assert results[0] == results[0 + 0];
      if fate.answered == 1 {
        assert cuts == [0, 1];
        AnsweredAlone(results, cuts, fate.answered, client.link.script, old(client.link.turn));
      }
    }
    if |results| != 1 {
      return Some(InvariantError()), landed;
    }
    if results[0].outcome != WriteAcknowledged {
      if end.Some? {
        return end, landed;
      }
      if results[0].error.Some? {
        return results[0].error, landed;
      }
      return Some(InvariantError()), landed;
    }
    return end, landed;
  }

  lemma {:induction false} NotRefusing(script: Script)
    ensures Accepting(script) ==> !Refusing(script)
  {
  }

  /** What WriteArea checks of its range before it touches the session. */
  predicate AdmissibleArea(config: Config, area: Area, dbNumber: U16, start: U32, length: nat) {
    && 1 <= length <= config.maxBatchBytes && length <= MAX_U32
    && ValidateReadItem(ReadItem(Address(area, dbNumber, start, 0), TransportByte, length), config.maxBatchBytes).Ok?
  }

  /** The confirmed prefix is in controller memory; of the rest exactly the one chunk behind
      it or nothing, and the chunk only if the session was given up. */
  ghost predicate PrefixWritten(memory: Memory, before: Memory, area: Area, dbNumber: U16, start: U32, src: seq<Byte>,
                                n: nat, landed: nat, maxChunk: int, usable: bool) {
    && n <= landed <= |src| && (landed == n || landed == n + Min(maxChunk, |src| - n))
    && (usable ==> landed == n)
    && (landed > 0 ==> area != UnknownArea)
    && memory == if landed == 0 then before else Store(before, MemoryArea(area), dbNumber, start, src[..landed])
  }

  /** The chunk loop: every chunk is prepared and written on its own. */
  method WriteChunks(client: Client, whole: ReadItem, src: seq<Byte>, pdu: nat)
    returns (n: nat, end: Option<Error>, ghost landed: nat)
    requires client.Valid() && client.state == StateReady && client.limits.pdu == pdu && SessionPdu(pdu)
    requires whole.transport == TransportByte && whole.address.bit == 0 && whole.count == |src| && 1 <= |src| <= MAX_U32
    requires ValidateReadItem(whole, client.config.maxBatchBytes).Ok? && MaxChunk(client.config, pdu) >= 1
    modifies client`state, client`connected, client`limitsValid, client`reference
    modifies client.link`turn, client.link`uplink, client.link`inbox, client.link`departed, client.link.server
    ensures client.Valid() && client.NoLonger(old(client.state))
    ensures n <= |src| && (end.None? <==> n == |src|) && (end.Some? ==> !LocalError(end.value))
    ensures Accounted(client.link.script, old(client.link.turn), client.link.turn, old(client.state), client.state, end)
    ensures
      var maxChunk := MaxChunk(client.config, pdu);
      && |client.link.departed| <= |old(client.link.departed)| + ChunksFor(|src|, maxChunk)
      && (end.None? ==> |client.link.departed| == |old(client.link.departed)| + ChunksFor(|src|, maxChunk))
    ensures old(Trusted(client)) ==>
      && client.Quiet()
      && PrefixWritten(client.link.server.memory, old(client.link.server.memory), whole.address.area, whole.address.dbNumber,
                       whole.address.offset, src, n, landed, MaxChunk(client.config, pdu), client.state == StateReady)
    ensures old(Trusted(client)) && CalmScript(client.link.script) && Accepting(client.link.script) ==> end.None?
    ensures old(Trusted(client)) && CalmScript(client.link.script) && !Refusing(client.link.script) && end.Some? ==>
      && client.state == StateReady && |client.link.departed| > |old(client.link.departed)|
      && RejectedChunk(client.link.script, old(client.link.turn) + |client.link.departed| - |old(client.link.departed)| - 1, end)
  {
    hide LimitsOk, CalmScript, HonestScript, Refusing, ReferenceAfter, EachFits, Accepting, ValidateReadItem, Writable, AdmissibleWrites,
         ValidConfig, Store, PrefixWritten, Accounted, ChunksFor, ChunksEnd, RejectedChunk;
    n, end, landed := 0, None, 0;
    var area, dbNumber, start := whole.address.area, whole.address.dbNumber, whole.address.offset;
    ChunkBounds(client.config, pdu);
    var maxChunk := MaxChunk(client.config, pdu);
    PrefixNothing(client.link.server.memory, area, dbNumber, start, src, maxChunk, true);
    PrefixNothing(client.link.server.memory, area, dbNumber, start, src, maxChunk, false);
    ghost var chunks, trusted, memory := 0, Trusted(client), client.link.server.memory;
    ghost var script, turn, state := client.link.script, client.link.turn, client.state;
    AccountedNothing(script, turn, state);
    ChunkStep(0, maxChunk, |src|);
    var offset := 0;
    while offset < |src|
      invariant client.Valid() && client.NoLonger(old(client.state)) && client.limits.pdu == pdu
      invariant n == offset == landed <= |src|
      invariant Accounted(script, turn, client.link.turn, state, client.state, None)
      invariant offset == ChunksEnd(chunks, maxChunk, |src|) && chunks <= ChunksFor(|src|, maxChunk)
      invariant |client.link.departed| == |old(client.link.departed)| + chunks && client.link.turn == turn + chunks
      invariant trusted && CalmScript(script) && !Refusing(script) ==> client.state == StateReady
      invariant trusted ==>
        && client.Quiet()
        && PrefixWritten(client.link.server.memory, memory, area, dbNumber, start, src, n, n, maxChunk, true)
        && PrefixWritten(client.link.server.memory, memory, area, dbNumber, start, src, n, n, maxChunk, false)
      invariant trusted && CalmScript(client.link.script) && Accepting(client.link.script) && old(client.state) == StateReady ==>
        client.state == StateReady
    {
      var length := Min(maxChunk, |src| - offset);
      var data := src[offset..offset + length];
      ChunkStep(chunks, maxChunk, |src|);
      ChunkAdmissible(client.config, pdu, whole, offset, data);
      var chunk := ChunkItem(area, dbNumber, (start + offset) % U32_SPAN, data);
      ChunkFits(client.config, pdu, chunk);
      var prepared := PrepareWrites(client.config, [chunk]);
      if prepared.Err? {
        end := Some(ErrorOf(prepared));
        return;
      }
      ghost var before, middle, between := client.link.server.memory, client.link.turn, client.state;
      var failure;
      ghost var stored;
      failure, stored := WriteChunk(client, chunk);
      AccountedOn(script, turn, middle, client.link.turn, state, between, client.state, failure);
      if trusted {
        PrefixGrows(before, memory, client.link.server.memory, area, dbNumber, start, src, offset, length, stored,
                    failure.None?, maxChunk, client.state == StateReady);
        if failure.None? {
          PrefixUsable(client.link.server.memory, memory, area, dbNumber, start, src, offset + length, maxChunk,
                       client.state == StateReady);
        }
      }
      if failure.Some? {
        landed := if stored then offset + length else offset;
        return n, failure, landed;
      }
      n := n + length;
      offset, chunks, landed := offset + length, chunks + 1, n;
    }
    ChunkStep(chunks, maxChunk, |src|);
    return n, None, landed;
  }

  lemma {:induction false} AllChunks(chunks: nat, maxChunk: nat, length: nat)
    requires 1 <= maxChunk && chunks * maxChunk >= length && chunks <= (length + maxChunk - 1) / maxChunk
    ensures chunks == (length + maxChunk - 1) / maxChunk
  {
    var q, r := (length + maxChunk - 1) / maxChunk, (length + maxChunk - 1) % maxChunk;
    assert length + maxChunk - 1 == q * maxChunk + r;
    assert (chunks + 1) * maxChunk == chunks * maxChunk + maxChunk;
    if chunks < q {
      AtMost(chunks + 1, q, maxChunk);
    }
  }

  /** The error a range is refused with. */
  ghost predicate RefusedArea(config: Config, area: Area, dbNumber: U16, start: U32, length: nat, error: Error) {
    if length == 0 then error == Error(ErrorKind.InvalidArgument, 0, 0, Unchanged)
    else if length > config.maxBatchBytes || length > 0xFFFF_FFFF then error == Error(ErrorKind.Limit, 0, 0, Unchanged)
    else
      ValidateReadItem(ReadItem(Address(area, dbNumber, start, 0), TransportByte, length), config.maxBatchBytes) == Err(error)
  }

  method WriteArea(client: Client, area: Area, dbNumber: U16, start: U32, src: seq<Byte>, entry: Option<Cause>,
                   queue: Option<Cause>)
    returns (n: nat, end: Option<Error>, ghost landed: nat)
    requires client.Valid()
    modifies client`state, client`connected, client`limitsValid, client`reference
    modifies client.link`turn, client.link`uplink, client.link`inbox, client.link`departed, client.link.server
    ensures client.Valid() && client.NoLonger(old(client.state))
    ensures n <= |src| && (end.None? <==> n == |src| && src != [])
    ensures end.Some? && LocalError(end.value) ==>
      end.value.kind == Limit && client.link.departed == old(client.link.departed)
    ensures entry.Some? || queue.Some? ==> n == 0 && client.link.departed == old(client.link.departed)
    ensures Accounted(client.link.script, old(client.link.turn), client.link.turn, old(client.state), client.state, end)
    ensures entry.Some? ==> end.Some? && Reports(end.value, entry.value, Unchanged)
    ensures entry.None? && !AdmissibleArea(client.config, area, dbNumber, start, |src|) ==>
      end.Some? && RefusedArea(client.config, area, dbNumber, start, |src|, end.value)
    ensures entry.None? && AdmissibleArea(client.config, area, dbNumber, start, |src|) && queue.Some? ==>
      end.Some? && Reports(end.value, queue.value, Unchanged)
    ensures old(Trusted(client)) && CalmScript(client.link.script) && !Refusing(client.link.script) && end.Some?
            && |client.link.departed| > |old(client.link.departed)| ==>
      && client.state == StateReady
      && RejectedChunk(client.link.script, old(client.link.turn) + |client.link.departed| - |old(client.link.departed)| - 1, end)
    ensures |client.link.departed| <= |old(client.link.departed)| + client.config.maxFragmentsPerCall
    ensures end.None? ==>
      && 1 <= MaxChunk(client.config, client.limits.pdu)
      && |client.link.departed| == |old(client.link.departed)|
           + (|src| + MaxChunk(client.config, client.limits.pdu) - 1) / MaxChunk(client.config, client.limits.pdu)
    ensures !AdmissibleArea(client.config, area, dbNumber, start, |src|) ==> client.link.departed == old(client.link.departed)
    ensures old(Trusted(client)) ==>
      && client.Quiet()
      && PrefixWritten(client.link.server.memory, old(client.link.server.memory), area, dbNumber, start, src, n, landed,
                       MaxChunk(client.config, client.limits.pdu), client.state == StateReady)
    ensures old(Trusted(client)) && CalmScript(client.link.script) && Accepting(client.link.script)
            && old(client.state) == StateReady && entry.None? && queue.None?
            && AdmissibleArea(client.config, area, dbNumber, start, |src|)
            && |src| <= client.config.maxFragmentsPerCall * MaxChunk(client.config, client.limits.pdu) ==>
      n == |src|
  {
    hide LimitsOk, CalmScript, HonestScript, Refusing, ReferenceAfter, EachFits, Accepting, ValidateReadItem, Writable, AdmissibleWrites,
         ValidConfig, Store, PrefixWritten, AdmissibleArea, Accounted, RejectedChunk;
    AccountedNothing(client.link.script, client.link.turn, client.state);
    n, landed := 0, 0;
    PrefixNothing(client.link.server.memory, area, dbNumber, start, src, MaxChunk(client.config, client.limits.pdu), true);
    PrefixNothing(client.link.server.memory, area, dbNumber, start, src, MaxChunk(client.config, client.limits.pdu), false);
    AreaAdmitted(client.config, area, dbNumber, start, |src|);
    if entry.Some? {
      return 0, Some(CauseError(entry.value, Unchanged)), 0;
    }
    if |src| == 0 {
      return 0, Some(InvalidError()), 0;
    }
    if |src| > client.config.maxBatchBytes || |src| > MAX_U32 {
      return 0, Some(LimitError()), 0;
    }
    var whole := ReadItem(Address(area, dbNumber, start, 0), TransportByte, |src|);
    var valid := ValidateReadItem(whole, client.config.maxBatchBytes);
    if valid.Err? {
      AreaErrors(whole, client.config.maxBatchBytes);
      return 0, Some(valid.error), 0;
    }
    if queue.Some? {
      return 0, Some(CauseError(queue.value, Unchanged)), 0;
    }
    var ready := client.ReadyPdu();
    if ready.Err? {
      return 0, Some(ready.error), 0;
    }
    var pdu := ready.value;
    PduSmall(client);
    ChunkBounds(client.config, pdu);
    var maxChunk := MaxChunk(client.config, pdu);
    if maxChunk < 1 {
      end := Some(LimitError());
      return;
    }
    var itemCount := (|src| + maxChunk - 1) / maxChunk;
    if itemCount > client.config.maxFragmentsPerCall {
      EnoughChunks(client.config.maxFragmentsPerCall, maxChunk, |src|);
      return 0, Some(LimitError()), 0;
    }
    n, end, landed := WriteChunks(client, whole, src, pdu);
  }

  lemma {:induction false} AreaAdmitted(config: Config, area: Area, dbNumber: U16, start: U32, length: nat)
    ensures AdmissibleArea(config, area, dbNumber, start, length) <==>
      && 1 <= length <= config.maxBatchBytes && length <= MAX_U32
      && ValidateReadItem(ReadItem(Address(area, dbNumber, start, 0), TransportByte, length), config.maxBatchBytes).Ok?
  {
  }

  lemma {:induction false} AreaErrors(item: ReadItem, maxItemBytes: nat)
    requires ValidateReadItem(item, maxItemBytes).Err?
    ensures ValidateReadItem(item, maxItemBytes).error in {InvalidError(), LimitError()}
  {
  }

  lemma {:induction false} ChunkBounds(config: Config, pdu: nat)
    requires ValidConfig(config) && SessionPdu(pdu)
    ensures 1 <= MaxChunk(config, pdu) <= MAX_PDU - 28
  {
  }

  lemma {:induction false} EnoughChunks(fragments: nat, maxChunk: nat, length: nat)
    requires 1 <= maxChunk && (length + maxChunk - 1) / maxChunk > fragments
    ensures length > fragments * maxChunk
  {
    var q, r := (length + maxChunk - 1) / maxChunk, (length + maxChunk - 1) % maxChunk;
    assert length + maxChunk - 1 == q * maxChunk + r;
    AtMost(fragments + 1, q, maxChunk);
    NextChunk(fragments + 1, maxChunk, length);
  }

  lemma {:induction false} NextChunk(chunks: nat, maxChunk: nat, length: nat)
    requires chunks >= 1
    ensures chunks * maxChunk == (chunks - 1) * maxChunk + maxChunk
  {
  }

  lemma {:induction false} PrefixNothing(memory: Memory, area: Area, dbNumber: U16, start: U32, src: seq<Byte>, maxChunk: int, usable: bool)
    ensures PrefixWritten(memory, memory, area, dbNumber, start, src, 0, 0, maxChunk, usable)
  {
  }

  /** One chunk more: confirmed, or landed without confirmation, or not landed. */
  lemma {:induction false} PrefixGrows(memory: Memory, before: Memory, after: Memory, area: Area, dbNumber: U16, start: U32,
                                       src: seq<Byte>, offset: nat, length: nat, stored: bool, confirmed: bool, maxChunk: int, usable: bool)
    requires offset < |src| && 1 <= length == Min(maxChunk, |src| - offset) && area != UnknownArea && start + offset < U32_SPAN
    requires PrefixWritten(memory, before, area, dbNumber, start, src, offset, offset, maxChunk, true)
    requires after == if stored then Store(memory, MemoryArea(area), dbNumber, start + offset, src[offset..offset + length]) else memory
    requires (confirmed ==> stored) && (!confirmed && usable ==> !stored)
    ensures
      var landed := if stored then offset + length else offset;
      PrefixWritten(after, before, area, dbNumber, start, src, if confirmed then landed else offset, landed, maxChunk, usable)
  {
    StoreOn(before, MemoryArea(area), dbNumber, start, src[..offset], src[offset..offset + length]);
    assert src[..offset] + src[offset..offset + length] == src[..offset + length];
    assert src[..0] == [];
  }

  lemma {:induction false} PrefixUsable(memory: Memory, before: Memory, area: Area, dbNumber: U16, start: U32, src: seq<Byte>,
                                        n: nat, maxChunk: int, usable: bool)
    requires PrefixWritten(memory, before, area, dbNumber, start, src, n, n, maxChunk, usable)
    ensures PrefixWritten(memory, before, area, dbNumber, start, src, n, n, maxChunk, true)
    ensures PrefixWritten(memory, before, area, dbNumber, start, src, n, n, maxChunk, false)
  {
  }

  /** What that says byte by byte: the prefix holds the source, everything outside what
      landed is as it was. */
  lemma {:induction false} PrefixByByte(memory: Memory, before: Memory, area: Area, dbNumber: U16, start: U32, src: seq<Byte>,
                                        n: nat, landed: nat, maxChunk: int, usable: bool, key: MemoryKey)
    requires PrefixWritten(memory, before, area, dbNumber, start, src, n, landed, maxChunk, usable) && area != UnknownArea
    ensures
      var inside := key.area == MemoryArea(area) && key.db == dbNumber && start <= key.offset;
      && Peek(memory, key) == (if inside && key.offset < start + landed then src[key.offset - start] else Peek(before, key))
      && (inside && key.offset < start + n ==> Peek(memory, key) == src[key.offset - start])
      && (!inside || (key.offset >= start + n && (usable || key.offset >= start + n + maxChunk)) ==>
           Peek(memory, key) == Peek(before, key))
  {
    StorePeek(before, MemoryArea(area), dbNumber, start, src[..landed], key);
  }
}
