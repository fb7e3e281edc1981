/** The client's requests as the controller understands them: every descriptor and data
    block survives the trip, and the reply is the one the client's parser expects. */
module Dialogue {
  import opened Bytes
  import opened Errors
  import opened Protocol
  import opened Plc

  /** A descriptor both sides read the same way. */
  predicate S7Item(item: Item) {
    && ValidItem(item)
    && FormatOf(item.wordLength).Some?
    && var format := FormatOf(item.wordLength).value;
       && item.responseTransport == format.transport
       && item.dataBytes == item.amount * format.width
       && item.lengthInBits == (format.transport == 0x04)
       && (item.wordLength == 0x01 ==> item.amount == 1)
  }

  predicate S7Items(items: seq<Item>) {
    1 <= |items| <= 255 && forall i | 0 <= i < |items| :: S7Item(items[i])
  }

  predicate S7DataItems(items: seq<DataItem>) {
    && S7Items(Descriptors(items))
    && forall i | 0 <= i < |items| :: |items[i].data| == items[i].item.dataBytes
  }

  function VariableOf(item: Item): VariableItem
    requires EncodedLength(item).Some?
  {
    VariableItem(item.wordLength, item.amount, item.dbNumber, item.area, item.address, item.dataBytes,
                 item.responseTransport, EncodedLength(item).value)
  }

  function VariablesFor(items: seq<Item>): (variables: seq<VariableItem>)
    requires S7Items(items)
    ensures |variables| == |items|
    ensures forall i | 0 <= i < |items| :: variables[i] == VariableOf(items[i])
    ensures forall i | 0 <= i < |items| :: BitIsOne(variables[i])
  {
    seq(|items|, i requires 0 <= i < |items| => VariableOf(items[i]))
  }

  lemma {:induction false} AddressBytes(address: nat)
    requires address <= 0xFF_FFFF
    ensures 0x1_0000 * ((address / 0x1_0000) % 256) + 0x100 * ((address / 0x100) % 256) + address % 256 == address
  {
    assert (address / 0x1_0000) % 256 == address / 0x1_0000;
    assert address / 0x100 / 0x100 == address / 0x1_0000;
  }

  lemma {:induction false} SpecDecodes(item: Item)
    requires S7Item(item)
    ensures DecodeSpec(ItemSpec(item)) == Some(VariableOf(item))
  {
    AddressBytes(item.address);
  }

  lemma {:induction false} SpecsDecode(parameters: seq<Byte>, functionCode: Byte, items: seq<Item>, count: nat)
    requires S7Items(items) && count <= |items| && ParametersFor(parameters, functionCode, items)
    ensures DecodeSpecs(parameters, count) == Some(VariablesFor(items)[..count])
  {
    hide ItemSpec, DecodeSpec, FormatOf;
    if count > 0 {
      SpecsDecode(parameters, functionCode, items, count - 1);
      var at, item := 2 + 12 * (count - 1), items[count - 1];
      assert SpecAt(parameters, at, item);
      SpecDecodes(item);
      assert DecodeSpec(parameters[at..at + 12]) == Some(VariableOf(item));
      assert VariablesFor(items)[..count] == VariablesFor(items)[..count - 1] + [VariablesFor(items)[count - 1]];
    }
  }

  /** Request round trip: the parameter block of a request yields its descriptors. */
  lemma {:induction false} VariablesRecovered(parameters: seq<Byte>, functionCode: Byte, items: seq<Item>)
    requires S7Items(items) && ParametersFor(parameters, functionCode, items)
    ensures VariablesOf(parameters) == Some(VariablesFor(items))
  {
    SpecsDecode(parameters, functionCode, items, |items|);
    assert VariablesFor(items)[..|items|] == VariablesFor(items);
  }

  // ----------------------------------------------------------------- reads

  function HonestReply(memory: Memory, item: Item, code: Byte): ReadReply
    requires EncodedLength(item).Some?
  {
    if code != 0xff then Failed(code, 4) else Value(ReadVariable(memory, VariableOf(item)))
  }

  function HonestReplies(memory: Memory, items: seq<Item>, verdict: Verdict): (replies: seq<ReadReply>)
    requires S7Items(items)
    ensures |replies| == |items|
    ensures forall i | 0 <= i < |items| :: replies[i] == HonestReply(memory, items[i], verdict.Code(i))
    ensures RepliesFit(items, replies, 0)
  {
    seq(|items|, i requires 0 <= i < |items| => HonestReply(memory, items[i], verdict.Code(i)))
  }

  lemma {:induction false} BlockAgrees(memory: Memory, item: Item, code: Byte, last: bool)
    requires S7Item(item)
    ensures ReadBlock(memory, VariableOf(item), code, last) == ReplyBytes(item, HonestReply(memory, item, code), last)
  {
  }

  lemma {:induction false} BlocksAgree(memory: Memory, items: seq<Item>, variables: seq<VariableItem>,
                                       replies: seq<ReadReply>, verdict: Verdict, from: nat)
    requires |variables| == |items| && RepliesFit(items, replies, 0) && from <= |items|
    requires forall i | 0 <= i < |items| ::
      ReadBlock(memory, variables[i], verdict.Code(i), i == |items| - 1) == ReplyBytes(items[i], replies[i], i == |items| - 1)
    ensures ReadBlocksFrom(memory, variables, verdict, from) == RepliesFrom(items, replies, from)
    decreases |items| - from
  {
    if from < |items| {
      var block := ReplyBytes(items[from], replies[from], from == |items| - 1);
      BlocksAgree(memory, items, variables, replies, verdict, from + 1);
      assert ReadBlocksFrom(memory, variables, verdict, from) == block + ReadBlocksFrom(memory, variables, verdict, from + 1);
      assert RepliesFrom(items, replies, from) == block + RepliesFrom(items, replies, from + 1);
    }
  }

  lemma {:induction false} ReadDataAgrees(memory: Memory, items: seq<Item>, verdict: Verdict)
    requires S7Items(items)
    ensures ReadBlocksFrom(memory, VariablesFor(items), verdict, 0)
         == RepliesFrom(items, HonestReplies(memory, items, verdict), 0)
  {
    var variables, replies := VariablesFor(items), HonestReplies(memory, items, verdict);
    forall i | 0 <= i < |items|
      ensures ReadBlock(memory, variables[i], verdict.Code(i), i == |items| - 1)
           == ReplyBytes(items[i], replies[i], i == |items| - 1)
    {
      BlockAgrees(memory, items[i], verdict.Code(i), i == |items| - 1);
    }
    BlocksAgree(memory, items, variables, replies, verdict, 0);
  }

  lemma {:induction false} ServesReadJob(memory: Memory, job: Job, reference: U16, items: seq<Item>, verdict: Verdict)
    requires reference != 0 && S7Items(items) && ReadJobFor(job, reference, items) && verdict.Global() == 0
    requires ReadResponseSize(items) <= MAX_REPLY
    ensures
      var replies := HonestReplies(memory, items, verdict);
      && |ReadAck(items, replies).data| <= MAX_U16
      && ServeJob(memory, job, verdict) == Served(memory, Some(AckPdu(reference, ReadAck(items, replies))))
  {
    var replies := HonestReplies(memory, items, verdict);
    VariablesRecovered(job.parameters, 0x04, items);
    ReadDataAgrees(memory, items, verdict);
    RepliesSize(items, replies, 0);
    assert ReadLengths(items)[0..] == ReadLengths(items);
  }

  /** The controller answers a read request with the encoding of its memory, and the
      memory does not change. */
  lemma {:induction false} ServesRead(memory: Memory, job: Job, reference: U16, items: seq<Item>, verdict: Verdict)
    requires reference != 0 && S7Items(items) && ReadJobFor(job, reference, items) && verdict.Global() == 0
    requires ReadResponseSize(items) <= MAX_REPLY
    ensures |job.parameters| <= MAX_U16
    ensures
      var replies := HonestReplies(memory, items, verdict);
      && |ReadAck(items, replies).data| <= MAX_U16
      && Serve(memory, JobPdu(job), verdict) == Served(memory, Some(AckPdu(reference, ReadAck(items, replies))))
  {
    JobParses(job);
    ServesReadJob(memory, job, reference, items, verdict);
  }

  // ---------------------------------------------------------------- writes

  /** Items from `from` on, applied in order where the verdict accepts them. */
  function ApplyFrom(memory: Memory, items: seq<DataItem>, verdict: Verdict, from: nat): Memory
    requires S7DataItems(items) && from <= |items|
    decreases |items| - from
  {
    if from == |items| then memory
    else
      assert S7Item(Descriptors(items)[from]);
      ApplyFrom(ApplyOne(memory, VariableOf(items[from].item), items[from].data, verdict.Code(from)),
                items, verdict, from + 1)
  }

  function CodesFrom(verdict: Verdict, count: nat, from: nat): (codes: seq<Byte>)
    requires from <= count
    ensures |codes| == count - from
    ensures forall i | from <= i < count :: codes[i - from] == verdict.Code(i)
  {
    seq<Byte>(count - from, i requires 0 <= i < count - from => verdict.Code(from + i))
  }

  lemma {:induction false} StepAgrees(memory: Memory, data: seq<Byte>, at: nat, item: DataItem, code: Byte, last: bool,
                                      rest: seq<Byte>)
    requires S7Item(item.item) && |item.data| == item.item.dataBytes
    requires at <= |data| && data[at..] == WriteBlock(item, last) + rest
    ensures
      var next := at + |WriteBlock(item, last)|;
      && StepWrite(memory, VariableOf(item.item), data, at, code, last)
         == WriteStep(ApplyOne(memory, VariableOf(item.item), item.data, code), Some(next))
      && next <= |data| && data[next..] == rest
  {
    var block, end := WriteBlock(item, last), at + 4 + item.item.dataBytes;
    SplitAt(data, at, block, rest);
    assert data[at] == block[0] && data[at + 1] == block[1] && data[at + 2] == block[2] && data[at + 3] == block[3];
    assert block[4..4 + item.item.dataBytes] == item.data;
    assert data[at + 4..end] == data[at..at + |block|][4..4 + item.item.dataBytes];
    if Padded(item.item.dataBytes, last) {
      assert data[end] == block[4 + item.item.dataBytes] == 0;
    }
  }

  lemma {:induction false} WritesStep(memory: Memory, data: seq<Byte>, at: nat, variables: seq<VariableItem>, verdict: Verdict,
                                      from: nat, applied: Memory, next: nat, rest: WriteRun)
    requires at <= |data| && next <= |data| && from < |variables|
    requires forall i | 0 <= i < |variables| :: BitIsOne(variables[i])
    requires StepWrite(memory, variables[from], data, at, verdict.Code(from), from == |variables| - 1) == WriteStep(applied, Some(next))
    requires WritesFrom(applied, variables, verdict, data, next, from + 1) == rest
    ensures WritesFrom(memory, variables, verdict, data, at, from) == Continue([verdict.Code(from)], rest)
  {
  }

  function RunFrom(memory: Memory, items: seq<DataItem>, verdict: Verdict, from: nat): WriteRun
    requires S7DataItems(items) && from <= |items|
  {
    WriteRun(ApplyFrom(memory, items, verdict, from), CodesFrom(verdict, |items|, from), true)
  }

  lemma {:induction false} RunStep(memory: Memory, items: seq<DataItem>, verdict: Verdict, from: nat)
    requires S7DataItems(items) && from < |items|
    ensures EncodedLength(items[from].item).Some? && S7Item(items[from].item)
    ensures
      var applied := ApplyOne(memory, VariableOf(items[from].item), items[from].data, verdict.Code(from));
      RunFrom(memory, items, verdict, from) == Continue([verdict.Code(from)], RunFrom(applied, items, verdict, from + 1))
  {
    assert S7Item(Descriptors(items)[from]);
    assert [verdict.Code(from)] + CodesFrom(verdict, |items|, from + 1) == CodesFrom(verdict, |items|, from);
  }

  lemma {:induction false} WritesAgree(memory: Memory, data: seq<Byte>, at: nat, items: seq<DataItem>, verdict: Verdict, from: nat)
    requires S7DataItems(items) && from <= |items|
    requires at <= |data| && data[at..] == WriteBlocksFrom(items, from)
    ensures WritesFrom(memory, VariablesFor(Descriptors(items)), verdict, data, at, from) == RunFrom(memory, items, verdict, from)
    decreases |items| - from
  {
    hide StepWrite, WriteBlock, ApplyOne;
    if from < |items| {
      RunStep(memory, items, verdict, from);
      var item, code, last := items[from], verdict.Code(from), from == |items| - 1;
      var applied := ApplyOne(memory, VariableOf(item.item), item.data, code);
      var next := at + |WriteBlock(item, last)|;
      StepAgrees(memory, data, at, item, code, last, WriteBlocksFrom(items, from + 1));
      WritesAgree(applied, data, next, items, verdict, from + 1);
      WritesStep(memory, data, at, VariablesFor(Descriptors(items)), verdict, from, applied, next,
                 RunFrom(applied, items, verdict, from + 1));
    }
  }

  lemma {:induction false} ServesWriteJob(memory: Memory, job: Job, reference: U16, items: seq<DataItem>, verdict: Verdict)
    requires reference != 0 && S7DataItems(items) && WriteJobFor(job, reference, items) && verdict.Global() == 0
    ensures ServeJob(memory, job, verdict)
         == Served(ApplyFrom(memory, items, verdict, 0),
                   Some(AckPdu(reference, WriteAck(CodesFrom(verdict, |items|, 0)))))
  {
    VariablesRecovered(job.parameters, 0x05, Descriptors(items));
    assert job.data[0..] == job.data;
    WritesAgree(memory, job.data, 0, items, verdict, 0);
  }

  /** The controller applies the accepted items of a write request in order, and answers
      with one code per item. */
  lemma {:induction false} ServesWrite(memory: Memory, job: Job, reference: U16, items: seq<DataItem>, verdict: Verdict)
    requires reference != 0 && S7DataItems(items) && WriteJobFor(job, reference, items) && verdict.Global() == 0
    requires |job.data| <= MAX_U16
    ensures |job.parameters| <= MAX_U16
    ensures Serve(memory, JobPdu(job), verdict)
         == Served(ApplyFrom(memory, items, verdict, 0),
                   Some(AckPdu(reference, WriteAck(CodesFrom(verdict, |items|, 0)))))
  {
    JobParses(job);
    ServesWriteJob(memory, job, reference, items, verdict);
  }

  /** A refused job changes nothing and is answered with the global code alone. */
  lemma {:induction false} ServesRefusal(memory: Memory, job: Job, verdict: Verdict)
    requires job.reference != 0 && |job.parameters| <= MAX_U16 && |job.data| <= MAX_U16
    requires verdict.Global() != 0
    ensures Serve(memory, JobPdu(job), verdict)
         == Served(memory, Some(AckPdu(job.reference, AckData([], [], verdict.Global()))))
  {
    JobParses(job);
  }
}
