/** The classic S7comm data-plane PDUs (internal/protocol/protocol.go): builders and
    strict parsers as the client runs them, and the wire images they are proved
    against. */
module Protocol {
  import opened Bytes
  import opened Errors

  const PROTOCOL_ID: Byte := 0x32
  const ROSCTR_JOB: Byte := 0x01
  const ROSCTR_ACK_DATA: Byte := 0x03
  const FUNCTION_READ: Byte := 0x04
  const FUNCTION_WRITE: Byte := 0x05
  const FUNCTION_SETUP: Byte := 0xf0
  const WIRE_MAX_ITEMS := 255
  const COMPATIBILITY_MAX_ITEMS := 20
  const ACCEPTED: Byte := 0xff

  /** A wire-level variable descriptor. */
  datatype Item = Item(
    wordLength: Byte,
    responseTransport: Byte,
    amount: U16,
    dbNumber: U16,
    area: Byte,
    address: U32,
    dataBytes: nat,
    lengthInBits: bool)

  datatype DataItem = DataItem(item: Item, data: seq<Byte>)

  datatype ItemResult = ItemResult(returnCode: Byte, data: seq<Byte>)

  datatype Job = Job(reference: U16, parameters: seq<Byte>, data: seq<Byte>)

  datatype AckData = AckData(parameters: seq<Byte>, data: seq<Byte>, globalCode: U16)

  datatype ReadResponse = ReadResponse(results: seq<ItemResult>, globalCode: U16)

  datatype WriteResponse = WriteResponse(returnCodes: seq<Byte>, globalCode: U16)

  datatype SetupResult = SetupResult(maxAmQCaller: U16, maxAmQCallee: U16, pdu: U16, globalCode: U16)

  // ---------------------------------------------------------------- sizes

  function ReadRequestSize(itemCount: nat): nat {
    12 + 12 * itemCount
  }

  function WriteResponseSize(itemCount: nat): nat {
    14 + itemCount
  }

  /** One filler byte follows an odd-length block that is not the last. */
  predicate Padded(length: nat, last: bool) {
    !last && length % 2 != 0
  }

  /** The bytes taken by data blocks of these lengths, four header bytes each. */
  function BlocksSize(lengths: seq<nat>): nat {
    if lengths == [] then 0
    else
      var front := lengths[..|lengths| - 1];
      BlocksSize(front) + (if front != [] && Padded(front[|front| - 1], false) then 1 else 0) + 4 + lengths[|lengths| - 1]
  }

  function ReadLengths(items: seq<Item>): (lengths: seq<nat>)
    ensures |lengths| == |items|
  {
    seq(|items|, i requires 0 <= i < |items| => items[i].dataBytes)
  }

  function WriteLengths(items: seq<DataItem>): (lengths: seq<nat>)
    ensures |lengths| == |items|
  {
    seq(|items|, i requires 0 <= i < |items| => |items[i].data|)
  }

  function ReadResponseSize(items: seq<Item>): nat {
    14 + BlocksSize(ReadLengths(items))
  }

  function WriteRequestSize(items: seq<DataItem>): nat {
    12 + 12 * |items| + BlocksSize(WriteLengths(items))
  }

  method ComputeReadResponseSize(items: seq<Item>) returns (size: nat)
    ensures size == ReadResponseSize(items)
  {
    size := 14;
    var lengths := ReadLengths(items);
    for index := 0 to |items|
      invariant size == 14 + BlocksSize(lengths[..index])
                        + if index > 0 && Padded(lengths[index - 1], index == |items|) then 1 else 0
    {
      assert lengths[..index + 1][..index] == lengths[..index];
      size := size + 4 + items[index].dataBytes;
      if index != |items| - 1 && items[index].dataBytes % 2 != 0 {
        size := size + 1;
      }
    }
    assert lengths[..|items|] == lengths;
  }

  method ComputeWriteRequestSize(items: seq<DataItem>) returns (size: nat)
    ensures size == WriteRequestSize(items)
  {
    size := 12 + 12 * |items|;
    var lengths := WriteLengths(items);
    for index := 0 to |items|
      invariant size == 12 + 12 * |items| + BlocksSize(lengths[..index])
                        + if index > 0 && Padded(lengths[index - 1], index == |items|) then 1 else 0
    {
      assert lengths[..index + 1][..index] == lengths[..index];
      size := size + 4 + |items[index].data|;
      if index != |items| - 1 && |items[index].data| % 2 != 0 {
        size := size + 1;
      }
    }
    assert lengths[..|items|] == lengths;
  }

  // ------------------------------------------------------------ descriptors

  function EncodedLength(item: Item): Option<U16> {
    var length := if item.wordLength == 0x01 then item.amount
                  else if item.lengthInBits then item.dataBytes * 8
                  else item.dataBytes;
    if length > MAX_U16 then None else Some(length)
  }

  predicate ValidItem(item: Item) {
    && item.wordLength != 0 && item.responseTransport != 0 && item.amount != 0 && item.area != 0
    && item.address <= 0xFF_FFFF
    && item.dataBytes >= 1
    && EncodedLength(item).Some?
  }

  predicate ValidItems(reference: U16, items: seq<Item>) {
    && reference != 0
    && 1 <= |items| <= 255
    && forall i | 0 <= i < |items| :: ValidItem(items[i])
  }

  predicate ValidDataItems(reference: U16, items: seq<DataItem>) {
    && ValidItems(reference, Descriptors(items))
    && forall i | 0 <= i < |items| :: |items[i].data| == items[i].item.dataBytes
  }

  function Descriptors(items: seq<DataItem>): (descriptors: seq<Item>)
    ensures |descriptors| == |items|
    ensures forall i | 0 <= i < |items| :: descriptors[i] == items[i].item
  {
    seq(|items|, i requires 0 <= i < |items| => items[i].item)
  }

  method ValidateItems(reference: U16, items: seq<Item>) returns (ok: bool)
    ensures ok <==> ValidItems(reference, items)
  {
    if reference == 0 || |items| == 0 || |items| > WIRE_MAX_ITEMS {
      return false;
    }
    for index := 0 to |items|
      invariant forall i | 0 <= i < index :: ValidItem(items[i])
    {
      var item := items[index];
      if item.wordLength == 0 || item.responseTransport == 0 || item.amount == 0 || item.area == 0 ||
         item.address > 0xFF_FFFF || item.dataBytes < 1 {
        return false;
      }
      if EncodedLength(item).None? {
        return false;
      }
    }
    return true;
  }

  /** The 12-byte S7ANY specification of one item. */
  function ItemSpec(item: Item): (spec: seq<Byte>)
    ensures |spec| == 12
  {
    [ 0x12, 0x0a, 0x10, item.wordLength,
      item.amount / 256, item.amount % 256, item.dbNumber / 256, item.dbNumber % 256,
      item.area, (item.address / 0x1_0000) % 256, (item.address / 0x100) % 256, item.address % 256 ]
  }

  /** A parameter block: the function, the item count, and every item's specification
      in its place. */
  ghost predicate ParametersFor(parameters: seq<Byte>, functionCode: Byte, items: seq<Item>) {
    && |parameters| == 2 + 12 * |items|
    && parameters[0] == functionCode
    && parameters[1] == |items|
    && forall i: nat | i < |items| :: SpecAt(parameters, 2 + 12 * i, items[i])
  }

  ghost predicate SpecAt(parameters: seq<Byte>, at: nat, item: Item) {
    at + 12 <= |parameters| && parameters[at..at + 12] == ItemSpec(item)
  }

  // ---------------------------------------------------------------- frames

  function JobHeader(job: Job): seq<Byte>
    requires |job.parameters| <= MAX_U16 && |job.data| <= MAX_U16
  {
    [ 0x32, 0x01, 0, 0, job.reference / 256, job.reference % 256,
      |job.parameters| / 256, |job.parameters| % 256, |job.data| / 256, |job.data| % 256 ]
  }

  /** The wire image of a job PDU. */
  function JobPdu(job: Job): seq<Byte>
    requires |job.parameters| <= MAX_U16 && |job.data| <= MAX_U16
  {
    JobHeader(job) + job.parameters + job.data
  }

  function AckHeader(reference: U16, ack: AckData): seq<Byte>
    requires |ack.parameters| <= MAX_U16 && |ack.data| <= MAX_U16
  {
    [ 0x32, 0x03, 0, 0, reference / 256, reference % 256,
      |ack.parameters| / 256, |ack.parameters| % 256, |ack.data| / 256, |ack.data| % 256,
      ack.globalCode / 256, ack.globalCode % 256 ]
  }

  /** The wire image of an AckData PDU. */
  function AckPdu(reference: U16, ack: AckData): seq<Byte>
    requires |ack.parameters| <= MAX_U16 && |ack.data| <= MAX_U16
  {
    AckHeader(reference, ack) + ack.parameters + ack.data
  }

  twostate predicate OnlyChanged(buffer: array<Byte>, from: nat, to: nat)
    reads buffer
  {
    forall i | 0 <= i < buffer.Length && !(from <= i < to) :: buffer[i] == old(buffer[i])
  }

  method PutU16(buffer: array<Byte>, at: nat, value: U16)
    requires at + 2 <= buffer.Length
    modifies buffer
    ensures buffer[at] == value / 256 && buffer[at + 1] == value % 256
    ensures OnlyChanged(buffer, at, at + 2)
  {
    buffer[at] := value / 256;
    buffer[at + 1] := value % 256;
  }

  method CopyInto(buffer: array<Byte>, at: nat, source: seq<Byte>)
    requires at + |source| <= buffer.Length
    modifies buffer
    ensures buffer[at..at + |source|] == source
    ensures OnlyChanged(buffer, at, at + |source|)
  {
    forall k | 0 <= k < |source| {
      buffer[at + k] := source[k];
    }
  }

  method WriteItemSpec(buffer: array<Byte>, at: nat, item: Item)
    requires at + 12 <= buffer.Length
    modifies buffer
    ensures SpecAt(buffer[..], at, item)
    ensures OnlyChanged(buffer, at, at + 12)
  {
    buffer[at] := 0x12;
    buffer[at + 1] := 0x0a;
    buffer[at + 2] := 0x10;
    buffer[at + 3] := item.wordLength;
    buffer[at + 4], buffer[at + 5] := item.amount / 256, item.amount % 256;
    buffer[at + 6], buffer[at + 7] := item.dbNumber / 256, item.dbNumber % 256;
    buffer[at + 8] := item.area;
    buffer[at + 9] := (item.address / 0x1_0000) % 256;
    buffer[at + 10] := (item.address / 0x100) % 256;
    buffer[at + 11] := item.address % 256;
    assert buffer[..][at..at + 12] == ItemSpec(item);
  }

  method PutJobHeader(payload: array<Byte>, job: Job)
    requires payload.Length >= 10 && |job.parameters| <= MAX_U16 && |job.data| <= MAX_U16
    requires forall i | 0 <= i < 10 :: payload[i] == 0
    modifies payload
    ensures payload[..10] == JobHeader(job)
  {
    payload[0], payload[1] := PROTOCOL_ID, ROSCTR_JOB;
    PutU16(payload, 4, job.reference);
    PutU16(payload, 6, |job.parameters|);
    PutU16(payload, 8, |job.data|);
  }

  method BuildJob(job: Job) returns (r: Result<seq<Byte>>)
    ensures r.Ok? <==> job.reference != 0 && |job.parameters| <= MAX_U16 && |job.data| <= MAX_U16
    ensures r.Ok? ==> r.value == JobPdu(job)
  {
    if job.reference == 0 || |job.parameters| > MAX_U16 || |job.data| > MAX_U16 {
      return Err(InvariantError());
    }
    var dataStart := 10 + |job.parameters|;
    var payload := new Byte[dataStart + |job.data|](_ => 0);
    PutJobHeader(payload, job);
    CopyInto(payload, 10, job.parameters);
    CopyInto(payload, dataStart, job.data);
    hide JobHeader;
    ghost var whole := payload[..];
    assert whole[..10] == JobHeader(job) && whole[10..dataStart] == job.parameters && whole[dataStart..] == job.data;
    assert whole == whole[..10] + whole[10..dataStart] + whole[dataStart..];
    return Ok(payload[..]);
  }

  // ----------------------------------------------------------------- reads

  method FillParameters(functionCode: Byte, items: seq<Item>) returns (parameters: seq<Byte>)
    requires |items| <= WIRE_MAX_ITEMS
    ensures ParametersFor(parameters, functionCode, items)
  {
    var buffer := new Byte[2 + 12 * |items|](_ => 0);
    buffer[0], buffer[1] := functionCode, |items|;
    for index := 0 to |items|
      invariant buffer[0] == functionCode && buffer[1] == |items|
      invariant forall i: nat | i < index :: SpecAt(buffer[..], 2 + 12 * i, items[i])
    {
      ghost var before := buffer[..];
      WriteItemSpec(buffer, 2 + 12 * index, items[index]);
      forall i: nat | i < index
        ensures SpecAt(buffer[..], 2 + 12 * i, items[i])
      {
        assert SpecAt(before, 2 + 12 * i, items[i]);
        assert buffer[..][2 + 12 * i..2 + 12 * i + 12] == before[2 + 12 * i..2 + 12 * i + 12];
      }
    }
    parameters := buffer[..];
  }

  /** A ReadVar job for these items. */
  ghost predicate ReadJobFor(job: Job, reference: U16, items: seq<Item>) {
    job.reference == reference && job.data == [] && ParametersFor(job.parameters, 0x04, items)
  }

  method BuildReadRequest(reference: U16, items: seq<Item>) returns (r: Result<seq<Byte>>, ghost job: Job)
    ensures r.Ok? <==> ValidItems(reference, items)
    ensures r.Ok? ==>
      && ReadJobFor(job, reference, items)
      && |job.parameters| <= MAX_U16
      && r.value == JobPdu(job)
      && |r.value| == ReadRequestSize(|items|)
  {
    job := Job(reference, [], []);
    var ok := ValidateItems(reference, items);
    if !ok {
      return Err(InvariantError()), job;
    }
    var parameters := FillParameters(FUNCTION_READ, items);
    job := Job(reference, parameters, []);
    r := BuildJob(Job(reference, parameters, []));
  }

  /** The source checks a reply header with a chain of length and field tests. */
  function ParseAckData(payload: seq<Byte>, reference: U16): Option<AckData> {
    if reference == 0 || |payload| < 12 then None
    else if payload[0] != PROTOCOL_ID || payload[1] != ROSCTR_ACK_DATA then None
    else if payload[2] != 0 || payload[3] != 0 then None
    else if U16At(payload, 4) != reference then None
    else
      var parameterLength := U16At(payload, 6);
      var dataLength := U16At(payload, 8);
      if parameterLength > |payload| - 12 || dataLength != |payload| - 12 - parameterLength then None
      else
        Some(AckData(payload[12..12 + parameterLength], payload[12 + parameterLength..],
                     U16At(payload, 10)))
  }

  lemma {:induction false} AckSize(reference: U16, ack: AckData)
    requires |ack.parameters| <= MAX_U16 && |ack.data| <= MAX_U16
    ensures |AckPdu(reference, ack)| == 12 + |ack.parameters| + |ack.data|
  {
  }

  lemma {:induction false} AckParses(reference: U16, ack: AckData)
    requires reference != 0 && |ack.parameters| <= MAX_U16 && |ack.data| <= MAX_U16
    ensures ParseAckData(AckPdu(reference, ack), reference) == Some(ack)
  {
    var payload, header := AckPdu(reference, ack), AckHeader(reference, ack);
    assert forall i | 0 <= i < 12 :: payload[i] == header[i];
    assert U16At(header, 4) == reference;
    assert U16At(header, 6) == |ack.parameters|;
    assert payload[12..12 + |ack.parameters|] == ack.parameters;
    assert payload[12 + |ack.parameters|..] == ack.data;
  }

  lemma {:induction false} ParsedIsAck(payload: seq<Byte>, reference: U16)
    requires ParseAckData(payload, reference).Some?
    ensures
      var ack := ParseAckData(payload, reference).value;
      |ack.parameters| <= MAX_U16 && |ack.data| <= MAX_U16 && payload == AckPdu(reference, ack)
  {
    var ack := ParseAckData(payload, reference).value;
    assert |ack.parameters| == U16At(payload, 6) && |ack.data| == U16At(payload, 8);
    assert payload[..12] == AckHeader(reference, ack);
    assert payload == payload[..12] + ack.parameters + ack.data;
  }

  /** The header parser accepts exactly the wire images of AckData PDUs that answer
      this reference, and returns what was encoded. */
  lemma {:induction false} AckImage(payload: seq<Byte>, reference: U16, ack: AckData)
    ensures ParseAckData(payload, reference) == Some(ack) <==>
      && reference != 0
      && |ack.parameters| <= MAX_U16 && |ack.data| <= MAX_U16
      && payload == AckPdu(reference, ack)
  {
    if ParseAckData(payload, reference) == Some(ack) {
      ParsedIsAck(payload, reference);
    } else if && reference != 0
              && |ack.parameters| <= MAX_U16 && |ack.data| <= MAX_U16
              && payload == AckPdu(reference, ack) {
      AckParses(reference, ack);
    }
  }

  /** What a PLC may answer for one read item. */
  datatype ReadReply = Failed(code: Byte, lengthField: U16) | Value(data: seq<Byte>)

  predicate ReplyFits(item: Item, reply: ReadReply) {
    match reply
    case Failed(code, lengthField) => code != 0xff && lengthField in {0, 4}
    case Value(data) => |data| == item.dataBytes && EncodedLength(item).Some?
  }

  predicate RepliesFit(items: seq<Item>, replies: seq<ReadReply>, from: nat) {
    |replies| == |items| && forall i | from <= i < |items| :: ReplyFits(items[i], replies[i])
  }

  function ReplyBytes(item: Item, reply: ReadReply, last: bool): seq<Byte>
    requires ReplyFits(item, reply)
  {
    match reply
    case Failed(code, lengthField) => [code, 0, lengthField / 256, lengthField % 256]
    case Value(data) =>
      var length := EncodedLength(item).value;
      [0xff, item.responseTransport, length / 256, length % 256] + data
      + if Padded(|data|, last) then [0] else []
  }

  /** The data part of a read reply from item `from` on. */
  function RepliesFrom(items: seq<Item>, replies: seq<ReadReply>, from: nat): seq<Byte>
    requires from <= |items| && RepliesFit(items, replies, from)
    decreases |items| - from
  {
    if from == |items| then []
    else ReplyBytes(items[from], replies[from], from == |items| - 1) + RepliesFrom(items, replies, from + 1)
  }

  function ResultOf(reply: ReadReply): ItemResult {
    match reply
    case Failed(code, _) => ItemResult(code, [])
    case Value(data) => ItemResult(0xff, data)
  }

  function ResultsOf(replies: seq<ReadReply>): (results: seq<ItemResult>)
    ensures |results| == |replies|
    ensures forall i | 0 <= i < |replies| :: results[i] == ResultOf(replies[i])
  {
    seq(|replies|, i requires 0 <= i < |replies| => ResultOf(replies[i]))
  }

  /** The data block at an offset as the strict parser takes it: the reply, and the
      offset behind it. */
  function ParseBlock(data: seq<Byte>, at: nat, item: Item, last: bool): (block: Option<(ReadReply, nat)>)
    requires at <= |data|
    ensures block.Some? ==> at + 4 <= block.value.1 <= |data|
  {
    if |data| - at < 4 then None
    else
      var lengthField := U16At(data, at + 2);
      if data[at] != ACCEPTED then
        if data[at + 1] != 0 || (lengthField != 0 && lengthField != 4) then None
        else Some((Failed(data[at], lengthField), at + 4))
      else
        var end := at + 4 + item.dataBytes;
        if EncodedLength(item) != Some(lengthField) || data[at + 1] != item.responseTransport || end > |data| then None
        else if !Padded(item.dataBytes, last) then Some((Value(data[at + 4..end]), end))
        else if end >= |data| || data[end] != 0 then None
        else Some((Value(data[at + 4..end]), end + 1))
  }

  /** All blocks from item `from` on, with nothing left over. */
  function ParseBlocks(data: seq<Byte>, at: nat, items: seq<Item>, from: nat): (blocks: Option<seq<ReadReply>>)
    requires at <= |data| && from <= |items|
    ensures blocks.Some? ==> |blocks.value| == |items| - from
    decreases |items| - from
  {
    if from == |items| then (if at == |data| then Some([]) else None)
    else
      match ParseBlock(data, at, items[from], from == |items| - 1)
      case None => None
      case Some((reply, next)) => Prepend([reply], ParseBlocks(data, next, items, from + 1))
  }

  function Prepend(front: seq<ReadReply>, rest: Option<seq<ReadReply>>): Option<seq<ReadReply>> {
    match rest
    case None => None
    case Some(replies) => Some(front + replies)
  }

  /** The suffix of `data` behind an offset is a block and the rest. */
  lemma {:induction false} SplitAt(data: seq<Byte>, at: nat, block: seq<Byte>, rest: seq<Byte>)
    requires at <= |data| && data[at..] == block + rest
    ensures at + |block| <= |data| && data[at..at + |block|] == block && data[at + |block|..] == rest
    ensures forall i | 0 <= i < |block| :: data[at + i] == block[i]
  {
    var suffix := data[at..];
    assert data[at..at + |block|] == suffix[..|block|];
    assert data[at + |block|..] == suffix[|block|..];
    assert forall i | 0 <= i < |block| :: data[at + i] == suffix[i];
  }

  lemma {:induction false} EncodedBlockParses(data: seq<Byte>, at: nat, item: Item, last: bool, reply: ReadReply, rest: seq<Byte>)
    requires ReplyFits(item, reply)
    requires at <= |data| && data[at..] == ReplyBytes(item, reply, last) + rest
    ensures
      var next := at + |ReplyBytes(item, reply, last)|;
      && ParseBlock(data, at, item, last) == Some((reply, next))
      && next <= |data| && data[next..] == rest
  {
    var block := ReplyBytes(item, reply, last);
    SplitAt(data, at, block, rest);
    assert data[at] == block[0] && data[at + 1] == block[1] && data[at + 2] == block[2] && data[at + 3] == block[3];
    if reply.Value? {
      var end := at + 4 + item.dataBytes;
      assert block[4..4 + item.dataBytes] == reply.data;
      assert data[at + 4..end] == data[at..at + |block|][4..4 + item.dataBytes];
      if Padded(item.dataBytes, last) {
        assert data[end] == block[4 + item.dataBytes] == 0;
      }
    }
  }

  lemma {:induction false} ParsedBlockIsEncoded(data: seq<Byte>, at: nat, item: Item, last: bool)
    requires at <= |data| && ParseBlock(data, at, item, last).Some?
    ensures
      var (reply, next) := ParseBlock(data, at, item, last).value;
      ReplyFits(item, reply) && data[at..next] == ReplyBytes(item, reply, last)
  {
  }

  lemma {:induction false} SuffixStep<T>(values: seq<T>, from: nat, to: nat)
    requires from <= to <= |values|
    ensures values[from..] == values[from..to] + values[to..]
    ensures to == from + 1 ==> values[from..to] == [values[from]]
  {
  }

  lemma {:induction false} ParseBlocksStep(data: seq<Byte>, at: nat, items: seq<Item>, from: nat, next: nat, replies: seq<ReadReply>)
    requires from < |items| == |replies| && at <= |data| && next <= |data|
    requires ParseBlock(data, at, items[from], from == |items| - 1) == Some((replies[from], next))
    requires ParseBlocks(data, next, items, from + 1) == Some(replies[from + 1..])
    ensures ParseBlocks(data, at, items, from) == Some(replies[from..])
  {
    SuffixStep(replies, from, from + 1);
  }

  /** Every encoding of fitting replies parses back to them ... */
  lemma {:induction false} EncodedBlocksParse(data: seq<Byte>, at: nat, items: seq<Item>, replies: seq<ReadReply>, from: nat)
    requires from <= |items| && RepliesFit(items, replies, from)
    requires at <= |data| && data[at..] == RepliesFrom(items, replies, from)
    ensures ParseBlocks(data, at, items, from) == Some(replies[from..])
    decreases |items| - from
  {
    hide ParseBlock, ReplyBytes;
    if from < |items| {
      var last, rest := from == |items| - 1, RepliesFrom(items, replies, from + 1);
      var next := at + |ReplyBytes(items[from], replies[from], last)|;
      EncodedBlockParses(data, at, items[from], last, replies[from], rest);
      EncodedBlocksParse(data, next, items, replies, from + 1);
      ParseBlocksStep(data, at, items, from, next, replies);
    } else {
      assert replies[from..] == [];
    }
  }

  /** ... and nothing else parses. */
  lemma {:induction false} ParsedBlocksAreEncoded(data: seq<Byte>, at: nat, items: seq<Item>, replies: seq<ReadReply>, from: nat)
    requires at <= |data| && from <= |items| && |replies| == |items|
    requires ParseBlocks(data, at, items, from) == Some(replies[from..])
    ensures RepliesFit(items, replies, from) && data[at..] == RepliesFrom(items, replies, from)
    decreases |items| - from
  {
    if from < |items| {
      var (reply, next) := ParseBlock(data, at, items[from], from == |items| - 1).value;
      SuffixStep(replies, from, from + 1);
      ParsedBlockIsEncoded(data, at, items[from], from == |items| - 1);
      var tail := ParseBlocks(data, next, items, from + 1).value;
      assert [reply] + tail == [replies[from]] + replies[from + 1..];
      assert tail == ([reply] + tail)[1..] == replies[from + 1..];
      ParsedBlocksAreEncoded(data, next, items, replies, from + 1);
      SuffixStep(data, at, next);
    }
  }

  /** The parsed reply as read results: the parameters must echo the request. */
  function ReadResponseOf(ack: AckData, expected: seq<Item>): Option<ReadResponse> {
    if ack.globalCode != 0 then
      Some(ReadResponse(seq(|expected|, _ => ItemResult(0, [])), ack.globalCode))
    else if |ack.parameters| != 2 || ack.parameters[0] != FUNCTION_READ || ack.parameters[1] != |expected| then None
    else
      match ParseBlocks(ack.data, 0, expected, 0)
      case None => None
      case Some(replies) => Some(ReadResponse(ResultsOf(replies), 0))
  }

  function ReadReplyOf(payload: seq<Byte>, reference: U16, expected: seq<Item>): Option<ReadResponse> {
    match ParseAckData(payload, reference)
    case None => None
    case Some(ack) => ReadResponseOf(ack, expected)
  }

  method ParseReadResponse(payload: seq<Byte>, reference: U16, expected: seq<Item>) returns (r: Option<ReadResponse>)
    ensures r == ReadReplyOf(payload, reference, expected)
  {
    var parsed := ParseAckData(payload, reference);
    if parsed.None? {
      return None;
    }
    var AckData(parameters, data, globalCode) := parsed.value;
    if globalCode != 0 {
      return Some(ReadResponse(seq(|expected|, _ => ItemResult(0, [])), globalCode));
    }
    if |parameters| != 2 || parameters[0] != FUNCTION_READ || parameters[1] != |expected| {
      return None;
    }
    var results := ParseReadItems(data, expected);
    match results {
      case None => return None;
      case Some(results) => return Some(ReadResponse(results, globalCode));
    }
  }

  method ParseReadItems(data: seq<Byte>, expected: seq<Item>) returns (r: Option<seq<ItemResult>>)
    ensures r == match ParseBlocks(data, 0, expected, 0) case None => None case Some(replies) => Some(ResultsOf(replies))
  {
    var results: seq<ItemResult> := [];
    ghost var replies: seq<ReadReply> := [];
    var offset := 0;
    PrependNothing(ParseBlocks(data, 0, expected, 0));
    for index := 0 to |expected|
      invariant 0 <= offset <= |data| && |replies| == index
      invariant results == ResultsOf(replies)
      invariant ParseBlocks(data, 0, expected, 0) == Prepend(replies, ParseBlocks(data, offset, expected, index))
    {
      var last := index == |expected| - 1;
      ghost var block := ParseBlock(data, offset, expected[index], last);
      var item := ParseReadItem(data, offset, expected[index], last);
      if item.None? {
        return None;
      }
      offset := item.value.1;
      PrependStep(replies, block.value.0, ParseBlocks(data, offset, expected, index + 1));
      replies := replies + [block.value.0];
      results := results + [item.value.0];
    }
    if offset != |data| {
      return None;
    }
    assert replies + [] == replies;
    return Some(results);
  }

  /** One pass of the parser's loop body: the item's result and the next offset. */
  method ParseReadItem(data: seq<Byte>, start: nat, item: Item, last: bool) returns (r: Option<(ItemResult, nat)>)
    requires start <= |data|
    ensures
      var block := ParseBlock(data, start, item, last);
      r == if block.None? then None else Some((ResultOf(block.value.0), block.value.1))
  {
    if |data| - start < 4 {
      return None;
    }
    var returnCode, transport := data[start], data[start + 1];
    var lengthField := U16At(data, start + 2);
    var offset := start + 4;
    if returnCode != ACCEPTED {
      if transport != 0 || (lengthField != 0 && lengthField != 4) {
        return None;
      }
      return Some((ItemResult(returnCode, []), offset));
    }
    var expectedLength := EncodedLength(item);
    if expectedLength.None? {
      return None;
    }
    if transport != item.responseTransport || lengthField != expectedLength.value {
      return None;
    }
    if item.dataBytes > |data| - offset {
      return None;
    }
    var value := data[offset..offset + item.dataBytes];
    offset := offset + item.dataBytes;
    if !last && item.dataBytes % 2 != 0 {
      if offset >= |data| || data[offset] != 0 {
        return None;
      }
      offset := offset + 1;
    }
    return Some((ItemResult(ACCEPTED, value), offset));
  }

  lemma {:induction false} PrependNothing(rest: Option<seq<ReadReply>>)
    ensures Prepend([], rest) == rest
  {
    if rest.Some? {
      assert [] + rest.value == rest.value;
    }
  }

  lemma {:induction false} PrependStep(front: seq<ReadReply>, reply: ReadReply, rest: Option<seq<ReadReply>>)
    ensures Prepend(front, Prepend([reply], rest)) == Prepend(front + [reply], rest)
  {
    if rest.Some? {
      assert front + ([reply] + rest.value) == front + [reply] + rest.value;
    }
  }

  /** The reply of a PLC that answers each item with `replies`. */
  function ReadAck(items: seq<Item>, replies: seq<ReadReply>): AckData
    requires |items| <= WIRE_MAX_ITEMS && RepliesFit(items, replies, 0)
  {
    AckData([0x04, |items|], RepliesFrom(items, replies, 0), 0)
  }

  /** With global code zero, a reply is accepted exactly when it encodes fitting replies. */
  lemma {:induction false} ReadAckParses(items: seq<Item>, replies: seq<ReadReply>)
    requires |items| <= WIRE_MAX_ITEMS && RepliesFit(items, replies, 0)
    ensures ReadResponseOf(ReadAck(items, replies), items) == Some(ReadResponse(ResultsOf(replies), 0))
  {
    var data := RepliesFrom(items, replies, 0);
    assert replies[0..] == replies && data[0..] == data;
    EncodedBlocksParse(data, 0, items, replies, 0);
  }

  lemma {:induction false} ParsedIsReadAck(ack: AckData, items: seq<Item>) returns (replies: seq<ReadReply>)
    requires |items| <= WIRE_MAX_ITEMS
    requires ack.globalCode == 0 && ReadResponseOf(ack, items).Some?
    ensures RepliesFit(items, replies, 0) && ack == ReadAck(items, replies)
    ensures ReadResponseOf(ack, items) == Some(ReadResponse(ResultsOf(replies), 0))
  {
    replies := ParseBlocks(ack.data, 0, items, 0).value;
    ParsedDataIsEncoded(ack.data, items, replies);
    TwoBytes(ack.parameters, 0x04, |items|);
  }

  lemma {:induction false} ParsedDataIsEncoded(data: seq<Byte>, items: seq<Item>, replies: seq<ReadReply>)
    requires ParseBlocks(data, 0, items, 0) == Some(replies)
    ensures RepliesFit(items, replies, 0) && data == RepliesFrom(items, replies, 0)
  {
    assert replies[0..] == replies && data[0..] == data;
    ParsedBlocksAreEncoded(data, 0, items, replies, 0);
  }

  lemma {:induction false} TwoBytes(bytes: seq<Byte>, first: Byte, second: Byte)
    requires |bytes| == 2 && bytes[0] == first && bytes[1] == second
    ensures bytes == [first, second]
  {
  }

  ghost predicate ReadImage(payload: seq<Byte>, reference: U16, items: seq<Item>, replies: seq<ReadReply>)
    requires |items| <= WIRE_MAX_ITEMS
  {
    && RepliesFit(items, replies, 0)
    && |ReadAck(items, replies).data| <= MAX_U16
    && payload == AckPdu(reference, ReadAck(items, replies))
  }

  /** ParseReadResponse accepts, with global code zero, exactly the AckData images of
      fitting replies, and its results are those replies. */
  lemma {:induction false} ReadReplyImage(payload: seq<Byte>, reference: U16, items: seq<Item>, results: seq<ItemResult>)
    requires reference != 0 && |items| <= WIRE_MAX_ITEMS
    ensures ReadReplyOf(payload, reference, items) == Some(ReadResponse(results, 0)) <==>
      exists replies :: ReadImage(payload, reference, items, replies) && results == ResultsOf(replies)
  {
    if ReadReplyOf(payload, reference, items) == Some(ReadResponse(results, 0)) {
      var ack := ParseAckData(payload, reference).value;
      var replies := ParsedIsReadAck(ack, items);
      AckImage(payload, reference, ack);
      assert ReadImage(payload, reference, items, replies) && results == ResultsOf(replies);
    }
    if replies :| ReadImage(payload, reference, items, replies) && results == ResultsOf(replies) {
      AckImage(payload, reference, ReadAck(items, replies));
      ReadAckParses(items, replies);
    }
  }

  // ----------------------------------------------------------------- writes

  function WriteBlock(item: DataItem, last: bool): seq<Byte> {
    var length := if EncodedLength(item.item).Some? then EncodedLength(item.item).value else 0;
    [0x00, item.item.responseTransport, length / 256, length % 256] + item.data
    + if Padded(|item.data|, last) then [0] else []
  }

  /** The data part of a write request from item `from` on. */
  function WriteBlocksFrom(items: seq<DataItem>, from: nat): seq<Byte>
    requires from <= |items|
    decreases |items| - from
  {
    if from == |items| then [] else WriteBlock(items[from], from == |items| - 1) + WriteBlocksFrom(items, from + 1)
  }

  /** A WriteVar job for these items. */
  ghost predicate WriteJobFor(job: Job, reference: U16, items: seq<DataItem>) {
    && job.reference == reference
    && ParametersFor(job.parameters, 0x05, Descriptors(items))
    && job.data == WriteBlocksFrom(items, 0)
  }

  lemma {:induction false} WriteBlocksStep(items: seq<DataItem>, index: nat, done: seq<Byte>)
    requires index < |items|
    ensures done + WriteBlock(items[index], index == |items| - 1) + WriteBlocksFrom(items, index + 1)
         == done + WriteBlocksFrom(items, index)
  {
    var block, rest := WriteBlock(items[index], index == |items| - 1), WriteBlocksFrom(items, index + 1);
    assert done + (block + rest) == done + block + rest;
  }

  method EncodeWriteData(items: seq<DataItem>) returns (r: Option<seq<Byte>>)
    ensures r.Some? <==> forall i | 0 <= i < |items| :: EncodedLength(items[i].item).Some?
    ensures r.Some? ==> r.value == WriteBlocksFrom(items, 0)
  {
    var data: seq<Byte> := [];
    for index := 0 to |items|
      invariant forall i | 0 <= i < index :: EncodedLength(items[i].item).Some?
      invariant data + WriteBlocksFrom(items, index) == WriteBlocksFrom(items, 0)
    {
      if EncodedLength(items[index].item).None? {
        return None;
      }
      WriteBlocksStep(items, index, data);
      data := AppendBlock(data, items[index], index == |items| - 1);
    }
    return Some(data);
  }

  method AppendBlock(before: seq<Byte>, item: DataItem, last: bool) returns (data: seq<Byte>)
    requires EncodedLength(item.item).Some?
    ensures data == before + WriteBlock(item, last)
  {
    var length := EncodedLength(item.item).value;
    data := before + [0x00, item.item.responseTransport, length / 256, length % 256];
    data := data + item.data;
    if !last && |item.data| % 2 != 0 {
      data := data + [0x00];
    }
  }

  method BuildWriteRequest(reference: U16, items: seq<DataItem>) returns (r: Result<seq<Byte>>, ghost job: Job)
    ensures r.Ok? <==> ValidDataItems(reference, items) && |WriteBlocksFrom(items, 0)| <= MAX_U16
    ensures r.Ok? ==>
      && WriteJobFor(job, reference, items)
      && |job.parameters| <= MAX_U16 && |job.data| <= MAX_U16
      && r.value == JobPdu(job)
      && |r.value| == WriteRequestSize(items)
  {
    job := Job(reference, [], []);
    if |items| == 0 || |items| > WIRE_MAX_ITEMS {
      return Err(InvariantError()), job;
    }
    var descriptors: seq<Item> := [];
    for index := 0 to |items|
      invariant descriptors == Descriptors(items)[..index]
      invariant forall i | 0 <= i < index :: |items[i].data| == items[i].item.dataBytes
    {
      descriptors := descriptors + [items[index].item];
      if |items[index].data| != items[index].item.dataBytes {
        return Err(InvariantError()), job;
      }
    }
    assert descriptors == Descriptors(items);
    var ok := ValidateItems(reference, descriptors);
    if !ok {
      return Err(InvariantError()), job;
    }
    var parameters := FillParameters(FUNCTION_WRITE, descriptors);
    assert forall i | 0 <= i < |items| :: ValidItem(Descriptors(items)[i]);
    var data := EncodeWriteData(items);
    job := Job(reference, parameters, data.value);
    WriteBlocksSize(items, 0);
    assert WriteLengths(items)[0..] == WriteLengths(items);
    r := BuildJob(Job(reference, parameters, data.value));
  }

  /** A write reply is one byte per item, or a global refusal. */
  function WriteResponseOf(ack: AckData, itemCount: nat): Option<WriteResponse> {
    if ack.globalCode != 0 then Some(WriteResponse(seq(itemCount, _ => 0), ack.globalCode))
    else if |ack.parameters| != 2 || ack.parameters[0] != FUNCTION_WRITE || ack.parameters[1] != itemCount then None
    else if |ack.data| != itemCount then None
    else Some(WriteResponse(ack.data, 0))
  }

  function ParseWriteResponse(payload: seq<Byte>, reference: U16, itemCount: nat): Option<WriteResponse> {
    if itemCount < 1 || itemCount > WIRE_MAX_ITEMS then None
    else
      match ParseAckData(payload, reference)
      case None => None
      case Some(ack) => WriteResponseOf(ack, itemCount)
  }

  function WriteAck(codes: seq<Byte>): AckData
    requires |codes| <= WIRE_MAX_ITEMS
  {
    AckData([0x05, |codes|], codes, 0)
  }

  lemma {:induction false} WriteAckOnly(ack: AckData, codes: seq<Byte>)
    requires |codes| <= WIRE_MAX_ITEMS
    ensures WriteResponseOf(ack, |codes|) == Some(WriteResponse(codes, 0)) <==> ack == WriteAck(codes)
  {
    if WriteResponseOf(ack, |codes|) == Some(WriteResponse(codes, 0)) {
      TwoBytes(ack.parameters, 0x05, |codes|);
    }
  }

  lemma {:induction false} WriteAckParses(payload: seq<Byte>, reference: U16, codes: seq<Byte>)
    requires reference != 0 && 1 <= |codes| <= WIRE_MAX_ITEMS
    requires payload == AckPdu(reference, WriteAck(codes))
    ensures ParseWriteResponse(payload, reference, |codes|) == Some(WriteResponse(codes, 0))
  {
    AckImage(payload, reference, WriteAck(codes));
    WriteAckOnly(WriteAck(codes), codes);
  }

  lemma {:induction false} ParsedIsWriteAck(payload: seq<Byte>, reference: U16, itemCount: nat)
    requires ParseWriteResponse(payload, reference, itemCount).Some?
    requires ParseWriteResponse(payload, reference, itemCount).value.globalCode == 0
    ensures
      var codes := ParseWriteResponse(payload, reference, itemCount).value.returnCodes;
      |codes| == itemCount && ParseAckData(payload, reference) == Some(WriteAck(codes))
  {
    WriteAckOnly(ParseAckData(payload, reference).value,
                 ParseWriteResponse(payload, reference, itemCount).value.returnCodes);
  }

  /** A write reply needs exactly the room the planner reserves for it. */
  lemma {:induction false} WriteReplySize(reference: U16, codes: seq<Byte>)
    requires |codes| <= WIRE_MAX_ITEMS
    ensures |AckPdu(reference, WriteAck(codes))| == WriteResponseSize(|codes|)
  {
    AckSize(reference, WriteAck(codes));
  }

  /** ParseWriteResponse accepts, with global code zero, exactly the AckData image of one
      return code per item. */
  lemma {:induction false} WriteReplyImage(payload: seq<Byte>, reference: U16, itemCount: nat, codes: seq<Byte>)
    requires reference != 0 && 1 <= itemCount <= WIRE_MAX_ITEMS
    ensures ParseWriteResponse(payload, reference, itemCount) == Some(WriteResponse(codes, 0)) <==>
      |codes| == itemCount && payload == AckPdu(reference, WriteAck(codes))
  {
    if |codes| == itemCount && payload == AckPdu(reference, WriteAck(codes)) {
      WriteAckParses(payload, reference, codes);
    } else if ParseWriteResponse(payload, reference, itemCount) == Some(WriteResponse(codes, 0)) {
      ParsedIsWriteAck(payload, reference, itemCount);
      AckImage(payload, reference, WriteAck(codes));
    }
  }

  // ------------------------------------------------------- sizes are exact

  /** BlocksSize grows at the end; this is the same sum taken from the front. */
  lemma {:induction false} BlocksSizeFront(lengths: seq<nat>)
    requires lengths != []
    ensures BlocksSize(lengths) == 4 + lengths[0] + (if Padded(lengths[0], |lengths| == 1) then 1 else 0) + BlocksSize(lengths[1..])
  {
    var front := lengths[..|lengths| - 1];
    if front != [] {
      BlocksSizeFront(front);
      assert lengths[1..][..|lengths| - 2] == front[1..];
    }
  }

  lemma {:induction false} LastBlock(lengths: seq<nat>)
    requires lengths != []
    ensures BlocksSize(lengths[..|lengths| - 1]) <= BlocksSize(lengths)
  {
  }

  lemma {:induction false} PrefixSize(lengths: seq<nat>, to: nat)
    requires to <= |lengths|
    ensures BlocksSize(lengths[..to]) <= BlocksSize(lengths)
  {
    hide BlocksSize;
    if to < |lengths| {
      LastBlock(lengths);
      PrefixSize(lengths[..|lengths| - 1], to);
      assert lengths[..|lengths| - 1][..to] == lengths[..to];
    } else {
      assert lengths[..to] == lengths;
    }
  }

  lemma {:induction false} SuffixSize(lengths: seq<nat>, from: nat)
    requires from <= |lengths|
    ensures BlocksSize(lengths[from..]) <= BlocksSize(lengths)
  {
    hide BlocksSize;
    if from > 0 {
      BlocksSizeFront(lengths);
      SuffixSize(lengths[1..], from - 1);
      assert lengths[1..][from - 1..] == lengths[from..];
    } else {
      assert lengths[from..] == lengths;
    }
  }

  /** A stretch of the blocks needs no more room than all of them. */
  lemma {:induction false} SegmentSize(lengths: seq<nat>, from: nat, to: nat)
    requires from <= to <= |lengths|
    ensures BlocksSize(lengths[from..to]) <= BlocksSize(lengths)
  {
    hide BlocksSize;
    PrefixSize(lengths, to);
    SuffixSize(lengths[..to], from);
    assert lengths[..to][from..] == lengths[from..to];
  }

  lemma {:induction false} WriteBlocksSize(items: seq<DataItem>, from: nat)
    requires from <= |items|
    ensures |WriteBlocksFrom(items, from)| == BlocksSize(WriteLengths(items)[from..])
    decreases |items| - from
  {
    if from < |items| {
      WriteBlocksSize(items, from + 1);
      var lengths := WriteLengths(items)[from..];
      assert lengths[1..] == WriteLengths(items)[from + 1..];
      BlocksSizeFront(lengths);
    }
  }

  /** Where the data block of item `index` starts in the data part of a write request. */
  function BlockStart(items: seq<DataItem>, index: nat): int
    requires index <= |items|
  {
    |WriteBlocksFrom(items, 0)| - |WriteBlocksFrom(items, index)|
  }

  /** The data part byte by byte: every block starts at an even offset with its four header
      bytes, its data follows, and then at most one filler, none behind the last. */
  lemma {:induction false} WriteBlockAt(items: seq<DataItem>, index: nat)
    requires index < |items| && EncodedLength(items[index].item).Some?
    ensures BlockStart(items, 0) == 0 <= BlockStart(items, index) && BlockStart(items, index) % 2 == 0
    ensures
      var data, at, length := WriteBlocksFrom(items, 0), BlockStart(items, index), EncodedLength(items[index].item).value;
      var end := at + 4 + |items[index].data|;
      && end <= |data| && data[at..end] == [0, items[index].item.responseTransport, length / 256, length % 256] + items[index].data
      && (index + 1 == |items| ==> end == |data|)
      && end <= BlockStart(items, index + 1) <= end + 1
      && (index + 1 < |items| && BlockStart(items, index + 1) == end + 1 ==> data[end] == 0)
  {
    BlockSuffix(items, index);
    var data, at, block, rest := WriteBlocksFrom(items, 0), BlockStart(items, index), WriteBlock(items[index], index == |items| - 1),
                                 WriteBlocksFrom(items, index + 1);
    var size := 4 + |items[index].data|;
    SplitAt(data, at, block, rest);
    assert data[at..at + size] == data[at..at + |block|][..size] == block[..size];
    assert |block| > size ==> data[at + size] == block[size] == 0;
  }

  lemma {:induction false} BlockSuffix(items: seq<DataItem>, index: nat)
    requires index <= |items|
    ensures 0 <= BlockStart(items, index) <= |WriteBlocksFrom(items, 0)|
    ensures WriteBlocksFrom(items, 0)[BlockStart(items, index)..] == WriteBlocksFrom(items, index)
    ensures index < |items| ==> BlockStart(items, index) % 2 == 0
  {
    if index > 0 {
      BlockSuffix(items, index - 1);
      SplitAt(WriteBlocksFrom(items, 0), BlockStart(items, index - 1), WriteBlock(items[index - 1], index == |items|),
              WriteBlocksFrom(items, index));
    }
  }

  /** A reply never needs more than the planner reserved; it needs exactly that
      when no item fails. */
  lemma {:induction false} ReplySize(item: Item, reply: ReadReply, last: bool)
    requires ReplyFits(item, reply)
    ensures |ReplyBytes(item, reply, last)| == match reply
      case Failed(_, _) => 4
      case Value(_) => 4 + item.dataBytes + if Padded(item.dataBytes, last) then 1 else 0
  {
  }

  lemma {:induction false} RepliesSize(items: seq<Item>, replies: seq<ReadReply>, from: nat)
    requires from <= |items| && RepliesFit(items, replies, from)
    ensures |RepliesFrom(items, replies, from)| <= BlocksSize(ReadLengths(items)[from..])
    ensures (forall i | from <= i < |items| :: replies[i].Value?) ==>
      |RepliesFrom(items, replies, from)| == BlocksSize(ReadLengths(items)[from..])
    decreases |items| - from
  {
    if from < |items| {
      RepliesSize(items, replies, from + 1);
      var lengths := ReadLengths(items)[from..];
      assert lengths[0] == items[from].dataBytes && lengths[1..] == ReadLengths(items)[from + 1..];
      BlocksSizeFront(lengths);
      var block := ReplyBytes(items[from], replies[from], from == |items| - 1);
      ReplySize(items[from], replies[from], from == |items| - 1);
      assert |RepliesFrom(items, replies, from)| == |block| + |RepliesFrom(items, replies, from + 1)|;
    }
  }

  lemma {:induction false} ReadReplySizeBound(reference: U16, items: seq<Item>, replies: seq<ReadReply>)
    requires |items| <= WIRE_MAX_ITEMS && RepliesFit(items, replies, 0)
    requires ReadResponseSize(items) <= MAX_U16
    ensures |ReadAck(items, replies).data| <= MAX_U16
    ensures |AckPdu(reference, ReadAck(items, replies))| <= ReadResponseSize(items)
    ensures (forall i | 0 <= i < |items| :: replies[i].Value?) ==>
      |AckPdu(reference, ReadAck(items, replies))| == ReadResponseSize(items)
  {
    RepliesSize(items, replies, 0);
    assert ReadLengths(items)[0..] == ReadLengths(items);
  }

  // ------------------------------------------------------------------ setup

  /** BuildSetupRequest: the Setup Communication job. */
  function SetupJob(reference: U16, maxAmQCaller: U16, maxAmQCallee: U16, requestedPdu: U16): Job {
    Job(reference,
        [FUNCTION_SETUP, 0, maxAmQCaller / 256, maxAmQCaller % 256, maxAmQCallee / 256, maxAmQCallee % 256,
         requestedPdu / 256, requestedPdu % 256],
        [])
  }

  function ParseSetupResponse(payload: seq<Byte>, reference: U16): Option<SetupResult> {
    match ParseAckData(payload, reference)
    case None => None
    case Some(AckData(parameters, data, globalCode)) =>
      if globalCode != 0 then Some(SetupResult(0, 0, 0, globalCode))
      else if |parameters| != 8 || |data| != 0 || parameters[0] != FUNCTION_SETUP || parameters[1] != 0 then None
      else
        Some(SetupResult(U16At(parameters, 2), U16At(parameters, 4),
                         U16At(parameters, 6), 0))
  }
}
