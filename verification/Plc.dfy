/** The controller side (internal/testplc/server.go): a byte memory, and how one S7 job
    is parsed, applied and answered. The source can reject one chosen item; here a
    verdict chooses a return code for every item, or refuses the whole job. */
module Plc {
  import opened Bytes
  import opened Errors
  import opened Protocol

  datatype MemoryKey = MemoryKey(area: Byte, db: U16, offset: nat)

  type Memory = map<MemoryKey, Byte>

  /** The return codes the controller gives a job, or its global refusal. */
  datatype Verdict = Refuse(globalCode: U16) | Decide(codes: nat -> Byte) {
    function Code(index: nat): Byte {
      if Decide? then codes(index) else 0xff
    }

    function Global(): U16 {
      if Refuse? then globalCode else 0
    }
  }

  datatype VariableItem = VariableItem(
    wordLength: Byte,
    amount: U16,
    db: U16,
    area: Byte,
    address: nat,
    dataBytes: nat,
    transport: Byte,
    length: U16)

  // ----------------------------------------------------------------- memory

  /** Memory that was never written reads as zero. */
  function Peek(memory: Memory, key: MemoryKey): Byte {
    if key in memory then memory[key] else 0
  }

  /** A value as its low `width` bits, lowest first. */
  function ToBits(value: nat, width: nat): (bits: seq<bool>)
    ensures |bits| == width
  {
    if width == 0 then [] else [value % 2 == 1] + ToBits(value / 2, width - 1)
  }

  function FromBits(bits: seq<bool>): nat {
    if bits == [] then 0 else (if bits[0] then 1 else 0) + 2 * FromBits(bits[1..])
  }

  lemma {:induction false} BitsRoundTrip(bits: seq<bool>)
    ensures FromBits(bits) < Pow2(|bits|)
    ensures ToBits(FromBits(bits), |bits|) == bits
  {
    if bits != [] {
      BitsRoundTrip(bits[1..]);
      assert FromBits(bits) / 2 == FromBits(bits[1..]);
    }
  }

  function BitOf(value: Byte, bit: nat): bool
    requires bit < 8
  {
    ToBits(value, 8)[bit]
  }

  function PutBit(value: Byte, bit: nat, on: bool): Byte
    requires bit < 8
  {
    var bits := ToBits(value, 8)[bit := on];
    BitsRoundTrip(bits);
    assert Pow2(8) == 256;
    FromBits(bits)
  }

  lemma {:induction false} ToBitsAt(value: nat, width: nat, bit: nat)
    requires bit < width
    ensures ToBits(value, width)[bit] <==> value / Pow2(bit) % 2 == 1
  {
    if bit > 0 {
      ToBitsAt(value / 2, width - 1, bit - 1);
      HalfFirst(value, Pow2(bit - 1));
    }
  }

  lemma {:induction false} HalfFirst(value: nat, divisor: nat)
    requires divisor >= 1
    ensures value / 2 / divisor == value / (2 * divisor)
  {
    var half, odd := value / 2, value % 2;
    var quotient, rest := half / divisor, half % divisor;
    assert value == 2 * (quotient * divisor + rest) + odd == quotient * (2 * divisor) + (2 * rest + odd);
    QuotientOf(value, 2 * divisor, quotient, 2 * rest + odd);
  }

  /** Bit 0 is the lowest: bit k is what the mask 1 << k selects. */
  lemma {:induction false} BitOfMeaning(value: Byte, bit: nat)
    requires bit < 8
    ensures BitOf(value, bit) <==> value / Pow2(bit) % 2 == 1
    ensures Pow2(0) == 1 && (bit > 0 ==> Pow2(bit) == 2 * Pow2(bit - 1))
  {
    ToBitsAt(value, 8, bit);
  }

  /** Writing one bit sets that bit and keeps all others. */
  lemma {:induction false} PutBitOf(value: Byte, bit: nat, on: bool, other: nat)
    requires bit < 8 && other < 8
    ensures BitOf(PutBit(value, bit, on), other) == if other == bit then on else BitOf(value, other)
  {
    BitsRoundTrip(ToBits(value, 8)[bit := on]);
  }

  function Fetch(memory: Memory, area: Byte, db: U16, start: nat, count: nat): (value: seq<Byte>)
    ensures |value| == count
    ensures forall i | 0 <= i < count :: value[i] == Peek(memory, MemoryKey(area, db, start + i))
  {
    seq<Byte>(count, i requires 0 <= i < count => Peek(memory, MemoryKey(area, db, start + i)))
  }

  function Store(memory: Memory, area: Byte, db: U16, start: nat, value: seq<Byte>): Memory {
    if value == [] then memory
    else
      var last := |value| - 1;
      Store(memory, area, db, start, value[..last])[MemoryKey(area, db, start + last) := value[last]]
  }

  /** Store writes exactly its span. */
  lemma {:induction false} StorePeek(memory: Memory, area: Byte, db: U16, start: nat, value: seq<Byte>, key: MemoryKey)
    ensures Peek(Store(memory, area, db, start, value), key) ==
      if key.area == area && key.db == db && start <= key.offset < start + |value| then value[key.offset - start]
      else Peek(memory, key)
  {
    if value != [] {
      StorePeek(memory, area, db, start, value[..|value| - 1], key);
    }
  }

  // ------------------------------------------------------------- descriptors

  datatype WordFormat = WordFormat(width: Width, transport: Byte)

  function FormatOf(wordLength: Byte): Option<WordFormat> {
    match wordLength
    case 0x01 => Some(WordFormat(1, 0x03))
    case 0x02 => Some(WordFormat(1, 0x04))
    case 0x04 => Some(WordFormat(2, 0x04))
    case 0x06 => Some(WordFormat(4, 0x04))
    case 0x08 => Some(WordFormat(4, 0x07))
    case 0x1c | 0x1d => Some(WordFormat(2, 0x09))
    case _ => None
  }

  function DecodeSpec(spec: seq<Byte>): Option<VariableItem>
    requires |spec| == 12
  {
    var wordLength, amount := spec[3], U16At(spec, 4);
    if spec[0] != 0x12 || spec[1] != 0x0a || spec[2] != 0x10 then None
    else
      match FormatOf(wordLength)
      case None => None
      case Some(WordFormat(width, transport)) =>
        if wordLength == 0x01 && amount != 1 then None
        else
          var dataBytes := amount * width;
          var length := if wordLength == 0x01 then 1 else if transport == 0x04 then dataBytes * 8 else dataBytes;
          if length > 65535 then None
          else
            Some(VariableItem(wordLength, amount, U16At(spec, 6), spec[8],
                              0x1_0000 * (spec[9] as int) + 0x100 * (spec[10] as int) + spec[11], dataBytes, transport, length))
  }

  /** The first `count` specifications of a parameter block. */
  function DecodeSpecs(parameters: seq<Byte>, count: nat): (items: Option<seq<VariableItem>>)
    requires |parameters| >= 2 + 12 * count
    ensures items.Some? ==> |items.value| == count
  {
    if count == 0 then Some([])
    else
      match DecodeSpecs(parameters, count - 1)
      case None => None
      case Some(front) =>
        var at := 2 + 12 * (count - 1);
        match DecodeSpec(parameters[at..at + 12])
        case None => None
        case Some(item) => Some(front + [item])
  }

  function VariablesOf(parameters: seq<Byte>): Option<seq<VariableItem>> {
    if |parameters| < 2 then None
    else if parameters[1] == 0 || |parameters| != 2 + 12 * (parameters[1] as int) then None
    else DecodeSpecs(parameters, parameters[1])
  }

  method ParseVariableItems(parameters: seq<Byte>) returns (r: Option<seq<VariableItem>>)
    ensures r == VariablesOf(parameters)
  {
    if |parameters| < 2 {
      return None;
    }
    var count: nat := parameters[1];
    if count == 0 || |parameters| != 2 + 12 * count {
      return None;
    }
    var items: seq<VariableItem> := [];
    for index := 0 to count
      invariant DecodeSpecs(parameters, index) == Some(items)
    {
      var at := 2 + 12 * index;
      var item := DecodeSpec(parameters[at..at + 12]);
      if item.None? {
        NoneStays(parameters, index + 1, count);
        return None;
      }
      items := items + [item.value];
    }
    return Some(items);
  }

  lemma {:induction false} NoneStays(parameters: seq<Byte>, from: nat, count: nat)
    requires from <= count && |parameters| >= 2 + 12 * count
    requires DecodeSpecs(parameters, from).None?
    ensures DecodeSpecs(parameters, count).None?
  {
    if from < count {
      NoneStays(parameters, from, count - 1);
    }
  }

  // --------------------------------------------------------- one variable

  predicate Indexed(item: VariableItem) {
    item.wordLength == 0x1c || item.wordLength == 0x1d
  }

  function StartOf(item: VariableItem): nat {
    if Indexed(item) then item.address * 2 else item.address / 8
  }

  function ReadVariable(memory: Memory, item: VariableItem): (value: seq<Byte>)
    ensures |value| == if item.wordLength == 0x01 then 1 else item.dataBytes
  {
    if item.wordLength == 0x01 then
      [if BitOf(Peek(memory, MemoryKey(item.area, item.db, item.address / 8)), item.address % 8) then 1 else 0]
    else Fetch(memory, item.area, item.db, StartOf(item), item.dataBytes)
  }

  function WriteVariable(memory: Memory, item: VariableItem, value: seq<Byte>): Memory
    requires item.wordLength == 0x01 ==> |value| >= 1
  {
    if item.wordLength == 0x01 then
      var key := MemoryKey(item.area, item.db, item.address / 8);
      memory[key := PutBit(Peek(memory, key), item.address % 8, value[0] == 1)]
    else Store(memory, item.area, item.db, StartOf(item), value)
  }

  // ------------------------------------------------------------------ jobs

  function ParseJob(payload: seq<Byte>): Option<Job> {
    if |payload| < 10 || payload[0] != 0x32 || payload[1] != 0x01 || payload[2] != 0 || payload[3] != 0
    then None
    else
      var reference := U16At(payload, 4);
      var parameterLength := U16At(payload, 6);
      var dataLength := U16At(payload, 8);
      if reference == 0 || parameterLength > |payload| - 10 || dataLength != |payload| - 10 - parameterLength then None
      else Some(Job(reference, payload[10..10 + parameterLength], payload[10 + parameterLength..]))
  }

  lemma {:induction false} JobParses(job: Job)
    requires job.reference != 0 && |job.parameters| <= MAX_U16 && |job.data| <= MAX_U16
    ensures ParseJob(JobPdu(job)) == Some(job)
  {
    var payload, header := JobPdu(job), JobHeader(job);
    assert forall i | 0 <= i < 10 :: payload[i] == header[i];
    assert U16At(header, 4) == job.reference;
    assert U16At(header, 6) == |job.parameters|;
    assert payload[10..10 + |job.parameters|] == job.parameters;
    assert payload[10 + |job.parameters|..] == job.data;
  }

  lemma {:induction false} ParsedIsJob(payload: seq<Byte>)
    requires ParseJob(payload).Some?
    ensures
      var job := ParseJob(payload).value;
      |job.parameters| <= MAX_U16 && |job.data| <= MAX_U16 && payload == JobPdu(job)
  {
    var job := ParseJob(payload).value;
    assert |job.parameters| == U16At(payload, 6) && |job.data| == U16At(payload, 8);
    assert payload[..10] == JobHeader(job);
    assert payload == payload[..10] + job.parameters + job.data;
  }

  /** The controller recovers exactly the job that was encoded. */
  lemma {:induction false} JobImage(payload: seq<Byte>, job: Job)
    ensures ParseJob(payload) == Some(job) <==>
      && job.reference != 0
      && |job.parameters| <= MAX_U16 && |job.data| <= MAX_U16
      && payload == JobPdu(job)
  {
    if ParseJob(payload) == Some(job) {
      ParsedIsJob(payload);
    } else if && job.reference != 0
              && |job.parameters| <= MAX_U16 && |job.data| <= MAX_U16
              && payload == JobPdu(job) {
      JobParses(job);
    }
  }

  /** What one read item contributes to the reply. */
  function ReadBlock(memory: Memory, item: VariableItem, code: Byte, last: bool): seq<Byte> {
    if code != 0xff then [code, 0, 0, 4]
    else
      var value := ReadVariable(memory, item);
      [0xff, item.transport, item.length / 256, item.length % 256] + value
      + if !last && |value| % 2 != 0 then [0] else []
  }

  function ReadBlocksFrom(memory: Memory, items: seq<VariableItem>, verdict: Verdict, from: nat): seq<Byte>
    requires from <= |items|
    decreases |items| - from
  {
    if from == |items| then []
    else
      ReadBlock(memory, items[from], verdict.Code(from), from == |items| - 1)
      + ReadBlocksFrom(memory, items, verdict, from + 1)
  }

  /** A write job as far as it got: the memory, the codes given, and whether the whole
      job was well formed. */
  datatype WriteRun = WriteRun(memory: Memory, codes: seq<Byte>, ok: bool)

  function ApplyOne(memory: Memory, item: VariableItem, value: seq<Byte>, code: Byte): Memory
    requires item.wordLength == 0x01 ==> |value| >= 1
  {
    if code == 0xff then WriteVariable(memory, item, value) else memory
  }

  predicate WriteHeaderOk(item: VariableItem, data: seq<Byte>, at: nat)
    requires at <= |data|
  {
    && |data| - at >= 4
    && data[at] == 0 && data[at + 1] == item.transport && U16At(data, at + 2) == item.length
    && item.dataBytes <= |data| - at - 4
  }

  /** One bit is one data byte, so a bit write always has a value. */
  predicate BitIsOne(item: VariableItem) {
    item.wordLength == 0x01 ==> item.dataBytes == 1
  }

  /** One write item: the memory after it, and the offset behind its data, unless that is
      malformed. A bad filler byte is noticed only after the item is applied. */
  datatype WriteStep = WriteStep(memory: Memory, next: Option<nat>)

  function StepWrite(memory: Memory, item: VariableItem, data: seq<Byte>, at: nat, code: Byte, last: bool): (step: WriteStep)
    requires BitIsOne(item) && at <= |data|
    ensures step.next.Some? ==> step.next.value <= |data|
  {
    if !WriteHeaderOk(item, data, at) then WriteStep(memory, None)
    else
      var end := at + 4 + item.dataBytes;
      var applied := ApplyOne(memory, item, data[at + 4..end], code);
      if last || item.dataBytes % 2 == 0 then WriteStep(applied, Some(end))
      else if end >= |data| || data[end] != 0 then WriteStep(applied, None)
      else WriteStep(applied, Some(end + 1))
  }

  function WritesFrom(memory: Memory, items: seq<VariableItem>, verdict: Verdict, data: seq<Byte>, at: nat, from: nat): WriteRun
    requires at <= |data| && from <= |items|
    requires forall i | 0 <= i < |items| :: BitIsOne(items[i])
    decreases |items| - from
  {
    if from == |items| then WriteRun(memory, [], at == |data|)
    else
      var step := StepWrite(memory, items[from], data, at, verdict.Code(from), from == |items| - 1);
      if step.next.None? then WriteRun(step.memory, [], false)
      else Continue([verdict.Code(from)], WritesFrom(step.memory, items, verdict, data, step.next.value, from + 1))
  }

  function Continue(codes: seq<Byte>, rest: WriteRun): WriteRun {
    rest.(codes := codes + rest.codes)
  }

  lemma {:induction false} ContinueStep(codes: seq<Byte>, code: Byte, rest: WriteRun)
    ensures Continue(codes, Continue([code], rest)) == Continue(codes + [code], rest)
  {
    assert codes + ([code] + rest.codes) == codes + [code] + rest.codes;
  }

  lemma {:induction false} DecodedBits(parameters: seq<Byte>, count: nat)
    requires |parameters| >= 2 + 12 * count
    ensures DecodeSpecs(parameters, count).Some? ==>
      forall i | 0 <= i < count :: BitIsOne(DecodeSpecs(parameters, count).value[i])
  {
    if count > 0 {
      DecodedBits(parameters, count - 1);
    }
  }

  /** The memory after a job, and the reply payload if the controller sends one. */
  datatype Served = Served(memory: Memory, reply: Option<seq<Byte>>)

  const MAX_REPLY := 65528 // what a TPKT frame can carry

  function AckReply(reference: U16, ack: AckData): Option<seq<Byte>> {
    if 12 + |ack.parameters| + |ack.data| > MAX_REPLY then None else Some(AckPdu(reference, ack))
  }

  function ServeJob(memory: Memory, job: Job, verdict: Verdict): Served {
    if verdict.Global() != 0 then Served(memory, AckReply(job.reference, AckData([], [], verdict.Global())))
    else if |job.parameters| < 2 then Served(memory, None)
    else if job.parameters[0] == 0x04 then
      if job.data != [] then Served(memory, None)
      else
        match VariablesOf(job.parameters)
        case None => Served(memory, None)
        case Some(items) =>
          Served(memory, AckReply(job.reference,
                                  AckData([0x04, job.parameters[1]],
                                          ReadBlocksFrom(memory, items, verdict, 0), 0)))
    else if job.parameters[0] == 0x05 then
      match VariablesOf(job.parameters)
      case None => Served(memory, None)
      case Some(items) =>
        DecodedBits(job.parameters, job.parameters[1]);
        var run := WritesFrom(memory, items, verdict, job.data, 0, 0);
        Served(run.memory,
               if run.ok then AckReply(job.reference, AckData([0x05, job.parameters[1]], run.codes, 0)) else None)
    else Served(memory, None)
  }

  function Serve(memory: Memory, payload: seq<Byte>, verdict: Verdict): Served {
    match ParseJob(payload)
    case None => Served(memory, None)
    case Some(job) => ServeJob(memory, job, verdict)
  }

  // ---------------------------------------------------------------- server

  lemma {:induction false} ReadBlocksStep(memory: Memory, items: seq<VariableItem>, verdict: Verdict, index: nat, done: seq<Byte>)
    requires index < |items|
    ensures done + ReadBlock(memory, items[index], verdict.Code(index), index == |items| - 1)
            + ReadBlocksFrom(memory, items, verdict, index + 1)
         == done + ReadBlocksFrom(memory, items, verdict, index)
  {
    var block := ReadBlock(memory, items[index], verdict.Code(index), index == |items| - 1);
    var rest := ReadBlocksFrom(memory, items, verdict, index + 1);
    assert done + (block + rest) == done + block + rest;
  }

  class Server {
    var memory: Memory

    constructor (initial: Memory)
      ensures memory == initial
    {
      memory := initial;
    }

    method ReadItem(item: VariableItem) returns (value: seq<Byte>)
      ensures value == ReadVariable(memory, item)
    {
      if item.wordLength == 0x01 {
        var current := Peek(memory, MemoryKey(item.area, item.db, item.address / 8));
        return [if BitOf(current, item.address % 8) then 1 else 0];
      }
      var start := if Indexed(item) then item.address * 2 else item.address / 8;
      var buffer := new Byte[item.dataBytes](_ => 0);
      for index := 0 to buffer.Length
        invariant forall i | 0 <= i < index :: buffer[i] == Peek(memory, MemoryKey(item.area, item.db, start + i))
      {
        buffer[index] := Peek(memory, MemoryKey(item.area, item.db, start + index));
      }
      return buffer[..];
    }

    method WriteItem(item: VariableItem, value: seq<Byte>)
      requires item.wordLength == 0x01 ==> |value| >= 1
      modifies this
      ensures memory == WriteVariable(old(memory), item, value)
    {
      if item.wordLength == 0x01 {
        var key := MemoryKey(item.area, item.db, item.address / 8);
        memory := memory[key := PutBit(Peek(memory, key), item.address % 8, value[0] == 1)];
        return;
      }
      var start := if Indexed(item) then item.address * 2 else item.address / 8;
      for index := 0 to |value|
        invariant memory == Store(old(memory), item.area, item.db, start, value[..index])
      {
        assert value[..index + 1][..index] == value[..index];
        memory := memory[MemoryKey(item.area, item.db, start + index) := value[index]];
      }
      assert value[..|value|] == value;
    }

    method AnswerItem(item: VariableItem, returnCode: Byte, last: bool) returns (block: seq<Byte>)
      ensures block == ReadBlock(memory, item, returnCode, last)
    {
      if returnCode != 0xff {
        return [returnCode, 0, 0, 4];
      }
      var value := ReadItem(item);
      block := [0xff, item.transport, item.length / 256, item.length % 256];
      block := block + value;
      if !last && |value| % 2 != 0 {
        block := block + [0];
      }
    }

    method HandleRead(items: seq<VariableItem>, verdict: Verdict) returns (response: seq<Byte>)
      ensures response == ReadBlocksFrom(memory, items, verdict, 0)
    {
      response := [];
      for index := 0 to |items|
        invariant response + ReadBlocksFrom(memory, items, verdict, index) == ReadBlocksFrom(memory, items, verdict, 0)
      {
        ReadBlocksStep(memory, items, verdict, index, response);
        var block := AnswerItem(items[index], verdict.Code(index), index == |items| - 1);
        response := response + block;
      }
    }

    /** The loop body of the write handler: apply one item, return the next offset. */
    method TakeItem(item: VariableItem, data: seq<Byte>, start: nat, returnCode: Byte, last: bool)
      returns (next: Option<nat>)
      requires start <= |data| && BitIsOne(item)
      modifies this
      ensures WriteStep(memory, next) == StepWrite(old(memory), item, data, start, returnCode, last)
    {
      if |data| - start < 4 {
        return None;
      }
      if data[start] != 0 || data[start + 1] != item.transport || U16At(data, start + 2) != item.length {
        return None;
      }
      var offset := start + 4;
      if item.dataBytes > |data| - offset {
        return None;
      }
      var value := data[offset..offset + item.dataBytes];
      offset := offset + item.dataBytes;
      if returnCode == 0xff {
        WriteItem(item, value);
      }
      if !last && item.dataBytes % 2 != 0 {
        if offset >= |data| || data[offset] != 0 {
          return None;
        }
        offset := offset + 1;
      }
      return Some(offset);
    }

    method HandleWrite(items: seq<VariableItem>, data: seq<Byte>, verdict: Verdict) returns (r: Option<seq<Byte>>)
      requires forall i | 0 <= i < |items| :: BitIsOne(items[i])
      modifies this
      ensures memory == WritesFrom(old(memory), items, verdict, data, 0, 0).memory
      ensures r == if WritesFrom(old(memory), items, verdict, data, 0, 0).ok
                   then Some(WritesFrom(old(memory), items, verdict, data, 0, 0).codes) else None
    {
      var offset := 0;
      var returnCodes: seq<Byte> := [];
      ghost var whole := WritesFrom(memory, items, verdict, data, 0, 0);
      assert [] + whole.codes == whole.codes;
      for index := 0 to |items|
        invariant 0 <= offset <= |data|
        invariant whole == Continue(returnCodes, WritesFrom(memory, items, verdict, data, offset, index))
      {
        var next := TakeItem(items[index], data, offset, verdict.Code(index), index == |items| - 1);
        if next.None? {
          return None;
        }
        offset := next.value;
        ContinueStep(returnCodes, verdict.Code(index), WritesFrom(memory, items, verdict, data, offset, index + 1));
        returnCodes := returnCodes + [verdict.Code(index)];
      }
      if offset != |data| {
        return None;
      }
      assert returnCodes + [] == returnCodes;
      return Some(returnCodes);
    }

    /** One turn of the connection loop: a job in, a reply payload out, or the
        connection is dropped. */
    method Handle(payload: seq<Byte>, verdict: Verdict) returns (reply: Option<seq<Byte>>)
      modifies this
      ensures Served(memory, reply) == Serve(old(memory), payload, verdict)
    {
      var job := ParseJob(payload);
      if job.None? {
        return None;
      }
      var Job(reference, parameters, data) := job.value;
      if verdict.Global() != 0 {
        return AckReply(reference, AckData([], [], verdict.Global()));
      }
      if |parameters| < 2 {
        return None;
      }
      if parameters[0] == 0x04 {
        if data != [] {
          return None;
        }
        var items := ParseVariableItems(parameters);
        if items.None? {
          return None;
        }
        var response := HandleRead(items.value, verdict);
        return AckReply(reference, AckData([0x04, parameters[1]], response, 0));
      }
      if parameters[0] == 0x05 {
        var items := ParseVariableItems(parameters);
        if items.None? {
          return None;
        }
        DecodedBits(parameters, parameters[1]);
        var codes := HandleWrite(items.value, data, verdict);
        if codes.None? {
          return None;
        }
        return AckReply(reference, AckData([0x05, parameters[1]], codes.value, 0));
      }
      return None;
    }
  }
}
