/** ISO-on-TCP framing (internal/isotcp/framing.go): the TPKT header of section 6 of
    RFC 1006 and the COTP DT header of section 13.7 of RFC 905, over a byte stream that
    may accept and deliver any number of bytes at a time. */
module Framing {
  import opened Bytes
  import opened Errors

  const TPKT_HEADER := 4
  const DATA_HEADER := 7
  const MAX_TPKT := 65535

  // ----------------------------------------------------------------- writer

  /** What one Write call reports: a count, which may be nonsense, and an error. */
  datatype WriteReport = WriteReport(count: int, failed: bool)

  /** How a writer answers its n-th call when it is given a chunk of some length. */
  type WritePlan = (nat, nat) -> WriteReport

  /** Every call takes at least one byte and no call fails. */
  ghost predicate Progressing(plan: WritePlan) {
    forall call: nat, length: nat | length > 0 :: 0 < plan(call, length).count <= length && !plan(call, length).failed
  }

  /** An io.Writer. A call that reports a count outside its own chunk accepted nothing. */
  class Writer {
    const plan: WritePlan
    var calls: nat
    var accepted: seq<Byte>

    constructor (plan: WritePlan)
      ensures this.plan == plan && calls == 0 && accepted == []
    {
      this.plan := plan;
      calls := 0;
      accepted := [];
    }

    method Write(chunk: seq<Byte>) returns (report: WriteReport)
      modifies this
      ensures report == plan(old(calls), |chunk|) && calls == old(calls) + 1
      ensures accepted == old(accepted) + if 0 <= report.count <= |chunk| then chunk[..report.count] else []
    {
      report := plan(calls, |chunk|);
      calls := calls + 1;
      if 0 <= report.count <= |chunk| {
        accepted := accepted + chunk[..report.count];
      }
    }
  }

  /** Every byte, or exactly how many the writer took before it failed. */
  method WriteFull(writer: Writer, frame: seq<Byte>) returns (written: nat, failed: bool)
    modifies writer
    ensures written <= |frame|
    ensures writer.accepted == old(writer.accepted) + frame[..written]
    ensures !failed ==> written == |frame|
    ensures Progressing(writer.plan) ==> !failed
  {
    written := 0;
    while written < |frame|
      invariant written <= |frame|
      invariant writer.accepted == old(writer.accepted) + frame[..written]
    {
      var report := writer.Write(frame[written..]);
      if report.count < 0 || report.count > |frame| - written {
        return written, true;
      }
      assert frame[..written] + frame[written..][..report.count] == frame[..written + report.count];
      written := written + report.count;
      if report.failed {
        return written, true;
      }
      if report.count == 0 {
        return written, true;
      }
    }
    return written, false;
  }

  // ----------------------------------------------------------------- reader

  /** An io.Reader: the bytes that will still arrive before the stream ends or fails, in
      chunks of any size that makes progress. */
  class Reader {
    const plan: (nat, nat) -> nat
    var calls: nat
    var incoming: seq<Byte>

    constructor (plan: (nat, nat) -> nat, incoming: seq<Byte>)
      ensures this.plan == plan && calls == 0 && this.incoming == incoming
    {
      this.plan := plan;
      calls := 0;
      this.incoming := incoming;
    }

    method Read(limit: nat) returns (chunk: seq<Byte>, ended: bool)
      requires limit > 0
      modifies this
      ensures ended <==> old(incoming) == []
      ensures |chunk| <= limit && old(incoming) == chunk + incoming
      ensures !ended ==> |chunk| > 0
    {
      if incoming == [] {
        return [], true;
      }
      var size := plan(calls, limit);
      calls := calls + 1;
      size := if size == 0 then 1 else Min(size, Min(limit, |incoming|));
      chunk, incoming := incoming[..size], incoming[size..];
      ended := false;
    }
  }

  /** io.ReadFull: exactly `count` bytes, whatever the chunks are. */
  method ReadFull(reader: Reader, count: nat) returns (r: Option<seq<Byte>>)
    modifies reader
    ensures r.Some? <==> |old(reader.incoming)| >= count
    ensures r.Some? ==> r.value == old(reader.incoming)[..count] && reader.incoming == old(reader.incoming)[count..]
    ensures r.None? ==> reader.incoming == []
  {
    var bytes: seq<Byte> := [];
    while |bytes| < count
      invariant |bytes| <= count
      invariant old(reader.incoming) == bytes + reader.incoming
    {
      var chunk, ended := reader.Read(count - |bytes|);
      if ended {
        return None;
      }
      assert bytes + (chunk + reader.incoming) == bytes + chunk + reader.incoming;
      bytes := bytes + chunk;
    }
    return Some(bytes);
  }

  // ----------------------------------------------------------------- frames

  /** The first TPKT frame of a stream and what follows it. */
  function NextFrame(stream: seq<Byte>, maxFrameBytes: int): Option<(seq<Byte>, seq<Byte>)> {
    if maxFrameBytes < DATA_HEADER || maxFrameBytes > MAX_TPKT then None
    else if |stream| < TPKT_HEADER || stream[0] != 0x03 || stream[1] != 0x00 then None
    else
      var length := U16At(stream, 2);
      if length < DATA_HEADER || length > maxFrameBytes || length > |stream| then None
      else Some((stream[..length], stream[length..]))
  }

  /** A frame is taken exactly when the stream starts with one: version 3, reserved 0, its
      own length in the header, at least 7 bytes and at most what the reader allows. */
  lemma {:induction false} NextFrameImage(stream: seq<Byte>, maxFrameBytes: int, frame: seq<Byte>, rest: seq<Byte>)
    ensures NextFrame(stream, maxFrameBytes) == Some((frame, rest)) <==>
      && stream == frame + rest
      && 7 <= |frame| <= maxFrameBytes <= 65535
      && frame[..4] == [0x03, 0x00, |frame| / 256, |frame| % 256]
  {
    if NextFrame(stream, maxFrameBytes) == Some((frame, rest)) {
      assert stream[..|frame|] == frame && stream[|frame|..] == rest;
      assert U16At(stream, 2) == |frame|;
      assert frame[..4] == [0x03, 0x00, |frame| / 256, |frame| % 256];
    }
    if && stream == frame + rest
       && 7 <= |frame| <= maxFrameBytes <= 65535
       && frame[..4] == [0x03, 0x00, |frame| / 256, |frame| % 256]
    {
      assert forall i | 0 <= i < 4 :: stream[i] == frame[i] == frame[..4][i];
      assert U16At(stream, 2) == |frame|;
      assert stream[..|frame|] == frame && stream[|frame|..] == rest;
    }
  }

  method ReadFrame(reader: Reader, maxFrameBytes: int) returns (r: Option<seq<Byte>>)
    modifies reader
    ensures
      match NextFrame(old(reader.incoming), maxFrameBytes)
      case None => r.None?
      case Some((frame, rest)) => r == Some(frame) && reader.incoming == rest
  {
    if maxFrameBytes < DATA_HEADER || maxFrameBytes > MAX_TPKT {
      return None;
    }
    ghost var stream := reader.incoming;
    var header := ReadFull(reader, TPKT_HEADER);
    if header.None? {
      return None;
    }
    if header.value[0] != 0x03 || header.value[1] != 0x00 {
      return None;
    }
    var length := U16At(header.value, 2);
    if length < DATA_HEADER || length > maxFrameBytes {
      return None;
    }
    var body := ReadFull(reader, length - TPKT_HEADER);
    if body.None? {
      return None;
    }
    assert header.value + body.value == stream[..length];
    return Some(header.value + body.value);
  }

  function DataHeader(length: U16): seq<Byte> {
    [0x03, 0x00, length / 256, length % 256, 0x02, 0xf0, 0x80]
  }

  /** One complete COTP DT around a payload. */
  function DataFrame(payload: seq<Byte>): (frame: seq<Byte>)
    requires |payload| <= MAX_TPKT - DATA_HEADER
    ensures |frame| == |payload| + DATA_HEADER
  {
    DataHeader(DATA_HEADER + |payload|) + payload
  }

  method WrapData(payload: seq<Byte>) returns (r: Result<seq<Byte>>)
    ensures r.Ok? <==> |payload| <= MAX_TPKT - DATA_HEADER
    ensures r.Ok? ==> r.value == DataFrame(payload)
  {
    if |payload| > MAX_TPKT - DATA_HEADER {
      return Err(InvariantError());
    }
    var length := DATA_HEADER + |payload|;
    var frame := new Byte[length](_ => 0);
    frame[0] := 0x03;
    frame[2], frame[3] := length / 256, length % 256;
    frame[4] := 0x02;
    frame[5] := 0xf0;
    frame[6] := 0x80;
    assert frame[..DATA_HEADER] == DataHeader(length);
    forall k | 0 <= k < |payload| {
      frame[DATA_HEADER + k] := payload[k];
    }
    assert frame[..] == frame[..DATA_HEADER] + frame[DATA_HEADER..];
    return Ok(frame[..]);
  }

  datatype Unwrapped = Payload(data: seq<Byte>) | Malformed | Fragmented

  function UnwrapData(frame: seq<Byte>): Unwrapped {
    if |frame| < DATA_HEADER then Malformed
    else if frame[0] != 0x03 || frame[1] != 0 then Malformed
    else if U16At(frame, 2) != |frame| then Malformed
    else if frame[4] != 0x02 || frame[5] != 0xf0 then Malformed
    else if frame[6] < 0x80 then Fragmented
    else Payload(frame[DATA_HEADER..])
  }

  /** A frame is taken as a payload exactly when it is the payload's DT frame, up to the
      low seven bits of the TPDU number, which are ignored. */
  lemma {:induction false} UnwrapImage(frame: seq<Byte>, payload: seq<Byte>)
    ensures UnwrapData(frame) == Payload(payload) <==>
      && |payload| <= MAX_TPKT - DATA_HEADER
      && |frame| == |payload| + DATA_HEADER
      && frame[6] >= 0x80
      && frame[6 := 0x80] == DataFrame(payload)
  {
    if UnwrapData(frame) == Payload(payload) {
      assert frame[6 := 0x80] == DataHeader(|frame|) + payload;
    }
    if && |payload| <= MAX_TPKT - DATA_HEADER
       && |frame| == |payload| + DATA_HEADER
       && frame[6] >= 0x80
       && frame[6 := 0x80] == DataFrame(payload)
    {
      var data := DataFrame(payload);
      assert forall i | 0 <= i < |frame| && i != 6 :: frame[i] == data[i];
      assert data[2] == |frame| / 256 && data[3] == |frame| % 256;
      assert frame[DATA_HEADER..] == payload;
    }
  }

  lemma {:induction false} WrappedUnwraps(payload: seq<Byte>)
    requires |payload| <= MAX_TPKT - DATA_HEADER
    ensures UnwrapData(DataFrame(payload)) == Payload(payload)
  {
    var frame := DataFrame(payload);
    assert frame[6] == 0x80 && frame[6 := 0x80] == frame;
    UnwrapImage(frame, payload);
  }

  /** A frame at the head of a stream is read whole, and only it. */
  lemma {:induction false} WrappedIsNext(payload: seq<Byte>, rest: seq<Byte>, maxFrameBytes: int)
    requires |payload| + DATA_HEADER <= maxFrameBytes <= MAX_TPKT
    ensures NextFrame(DataFrame(payload) + rest, maxFrameBytes) == Some((DataFrame(payload), rest))
  {
    var frame := DataFrame(payload);
    var stream := frame + rest;
    assert stream[0] == frame[0] && stream[1] == frame[1] && stream[2] == frame[2] && stream[3] == frame[3];
    assert U16At(stream, 2) == |frame|;
    assert stream[..|frame|] == frame && stream[|frame|..] == rest;
  }

  /** A frame that is not all there yet is not read at all. */
  lemma {:induction false} PartialIsNotNext(payload: seq<Byte>, length: nat, maxFrameBytes: int)
    requires |payload| <= MAX_TPKT - DATA_HEADER && length < |payload| + DATA_HEADER
    ensures NextFrame(DataFrame(payload)[..length], maxFrameBytes).None?
  {
    var frame := DataFrame(payload);
    if length >= TPKT_HEADER {
      assert frame[..length][2] == frame[2] && frame[..length][3] == frame[3];
    }
  }

  // ---------------------------------------------------------------- streams

  predicate Wrappable(payloads: seq<seq<Byte>>, maxFrameBytes: int) {
    maxFrameBytes <= MAX_TPKT && forall i | 0 <= i < |payloads| :: |payloads[i]| + DATA_HEADER <= maxFrameBytes
  }

  /** The concatenation of the payloads' frames. */
  function Stream(payloads: seq<seq<Byte>>, maxFrameBytes: int): seq<Byte>
    requires Wrappable(payloads, maxFrameBytes)
  {
    if payloads == [] then [] else DataFrame(payloads[0]) + Stream(payloads[1..], maxFrameBytes)
  }

  /** Repeated ReadFrame and UnwrapData: as many payloads as asked for, or nothing. */
  method ReadPayloads(reader: Reader, count: nat, maxFrameBytes: int) returns (r: Option<seq<seq<Byte>>>)
    modifies reader
    ensures forall payloads: seq<seq<Byte>>, rest: seq<Byte> ::
      |payloads| == count && Wrappable(payloads, maxFrameBytes) &&
      old(reader.incoming) == Stream(payloads, maxFrameBytes) + rest ==>
      r == Some(payloads) && reader.incoming == rest
  {
    var taken: seq<seq<Byte>> := [];
    ghost var stream := reader.incoming;
    for index := 0 to count
      invariant |taken| == index
      invariant forall payloads: seq<seq<Byte>>, rest: seq<Byte> ::
        |payloads| == count && Wrappable(payloads, maxFrameBytes) && stream == Stream(payloads, maxFrameBytes) + rest ==>
        taken == payloads[..index] && reader.incoming == Stream(payloads[index..], maxFrameBytes) + rest
    {
      ghost var before := reader.incoming;
      var frame := ReadFrame(reader, maxFrameBytes);
      forall payloads: seq<seq<Byte>>, rest: seq<Byte> |
        |payloads| == count && Wrappable(payloads, maxFrameBytes) && stream == Stream(payloads, maxFrameBytes) + rest
        ensures frame.Some? && UnwrapData(frame.value) == Payload(payloads[index])
        ensures reader.incoming == Stream(payloads[index + 1..], maxFrameBytes) + rest
      {
        HeadOfStream(payloads, index, rest, maxFrameBytes);
      }
      if frame.None? {
        return None;
      }
      var payload := UnwrapData(frame.value);
      if !payload.Payload? {
        return None;
      }
      taken := taken + [payload.data];
    }
    forall payloads: seq<seq<Byte>>, rest: seq<Byte> |
      |payloads| == count && Wrappable(payloads, maxFrameBytes) && stream == Stream(payloads, maxFrameBytes) + rest
      ensures taken == payloads && reader.incoming == rest
    {
      assert payloads[..count] == payloads && Stream(payloads[count..], maxFrameBytes) + rest == rest;
    }
    return Some(taken);
  }

  lemma {:induction false} HeadOfStream(payloads: seq<seq<Byte>>, index: nat, rest: seq<Byte>, maxFrameBytes: int)
    requires index < |payloads| && Wrappable(payloads, maxFrameBytes)
    ensures NextFrame(Stream(payloads[index..], maxFrameBytes) + rest, maxFrameBytes)
         == Some((DataFrame(payloads[index]), Stream(payloads[index + 1..], maxFrameBytes) + rest))
    ensures UnwrapData(DataFrame(payloads[index])) == Payload(payloads[index])
  {
    hide DataFrame, NextFrame, UnwrapData;
    var tail := Stream(payloads[index + 1..], maxFrameBytes);
    assert payloads[index..][1..] == payloads[index + 1..];
    WrappedIsNext(payloads[index], tail + rest, maxFrameBytes);
    WrappedUnwraps(payloads[index]);
    assert Stream(payloads[index..], maxFrameBytes) + rest == DataFrame(payloads[index]) + (tail + rest);
  }
}
