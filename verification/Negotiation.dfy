/** Connection negotiation: the COTP connection request and confirm of sections 13.3 and
    13.4 of RFC 905 (internal/isotcp/framing.go), the S7 setup exchange, and the limits a
    Ready session is left with (client.go, Connect). */
module Negotiation {
  import opened Bytes
  import opened Errors
  import opened Protocol
  import opened Framing

  const MIN_TPDU := 128
  const MAX_TPDU := 8192
  const DEFAULT_TPDU := 1024
  const DATA_TPDU_HEADER := 3
  const MIN_PDU := 240
  const MAX_PDU := 960
  const MAX_AMQ := 1

  // ------------------------------------------------------------- TPDU sizes

  /** What size & (size - 1) == 0 tests. */
  predicate PowerOfTwo(size: nat) {
    size == 1 || (size > 0 && size % 2 == 0 && PowerOfTwo(size / 2))
  }

  predicate TpduSize(size: int) {
    MIN_TPDU <= size <= MAX_TPDU && PowerOfTwo(size)
  }

  /** How often a size can be halved before it is one. */
  function Halvings(size: nat): nat {
    if size <= 1 then 0 else 1 + Halvings(size / 2)
  }

  lemma {:induction false} HalvingsOfPower(size: nat)
    requires PowerOfTwo(size)
    ensures Pow2(Halvings(size)) == size
  {
    if size > 1 {
      HalvingsOfPower(size / 2);
    }
  }

  lemma {:induction false} Pow2Grows(low: nat, high: nat)
    requires low < high
    ensures 2 * Pow2(low) <= Pow2(high)
  {
    if low + 1 < high {
      Pow2Grows(low, high - 1);
    }
  }

  lemma {:induction false} CodeRange(exponent: nat)
    ensures MIN_TPDU <= Pow2(exponent) <= MAX_TPDU <==> 7 <= exponent <= 13
  {
    assert Pow2(7) == 128 && Pow2(13) == 8192;
    if exponent < 7 {
      Pow2Grows(exponent, 7);
    } else if exponent > 7 {
      Pow2Grows(7, exponent);
    }
    if exponent < 13 {
      Pow2Grows(exponent, 13);
    } else if exponent > 13 {
      Pow2Grows(13, exponent);
    }
  }

  lemma {:induction false} Pow2IsPower(exponent: nat)
    ensures PowerOfTwo(Pow2(exponent))
  {
    if exponent > 0 {
      Pow2IsPower(exponent - 1);
      assert Pow2(exponent) / 2 == Pow2(exponent - 1);
    }
  }

  method TpduSizeCode(size: int) returns (code: Option<Byte>)
    ensures code.Some? <==> TpduSize(size)
    ensures code.Some? ==> 7 <= code.value <= 13 && Pow2(code.value) == size
  {
    if size < MIN_TPDU || size > MAX_TPDU || !PowerOfTwo(size) {
      return None;
    }
    var exponent: nat, value: nat := 0, size;
    while value > 1
      invariant exponent + Halvings(value) == Halvings(size)
      decreases value
    {
      exponent, value := exponent + 1, value / 2;
    }
    HalvingsOfPower(size);
    CodeRange(exponent);
    return Some(exponent);
  }

  function TpduSizeFromCode(code: Byte): Option<nat> {
    if code < 7 || code > 13 then None else Some(Pow2(code))
  }

  /** The smallest supported TPDU, from 1024 on, that holds an S7 PDU and its DT header. */
  method TpduSizeForS7Pdu(pduBytes: int) returns (size: Option<nat>)
    ensures size.Some? <==> 1 <= pduBytes <= MAX_TPDU - DATA_TPDU_HEADER
    ensures size.Some? ==>
      && TpduSize(size.value)
      && pduBytes + DATA_TPDU_HEADER <= size.value
      && DEFAULT_TPDU <= size.value
      && (size.value == DEFAULT_TPDU || size.value < 2 * (pduBytes + DATA_TPDU_HEADER))
  {
    if pduBytes < 1 || pduBytes > MAX_TPDU - DATA_TPDU_HEADER {
      return None;
    }
    var required, candidate := pduBytes + DATA_TPDU_HEADER, DEFAULT_TPDU;
    assert Pow2(10) == DEFAULT_TPDU;
    Pow2IsPower(10);
    assert Pow2(13) == MAX_TPDU;
    ghost var exponent := 10;
    while candidate <= MAX_TPDU
      invariant 10 <= exponent <= 14
      invariant candidate == Pow2(exponent)
      invariant candidate == DEFAULT_TPDU || candidate < 2 * required
      decreases MAX_TPDU - candidate
    {
      if required <= candidate {
        Pow2IsPower(exponent);
        return Some(candidate);
      }
      CodeRange(exponent);
      Pow2Grows(10, exponent + 1);
      candidate, exponent := candidate * 2, exponent + 1;
    }
    CodeRange(exponent);
    return None;
  }

  // ------------------------------------------------------ connection request

  function ConnectionRequest(localTsap: U16, remoteTsap: U16, tpduCode: Byte): seq<Byte> {
    [ 0x03, 0x00, 0x00, 0x16,
      0x11, 0xe0, 0x00, 0x00, 0x00, 0x01, 0x00,
      0xc0, 0x01, tpduCode,
      0xc1, 0x02, localTsap / 256, localTsap % 256,
      0xc2, 0x02, remoteTsap / 256, remoteTsap % 256 ]
  }

  method BuildConnectionRequest(localTsap: U16, remoteTsap: U16, tpduSize: int) returns (r: Option<seq<Byte>>)
    ensures r.Some? <==> TpduSize(tpduSize)
    ensures r.Some? ==>
      exists code: Byte :: Pow2(code) == tpduSize && r.value == ConnectionRequest(localTsap, remoteTsap, code)
  {
    var code := TpduSizeCode(tpduSize);
    if code.None? {
      return None;
    }
    return Some(ConnectionRequest(localTsap, remoteTsap, code.value));
  }

  /** What the request says, read as section 13.3 of RFC 905 reads it: a CR with a zero
      destination and source reference 1, class 0, our TSAP calling, theirs called. */
  lemma {:induction false} RequestMeaning(localTsap: U16, remoteTsap: U16, tpduCode: Byte)
    ensures
      var request := ConnectionRequest(localTsap, remoteTsap, tpduCode);
      && request[..4] == [0x03, 0x00, |request| / 256, |request| % 256] && request[4] as int + 5 == |request|
      && request[5] == 0xe0 && U16At(request, 6) == 0 && U16At(request, 8) == 1 && request[10] == 0
      && match ParametersAt(request, 11)
         case None => false
         case Some(parameters) =>
           && |parameters| == 3
           && parameters[0] == Parameter(0xc0, [tpduCode])
           && parameters[1].code == 0xc1 && |parameters[1].value| == 2 && U16At(parameters[1].value, 0) == localTsap
           && parameters[2].code == 0xc2 && |parameters[2].value| == 2 && U16At(parameters[2].value, 0) == remoteTsap
  {
    hide ParametersAt;
    var request := ConnectionRequest(localTsap, remoteTsap, tpduCode);
    ThreeParameters(request);
    assert request[13..14] == [tpduCode];
  }

  // ------------------------------------------------------ connection confirm

  datatype Parameter = Parameter(code: Byte, value: seq<Byte>)

  const TPDU_SIZE: Byte := 0xc0
  const SOURCE_TSAP: Byte := 0xc1
  const DESTINATION_TSAP: Byte := 0xc2

  function PrependParameter(front: seq<Parameter>, rest: Option<seq<Parameter>>): Option<seq<Parameter>> {
    match rest
    case None => None
    case Some(parameters) => Some(front + parameters)
  }

  /** The type-length-value list from an offset to the end of the frame. */
  function ParametersAt(frame: seq<Byte>, offset: nat): Option<seq<Parameter>>
    requires offset <= |frame|
    decreases |frame| - offset
  {
    if offset == |frame| then Some([])
    else if |frame| - offset < 2 then None
    else
      var end := offset + 2 + frame[offset + 1];
      if end > |frame| then None
      else PrependParameter([Parameter(frame[offset], frame[offset + 2..end])], ParametersAt(frame, end))
  }

  function EncodeParameters(parameters: seq<Parameter>): seq<Byte>
    requires forall i | 0 <= i < |parameters| :: |parameters[i].value| <= 255
  {
    if parameters == [] then []
    else [parameters[0].code, |parameters[0].value|] + parameters[0].value + EncodeParameters(parameters[1..])
  }

  /** The list is read exactly when the rest of the frame is its encoding. */
  lemma {:induction false} ParametersImage(frame: seq<Byte>, offset: nat, parameters: seq<Parameter>)
    requires offset <= |frame|
    ensures ParametersAt(frame, offset) == Some(parameters) <==>
      && (forall i | 0 <= i < |parameters| :: |parameters[i].value| <= 255)
      && frame[offset..] == EncodeParameters(parameters)
    decreases |parameters|
  {
    if parameters == [] {
      if offset < |frame| && |frame| - offset >= 2 && offset + 2 + frame[offset + 1] <= |frame| {
        PrependNotEmpty(Parameter(frame[offset], frame[offset + 2..offset + 2 + frame[offset + 1]]),
                        ParametersAt(frame, offset + 2 + frame[offset + 1]));
      }
    } else {
      if ParametersAt(frame, offset) == Some(parameters) {
        ParametersDecoded(frame, offset, parameters);
      }
      if (forall i | 0 <= i < |parameters| :: |parameters[i].value| <= 255) && frame[offset..] == EncodeParameters(parameters) {
        ParametersEncoded(frame, offset, parameters);
      }
    }
  }

  lemma {:induction false} PrependNotEmpty(parameter: Parameter, rest: Option<seq<Parameter>>)
    ensures PrependParameter([parameter], rest) != Some([])
  {
  }

  lemma {:induction false} ParametersDecoded(frame: seq<Byte>, offset: nat, parameters: seq<Parameter>)
    requires offset <= |frame| && ParametersAt(frame, offset) == Some(parameters)
    ensures forall i | 0 <= i < |parameters| :: |parameters[i].value| <= 255
    ensures frame[offset..] == EncodeParameters(parameters)
    decreases |frame| - offset
  {
    if offset < |frame| {
      var end := offset + 2 + frame[offset + 1];
      var rest := ParametersAt(frame, end).value;
      assert parameters[1..] == rest;
      ParametersDecoded(frame, end, rest);
      assert frame[offset..] == [frame[offset], frame[offset + 1]] + frame[offset + 2..end] + frame[end..];
    }
  }

  lemma {:induction false} ParametersEncoded(frame: seq<Byte>, offset: nat, parameters: seq<Parameter>)
    requires offset <= |frame|
    requires forall i | 0 <= i < |parameters| :: |parameters[i].value| <= 255
    requires frame[offset..] == EncodeParameters(parameters)
    ensures ParametersAt(frame, offset) == Some(parameters)
    decreases |parameters|
  {
    if parameters != [] {
      var first, rest := parameters[0], EncodeParameters(parameters[1..]);
      var block := [first.code, |first.value|] + first.value;
      SplitAt(frame, offset, block, rest);
      assert frame[offset] == block[0] && frame[offset + 1] == block[1];
      assert frame[offset + 2..offset + |block|] == frame[offset..offset + |block|][2..];
      ParametersEncoded(frame, offset + |block|, parameters[1..]);
      assert [first] + parameters[1..] == parameters;
    }
  }

  datatype Confirm = Confirm(tpduSize: nat, source: Option<U16>, destination: Option<U16>)

  /** One parameter of the confirm: a size can only lower the limit, a TSAP replaces an
      earlier one, anything else is skipped. */
  function Absorb(confirm: Confirm, parameter: Parameter): Option<Confirm> {
    if parameter.code == TPDU_SIZE then
      if |parameter.value| != 1 then None
      else
        match TpduSizeFromCode(parameter.value[0])
        case None => None
        case Some(peer) => Some(if peer < confirm.tpduSize then confirm.(tpduSize := peer) else confirm)
    else if parameter.code == SOURCE_TSAP then
      if |parameter.value| != 2 then None else Some(confirm.(source := Some(U16At(parameter.value, 0))))
    else if parameter.code == DESTINATION_TSAP then
      if |parameter.value| != 2 then None else Some(confirm.(destination := Some(U16At(parameter.value, 0))))
    else Some(confirm)
  }

  function AbsorbAll(confirm: Confirm, parameters: seq<Parameter>): Option<Confirm>
    decreases |parameters|
  {
    if parameters == [] then Some(confirm)
    else
      match Absorb(confirm, parameters[0])
      case None => None
      case Some(next) => AbsorbAll(next, parameters[1..])
  }

  predicate TsapsMatch(confirm: Confirm, localTsap: U16, remoteTsap: U16) {
    match (confirm.source, confirm.destination)
    case (Some(source), Some(destination)) =>
      (source == remoteTsap && destination == localTsap) || (source == localTsap && destination == remoteTsap)
    case (Some(source), None) => source == remoteTsap
    case (None, Some(destination)) => destination == localTsap
    case (None, None) => true
  }

  predicate ConfirmHeaderOk(frame: seq<Byte>) {
    && |frame| >= 11
    && frame[0] == 0x03 && frame[1] == 0 && U16At(frame, 2) == |frame|
    && frame[4] >= 6 && 5 + (frame[4] as int) == |frame|
    && frame[5] == 0xd0
    && U16At(frame, 6) == 1
    && frame[10] < 0x10
  }

  /** The TPDU size a connection confirm leaves, if the confirm is acceptable. */
  function ConfirmOf(frame: seq<Byte>, localTsap: U16, remoteTsap: U16, offeredTpdu: nat): Option<nat> {
    if !TpduSize(offeredTpdu) || !ConfirmHeaderOk(frame) then None
    else
      match ParametersAt(frame, 11)
      case None => None
      case Some(parameters) =>
        match AbsorbAll(Confirm(offeredTpdu, None, None), parameters)
        case None => None
        case Some(confirm) => if TsapsMatch(confirm, localTsap, remoteTsap) then Some(confirm.tpduSize) else None
  }

  lemma {:induction false} AbsorbStep(confirm: Confirm, parameters: seq<Parameter>, parameter: Parameter, after: seq<Parameter>)
    ensures AbsorbAll(confirm, parameters + [parameter] + after) ==
      match AbsorbAll(confirm, parameters)
      case None => None
      case Some(middle) =>
        match Absorb(middle, parameter)
        case None => None
        case Some(next) => AbsorbAll(next, after)
    decreases |parameters|
  {
    if parameters == [] {
      assert parameters + [parameter] + after == [parameter] + after;
      assert ([parameter] + after)[1..] == after;
    } else {
      var whole := parameters + [parameter] + after;
      assert whole[1..] == parameters[1..] + [parameter] + after;
      var first := Absorb(confirm, parameters[0]);
      if first.Some? {
        AbsorbStep(first.value, parameters[1..], parameter, after);
      }
    }
  }

  method ParseConnectionConfirm(frame: seq<Byte>, localTsap: U16, remoteTsap: U16, offeredTpdu: nat) returns (r: Option<nat>)
    ensures r == ConfirmOf(frame, localTsap, remoteTsap, offeredTpdu)
  {
    var offeredCode := TpduSizeCode(offeredTpdu);
    if offeredCode.None? {
      return None;
    }
    if |frame| < 11 {
      return None;
    }
    if frame[0] != 0x03 || frame[1] != 0 || U16At(frame, 2) != |frame| {
      return None;
    }
    var headerLength: nat := frame[4];
    if headerLength < 6 || 5 + headerLength != |frame| {
      return None;
    }
    if frame[5] != 0xd0 || U16At(frame, 6) != 1 || frame[10] >= 0x10 {
      return None;
    }
    var confirm := ConfirmParameters(frame, offeredTpdu);
    if confirm.None? || !TsapsMatch(confirm.value, localTsap, remoteTsap) {
      return None;
    }
    return Some(confirm.value.tpduSize);
  }

  /** The loop over the confirm's parameters. */
  method ConfirmParameters(frame: seq<Byte>, offeredTpdu: nat) returns (r: Option<Confirm>)
    requires |frame| >= 11
    ensures r == match ParametersAt(frame, 11)
                 case None => None
                 case Some(parameters) => AbsorbAll(Confirm(offeredTpdu, None, None), parameters)
  {
    var confirm := Confirm(offeredTpdu, None, None);
    ghost var start, seen: seq<Parameter> := confirm, [];
    var offset := 11;
    ParameterNothing(ParametersAt(frame, 11));
    while offset < |frame|
      invariant 11 <= offset <= |frame|
      invariant ParametersAt(frame, 11) == PrependParameter(seen, ParametersAt(frame, offset))
      invariant AbsorbAll(start, seen) == Some(confirm)
    {
      if |frame| - offset < 2 {
        return None;
      }
      var code, length: nat := frame[offset], frame[offset + 1];
      var valueStart := offset + 2;
      if length > |frame| - valueStart {
        return None;
      }
      var parameter := Parameter(code, frame[valueStart..valueStart + length]);
      ghost var rest := ParametersAt(frame, valueStart + length);
      ParameterStep(seen, parameter, rest);
      var next := Absorb(confirm, parameter);
      if next.None? {
        if rest.Some? {
          AbsorbStep(start, seen, parameter, rest.value);
        }
        return None;
      }
      AbsorbStep(start, seen, parameter, []);
      assert seen + [parameter] + [] == seen + [parameter];
      seen := seen + [parameter];
      confirm := next.value;
      offset := valueStart + length;
    }
    assert seen + [] == seen;
    return Some(confirm);
  }

  lemma {:induction false} ParameterNothing(rest: Option<seq<Parameter>>)
    ensures PrependParameter([], rest) == rest
  {
    if rest.Some? {
      assert [] + rest.value == rest.value;
    }
  }

  lemma {:induction false} ParameterStep(front: seq<Parameter>, parameter: Parameter, rest: Option<seq<Parameter>>)
    ensures PrependParameter(front, PrependParameter([parameter], rest)) == PrependParameter(front + [parameter], rest)
    ensures rest.Some? ==> PrependParameter(front + [parameter], rest) == Some(front + [parameter] + rest.value)
  {
    if rest.Some? {
      assert front + ([parameter] + rest.value) == front + [parameter] + rest.value;
    }
  }

  // ---------------------------------------------- what an accepted confirm says

  predicate WellFormed(parameter: Parameter) {
    && (parameter.code == 0xc0 ==> |parameter.value| == 1 && 7 <= parameter.value[0] <= 13)
    && (parameter.code == 0xc1 || parameter.code == 0xc2 ==> |parameter.value| == 2)
  }

  ghost predicate Advertises(parameter: Parameter, size: nat) {
    parameter.code == 0xc0 && |parameter.value| == 1 && 7 <= parameter.value[0] <= 13 && size == Pow2(parameter.value[0])
  }

  /** The least of the offer and every advertised size. */
  ghost predicate LeastSize(size: nat, offered: nat, parameters: seq<Parameter>) {
    && size <= offered
    && (forall i, other | 0 <= i < |parameters| && Advertises(parameters[i], other) :: size <= other)
    && (size == offered || exists i :: 0 <= i < |parameters| && Advertises(parameters[i], size))
  }

  /** The last TSAP of a kind, or what was known before. */
  function LastTsap(parameters: seq<Parameter>, code: Byte, before: Option<U16>): Option<U16>
    decreases |parameters|
  {
    if parameters == [] then before
    else
      var here := parameters[0].code == code && |parameters[0].value| == 2;
      LastTsap(parameters[1..], code, if here then Some(U16At(parameters[0].value, 0)) else before)
  }

  lemma {:induction false} AbsorbAllMeaning(confirm: Confirm, parameters: seq<Parameter>)
    ensures AbsorbAll(confirm, parameters).Some? <==> forall i | 0 <= i < |parameters| :: WellFormed(parameters[i])
    ensures AbsorbAll(confirm, parameters).Some? ==>
      var result := AbsorbAll(confirm, parameters).value;
      && LeastSize(result.tpduSize, confirm.tpduSize, parameters)
      && result.source == LastTsap(parameters, 0xc1, confirm.source)
      && result.destination == LastTsap(parameters, 0xc2, confirm.destination)
    decreases |parameters|
  {
    if parameters != [] {
      var first, rest := parameters[0], parameters[1..];
      assert Absorb(confirm, first).Some? <==> WellFormed(first);
      assert forall i | 0 <= i < |rest| :: rest[i] == parameters[i + 1];
      if Absorb(confirm, first).Some? {
        var next := Absorb(confirm, first).value;
        AbsorbAllMeaning(next, rest);
        if AbsorbAll(next, rest).Some? {
          LeastSizeStep(AbsorbAll(next, rest).value.tpduSize, confirm, first, rest);
          assert [first] + rest == parameters;
        }
      }
    }
  }

  lemma {:induction false} LeastSizeStep(size: nat, confirm: Confirm, first: Parameter, rest: seq<Parameter>)
    requires Absorb(confirm, first).Some? && LeastSize(size, Absorb(confirm, first).value.tpduSize, rest)
    ensures LeastSize(size, confirm.tpduSize, [first] + rest)
  {
    var parameters, next := [first] + rest, Absorb(confirm, first).value;
    assert forall i | 0 < i < |parameters| :: parameters[i] == rest[i - 1];
    assert forall other | Advertises(first, other) :: next.tpduSize <= other;
    if size != confirm.tpduSize {
      if size == next.tpduSize {
        assert Advertises(parameters[0], size);
      } else {
        var i :| 0 <= i < |rest| && Advertises(rest[i], size);
        assert Advertises(parameters[i + 1], size);
      }
    }
  }

  /** What is given of the two TSAPs is our pair, crossed over as RFC 905 has it; only when
      both are given may they also be echoed in our own order. */
  predicate AnswersTsaps(source: Option<U16>, destination: Option<U16>, localTsap: U16, remoteTsap: U16) {
    || ((source.Some? ==> source.value == remoteTsap) && (destination.Some? ==> destination.value == localTsap))
    || (source == Some(localTsap) && destination == Some(remoteTsap))
  }

  lemma {:induction false} ConfirmHeader(frame: seq<Byte>)
    ensures ConfirmHeaderOk(frame) <==>
      && |frame| >= 11 && frame[..4] == [0x03, 0x00, |frame| / 256, |frame| % 256] && |frame| <= 0xFFFF
      && frame[4] as int + 5 == |frame| && frame[5] == 0xd0
      && frame[6] == 0 && frame[7] == 1 && frame[10] <= 0x0f
  {
    if |frame| >= 11 && frame[..4] == [0x03, 0x00, |frame| / 256, |frame| % 256] {
      assert forall i | 0 <= i < 4 :: frame[i] == frame[..4][i];
    }
  }

  /** A confirm is accepted exactly when its header is in order, its parameters are well
      formed and its TSAPs answer ours; the session then gets the least size anyone named. */
  lemma {:induction false} ConfirmMeaning(frame: seq<Byte>, localTsap: U16, remoteTsap: U16, offeredTpdu: nat)
    ensures ConfirmOf(frame, localTsap, remoteTsap, offeredTpdu).Some? <==>
      && TpduSize(offeredTpdu)
      && |frame| >= 11 && frame[..4] == [0x03, 0x00, |frame| / 256, |frame| % 256] && |frame| <= 0xFFFF
      && frame[4] as int + 5 == |frame| && frame[5] == 0xd0
      && frame[6] == 0 && frame[7] == 1 && frame[10] <= 0x0f
      && ParametersAt(frame, 11).Some?
      && var parameters := ParametersAt(frame, 11).value;
         && (forall i | 0 <= i < |parameters| :: WellFormed(parameters[i]))
         && AnswersTsaps(LastTsap(parameters, 0xc1, None), LastTsap(parameters, 0xc2, None), localTsap, remoteTsap)
    ensures ConfirmOf(frame, localTsap, remoteTsap, offeredTpdu).Some? ==>
      var size := ConfirmOf(frame, localTsap, remoteTsap, offeredTpdu).value;
      LeastSize(size, offeredTpdu, ParametersAt(frame, 11).value) && TpduSize(size)
  {
    ConfirmHeader(frame);
    if ConfirmHeaderOk(frame) && ParametersAt(frame, 11).Some? {
      var parameters := ParametersAt(frame, 11).value;
      AbsorbAllMeaning(Confirm(offeredTpdu, None, None), parameters);
      if ConfirmOf(frame, localTsap, remoteTsap, offeredTpdu).Some? {
        LeastSizeIsTpdu(ConfirmOf(frame, localTsap, remoteTsap, offeredTpdu).value, offeredTpdu, parameters);
      }
    }
  }

  lemma {:induction false} LeastSizeIsTpdu(size: nat, offered: nat, parameters: seq<Parameter>)
    requires LeastSize(size, offered, parameters) && TpduSize(offered)
    ensures TpduSize(size)
  {
    if size != offered {
      var i :| 0 <= i < |parameters| && Advertises(parameters[i], size);
      CodeRange(parameters[i].value[0]);
      Pow2IsPower(parameters[i].value[0]);
    }
  }

  // ------------------------------------------------------------ the session

  datatype Config = Config(
    requestedPdu: U16,
    maxFrameBytes: nat,
    maxItemsPerCall: nat,
    maxFragmentsPerCall: nat,
    maxItemBytes: nat,
    maxBatchBytes: nat,
    localTsap: U16,
    remoteTsap: U16)

  /** The numeric bounds normalizeConfig enforces. */
  predicate ValidConfig(config: Config) {
    && 32 <= config.maxFrameBytes <= MAX_TPKT
    && MIN_PDU <= config.requestedPdu <= MAX_PDU
    && config.requestedPdu + 7 <= config.maxFrameBytes
    && 1 <= config.maxItemsPerCall <= 0x10_0000
    && 1 <= config.maxFragmentsPerCall <= 0x10_0000
    && 1 <= config.maxItemBytes <= 0x4000_0000
    && config.maxItemBytes <= config.maxBatchBytes <= 0x7FFF_FFFF
  }

  datatype Limits = Limits(requestedPdu: U16, pdu: U16, tpdu: nat)

  /** What every Ready session can rely on. */
  predicate LimitsOk(limits: Limits, config: Config) {
    && MIN_PDU <= limits.pdu <= limits.requestedPdu <= config.requestedPdu <= MAX_PDU
    && limits.pdu + DATA_TPDU_HEADER <= limits.tpdu
    && TpduSize(limits.tpdu)
    && limits.pdu + DATA_HEADER <= config.maxFrameBytes <= MAX_TPKT
  }

  const SETUP_REFERENCE: U16 := 1

  /** The checks Connect makes on the two answers of the peer, in order. */
  function Negotiate(config: Config, offeredTpdu: nat, confirmFrame: seq<Byte>, setupFrame: seq<Byte>): Result<Limits> {
    match ConfirmOf(confirmFrame, config.localTsap, config.remoteTsap, offeredTpdu)
    case None => Err(ProtocolError())
    case Some(tpdu) =>
      var payloadLimit := tpdu - DATA_TPDU_HEADER;
      if payloadLimit < MIN_PDU then Err(ProtocolError())
      else
        var proposal := Min(config.requestedPdu, payloadLimit);
        if |setupFrame| - TPKT_HEADER > tpdu then Err(ProtocolError())
        else
          match UnwrapData(setupFrame)
          case Malformed => Err(ProtocolError())
          case Fragmented => Err(ProtocolError())
          case Payload(payload) =>
            if |payload| > proposal then Err(ProtocolError())
            else
              match ParseSetupResponse(payload, SETUP_REFERENCE)
              case None => Err(ProtocolError())
              case Some(setup) =>
                if setup.globalCode != 0 then Err(PlcError(setup.globalCode))
                else if || setup.maxAmQCaller == 0 || setup.maxAmQCallee == 0 || setup.pdu == 0
                        || setup.pdu < MIN_PDU
                        || setup.maxAmQCaller > MAX_AMQ || setup.maxAmQCallee > MAX_AMQ
                        || setup.pdu > proposal
                        || setup.pdu + DATA_TPDU_HEADER > tpdu
                        || setup.pdu + DATA_HEADER > config.maxFrameBytes
                then Err(ProtocolError())
                else Ok(Limits(proposal, setup.pdu, tpdu))
  }

  /** The DT frame of a positive setup answer to reference 1: one job at a time in either
      direction, and this PDU size. */
  ghost predicate SetupAnswer(frame: seq<Byte>, pdu: U16, number: Byte) {
    && number >= 0x80
    && frame == DataFrame([0x32, 0x03, 0, 0, 0, 1, 0, 8, 0, 0, 0, 0, 0xf0, 0, 0, 1, 0, 1, pdu / 256, pdu % 256])[6 := number]
  }

  /** The negotiation succeeds on exactly these answers, and with exactly these limits. */
  lemma {:induction false} NegotiateAccepts(config: Config, offeredTpdu: nat, confirmFrame: seq<Byte>, setupFrame: seq<Byte>,
                                            limits: Limits)
    requires ValidConfig(config)
    ensures Negotiate(config, offeredTpdu, confirmFrame, setupFrame) == Ok(limits) <==>
      && ConfirmOf(confirmFrame, config.localTsap, config.remoteTsap, offeredTpdu) == Some(limits.tpdu)
      && 243 <= limits.tpdu
      && limits.requestedPdu == (if config.requestedPdu <= limits.tpdu - 3 then config.requestedPdu else limits.tpdu - 3)
      && 240 <= limits.pdu <= limits.requestedPdu
      && exists number :: SetupAnswer(setupFrame, limits.pdu, number)
  {
    hide ConfirmOf, UnwrapData, DataFrame, ParseAckData;
    if Negotiate(config, offeredTpdu, confirmFrame, setupFrame) == Ok(limits) {
      SetupTaken(setupFrame, limits.pdu);
    }
    if number :| 240 <= limits.pdu && SetupAnswer(setupFrame, limits.pdu, number) {
      SetupRead(setupFrame, limits.pdu, number);
    }
  }

  lemma {:induction false} SetupTaken(frame: seq<Byte>, pdu: U16)
    requires UnwrapData(frame).Payload?
    requires ParseSetupResponse(UnwrapData(frame).data, 1) == Some(SetupResult(1, 1, pdu, 0))
    ensures exists number :: SetupAnswer(frame, pdu, number)
  {
    hide UnwrapData, DataFrame, ParseAckData, AckPdu;
    var payload := UnwrapData(frame).data;
    UnwrapImage(frame, payload);
    var ack := ParseAckData(payload, 1).value;
    AckImage(payload, 1, ack);
    SetupBytes(ack.parameters, pdu);
    SetupImage(pdu);
    assert ack == AckData([0xf0, 0, 0, 1, 0, 1, pdu / 256, pdu % 256], [], 0);
    assert frame == frame[6 := 0x80][6 := frame[6]];
    assert SetupAnswer(frame, pdu, frame[6]);
  }

  lemma {:induction false} SetupBytes(parameters: seq<Byte>, pdu: U16)
    requires |parameters| == 8 && parameters[0] == 0xf0 && parameters[1] == 0
    requires U16At(parameters, 2) == 1 && U16At(parameters, 4) == 1 && U16At(parameters, 6) == pdu
    ensures parameters == [0xf0, 0, 0, 1, 0, 1, pdu / 256, pdu % 256]
  {
  }

  lemma {:induction false} SetupImage(pdu: U16)
    ensures AckPdu(1, AckData([0xf0, 0, 0, 1, 0, 1, pdu / 256, pdu % 256], [], 0))
         == [0x32, 0x03, 0, 0, 0, 1, 0, 8, 0, 0, 0, 0, 0xf0, 0, 0, 1, 0, 1, pdu / 256, pdu % 256]
  {
  }

  lemma {:induction false} SetupRead(frame: seq<Byte>, pdu: U16, number: Byte)
    requires SetupAnswer(frame, pdu, number)
    ensures |frame| == 27 && UnwrapData(frame).Payload? && |UnwrapData(frame).data| == 20
    ensures ParseSetupResponse(UnwrapData(frame).data, 1) == Some(SetupResult(1, 1, pdu, 0))
  {
    hide UnwrapData, DataFrame, ParseAckData, AckPdu;
    var ack := AckData([0xf0, 0, 0, 1, 0, 1, pdu / 256, pdu % 256], [], 0);
    SetupImage(pdu);
    FrameNumber(AckPdu(1, ack));
    assert frame[6 := 0x80] == DataFrame(AckPdu(1, ack));
    UnwrapImage(frame, AckPdu(1, ack));
    AckParses(1, ack);
  }

  lemma {:induction false} FrameNumber(payload: seq<Byte>)
    requires |payload| <= MAX_TPKT - DATA_HEADER
    ensures DataFrame(payload)[6] == 0x80
  {
  }

  /** A failed negotiation is the peer's fault, and says whether the controller refused. */
  lemma {:induction false} NegotiateRefuses(config: Config, offeredTpdu: nat, confirmFrame: seq<Byte>, setupFrame: seq<Byte>)
    requires Negotiate(config, offeredTpdu, confirmFrame, setupFrame).Err?
    ensures
      var error := Negotiate(config, offeredTpdu, confirmFrame, setupFrame).error;
      if error.kind == ErrorKind.Plc then
        && UnwrapData(setupFrame).Payload?
        && match ParseAckData(UnwrapData(setupFrame).data, 1)
           case None => false
           case Some(ack) => ack.globalCode != 0 && error == Error(ErrorKind.Plc, ack.globalCode, 0, Unchanged)
      else error == Error(ErrorKind.Protocol, 0, 0, Broken)
  {
    hide ConfirmOf, UnwrapData, ParseAckData;
  }

  /** Whatever the peer answers, a session that becomes Ready has usable limits. */
  lemma {:induction false} NegotiatedLimits(config: Config, offeredTpdu: nat, confirmFrame: seq<Byte>, setupFrame: seq<Byte>)
    requires ValidConfig(config)
    ensures
      var result := Negotiate(config, offeredTpdu, confirmFrame, setupFrame);
      result.Ok? ==> LimitsOk(result.value, config) && result.value.tpdu <= offeredTpdu
  {
    ConfirmMeaning(confirmFrame, config.localTsap, config.remoteTsap, offeredTpdu);
  }

  /** The local encoder checks of the handshake cannot fail: the offer exists, and the
      setup request fits every TPDU the confirm can leave. */
  lemma {:induction false} HandshakeNeverFailsLocally(config: Config, confirmFrame: seq<Byte>, offeredTpdu: nat)
    requires ValidConfig(config) && ConfirmOf(confirmFrame, config.localTsap, config.remoteTsap, offeredTpdu).Some?
    ensures
      var tpdu := ConfirmOf(confirmFrame, config.localTsap, config.remoteTsap, offeredTpdu).value;
      var proposal := Min(config.requestedPdu, tpdu - DATA_TPDU_HEADER);
      && 0 < proposal <= MAX_U16
      && var setup := JobPdu(SetupJob(SETUP_REFERENCE, MAX_AMQ, MAX_AMQ, proposal));
         |setup| == 18 && |DataFrame(setup)| - TPKT_HEADER <= tpdu
  {
    ConfirmMeaning(confirmFrame, config.localTsap, config.remoteTsap, offeredTpdu);
  }

  // -------------------------------------------------------- an honest peer

  /** The test controller's confirm: our TSAPs crossed over, the offered size kept. */
  function ServerConfirm(request: seq<Byte>): Option<seq<Byte>> {
    if |request| != 22 || request[5] != 0xe0 || request[14] != 0xc1 || request[18] != 0xc2 then None
    else
      Some([ 0x03, 0x00, 0x00, 0x16,
             0x11, 0xd0, 0x00, 0x01, 0x00, 0x01, 0x00,
             0xc0, 0x01, request[13],
             0xc1, 0x02, request[20], request[21],
             0xc2, 0x02, request[16], request[17] ])
  }

  /** The test controller's setup answer: the smaller of both PDU sizes. */
  function ServerSetup(setup: Job, serverPdu: U16): Option<seq<Byte>> {
    if |setup.parameters| != 8 || setup.data != [] || setup.parameters[0] != 0xf0 then None
    else
      var requested := U16At(setup.parameters, 6);
      var negotiated := if serverPdu < requested then serverPdu else requested;
      Some(AckPdu(setup.reference,
                  AckData([0xf0, 0, 0, 1, 0, 1, negotiated / 256, negotiated % 256], [], 0)))
  }

  lemma {:induction false} ServerConfirmAccepted(localTsap: U16, remoteTsap: U16, code: Byte)
    requires 7 <= code <= 13
    ensures
      var confirm := ServerConfirm(ConnectionRequest(localTsap, remoteTsap, code));
      confirm.Some? && ConfirmOf(confirm.value, localTsap, remoteTsap, Pow2(code)) == Some(Pow2(code))
  {
    hide Pow2, ParametersAt, AbsorbAll;
    var frame := ServerConfirm(ConnectionRequest(localTsap, remoteTsap, code)).value;
    var size := Parameter(TPDU_SIZE, frame[13..14]);
    var source := Parameter(SOURCE_TSAP, frame[16..18]);
    var destination := Parameter(DESTINATION_TSAP, frame[20..22]);
    ThreeParameters(frame);
    CodeRange(code);
    Pow2IsPower(code);
    AbsorbThree(Confirm(Pow2(code), None, None), size, source, destination);
  }

  lemma {:induction false} ThreeParameters(frame: seq<Byte>)
    requires |frame| == 22 && frame[12] == 1 && frame[15] == 2 && frame[19] == 2
    ensures ParametersAt(frame, 11)
         == Some([Parameter(frame[11], frame[13..14]), Parameter(frame[14], frame[16..18]), Parameter(frame[18], frame[20..22])])
  {
    hide ParametersAt;
    NoParameters(frame);
    var first, second := Parameter(frame[11], frame[13..14]), Parameter(frame[14], frame[16..18]);
    var third := Parameter(frame[18], frame[20..22]);
    ParametersCons(frame, 18, 2, []);
    assert [third] + [] == [third];
    ParametersCons(frame, 14, 2, [third]);
    assert [second] + [third] == [second, third];
    ParametersCons(frame, 11, 1, [second, third]);
    assert [first] + [second, third] == [first, second, third];
  }

  lemma {:induction false} NoParameters(frame: seq<Byte>)
    ensures ParametersAt(frame, |frame|) == Some([])
  {
  }

  lemma {:induction false} ParametersCons(frame: seq<Byte>, offset: nat, length: nat, rest: seq<Parameter>)
    requires offset + 2 + length <= |frame| && frame[offset + 1] == length
    requires ParametersAt(frame, offset + 2 + length) == Some(rest)
    ensures ParametersAt(frame, offset)
         == Some([Parameter(frame[offset], frame[offset + 2..offset + 2 + length])] + rest)
  {
  }

  lemma {:induction false} AbsorbThree(confirm: Confirm, first: Parameter, second: Parameter, third: Parameter)
    requires WellFormed(first) && WellFormed(second) && WellFormed(third)
    ensures AbsorbAll(confirm, [first, second, third])
         == Absorb(Absorb(Absorb(confirm, first).value, second).value, third)
  {
    assert [first, second, third][1..] == [second, third] && [second, third][1..] == [third] && [third][1..] == [];
    var one := Absorb(confirm, first).value;
    var two := Absorb(one, second).value;
    assert AbsorbAll(two, [third]) == Absorb(two, third);
    assert AbsorbAll(one, [second, third]) == AbsorbAll(two, [third]);
  }

  /** Against the test controller the handshake succeeds, with the smaller PDU size. */
  lemma {:induction false} HonestHandshake(config: Config, code: Byte, serverPdu: U16)
    requires ValidConfig(config) && serverPdu >= MIN_PDU
    requires 7 <= code <= 13 && Pow2(code) == DEFAULT_TPDU
    ensures
      var confirm := ServerConfirm(ConnectionRequest(config.localTsap, config.remoteTsap, code));
      var setup := ServerSetup(SetupJob(SETUP_REFERENCE, MAX_AMQ, MAX_AMQ, config.requestedPdu), serverPdu);
      && confirm.Some? && setup.Some? && |setup.value| <= MAX_TPKT - DATA_HEADER
      && Negotiate(config, DEFAULT_TPDU, confirm.value, DataFrame(setup.value))
         == Ok(Limits(config.requestedPdu, Min(serverPdu, config.requestedPdu), DEFAULT_TPDU))
  {
    hide Pow2, ConfirmOf, ConnectionRequest, ServerConfirm, DataFrame, UnwrapData, AckPdu, ParseAckData;
    ServerConfirmAccepted(config.localTsap, config.remoteTsap, code);
    var negotiated := Min(serverPdu, config.requestedPdu);
    var ack := AckData([0xf0, 0, 0, 1, 0, 1, negotiated / 256, negotiated % 256], [], 0);
    var payload := AckPdu(SETUP_REFERENCE, ack);
    AckSize(SETUP_REFERENCE, ack);
    AckParses(SETUP_REFERENCE, ack);
    WrappedUnwraps(payload);
    var setup := SetupJob(SETUP_REFERENCE, MAX_AMQ, MAX_AMQ, config.requestedPdu);
    assert U16At(setup.parameters, 6) == config.requestedPdu;
    assert ServerSetup(setup, serverPdu) == Some(payload);
    assert ParseSetupResponse(payload, SETUP_REFERENCE) == Some(SetupResult(1, 1, negotiated, 0));
  }
}
