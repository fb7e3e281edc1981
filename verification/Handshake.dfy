/** Connect, run to its end by one caller (client.go): the same checks as Negotiate, in
    the source's order, on one client object. Lifecycle has the interleavings. */
module Handshake {
  import opened Bytes
  import opened Errors
  import opened Protocol
  import opened Framing
  import opened Negotiation
  import opened Network

  /** Everything the outside decides about one attempt. */
  datatype Attempt = Attempt(
    queue: Option<Cause>,           // why waiting for the gate ended without it
    canceledEarly: bool,
    closedEarly: bool,              // Close before the state is set to Connecting
    dialFails: bool,
    optionFails: bool,
    closedDialing: bool,            // Close while dialling, before the socket is published
    armFails: bool,
    requestFails: bool,
    confirm: Option<seq<Byte>>,     // the frame read back, unless the read fails
    setupFails: bool,
    setup: Option<seq<Byte>>,
    canceledLate: bool,
    closedLate: bool,               // Close at any later point, with the answers as it leaves them
    cause: Cause)

  /** Nothing local or on the network gets in the way. */
  predicate Undisturbed(attempt: Attempt) {
    && attempt.queue.None? && !attempt.canceledEarly && !attempt.closedEarly && !attempt.dialFails && !attempt.optionFails
    && !attempt.closedDialing && !attempt.armFails && !attempt.requestFails && !attempt.setupFails
    && attempt.confirm.Some? && attempt.setup.Some?
    && !attempt.canceledLate && !attempt.closedLate
  }

  lemma {:induction false} DefaultOffer(size: nat)
    requires TpduSize(size) && DEFAULT_TPDU <= size < 2 * DEFAULT_TPDU
    ensures size == DEFAULT_TPDU
  {
    HalvingsOfPower(size);
    assert Pow2(10) == DEFAULT_TPDU;
    if Halvings(size) > 10 {
      Pow2Grows(10, Halvings(size));
    } else if Halvings(size) < 10 {
      Pow2Grows(Halvings(size), 10);
    }
  }

  /** What the client sends: our connection request for a TPDU of 1024, and the setup job for
      reference 1, one job at a time in either direction, and this PDU size. */
  predicate ConnectFrames(config: Config, proposal: U16, frames: seq<seq<Byte>>) {
    && |frames| <= 2
    && (|frames| >= 1 ==> frames[0] == ConnectionRequest(config.localTsap, config.remoteTsap, 10))
    && (|frames| == 2 ==>
         frames[1] == DataFrame([0x32, 0x01, 0, 0, 0, 1, 0, 8, 0, 0, 0xf0, 0, 0, 1, 0, 1, proposal / 256, proposal % 256]))
  }

  lemma {:induction false} OfferIs(localTsap: U16, remoteTsap: U16, request: seq<Byte>)
    requires exists code: Byte :: Pow2(code) == DEFAULT_TPDU && request == ConnectionRequest(localTsap, remoteTsap, code)
    ensures request == ConnectionRequest(localTsap, remoteTsap, 10)
  {
    hide ConnectionRequest;
    var code: Byte :| Pow2(code) == DEFAULT_TPDU && request == ConnectionRequest(localTsap, remoteTsap, code);
    assert Pow2(10) == DEFAULT_TPDU;
    if code < 10 {
      Pow2Grows(code, 10);
    } else if code > 10 {
      Pow2Grows(10, code);
    }
  }

  lemma {:induction false} SetupRequest(proposal: U16)
    ensures JobPdu(SetupJob(SETUP_REFERENCE, MAX_AMQ, MAX_AMQ, proposal))
         == [0x32, 0x01, 0, 0, 0, 1, 0, 8, 0, 0, 0xf0, 0, 0, 1, 0, 1, proposal / 256, proposal % 256]
  {
  }

  /** The confirm leaves a TPDU that carries the smallest S7 PDU. */
  predicate Confirmed(config: Config, attempt: Attempt) {
    && attempt.confirm.Some?
    && ConfirmOf(attempt.confirm.value, config.localTsap, config.remoteTsap, 1024).Some?
    && ConfirmOf(attempt.confirm.value, config.localTsap, config.remoteTsap, 1024).value >= 243
  }

  /** Why an attempt that reached the peer failed. */
  ghost predicate Blamed(config: Config, attempt: Attempt, error: Error) {
    if attempt.armFails then error == Error(ErrorKind.Transport, 0, 0, Unchanged)
    else if attempt.requestFails || attempt.confirm.None? then Reports(error, attempt.cause, Unchanged)
    else if !Confirmed(config, attempt) then error == Error(ErrorKind.Protocol, 0, 0, Broken)
    else if attempt.setupFails || attempt.setup.None? then Reports(error, attempt.cause, Unchanged)
    else
      || (attempt.canceledLate && Reports(error, attempt.cause, Unchanged))
      || Negotiate(config, 1024, attempt.confirm.value, attempt.setup.value) == Err(error)
  }

  /** The part between the published socket and the decision, as the two answers allow. */
  method Agree(config: Config, attempt: Attempt) returns (r: Result<Limits>, ghost frames: seq<seq<Byte>>)
    requires ValidConfig(config)
    ensures r.Err? ==> Blamed(config, attempt, r.error)
    ensures r.Ok? ==> |frames| == 2 && ConnectFrames(config, r.value.requestedPdu, frames)
    ensures exists proposal :: ConnectFrames(config, proposal, frames)
    ensures |frames| == 2 ==>
      && Confirmed(config, attempt)
      && var tpdu := ConfirmOf(attempt.confirm.value, config.localTsap, config.remoteTsap, 1024).value;
         ConnectFrames(config, if config.requestedPdu <= tpdu - 3 then config.requestedPdu else tpdu - 3, frames)
    ensures r.Ok? <==>
      && !attempt.armFails && !attempt.requestFails && !attempt.setupFails && !attempt.canceledLate
      && attempt.confirm.Some? && attempt.setup.Some?
      && Negotiate(config, DEFAULT_TPDU, attempt.confirm.value, attempt.setup.value).Ok?
    ensures r.Ok? ==> r == Negotiate(config, DEFAULT_TPDU, attempt.confirm.value, attempt.setup.value)
    ensures r.Err? ==> r.error != InvariantError()
  {
    hide ConfirmOf, UnwrapData, ParseSetupResponse, TpduSize, DataFrame, JobPdu, Pow2, PowerOfTwo, ConnectionRequest, LeastSize,
         ParametersAt;
    frames := [];
    assert ConnectFrames(config, 0, frames);
    if attempt.armFails {
      return Err(NewError(Transport, Unchanged)), frames;
    }
    var offered := TpduSizeForS7Pdu(config.requestedPdu);
    if offered.None? {
      return Err(InvariantError()), frames;
    }
    DefaultOffer(offered.value);
    var request := BuildConnectionRequest(config.localTsap, config.remoteTsap, offered.value);
    if request.None? {
      return Err(InvariantError()), frames;
    }
    OfferIs(config.localTsap, config.remoteTsap, request.value);
    frames := [request.value];
    assert ConnectFrames(config, 0, frames);
    if attempt.requestFails {
      return Err(CauseError(attempt.cause, Unchanged)), frames;
    }
    if attempt.confirm.None? {
      return Err(CauseError(attempt.cause, Unchanged)), frames;
    }
    var tpdu := ParseConnectionConfirm(attempt.confirm.value, config.localTsap, config.remoteTsap, offered.value);
    if tpdu.None? {
      return Err(ProtocolError()), frames;
    }
    ConfirmMeaning(attempt.confirm.value, config.localTsap, config.remoteTsap, offered.value);
    HandshakeNeverFailsLocally(config, attempt.confirm.value, offered.value);
    var payloadLimit := tpdu.value - DATA_TPDU_HEADER;
    if payloadLimit < MIN_PDU {
      return Err(ProtocolError()), frames;
    }
    var proposal := Min(config.requestedPdu, payloadLimit);
    var setup := BuildJob(SetupJob(SETUP_REFERENCE, MAX_AMQ, MAX_AMQ, proposal));
    if setup.Err? {
      return Err(InvariantError()), frames;
    }
    var frame := WrapData(setup.value);
    if frame.Err? {
      return Err(InvariantError()), frames;
    }
    if |frame.value| - TPKT_HEADER > tpdu.value {
      return Err(InvariantError()), frames;
    }
    SetupRequest(proposal);
    frames := [request.value, frame.value];
    assert ConnectFrames(config, proposal, frames);
    if attempt.setupFails || attempt.setup.None? {
      return Err(CauseError(attempt.cause, Unchanged)), frames;
    }
    if |attempt.setup.value| - TPKT_HEADER > tpdu.value {
      return Err(ProtocolError()), frames;
    }
    var payload := UnwrapData(attempt.setup.value);
    if !payload.Payload? {
      return Err(ProtocolError()), frames;
    }
    if |payload.data| > proposal {
      return Err(ProtocolError()), frames;
    }
    var result := ParseSetupResponse(payload.data, SETUP_REFERENCE);
    if result.None? {
      return Err(ProtocolError()), frames;
    }
    var SetupResult(caller, callee, pdu, globalCode) := result.value;
    if globalCode != 0 {
      return Err(PlcError(globalCode)), frames;
    }
    if attempt.canceledLate {
      return Err(CauseError(attempt.cause, Unchanged)), frames;
    }
    if caller == 0 || callee == 0 || pdu == 0 || pdu < MIN_PDU || caller > MAX_AMQ || callee > MAX_AMQ ||
       pdu > proposal || pdu + DATA_TPDU_HEADER > tpdu.value || pdu + DATA_HEADER > config.maxFrameBytes {
      return Err(ProtocolError()), frames;
    }
    return Ok(Limits(proposal, pdu, tpdu.value)), frames;
  }

  method FailConnect(client: Client)
    modifies client`state, client`connected, client`limitsValid
    ensures !client.connected && !client.limitsValid
    ensures client.state == if Over(old(client.state)) then old(client.state)
                            else StateDisconnected
  {
    client.connected, client.limitsValid := false, false;
    if !Over(client.state) {
      client.state := StateDisconnected;
    }
  }

  /** Close runs during the attempt, at a point the attempt gets to. */
  predicate ClosedMeanwhile(attempt: Attempt) {
    attempt.closedEarly || attempt.closedDialing || (!attempt.dialFails && !attempt.optionFails && attempt.closedLate)
  }

  /** The error an attempt on a client that is not Ready ends with, if it fails. */
  ghost predicate ConnectFailure(config: Config, attempt: Attempt, before: State, error: Error) {
    if attempt.queue.Some? then Reports(error, attempt.queue.value, Unchanged)
    else if Over(before) then error == Error(ErrorKind.Closed, 0, 0, Unchanged)
    else if attempt.canceledEarly then Reports(error, attempt.cause, Unchanged)
    else if attempt.closedEarly then error == Error(ErrorKind.Closed, 0, 0, Unchanged)
    else if attempt.dialFails then Reports(error, attempt.cause, Unchanged)
    else if attempt.optionFails then error == Error(ErrorKind.Transport, 0, 0, Unchanged)
    else if attempt.closedDialing then error == Error(ErrorKind.Closed, 0, 0, Unchanged)
    else Blamed(config, attempt, error) || (attempt.closedLate && error == Error(ErrorKind.Closed, 0, 0, Unchanged))
  }

  /** An attempt on a client that is neither Ready nor closed succeeds exactly when nothing
      disturbs it and the two answers negotiate; then the session is Ready with what was
      negotiated, its first reference used, and nothing under way. A failed attempt leaves
      the client as it was if it never began, closed if Close ran, and otherwise
      disconnected, free to be connected again. */
  method Connect(client: Client, attempt: Attempt) returns (end: Option<Error>, ghost frames: seq<seq<Byte>>)
    requires client.Valid()
    modifies client`state, client`connected, client`limitsValid, client`limits, client`reference
    modifies client.link`uplink, client.link`inbox
    ensures client.Valid()
    ensures attempt.queue.None? && old(client.state) == StateReady ==> end.None?
    ensures attempt.queue.Some? || old(client.state) == StateReady || Over(old(client.state)) || attempt.canceledEarly ==>
      && client.state == old(client.state) && frames == []
      && client.limits == old(client.limits) && client.reference == old(client.reference)
    ensures old(client.state) != StateReady ==>
      (end.None? <==>
        && !Over(old(client.state)) && Undisturbed(attempt)
        && Negotiate(client.config, 1024, attempt.confirm.value, attempt.setup.value).Ok?)
    ensures old(client.state) != StateReady && end.None? ==>
      && client.state == StateReady && client.Quiet() && client.reference == 1
      && Ok(client.limits) == Negotiate(client.config, 1024, attempt.confirm.value, attempt.setup.value)
      && |frames| == 2 && ConnectFrames(client.config, client.limits.requestedPdu, frames)
    ensures exists proposal :: ConnectFrames(client.config, proposal, frames)
    ensures end.Some? && attempt.queue.None? && !Over(old(client.state)) && !attempt.canceledEarly ==>
      client.state == if ClosedMeanwhile(attempt) then StateClosed else StateDisconnected
    ensures end.Some? && !(attempt.queue.None? && old(client.state) == StateReady) ==>
      ConnectFailure(client.config, attempt, old(client.state), end.value)
    ensures end != Some(InvariantError())
  {
    hide Negotiate, LimitsOk, ConfirmOf, Blamed;
    frames := [];
    assert ConnectFrames(client.config, 0, frames);
    if attempt.queue.Some? {
      return Some(CauseError(attempt.queue.value, Unchanged)), frames;
    }
    if Over(client.state) {
      return Some(NewError(Closed, Unchanged)), frames;
    }
    if client.state == StateReady {
      return None, frames;
    }
    if attempt.canceledEarly {
      return Some(CauseError(attempt.cause, Unchanged)), frames;
    }
    if attempt.closedEarly {
      client.CloseNow();
    }
    if Over(client.state) {
      return Some(NewError(Closed, Unchanged)), frames;
    }
    client.state := StateConnecting;
    if attempt.closedDialing {
      client.CloseNow();
    }
    if attempt.dialFails {
      FailConnect(client);
      return Some(CauseError(attempt.cause, Unchanged)), frames;
    }
    if attempt.optionFails {
      FailConnect(client);
      return Some(NewError(Transport, Unchanged)), frames;
    }
    if Over(client.state) {
      return Some(NewError(Closed, Unchanged)), frames;
    }
    client.connected := true;
    client.link.uplink, client.link.inbox := [], [];
    var agreed;
    agreed, frames := Agree(client.config, attempt);
    if attempt.closedLate {
      client.CloseNow();
    }
    if agreed.Err? {
      FailConnect(client);
      return Some(agreed.error), frames;
    }
    NegotiatedLimits(client.config, DEFAULT_TPDU, attempt.confirm.value, attempt.setup.value);
    if Over(client.state) {
      return Some(NewError(Closed, Unchanged)), frames;
    }
    client.state, client.reference, client.limits, client.limitsValid := StateReady, SETUP_REFERENCE, agreed.value, true;
    return None, frames;
  }
}
