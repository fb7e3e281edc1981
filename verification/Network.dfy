/** One exchange on one session (client.go): the client object, the connection under it
    and the controller at the other end. Everything that can go wrong is decided by a
    script, one event per exchange, so a statement for all scripts is a statement for all
    runs: writers that stop anywhere, bytes that never arrive, replies that are cut or
    forged, a context that is canceled and a Close that runs at any point. */
module Network {
  import opened Bytes
  import opened Errors
  import opened Plc
  import opened Framing
  import opened Negotiation
  import opened Fragments

  datatype State =
    | StateNew
    | StateDisconnected
    | StateConnecting
    | StateReady
    | StateBroken
    | StateClosing
    | StateClosed

  predicate Over(state: State) {
    state == StateClosed || state == StateClosing
  }

  /** What classifyContextError makes of an I/O failure. */
  datatype Cause = ByClose | ByTimeout | ByCancel | ByTransport

  function CauseError(cause: Cause, impact: SessionImpact): Error {
    match cause
    case ByClose => NewError(Closed, impact)
    case ByTimeout => NewError(Timeout, impact)
    case ByCancel => NewError(Canceled, impact)
    case ByTransport => NewError(Transport, impact)
  }

  /** What the error of an I/O failure tells the caller: why, and whether the session is lost. */
  predicate Reports(error: Error, cause: Cause, impact: SessionImpact) {
    && error.code == 0 && error.returnCode == 0 && error.impact == impact
    && (cause == ByClose <==> error.kind == ErrorKind.Closed)
    && (cause == ByTimeout <==> error.kind == ErrorKind.Timeout)
    && (cause == ByCancel <==> error.kind == ErrorKind.Canceled)
    && (cause == ByTransport <==> error.kind == ErrorKind.Transport)
  }

  /** What comes back: the first bytes of the controller's reply, or anything at all. */
  datatype Delivery = Honest(cut: nat) | Forged(bytes: seq<Byte>)

  datatype Event = Event(
    canceledEarly: bool,    // the context is done when the batch loop looks
    canceled: bool,         // ... or when the exchange looks
    closedBefore: bool,     // Close runs before the connection is looked up
    closedAfter: bool,      // ... or at any later point of the exchange
    armed: bool,            // the connection takes its deadline
    cause: Cause,
    writes: WritePlan,
    arriving: nat,          // how many of the accepted bytes get to the peer
    verdict: Verdict,
    delivery: Delivery,
    chunks: (nat, nat) -> nat)

  type Script = nat -> Event

  /** The state one exchange of a request that fits leaves, as the event and the success of
      the exchange decide: only Close closes, only a lost answer breaks. */
  function StateAfter(event: Event, before: State, answered: bool): State {
    if event.canceled then before
    else if event.closedBefore then StateClosed
    else if before != StateReady then before
    else if event.closedAfter then StateClosed
    else if answered then StateReady
    else StateBroken
  }

  /** Close does not run during these exchanges. */
  ghost predicate NoClose(script: Script, from: nat, to: nat) {
    forall turn | from <= turn < to :: !script(turn).closedBefore && !script(turn).closedAfter
  }

  /** The impact an operation reports is the impact it had. */
  predicate TrueImpact(state: State, before: State, end: Option<Error>) {
    state == if end.Some? && end.value.impact == Broken then StateBroken else before
  }

  /** Unless Close ran meanwhile, an operation left the session as its error says. */
  ghost predicate Accounted(script: Script, from: nat, to: nat, before: State, state: State, end: Option<Error>) {
    from <= to && (NoClose(script, from, to) ==> TrueImpact(state, before, end))
  }

  lemma {:induction false} AccountedOn(script: Script, from: nat, middle: nat, to: nat, before: State, between: State, state: State,
                                       end: Option<Error>)
    requires Accounted(script, from, middle, before, between, None) && Accounted(script, middle, to, between, state, end)
    ensures Accounted(script, from, to, before, state, end)
  {
  }

  lemma {:induction false} AccountedUnchanged(script: Script, from: nat, to: nat, before: State, state: State, error: Error)
    requires Accounted(script, from, to, before, state, None) && error.impact == Unchanged
    ensures Accounted(script, from, to, before, state, Some(error))
  {
  }

  /** An operation that exchanges nothing changes nothing. */
  lemma {:induction false} AccountedNothing(script: Script, turn: nat, state: State)
    ensures Accounted(script, turn, turn, state, state, None)
    ensures forall error: Error | error.impact == Unchanged :: Accounted(script, turn, turn, state, state, Some(error))
  {
  }

  /** How an exchange that lost its session says so. */
  predicate LossReported(error: Error, event: Event) {
    if !event.armed then error == Error(ErrorKind.Transport, 0, 0, Broken)
    else Reports(error, event.cause, Broken) || error == Error(ErrorKind.Protocol, 0, 0, Broken)
  }

  /** The peer is a controller that nobody else writes to; the network may still fail. */
  ghost predicate HonestScript(script: Script) {
    forall turn :: script(turn).delivery.Honest?
  }

  /** Nothing fails: every byte is taken, arrives and comes back. */
  ghost predicate Calm(event: Event) {
    && !event.canceledEarly && !event.canceled && !event.closedBefore && !event.closedAfter && event.armed
    && Progressing(event.writes)
    && event.arriving >= MAX_TPKT
    && event.delivery.Honest? && event.delivery.cut >= MAX_TPKT
  }

  ghost predicate CalmScript(script: Script) {
    forall turn :: Calm(script(turn))
  }

  function Take(bytes: seq<Byte>, count: nat): seq<Byte> {
    if count <= |bytes| then bytes[..count] else bytes
  }

  lemma {:induction false} ReplyBound(memory: Memory, payload: seq<Byte>, verdict: Verdict)
    ensures
      var reply := Serve(memory, payload, verdict).reply;
      reply.Some? ==> |reply.value| <= MAX_REPLY
  {
    hide VariablesOf, ReadBlocksFrom, WritesFrom;
  }

  /** A reply frame that has not completely arrived is never read; one that has is read
      whole, or refused for its size. */
  lemma {:induction false} CutFrame(payload: seq<Byte>, cut: nat, maxFrameBytes: int)
    requires |payload| <= MAX_REPLY
    ensures
      var stream := Take(DataFrame(payload), cut);
      match NextFrame(stream, maxFrameBytes)
      case None => cut < |payload| + DATA_HEADER || maxFrameBytes < |payload| + DATA_HEADER || maxFrameBytes > MAX_TPKT
      case Some((frame, rest)) => frame == DataFrame(payload) && rest == []
  {
    hide DataFrame;
    if cut < |payload| + DATA_HEADER {
      PartialIsNotNext(payload, cut, maxFrameBytes);
    } else if |payload| + DATA_HEADER <= maxFrameBytes <= MAX_TPKT {
      WrappedIsNext(payload, [], maxFrameBytes);
      assert DataFrame(payload) + [] == DataFrame(payload);
    } else {
      TooLargeIsNotNext(payload, maxFrameBytes);
    }
  }

  lemma {:induction false} TooLargeIsNotNext(payload: seq<Byte>, maxFrameBytes: int)
    requires |payload| <= MAX_REPLY
    requires maxFrameBytes < |payload| + DATA_HEADER || maxFrameBytes > MAX_TPKT
    ensures NextFrame(DataFrame(payload), maxFrameBytes).None?
  {
  }

  /** The reply the client takes from what has arrived, under its session's limits. */
  function ReplyIn(inbox: seq<Byte>, maxFrameBytes: int, limits: Limits): Option<seq<Byte>> {
    match NextFrame(inbox, maxFrameBytes)
    case None => None
    case Some((frame, _)) =>
      if |frame| - TPKT_HEADER > limits.tpdu then None
      else
        match UnwrapData(frame)
        case Malformed => None
        case Fragmented => None
        case Payload(payload) => if |payload| > limits.pdu then None else Some(payload)
  }

  /** From an otherwise empty connection the client takes the controller's reply, whole,
      or nothing; and every reply within the PDU that arrives whole is taken. */
  lemma {:induction false} ReplyTaken(reply: seq<Byte>, cut: nat, config: Config, limits: Limits)
    requires |reply| <= MAX_REPLY && LimitsOk(limits, config)
    ensures
      var stream := Take(DataFrame(reply), cut);
      match ReplyIn(stream, config.maxFrameBytes, limits)
      case None => cut < MAX_TPKT || |reply| > limits.pdu
      case Some(payload) => payload == reply && NextFrame(stream, config.maxFrameBytes).value.1 == []
  {
    hide DataFrame, NextFrame, UnwrapData, TpduSize;
    CutFrame(reply, cut, config.maxFrameBytes);
    WrappedUnwraps(reply);
  }

  /** A DT frame with this TPDU number octet, at the head of what has arrived. */
  ghost predicate StartsWith(inbox: seq<Byte>, payload: seq<Byte>, number: Byte, rest: seq<Byte>) {
    |payload| + 7 <= 65535 && number >= 0x80 && inbox == DataFrame(payload)[6 := number] + rest
  }

  /** What the client takes for a reply, from any bytes at all: a whole DT frame at their
      head whose payload is within the PDU and whose TPDU is within the TPDU. */
  lemma {:induction false} ReplyImage(inbox: seq<Byte>, maxFrameBytes: int, limits: Limits, payload: seq<Byte>)
    ensures ReplyIn(inbox, maxFrameBytes, limits) == Some(payload) <==>
      && |payload| + 7 <= maxFrameBytes <= 65535 && |payload| + 3 <= limits.tpdu && |payload| <= limits.pdu
      && exists number, rest :: StartsWith(inbox, payload, number, rest)
  {
    hide NextFrame, UnwrapData, DataFrame;
    var next := NextFrame(inbox, maxFrameBytes);
    if next.Some? {
      NextFrameImage(inbox, maxFrameBytes, next.value.0, next.value.1);
      UnwrapImage(next.value.0, payload);
    }
    if ReplyIn(inbox, maxFrameBytes, limits) == Some(payload) {
      var (frame, rest) := next.value;
      assert frame == frame[6 := 0x80][6 := frame[6]];
      assert StartsWith(inbox, payload, frame[6], rest);
    }
    if number, rest :| StartsWith(inbox, payload, number, rest) {
      var frame := DataFrame(payload)[6 := number];
      FrameStart(payload, number);
      NextFrameImage(inbox, maxFrameBytes, frame, rest);
      assert frame[6 := 0x80] == DataFrame(payload);
      UnwrapImage(frame, payload);
    }
  }

  lemma {:induction false} FrameStart(payload: seq<Byte>, number: Byte)
    requires |payload| + 7 <= 65535
    ensures
      var frame := DataFrame(payload)[6 := number];
      && |frame| == |payload| + 7
      && frame[..4] == [0x03, 0x00, |frame| / 256, |frame| % 256]
      && DataFrame(payload)[6] == 0x80
  {
  }

  lemma {:induction false} SilenceTaken(maxFrameBytes: int, limits: Limits)
    ensures ReplyIn([], maxFrameBytes, limits).None?
  {
  }

  lemma {:induction false} ArrivedFrame(request: seq<Byte>, bytes: seq<Byte>)
    requires |request| <= MAX_REPLY && bytes <= DataFrame(request)
    ensures NextFrame(bytes, MAX_TPKT) == if bytes == DataFrame(request) then Some((bytes, [])) else None
    ensures UnwrapData(DataFrame(request)) == Payload(request)
  {
    hide DataFrame, NextFrame, UnwrapData;
    var frame := DataFrame(request);
    WrappedUnwraps(request);
    if |bytes| == |frame| {
      assert bytes == frame && frame + [] == frame;
      WrappedIsNext(request, [], MAX_TPKT);
    } else {
      assert bytes == frame[..|bytes|];
      PartialIsNotNext(request, |bytes|, MAX_TPKT);
    }
  }

  /** The connection and what is behind it. */
  class Link {
    const script: Script
    const server: Server
    var turn: nat
    var uplink: seq<Byte>             // arrived at the peer, not yet a whole frame
    var inbox: seq<Byte>              // arrived at the client, not yet read
    ghost var departed: seq<seq<Byte>> // every request any byte of which has left

    constructor (script: Script, memory: Memory)
      ensures this.script == script && turn == 0 && uplink == [] && inbox == [] && departed == []
      ensures fresh(server) && server.memory == memory
    {
      this.script := script;
      server := new Server(memory);
      turn, uplink, inbox, departed := 0, [], [], [];
    }

    /** The peer takes what arrives of a request's frame. A controller acts only on a
        whole frame. */
    method Arrive(event: Event, ghost request: seq<Byte>, bytes: seq<Byte>)
      requires |request| <= MAX_REPLY && bytes <= DataFrame(request)
      modifies this`uplink, this`inbox, server
      ensures event.delivery.Forged? ==> server.memory == old(server.memory)
      ensures event.delivery.Honest? && old(uplink) == [] && bytes != DataFrame(request) ==>
        server.memory == old(server.memory) && inbox == old(inbox)
      ensures event.delivery.Honest? && old(uplink) == [] && bytes == DataFrame(request) ==>
        var served := Serve(old(server.memory), request, event.verdict);
        && uplink == []
        && server.memory == served.memory
        && match served.reply
           case None => inbox == old(inbox)
           case Some(reply) => |reply| <= MAX_REPLY && inbox == old(inbox) + Take(DataFrame(reply), event.delivery.cut)
    {
      hide DataFrame, UnwrapData, NextFrame, Serve;
      uplink := uplink + bytes;
      if event.delivery.Forged? {
        inbox := inbox + event.delivery.bytes;
        return;
      }
      if old(uplink) == [] {
        assert uplink == bytes;
        ArrivedFrame(request, bytes);
      }
      var next := NextFrame(uplink, MAX_TPKT);
      if next.None? {
        return;
      }
      uplink := next.value.1;
      var payload := UnwrapData(next.value.0);
      if !payload.Payload? {
        return;
      }
      ReplyBound(server.memory, payload.data, event.verdict);
      var reply := server.Handle(payload.data, event.verdict);
      if reply.Some? {
        inbox := inbox + Take(DataFrame(reply.value), event.delivery.cut);
      }
    }
  }

  // -------------------------------------------------------------- references

  function NextAfter(reference: U16): U16 {
    if reference == MAX_U16 then 1 else reference + 1
  }

  /** The k-th reference after this one. */
  function ReferenceAfter(reference: U16, k: nat): U16 {
    if k == 0 then reference else NextAfter(ReferenceAfter(reference, k - 1))
  }

  lemma {:induction false} ReferenceClosedForm(reference: U16, k: nat)
    requires k >= 1
    ensures ReferenceAfter(reference, k) == (reference - 1 + k) % 65535 + 1
  {
    if k > 1 {
      ReferenceClosedForm(reference, k - 1);
    } else if reference == MAX_U16 {
      assert (reference - 1 + k) % 65535 == 0;
    }
  }

  /** Request references are never zero, and any 65535 consecutive ones differ. */
  lemma {:induction false} ReferencesDistinct(reference: U16, first: nat, second: nat)
    requires 1 <= first < second < first + 65535
    ensures ReferenceAfter(reference, first) != 0 && ReferenceAfter(reference, second) != 0
    ensures ReferenceAfter(reference, first) != ReferenceAfter(reference, second)
  {
    ReferenceClosedForm(reference, first);
    ReferenceClosedForm(reference, second);
  }

  // ------------------------------------------------------------------ client

  /** The fields of a client that one operation, holding the gate, can see and change. */
  class Client {
    const config: Config
    const link: Link
    var state: State
    var connected: bool
    var reference: U16
    var limits: Limits
    var limitsValid: bool

    ghost predicate Valid()
      reads this
    {
      && ValidConfig(config)
      && (limitsValid <==> state == StateReady)
      && (state == StateReady ==> connected && LimitsOk(limits, config))
    }

    /** Nothing is under way on a Ready session: every request has had its reply read. */
    ghost predicate Quiet()
      reads this, link
    {
      state == StateReady ==> link.uplink == [] && link.inbox == []
    }

    /** A session as Connect leaves it. */
    constructor (config: Config, link: Link, limits: Limits)
      requires ValidConfig(config) && LimitsOk(limits, config)
      ensures this.config == config && this.link == link && this.limits == limits
      ensures Valid() && state == StateReady && reference == SETUP_REFERENCE
    {
      this.config, this.link, this.limits := config, link, limits;
      state, connected, limitsValid, reference := StateReady, true, true, SETUP_REFERENCE;
    }

    method NextReference() returns (next: U16)
      requires Valid()
      modifies this`reference
      ensures next == reference == NextAfter(old(reference)) && next != 0
    {
      reference := (reference + 1) % 0x1_0000;
      if reference == 0 {
        reference := 1;
      }
      return reference;
    }

    function StateError(): Error
      reads this
    {
      if Over(state) then NewError(Closed, Unchanged)
      else NewError(NotConnected, Unchanged)
    }

    method ReadyPdu() returns (r: Result<nat>)
      requires Valid()
      ensures r == if state == StateReady then Ok(limits.pdu) else Err(StateError())
    {
      if state != StateReady || !connected || !limitsValid {
        return Err(StateError());
      }
      return Ok(limits.pdu);
    }

    method BreakSession()
      modifies this`state, this`connected, this`limitsValid
      ensures !connected && !limitsValid
      ensures state == if Over(old(state)) then old(state) else StateBroken
    {
      connected, limitsValid := false, false;
      if !Over(state) {
        state := StateBroken;
      }
    }

    /** Close, running to its end at one point of an operation. */
    method CloseNow()
      modifies this`state, this`connected, this`limitsValid
      ensures state == StateClosed && !connected && !limitsValid
    {
      state := StateClosing;
      connected, limitsValid := false, false;
      state := StateClosed;
    }

    ghost predicate NoLonger(before: State)
      reads this
    {
      state == before || state == StateClosed || (state == StateBroken && before != StateClosed)
    }

    /** The second half of an exchange: read one frame, or give the session up. */
    method Receive(event: Event) returns (r: Result<seq<Byte>>)
      requires Valid() && state == StateReady
      modifies this`state, this`connected, this`limitsValid, link`inbox
      ensures Valid()
      ensures
        match ReplyIn(old(link.inbox), config.maxFrameBytes, limits)
        case None =>
          && r.Err? && state == StateBroken
          && if NextFrame(old(link.inbox), config.maxFrameBytes).None? then Reports(r.error, event.cause, Broken)
             else r.error == Error(ErrorKind.Protocol, 0, 0, Broken)
        case Some(payload) =>
          && r == Ok(payload) && state == StateReady
          && link.inbox == NextFrame(old(link.inbox), config.maxFrameBytes).value.1
    {
      hide UnwrapData, NextFrame, LimitsOk;
      var reader := new Reader(event.chunks, link.inbox);
      var response := ReadFrame(reader, config.maxFrameBytes);
      link.inbox := reader.incoming;
      if response.None? {
        BreakSession();
        return Err(CauseError(event.cause, Broken));
      }
      if |response.value| - TPKT_HEADER > limits.tpdu {
        BreakSession();
        return Err(ProtocolError());
      }
      var payload := UnwrapData(response.value);
      if !payload.Payload? {
        BreakSession();
        return Err(ProtocolError());
      }
      if |payload.data| > limits.pdu {
        BreakSession();
        return Err(ProtocolError());
      }
      return Ok(payload.data);
    }

    /** The part of an exchange after the request has passed every local check. */
    method Converse(event: Event, request: seq<Byte>, frame: seq<Byte>) returns (r: Result<seq<Byte>>, sent: bool)
      requires Valid() && state == StateReady && |request| <= limits.pdu && frame == DataFrame(request)
      modifies this`state, this`connected, this`limitsValid, link`uplink, link`inbox, link`departed, link.server
      ensures Valid() && (state == StateReady || state == StateBroken)
      ensures r.Ok? ==> sent && state == StateReady && |r.value| <= limits.pdu && event.armed
      ensures r.Err? ==> state == StateBroken && r.error.impact == Broken && LossReported(r.error, event)
      ensures link.departed == old(link.departed) + if sent then [request] else []
      ensures !sent ==> link.server.memory == old(link.server.memory)
      ensures event.delivery.Honest? && old(Quiet()) ==>
        var served := Serve(old(link.server.memory), request, event.verdict);
        && Quiet()
        && (link.server.memory == old(link.server.memory) || link.server.memory == served.memory)
        && (r.Ok? ==> served == Served(link.server.memory, Some(r.value)))
        && (Calm(event) && served.reply.Some? && |served.reply.value| <= limits.pdu ==>
             r == Ok(served.reply.value) && link.server.memory == served.memory)
    {
      hide DataFrame, Serve, LimitsOk, NextFrame;
      if !event.armed {
        BreakSession();
        return Err(NewError(Transport, Broken)), false;
      }
      var writer := new Writer(event.writes);
      var written, failed := WriteFull(writer, frame);
      assert writer.accepted == frame[..written];
      SmallRequest(request, limits, config);
      if written > 0 {
        link.departed := link.departed + [request];
        link.Arrive(event, request, Take(writer.accepted, event.arriving));
      }
      if failed {
        BreakSession();
        return Err(CauseError(event.cause, Broken)), written > 0;
      }
      ghost var inbox := link.inbox;
      r := Receive(event);
      sent := true;
      if event.delivery.Honest? && old(Quiet()) {
        SilenceTaken(config.maxFrameBytes, limits);
        ghost var served := Serve(old(link.server.memory), request, event.verdict);
        if Take(frame, event.arriving) == frame && served.reply.Some? {
          ReplyTaken(served.reply.value, event.delivery.cut, config, limits);
          assert inbox == Take(DataFrame(served.reply.value), event.delivery.cut);
        }
      }
    }

    /** What one event decides for one request. */
    method Exchange(request: seq<Byte>) returns (r: Result<seq<Byte>>, sent: bool)
      requires Valid()
      modifies this`state, this`connected, this`limitsValid, link`turn, link`uplink, link`inbox, link`departed, link.server
      ensures Valid() && link.turn == old(link.turn) + 1 && NoLonger(old(state))
      ensures r.Ok? ==> sent && |r.value| <= limits.pdu && link.script(old(link.turn)).armed
      ensures sent ==> old(state) == StateReady && |request| <= limits.pdu
      ensures r.Err? && (sent || r.error.impact == Broken) ==> state != StateReady
      ensures link.departed == old(link.departed) + if sent then [request] else []
      ensures !sent ==> link.server.memory == old(link.server.memory)
      ensures r.Err? ==> r.error != LimitError()
      ensures (old(state) == StateReady ==> |request| <= limits.pdu) ==>
        var event := link.script(old(link.turn));
        && state == StateAfter(event, old(state), r.Ok?)
        && (r.Err? ==> r.error != InvariantError())
        && (event.canceled ==> r.Err? && Reports(r.error, event.cause, Unchanged))
        && (!event.canceled && (event.closedBefore || old(state) != StateReady) ==>
             r == Err(Error(if event.closedBefore || Over(old(state)) then ErrorKind.Closed else ErrorKind.NotConnected,
                            0, 0, Unchanged)))
        && (r.Err? && (sent || (!event.canceled && !event.closedBefore && old(state) == StateReady)) ==> LossReported(r.error, event))
      ensures link.script(old(link.turn)).delivery.Honest? && old(Quiet()) ==>
        var event := link.script(old(link.turn));
        var served := Serve(old(link.server.memory), request, event.verdict);
        && Quiet()
        && (link.server.memory == old(link.server.memory) || link.server.memory == served.memory)
        && (r.Ok? ==> served == Served(link.server.memory, Some(r.value)))
        && (Calm(event) && old(state) == StateReady && |request| <= limits.pdu
            && served.reply.Some? && |served.reply.value| <= limits.pdu ==>
             r == Ok(served.reply.value) && link.server.memory == served.memory && state == StateReady)
    {
      hide DataFrame, Serve, LimitsOk, NextFrame;
      var event := link.script(link.turn);
      link.turn := link.turn + 1;
      if event.canceled {
        return Err(CauseError(event.cause, Unchanged)), false;
      }
      if event.closedBefore {
        CloseNow();
      }
      if state != StateReady || !connected || !limitsValid {
        return Err(StateError()), false;
      }
      if |request| > limits.pdu {
        return Err(InvariantError()), false;
      }
      SmallRequest(request, limits, config);
      var frame := WrapData(request);
      if frame.Err? {
        return Err(frame.error), false;
      }
      if |frame.value| - TPKT_HEADER > limits.tpdu {
        return Err(InvariantError()), false;
      }
      r, sent := Converse(event, request, frame.value);
      if event.closedAfter {
        CloseNow();
      }
    }
  }

  /** A request within the PDU always fits the frame and the TPDU. */
  lemma {:induction false} SmallRequest(request: seq<Byte>, limits: Limits, config: Config)
    requires |request| <= limits.pdu && LimitsOk(limits, config)
    ensures |request| <= MAX_REPLY && |DataFrame(request)| == |request| + DATA_HEADER
    ensures |DataFrame(request)| - TPKT_HEADER <= limits.tpdu
  {
  }

  /** The controller is honest and nothing is under way. */
  ghost predicate Trusted(client: Client)
    reads client, client.link
  {
    HonestScript(client.link.script) && client.Quiet()
  }

  ghost predicate Refusing(script: Script) {
    exists turn :: script(turn).verdict.Global() != 0
  }

  lemma {:induction false} ScriptAt(script: Script, turn: nat)
    ensures CalmScript(script) ==> Calm(script(turn))
    ensures HonestScript(script) ==> script(turn).delivery.Honest?
    ensures !Refusing(script) ==> script(turn).verdict.Global() == 0
  {
  }

  lemma {:induction false} ReferenceStep(reference: U16, k: nat)
    ensures ReferenceAfter(reference, k + 1) == NextAfter(ReferenceAfter(reference, k))
  {
  }

  lemma {:induction false} PduSmall(client: Client)
    requires client.Valid() && client.state == StateReady
    ensures SessionPdu(client.limits.pdu) && client.limits.pdu <= MAX_PDU
  {
  }
}
