/** The session state machine under interleaving (client.go). Any number of callers run
    Connect and read or write operations, and Close runs beside them. One step is one
    critical section of the client's mutex, one send or receive on the gate, the
    lifecycle cancel, or one socket open, close, send or receive. */
module Lifecycle {
  import opened Bytes
  import opened Errors
  import opened Negotiation
  import opened Network

  type Conn = nat // sockets are numbered in the order they are dialled

  datatype Goal = ToConnect | ToOperate

  /** Where a caller is. */
  datatype Pc =
    | Idle
    | Waiting(goal: Goal)                    // at the gate
    | Entered(goal: Goal)                    // has the gate, looks at the lifecycle once more
    | ConnectCheck
    | ConnectEnter
    | Dialing
    | Dialed(conn: Conn)                     // a socket nobody else knows of yet
    | Dropping(conn: Conn)                   // a TCP option could not be set
    | Discarding(conn: Conn)                 // the client was closed meanwhile
    | Handshaking(conn: Conn, step: nat)     // two requests, two answers
    | Negotiated(conn: Conn, limits: Limits)
    | FailConnect(used: Option<Conn>)
    | FailClosing(used: Option<Conn>, took: Option<Conn>)
    | OpStart
    | OpLoop
    | Snapshot
    | Sending(conn: Conn)
    | Awaiting(conn: Conn, request: nat)
    | Decoding(conn: Conn, request: nat, answered: nat)
    | BreakSession(conn: Conn)
    | BreakClosing(conn: Conn, took: Option<Conn>)
    | Releasing

  /** Close runs once: the critical section, the cancel, the socket, the last section. */
  datatype Closer = NotStarted | Cancelling(took: Option<Conn>) | Shutting(took: Option<Conn>) | Finishing | Finished

  datatype Session = Session(
    state: State,
    conn: Option<Conn>,
    limitsValid: bool,
    limits: Limits,
    gate: bool,                    // the token is taken
    canceled: bool,
    closer: Closer,
    callers: map<nat, Pc>,
    open: set<Conn>,
    queues: map<Conn, seq<nat>>,   // requests a socket's peer still owes an answer, oldest first
    dialed: nat,
    issued: nat)

  datatype Choice =
    | StartConnect
    | StartOperation
    | Proceed
    | GiveUp                       // a context is done, or a system call fails
    | GiveUpAfterSending           // the whole frame left before the write failed
    | Finish
    | Answers(confirmFrame: seq<Byte>, setupFrame: seq<Byte>)

  function PcOf(s: Session, caller: nat): Pc {
    if caller in s.callers then s.callers[caller] else Idle
  }

  function At(s: Session, caller: nat, pc: Pc): Session {
    s.(callers := s.callers[caller := pc])
  }

  function Queue(s: Session, conn: Conn): seq<nat> {
    if conn in s.queues then s.queues[conn] else []
  }

  function Shut(s: Session, conn: Option<Conn>): Session {
    if conn.Some? then s.(open := s.open - {conn.value}) else s
  }

  function Enqueue(s: Session, conn: Conn): Session {
    s.(queues := s.queues[conn := Queue(s, conn) + [s.issued]], issued := s.issued + 1)
  }

  function Dequeue(s: Session, conn: Conn): Session
    requires Queue(s, conn) != []
  {
    s.(queues := s.queues[conn := Queue(s, conn)[1..]])
  }

  // --------------------------------------------------------- callers' steps

  function GateStep(s: Session, caller: nat, choice: Choice): Option<Session> {
    match PcOf(s, caller)
    case Idle =>
      if choice.StartConnect? then Some(At(s, caller, Waiting(ToConnect)))
      else if choice.StartOperation? then Some(At(s, caller, Waiting(ToOperate)))
      else None
    case Waiting(goal) =>
      if choice.GiveUp? then Some(At(s, caller, Idle))
      else if choice.Proceed? && !s.gate then Some(At(s, caller, Entered(goal)).(gate := true))
      else None
    case Entered(goal) =>
      if s.canceled then Some(At(s, caller, Releasing))
      else Some(At(s, caller, if goal.ToConnect? then ConnectCheck else OpStart))
    case Releasing => Some(At(s, caller, Idle).(gate := false))
    case _ => None
  }

  function ConnectStep(config: Config, s: Session, caller: nat, choice: Choice): Option<Session> {
    match PcOf(s, caller)
    case ConnectCheck =>
      if Over(s.state) || s.state == StateReady then Some(At(s, caller, Releasing)) else Some(At(s, caller, ConnectEnter))
    case ConnectEnter =>
      if choice.GiveUp? || Over(s.state) then Some(At(s, caller, Releasing))
      else Some(At(s, caller, Dialing).(state := StateConnecting))
    case Dialing =>
      if choice.GiveUp? then Some(At(s, caller, FailConnect(None)))
      else
        Some(At(s, caller, Dialed(s.dialed)).(dialed := s.dialed + 1, open := s.open + {s.dialed},
                                              queues := s.queues[s.dialed := []]))
    case Dialed(conn) =>
      if choice.GiveUp? then Some(At(s, caller, Dropping(conn)))
      else if Over(s.state) then Some(At(s, caller, Discarding(conn)))
      else Some(At(s, caller, Handshaking(conn, 0)).(conn := Some(conn)))
    case Dropping(conn) => Some(At(Shut(s, Some(conn)), caller, FailConnect(None)))
    case Discarding(conn) => Some(At(Shut(s, Some(conn)), caller, Releasing))
    case Handshaking(conn, step) => HandshakeStep(config, s, caller, conn, step, choice)
    case Negotiated(conn, limits) =>
      if choice.GiveUp? then Some(At(s, caller, FailConnect(Some(conn))))
      else if Over(s.state) then Some(At(s, caller, Discarding(conn)))
      else Some(At(s, caller, Releasing).(state := StateReady, limits := limits, limitsValid := true))
    case FailConnect(used) =>
      Some(At(s, caller, FailClosing(used, s.conn)).(
             conn := None, limitsValid := false, state := if Over(s.state) then s.state else StateDisconnected))
    case FailClosing(_, took) => Some(At(Shut(s, took), caller, Releasing))
    case _ => None
  }

  function HandshakeStep(config: Config, s: Session, caller: nat, conn: Conn, step: nat, choice: Choice): Option<Session> {
    if choice.GiveUp? then Some(At(s, caller, FailConnect(Some(conn))))
    else if choice.GiveUpAfterSending? && (step == 0 || step == 2) then
      Some(At(Enqueue(s, conn), caller, FailConnect(Some(conn))))
    else if step == 0 || step == 2 then
      if conn in s.open then Some(At(Enqueue(s, conn), caller, Handshaking(conn, step + 1))) else None
    else if step == 1 || step == 3 then
      if conn in s.open && Queue(s, conn) != [] then Some(At(Dequeue(s, conn), caller, Handshaking(conn, step + 1))) else None
    else if choice.Answers? then
      match Negotiate(config, DEFAULT_TPDU, choice.confirmFrame, choice.setupFrame)
      case Ok(limits) => Some(At(s, caller, Negotiated(conn, limits)))
      case Err(_) => Some(At(s, caller, FailConnect(Some(conn))))
    else None
  }

  function OperationStep(s: Session, caller: nat, choice: Choice): Option<Session> {
    match PcOf(s, caller)
    case OpStart =>
      if choice.GiveUp? || s.state != StateReady || s.conn.None? || !s.limitsValid then Some(At(s, caller, Releasing))
      else Some(At(s, caller, OpLoop))
    case OpLoop =>
      if choice.Finish? || choice.GiveUp? then Some(At(s, caller, Releasing)) else Some(At(s, caller, Snapshot))
    case Snapshot =>
      if choice.GiveUp? || s.state != StateReady || s.conn.None? || !s.limitsValid then Some(At(s, caller, Releasing))
      else Some(At(s, caller, Sending(s.conn.value)))
    case Sending(conn) =>
      if choice.GiveUp? then Some(At(s, caller, BreakSession(conn)))
      else if choice.GiveUpAfterSending? then Some(At(Enqueue(s, conn), caller, BreakSession(conn)))
      else if conn in s.open then Some(At(Enqueue(s, conn), caller, Awaiting(conn, s.issued)))
      else None
    case Awaiting(conn, request) =>
      if choice.GiveUp? then Some(At(s, caller, BreakSession(conn)))
      else if conn in s.open && Queue(s, conn) != [] then
        Some(At(Dequeue(s, conn), caller, Decoding(conn, request, Queue(s, conn)[0])))
      else None
    case Decoding(conn, _, _) =>
      if choice.GiveUp? then Some(At(s, caller, BreakSession(conn))) else Some(At(s, caller, OpLoop))
    case BreakSession(conn) =>
      Some(At(s, caller, BreakClosing(conn, s.conn)).(
             conn := None, limitsValid := false, state := if Over(s.state) then s.state else StateBroken))
    case BreakClosing(_, took) => Some(At(Shut(s, took), caller, Releasing))
    case _ => None
  }

  function CallerStep(config: Config, s: Session, caller: nat, choice: Choice): Option<Session> {
    match PcOf(s, caller)
    case Idle | Waiting(_) | Entered(_) | Releasing => GateStep(s, caller, choice)
    case OpStart | OpLoop | Snapshot | Sending(_) | Awaiting(_, _) | Decoding(_, _, _) | BreakSession(_) | BreakClosing(_, _) =>
      OperationStep(s, caller, choice)
    case _ => ConnectStep(config, s, caller, choice)
  }

  /** Close, beside everything else. */
  function CloserStep(s: Session): Option<Session> {
    match s.closer
    case NotStarted =>
      Some(s.(state := StateClosing, closer := Cancelling(s.conn), conn := None, limitsValid := false))
    case Cancelling(took) => Some(s.(canceled := true, closer := Shutting(took)))
    case Shutting(took) => Some(Shut(s, took).(closer := Finishing))
    case Finishing => Some(s.(state := StateClosed, closer := Finished))
    case Finished => None
  }

  ghost predicate Next(config: Config, s: Session, after: Session) {
    || CloserStep(s) == Some(after)
    || exists caller, choice :: CallerStep(config, s, caller, choice) == Some(after)
  }

  function Initial(): Session {
    Session(StateNew, None, false, Limits(0, 0, 0), false, false, NotStarted, map[], {}, map[], 0, 0)
  }

  // ------------------------------------------------------------- invariant

  predicate Holding(pc: Pc) {
    !pc.Idle? && !pc.Waiting?
  }

  predicate CloserHas(s: Session, conn: Conn) {
    (s.closer.Cancelling? || s.closer.Shutting?) && s.closer.took == Some(conn)
  }

  predicate CloserIdle(s: Session) {
    (s.closer.Cancelling? || s.closer.Shutting?) ==> s.closer.took.None?
  }

  /** Every open socket is somebody's to close: the session's, Close's, or `extra`. */
  ghost predicate InCustody(s: Session, extra: Option<Conn>) {
    forall conn | conn in s.open :: s.conn == Some(conn) || CloserHas(s, conn) || extra == Some(conn)
  }

  /** No reply is outstanding on a Ready session. */
  predicate Aligned(s: Session) {
    s.state == StateReady && s.conn.Some? ==> Queue(s, s.conn.value) == []
  }

  predicate Latest(s: Session, conn: Conn) {
    conn + 1 == s.dialed
  }

  predicate Pending(s: Session) {
    s.state == StateConnecting || Over(s.state)
  }

  /** What is true while a caller with the gate is at some point. */
  ghost predicate PcInv(config: Config, s: Session, pc: Pc) {
    match pc
    case Idle | Waiting(_) => true
    case Entered(_) | ConnectCheck | OpStart | OpLoop | Snapshot | Releasing =>
      InCustody(s, None) && s.state != StateConnecting && Aligned(s)
    case ConnectEnter => InCustody(s, None) && s.state != StateConnecting && s.state != StateReady
    case Dialing => s.open == {} && s.conn.None? && CloserIdle(s) && Pending(s)
    case Dialed(conn) => Latest(s, conn) && s.conn.None? && CloserIdle(s) && Pending(s) && Queue(s, conn) == []
    case Dropping(conn) => Latest(s, conn) && s.conn.None? && CloserIdle(s) && Pending(s)
    case Discarding(conn) => Latest(s, conn) && Over(s.state)
    case Handshaking(conn, step) =>
      && Latest(s, conn) && Pending(s) && (s.state == StateConnecting ==> s.conn == Some(conn)) && InCustody(s, None)
      && step <= 4 && |Queue(s, conn)| == step % 2
    case Negotiated(conn, limits) =>
      && Latest(s, conn) && Pending(s) && (s.state == StateConnecting ==> s.conn == Some(conn)) && InCustody(s, None)
      && Queue(s, conn) == [] && LimitsOk(limits, config)
    case FailConnect(used) =>
      Pending(s) && (s.state == StateConnecting ==> s.conn == used) && InCustody(s, None)
    case FailClosing(used, took) =>
      && InCustody(s, took) && s.conn.None? && s.state != StateConnecting && s.state != StateReady
      && (took.Some? ==> took == used)
    case Sending(conn) =>
      Latest(s, conn) && Using(s, conn) && InCustody(s, None) && Queue(s, conn) == []
    case Awaiting(conn, request) =>
      Latest(s, conn) && Using(s, conn) && InCustody(s, None) && Queue(s, conn) == [request]
    case Decoding(conn, request, answered) =>
      Latest(s, conn) && Using(s, conn) && InCustody(s, None) && Queue(s, conn) == [] && answered == request
    case BreakSession(conn) => Using(s, conn) && InCustody(s, None)
    case BreakClosing(conn, took) =>
      && InCustody(s, took) && s.conn.None? && s.state != StateConnecting && s.state != StateReady
      && (took.Some? ==> took == Some(conn))
  }

  /** An operation's socket is the session's, as long as nobody closed the client. */
  predicate Using(s: Session, conn: Conn) {
    (s.state == StateReady && s.conn == Some(conn)) || Over(s.state)
  }

  /** State, socket and limits belong together. */
  ghost predicate StateInv(config: Config, s: Session) {
    && (s.limitsValid <==> s.state == StateReady)
    && (s.state == StateReady ==> s.conn.Some? && LimitsOk(s.limits, config))
    && (s.conn.Some? ==> Latest(s, s.conn.value) && (s.state == StateReady || s.state == StateConnecting))
    && (forall conn | conn in s.open :: Latest(s, conn))
    && (match s.closer
        case NotStarted => !Over(s.state)
        case Cancelling(took) => s.state == StateClosing && (took.Some? ==> Latest(s, took.value))
        case Shutting(took) => s.state == StateClosing && (took.Some? ==> Latest(s, took.value))
        case Finishing => s.state == StateClosing
        case Finished => s.state == StateClosed)
  }

  /** The gate admits one caller at a time. */
  ghost predicate GateInv(s: Session) {
    && (forall one, two :: Holding(PcOf(s, one)) && Holding(PcOf(s, two)) ==> one == two)
    && (s.gate <==> exists caller :: Holding(PcOf(s, caller)))
  }

  ghost predicate Inv(config: Config, s: Session) {
    && StateInv(config, s)
    && GateInv(s)
    && (forall caller :: PcInv(config, s, PcOf(s, caller)))
    && (!s.gate ==> InCustody(s, None) && s.state != StateConnecting && Aligned(s))
  }

  lemma {:induction false} InitialHolds(config: Config)
    ensures Inv(config, Initial())
  {
  }

  /** A step of the caller who has the gate needs to be checked for that caller alone. */
  lemma {:induction false} HolderStep(config: Config, s: Session, caller: nat, after: Session, pc: Pc)
    requires Inv(config, s) && Holding(PcOf(s, caller)) && Holding(pc)
    requires after.callers == s.callers[caller := pc] && after.gate == s.gate
    requires StateInv(config, after) && PcInv(config, after, pc)
    ensures Inv(config, after)
  {
    hide PcInv, StateInv, InCustody;
    assert PcOf(after, caller) == pc;
    forall other
      ensures PcInv(config, after, PcOf(after, other))
    {
      if other != caller {
        assert PcOf(after, other) == PcOf(s, other);
        NotHolding(config, after, PcOf(s, other));
      }
    }
    forall one, two | Holding(PcOf(after, one)) && Holding(PcOf(after, two))
      ensures one == two
    {
      assert one != caller ==> PcOf(after, one) == PcOf(s, one);
      assert two != caller ==> PcOf(after, two) == PcOf(s, two);
    }
  }

  lemma {:induction false} NotHolding(config: Config, s: Session, pc: Pc)
    ensures !Holding(pc) ==> PcInv(config, s, pc)
  {
  }

  // ---------------------------------------------------------- preservation

  /** What one step of the caller with the gate does to the caller's own invariant. */
  ghost predicate LocalStep(config: Config, s: Session, caller: nat, after: Session) {
    && after.gate == s.gate
    && after.callers == s.callers[caller := PcOf(after, caller)]
    && Holding(PcOf(after, caller))
    && StateInv(config, after) && PcInv(config, after, PcOf(after, caller))
  }

  lemma {:induction false} LocalKeeps(config: Config, s: Session, caller: nat, after: Session)
    requires Inv(config, s) && Holding(PcOf(s, caller)) && LocalStep(config, s, caller, after)
    ensures Inv(config, after)
  {
    hide PcInv, StateInv, InCustody, Aligned;
    HolderStep(config, s, caller, after, PcOf(after, caller));
  }

  lemma {:induction false} PlanLocal(config: Config, s: Session, caller: nat, choice: Choice)
    requires StateInv(config, s) && PcInv(config, s, PcOf(s, caller)) && OperationStep(s, caller, choice).Some?
    requires PcOf(s, caller).OpStart? || PcOf(s, caller).OpLoop?
    ensures LocalStep(config, s, caller, OperationStep(s, caller, choice).value)
  {
    hide LimitsOk;
  }

  lemma {:induction false} LookLocal(config: Config, s: Session, caller: nat, choice: Choice)
    requires StateInv(config, s) && PcInv(config, s, PcOf(s, caller)) && OperationStep(s, caller, choice).Some?
    requires PcOf(s, caller).Snapshot? || PcOf(s, caller).Decoding?
    ensures LocalStep(config, s, caller, OperationStep(s, caller, choice).value)
  {
    hide LimitsOk;
  }

  lemma {:induction false} TalkLocal(config: Config, s: Session, caller: nat, choice: Choice)
    requires StateInv(config, s) && PcInv(config, s, PcOf(s, caller)) && OperationStep(s, caller, choice).Some?
    requires PcOf(s, caller).Sending? || PcOf(s, caller).Awaiting?
    ensures LocalStep(config, s, caller, OperationStep(s, caller, choice).value)
  {
    hide LimitsOk;
  }

  lemma {:induction false} BreakLocal(config: Config, s: Session, caller: nat, choice: Choice)
    requires StateInv(config, s) && PcInv(config, s, PcOf(s, caller)) && OperationStep(s, caller, choice).Some?
    requires PcOf(s, caller).BreakSession? || PcOf(s, caller).BreakClosing?
    ensures LocalStep(config, s, caller, OperationStep(s, caller, choice).value)
  {
    hide LimitsOk;
  }

  lemma {:induction false} OperationKeeps(config: Config, s: Session, caller: nat, choice: Choice)
    requires Inv(config, s) && OperationStep(s, caller, choice).Some?
    ensures Inv(config, OperationStep(s, caller, choice).value)
  {
    hide PcInv, StateInv, InCustody, Aligned, LocalStep;
    assert PcInv(config, s, PcOf(s, caller));
    match PcOf(s, caller) {
      case Sending(_) | Awaiting(_, _) => TalkLocal(config, s, caller, choice);
      case BreakSession(_) | BreakClosing(_, _) => BreakLocal(config, s, caller, choice);
      case Snapshot | Decoding(_, _, _) => LookLocal(config, s, caller, choice);
      case _ => PlanLocal(config, s, caller, choice);
    }
    LocalKeeps(config, s, caller, OperationStep(s, caller, choice).value);
  }

  predicate Talking(choice: Choice) {
    !choice.GiveUp? && !choice.GiveUpAfterSending? && !choice.Answers?
  }

  lemma {:induction false} HandshakeLocal(config: Config, s: Session, caller: nat, conn: Conn, step: nat, choice: Choice)
    requires PcOf(s, caller) == Handshaking(conn, step) && Talking(choice)
    requires StateInv(config, s) && PcInv(config, s, PcOf(s, caller))
    requires HandshakeStep(config, s, caller, conn, step, choice).Some?
    ensures LocalStep(config, s, caller, HandshakeStep(config, s, caller, conn, step, choice).value)
  {
    hide LimitsOk, Negotiate;
  }

  lemma {:induction false} HandshakeFails(config: Config, s: Session, caller: nat, conn: Conn, step: nat, choice: Choice)
    requires PcOf(s, caller) == Handshaking(conn, step) && (choice.GiveUp? || choice.GiveUpAfterSending?)
    requires StateInv(config, s) && PcInv(config, s, PcOf(s, caller))
    requires HandshakeStep(config, s, caller, conn, step, choice).Some?
    ensures LocalStep(config, s, caller, HandshakeStep(config, s, caller, conn, step, choice).value)
  {
    hide LimitsOk, Negotiate;
  }

  lemma {:induction false} AnswersLocal(config: Config, s: Session, caller: nat, conn: Conn, step: nat, choice: Choice)
    requires ValidConfig(config) && PcOf(s, caller) == Handshaking(conn, step) && choice.Answers?
    requires StateInv(config, s) && PcInv(config, s, PcOf(s, caller))
    requires HandshakeStep(config, s, caller, conn, step, choice).Some?
    ensures LocalStep(config, s, caller, HandshakeStep(config, s, caller, conn, step, choice).value)
  {
    hide LimitsOk, Negotiate, ValidConfig;
    NegotiatedLimits(config, DEFAULT_TPDU, choice.confirmFrame, choice.setupFrame);
  }

  lemma {:induction false} HandshakeKeeps(config: Config, s: Session, caller: nat, conn: Conn, step: nat, choice: Choice)
    requires ValidConfig(config) && Inv(config, s) && PcOf(s, caller) == Handshaking(conn, step)
    requires HandshakeStep(config, s, caller, conn, step, choice).Some?
    ensures Inv(config, HandshakeStep(config, s, caller, conn, step, choice).value)
  {
    hide PcInv, StateInv, InCustody, Aligned, LocalStep, ValidConfig;
    assert PcInv(config, s, PcOf(s, caller));
    if choice.Answers? {
      AnswersLocal(config, s, caller, conn, step, choice);
    } else if Talking(choice) {
      HandshakeLocal(config, s, caller, conn, step, choice);
    } else {
      HandshakeFails(config, s, caller, conn, step, choice);
    }
    LocalKeeps(config, s, caller, HandshakeStep(config, s, caller, conn, step, choice).value);
  }

  lemma {:induction false} DialLocal(config: Config, s: Session, caller: nat, choice: Choice)
    requires StateInv(config, s) && PcInv(config, s, PcOf(s, caller)) && ConnectStep(config, s, caller, choice).Some?
    requires PcOf(s, caller).Dialing? || PcOf(s, caller).Dialed?
    ensures LocalStep(config, s, caller, ConnectStep(config, s, caller, choice).value)
  {
    hide LimitsOk, HandshakeStep;
  }

  lemma {:induction false} EnterLocal(config: Config, s: Session, caller: nat, choice: Choice)
    requires StateInv(config, s) && PcInv(config, s, PcOf(s, caller)) && ConnectStep(config, s, caller, choice).Some?
    requires PcOf(s, caller).ConnectCheck? || PcOf(s, caller).ConnectEnter?
    ensures LocalStep(config, s, caller, ConnectStep(config, s, caller, choice).value)
  {
    hide LimitsOk, HandshakeStep;
  }

  lemma {:induction false} SettleLocal(config: Config, s: Session, caller: nat, choice: Choice)
    requires StateInv(config, s) && PcInv(config, s, PcOf(s, caller)) && ConnectStep(config, s, caller, choice).Some?
    requires PcOf(s, caller).Negotiated? || PcOf(s, caller).Dropping? || PcOf(s, caller).Discarding?
    ensures LocalStep(config, s, caller, ConnectStep(config, s, caller, choice).value)
  {
    hide LimitsOk, HandshakeStep;
  }

  lemma {:induction false} FailLocal(config: Config, s: Session, caller: nat, choice: Choice)
    requires StateInv(config, s) && PcInv(config, s, PcOf(s, caller)) && ConnectStep(config, s, caller, choice).Some?
    requires PcOf(s, caller).FailConnect? || PcOf(s, caller).FailClosing?
    ensures LocalStep(config, s, caller, ConnectStep(config, s, caller, choice).value)
  {
    hide LimitsOk, HandshakeStep;
  }

  lemma {:induction false} ConnectKeeps(config: Config, s: Session, caller: nat, choice: Choice)
    requires Inv(config, s) && !PcOf(s, caller).Handshaking?
    requires ConnectStep(config, s, caller, choice).Some?
    ensures Inv(config, ConnectStep(config, s, caller, choice).value)
  {
    hide PcInv, StateInv, InCustody, Aligned, LocalStep, HandshakeStep;
    assert PcInv(config, s, PcOf(s, caller));
    match PcOf(s, caller) {
      case ConnectCheck | ConnectEnter => EnterLocal(config, s, caller, choice);
      case Dialing | Dialed(_) => DialLocal(config, s, caller, choice);
      case FailConnect(_) | FailClosing(_, _) => FailLocal(config, s, caller, choice);
      case _ => SettleLocal(config, s, caller, choice);
    }
    LocalKeeps(config, s, caller, ConnectStep(config, s, caller, choice).value);
  }

  lemma {:induction false} GateKeeps(config: Config, s: Session, caller: nat, choice: Choice)
    requires Inv(config, s) && GateStep(s, caller, choice).Some?
    ensures Inv(config, GateStep(s, caller, choice).value)
  {
    hide LimitsOk;
    var after := GateStep(s, caller, choice).value;
    assert PcInv(config, s, PcOf(s, caller));
    match PcOf(s, caller) {
      case Entered(_) => HolderStep(config, s, caller, after, PcOf(after, caller));
      case Releasing => ReleaseKeeps(config, s, caller);
      case Waiting(goal) =>
        if choice.Proceed? {
          AcquireKeeps(config, s, caller, goal);
        } else {
          OutsideKeeps(config, s, caller, Idle);
        }
      case Idle => OutsideKeeps(config, s, caller, PcOf(after, caller));
    }
  }

  lemma {:induction false} OutsideKeeps(config: Config, s: Session, caller: nat, pc: Pc)
    requires Inv(config, s) && !Holding(PcOf(s, caller)) && !Holding(pc)
    ensures Inv(config, At(s, caller, pc))
  {
    hide StateInv;
    var after := At(s, caller, pc);
    forall other
      ensures PcInv(config, after, PcOf(after, other))
      ensures Holding(PcOf(after, other)) <==> Holding(PcOf(s, other))
    {
      assert PcInv(config, s, PcOf(s, other));
      assert PcOf(after, other) == if other == caller then pc else PcOf(s, other);
    }
    SameState(config, s, after);
    assert forall other :: Holding(PcOf(after, other)) ==> Holding(PcOf(s, other));
    if s.gate {
      var holder :| Holding(PcOf(s, holder));
      assert Holding(PcOf(after, holder));
    }
  }

  lemma {:induction false} SameState(config: Config, s: Session, after: Session)
    requires after == s.(callers := after.callers, gate := after.gate)
    ensures StateInv(config, after) <==> StateInv(config, s)
  {
    hide LimitsOk;
  }

  lemma {:induction false} AcquireKeeps(config: Config, s: Session, caller: nat, goal: Goal)
    requires Inv(config, s) && PcOf(s, caller) == Waiting(goal) && !s.gate
    ensures Inv(config, At(s, caller, Entered(goal)).(gate := true))
  {
    hide StateInv;
    var after := At(s, caller, Entered(goal)).(gate := true);
    SameState(config, s, after);
    forall other
      ensures PcInv(config, after, PcOf(after, other))
      ensures Holding(PcOf(after, other)) <==> other == caller
    {
      assert !Holding(PcOf(s, other));
      assert PcOf(after, other) == if other == caller then Entered(goal) else PcOf(s, other);
    }
    assert Holding(PcOf(after, caller));
  }

  lemma {:induction false} ReleaseKeeps(config: Config, s: Session, caller: nat)
    requires Inv(config, s) && PcOf(s, caller) == Releasing
    ensures Inv(config, At(s, caller, Idle).(gate := false))
  {
    hide StateInv;
    var after := At(s, caller, Idle).(gate := false);
    SameState(config, s, after);
    assert PcInv(config, s, PcOf(s, caller));
    forall other
      ensures !Holding(PcOf(after, other)) && PcInv(config, after, PcOf(after, other))
    {
      assert PcOf(after, other) == if other == caller then Idle else PcOf(s, other);
      assert Holding(PcOf(s, caller));
    }
  }

  lemma {:induction false} CloseStarts(config: Config, s: Session, pc: Pc)
    requires StateInv(config, s) && PcInv(config, s, pc) && s.closer.NotStarted?
    ensures PcInv(config, CloserStep(s).value, pc)
  {
    hide LimitsOk;
  }

  lemma {:induction false} CloseCancels(config: Config, s: Session, pc: Pc)
    requires StateInv(config, s) && PcInv(config, s, pc) && s.closer.Cancelling?
    ensures PcInv(config, CloserStep(s).value, pc)
  {
    hide LimitsOk;
  }

  lemma {:induction false} CloseShuts(config: Config, s: Session, pc: Pc)
    requires StateInv(config, s) && PcInv(config, s, pc) && s.closer.Shutting?
    ensures PcInv(config, CloserStep(s).value, pc)
  {
    hide LimitsOk;
  }

  lemma {:induction false} CloseFinishes(config: Config, s: Session, pc: Pc)
    requires StateInv(config, s) && PcInv(config, s, pc) && s.closer.Finishing?
    ensures PcInv(config, CloserStep(s).value, pc)
  {
    hide LimitsOk;
  }

  /** Close can come between any two steps of a caller. */
  lemma {:induction false} CloserKeepsPc(config: Config, s: Session, pc: Pc)
    requires StateInv(config, s) && PcInv(config, s, pc) && CloserStep(s).Some?
    ensures PcInv(config, CloserStep(s).value, pc)
  {
    hide StateInv, PcInv;
    match s.closer {
      case NotStarted => CloseStarts(config, s, pc);
      case Cancelling(_) => CloseCancels(config, s, pc);
      case Shutting(_) => CloseShuts(config, s, pc);
      case Finishing => CloseFinishes(config, s, pc);
    }
  }

  lemma {:induction false} CloserKeepsState(config: Config, s: Session)
    requires StateInv(config, s) && CloserStep(s).Some?
    ensures StateInv(config, CloserStep(s).value)
    ensures InCustody(s, None) ==> InCustody(CloserStep(s).value, None)
    ensures s.state != StateConnecting && Aligned(s) ==> CloserStep(s).value.state != StateConnecting && Aligned(CloserStep(s).value)
  {
    hide LimitsOk;
  }

  lemma {:induction false} CloserKeeps(config: Config, s: Session)
    requires Inv(config, s) && CloserStep(s).Some?
    ensures Inv(config, CloserStep(s).value)
  {
    hide StateInv, PcInv, InCustody, Aligned;
    var after := CloserStep(s).value;
    CloserKeepsState(config, s);
    SameCallers(s);
    forall caller
      ensures PcOf(after, caller) == PcOf(s, caller) && PcInv(config, after, PcOf(after, caller))
    {
      CloserKeepsPc(config, s, PcOf(s, caller));
    }
    if s.gate {
      var holder :| Holding(PcOf(s, holder));
      assert Holding(PcOf(after, holder));
    }
  }

  lemma {:induction false} SameCallers(s: Session)
    requires CloserStep(s).Some?
    ensures CloserStep(s).value.callers == s.callers && CloserStep(s).value.gate == s.gate
  {
  }

  /** Every step of anybody keeps the invariant. */
  lemma {:induction false} NextKeeps(config: Config, s: Session, after: Session)
    requires ValidConfig(config) && Inv(config, s) && Next(config, s, after)
    ensures Inv(config, after)
  {
    hide Inv, GateStep, ConnectStep, OperationStep, HandshakeStep, ValidConfig;
    if CloserStep(s) == Some(after) {
      CloserKeeps(config, s);
    } else {
      var caller, choice :| CallerStep(config, s, caller, choice) == Some(after);
      match PcOf(s, caller) {
        case Idle | Waiting(_) | Entered(_) | Releasing => GateKeeps(config, s, caller, choice);
        case OpStart | OpLoop | Snapshot | Sending(_) | Awaiting(_, _) | Decoding(_, _, _) | BreakSession(_) | BreakClosing(_, _) =>
          OperationKeeps(config, s, caller, choice);
        case Handshaking(conn, step) =>
          HandshakePart(config, s, caller, conn, step, choice);
          HandshakeKeeps(config, s, caller, conn, step, choice);
        case _ => ConnectKeeps(config, s, caller, choice);
      }
    }
  }

  lemma {:induction false} HandshakePart(config: Config, s: Session, caller: nat, conn: Conn, step: nat, choice: Choice)
    requires PcOf(s, caller) == Handshaking(conn, step)
    ensures ConnectStep(config, s, caller, choice) == HandshakeStep(config, s, caller, conn, step, choice)
  {
    hide HandshakeStep;
  }

  // ------------------------------------------------------------- whole runs

  ghost predicate Run(config: Config, run: seq<Session>) {
    && run != [] && run[0] == Initial()
    && forall i: nat | i + 1 < |run| :: NextAt(config, run, i)
  }

  ghost predicate NextAt(config: Config, run: seq<Session>, i: nat)
    requires i + 1 < |run|
  {
    Next(config, run[i], run[i + 1])
  }

  lemma {:induction false} RunKeeps(config: Config, run: seq<Session>, i: nat)
    requires ValidConfig(config) && Run(config, run) && i < |run|
    ensures Inv(config, run[i])
  {
    hide Inv, Next, ValidConfig;
    if i == 0 {
      InitialHolds(config);
    } else {
      RunKeeps(config, run, i - 1);
      assert NextAt(config, run, i - 1);
      NextKeeps(config, run[i - 1], run[i]);
    }
  }

  /** Limits are valid exactly on a Ready session, which has a socket and usable limits. */
  lemma {:induction false} ReadySessions(config: Config, run: seq<Session>, i: nat)
    requires ValidConfig(config) && Run(config, run) && i < |run|
    ensures run[i].limitsValid <==> run[i].state == StateReady
    ensures run[i].state == StateReady ==> run[i].conn.Some? && LimitsOk(run[i].limits, config)
  {
    hide Next, PcInv, ValidConfig, LimitsOk;
    RunKeeps(config, run, i);
  }

  /** One operation at a time, and with the gate free nobody is connecting. */
  lemma {:induction false} GateExcludes(config: Config, run: seq<Session>, i: nat, one: nat, two: nat)
    requires ValidConfig(config) && Run(config, run) && i < |run|
    ensures Holding(PcOf(run[i], one)) && Holding(PcOf(run[i], two)) ==> one == two
    ensures !run[i].gate ==> !Holding(PcOf(run[i], one)) && run[i].state != StateConnecting
  {
    hide Next, PcInv, ValidConfig, LimitsOk, StateInv, InCustody;
    RunKeeps(config, run, i);
  }

  /** At most one socket is open at any time. */
  lemma {:induction false} OneSocket(config: Config, run: seq<Session>, i: nat, one: Conn, two: Conn)
    requires ValidConfig(config) && Run(config, run) && i < |run|
    requires one in run[i].open && two in run[i].open
    ensures one == two
  {
    hide Next, PcInv, ValidConfig, LimitsOk;
    RunKeeps(config, run, i);
  }

  /** Once the client is Closed and no operation is in flight, every socket ever dialled is
      closed. */
  lemma {:induction false} ClosedLeavesNothing(config: Config, run: seq<Session>, i: nat)
    requires ValidConfig(config) && Run(config, run) && i < |run|
    requires run[i].state == StateClosed && !run[i].gate
    ensures run[i].open == {}
  {
    hide Next, PcInv, ValidConfig, LimitsOk;
    RunKeeps(config, run, i);
  }

  lemma {:induction false} HandshakeKeepsOver(config: Config, s: Session, caller: nat, conn: Conn, step: nat, choice: Choice)
    requires HandshakeStep(config, s, caller, conn, step, choice).Some?
    ensures HandshakeStep(config, s, caller, conn, step, choice).value.state == s.state
  {
    hide Negotiate;
  }

  lemma {:induction false} ConnectKeepsOver(config: Config, s: Session, caller: nat, choice: Choice)
    requires ConnectStep(config, s, caller, choice).Some? && Over(s.state)
    ensures ConnectStep(config, s, caller, choice).value.state == s.state
  {
    hide HandshakeStep;
    if PcOf(s, caller).Handshaking? {
      var Handshaking(conn, step) := PcOf(s, caller);
      HandshakePart(config, s, caller, conn, step, choice);
      HandshakeKeepsOver(config, s, caller, conn, step, choice);
    }
  }

  lemma {:induction false} OperationKeepsOver(s: Session, caller: nat, choice: Choice)
    requires OperationStep(s, caller, choice).Some? && Over(s.state)
    ensures OperationStep(s, caller, choice).value.state == s.state
  {
  }

  /** No caller ever takes a client out of Closing or Closed. */
  lemma {:induction false} CallerKeepsOver(config: Config, s: Session, caller: nat, choice: Choice)
    requires CallerStep(config, s, caller, choice).Some? && Over(s.state)
    ensures CallerStep(config, s, caller, choice).value.state == s.state
  {
    hide ConnectStep, OperationStep;
    match PcOf(s, caller) {
      case Idle | Waiting(_) | Entered(_) | Releasing =>
      case OpStart | OpLoop | Snapshot | Sending(_) | Awaiting(_, _) | Decoding(_, _, _) | BreakSession(_) | BreakClosing(_, _) =>
        OperationKeepsOver(s, caller, choice);
      case _ => ConnectKeepsOver(config, s, caller, choice);
    }
  }

  /** A step out of Closing leads to Closed at most, and none leads out of Closed. */
  lemma {:induction false} OverStep(config: Config, s: Session, after: Session)
    requires ValidConfig(config) && Inv(config, s) && Next(config, s, after)
    ensures s.state == StateClosed ==> after.state == StateClosed
    ensures s.state == StateClosing ==> Over(after.state)
  {
    hide LimitsOk, ValidConfig, CallerStep, InCustody, PcInv;
    if CloserStep(s) != Some(after) && Over(s.state) {
      var caller, choice :| CallerStep(config, s, caller, choice) == Some(after);
      CallerKeepsOver(config, s, caller, choice);
    }
  }

  /** Closed is for ever, and Closing ends in nothing but Closed. */
  lemma {:induction false} OverIsForEver(config: Config, run: seq<Session>, i: nat, j: nat)
    requires ValidConfig(config) && Run(config, run) && i <= j < |run|
    ensures run[i].state == StateClosed ==> run[j].state == StateClosed
    ensures Over(run[i].state) ==> Over(run[j].state)
  {
    hide Inv, Next, ValidConfig;
    if i < j {
      OverIsForEver(config, run, i, j - 1);
      RunKeeps(config, run, j - 1);
      assert NextAt(config, run, j - 1);
      OverStep(config, run[j - 1], run[j]);
    }
  }

  /** With a peer that answers each request once, no reply is outstanding on a Ready session
      whose gate is free, and an exchange only ever takes the reply to its own request. */
  lemma {:induction false} StreamAligned(config: Config, run: seq<Session>, i: nat, caller: nat)
    requires ValidConfig(config) && Run(config, run) && i < |run|
    ensures run[i].state == StateReady && !run[i].gate ==> run[i].conn.Some? && Queue(run[i], run[i].conn.value) == []
    ensures
      match PcOf(run[i], caller)
      case Awaiting(conn, request) => Queue(run[i], conn) == [request]
      case Decoding(_, request, answered) => answered == request
      case _ => true
  {
    hide Next, ValidConfig, LimitsOk, InCustody;
    RunKeeps(config, run, i);
    assert PcInv(config, run[i], PcOf(run[i], caller));
  }

  /** Not past the gate's own checks. */
  predicate AtTheGate(pc: Pc) {
    pc.Idle? || pc.Waiting? || pc.Entered? || pc.Releasing?
  }

  lemma {:induction false} HandshakeKeepsClose(config: Config, s: Session, caller: nat, conn: Conn, step: nat, choice: Choice, other: nat)
    requires HandshakeStep(config, s, caller, conn, step, choice).Some?
    ensures
      var after := HandshakeStep(config, s, caller, conn, step, choice).value;
      && after.closer == s.closer && after.canceled == s.canceled
      && (other != caller ==> PcOf(after, other) == PcOf(s, other))
  {
    hide Negotiate;
  }

  lemma {:induction false} ConnectKeepsClose(config: Config, s: Session, caller: nat, choice: Choice, other: nat)
    requires ConnectStep(config, s, caller, choice).Some?
    ensures
      var after := ConnectStep(config, s, caller, choice).value;
      && after.closer == s.closer && after.canceled == s.canceled
      && (other != caller ==> PcOf(after, other) == PcOf(s, other))
  {
    hide HandshakeStep, Queue;
    match PcOf(s, caller) {
      case Handshaking(conn, step) =>
        HandshakePart(config, s, caller, conn, step, choice);
        HandshakeKeepsClose(config, s, caller, conn, step, choice, other);
      case Dropping(_) | Discarding(_) | FailClosing(_, _) =>
      case _ =>
    }
  }

  lemma {:induction false} OperationKeepsClose(s: Session, caller: nat, choice: Choice, other: nat)
    requires OperationStep(s, caller, choice).Some?
    ensures
      var after := OperationStep(s, caller, choice).value;
      && after.closer == s.closer && after.canceled == s.canceled
      && (other != caller ==> PcOf(after, other) == PcOf(s, other))
  {
    match PcOf(s, caller) {
      case Sending(_) | Awaiting(_, _) =>
      case _ =>
    }
  }

  lemma {:induction false} CallerKeepsClose(config: Config, s: Session, caller: nat, choice: Choice, other: nat)
    requires CallerStep(config, s, caller, choice).Some?
    ensures
      var after := CallerStep(config, s, caller, choice).value;
      && after.closer == s.closer && after.canceled == s.canceled
      && (other != caller ==> PcOf(after, other) == PcOf(s, other))
      && (s.canceled && AtTheGate(PcOf(s, caller)) ==> AtTheGate(PcOf(after, caller)))
  {
    hide ConnectStep, OperationStep;
    match PcOf(s, caller) {
      case Idle | Waiting(_) | Entered(_) | Releasing =>
      case OpStart | OpLoop | Snapshot | Sending(_) | Awaiting(_, _) | Decoding(_, _, _) | BreakSession(_) | BreakClosing(_, _) =>
        OperationKeepsClose(s, caller, choice, other);
      case _ => ConnectKeepsClose(config, s, caller, choice, other);
    }
  }

  /** From the moment Close has cancelled the lifecycle, whoever is still at the gate, or
      comes to it later, gets no further: no dialling, no request. */
  lemma {:induction false} ClosedTurnsAway(config: Config, run: seq<Session>, i: nat, j: nat, caller: nat)
    requires Run(config, run) && i <= j < |run|
    requires run[i].closer.Shutting? || run[i].closer.Finishing? || run[i].closer.Finished?
    requires AtTheGate(PcOf(run[i], caller))
    ensures run[j].canceled && AtTheGate(PcOf(run[j], caller))
  {
    hide CallerStep, Run;
    CloseHasCanceled(config, run, i);
    if i < j {
      ClosedTurnsAway(config, run, i, j - 1, caller);
      RunStep(config, run, j - 1);
      if CloserStep(run[j - 1]) == Some(run[j]) {
        SameCallers(run[j - 1]);
      } else {
        var other, choice :| CallerStep(config, run[j - 1], other, choice) == Some(run[j]);
        CallerKeepsClose(config, run[j - 1], other, choice, caller);
      }
    }
  }

  lemma {:induction false} RunStep(config: Config, run: seq<Session>, i: nat)
    requires Run(config, run) && i + 1 < |run|
    ensures Next(config, run[i], run[i + 1])
  {
    hide Next;
    assert NextAt(config, run, i);
  }

  /** The lifecycle is cancelled exactly when Close is past cancelling it. */
  lemma {:induction false} CloseHasCanceled(config: Config, run: seq<Session>, i: nat)
    requires Run(config, run) && i < |run|
    ensures run[i].canceled <==> run[i].closer.Shutting? || run[i].closer.Finishing? || run[i].closer.Finished?
  {
    hide CallerStep;
    if i > 0 {
      CloseHasCanceled(config, run, i - 1);
      RunStep(config, run, i - 1);
      if CloserStep(run[i - 1]) != Some(run[i]) {
        var caller, choice :| CallerStep(config, run[i - 1], caller, choice) == Some(run[i]);
        CallerKeepsClose(config, run[i - 1], caller, choice, caller);
      }
    }
  }

  predicate Exchanging(pc: Pc) {
    pc.Sending? || pc.Awaiting? || pc.Decoding?
  }

  predicate Fails(choice: Choice) {
    choice.GiveUp? || choice.GiveUpAfterSending?
  }

  /** On its way out after a failed exchange. */
  predicate Doomed(s: Session, caller: nat) {
    match PcOf(s, caller)
    case BreakSession(_) => true
    case BreakClosing(_, _) | Releasing => s.state != StateReady
    case _ => false
  }

  lemma {:induction false} FailureDooms(config: Config, s: Session, caller: nat, choice: Choice)
    requires Exchanging(PcOf(s, caller)) && Fails(choice) && !(PcOf(s, caller).Awaiting? && choice.GiveUpAfterSending?)
    requires !(PcOf(s, caller).Decoding? && choice.GiveUpAfterSending?)
    ensures CallerStep(config, s, caller, choice).Some? && Doomed(CallerStep(config, s, caller, choice).value, caller)
  {
  }

  /** A caller without the gate only comes and goes while somebody else has it. */
  lemma {:induction false} BystanderStep(config: Config, s: Session, caller: nat, choice: Choice)
    requires s.gate && !Holding(PcOf(s, caller)) && CallerStep(config, s, caller, choice).Some?
    ensures
      var after := CallerStep(config, s, caller, choice).value;
      after.state == s.state && forall other | other != caller :: PcOf(after, other) == PcOf(s, other)
  {
    hide ConnectStep, OperationStep;
  }

  lemma {:induction false} BreakStepDoomed(s: Session, caller: nat, choice: Choice)
    requires PcOf(s, caller).BreakSession? || (PcOf(s, caller).BreakClosing? && s.state != StateReady)
    ensures OperationStep(s, caller, choice).Some? && Doomed(OperationStep(s, caller, choice).value, caller)
  {
  }

  lemma {:induction false} OwnStepDoomed(config: Config, s: Session, caller: nat, choice: Choice)
    requires Doomed(s, caller) && CallerStep(config, s, caller, choice).Some?
    ensures
      var after := CallerStep(config, s, caller, choice).value;
      Holding(PcOf(after, caller)) ==> Doomed(after, caller)
  {
    hide ConnectStep, OperationStep, PcInv;
    if !PcOf(s, caller).Releasing? {
      BreakStepDoomed(s, caller, choice);
    }
  }

  lemma {:induction false} DoomStays(config: Config, s: Session, after: Session, caller: nat)
    requires Inv(config, s) && Next(config, s, after) && Doomed(s, caller) && Holding(PcOf(after, caller))
    ensures Doomed(after, caller)
  {
    hide PcInv, StateInv, InCustody, Aligned, CallerStep;
    assert Holding(PcOf(s, caller));
    if CloserStep(s) == Some(after) {
      SameCallers(s);
      assert PcOf(after, caller) == PcOf(s, caller);
    } else {
      var other, choice :| CallerStep(config, s, other, choice) == Some(after);
      if other == caller {
        OwnStepDoomed(config, s, caller, choice);
      } else {
        BystanderStep(config, s, other, choice);
      }
    }
  }

  /** A failed exchange never leaves a usable session: however the steps of others and of
      Close fall between, by the time its caller releases the gate the state is not Ready. */
  lemma {:induction false} FailedExchangeEndsSession(config: Config, run: seq<Session>, i: nat, j: nat, caller: nat, choice: Choice)
    requires ValidConfig(config) && Run(config, run) && i < j < |run|
    requires Exchanging(PcOf(run[i], caller)) && Fails(choice) && CallerStep(config, run[i], caller, choice) == Some(run[i + 1])
    requires choice.GiveUpAfterSending? ==> PcOf(run[i], caller).Sending?
    requires forall k: nat | i < k <= j :: Holding(PcOf(run[k], caller))
    ensures Doomed(run[j], caller)
    ensures PcOf(run[j], caller) == Releasing ==> run[j].state != StateReady
  {
    hide Inv, Next, ValidConfig, CallerStep;
    if j == i + 1 {
      FailureDooms(config, run[i], caller, choice);
    } else {
      FailedExchangeEndsSession(config, run, i, j - 1, caller, choice);
      RunKeeps(config, run, j - 1);
      assert NextAt(config, run, j - 1);
      DoomStays(config, run[j - 1], run[j], caller);
    }
  }

  lemma {:induction false} OperationLoses(s: Session, caller: nat, choice: Choice)
    requires OperationStep(s, caller, choice).Some?
    ensures
      var after := OperationStep(s, caller, choice).value;
      && (s.state == StateReady && after.state != StateReady ==> PcOf(s, caller).BreakSession?)
      && (PcOf(after, caller).BreakSession? ==> Exchanging(PcOf(s, caller)) && Fails(choice))
  {
  }

  lemma {:induction false} HandshakeLosesNothing(config: Config, s: Session, caller: nat, conn: Conn, step: nat, choice: Choice)
    requires HandshakeStep(config, s, caller, conn, step, choice).Some?
    ensures !PcOf(HandshakeStep(config, s, caller, conn, step, choice).value, caller).BreakSession?
  {
    hide Negotiate;
  }

  lemma {:induction false} ConnectLosesNothing(config: Config, s: Session, caller: nat, choice: Choice)
    requires PcOf(s, caller).ConnectEnter? || PcOf(s, caller).FailConnect? ==> s.state != StateReady
    requires ConnectStep(config, s, caller, choice).Some?
    ensures
      var after := ConnectStep(config, s, caller, choice).value;
      (s.state == StateReady ==> after.state == StateReady) && !PcOf(after, caller).BreakSession?
  {
    hide HandshakeStep, Queue;
    match PcOf(s, caller) {
      case Handshaking(conn, step) =>
        HandshakePart(config, s, caller, conn, step, choice);
        HandshakeKeepsOver(config, s, caller, conn, step, choice);
        HandshakeLosesNothing(config, s, caller, conn, step, choice);
      case Dropping(_) | Discarding(_) | FailClosing(_, _) =>
      case _ =>
    }
  }

  lemma {:induction false} ConnectingIsNotReady(config: Config, s: Session, pc: Pc)
    requires PcInv(config, s, pc)
    ensures pc.ConnectEnter? || pc.FailConnect? ==> s.state != StateReady
  {
    hide InCustody, LimitsOk, Aligned;
  }

  /** A Ready session is given up by Close or by a caller whose exchange failed, and by
      nothing else. */
  lemma {:induction false} LostOnlyByFailure(config: Config, s: Session, caller: nat, choice: Choice)
    requires Inv(config, s) && CallerStep(config, s, caller, choice).Some?
    ensures
      var after := CallerStep(config, s, caller, choice).value;
      && (s.state == StateReady && after.state != StateReady ==> PcOf(s, caller).BreakSession?)
      && (PcOf(after, caller).BreakSession? ==> Exchanging(PcOf(s, caller)) && Fails(choice))
  {
    hide PcInv, StateInv, InCustody, Aligned, ConnectStep, OperationStep;
    assert PcInv(config, s, PcOf(s, caller));
    match PcOf(s, caller) {
      case Idle | Waiting(_) | Entered(_) | Releasing =>
      case OpStart | OpLoop | Snapshot | Sending(_) | Awaiting(_, _) | Decoding(_, _, _) | BreakSession(_) | BreakClosing(_, _) =>
        OperationLoses(s, caller, choice);
      case _ =>
        ConnectingIsNotReady(config, s, PcOf(s, caller));
        ConnectLosesNothing(config, s, caller, choice);
    }
  }

  /** breakSession and failConnect never close a socket but the one their own caller used. */
  lemma {:induction false} OnlyOwnSocket(config: Config, run: seq<Session>, i: nat, caller: nat)
    requires ValidConfig(config) && Run(config, run) && i < |run|
    ensures
      match PcOf(run[i], caller)
      case BreakClosing(conn, took) => took in {None, Some(conn)}
      case FailClosing(used, took) => took in {None, used}
      case _ => true
  {
    hide Next, ValidConfig, LimitsOk, InCustody;
    RunKeeps(config, run, i);
    assert PcInv(config, run[i], PcOf(run[i], caller));
  }

  // -------------------------------------------------------- a run that works

  lemma {:induction false} Extend(config: Config, run: seq<Session>, caller: nat, choice: Choice)
    requires Run(config, run) && CallerStep(config, run[|run| - 1], caller, choice).Some?
    ensures
      var more := run + [CallerStep(config, run[|run| - 1], caller, choice).value];
      Run(config, more) && more[|more| - 1] == CallerStep(config, run[|run| - 1], caller, choice).value
  {
    hide CallerStep, CloserStep;
    var after := CallerStep(config, run[|run| - 1], caller, choice).value;
    var more := run + [after];
    forall i: nat | i + 1 < |more|
      ensures NextAt(config, more, i)
    {
      if i + 1 < |run| {
        assert NextAt(config, run, i);
      } else {
        assert CallerStep(config, more[i], caller, choice) == Some(more[i + 1]);
      }
    }
  }

  /** A caller alone, from the gate to the point where its socket is published. */
  lemma {:induction false} SocketIsPublished(config: Config) returns (run: seq<Session>)
    ensures run != [] && Run(config, run)
    ensures
      var s := run[|run| - 1];
      && PcOf(s, 0) == Handshaking(0, 0) && s.open == {0} && s.conn == Some(0) && Queue(s, 0) == []
      && s.state == StateConnecting && !s.canceled
  {
    hide Run;
    run := [Initial()];
    RunStarts(config);
    Extend(config, run, 0, StartConnect);
    run := run + [CallerStep(config, run[|run| - 1], 0, StartConnect).value];
    while !PcOf(run[|run| - 1], 0).Handshaking?
      invariant run != [] && Run(config, run)
      invariant Progress(run[|run| - 1]) <= 6
      invariant OnTheWay(run[|run| - 1])
      decreases 6 - Progress(run[|run| - 1])
    {
      Extend(config, run, 0, Proceed);
      run := run + [CallerStep(config, run[|run| - 1], 0, Proceed).value];
    }
  }

  lemma {:induction false} RunStarts(config: Config)
    ensures Run(config, [Initial()])
  {
  }

  function Progress(s: Session): nat {
    match PcOf(s, 0)
    case Waiting(_) => 0
    case Entered(_) => 1
    case ConnectCheck => 2
    case ConnectEnter => 3
    case Dialing => 4
    case Dialed(_) => 5
    case _ => 6
  }

  /** A lone caller on its way to a published socket. */
  predicate OnTheWay(s: Session) {
    && !s.canceled && s.closer.NotStarted?
    && match PcOf(s, 0)
       case Waiting(goal) => goal == ToConnect && !s.gate && s.state == StateNew && s.open == {} && s.dialed == 0
       case Entered(goal) => goal == ToConnect && s.state == StateNew && s.open == {} && s.dialed == 0
       case ConnectCheck => s.state == StateNew && s.open == {} && s.dialed == 0
       case ConnectEnter => s.state == StateNew && s.open == {} && s.dialed == 0
       case Dialing => s.state == StateConnecting && s.open == {} && s.dialed == 0
       case Dialed(conn) => conn == 0 && s.state == StateConnecting && s.open == {0} && Queue(s, 0) == []
       case Handshaking(conn, step) =>
         conn == 0 && step == 0 && s.state == StateConnecting && s.open == {0} && Queue(s, 0) == [] && s.conn == Some(0)
       case _ => false
  }

  /** Ready is reachable: with any two answers that negotiate, a lone caller gets there. */
  lemma {:induction false} ReadyIsReachable(config: Config, confirmFrame: seq<Byte>, setupFrame: seq<Byte>) returns (run: seq<Session>)
    requires Negotiate(config, DEFAULT_TPDU, confirmFrame, setupFrame).Ok?
    ensures run != [] && Run(config, run)
    ensures
      var s := run[|run| - 1];
      && s.state == StateReady && Ok(s.limits) == Negotiate(config, DEFAULT_TPDU, confirmFrame, setupFrame)
      && PcOf(s, 0) == Releasing && Usable(s)
  {
    hide Run, Negotiate;
    run := SocketIsPublished(config);
    var step := 0;
    while step < 4
      invariant step <= 4 && run != [] && Run(config, run)
      invariant
        var s := run[|run| - 1];
        && PcOf(s, 0) == Handshaking(0, step) && s.open == {0} && |Queue(s, 0)| == step % 2 && s.state == StateConnecting
        && s.conn == Some(0) && !s.canceled
    {
      Extend(config, run, 0, Proceed);
      run := run + [CallerStep(config, run[|run| - 1], 0, Proceed).value];
      step := step + 1;
    }
    var answers := Answers(confirmFrame, setupFrame);
    Extend(config, run, 0, answers);
    run := run + [CallerStep(config, run[|run| - 1], 0, answers).value];
    Extend(config, run, 0, Proceed);
    run := run + [CallerStep(config, run[|run| - 1], 0, Proceed).value];
  }

  /** A usable session on the first socket, with nothing outstanding. */
  predicate Usable(s: Session) {
    s.state == StateReady && s.conn == Some(0) && s.limitsValid && 0 in s.open && Queue(s, 0) == [] && !s.canceled
  }

  /** A lone caller's way through one operation with one exchange. */
  predicate Operating(s: Session) {
    match PcOf(s, 0)
    case Waiting(goal) => goal == ToOperate && !s.gate && Usable(s)
    case Entered(goal) => goal == ToOperate && Usable(s)
    case OpStart | OpLoop | Snapshot => Usable(s)
    case Sending(conn) => conn == 0 && Usable(s)
    case Awaiting(conn, request) => conn == 0 && Usable(s.(queues := s.queues[0 := []])) && Queue(s, 0) == [request]
    case Decoding(conn, request, answered) => conn == 0 && Usable(s) && answered == request
    case _ => false
  }

  function Stage(s: Session): nat {
    match PcOf(s, 0)
    case Waiting(_) => 0
    case Entered(_) => 1
    case OpStart => 2
    case OpLoop => 3
    case Snapshot => 4
    case Sending(_) => 5
    case Awaiting(_, _) => 6
    case _ => 7
  }

  lemma {:induction false} OperationGoesOn(config: Config, s: Session)
    requires Operating(s) && !PcOf(s, 0).Decoding?
    ensures CallerStep(config, s, 0, Proceed).Some?
    ensures Operating(CallerStep(config, s, 0, Proceed).value) && Stage(CallerStep(config, s, 0, Proceed).value) == Stage(s) + 1
  {
    hide ConnectStep;
  }

  /** Exchanges are reachable: on the Ready session a lone caller's operation sends its
      request, takes its own answer, and leaves the session Ready and the gate free. */
  lemma {:induction false} ExchangeIsReachable(config: Config, confirmFrame: seq<Byte>, setupFrame: seq<Byte>)
    returns (run: seq<Session>, middle: nat)
    requires Negotiate(config, DEFAULT_TPDU, confirmFrame, setupFrame).Ok?
    ensures Run(config, run) && middle < |run|
    ensures PcOf(run[middle], 0).Decoding? && PcOf(run[middle], 0).request == PcOf(run[middle], 0).answered
    ensures run[|run| - 1].state == StateReady && !run[|run| - 1].gate && Queue(run[|run| - 1], 0) == []
  {
    hide Run, Negotiate, CallerStep;
    run := ReadyIsReachable(config, confirmFrame, setupFrame);
    OperationStarts(config, run[|run| - 1]);
    Extend(config, run, 0, Proceed);
    run := run + [CallerStep(config, run[|run| - 1], 0, Proceed).value];
    Extend(config, run, 0, StartOperation);
    run := run + [CallerStep(config, run[|run| - 1], 0, StartOperation).value];
    while !PcOf(run[|run| - 1], 0).Decoding?
      invariant run != [] && Run(config, run)
      invariant Operating(run[|run| - 1]) && Stage(run[|run| - 1]) <= 7
      decreases 7 - Stage(run[|run| - 1])
    {
      OperationGoesOn(config, run[|run| - 1]);
      Extend(config, run, 0, Proceed);
      run := run + [CallerStep(config, run[|run| - 1], 0, Proceed).value];
    }
    middle := |run| - 1;
    OperationEnds(config, run[middle]);
    Extend(config, run, 0, Proceed);
    run := run + [CallerStep(config, run[|run| - 1], 0, Proceed).value];
    Extend(config, run, 0, Finish);
    run := run + [CallerStep(config, run[|run| - 1], 0, Finish).value];
    Extend(config, run, 0, Proceed);
    run := run + [CallerStep(config, run[|run| - 1], 0, Proceed).value];
  }

  lemma {:induction false} OperationStarts(config: Config, s: Session)
    requires PcOf(s, 0) == Releasing && Usable(s)
    ensures CallerStep(config, s, 0, Proceed).Some?
    ensures
      var released := CallerStep(config, s, 0, Proceed).value;
      && CallerStep(config, released, 0, StartOperation).Some?
      && Operating(CallerStep(config, released, 0, StartOperation).value)
      && Stage(CallerStep(config, released, 0, StartOperation).value) == 0
  {
    hide ConnectStep, OperationStep;
  }

  lemma {:induction false} OperationEnds(config: Config, s: Session)
    requires Operating(s) && PcOf(s, 0).Decoding?
    ensures CallerStep(config, s, 0, Proceed).Some?
    ensures
      var decoded := CallerStep(config, s, 0, Proceed).value;
      && CallerStep(config, decoded, 0, Finish).Some?
      && var finished := CallerStep(config, decoded, 0, Finish).value;
         && CallerStep(config, finished, 0, Proceed).Some?
         && var idle := CallerStep(config, finished, 0, Proceed).value;
            idle.state == StateReady && !idle.gate && Queue(idle, 0) == []
  {
    hide ConnectStep;
  }
}
