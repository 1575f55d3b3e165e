/** The BGP session state machine of one configured peer, with its timers, its
    event queue and the background queue that removes the peer's routes
    (bgpd/bgp_fsm.c, bgp_clear_route in bgpd/bgp_route.c, peer_delete in
    bgpd/bgpd.c; section 8.2.2 of RFC 4271). */
module Fsm {
  import opened Basics

  datatype Status = Idle | Connect | Active | OpenSent | OpenConfirm | Established | Clearing | Deleted

  datatype Event =
    | Start | Stop | TcpOpen | TcpClosed | TcpOpenFailed | TcpFatal | ConnectRetryExpired | HoldExpired
    | KeepaliveExpired | ReceiveOpen | ReceiveKeepalive | ReceiveUpdate | ReceiveNotification | ClearingCompleted

  datatype Handler =
    | DoStart | DoStop | DoStopWithError | DoConnectSuccess | DoConnectFail | DoReconnect | DoOpen
    | DoKeepaliveExpire | DoHoldtimeExpire | DoEstablish | DoKeepalive | DoUpdate | DoIgnore | DoClearingCompleted

  /** Address families times subsequent address families, in the order in which
      bgp_clear_route_all goes through them. */
  const TABLES := 8

  const BGP_INIT_START_TIMER := 5
  const MAX_START_TIMER := 120

  /** Which timers are armed. */
  datatype Timers = Timers(start: bool, connect: bool, holdtime: bool, keepalive: bool, routeadv: bool)

  const NO_TIMERS := Timers(false, false, false, false, false)

  /** routes counts this peer's routes in each table; queued marks the tables the
      background queue is still to work through; unqueued counts the routes learnt
      since a table was last cleared at nodes that the queue was not given. */
  datatype Session = Session(
    status: Status, ostatus: Status, established: nat, dropped: nat, keepaliveIn: nat,
    timers: Timers, vStart: nat, vHoldtime: nat, vKeepalive: nat,
    connected: bool, pending: seq<Event>, routes: seq<nat>, queued: seq<bool>, unqueued: seq<nat>)

  datatype Dial = DialError | DialSuccess | DialInProgress

  /** Configuration and surroundings at the time of a step: whether the peer is
      administratively down or over its prefix limit, usable at all, passive, made
      for an accepted connection, the configured timer values, and what an attempt
      to connect would bring. */
  datatype Env = Env(
    suppressed: bool, active: bool, passive: bool, accepted: bool,
    holdtime: nat, keepalive: nat, dial: Dial, socket: bool)

  // ----- the transition table -----

  function Next(s: Status, e: Event): Status {
    match s
    case Idle => if e == Start then Connect else Idle
    case Connect =>
      (match e
       case Start => Connect
       case TcpOpen => OpenSent
       case TcpOpenFailed => Active
       case ConnectRetryExpired => Connect
       case _ => Idle)
    case Active =>
      (match e
       case Start => Active
       case TcpOpen => OpenSent
       case TcpOpenFailed => Active
       case ConnectRetryExpired => Connect
       case _ => Idle)
    case OpenSent =>
      (match e
       case Start => OpenSent
       case TcpOpen | TcpClosed | TcpOpenFailed | TcpFatal => Active
       case ReceiveOpen => OpenConfirm
       case _ => Idle)
    case OpenConfirm =>
      (match e
       case Start | KeepaliveExpired => OpenConfirm
       case ReceiveKeepalive => Established
       case _ => Idle)
    case Established =>
      (match e
       case Start | KeepaliveExpired | ReceiveKeepalive | ReceiveUpdate => Established
       case ClearingCompleted => Idle
       case _ => Clearing)
    case Clearing => if e == ClearingCompleted then Idle else Clearing
    case Deleted => Deleted
  }

  function HandlerOf(s: Status, e: Event): Handler {
    match s
    case Idle =>
      (match e
       case Start => DoStart
       case Stop | TcpOpen | TcpClosed | TcpFatal => DoStop
       case _ => DoIgnore)
    case Connect =>
      (match e
       case Stop | TcpClosed | ReceiveNotification => DoStop
       case TcpOpen => DoConnectSuccess
       case TcpOpenFailed | TcpFatal => DoConnectFail
       case ConnectRetryExpired => DoReconnect
       case _ => DoIgnore)
    case Active =>
      (match e
       case Stop | TcpClosed => DoStop
       case TcpOpen => DoConnectSuccess
       case ConnectRetryExpired => DoStart
       case ReceiveNotification => DoStopWithError
       case _ => DoIgnore)
    case OpenSent =>
      (match e
       case Stop | TcpOpen | TcpClosed | TcpOpenFailed | TcpFatal => DoStop
       case HoldExpired => DoHoldtimeExpire
       case ReceiveOpen => DoOpen
       case ReceiveNotification => DoStopWithError
       case _ => DoIgnore)
    case OpenConfirm =>
      (match e
       case Stop | TcpOpen | TcpClosed | TcpOpenFailed | TcpFatal => DoStop
       case HoldExpired => DoHoldtimeExpire
       case ReceiveKeepalive => DoEstablish
       case ReceiveNotification => DoStopWithError
       case _ => DoIgnore)
    case Established =>
      (match e
       case Start | ClearingCompleted => DoIgnore
       case HoldExpired => DoHoldtimeExpire
       case KeepaliveExpired => DoKeepaliveExpire
       case ReceiveKeepalive => DoKeepalive
       case ReceiveUpdate => DoUpdate
       case ReceiveNotification => DoStopWithError
       case _ => DoStop)
    case Clearing =>
      (match e
       case Start => DoIgnore
       case ClearingCompleted => DoClearingCompleted
       case _ => DoStop)
    case Deleted => DoIgnore
  }

  // ----- timers -----

  /** bgp_timer_set. */
  function TimersSet(s: Session, env: Env): Timers {
    match s.status
    case Idle => NO_TIMERS.(start := !env.suppressed && env.active)
    case Connect => NO_TIMERS.(connect := true)
    case Active => NO_TIMERS.(connect := !env.passive)
    case OpenSent => NO_TIMERS.(holdtime := s.vHoldtime != 0)
    case OpenConfirm => NO_TIMERS.(holdtime := s.vHoldtime != 0, keepalive := s.vHoldtime != 0)
    case Established =>
      NO_TIMERS.(holdtime := s.vHoldtime != 0, keepalive := s.vHoldtime != 0, routeadv := s.timers.routeadv)
    case Clearing => NO_TIMERS
    case Deleted => NO_TIMERS
  }

  // ----- clearing routes -----

  predicate Queueing(s: Session) {
    true in s.queued
  }

  /** BGP_EVENT_ADD. */
  function Add(s: Session, e: Event): Session {
    if s.status == Deleted then s else s.(pending := s.pending + [e])
  }

  /** bgp_clear_route for table i: its routes are queued for removal, and if the
      queue has nothing to do then clearing is complete at once. */
  function ClearRoute(s: Session, i: nat): Session
    requires i < |s.routes| == |s.queued| == |s.unqueued|
  {
    var t := s.(queued := if s.routes[i] > 0 then s.queued[i := true] else s.queued,
                unqueued := s.unqueued[i := 0]);
    if Queueing(t) then t else Add(t, ClearingCompleted)
  }

  /** bgp_clear_route_all from table i on. */
  function ClearFrom(s: Session, i: nat): (t: Session)
    requires i <= |s.routes| == |s.queued| == |s.unqueued|
    ensures |t.routes| == |s.routes| == |t.queued| == |t.unqueued|
    decreases |s.routes| - i
  {
    if i == |s.routes| then s else ClearFrom(ClearRoute(s, i), i + 1)
  }

  function Less(a: nat, b: nat): nat {
    if a < b then a else b
  }

  /** The queue has removed the routes at the nodes it was given;
      bgp_clear_node_complete. */
  function QueueDone(s: Session): Session
    requires |s.routes| == |s.queued| == |s.unqueued|
  {
    var left := seq(|s.routes|, i requires 0 <= i < |s.routes| =>
                      if s.queued[i] then Less(s.routes[i], s.unqueued[i]) else s.routes[i]);
    Add(s.(routes := left, queued := seq(|s.queued|, _ => false)), ClearingCompleted)
  }

  /** One route more or less, at a node that is not queued if elsewhere. */
  function Count(s: Session, i: nat, n: int, elsewhere: bool): Session
    requires i < |s.routes| == |s.unqueued| && s.routes[i] + n >= 0 && (elsewhere ==> s.unqueued[i] + n >= 0)
  {
    s.(routes := s.routes[i := s.routes[i] + n],
       unqueued := if elsewhere then s.unqueued[i := s.unqueued[i] + n] else s.unqueued)
  }

  // ----- the handlers -----

  predicate Shaped(s: Session) {
    |s.routes| == |s.queued| == |s.unqueued| == TABLES
  }

  /** bgp_fsm_change_status. */
  function ChangeStatus(s: Session, status: Status): (t: Session)
    requires Shaped(s)
    ensures Shaped(t)
  {
    (if status == Clearing || status == Deleted then ClearFrom(s, 0) else s).(ostatus := s.status, status := status)
  }

  /** bgp_stop. */
  function Stopped(s: Session, env: Env): Session {
    s.(pending := if s.status == Clearing then s.pending else [],
       dropped := if s.status == Established then s.dropped + 1 else s.dropped,
       timers := NO_TIMERS, connected := false, vHoldtime := env.holdtime, vKeepalive := env.keepalive)
  }

  function StoppedWithError(s: Session, env: Env): Session {
    Stopped(s.(vStart := if s.vStart * 2 >= MAX_START_TIMER then MAX_START_TIMER else s.vStart * 2), env)
  }

  /** A handler's effect, and whether the event is to be completed. */
  datatype Handled = Handled(session: Session, proceed: bool)

  /** bgp_start. */
  function Started(s: Session, env: Env): Handled {
    if env.suppressed then Handled(s, false)
    else if env.passive then Handled(Add(s, TcpOpenFailed), true)
    else
      var t := s.(connected := env.socket);
      match env.dial
      case DialError => Handled(Add(t, TcpOpenFailed), true)
      case DialSuccess => Handled(Add(t, TcpOpen), true)
      case DialInProgress => Handled(t, env.socket)
  }

  /** peer_delete. */
  function PeerDeleted(s: Session, env: Env): (t: Session)
    requires Shaped(s)
    ensures Shaped(t)
  {
    ChangeStatus(Stopped(s, env), Deleted).(timers := NO_TIMERS)
  }

  /** bgp_establish. */
  function EstablishedNow(s: Session): Session
    requires Shaped(s)
  {
    var t := ChangeStatus(s.(vStart := BGP_INIT_START_TIMER, established := s.established + 1), Established);
    t.(timers := t.timers.(routeadv := true))
  }

  function Handle(s: Session, h: Handler, env: Env): (r: Handled)
    requires Shaped(s)
    ensures Shaped(r.session)
  {
    match h
    case DoStart => Started(s, env)
    case DoStop | DoConnectFail => Handled(Stopped(s, env), true)
    case DoStopWithError => Handled(StoppedWithError(s, env), true)
    case DoConnectSuccess => Handled(s, s.connected)
    case DoReconnect => Handled(Started(Stopped(s, env), env).session, true)
    case DoOpen => Handled(s.(timers := s.timers.(holdtime := false)), true)
    case DoKeepaliveExpire => Handled(s, true)
    case DoHoldtimeExpire =>
      if env.accepted then Handled(PeerDeleted(s, env), false) else Handled(Stopped(s, env), true)
    case DoEstablish => Handled(EstablishedNow(s), true)
    case DoKeepalive => Handled(s.(keepaliveIn := s.keepaliveIn + 1, timers := s.timers.(holdtime := false)), true)
    case DoUpdate => Handled(s.(timers := s.timers.(holdtime := false)), true)
    case DoIgnore => Handled(s, true)
    case DoClearingCompleted => Handled(Stopped(s, env).(pending := []), true)
  }

  /** The end of bgp_event: the status changes and the timers are set. */
  function Complete(s: Session, next: Status, env: Env): (t: Session)
    requires Shaped(s)
    ensures Shaped(t)
  {
    var t := if next != s.status then ChangeStatus(s, next) else s;
    t.(timers := TimersSet(t, env))
  }

  /** bgp_event. */
  function Occur(s: Session, e: Event, env: Env): (t: Session)
    requires Shaped(s)
    ensures Shaped(t)
  {
    var h := Handle(s, HandlerOf(s.status, e), env);
    if h.proceed then Complete(h.session, Next(s.status, e), env) else h.session
  }

  // ----- runs -----

  datatype Timer = StartTimer | ConnectTimer | HoldTimer | KeepaliveTimer | RouteadvTimer

  /** What can happen to a peer. */
  datatype Action =
    | Receive(event: Event)         // the I/O code adds an event
    | Deliver(k: nat)               // a pending event is taken from the queue
    | Expire(timer: Timer)
    | SetTimers                     // after a configuration change
    | Negotiate(holdtime: nat, keepalive: nat)
    | Attach                        // a connection is accepted for the peer
    | Learn(table: nat, elsewhere: bool)    // a route is accepted, at a node not queued if elsewhere
    | Withdraw(table: nat, elsewhere: bool) // such a route is taken back
    | FinishQueue                   // the background queue runs dry
    | ClearTable(table: nat)        // a capability is withdrawn
    | Delete

  predicate Armed(s: Session, t: Timer) {
    match t
    case StartTimer => s.timers.start
    case ConnectTimer => s.timers.connect
    case HoldTimer => s.timers.holdtime
    case KeepaliveTimer => s.timers.keepalive
    case RouteadvTimer => s.timers.routeadv
  }

  predicate Enabled(s: Session, a: Action) {
    match a
    case Receive(e) => e != ClearingCompleted
    case Deliver(k) => k < |s.pending|
    case Expire(t) => Armed(s, t)
    case Learn(i, _) => i < TABLES && s.status == Established
    case Withdraw(i, elsewhere) =>
      && i < |s.routes| == |s.unqueued| && s.status == Established && s.routes[i] > 0
      && (if elsewhere then s.unqueued[i] > 0 else s.routes[i] > s.unqueued[i])
    case FinishQueue => Queueing(s)
    case ClearTable(i) => i < TABLES && s.status == Established
    case Delete => s.status != Deleted
    case _ => true
  }

  function Fired(s: Session, t: Timer, env: Env): Session
    requires Shaped(s)
  {
    match t
    case StartTimer => Occur(s.(timers := s.timers.(start := false)), Start, env)
    case ConnectTimer => Occur(s.(timers := s.timers.(connect := false)), ConnectRetryExpired, env)
    case HoldTimer => Occur(s.(timers := s.timers.(holdtime := false)), HoldExpired, env)
    case KeepaliveTimer => Occur(s.(timers := s.timers.(keepalive := false)), KeepaliveExpired, env)
    case RouteadvTimer => s.(timers := s.timers.(routeadv := s.status != Deleted))
  }

  function Do(s: Session, a: Action, env: Env): (t: Session)
    requires Shaped(s) && Enabled(s, a)
    ensures Shaped(t)
  {
    match a
    case Receive(e) => Add(s, e)
    case Deliver(k) => Occur(s.(pending := s.pending[..k] + s.pending[k + 1..]), s.pending[k], env)
    case Expire(t) => Fired(s, t, env)
    case SetTimers => s.(timers := TimersSet(s, env))
    case Negotiate(h, k) => s.(vHoldtime := h, vKeepalive := k)
    case Attach => s.(connected := true)
    case Learn(i, elsewhere) => Count(s, i, 1, elsewhere)
    case Withdraw(i, elsewhere) => Count(s, i, -1, elsewhere)
    case FinishQueue => QueueDone(s)
    case ClearTable(i) => ClearRoute(s, i)
    case Delete => PeerDeleted(s, env)
  }

  datatype Step = Step(action: Action, env: Env)

  /** A peer as it is created. */
  predicate Initial(s: Session) {
    && s.status == Idle && s.established == s.dropped == 0 && s.timers == NO_TIMERS && s.pending == []
    && s.routes == seq(TABLES, _ => 0) && s.queued == seq(TABLES, _ => false) && s.unqueued == seq(TABLES, _ => 0)
  }

  /** The state after a series of steps, or None if one of them cannot happen. */
  function Perform(s: Session, steps: seq<Step>): (r: Option<Session>)
    requires Shaped(s)
    ensures r.Some? ==> Shaped(r.value)
    decreases |steps|
  {
    if steps == [] then Some(s)
    else if !Enabled(s, steps[0].action) then None
    else Perform(Do(s, steps[0].action, steps[0].env), steps[1..])
  }
}
