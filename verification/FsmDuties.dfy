/** What the BGP session state machine must do, as opposed to what it may (module
    FsmProps): timers that have to be armed, sessions that can come up, and what each
    event leaves of the negotiated and the configured values. */
module FsmDuties {
  import opened Basics
  import opened Fsm
  import opened FsmProps

  // ----- the transition table, column by column -----

  /** Which events lead to each status. */
  lemma TableByTarget(s: Status, e: Event)
    ensures var n := Next(s, e);
            && (n == Connect <==>
                  || (e == Start && (s == Idle || s == Connect))
                  || (e == ConnectRetryExpired && (s == Connect || s == Active)))
            && (n == Active <==>
                  || (s == Active && (e == Start || e == TcpOpenFailed)) || (s == Connect && e == TcpOpenFailed)
                  || (s == OpenSent && e in {TcpOpen, TcpClosed, TcpOpenFailed, TcpFatal}))
            && (n == OpenSent <==> (e == TcpOpen && (s == Connect || s == Active)) || (e == Start && s == OpenSent))
            && (n == OpenConfirm <==>
                  (e == ReceiveOpen && s == OpenSent) || (s == OpenConfirm && (e == Start || e == KeepaliveExpired)))
            && (n == Established <==>
                  || (e == ReceiveKeepalive && (s == OpenConfirm || s == Established))
                  || (s == Established && e in {Start, KeepaliveExpired, ReceiveUpdate}))
            && (n == Clearing <==>
                  || (s == Clearing && e != ClearingCompleted)
                  || (s == Established &&
                        e !in {Start, KeepaliveExpired, ReceiveKeepalive, ReceiveUpdate, ClearingCompleted}))
            && (n == Deleted <==> s == Deleted)
  {
  }

  /** When each handler runs; what is left is ignored or stops the session. */
  lemma TableByHandler(s: Status, e: Event)
    ensures var h := HandlerOf(s, e);
            && (h == DoStart <==> (s == Idle && e == Start) || (s == Active && e == ConnectRetryExpired))
            && (h == DoReconnect <==> s == Connect && e == ConnectRetryExpired)
            && (h == DoConnectSuccess <==> e == TcpOpen && (s == Connect || s == Active))
            && (h == DoConnectFail <==> s == Connect && (e == TcpOpenFailed || e == TcpFatal))
            && (h == DoOpen <==> s == OpenSent && e == ReceiveOpen)
            && (h == DoEstablish <==> s == OpenConfirm && e == ReceiveKeepalive)
            && (h == DoHoldtimeExpire <==> e == HoldExpired && s in {OpenSent, OpenConfirm, Established})
            && (h == DoStopWithError <==> e == ReceiveNotification && s in {Active, OpenSent, OpenConfirm, Established})
            && (h == DoKeepaliveExpire <==> s == Established && e == KeepaliveExpired)
            && (h == DoKeepalive <==> s == Established && e == ReceiveKeepalive)
            && (h == DoUpdate <==> s == Established && e == ReceiveUpdate)
            && (h == DoClearingCompleted <==> s == Clearing && e == ClearingCompleted)
            && (h == DoStop <==>
                  || (s != Deleted && (e == Stop || (e == TcpClosed)))
                  || (e in {TcpOpen, TcpFatal} && s in {Idle, OpenSent, OpenConfirm, Established, Clearing})
                  || (e == TcpOpenFailed && s in {OpenSent, OpenConfirm, Established, Clearing})
                  || (e == ReceiveNotification && (s == Connect || s == Clearing))
                  || (e in {ConnectRetryExpired, ReceiveOpen} && (s == Established || s == Clearing))
                  || (s == Clearing && e in {HoldExpired, KeepaliveExpired, ReceiveKeepalive, ReceiveUpdate}))
  {
  }

  // ----- timers that must be armed -----

  /** Every timer is armed exactly where and when it is due. */
  predicate ArmedAsDue(s: Session, env: Env) {
    && s.timers.start == (s.status == Idle && !env.suppressed && env.active)
    && s.timers.connect == (s.status == Connect || (s.status == Active && !env.passive))
    && s.timers.holdtime == (s.status in {OpenSent, OpenConfirm, Established} && s.vHoldtime > 0)
    && s.timers.keepalive == (s.status in {OpenConfirm, Established} && s.vHoldtime > 0)
  }

  /** The event runs to its end. */
  predicate Proceeds(s: Session, e: Event, env: Env)
    requires Shaped(s)
  {
    Handle(s, HandlerOf(s.status, e), env).proceed
  }

  lemma EventArms(s: Session, e: Event, env: Env)
    requires Shaped(s) && Proceeds(s, e, env)
    ensures ArmedAsDue(Occur(s, e, env), env)
  {
  }

  /** Whether an event runs to its end. */
  lemma ProceedsIff(s: Session, e: Event, env: Env)
    requires Shaped(s)
    ensures Proceeds(s, e, env) <==>
            match HandlerOf(s.status, e)
            case DoStart => !env.suppressed && (env.passive || env.dial != DialInProgress || env.socket)
            case DoConnectSuccess => s.connected
            case DoHoldtimeExpire => !env.accepted
            case _ => true
  {
  }

  /** A peer we have a hold time with is watched, and assured that we live. */
  predicate Attentive(s: Session) {
    s.status in {OpenConfirm, Established} && s.vHoldtime > 0 ==> s.timers.holdtime && s.timers.keepalive
  }

  /** A connection that is being made is given up in time. */
  predicate Patient(s: Session) {
    s.status == Connect ==> s.timers.connect
  }

  lemma EventAttends(s: Session, e: Event, env: Env)
    requires Shaped(s) && (Proceeds(s, e, env) || (Attentive(s) && Patient(s)))
    ensures Attentive(Occur(s, e, env)) && Patient(Occur(s, e, env))
  {
    if Proceeds(s, e, env) {
      EventArms(s, e, env);
    } else {
      ProceedsIff(s, e, env);
      TableByHandler(s.status, e);
    }
  }

  lemma FiredAttends(s: Session, t: Timer, env: Env)
    requires Shaped(s) && TimersAllowed(s) && Armed(s, t) && Attentive(s) && Patient(s)
    ensures Attentive(Fired(s, t, env)) && Patient(Fired(s, t, env))
  {
    match t {
      case StartTimer => EventAttends(s.(timers := s.timers.(start := false)), Start, env);
      case ConnectTimer =>
        var u := s.(timers := s.timers.(connect := false));
        if s.status == Connect {
          ProceedsIff(u, ConnectRetryExpired, env);
        }
        EventAttends(u, ConnectRetryExpired, env);
      case HoldTimer =>
        var u := s.(timers := s.timers.(holdtime := false));
        if env.accepted {
          DeletedFacts(u, env);
        } else {
          ProceedsIff(u, HoldExpired, env);
          EventAttends(u, HoldExpired, env);
        }
      case KeepaliveTimer =>
        var u := s.(timers := s.timers.(keepalive := false));
        ProceedsIff(u, KeepaliveExpired, env);
        EventAttends(u, KeepaliveExpired, env);
      case RouteadvTimer =>
    }
  }

  /** The hold time is negotiated before the peer's OPEN is answered. */
  predicate Timely(s: Session, a: Action) {
    a.Negotiate? ==> s.status !in {OpenConfirm, Established}
  }

  lemma DeliverAttends(s: Session, k: nat, env: Env)
    requires Shaped(s) && Attentive(s) && Patient(s) && k < |s.pending|
    ensures Attentive(Do(s, Deliver(k), env)) && Patient(Do(s, Deliver(k), env))
  {
    EventAttends(s.(pending := s.pending[..k] + s.pending[k + 1..]), s.pending[k], env);
  }

  lemma StepAttends(s: Session, a: Action, env: Env)
    requires Shaped(s) && TimersAllowed(s) && Attentive(s) && Patient(s) && Enabled(s, a) && Timely(s, a)
    ensures Attentive(Do(s, a, env)) && Patient(Do(s, a, env))
  {
    match a {
      case Deliver(k) => DeliverAttends(s, k, env);
      case Expire(t) => FiredAttends(s, t, env);
      case Delete => DeletedFacts(s, env);
      case _ =>
    }
  }

  predicate TimelyRun(s: Session, steps: seq<Step>)
    requires Shaped(s) && Perform(s, steps).Some?
    decreases |steps|
  {
    steps != [] ==> Timely(s, steps[0].action) && TimelyRun(Do(s, steps[0].action, steps[0].env), steps[1..])
  }

  /** In every state of every run that negotiates in time, an agreed hold time is
      watched over and a connection attempt is timed. */
  lemma {:induction false} RunAttends(s: Session, steps: seq<Step>)
    requires Shaped(s) && TimersAllowed(s) && Attentive(s) && Patient(s)
    requires Perform(s, steps).Some? && TimelyRun(s, steps)
    ensures Attentive(Perform(s, steps).value) && Patient(Perform(s, steps).value)
    decreases |steps|
  {
    if steps != [] {
      var next := Do(s, steps[0].action, steps[0].env);
      StepAttends(s, steps[0].action, steps[0].env);
      DoKeepsTimers(s, steps[0].action, steps[0].env);
      RunAttends(next, steps[1..]);
    }
  }

  /** Hence a silent peer's session ends in one step. */
  lemma SilenceEnds(s: Session, env: Env)
    requires Shaped(s) && s.status == Established && s.vHoldtime > 0 && Attentive(s)
    ensures Enabled(s, Expire(HoldTimer)) && Do(s, Expire(HoldTimer), env).status in {Clearing, Deleted}
  {
    var u := s.(timers := s.timers.(holdtime := false));
    if env.accepted {
      DeletedFacts(u, env);
    } else {
      CompleteFacts(Stopped(u, env), Clearing, env);
    }
  }

  /** And a session that is up can always send its next keepalive, and stays up. */
  lemma KeepsAlive(s: Session, env: Env)
    requires Shaped(s) && s.status == Established && s.vHoldtime > 0 && Attentive(s)
    ensures Enabled(s, Expire(KeepaliveTimer))
    ensures var t := Do(s, Expire(KeepaliveTimer), env);
            t.status == Established && Attentive(t) && t.vHoldtime == s.vHoldtime
  {
    var u := s.(timers := s.timers.(keepalive := false));
    ProceedsIff(u, KeepaliveExpired, env);
    EventArms(u, KeepaliveExpired, env);
  }

  /** A session that is up keeps its timer for advertising routes. */
  predicate Advertises(s: Session) {
    s.status == Established ==> s.timers.routeadv
  }

  lemma EventAdvertises(s: Session, e: Event, env: Env)
    requires Shaped(s) && Advertises(s)
    ensures Advertises(Occur(s, e, env))
  {
    TableByTarget(s.status, e);
    ProceedsIff(s, e, env);
  }

  lemma FiredAdvertises(s: Session, t: Timer, env: Env)
    requires Shaped(s) && Advertises(s) && Armed(s, t)
    ensures Advertises(Fired(s, t, env))
  {
    match t {
      case StartTimer => EventAdvertises(s.(timers := s.timers.(start := false)), Start, env);
      case ConnectTimer => EventAdvertises(s.(timers := s.timers.(connect := false)), ConnectRetryExpired, env);
      case HoldTimer => EventAdvertises(s.(timers := s.timers.(holdtime := false)), HoldExpired, env);
      case KeepaliveTimer => EventAdvertises(s.(timers := s.timers.(keepalive := false)), KeepaliveExpired, env);
      case RouteadvTimer =>
    }
  }

  lemma DeliverAdvertises(s: Session, k: nat, env: Env)
    requires Shaped(s) && Advertises(s) && k < |s.pending|
    ensures Advertises(Do(s, Deliver(k), env))
  {
    EventAdvertises(s.(pending := s.pending[..k] + s.pending[k + 1..]), s.pending[k], env);
  }

  lemma StepAdvertises(s: Session, a: Action, env: Env)
    requires Shaped(s) && Advertises(s) && Enabled(s, a)
    ensures Advertises(Do(s, a, env))
  {
    match a {
      case Deliver(k) => DeliverAdvertises(s, k, env);
      case Expire(t) => FiredAdvertises(s, t, env);
      case Delete => DeletedFacts(s, env);
      case _ =>
    }
  }

  /** In every state of every run. */
  lemma {:induction false} RunAdvertises(s: Session, steps: seq<Step>)
    requires Shaped(s) && Advertises(s) && Perform(s, steps).Some?
    ensures Advertises(Perform(s, steps).value)
    decreases |steps|
  {
    if steps != [] {
      StepAdvertises(s, steps[0].action, steps[0].env);
      RunAdvertises(Do(s, steps[0].action, steps[0].env), steps[1..]);
    }
  }

  // ----- every state before Established can reach it -----

  /** An event that is received and handled, whatever else is pending. */
  lemma ReceivedAndHandled(s: Session, e: Event, env: Env)
    requires Shaped(s) && s.status != Deleted && e != ClearingCompleted
    ensures var steps := [Step(Receive(e), env), Step(Deliver(|s.pending|), env)];
            Perform(s, steps) == Some(Occur(s, e, env))
  {
    var steps := [Step(Receive(e), env), Step(Deliver(|s.pending|), env)];
    var t := Do(s, Receive(e), env);
    assert t.pending[..|s.pending|] + t.pending[|s.pending| + 1..] == s.pending;
    assert t.(pending := s.pending) == s;
    assert steps[1..] == [Step(Deliver(|s.pending|), env)];
    assert Perform(t, steps[1..]) == Some(Occur(s, e, env)) by {
      assert steps[1..][1..] == [];
    }
  }

  lemma OpenHandled(s: Session, env: Env)
    requires Shaped(s) && s.status == OpenSent
    ensures var t := Occur(s, ReceiveOpen, env);
            && t.status == OpenConfirm && t.vHoldtime == s.vHoldtime && t.vKeepalive == s.vKeepalive
            && t.pending == s.pending && t.timers.holdtime == t.timers.keepalive == (s.vHoldtime > 0)
  {
  }

  /** The times agreed in the peer's OPEN are those that its answer starts. */
  lemma OpenIsAnswered(s: Session, h: nat, k: nat, env: Env)
    requires Shaped(s) && s.status == OpenSent
    ensures var answer := [Step(Receive(ReceiveOpen), env), Step(Deliver(|s.pending|), env)];
            var r := Perform(s, [Step(Negotiate(h, k), env)] + answer);
            && r.Some? && r.value.status == OpenConfirm && r.value.vHoldtime == h && r.value.vKeepalive == k
            && r.value.pending == s.pending && r.value.timers.holdtime == r.value.timers.keepalive == (h > 0)
  {
    var first, u := [Step(Negotiate(h, k), env)], s.(vHoldtime := h, vKeepalive := k);
    assert Perform(s, first) == Some(u) by {
      assert first[1..] == [] && Do(s, Negotiate(h, k), env) == u;
    }
    ReceivedAndHandled(u, ReceiveOpen, env);
    OpenHandled(u, env);
    PerformTwice(s, first, [Step(Receive(ReceiveOpen), env), Step(Deliver(|s.pending|), env)]);
  }

  lemma {:induction false} PerformTwice(s: Session, a: seq<Step>, b: seq<Step>)
    requires Shaped(s) && Perform(s, a).Some?
    ensures Perform(s, a + b) == Perform(Perform(s, a).value, b)
    decreases |a|
  {
    if a == [] {
      assert a + b == b;
    } else {
      assert (a + b)[0] == a[0] && (a + b)[1..] == a[1..] + b;
      PerformTwice(Do(s, a[0].action, a[0].env), a[1..], b);
    }
  }

  /** The next stage on the way up, and the event that leads there. */
  predicate Advances(s: Status, e: Event, n: Status) {
    || (s == Idle && e == Start && n == Connect)
    || ((s == Connect || s == Active) && e == TcpOpen && n == OpenSent)
    || (s == OpenSent && e == ReceiveOpen && n == OpenConfirm)
    || (s == OpenConfirm && e == ReceiveKeepalive && n == Established)
  }

  lemma AdvancesByEvent(s: Session, e: Event, n: Status, env: Env)
    requires Shaped(s) && Advances(s.status, e, n) && (e == TcpOpen ==> s.connected)
    requires e == Start ==> !env.suppressed && !env.passive && env.dial == DialSuccess && env.socket
    ensures var t := Occur(s, e, env); t.status == n && (e == Start ==> t.connected)
  {
  }

  function Stage(s: Status): nat {
    match s
    case Idle => 4
    case Connect => 3
    case Active => 3
    case OpenSent => 2
    case OpenConfirm => 1
    case _ => 0
  }

  /** From every state before Established, with whatever events pending, a session
      comes up if the connection succeeds and the peer answers. */
  lemma {:induction false} ComesUp(s: Session, env: Env) returns (steps: seq<Step>)
    requires Shaped(s) && s.status in {Idle, Connect, Active, OpenSent, OpenConfirm, Established}
    requires !env.suppressed && !env.passive && env.dial == DialSuccess && env.socket
    ensures Perform(s, steps).Some? && Perform(s, steps).value.status == Established
    ensures |steps| <= 3 * Stage(s.status)
    decreases Stage(s.status)
  {
    if s.status == Established {
      return [];
    }
    if (s.status == Connect || s.status == Active) && !s.connected {
      var t := s.(connected := true);
      var rest := ComesUpOnce(t, env);
      steps := [Step(Attach, env)] + rest;
      assert Do(s, Attach, env) == t && steps[1..] == rest;
    } else {
      steps := ComesUpOnce(s, env);
    }
  }

  lemma NextStage(s: Status) returns (e: Event, n: Status)
    requires s in {Idle, Connect, Active, OpenSent, OpenConfirm}
    ensures Advances(s, e, n) && Stage(n) < Stage(s)
  {
    match s {
      case Idle => return Start, Connect;
      case Connect | Active => return TcpOpen, OpenSent;
      case OpenSent => return ReceiveOpen, OpenConfirm;
      case OpenConfirm => return ReceiveKeepalive, Established;
    }
  }

  lemma {:induction false} ComesUpOnce(s: Session, env: Env) returns (steps: seq<Step>)
    requires Shaped(s) && s.status in {Idle, Connect, Active, OpenSent, OpenConfirm}
    requires s.status in {Connect, Active} ==> s.connected
    requires !env.suppressed && !env.passive && env.dial == DialSuccess && env.socket
    ensures Perform(s, steps).Some? && Perform(s, steps).value.status == Established
    ensures |steps| <= 3 * Stage(s.status) - 1
    decreases Stage(s.status), 0
  {
    var e, n := NextStage(s.status);
    ReceivedAndHandled(s, e, env);
    AdvancesByEvent(s, e, n, env);
    var first := [Step(Receive(e), env), Step(Deliver(|s.pending|), env)];
    var rest := ComesUp(Occur(s, e, env), env);
    PerformTwice(s, first, rest);
    steps := first + rest;
  }

  // ----- values -----

  /** How a handler changes the delay before the next start, the negotiated times, the
      connection and the keepalive counter. */
  predicate Values(s: Session, h: Handler, env: Env, t: Session) {
    && t.vStart == (if h == DoStopWithError then (if 2 * s.vStart >= 120 then 120 else 2 * s.vStart)
                    else if h == DoEstablish then 5 else s.vStart)
    && t.vHoldtime == (if Stops(h) then env.holdtime else s.vHoldtime)
    && t.vKeepalive == (if Stops(h) then env.keepalive else s.vKeepalive)
    && (Stops(h) && h != DoReconnect ==> !t.connected)
    && t.keepaliveIn == s.keepaliveIn + (if h == DoKeepalive then 1 else 0)
  }

  lemma DeletingValues(s: Session, env: Env)
    requires Shaped(s) && env.accepted
    ensures Values(s, DoHoldtimeExpire, env, PeerDeleted(s, env))
  {
    ClearKeepsRest(Stopped(s, env), 0);
  }

  lemma StoppingValues(s: Session, h: Handler, env: Env)
    requires Shaped(s) && !Deletes(h, env) && Stops(h)
    ensures Values(s, h, env, Handle(s, h, env).session)
  {
  }

  lemma HandlerValues(s: Session, h: Handler, env: Env)
    requires Shaped(s)
    ensures Values(s, h, env, Handle(s, h, env).session)
  {
    if Deletes(h, env) {
      DeletingValues(s, env);
    } else if Stops(h) {
      StoppingValues(s, h, env);
    }
  }

  lemma CompleteValues(s: Session, h: Handler, next: Status, env: Env, t: Session)
    requires Shaped(t) && Values(s, h, env, t)
    ensures Values(s, h, env, Complete(t, next, env))
    ensures next != t.status ==> Complete(t, next, env).ostatus == t.status
  {
    ClearKeepsRest(t, 0);
  }

  /** What one event does to them, and the status it notes as the last one. */
  lemma EventValues(s: Session, e: Event, env: Env)
    requires Shaped(s)
    ensures Values(s, HandlerOf(s.status, e), env, Occur(s, e, env))
    ensures var t := Occur(s, e, env); t.status != s.status ==> t.ostatus == s.status
  {
    var hd := HandlerOf(s.status, e);
    var t := Handle(s, hd, env).session;
    HandlerValues(s, hd, env);
    CompleteValues(s, hd, Next(s.status, e), env, t);
    TableFacts(s.status, e);
    if Deletes(hd, env) {
      DeletedFacts(s, env);
    } else {
      HandlerCounts(s, hd, env);
      CompleteFacts(t, Next(s.status, e), env);
    }
  }

  lemma FiredDelay(s: Session, t: Timer, env: Env)
    requires Shaped(s) && 5 <= s.vStart <= 120
    ensures 5 <= Fired(s, t, env).vStart <= 120
  {
    match t {
      case StartTimer => EventValues(s.(timers := s.timers.(start := false)), Start, env);
      case ConnectTimer => EventValues(s.(timers := s.timers.(connect := false)), ConnectRetryExpired, env);
      case HoldTimer => EventValues(s.(timers := s.timers.(holdtime := false)), HoldExpired, env);
      case KeepaliveTimer => EventValues(s.(timers := s.timers.(keepalive := false)), KeepaliveExpired, env);
      case RouteadvTimer =>
    }
  }

  /** The start delay stays between 5 and 120 seconds in every run. */
  lemma {:induction false} DelayIsBounded(s: Session, steps: seq<Step>)
    requires Shaped(s) && 5 <= s.vStart <= 120 && Perform(s, steps).Some?
    ensures 5 <= Perform(s, steps).value.vStart <= 120
    decreases |steps|
  {
    if steps != [] {
      var a, env := steps[0].action, steps[0].env;
      match a {
        case Deliver(k) => EventValues(s.(pending := s.pending[..k] + s.pending[k + 1..]), s.pending[k], env);
        case Expire(t) => FiredDelay(s, t, env);
        case Delete => ClearKeepsRest(Stopped(s, env), 0);
        case _ =>
      }
      DelayIsBounded(Do(s, a, env), steps[1..]);
    }
  }
}
