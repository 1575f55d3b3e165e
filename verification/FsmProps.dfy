/** What every run of the BGP session state machine keeps. */
module FsmProps {
  import opened Basics
  import opened Fsm

  // ----- timers and deletion, for every run -----

  predicate TimersAllowed(s: Session) {
    && (s.timers.start ==> s.status == Idle)
    && (s.timers.connect ==> s.status == Connect || s.status == Active)
    && (s.timers.holdtime ==> s.status == OpenSent || s.status == OpenConfirm || s.status == Established)
    && (s.timers.keepalive ==> s.status == OpenConfirm || s.status == Established)
    && (s.timers.routeadv ==> s.status == Established)
  }

  /** Clearing leaves everything but the two queues alone. */
  lemma {:induction false} ClearKeepsRest(s: Session, i: nat)
    requires i <= |s.routes| == |s.queued| == |s.unqueued|
    ensures var t := ClearFrom(s, i); t == s.(pending := t.pending, queued := t.queued, unqueued := t.unqueued)
    decreases |s.routes| - i
  {
    if i < |s.routes| {
      ClearKeepsRest(ClearRoute(s, i), i + 1);
    }
  }

  lemma UnfinishedKeepsTimers(s: Session, h: Handler, env: Env)
    requires Shaped(s) && TimersAllowed(s) && !Handle(s, h, env).proceed
    ensures TimersAllowed(Handle(s, h, env).session)
  {
  }

  /** Whatever went before, the timers a completed event sets are allowed. */
  lemma CompleteSetsTimers(s: Session, next: Status, env: Env)
    requires Shaped(s)
    ensures TimersAllowed(Complete(s, next, env))
  {
  }

  lemma OccurKeepsTimers(s: Session, e: Event, env: Env)
    requires Shaped(s) && TimersAllowed(s)
    ensures TimersAllowed(Occur(s, e, env))
  {
    var h := Handle(s, HandlerOf(s.status, e), env);
    if h.proceed {
      CompleteSetsTimers(h.session, Next(s.status, e), env);
    } else {
      UnfinishedKeepsTimers(s, HandlerOf(s.status, e), env);
    }
  }

  lemma FiredKeepsTimers(s: Session, t: Timer, env: Env)
    requires Shaped(s) && TimersAllowed(s) && Armed(s, t)
    ensures TimersAllowed(Fired(s, t, env))
  {
    match t {
      case StartTimer => OccurKeepsTimers(s.(timers := s.timers.(start := false)), Start, env);
      case ConnectTimer => OccurKeepsTimers(s.(timers := s.timers.(connect := false)), ConnectRetryExpired, env);
      case HoldTimer => OccurKeepsTimers(s.(timers := s.timers.(holdtime := false)), HoldExpired, env);
      case KeepaliveTimer => OccurKeepsTimers(s.(timers := s.timers.(keepalive := false)), KeepaliveExpired, env);
      case RouteadvTimer =>
    }
  }

  lemma DeliverKeepsTimers(s: Session, k: nat, env: Env)
    requires Shaped(s) && TimersAllowed(s) && k < |s.pending|
    ensures TimersAllowed(Do(s, Deliver(k), env))
  {
    OccurKeepsTimers(s.(pending := s.pending[..k] + s.pending[k + 1..]), s.pending[k], env);
  }

  lemma DoKeepsTimers(s: Session, a: Action, env: Env)
    requires Shaped(s) && TimersAllowed(s) && Enabled(s, a)
    ensures TimersAllowed(Do(s, a, env))
  {
    match a {
      case Deliver(k) => DeliverKeepsTimers(s, k, env);
      case Expire(t) => FiredKeepsTimers(s, t, env);
      case _ =>
    }
  }

  /** In every reachable state each timer is armed only where it belongs. */
  lemma {:induction false} RunKeepsTimers(s: Session, steps: seq<Step>)
    requires Shaped(s) && TimersAllowed(s) && Perform(s, steps).Some?
    ensures TimersAllowed(Perform(s, steps).value)
    decreases |steps|
  {
    if steps != [] {
      DoKeepsTimers(s, steps[0].action, steps[0].env);
      RunKeepsTimers(Do(s, steps[0].action, steps[0].env), steps[1..]);
    }
  }

  /** Deleted is absorbing: no step leaves it, changes a counter or arms a timer. */
  lemma {:induction false} DeletedForever(s: Session, steps: seq<Step>)
    requires Shaped(s) && s.status == Deleted && s.timers == NO_TIMERS && Perform(s, steps).Some?
    ensures var t := Perform(s, steps).value;
            t.status == Deleted && t.timers == NO_TIMERS && t.established == s.established && t.dropped == s.dropped
    decreases |steps|
  {
    if steps != [] {
      DeletedForever(Do(s, steps[0].action, steps[0].env), steps[1..]);
    }
  }

  // ----- what one event does -----

  /** The handlers that stop the session. */
  predicate Stops(h: Handler) {
    h in {DoStop, DoConnectFail, DoStopWithError, DoReconnect, DoHoldtimeExpire, DoClearingCompleted}
  }

  predicate Deletes(h: Handler, env: Env) {
    h == DoHoldtimeExpire && env.accepted
  }

  predicate Completing(s: Session) {
    ClearingCompleted in s.pending
  }

  /** What the handlers do to status and counters. */
  lemma HandlerCounts(s: Session, h: Handler, env: Env)
    requires Shaped(s) && !Deletes(h, env)
    ensures var t := Handle(s, h, env).session;
            && t.status == (if h == DoEstablish then Established else s.status)
            && t.established == (if h == DoEstablish then s.established + 1 else s.established)
            && t.dropped == (if Stops(h) && s.status == Established then s.dropped + 1 else s.dropped)
  {
  }

  /** What they do to routes and queues. */
  lemma HandlerQueues(s: Session, h: Handler, env: Env)
    requires Shaped(s) && !Deletes(h, env)
    ensures var t := Handle(s, h, env).session;
            && t.routes == s.routes && t.queued == s.queued && t.unqueued == s.unqueued
            && (Completing(t) ==> Completing(s))
            && (h in {DoStop, DoStopWithError, DoHoldtimeExpire} && s.status != Clearing ==> t.pending == [])
            && (h == DoClearingCompleted ==> t.pending == [])
  {
  }

  /** A handler that stops short changes nothing that matters here. */
  lemma UnfinishedFacts(s: Session, h: Handler, env: Env)
    requires Shaped(s) && !Deletes(h, env) && !Handle(s, h, env).proceed
    ensures var t := Handle(s, h, env).session;
            (h == DoStart || h == DoConnectSuccess) && t == s.(connected := t.connected)
  {
  }

  lemma DeletedFacts(s: Session, env: Env)
    requires Shaped(s)
    ensures var t := PeerDeleted(s, env);
            && t.status == Deleted && t.established == s.established && t.routes == s.routes
            && t.dropped == if s.status == Established then s.dropped + 1 else s.dropped
  {
    ClearKeepsRest(Stopped(s, env), 0);
  }

  lemma CompleteFacts(s: Session, next: Status, env: Env)
    requires Shaped(s)
    ensures var t := Complete(s, next, env);
            && t.status == next && t.established == s.established && t.dropped == s.dropped && t.routes == s.routes
            && (next != Clearing && next != Deleted ==> t.queued == s.queued && t.pending == s.pending)
            && (next == s.status ==> t.queued == s.queued && t.pending == s.pending)
  {
    ClearKeepsRest(s, 0);
  }

  /** The handlers under which a session lives on. */
  predicate Survives(h: Handler) {
    h in {DoIgnore, DoKeepaliveExpire, DoKeepalive, DoUpdate}
  }

  /** Which transitions leave or enter Established, and which handlers they run. */
  lemma TableFacts(s: Status, e: Event)
    ensures var h, n := HandlerOf(s, e), Next(s, e);
            && (h == DoEstablish <==> s == OpenConfirm && e == ReceiveKeepalive)
            && (n == Established <==>
                  h == DoEstablish || (s == Established && Survives(h) && e != ClearingCompleted))
            && (s == Established && n != Established ==>
                  (n == Idle && e == ClearingCompleted && h == DoIgnore) ||
                  (n == Clearing && e != ClearingCompleted && h in {DoStop, DoStopWithError, DoHoldtimeExpire}))
            && (n == Deleted <==> s == Deleted)
            && (n == Clearing ==> s == Established || s == Clearing)
            && (s == Clearing && n != Clearing ==> n == Idle && e == ClearingCompleted && h == DoClearingCompleted)
            && (h == DoHoldtimeExpire ==> s == OpenSent || s == OpenConfirm || s == Established)
            && (s == Established ==> h !in {DoConnectFail, DoReconnect, DoClearingCompleted, DoStart, DoConnectSuccess})
  {
  }

  // ----- establishments and drops, for every run -----

  /** Sessions counted as established, less those counted as dropped and the one
      that is up. */
  function Excess(s: Session): int {
    s.established - s.dropped - if s.status == Established then 1 else 0
  }

  /** One event: only a completed clearing in Established goes uncounted. */
  lemma EventExcess(s: Session, e: Event, env: Env)
    requires Shaped(s)
    ensures Excess(Occur(s, e, env)) ==
            Excess(s) + if s.status == Established && e == ClearingCompleted then 1 else 0
  {
    var hd := HandlerOf(s.status, e);
    TableFacts(s.status, e);
    if Deletes(hd, env) {
      DeletedFacts(s, env);
    } else {
      HandlerCounts(s, hd, env);
      var h := Handle(s, hd, env);
      if h.proceed {
        CompleteFacts(h.session, Next(s.status, e), env);
      } else {
        UnfinishedFacts(s, hd, env);
      }
    }
  }

  /** The step handles Clearing_Completed. */
  predicate Completes(s: Session, a: Action) {
    a.Deliver? && a.k < |s.pending| && s.pending[a.k] == ClearingCompleted
  }

  predicate Late(s: Session, a: Action) {
    s.status == Established && Completes(s, a)
  }

  lemma FiredExcess(s: Session, t: Timer, env: Env)
    requires Shaped(s) && Armed(s, t)
    ensures Excess(Fired(s, t, env)) == Excess(s)
  {
    match t {
      case StartTimer => EventExcess(s.(timers := s.timers.(start := false)), Start, env);
      case ConnectTimer => EventExcess(s.(timers := s.timers.(connect := false)), ConnectRetryExpired, env);
      case HoldTimer => EventExcess(s.(timers := s.timers.(holdtime := false)), HoldExpired, env);
      case KeepaliveTimer => EventExcess(s.(timers := s.timers.(keepalive := false)), KeepaliveExpired, env);
      case RouteadvTimer =>
    }
  }

  lemma DeliverExcess(s: Session, k: nat, env: Env)
    requires Shaped(s) && k < |s.pending|
    ensures Excess(Do(s, Deliver(k), env)) == Excess(s) + if Late(s, Deliver(k)) then 1 else 0
  {
    EventExcess(s.(pending := s.pending[..k] + s.pending[k + 1..]), s.pending[k], env);
  }

  lemma StepExcess(s: Session, a: Action, env: Env)
    requires Shaped(s) && Enabled(s, a)
    ensures Excess(Do(s, a, env)) == Excess(s) + if Late(s, a) then 1 else 0
  {
    match a {
      case Deliver(k) => DeliverExcess(s, k, env);
      case Expire(t) => FiredExcess(s, t, env);
      case Delete => DeletedFacts(s, env);
      case _ =>
    }
  }

  /** How often clearing is completed in Established. */
  function LateCompletions(s: Session, steps: seq<Step>): nat
    requires Shaped(s) && Perform(s, steps).Some?
    decreases |steps|
  {
    if steps == [] then 0
    else
      (if Late(s, steps[0].action) then 1 else 0) +
      LateCompletions(Do(s, steps[0].action, steps[0].env), steps[1..])
  }

  lemma {:induction false} RunExcess(s: Session, steps: seq<Step>)
    requires Shaped(s) && Perform(s, steps).Some?
    ensures Excess(Perform(s, steps).value) == Excess(s) + LateCompletions(s, steps)
    decreases |steps|
  {
    if steps != [] {
      StepExcess(s, steps[0].action, steps[0].env);
      RunExcess(Do(s, steps[0].action, steps[0].env), steps[1..]);
    }
  }

  /** For every run: established minus dropped exceeds the session that is up by
      exactly the completions handled in Established; hence it is 1 in Established
      and 0 elsewhere if and only if there was none. */
  lemma CountersExact(s: Session, steps: seq<Step>)
    requires Initial(s) && Perform(s, steps).Some?
    ensures var t := Perform(s, steps).value;
            var up := if t.status == Established then 1 else 0;
            && t.established - t.dropped == up + LateCompletions(s, steps)
            && (t.established - t.dropped == up <==> LateCompletions(s, steps) == 0)
  {
    RunExcess(s, steps);
  }

  // ----- routes outside a session, for every run -----

  predicate NoRoutes(s: Session) {
    forall i :: 0 <= i < |s.routes| ==> s.routes[i] == 0
  }

  predicate InSession(status: Status) {
    status == Established || status == Clearing || status == Deleted
  }

  /** The peer has routes only while established, being cleared or deleted. */
  predicate Separate(s: Session) {
    !InSession(s.status) ==> NoRoutes(s)
  }

  /** Clearing is completed although routes are left. */
  predicate Early(s: Session, a: Action) {
    (s.status == Established || s.status == Clearing) && Completes(s, a) && !NoRoutes(s)
  }

  lemma EventSeparation(s: Session, e: Event, env: Env)
    requires Shaped(s) && Separate(s)
    ensures Separate(Occur(s, e, env)) <==>
            !((s.status == Established || s.status == Clearing) && e == ClearingCompleted && !NoRoutes(s))
  {
    var hd := HandlerOf(s.status, e);
    TableFacts(s.status, e);
    if Deletes(hd, env) {
      DeletedFacts(s, env);
    } else {
      HandlerCounts(s, hd, env);
      HandlerQueues(s, hd, env);
      var h := Handle(s, hd, env);
      if h.proceed {
        CompleteFacts(h.session, Next(s.status, e), env);
      } else {
        UnfinishedFacts(s, hd, env);
      }
    }
  }

  lemma FiredSeparation(s: Session, t: Timer, env: Env)
    requires Shaped(s) && Separate(s) && Armed(s, t)
    ensures Separate(Fired(s, t, env))
  {
    match t {
      case StartTimer => EventSeparation(s.(timers := s.timers.(start := false)), Start, env);
      case ConnectTimer => EventSeparation(s.(timers := s.timers.(connect := false)), ConnectRetryExpired, env);
      case HoldTimer => EventSeparation(s.(timers := s.timers.(holdtime := false)), HoldExpired, env);
      case KeepaliveTimer => EventSeparation(s.(timers := s.timers.(keepalive := false)), KeepaliveExpired, env);
      case RouteadvTimer =>
    }
  }

  /** An action that is no event of the state machine. */
  predicate Aside(a: Action) {
    !a.Deliver? && !a.Expire? && !a.Delete?
  }

  lemma AsideSeparation(s: Session, a: Action, env: Env)
    requires Shaped(s) && Separate(s) && Enabled(s, a) && Aside(a)
    ensures Separate(Do(s, a, env))
  {
  }

  lemma DeliverSeparation(s: Session, k: nat, env: Env)
    requires Shaped(s) && Separate(s) && k < |s.pending|
    ensures Separate(Do(s, Deliver(k), env)) <==> !Early(s, Deliver(k))
  {
    EventSeparation(s.(pending := s.pending[..k] + s.pending[k + 1..]), s.pending[k], env);
  }

  /** Every step keeps routes inside sessions if and only if it does not complete a
      clearing too early. */
  lemma SeparationKeptIff(s: Session, a: Action, env: Env)
    requires Shaped(s) && Separate(s) && Enabled(s, a)
    ensures Separate(Do(s, a, env)) <==> !Early(s, a)
  {
    match a {
      case Deliver(k) => DeliverSeparation(s, k, env);
      case Expire(t) => FiredSeparation(s, t, env);
      case Delete => DeletedFacts(s, env);
      case _ => AsideSeparation(s, a, env);
    }
  }

  predicate AlwaysSeparate(s: Session, steps: seq<Step>)
    requires Shaped(s) && Perform(s, steps).Some?
    decreases |steps|
  {
    && Separate(s)
    && (steps != [] ==> AlwaysSeparate(Do(s, steps[0].action, steps[0].env), steps[1..]))
  }

  predicate NeverEarly(s: Session, steps: seq<Step>)
    requires Shaped(s) && Perform(s, steps).Some?
    decreases |steps|
  {
    steps != [] ==>
      !Early(s, steps[0].action) && NeverEarly(Do(s, steps[0].action, steps[0].env), steps[1..])
  }

  /** For every run: all routes are gone in every state from which a new session
      can come up, if and only if no clearing is completed too early. */
  lemma {:induction false} SeparateIffNeverEarly(s: Session, steps: seq<Step>)
    requires Shaped(s) && Separate(s) && Perform(s, steps).Some?
    ensures AlwaysSeparate(s, steps) <==> NeverEarly(s, steps)
    decreases |steps|
  {
    if steps != [] {
      var next := Do(s, steps[0].action, steps[0].env);
      SeparationKeptIff(s, steps[0].action, steps[0].env);
      if Separate(next) {
        SeparateIffNeverEarly(next, steps[1..]);
      }
    }
  }

  // ----- when clearing is completed too early -----

  /** The first table has routes of this peer, or none has. */
  predicate Prompt(s: Session) {
    |s.routes| > 0 && (s.routes[0] > 0 || NoRoutes(s))
  }

  lemma ClearRouteQueues(s: Session, i: nat)
    requires i < |s.routes| == |s.queued| == |s.unqueued| && s.status != Deleted
    ensures var n := ClearRoute(s, i);
            && n.routes == s.routes && n.status == s.status && |n.queued| == |s.queued|
            && n.unqueued == s.unqueued[i := 0]
            && (forall k :: 0 <= k < |s.routes| ==> n.queued[k] == (s.queued[k] || (k == i && s.routes[i] > 0)))
            && (Queueing(s) || s.routes[i] > 0 ==> Queueing(n) && n.pending == s.pending)
            && (Completing(s) || (!Queueing(s) && s.routes[i] == 0) ==> Completing(n))
  {
    var n := ClearRoute(s, i);
    assert s.routes[i] > 0 ==> n.queued[i];
    assert forall k :: 0 <= k < |s.queued| && s.queued[k] ==> n.queued[k];
  }

  lemma {:induction false} ClearFromQueues(s: Session, i: nat)
    requires i <= |s.routes| == |s.queued| == |s.unqueued| && s.status != Deleted
    ensures var t := ClearFrom(s, i);
            && (forall k :: 0 <= k < |s.routes| ==> t.queued[k] == (s.queued[k] || (i <= k && s.routes[k] > 0)))
            && (forall k :: 0 <= k < |s.routes| ==> t.unqueued[k] == if i <= k then 0 else s.unqueued[k])
            && (Queueing(s) ==> t.pending == s.pending)
            && (Completing(s) ==> Completing(t))
            && (!Queueing(s) && i < |s.routes| && s.routes[i] == 0 ==> Completing(t))
            && (i < |s.routes| && s.routes[i] > 0 ==> t.pending == s.pending)
    decreases |s.routes| - i
  {
    if i < |s.routes| {
      ClearRouteQueues(s, i);
      ClearFromQueues(ClearRoute(s, i), i + 1);
    }
  }

  /** Clearing everything announces completion while routes are still queued, if
      and only if the first table has none and another one has some. */
  lemma EarlyCompletionIff(s: Session)
    requires Shaped(s) && s.status != Deleted && !Queueing(s) && !Completing(s)
    ensures var t := ClearFrom(s, 0);
            && (forall k :: 0 <= k < |s.routes| ==> t.queued[k] == (s.routes[k] > 0))
            && (Completing(t) <==> s.routes[0] == 0)
            && (Completing(t) && Queueing(t) <==> !Prompt(s))
  {
    ClearFromQueues(s, 0);
    var t := ClearFrom(s, 0);
    if Queueing(t) {
      var k :| 0 <= k < |t.queued| && t.queued[k];
      assert s.routes[k] > 0;
    }
    if k :| 0 <= k < |s.routes| && s.routes[k] != 0 {
      assert t.queued[k];
    }
  }

  // ----- clearing always ends, for every run -----

  /** A peer that waits in Clearing has something to wait for. */
  predicate Unstuck(s: Session) {
    s.status == Clearing ==> Queueing(s) || Completing(s)
  }

  lemma ClearedIsUnstuck(s: Session)
    requires Shaped(s) && s.status != Deleted
    ensures Queueing(ClearFrom(s, 0)) || Completing(ClearFrom(s, 0))
  {
    ClearFromQueues(s, 0);
    var t := ClearFrom(s, 0);
    if Queueing(s) {
      var k :| 0 <= k < |s.queued| && s.queued[k];
      assert t.queued[k];
    } else if s.routes[0] > 0 {
      assert t.queued[0];
    }
  }

  /** In Clearing every other event leaves the queues as they are. */
  lemma ClearingWaits(s: Session, e: Event, env: Env)
    requires Shaped(s) && s.status == Clearing && e != ClearingCompleted
    ensures var t := Occur(s, e, env); t.status == Clearing && t.pending == s.pending && t.queued == s.queued
  {
  }

  lemma EventUnstuck(s: Session, e: Event, env: Env)
    requires Shaped(s) && (s.status == Clearing && e != ClearingCompleted ==> Unstuck(s))
    ensures Unstuck(Occur(s, e, env))
  {
    var hd := HandlerOf(s.status, e);
    TableFacts(s.status, e);
    if s.status == Clearing && e != ClearingCompleted {
      ClearingWaits(s, e, env);
    } else if Deletes(hd, env) {
      DeletedFacts(s, env);
    } else {
      HandlerCounts(s, hd, env);
      var h := Handle(s, hd, env);
      if h.proceed {
        CompleteFacts(h.session, Next(s.status, e), env);
        if Next(s.status, e) == Clearing {
          ClearedIsUnstuck(h.session);
        }
      } else {
        UnfinishedFacts(s, hd, env);
      }
    }
  }

  lemma FiredUnstuck(s: Session, t: Timer, env: Env)
    requires Shaped(s) && Unstuck(s) && Armed(s, t)
    ensures Unstuck(Fired(s, t, env))
  {
    match t {
      case StartTimer => EventUnstuck(s.(timers := s.timers.(start := false)), Start, env);
      case ConnectTimer => EventUnstuck(s.(timers := s.timers.(connect := false)), ConnectRetryExpired, env);
      case HoldTimer => EventUnstuck(s.(timers := s.timers.(holdtime := false)), HoldExpired, env);
      case KeepaliveTimer => EventUnstuck(s.(timers := s.timers.(keepalive := false)), KeepaliveExpired, env);
      case RouteadvTimer =>
    }
  }

  /** Taking another event off the queue leaves the completion there. */
  lemma TakenIsUnstuck(s: Session, k: nat)
    requires Unstuck(s) && k < |s.pending| && s.pending[k] != ClearingCompleted
    ensures Unstuck(s.(pending := s.pending[..k] + s.pending[k + 1..]))
  {
    if Completing(s) {
      var j :| 0 <= j < |s.pending| && s.pending[j] == ClearingCompleted;
      assert (s.pending[..k] + s.pending[k + 1..])[if j < k then j else j - 1] == ClearingCompleted;
    }
  }

  lemma DeliverUnstuck(s: Session, k: nat, env: Env)
    requires Shaped(s) && Unstuck(s) && k < |s.pending|
    ensures Unstuck(Do(s, Deliver(k), env))
  {
    if s.pending[k] != ClearingCompleted {
      TakenIsUnstuck(s, k);
    }
    EventUnstuck(s.(pending := s.pending[..k] + s.pending[k + 1..]), s.pending[k], env);
  }

  lemma QueueDoneCompletes(s: Session)
    requires Shaped(s) && s.status != Deleted
    ensures Completing(QueueDone(s)) && QueueDone(s).status == s.status && !Queueing(QueueDone(s))
  {
    assert QueueDone(s).pending[|s.pending|] == ClearingCompleted;
  }

  lemma StepUnstuck(s: Session, a: Action, env: Env)
    requires Shaped(s) && Unstuck(s) && Enabled(s, a)
    ensures Unstuck(Do(s, a, env))
  {
    match a {
      case Deliver(k) => DeliverUnstuck(s, k, env);
      case Expire(t) => FiredUnstuck(s, t, env);
      case Delete => DeletedFacts(s, env);
      case FinishQueue =>
        if s.status != Deleted {
          QueueDoneCompletes(s);
        }
      case _ =>
    }
  }

  /** In every state of every run a peer in Clearing has routes queued or a
      completion pending. */
  lemma {:induction false} NeverStuck(s: Session, steps: seq<Step>)
    requires Shaped(s) && Unstuck(s) && Perform(s, steps).Some?
    ensures Unstuck(Perform(s, steps).value)
    decreases |steps|
  {
    if steps != [] {
      StepUnstuck(s, steps[0].action, steps[0].env);
      NeverStuck(Do(s, steps[0].action, steps[0].env), steps[1..]);
    }
  }

  lemma CompletionEnds(s: Session, env: Env) returns (k: nat)
    requires Shaped(s) && s.status == Clearing && Completing(s)
    ensures k < |s.pending| && Do(s, Deliver(k), env).status == Idle
  {
    k :| 0 <= k < |s.pending| && s.pending[k] == ClearingCompleted;
  }

  /** Hence it can always go on to Idle: the background queue runs dry, if it has
      anything to do, and the completion is handled. */
  lemma ClearingEnds(s: Session, env: Env) returns (steps: seq<Step>)
    requires Shaped(s) && Unstuck(s) && s.status == Clearing
    ensures Perform(s, steps).Some? && Perform(s, steps).value.status == Idle && |steps| <= 2
    ensures forall i :: 0 <= i < |steps| ==> steps[i].action.FinishQueue? || steps[i].action.Deliver?
  {
    if Queueing(s) {
      QueueDoneCompletes(s);
      var t := QueueDone(s);
      var k := CompletionEnds(t, env);
      steps := [Step(FinishQueue, env), Step(Deliver(k), env)];
      assert steps[1..] == [Step(Deliver(k), env)] && steps[1..][1..] == [];
      assert Perform(t, steps[1..]) == Some(Do(t, Deliver(k), env));
    } else {
      var k := CompletionEnds(s, env);
      steps := [Step(Deliver(k), env)];
      assert steps[1..] == [];
    }
  }

  /** Completion is announced only when clearing is done, and all that is left of
      a session is queued for removal. */
  predicate Inv(s: Session) {
    && Shaped(s)
    && Separate(s)
    && (s.status != Clearing && s.status != Deleted ==> !Queueing(s) && !Completing(s))
    && (s.status == Clearing ==> forall i :: 0 <= i < TABLES && s.routes[i] > 0 ==> s.queued[i])
    && (s.status == Clearing ==> forall i :: 0 <= i < TABLES ==> s.unqueued[i] == 0)
    && (s.status == Clearing && Completing(s) ==> !Queueing(s))
  }

  /** What is asked of a step: no single table is cleared during a session, and a
      session ends only when clearing starts with a table that has routes. */
  predicate Careful(s: Session, step: Step)
    requires Shaped(s) && Enabled(s, step.action)
  {
    && !step.action.ClearTable?
    && (s.status == Established && Do(s, step.action, step.env).status == Clearing ==> Prompt(s))
  }

  /** Going down from Established. */
  lemma ClearingInv(s: Session)
    requires Shaped(s) && s.status == Established && !Queueing(s) && s.pending == [] && Prompt(s)
    ensures Inv(ChangeStatus(s, Clearing))
  {
    EarlyCompletionIff(s);
    ClearFromQueues(s, 0);
    ClearKeepsRest(s, 0);
  }

  /** Completing an event that does not start clearing. */
  lemma CompleteKeepsInv(s: Session, t: Session, next: Status, env: Env)
    requires Inv(s) && Shaped(t) && t.routes == s.routes && t.queued == s.queued && t.unqueued == s.unqueued
    requires Completing(t) ==> Completing(s)
    requires next == Clearing ==> s.status == t.status == Clearing
    requires (next == Deleted <==> s.status == Deleted) && (s.status == Deleted ==> t.status == Deleted)
    requires s.status == Clearing && next != Clearing ==> next == Idle && !Completing(t) && !Queueing(s)
    requires s.status == Established ==> next == Established
    ensures Inv(Complete(t, next, env))
  {
    CompleteFacts(t, next, env);
  }

  lemma OccurKeepsInv(s: Session, e: Event, env: Env)
    requires Inv(s)
    requires e == ClearingCompleted ==> s.status == Deleted || (s.status == Clearing && !Queueing(s))
    requires s.status == Established && Occur(s, e, env).status == Clearing ==> Prompt(s)
    ensures Inv(Occur(s, e, env))
  {
    var hd, next := HandlerOf(s.status, e), Next(s.status, e);
    TableFacts(s.status, e);
    if Deletes(hd, env) {
      DeletedFacts(s, env);
    } else {
      HandlerCounts(s, hd, env);
      HandlerQueues(s, hd, env);
      var h := Handle(s, hd, env);
      if !h.proceed {
        UnfinishedFacts(s, hd, env);
      } else if s.status == Established && next == Clearing {
        CompleteFacts(h.session, next, env);
        ClearingInv(h.session);
      } else {
        CompleteKeepsInv(s, h.session, next, env);
      }
    }
  }

  lemma DeliverKeepsInv(s: Session, k: nat, env: Env)
    requires Inv(s) && k < |s.pending| && Careful(s, Step(Deliver(k), env))
    ensures Inv(Do(s, Deliver(k), env))
  {
    var t := s.(pending := s.pending[..k] + s.pending[k + 1..]);
    assert Completing(t) ==> Completing(s);
    assert s.pending[k] == ClearingCompleted ==> Completing(s);
    OccurKeepsInv(t, s.pending[k], env);
  }

  lemma ExpireKeepsInv(s: Session, t: Timer, env: Env)
    requires Inv(s) && Armed(s, t) && Careful(s, Step(Expire(t), env))
    ensures Inv(Do(s, Expire(t), env))
  {
    match t {
      case StartTimer => OccurKeepsInv(s.(timers := s.timers.(start := false)), Start, env);
      case ConnectTimer => OccurKeepsInv(s.(timers := s.timers.(connect := false)), ConnectRetryExpired, env);
      case HoldTimer => OccurKeepsInv(s.(timers := s.timers.(holdtime := false)), HoldExpired, env);
      case KeepaliveTimer => OccurKeepsInv(s.(timers := s.timers.(keepalive := false)), KeepaliveExpired, env);
      case RouteadvTimer =>
    }
  }

  lemma StepKeepsInv(s: Session, step: Step)
    requires Inv(s) && Enabled(s, step.action) && Careful(s, step)
    ensures Inv(Do(s, step.action, step.env))
  {
    match step.action {
      case Deliver(k) => DeliverKeepsInv(s, k, step.env);
      case Expire(t) => ExpireKeepsInv(s, t, step.env);
      case Delete => DeletedFacts(s, step.env);
      case _ =>
    }
  }

  /** Every step of a run is careful. */
  predicate CarefulRun(s: Session, steps: seq<Step>)
    requires Shaped(s) && Perform(s, steps).Some?
    decreases |steps|
  {
    steps == [] ||
    (Careful(s, steps[0]) && CarefulRun(Do(s, steps[0].action, steps[0].env), steps[1..]))
  }

  /** Where completion is announced only when done, it is never early and never
      in Established. */
  lemma InvMeansTimely(s: Session, a: Action)
    requires Inv(s) && Enabled(s, a)
    ensures !Early(s, a) && !Late(s, a)
  {
    if Completes(s, a) {
      assert s.pending[a.k] in s.pending;
    }
  }

  lemma {:induction false} RunKeepsInv(s: Session, steps: seq<Step>)
    requires Inv(s) && Perform(s, steps).Some? && CarefulRun(s, steps)
    ensures Inv(Perform(s, steps).value) && NeverEarly(s, steps) && LateCompletions(s, steps) == 0
    decreases |steps|
  {
    if steps != [] {
      InvMeansTimely(s, steps[0].action);
      StepKeepsInv(s, steps[0]);
      RunKeepsInv(Do(s, steps[0].action, steps[0].env), steps[1..]);
    }
  }

  /** A careful run completes no clearing early or late, so its sessions are
      separate in every state and its counters balance. */
  lemma SessionsAreSeparate(s: Session, steps: seq<Step>)
    requires Initial(s) && Perform(s, steps).Some? && CarefulRun(s, steps)
    ensures AlwaysSeparate(s, steps) && Excess(Perform(s, steps).value) == 0
    ensures Completing(Perform(s, steps).value) ==> InSession(Perform(s, steps).value.status)
  {
    RunKeepsInv(s, steps);
    SeparateIffNeverEarly(s, steps);
    RunExcess(s, steps);
  }

  // ----- carefulness is exact -----

  /** The run stays out of Established. */
  predicate StaysDown(s: Session, steps: seq<Step>)
    requires Shaped(s) && Perform(s, steps).Some?
    decreases |steps|
  {
    && s.status != Established
    && (steps != [] ==> StaysDown(Do(s, steps[0].action, steps[0].env), steps[1..]))
  }

  lemma {:induction false} DownIsCareful(s: Session, steps: seq<Step>)
    requires Shaped(s) && Perform(s, steps).Some? && StaysDown(s, steps)
    ensures CarefulRun(s, steps)
    decreases |steps|
  {
    if steps != [] {
      DownIsCareful(Do(s, steps[0].action, steps[0].env), steps[1..]);
    }
  }

  lemma UnpromptEnd(s: Session, e: Event, env: Env)
    requires Inv(s) && s.status == Established && Occur(s, e, env).status == Clearing && !Prompt(s)
    ensures Completing(Occur(s, e, env)) && Occur(s, e, env).routes == s.routes
  {
    var hd := HandlerOf(s.status, e);
    TableFacts(s.status, e);
    if Deletes(hd, env) {
      DeletedFacts(s, env);
    }
    HandlerCounts(s, hd, env);
    HandlerQueues(s, hd, env);
    EarlyCompletionIff(Handle(s, hd, env).session);
    ClearKeepsRest(Handle(s, hd, env).session, 0);
  }

  lemma EarlyDelivery(t: Session, env: Env) returns (k: nat)
    requires Shaped(t) && t.status == Clearing && Completing(t) && !NoRoutes(t)
    ensures k < |t.pending| && Do(t, Deliver(k), env).status == Idle && !Separate(Do(t, Deliver(k), env))
  {
    k :| 0 <= k < |t.pending| && t.pending[k] == ClearingCompleted;
    DeliverSeparation(t, k, env);
  }

  /** After an unprompt end of session the completion that is pending already can
      be handled with the routes still there. */
  lemma UnpromptIsEarly(s: Session, e: Event, env: Env) returns (k: nat)
    requires Inv(s) && s.status == Established && Occur(s, e, env).status == Clearing && !Prompt(s)
    ensures var t := Occur(s, e, env);
            k < |t.pending| && Do(t, Deliver(k), env).status == Idle && !Separate(Do(t, Deliver(k), env))
  {
    UnpromptEnd(s, e, env);
    k := EarlyDelivery(Occur(s, e, env), env);
  }

  ghost predicate IsDownRun(s: Session, steps: seq<Step>)
    requires Shaped(s)
  {
    Perform(s, steps).Some? && StaysDown(s, steps)
  }

  /** However the run goes on before the next session, no routes are left behind. */
  ghost predicate LeavesNothing(s: Session)
    requires Shaped(s)
  {
    forall steps :: IsDownRun(s, steps) ==> AlwaysSeparate(s, steps)
  }

  lemma DoomedRun(t: Session, k: nat, env: Env)
    requires Shaped(t) && t.status == Clearing && k < |t.pending|
    requires Do(t, Deliver(k), env).status == Idle && !Separate(Do(t, Deliver(k), env))
    ensures !LeavesNothing(t)
  {
    var next, steps := Do(t, Deliver(k), env), [Step(Deliver(k), env)];
    assert steps[1..] == [];
    assert Perform(next, []) == Some(next) && StaysDown(next, []);
    assert IsDownRun(t, steps);
    assert !AlwaysSeparate(next, []);
    assert !AlwaysSeparate(t, steps);
  }

  /** A session that ends leaves nothing behind if and only if its first table has
      routes or none has. */
  lemma PromptIff(s: Session, e: Event, env: Env)
    requires Inv(s) && s.status == Established && Occur(s, e, env).status == Clearing
    ensures Prompt(s) <==> LeavesNothing(Occur(s, e, env))
  {
    var t := Occur(s, e, env);
    if Prompt(s) {
      OccurKeepsInv(s, e, env);
      forall steps | IsDownRun(t, steps) ensures AlwaysSeparate(t, steps) {
        DownIsCareful(t, steps);
        RunKeepsInv(t, steps);
        SeparateIffNeverEarly(t, steps);
      }
    } else {
      var k := UnpromptIsEarly(s, e, env);
      DoomedRun(t, k, env);
    }
  }

  lemma LateDelivery(u: Session, env: Env) returns (steps: seq<Step>)
    requires Shaped(u) && u.status == Established && Completing(u)
    ensures Perform(u, steps).Some? && LateCompletions(u, steps) == 1
  {
    var k :| 0 <= k < |u.pending| && u.pending[k] == ClearingCompleted;
    var t := Do(u, Deliver(k), env);
    steps := [Step(Deliver(k), env)];
    assert steps[1..] == [];
    assert Perform(t, []) == Some(t) && LateCompletions(t, []) == 0;
  }

  lemma LateAfter(t: Session, env: Env, steps: seq<Step>)
    requires Shaped(t) && t.status == Established && Queueing(t)
    requires Perform(QueueDone(t), steps).Some? && LateCompletions(QueueDone(t), steps) == 1
    ensures var all := [Step(FinishQueue, env)] + steps; Perform(t, all).Some? && LateCompletions(t, all) == 1
  {
    var all := [Step(FinishQueue, env)] + steps;
    assert all[0] == Step(FinishQueue, env) && all[1..] == steps;
    assert Do(t, FinishQueue, env) == QueueDone(t);
  }

  /** Clearing a single table during a session always leads to a completion that
      can be handled in Established. */
  lemma ClearTableIsLate(s: Session, i: nat, env: Env) returns (steps: seq<Step>)
    requires Inv(s) && s.status == Established && i < TABLES
    ensures var t := Do(s, ClearTable(i), env); Perform(t, steps).Some? && LateCompletions(t, steps) == 1
  {
    var t := Do(s, ClearTable(i), env);
    ClearRouteQueues(s, i);
    if s.routes[i] == 0 {
      steps := LateDelivery(t, env);
    } else {
      QueueDoneCompletes(t);
      var last := LateDelivery(QueueDone(t), env);
      LateAfter(t, env, last);
      steps := [Step(FinishQueue, env)] + last;
    }
  }
}
