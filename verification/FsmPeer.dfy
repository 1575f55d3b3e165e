/** struct peer and the functions of bgpd/bgp_fsm.c that change it. */
module FsmPeer {
  import opened Fsm
  import opened FsmDuties
  import opened FsmProps

  class Peer {
    var status: Status
    var ostatus: Status
    var established: nat
    var dropped: nat
    var keepaliveIn: nat
    var timers: Timers
    var vStart: nat
    var vHoldtime: nat
    var vKeepalive: nat
    var connected: bool
    var pending: seq<Event>
    var routes: seq<nat>
    var queued: seq<bool>
    var unqueued: seq<nat>
    ghost var late: nat // completions of clearing handled in Established

    constructor (holdtime: nat, keepalive: nat)
      ensures Initial(View()) && late == 0 && Valid()
    {
      status, ostatus, established, dropped, keepaliveIn := Idle, Idle, 0, 0, 0;
      timers := NO_TIMERS;
      vStart, vHoldtime, vKeepalive := BGP_INIT_START_TIMER, holdtime, keepalive;
      connected, pending, routes, queued := false, [], seq(TABLES, _ => 0), seq(TABLES, _ => false);
      unqueued := seq(TABLES, _ => 0);
      late := 0;
    }

    /** Timers only where they belong, and the exact law of the counters. */
    ghost predicate Sound()
      reads this
    {
      Shaped(View()) && TimersAllowed(View()) && Excess(View()) == late
    }

    /** What every event and every other action keeps; a peer in Clearing moreover has
        routes queued or a completion pending. */
    ghost predicate Valid()
      reads this
    {
      Sound() && Unstuck(View())
    }

    ghost function View(): Session
      reads this
    {
      Session(status, ostatus, established, dropped, keepaliveIn, timers,
              vStart, vHoldtime, vKeepalive, connected, pending, routes, queued, unqueued)
    }

    /** bgp_timer_set.  Whatever was armed before, what is armed now is allowed, and
        what is due is armed. */
    method TimerSet(env: Env)
      modifies this`timers
      ensures View() == old(View()).(timers := TimersSet(old(View()), env))
      ensures TimersAllowed(View()) && ArmedAsDue(View(), env)
    {
      var routeadv := timers.routeadv;
      timers := NO_TIMERS;
      match status {
        case Idle =>
          if !(env.suppressed || !env.active) {
            timers := timers.(start := true);
          }
        case Connect => timers := timers.(connect := true);
        case Active =>
          if !env.passive {
            timers := timers.(connect := true);
          }
        case OpenSent =>
          if vHoldtime != 0 {
            timers := timers.(holdtime := true);
          }
        case OpenConfirm =>
          if vHoldtime != 0 {
            timers := timers.(holdtime := true, keepalive := true);
          }
        case Established =>
          timers := timers.(routeadv := routeadv);
          if vHoldtime != 0 {
            timers := timers.(holdtime := true, keepalive := true);
          }
        case Clearing | Deleted =>
      }
    }

    /** BGP_EVENT_ADD. */
    method EventAdd(e: Event)
      modifies this`pending
      ensures View() == Add(old(View()), e)
    {
      if status != Deleted {
        pending := pending + [e];
      }
    }

    /** bgp_clear_route. */
    method ClearOne(i: nat)
      requires i < |routes| == |queued| == |unqueued|
      modifies this`pending, this`queued, this`unqueued
      ensures View() == ClearRoute(old(View()), i)
    {
      if routes[i] > 0 {
        queued := queued[i := true];
      }
      unqueued := unqueued[i := 0];
      if !(true in queued) {
        EventAdd(ClearingCompleted);
      }
    }

    /** bgp_clear_route_all. */
    method ClearAll()
      requires |routes| == |queued| == |unqueued|
      modifies this`pending, this`queued, this`unqueued
      ensures View() == ClearFrom(old(View()), 0)
    {
      ghost var all := ClearFrom(View(), 0);
      for i := 0 to |routes|
        modifies this`pending, this`queued, this`unqueued
        invariant |queued| == |routes| == |unqueued|
        invariant ClearFrom(View(), i) == all
      {
        ClearOne(i);
      }
    }

    /** Nothing is being cleared. */
    predicate Idling()
      reads this
    {
      status != Deleted && !(true in queued) && ClearingCompleted !in pending
    }

    /** bgp_fsm_change_status.  Routes go to the queue, none is lost, and completion
        is announced at once exactly if the first table has no routes. */
    method SetStatus(next: Status)
      requires Shaped(View())
      modifies this`status, this`ostatus, this`pending, this`queued, this`unqueued
      ensures View() == ChangeStatus(old(View()), next)
      ensures routes == old(routes) && established == old(established) && dropped == old(dropped)
      ensures (next == Clearing || next == Deleted) && old(Idling()) ==>
                && (forall i :: 0 <= i < TABLES ==> queued[i] == (routes[i] > 0))
                && (Completing(View()) <==> routes[0] == 0)
    {
      ClearKeepsRest(View(), 0);
      if Idling() {
        EarlyCompletionIff(View());
      }
      if next == Clearing || next == Deleted {
        ClearAll();
      }
      ostatus := status;
      status := next;
    }

    /** bgp_stop.  A session that is up is counted as dropped; nothing stays armed,
        and outside Clearing nothing stays pending. */
    method BgpStop(env: Env)
      modifies this`pending, this`dropped, this`timers, this`connected, this`vKeepalive, this`vHoldtime
      ensures View() == Stopped(old(View()), env)
      ensures Excess(View()) == old(Excess(View())) - if old(status) == Established then 1 else 0
      ensures TimersAllowed(View()) && (status != Clearing ==> pending == [])
    {
      if status != Clearing {
        pending := [];
      }
      if status == Established {
        dropped := dropped + 1;
      }
      timers := NO_TIMERS;
      connected := false;
      vKeepalive, vHoldtime := env.keepalive, env.holdtime;
    }

    /** bgp_stop_with_error. */
    method BgpStopWithError(env: Env)
      modifies this`vStart
      modifies this`pending, this`dropped, this`timers, this`connected, this`vKeepalive, this`vHoldtime
      ensures View() == StoppedWithError(old(View()), env)
    {
      vStart := vStart * 2;
      if vStart >= 60 * 2 {
        vStart := 60 * 2;
      }
      BgpStop(env);
    }

    /** bgp_start.  Whatever dialling brings, counters and timers are left alone and
        no completion is announced. */
    method BgpStart(env: Env) returns (proceed: bool)
      modifies this`connected, this`pending
      ensures Handled(View(), proceed) == Started(old(View()), env)
      ensures Completing(View()) ==> old(Completing(View()))
    {
      if env.suppressed {
        return false;
      }
      if env.passive {
        EventAdd(TcpOpenFailed);
        return true;
      }
      connected := env.socket;
      match env.dial {
        case DialError => EventAdd(TcpOpenFailed);
        case DialSuccess => EventAdd(TcpOpen);
        case DialInProgress =>
          if !connected {
            return false;
          }
      }
      return true;
    }

    /** bgp_establish.  The session that comes up is the one that is counted, and
        the timers of OpenConfirm go on. */
    method BgpEstablish()
      requires Shaped(View())
      modifies this`status, this`ostatus, this`established, this`vStart, this`timers, this`pending
      modifies this`queued, this`unqueued
      ensures View() == EstablishedNow(old(View()))
      ensures old(status) != Established ==> Excess(View()) == old(Excess(View()))
      ensures old(status) == OpenConfirm && old(TimersAllowed(View())) ==> TimersAllowed(View())
    {
      vStart := BGP_INIT_START_TIMER;
      established := established + 1;
      SetStatus(Established);
      timers := timers.(routeadv := true);
    }

    /** peer_delete.  A session that is up is counted as dropped. */
    method PeerDelete(env: Env)
      requires Shaped(View()) && status != Deleted
      modifies this
      ensures View() == PeerDeleted(old(View()), env)
      ensures status == Deleted && TimersAllowed(View()) && Excess(View()) == old(Excess(View())) && late == old(late)
    {
      DeletedFacts(View(), env);
      BgpStop(env);
      SetStatus(Deleted);
      TimerSet(env);
    }

    /** The handlers the transition table names. */
    method Run(h: Handler, env: Env) returns (proceed: bool)
      requires Shaped(View()) && (h == DoHoldtimeExpire ==> status != Deleted)
      modifies this
      ensures Handled(View(), proceed) == Handle(old(View()), h, env) && late == old(late)
    {
      proceed := true;
      match h {
        case DoStart => proceed := BgpStart(env);
        case DoStop | DoConnectFail => BgpStop(env);
        case DoStopWithError => BgpStopWithError(env);
        case DoConnectSuccess => proceed := connected;
        case DoReconnect =>
          BgpStop(env);
          var ignored := BgpStart(env);
        case DoOpen | DoUpdate => timers := timers.(holdtime := false);
        case DoKeepalive =>
          keepaliveIn := keepaliveIn + 1;
          timers := timers.(holdtime := false);
        case DoHoldtimeExpire =>
          if env.accepted {
            PeerDelete(env);
            proceed := false;
          } else {
            BgpStop(env);
          }
        case DoEstablish => BgpEstablish();
        case DoClearingCompleted =>
          BgpStop(env);
          pending := [];
        case DoIgnore | DoKeepaliveExpire =>
      }
    }

    /** The end of bgp_event. */
    method Finish(next: Status, env: Env)
      requires Shaped(View())
      modifies this`status, this`ostatus, this`pending, this`queued, this`unqueued, this`timers
      ensures View() == Complete(old(View()), next, env)
    {
      if next != status {
        SetStatus(next);
      }
      TimerSet(env);
    }

    /** bgp_event, for an event just taken from the queue. */
    method BgpEvent(e: Event, env: Env)
      requires Sound() && (e != ClearingCompleted ==> Unstuck(View()))
      modifies this
      ensures Valid() && View() == Occur(old(View()), e, env)
      ensures late == old(late) + if old(status) == Established && e == ClearingCompleted then 1 else 0
    {
      OccurKeepsTimers(View(), e, env);
      EventExcess(View(), e, env);
      EventUnstuck(View(), e, env);
      late := late + if status == Established && e == ClearingCompleted then 1 else 0;
      var next := Next(status, e);
      var proceed := Run(HandlerOf(status, e), env);
      if proceed {
        Finish(next, env);
      }
    }

    /** The timer functions. */
    method Expire(t: Timer, env: Env)
      requires Valid() && Armed(View(), t)
      modifies this
      ensures Valid() && View() == Fired(old(View()), t, env) && late == old(late)
    {
      match t {
        case StartTimer =>
          timers := timers.(start := false);
          BgpEvent(Start, env);
        case ConnectTimer =>
          timers := timers.(connect := false);
          BgpEvent(ConnectRetryExpired, env);
        case HoldTimer =>
          timers := timers.(holdtime := false);
          BgpEvent(HoldExpired, env);
        case KeepaliveTimer =>
          timers := timers.(keepalive := false);
          BgpEvent(KeepaliveExpired, env);
        case RouteadvTimer =>
          timers := timers.(routeadv := status != Deleted);
      }
    }

    /** A pending event is handled. */
    method Deliver(k: nat, env: Env)
      requires Valid() && k < |pending|
      modifies this
      ensures Valid() && View() == Do(old(View()), Action.Deliver(k), env)
    {
      var e := pending[k];
      if e != ClearingCompleted {
        TakenIsUnstuck(View(), k);
      }
      pending := pending[..k] + pending[k + 1..];
      BgpEvent(e, env);
    }

    /** The background queue empties and says so. */
    method FinishQueue()
      requires Valid()
      modifies this`routes, this`queued, this`unqueued, this`pending
      ensures Valid() && View() == QueueDone(old(View()))
    {
      if status != Deleted {
        QueueDoneCompletes(View());
      }
      var before, marked, kept := routes, queued, unqueued;
      routes := seq(|before|, i requires 0 <= i < |before| && |marked| == |before| == |kept| =>
                                if marked[i] then Less(before[i], kept[i]) else before[i]);
      queued := seq(|marked|, _ => false);
      EventAdd(ClearingCompleted);
    }

    method SetTimes(hold: nat, keep: nat)
      requires Valid()
      modifies this`vHoldtime, this`vKeepalive
      ensures Valid() && View() == old(View()).(vHoldtime := hold, vKeepalive := keep)
    {
      vHoldtime, vKeepalive := hold, keep;
    }

    method SetConnected()
      requires Valid()
      modifies this`connected
      ensures Valid() && View() == old(View()).(connected := true)
    {
      connected := true;
    }

    method CountRoute(i: nat, n: int, elsewhere: bool)
      requires Valid() && i < TABLES && routes[i] + n >= 0 && (elsewhere ==> unqueued[i] + n >= 0)
      modifies this`routes, this`unqueued
      ensures Valid() && View() == Count(old(View()), i, n, elsewhere)
    {
      routes := routes[i := routes[i] + n];
      if elsewhere {
        unqueued := unqueued[i := unqueued[i] + n];
      }
    }

    /** The next thing that happens to the peer. */
    method Act(a: Action, env: Env)
      requires Valid() && Enabled(View(), a)
      modifies this
      ensures Valid() && View() == Do(old(View()), a, env)
    {
      match a {
        case Receive(e) => EventAdd(e);
        case Deliver(k) => Deliver(k, env);
        case Expire(t) => Expire(t, env);
        case SetTimers => TimerSet(env);
        case Negotiate(h, k) => SetTimes(h, k);
        case Attach => SetConnected();
        case Learn(i, elsewhere) => CountRoute(i, 1, elsewhere);
        case Withdraw(i, elsewhere) => CountRoute(i, -1, elsewhere);
        case FinishQueue => FinishQueue();
        case ClearTable(i) => ClearOne(i);
        case Delete => PeerDelete(env);
      }
    }
  }

  /** A peer lives through any series of steps.  Its timers are armed only where
      they belong; in Clearing it has something to wait for; established minus
      dropped exceeds the session that is up by the completions handled in
      Established; after a careful series it has no routes outside a session; and
      after a timely one an agreed hold time is watched over. */
  method Live(p: Peer, steps: seq<Step>)
    requires p.Valid() && Initial(p.View()) && Perform(p.View(), steps).Some?
    modifies p
    ensures p.Valid() && Perform(old(p.View()), steps).value == p.View()
    ensures p.established - p.dropped ==
            (if p.status == Established then 1 else 0) + LateCompletions(old(p.View()), steps)
    ensures CarefulRun(old(p.View()), steps) ==> Separate(p.View()) && Excess(p.View()) == 0
    ensures TimelyRun(old(p.View()), steps) ==> Attentive(p.View()) && Patient(p.View())
    ensures Advertises(p.View())
  {
    ghost var start := p.View();
    CountersExact(start, steps);
    RunAdvertises(start, steps);
    if CarefulRun(start, steps) {
      RunKeepsInv(start, steps);
    }
    if TimelyRun(start, steps) {
      RunAttends(start, steps);
    }
    var left := steps;
    while left != []
      invariant p.Valid() && Perform(p.View(), left) == Perform(start, steps)
      decreases |left|
    {
      p.Act(left[0].action, left[0].env);
      left := left[1..];
    }
  }
}
