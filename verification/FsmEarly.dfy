/** A run in which clearing completes before it is done: a peer that has routes in
    a later table and none in the first. */
module FsmEarly {
  import opened Basics
  import opened Fsm
  import opened FsmProps

  const ENV := Env(false, true, false, false, 180, 60, DialInProgress, true)

  const NEW :=
    Session(Idle, Idle, 0, 0, 0, NO_TIMERS, 5, 180, 60, false, [],
            seq(TABLES, _ => 0), seq(TABLES, _ => false), seq(TABLES, _ => 0))

  function One(a: Action): seq<Step> {
    [Step(a, ENV)]
  }

  /** A session comes up. */
  const UP := One(SetTimers) + (One(Expire(StartTimer)) + (One(Receive(TcpOpen)) + (One(Deliver(0)) +
    (One(Receive(ReceiveOpen)) + (One(Deliver(0)) + (One(Receive(ReceiveKeepalive)) + One(Deliver(0))))))))

  /** It learns one IPv6 unicast route and is stopped; one completion is handled. */
  const DOWN := One(Learn(4, true)) + (One(Receive(Stop)) + (One(Deliver(0)) + One(Deliver(0))))

  /** The background queue finishes, and its completion is handled. */
  const FINISH := One(FinishQueue) + One(Deliver(0))

  lemma PerformOne(s: Session, a: Action, rest: seq<Step>)
    requires Shaped(s) && Enabled(s, a)
    ensures Perform(s, One(a) + rest) == Perform(Do(s, a, ENV), rest)
  {
  }

  lemma PerformLast(s: Session, a: Action)
    requires Shaped(s) && Enabled(s, a)
    ensures Perform(s, One(a)) == Some(Do(s, a, ENV))
  {
  }

  lemma {:induction false} PerformConcat(s: Session, a: seq<Step>, b: seq<Step>)
    requires Shaped(s) && Perform(s, a).Some?
    ensures Perform(s, a + b) == Perform(Perform(s, a).value, b)
    decreases |a|
  {
    if a == [] {
      assert a + b == b;
    } else {
      assert (a + b)[1..] == a[1..] + b;
      PerformConcat(Do(s, a[0].action, a[0].env), a[1..], b);
    }
  }

  /** An event received and handled with nothing else pending. */
  lemma ReceiveAndDeliver(s: Session, e: Event, rest: seq<Step>)
    requires Shaped(s) && s.pending == [] && s.status != Deleted && e != ClearingCompleted
    ensures Perform(s, One(Receive(e)) + (One(Deliver(0)) + rest)) == Perform(Occur(s, e, ENV), rest)
  {
    var t := Do(s, Receive(e), ENV);
    PerformOne(s, Receive(e), One(Deliver(0)) + rest);
    assert t.pending == [e] && t.pending[..0] + t.pending[1..] == [];
    assert t.(pending := []) == s;
    PerformOne(t, Deliver(0), rest);
  }

  /** t has the status, and is otherwise like s in what matters here. */
  predicate Reaches(s: Session, t: Session, status: Status) {
    && Shaped(t) && t.status == status && t.pending == [] && t.routes == s.routes && t.queued == s.queued
    && t.established == s.established && t.dropped == s.dropped
  }

  lemma Dials(s: Session)
    requires Shaped(s) && s.status == Idle && s.pending == []
    ensures var t := Do(s, SetTimers, ENV);
            && t.timers.start
            && Reaches(s, Do(t, Expire(StartTimer), ENV), Connect) && Do(t, Expire(StartTimer), ENV).connected
  {
  }

  lemma Opens(s: Session)
    requires Shaped(s) && s.pending == []
    ensures s.status == Connect && s.connected ==> Reaches(s, Occur(s, TcpOpen, ENV), OpenSent)
    ensures s.status == OpenSent ==> Reaches(s, Occur(s, ReceiveOpen, ENV), OpenConfirm)
    ensures s.status == OpenConfirm ==>
              Reaches(s.(established := s.established + 1), Occur(s, ReceiveKeepalive, ENV), Established)
  {
  }

  lemma ComesUp(s: Session)
    requires Shaped(s) && s.status == Idle && s.pending == []
    ensures var t := Perform(s, UP);
            t.Some? && Reaches(s.(established := s.established + 1), t.value, Established)
  {
    var s1 := Do(s, SetTimers, ENV);
    Dials(s);
    var up3 := One(Receive(ReceiveKeepalive)) + One(Deliver(0));
    var up2 := One(Receive(ReceiveOpen)) + (One(Deliver(0)) + up3);
    var up1 := One(Receive(TcpOpen)) + (One(Deliver(0)) + up2);
    PerformOne(s, SetTimers, One(Expire(StartTimer)) + up1);
    PerformOne(s1, Expire(StartTimer), up1);
    Negotiates(s, Do(s1, Expire(StartTimer), ENV));
  }

  lemma Confirms(s0: Session, s: Session)
    requires Reaches(s0, s, OpenSent)
    ensures var up3 := One(Receive(ReceiveKeepalive)) + One(Deliver(0));
            var t := Perform(s, One(Receive(ReceiveOpen)) + (One(Deliver(0)) + up3));
            t.Some? && Reaches(s0.(established := s0.established + 1), t.value, Established)
  {
    var s4 := Occur(s, ReceiveOpen, ENV);
    Opens(s);
    ReceiveAndDeliver(s, ReceiveOpen, One(Receive(ReceiveKeepalive)) + One(Deliver(0)));
    Opens(s4);
    assert One(Deliver(0)) + [] == One(Deliver(0));
    ReceiveAndDeliver(s4, ReceiveKeepalive, []);
  }

  lemma Negotiates(s0: Session, s: Session)
    requires Reaches(s0, s, Connect) && s.connected
    ensures var up3 := One(Receive(ReceiveKeepalive)) + One(Deliver(0));
            var up2 := One(Receive(ReceiveOpen)) + (One(Deliver(0)) + up3);
            var t := Perform(s, One(Receive(TcpOpen)) + (One(Deliver(0)) + up2));
            t.Some? && Reaches(s0.(established := s0.established + 1), t.value, Established)
  {
    Opens(s);
    Confirms(s0, Occur(s, TcpOpen, ENV));
    ReceiveAndDeliver(s, TcpOpen, One(Receive(ReceiveOpen)) + (One(Deliver(0)) +
                                  (One(Receive(ReceiveKeepalive)) + One(Deliver(0)))));
  }

  /** The first four tables are empty and each announces completion; the fifth is
      queued. */
  lemma ClearsEarly(s: Session)
    requires Shaped(s) && s.status == Established && s.routes == seq(TABLES, _ => 0)[4 := 1]
    requires s.queued == seq(TABLES, _ => false)
    ensures var t := Occur(s, Stop, ENV);
            && t.status == Clearing && Completing(t) && (forall e :: e in t.pending ==> e == ClearingCompleted)
            && t.established == s.established && t.dropped == s.dropped + 1
            && t.routes == s.routes && t.queued == seq(TABLES, _ => false)[4 := true]
  {
    var s2 := Stopped(s, ENV);
    assert !Queueing(s2) && !Completing(s2);
    EarlyCompletionIff(s2);
    ClearKeepsRest(s2, 0);
    AllCompletions(s2, 0);
    assert ClearFrom(s2, 0).queued == seq(TABLES, _ => false)[4 := true];
  }

  /** Handling one of the announcements takes the peer back to Idle. */
  lemma GoesDownEarly(s: Session)
    requires Shaped(s) && s.status == Established && s.pending == []
    requires s.routes == seq(TABLES, _ => 0) && s.queued == seq(TABLES, _ => false)
    ensures var t := Perform(s, DOWN);
            && t.Some?
            && t.value.status == Idle && t.value.pending == []
            && t.value.established == s.established && t.value.dropped == s.dropped + 1
            && t.value.routes == seq(TABLES, _ => 0)[4 := 1] && t.value.queued == seq(TABLES, _ => false)[4 := true]
  {
    var s1 := Do(s, Learn(4, true), ENV);
    PerformOne(s, Learn(4, true), One(Receive(Stop)) + (One(Deliver(0)) + One(Deliver(0))));
    StopsEarly(s1);
  }

  lemma StopsEarly(s: Session)
    requires Shaped(s) && s.status == Established && s.pending == []
    requires s.routes == seq(TABLES, _ => 0)[4 := 1] && s.queued == seq(TABLES, _ => false)
    ensures var t := Perform(s, One(Receive(Stop)) + (One(Deliver(0)) + One(Deliver(0))));
            && t.Some?
            && t.value.status == Idle && t.value.pending == []
            && t.value.established == s.established && t.value.dropped == s.dropped + 1
            && t.value.routes == s.routes && t.value.queued == seq(TABLES, _ => false)[4 := true]
  {
    ReceiveAndDeliver(s, Stop, One(Deliver(0)));
    ClearsEarly(s);
    var s3 := Occur(s, Stop, ENV);
    FirstIsCompletion(s3);
    PerformLast(s3, Deliver(0));
  }

  /** Clearing adds nothing but completions. */
  lemma {:induction false} AllCompletions(s: Session, i: nat)
    requires i <= |s.routes| == |s.queued| == |s.unqueued| && forall e :: e in s.pending ==> e == ClearingCompleted
    ensures forall e :: e in ClearFrom(s, i).pending ==> e == ClearingCompleted
    decreases |s.routes| - i
  {
    if i < |s.routes| {
      AllCompletions(ClearRoute(s, i), i + 1);
    }
  }

  lemma FirstIsCompletion(s: Session)
    requires Shaped(s) && s.status == Clearing && Completing(s) && forall e :: e in s.pending ==> e == ClearingCompleted
    ensures |s.pending| > 0
    ensures var t := Do(s, Deliver(0), ENV);
            && t.status == Idle && t.pending == [] && t.routes == s.routes && t.queued == s.queued
            && t.established == s.established && t.dropped == s.dropped
  {
    assert s.pending[0] in s.pending;
  }

  lemma CompletesInEstablished(s: Session)
    requires Shaped(s) && s.status == Established && s.pending == [] && Queueing(s)
    ensures var t := Perform(s, FINISH);
            t.Some? && t.value.status == Idle && t.value.established == s.established && t.value.dropped == s.dropped
  {
    var s1 := Do(s, FinishQueue, ENV);
    PerformOne(s, FinishQueue, One(Deliver(0)));
    assert s1.pending == [ClearingCompleted];
    PerformLast(s1, Deliver(0));
  }

  /** A session comes up while routes of the last one are still there; and the late
      completion then ends it without counting it as dropped. */
  lemma EarlyCompletionRun()
    ensures Initial(NEW)
    ensures var t := Perform(NEW, UP + DOWN + UP);
            t.Some? && t.value.status == Established && t.value.established == 2 && !NoRoutes(t.value)
    ensures var t := Perform(NEW, UP + DOWN + UP + FINISH);
            t.Some? && t.value.status == Idle && t.value.established == 2 && t.value.dropped == 1
  {
    ComesUp(NEW);
    var s1 := Perform(NEW, UP).value;
    GoesDownEarly(s1);
    PerformConcat(NEW, UP, DOWN);
    var s2 := Perform(NEW, UP + DOWN).value;
    ComesUp(s2);
    PerformConcat(NEW, UP + DOWN, UP);
    var s3 := Perform(NEW, UP + DOWN + UP).value;
    assert s3.routes[4] == 1 && s3.queued[4];
    CompletesInEstablished(s3);
    PerformConcat(NEW, UP + DOWN + UP, FINISH);
  }
}
