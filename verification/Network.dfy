/** A network of Babel daemons exchanging updates for one destination, possibly
    originated by several routers.  Messages may be lost, duplicated and
    reordered without bound.  Every daemon step is a function of module
    Selection, that is, the code's own decision. */
module Network {
  import opened Basics
  import opened Seqno
  import opened Selection

  /** A node's number is its router-id and its address as a neighbour. */
  type NodeId = nat

  datatype Node = Node(sources: Sources, slot: Slot, myseqno: u16)

  datatype Message = Message(sender: NodeId, nexthop: nat, id: nat, seqno: u16, metric: u16)

  datatype Net = Net(dest: Key, nodes: map<NodeId, Node>, messages: set<Message>)

  datatype Step =
    | Originate(n: NodeId, nexthop: nat, metric: u16)
    | NewSeqno(n: NodeId)
    | Advertise(n: NodeId, nexthop: nat, outMetric: nat, now: int)
    | Deliver(n: NodeId, env: Env, m: Message, ifindex: nat, interval: u16, cost: nat, addMetric: u16)
    | Lose(m: Message)
    | Flush(n: NodeId, env: Env, k: nat)
    | Refresh(n: NodeId, env: Env, k: nat, cost: nat, addMetric: u16)
    | Retract(n: NodeId, env: Env, k: nat)
    | Export(n: NodeId)

  // ----- one step -----

  predicate KnownAt(net: Net, n: NodeId) {
    n in net.nodes && Known(net.nodes[n].sources, net.nodes[n].slot)
  }

  predicate Enabled(net: Net, step: Step) {
    match step
    case Originate(n, _, _) => n in net.nodes
    case NewSeqno(n) => n in net.nodes
    case Advertise(n, _, _, _) => KnownAt(net, n) && HasInstalled(net.nodes[n].slot)
    case Deliver(n, _, m, _, _, cost, _) => KnownAt(net, n) && m in net.messages && Cut(cost) >= 1
    case Lose(m) => m in net.messages
    case Flush(n, _, k) => KnownAt(net, n) && k < |net.nodes[n].slot|
    case Refresh(n, _, k, cost, _) => KnownAt(net, n) && k < |net.nodes[n].slot| && Cut(cost) >= 1
    case Retract(n, _, k) => KnownAt(net, n) && k < |net.nodes[n].slot|
    case Export(n) => n in net.nodes
  }

  function With(net: Net, n: NodeId, node: Node): Net {
    net.(nodes := net.nodes[n := node])
  }

  function Send(net: Net, m: Message): Net {
    net.(messages := net.messages + {m})
  }

  /** The route branch of flushupdates: send the installed route, lower the
      feasibility distance. */
  function Advertised(net: Net, n: NodeId, nexthop: nat, outMetric: nat, now: int): Net
    requires KnownAt(net, n) && HasInstalled(net.nodes[n].slot)
  {
    var node, r := net.nodes[n], net.nodes[n].slot[0];
    var source := UpdateSource(node.sources[r.src], r.seqno, Metric(r), now);
    Send(With(net, n, node.(sources := node.sources[r.src := source])),
         Message(n, nexthop, r.src.id, r.seqno, Min(Metric(r) + outMetric, INFINITY)))
  }

  /** update_route on a received message. */
  function Received(node: Node, n: NodeId, dest: Key, env: Env, u: Update): Node
    requires Known(node.sources, node.slot)
  {
    if u.id == n || u.addMetric >= INFINITY then node
    else
      var sid := SourceId(u.id, dest);
      var sources := EnsureSource(node.sources, sid, u.seqno, env.now);
      node.(sources := sources, slot := SlotAfterUpdate(env, sources, node.slot, sid, u))
  }

  function AsUpdate(m: Message, ifindex: nat, interval: u16, cost: nat, addMetric: u16): Update {
    Update(m.id, m.seqno, m.metric, interval, Neigh(m.sender, ifindex), m.nexthop, cost, addMetric)
  }

  function Next(net: Net, step: Step): Net
    requires Enabled(net, step)
  {
    match step
    case Originate(n, nexthop, metric) =>
      Send(net, Message(n, nexthop, n, net.nodes[n].myseqno, metric))
    case NewSeqno(n) =>
      With(net, n, net.nodes[n].(myseqno := Plus(net.nodes[n].myseqno, 1)))
    case Advertise(n, nexthop, outMetric, now) =>
      Advertised(net, n, nexthop, outMetric, now)
    case Deliver(n, env, m, ifindex, interval, cost, addMetric) =>
      With(net, n, Received(net.nodes[n], n, net.dest, env, AsUpdate(m, ifindex, interval, cost, addMetric)))
    case Lose(m) =>
      net.(messages := net.messages - {m})
    case Flush(n, env, k) =>
      var node := net.nodes[n];
      With(net, n, node.(slot := Flushed(env, node.sources, node.slot, k)))
    case Refresh(n, env, k, cost, addMetric) =>
      var node := net.nodes[n];
      With(net, n, node.(slot := RefreshMetric(env, node.sources, node.slot, k, cost, addMetric)))
    case Retract(n, env, k) =>
      var node := net.nodes[n];
      With(net, n, node.(slot := RetractAt(env, node.sources, node.slot, k)))
    case Export(n) =>
      With(net, n, net.nodes[n].(slot := Demoted(net.nodes[n].slot)))
  }

  // ----- distances -----

  predicate Closer(s1: u16, m1: u16, s2: u16, m2: u16) {
    Compare(s1, s2) > 0 || (s1 == s2 && m1 < m2)
  }

  predicate NoFarther(s1: u16, m1: u16, s2: u16, m2: u16) {
    Compare(s1, s2) > 0 || (s1 == s2 && m1 <= m2)
  }

  lemma CloserTransitive(base: u16, s1: u16, m1: u16, s2: u16, m2: u16, s3: u16, m3: u16)
    requires InWindow(base, s1) && InWindow(base, s2) && InWindow(base, s3)
    ensures Closer(s1, m1, s2, m2) && NoFarther(s2, m2, s3, m3) ==> Closer(s1, m1, s3, m3)
    ensures NoFarther(s1, m1, s2, m2) && Closer(s2, m2, s3, m3) ==> Closer(s1, m1, s3, m3)
    ensures NoFarther(s1, m1, s2, m2) && NoFarther(s2, m2, s3, m3) ==> NoFarther(s1, m1, s3, m3)
    ensures !Closer(s1, m1, s1, m1)
  {
    CompareInWindow(base, s1, s2);
    CompareInWindow(base, s2, s3);
    CompareInWindow(base, s1, s3);
  }

  /** The distance over a run: UpdateSource never makes it worse, and what was
      just advertised is no longer feasible at an equal or larger metric. */
  lemma UpdateSourceImproves(s: Source, seqno: u16, metric: u16, now: int)
    requires !Stale(s, now)
    ensures var t := UpdateSource(s, seqno, metric, now);
            && NoFarther(t.seqno, t.metric, s.seqno, s.metric)
            && (metric < INFINITY ==> NoFarther(t.seqno, t.metric, seqno, metric))
            && ((t.seqno == s.seqno && t.metric == s.metric) || (t.seqno == seqno && t.metric == metric))
            && !Stale(t, now)
  {
  }

  /** The feasibility condition in integers: on any window of sequence numbers
      narrower than 2^15, an update is feasible exactly if it is a retraction, the
      source has been idle for more than 200 seconds, or the update is closer. */
  lemma FeasibleIff(base: u16, s: Source, seqno: u16, refmetric: u16, now: int)
    requires InWindow(base, s.seqno) && InWindow(base, seqno)
    ensures Feasible(s, seqno, refmetric, now) <==>
            || refmetric == 0xFFFF || now - s.time > 200
            || Offset(base, seqno) > Offset(base, s.seqno)
            || (Offset(base, seqno) == Offset(base, s.seqno) && refmetric < s.metric)
  {
    CompareInWindow(base, seqno, s.seqno);
  }

  /** An idle source does not constrain anything, and starts afresh. */
  lemma IdleSourceIsForgotten(s: Source, seqno: u16, metric: u16, now: int)
    requires now - s.time > 200
    ensures Feasible(s, seqno, metric, now)
    ensures metric < 0xFFFF ==> UpdateSource(s, seqno, metric, now) == s.(seqno := seqno, metric := metric, time := now)
  {
  }

  // ----- the feasibility distance over a run of advertisements -----

  datatype Advert = Advert(seqno: u16, metric: u16, now: int)

  function AfterAdverts(s: Source, ads: seq<Advert>): Source {
    if ads == [] then s
    else
      var last := ads[|ads| - 1];
      UpdateSource(AfterAdverts(s, ads[..|ads| - 1]), last.seqno, last.metric, last.now)
  }

  /** The sequence numbers fit a window and the source never goes stale. */
  ghost predicate OrderlyAdverts(base: u16, s: Source, ads: seq<Advert>) {
    && InWindow(base, s.seqno)
    && (forall i :: 0 <= i < |ads| ==> InWindow(base, ads[i].seqno))
    && (forall i :: 0 <= i < |ads| ==> !Stale(AfterAdverts(s, ads[..i]), ads[i].now))
  }

  lemma {:induction false} AdvertsStayInWindow(base: u16, s: Source, ads: seq<Advert>)
    requires OrderlyAdverts(base, s, ads)
    ensures InWindow(base, AfterAdverts(s, ads).seqno)
  {
    if ads != [] {
      assert forall i :: 0 <= i < |ads| - 1 ==> ads[..|ads| - 1][..i] == ads[..i];
      AdvertsStayInWindow(base, s, ads[..|ads| - 1]);
    }
  }

  lemma OrderlyPrefix(base: u16, s: Source, ads: seq<Advert>, i: nat)
    requires OrderlyAdverts(base, s, ads) && i <= |ads|
    ensures OrderlyAdverts(base, s, ads[..i]) && InWindow(base, AfterAdverts(s, ads[..i]).seqno)
  {
    assert forall j :: 0 <= j < i ==> ads[..i][..j] == ads[..j];
    AdvertsStayInWindow(base, s, ads[..i]);
  }

  /** The distance never gets worse, and it stays at least as good as everything
      ever advertised with a finite metric. */
  lemma {:induction false} DistanceNeverWorse(base: u16, s: Source, ads: seq<Advert>, i: nat)
    requires OrderlyAdverts(base, s, ads) && i <= |ads|
    ensures var t, p := AfterAdverts(s, ads), AfterAdverts(s, ads[..i]);
            NoFarther(t.seqno, t.metric, p.seqno, p.metric)
    ensures var t := AfterAdverts(s, ads);
            i < |ads| && ads[i].metric < INFINITY ==> NoFarther(t.seqno, t.metric, ads[i].seqno, ads[i].metric)
  {
    if i == |ads| {
      assert ads[..i] == ads;
    } else {
      var init, last := ads[..|ads| - 1], ads[|ads| - 1];
      OrderlyPrefix(base, s, ads, |ads| - 1);
      assert init[..i] == ads[..i];
      DistanceNeverWorse(base, s, init, i);
      var q, t := AfterAdverts(s, init), AfterAdverts(s, ads);
      assert ads[..|ads| - 1] == init && !Stale(q, last.now);
      UpdateSourceImproves(q, last.seqno, last.metric, last.now);
      AdvertsStayInWindow(base, s, ads);
      var p := AfterAdverts(s, ads[..i]);
      OrderlyPrefix(base, s, ads, i);
      CloserTransitive(base, t.seqno, t.metric, q.seqno, q.metric, p.seqno, p.metric);
      CloserTransitive(base, t.seqno, t.metric, q.seqno, q.metric, ads[i].seqno, ads[i].metric);
    }
  }

  /** After advertising (seqno, metric), the same seqno at an equal or larger
      finite metric is unfeasible; except when the source stood exactly half way
      round the circle, where each of the two numbers counts as newer. */
  lemma AdvertisedIsUnfeasibleIff(s: Source, seqno: u16, metric: u16, now: int)
    requires !Stale(s, now) && metric < INFINITY
    ensures (seqno - s.seqno) % 0x10000 != 0x8000 <==>
            forall m: u16 :: metric <= m < INFINITY ==> !Feasible(UpdateSource(s, seqno, metric, now), seqno, m, now)
  {
    var t := UpdateSource(s, seqno, metric, now);
    CompareAntisymmetricIff(seqno, s.seqno);
    if (seqno - s.seqno) % 0x10000 == 0x8000 {
      assert Feasible(t, seqno, metric, now);
    }
  }
}
