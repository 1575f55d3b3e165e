/** Loop freedom: over every run, following installed next hops of one source
    never returns to where it started. */
module LoopFreedom {
  import opened Basics
  import opened Seqno
  import opened Selection
  import opened SelectionProps
  import opened Network

  // ----- the hypotheses of a run, all of them about one source -----

  /** The sequence numbers of the source that are compared with each other lie in
      one half of the circle. */
  ghost predicate Window(net: Net, sid: SourceId, base: u16) {
    && (forall n :: n in net.nodes && sid in net.nodes[n].sources ==> InWindow(base, net.nodes[n].sources[sid].seqno))
    && (forall n, i ::
          && n in net.nodes && 0 <= i < |net.nodes[n].slot|
          && net.nodes[n].slot[i].src == sid && net.nodes[n].slot[i].refmetric < INFINITY ==>
            InWindow(base, net.nodes[n].slot[i].seqno))
    && (forall m :: m in net.messages && m.metric < INFINITY && SourceId(m.id, net.dest) == sid ==>
          InWindow(base, m.seqno))
  }

  ghost predicate HasWindow(net: Net, sid: SourceId) {
    exists base :: Window(net, sid, base)
  }

  predicate FreshAt(node: Node, sid: SourceId, now: int) {
    sid in node.sources ==> !Stale(node.sources[sid], now)
  }

  /** The source has not gone stale where the step takes a decision. */
  predicate FreshStep(net: Net, step: Step, sid: SourceId)
    requires Enabled(net, step)
  {
    match step
    case Advertise(n, _, _, now) => FreshAt(net.nodes[n], sid, now)
    case Deliver(n, env, _, _, _, _, _) => FreshAt(net.nodes[n], sid, env.now)
    case Flush(n, env, _) => FreshAt(net.nodes[n], sid, env.now)
    case Refresh(n, env, _, _, _) => FreshAt(net.nodes[n], sid, env.now)
    case Retract(n, env, _) => FreshAt(net.nodes[n], sid, env.now)
    case _ => true
  }

  function TimeOf(step: Step): int {
    match step
    case Advertise(_, _, _, now) => now
    case Deliver(_, env, _, _, _, _, _) => env.now
    case Flush(_, env, _) => env.now
    case Refresh(_, env, _, _, _) => env.now
    case Retract(_, env, _) => env.now
    case _ => 0
  }

  /** Route q is a finite and feasible claim of r's neighbour about r's source. */
  predicate Supports(sources: Sources, q: Route, r: Route, now: int) {
    && q.src == r.src && q.neigh.address == r.neigh.address && q.refmetric < INFINITY
    && q.src in sources && RouteFeasible(sources, q, now)
  }

  /** A feasible route says something about its neighbour: its metric is finite,
      or the neighbour is the origin, or another route through it speaks for it. */
  predicate Backed(sources: Sources, slot: Slot, r: Route, now: int) {
    || r.refmetric < INFINITY
    || r.neigh.address == r.src.id
    || exists j :: 0 <= j < |slot| && Supports(sources, slot[j], r, now)
  }

  /** A route of the source is installed, or stays installed under this source for
      the first time, and is a mere retraction: the case consider_route lets
      through when nothing is installed. */
  predicate InstallsUnbacked(before: Slot, after: Node, sid: SourceId, now: int) {
    && HasInstalled(after.slot) && after.slot[0].src == sid && !Inherited(before, after.slot)
    && !Backed(after.sources, after.slot, after.slot[0], now)
  }

  predicate Careful(net: Net, step: Step, sid: SourceId)
    requires Enabled(net, step)
  {
    var after := Next(net, step);
    forall n :: n in net.nodes && n in after.nodes ==>
      !InstallsUnbacked(net.nodes[n].slot, after.nodes[n], sid, TimeOf(step))
  }

  predicate Initial(net: Net) {
    net.messages == {} && forall n :: n in net.nodes ==> net.nodes[n].slot == [] && net.nodes[n].sources == map[]
  }

  /** states[i + 1] is states[i] after steps[i]. */
  ghost predicate IsRun(states: seq<Net>, steps: seq<Step>) {
    && |states| == |steps| + 1
    && Initial(states[0])
    && forall i :: 0 <= i < |steps| ==>
         Enabled(states[i], steps[i]) && states[i + 1] == Next(states[i], steps[i])
  }

  /** In every state the source has a window, and it is fresh in every decision. */
  ghost predicate OrderlyRun(states: seq<Net>, steps: seq<Step>, sid: SourceId) {
    && IsRun(states, steps)
    && (forall i :: 0 <= i < |states| ==> HasWindow(states[i], sid))
    && (forall i :: 0 <= i < |steps| ==> FreshStep(states[i], steps[i], sid))
  }

  ghost predicate CarefulRun(states: seq<Net>, steps: seq<Step>, sid: SourceId) {
    && OrderlyRun(states, steps, sid)
    && (forall i :: 0 <= i < |steps| ==> Careful(states[i], steps[i], sid))
  }

  // ----- the invariant -----

  /** Node b stands behind the claim (seqno, metric) for source sid: it is the
      origin, or its own feasibility distance is at least as good. */
  predicate Vouched(net: Net, b: NodeId, sid: SourceId, seqno: u16, metric: u16) {
    || b == sid.id
    || (&& b in net.nodes && sid in net.nodes[b].sources
        && NoFarther(net.nodes[b].sources[sid].seqno, net.nodes[b].sources[sid].metric, seqno, metric))
  }

  /** Node b is the origin of sid or strictly closer to it than (seqno, metric). */
  predicate Ahead(net: Net, b: NodeId, sid: SourceId, seqno: u16, metric: u16) {
    || b == sid.id
    || (&& b in net.nodes && sid in net.nodes[b].sources
        && Closer(net.nodes[b].sources[sid].seqno, net.nodes[b].sources[sid].metric, seqno, metric))
  }

  /** A node's routes come from other routers, over links of positive cost. */
  predicate Outside(n: NodeId, slot: Slot) {
    forall i :: 0 <= i < |slot| ==> slot[i].src.id != n && slot[i].cost >= 1
  }

  predicate GoodNode(net: Net, n: NodeId)
    requires n in net.nodes
  {
    var node := net.nodes[n];
    && ValidSlot(net.dest, node.sources, node.slot)
    && Outside(n, node.slot)
  }

  predicate RouteVouched(net: Net, sid: SourceId, r: Route) {
    r.src == sid && r.refmetric < INFINITY ==> Vouched(net, r.neigh.address, sid, r.seqno, r.refmetric)
  }

  predicate NodeVouched(net: Net, sid: SourceId, n: NodeId)
    requires n in net.nodes
  {
    forall i :: 0 <= i < |net.nodes[n].slot| ==> RouteVouched(net, sid, net.nodes[n].slot[i])
  }

  predicate SuccessorAhead(net: Net, sid: SourceId, n: NodeId)
    requires n in net.nodes
  {
    var node := net.nodes[n];
    HasInstalled(node.slot) && node.slot[0].src == sid && sid in node.sources ==>
      Ahead(net, node.slot[0].neigh.address, sid, node.sources[sid].seqno, node.sources[sid].metric)
  }

  predicate MessageVouched(net: Net, sid: SourceId, m: Message) {
    SourceId(m.id, net.dest) == sid && m.metric < INFINITY ==> Vouched(net, m.sender, sid, m.seqno, m.metric)
  }

  ghost predicate Inv(net: Net, sid: SourceId) {
    && (forall n :: n in net.nodes ==> GoodNode(net, n))
    && (forall n :: n in net.nodes ==> NodeVouched(net, sid, n))
    && (forall n :: n in net.nodes ==> SuccessorAhead(net, sid, n))
    && (forall m :: m in net.messages ==> MessageVouched(net, sid, m))
  }

  // ----- steps that leave feasibility distances alone -----

  /** Distances known before are the same after. */
  predicate SameDistances(net: Net, after: Net) {
    && net.dest == after.dest
    && net.nodes.Keys <= after.nodes.Keys
    && forall n :: n in net.nodes ==> Extends(net.nodes[n].sources, after.nodes[n].sources)
  }

  predicate Extends(sources: Sources, after: Sources) {
    forall sid :: sid in sources ==> sid in after && after[sid] == sources[sid]
  }

  lemma StillVouched(net: Net, after: Net, b: NodeId, sid: SourceId, seqno: u16, metric: u16)
    requires SameDistances(net, after)
    ensures Vouched(net, b, sid, seqno, metric) ==> Vouched(after, b, sid, seqno, metric)
    ensures Ahead(net, b, sid, seqno, metric) ==> Ahead(after, b, sid, seqno, metric)
  {
  }

  lemma OthersKeep(net: Net, after: Net, sid: SourceId, n: NodeId)
    requires Inv(net, sid) && SameDistances(net, after)
    requires n in net.nodes && after.nodes[n] == net.nodes[n]
    ensures GoodNode(after, n) && NodeVouched(after, sid, n) && SuccessorAhead(after, sid, n)
  {
    assert GoodNode(net, n) && NodeVouched(net, sid, n) && SuccessorAhead(net, sid, n);
    forall i | 0 <= i < |net.nodes[n].slot| ensures RouteVouched(after, sid, net.nodes[n].slot[i]) {
      assert RouteVouched(net, sid, net.nodes[n].slot[i]);
    }
  }

  lemma MessagesKeep(net: Net, after: Net, sid: SourceId, m: Message)
    requires Inv(net, sid) && SameDistances(net, after) && m in net.messages
    ensures MessageVouched(after, sid, m)
  {
  }

  /** What a slot step has to deliver at its own node: valid, positive costs,
      only vouched claims, and a soundly installed head. */
  ghost predicate SlotStep(net: Net, sid: SourceId, n: NodeId, after: Node, now: int)
    requires n in net.nodes
  {
    && ValidSlot(net.dest, after.sources, after.slot)
    && Extends(net.nodes[n].sources, after.sources)
    && (HasInstalled(after.slot) ==> FreshAt(after, sid, now))
    && Outside(n, after.slot)
    && (forall i :: 0 <= i < |after.slot| ==> RouteVouched(net, sid, after.slot[i]))
    && SoundInstall(after.sources, now, net.nodes[n].slot, after.slot)
    && !InstallsUnbacked(net.nodes[n].slot, after, sid, now)
  }

  lemma WithSameDistances(net: Net, n: NodeId, node: Node)
    requires n in net.nodes && Extends(net.nodes[n].sources, node.sources)
    ensures SameDistances(net, With(net, n, node))
  {
  }

  /** The heart of the argument: a finite feasible claim of b is better than n's
      own distance, and b's distance is no worse than its claim. */
  lemma ClaimantIsAhead(net: Net, sid: SourceId, n: NodeId, base: u16, now: int, q: Route)
    requires n in net.nodes && Window(net, sid, base) && sid in net.nodes[n].sources && FreshAt(net.nodes[n], sid, now)
    requires q.src == sid && q.refmetric < INFINITY && InWindow(base, q.seqno)
    requires RouteVouched(net, sid, q) && RouteFeasible(net.nodes[n].sources, q, now)
    ensures var s := net.nodes[n].sources[sid]; Ahead(net, q.neigh.address, sid, s.seqno, s.metric)
  {
    var s, b := net.nodes[n].sources[sid], q.neigh.address;
    if b != sid.id {
      var t := net.nodes[b].sources[sid];
      CloserTransitive(base, t.seqno, t.metric, q.seqno, q.refmetric, s.seqno, s.metric);
    }
  }

  lemma InstalledIsAhead(net: Net, sid: SourceId, n: NodeId, base: u16, now: int)
    requires n in net.nodes && HasInstalled(net.nodes[n].slot) && net.nodes[n].slot[0].src == sid
    requires Window(net, sid, base) && KnownAt(net, n) && FreshAt(net.nodes[n], sid, now) && NodeVouched(net, sid, n)
    requires var node := net.nodes[n];
             RouteFeasible(node.sources, node.slot[0], now) && Backed(node.sources, node.slot, node.slot[0], now)
    ensures SuccessorAhead(net, sid, n)
  {
    var node := net.nodes[n];
    var r := node.slot[0];
    if r.refmetric < INFINITY {
      ClaimantIsAhead(net, sid, n, base, now, r);
    } else if r.neigh.address != sid.id {
      var j :| 0 <= j < |node.slot| && Supports(node.sources, node.slot[j], r, now);
      ClaimantIsAhead(net, sid, n, base, now, node.slot[j]);
    }
  }

  lemma SlotStepKeepsInv(net: Net, sid: SourceId, n: NodeId, node: Node, now: int)
    requires Inv(net, sid) && n in net.nodes && SlotStep(net, sid, n, node, now)
    requires HasWindow(With(net, n, node), sid)
    ensures Inv(With(net, n, node), sid)
  {
    var after := With(net, n, node);
    WithSameDistances(net, n, node);
    forall p | p in after.nodes && p != n
      ensures GoodNode(after, p) && NodeVouched(after, sid, p) && SuccessorAhead(after, sid, p)
    {
      OthersKeep(net, after, sid, p);
    }
    forall m | m in after.messages ensures MessageVouched(after, sid, m) {
      MessagesKeep(net, after, sid, m);
    }
    forall i | 0 <= i < |node.slot| ensures RouteVouched(after, sid, node.slot[i]) {
      assert RouteVouched(net, sid, node.slot[i]);
    }
    if HasInstalled(node.slot) && node.slot[0].src == sid {
      if Inherited(net.nodes[n].slot, node.slot) {
        assert GoodNode(net, n) && SuccessorAhead(net, sid, n) && node.sources[sid] == net.nodes[n].sources[sid];
      } else {
        var base :| Window(after, sid, base);
        InstalledIsAhead(after, sid, n, base, now);
      }
    }
  }

  // ----- each kind of step -----

  lemma ClaimsVouched(net: Net, sid: SourceId, before: Slot, after: Slot, r: Route)
    requires OneNewClaim(before, after, r) && RouteVouched(net, sid, r)
    requires forall j :: 0 <= j < |before| ==> RouteVouched(net, sid, before[j])
    ensures forall i :: 0 <= i < |after| ==> RouteVouched(net, sid, after[i])
  {
  }

  lemma OutsideByBag(n: NodeId, before: Slot, after: Slot, r: Route)
    requires Outside(n, before) && r.src.id != n && r.cost >= 1
    requires Bag(after) <= Bag(before) + multiset{Erase(r)}
    ensures Outside(n, after)
  {
    forall i | 0 <= i < |after| ensures after[i].src.id != n && after[i].cost >= 1 {
      assert Erased(after)[i] in Bag(after);
      if Erased(after)[i] != Erase(r) {
        assert Erased(after)[i] in Bag(before);
        var j :| 0 <= j < |Erased(before)| && Erased(before)[j] == Erased(after)[i];
        assert Erase(before[j]) == Erase(after[i]);
      }
    }
  }

  lemma ReplacementIsSlotStep(net: Net, sid: SourceId, n: NodeId, after: Node, k: nat, r: Route, now: int)
    requires Inv(net, sid) && n in net.nodes && k < |net.nodes[n].slot|
    requires Extends(net.nodes[n].sources, after.sources) && FreshAt(after, sid, now)
    requires Replacement(net.dest, after.sources, now, net.nodes[n].slot, k, r, after.slot)
    requires r.src.id != n && r.cost >= 1 && RouteVouched(net, sid, r)
    requires !InstallsUnbacked(net.nodes[n].slot, after, sid, now)
    ensures SlotStep(net, sid, n, after, now)
  {
    assert GoodNode(net, n) && NodeVouched(net, sid, n);
    OutsideByBag(n, net.nodes[n].slot, after.slot, r);
    ClaimsVouched(net, sid, net.nodes[n].slot, after.slot, r);
  }

  /** The step is orderly and careful, and so is the state it leads to. */
  ghost predicate GoodStep(net: Net, step: Step, sid: SourceId) {
    && Enabled(net, step) && FreshStep(net, step, sid) && Careful(net, step, sid)
    && HasWindow(net, sid) && HasWindow(Next(net, step), sid)
  }

  lemma FlushKeepsInv(net: Net, sid: SourceId, n: NodeId, env: Env, k: nat)
    requires Inv(net, sid) && GoodStep(net, Flush(n, env, k), sid)
    ensures Inv(Next(net, Flush(n, env, k)), sid)
  {
    var node := net.nodes[n];
    assert GoodNode(net, n) && NodeVouched(net, sid, n);
    FlushedKeeps(net.dest, env, node.sources, node.slot, k);
    var slot := Flushed(env, node.sources, node.slot, k);
    OutsideByBag(n, node.slot, slot, node.slot[k]);
    ClaimsVouched(net, sid, node.slot, slot, node.slot[k]);
    SlotStepKeepsInv(net, sid, n, node.(slot := slot), env.now);
  }

  lemma RefreshKeepsInv(net: Net, sid: SourceId, n: NodeId, env: Env, k: nat, cost: nat, addMetric: u16)
    requires Inv(net, sid) && GoodStep(net, Refresh(n, env, k, cost, addMetric), sid)
    ensures Inv(Next(net, Refresh(n, env, k, cost, addMetric)), sid)
  {
    var node := net.nodes[n];
    assert GoodNode(net, n) && NodeVouched(net, sid, n);
    RefreshMetricReplaces(net.dest, env, node.sources, node.slot, k, cost, addMetric);
    var r := Refreshed(env, node.sources, node.slot[k], cost, addMetric);
    assert RouteVouched(net, sid, node.slot[k]);
    var after := node.(slot := RefreshMetric(env, node.sources, node.slot, k, cost, addMetric));
    ReplacementIsSlotStep(net, sid, n, after, k, r, env.now);
    SlotStepKeepsInv(net, sid, n, after, env.now);
  }

  lemma RetractKeepsInv(net: Net, sid: SourceId, n: NodeId, env: Env, k: nat)
    requires Inv(net, sid) && GoodStep(net, Retract(n, env, k), sid)
    ensures Inv(Next(net, Retract(n, env, k)), sid)
  {
    var node := net.nodes[n];
    assert GoodNode(net, n) && NodeVouched(net, sid, n);
    RetractAtReplaces(net.dest, env, node.sources, node.slot, k);
    var r := if node.slot[k].refmetric == INFINITY then node.slot[k] else Retracted(node.slot[k]);
    assert RouteVouched(net, sid, node.slot[k]);
    var after := node.(slot := RetractAt(env, node.sources, node.slot, k));
    ReplacementIsSlotStep(net, sid, n, after, k, r, env.now);
    SlotStepKeepsInv(net, sid, n, after, env.now);
  }

  lemma DemotedIsSlotStep(net: Net, sid: SourceId, n: NodeId)
    requires Inv(net, sid) && n in net.nodes
    ensures SlotStep(net, sid, n, net.nodes[n].(slot := Demoted(net.nodes[n].slot)), 0)
  {
    var node := net.nodes[n];
    assert GoodNode(net, n) && NodeVouched(net, sid, n);
    var slot := Demoted(node.slot);
    assert forall i :: 0 <= i < |slot| ==> Erase(slot[i]) == Erase(node.slot[i]);
    assert ViaUnique(slot) by {
      forall i, j | 0 <= i < j < |slot| ensures !SameVia(slot[i], slot[j].neigh, slot[j].nexthop) {
        assert Erase(slot[i]) == Erase(node.slot[i]) && Erase(slot[j]) == Erase(node.slot[j]);
        assert !SameVia(node.slot[i], node.slot[j].neigh, node.slot[j].nexthop);
      }
    }
    forall i | 0 <= i < |slot| ensures RouteVouched(net, sid, slot[i]) {
      assert Erase(slot[i]) == Erase(node.slot[i]) && RouteVouched(net, sid, node.slot[i]);
    }
  }

  lemma ExportKeepsInv(net: Net, sid: SourceId, n: NodeId)
    requires Inv(net, sid) && n in net.nodes && HasWindow(Next(net, Export(n)), sid)
    ensures Inv(Next(net, Export(n)), sid)
  {
    DemotedIsSlotStep(net, sid, n);
    SlotStepKeepsInv(net, sid, n, net.nodes[n].(slot := Demoted(net.nodes[n].slot)), 0);
  }

  /** An update that says what the message said. */
  predicate Carries(u: Update, m: Message) {
    u.id == m.id && u.seqno == m.seqno && u.refmetric == m.metric && u.neigh.address == m.sender && Cut(u.cost) >= 1
  }

  lemma KnownAfterEnsure(net: Net, sid: SourceId, n: NodeId, about: SourceId, seqno: u16, now: int)
    requires n in net.nodes && GoodNode(net, n) && FreshAt(net.nodes[n], sid, now)
    ensures var node := net.nodes[n].(sources := EnsureSource(net.nodes[n].sources, about, seqno, now));
            && ValidSlot(net.dest, node.sources, node.slot) && FreshAt(node, sid, now)
            && Extends(net.nodes[n].sources, node.sources)
  {
  }

  lemma ExistingIsSlotStep(net: Net, sid: SourceId, n: NodeId, env: Env, sources: Sources, u: Update, m: Message,
                           k: nat)
    requires Inv(net, sid) && n in net.nodes && m in net.messages && Carries(u, m) && u.id != n
    requires Extends(net.nodes[n].sources, sources) && ValidSlot(net.dest, sources, net.nodes[n].slot)
    requires SourceId(u.id, net.dest) in sources && FreshAt(net.nodes[n].(sources := sources), sid, env.now)
    requires k == FindVia(net.nodes[n].slot, u.neigh, u.nexthop) < |net.nodes[n].slot|
    requires var slot := UpdateExisting(env, sources, net.nodes[n].slot, k, SourceId(u.id, net.dest), u);
             !InstallsUnbacked(net.nodes[n].slot, net.nodes[n].(sources := sources, slot := slot), sid, env.now)
    ensures var slot := UpdateExisting(env, sources, net.nodes[n].slot, k, SourceId(u.id, net.dest), u);
            SlotStep(net, sid, n, net.nodes[n].(sources := sources, slot := slot), env.now)
  {
    var node, about := net.nodes[n], SourceId(u.id, net.dest);
    assert MessageVouched(net, sid, m);
    UpdateExistingReplaces(net.dest, env, sources, node.slot, k, about, u);
    var after := node.(sources := sources, slot := UpdateExisting(env, sources, node.slot, k, about, u));
    ReplacementIsSlotStep(net, sid, n, after, k, Revised(env, sources[about], node.slot[k], about, u), env.now);
  }

  lemma NewIsSlotStep(net: Net, sid: SourceId, n: NodeId, env: Env, sources: Sources, u: Update, m: Message)
    requires Inv(net, sid) && n in net.nodes && m in net.messages && Carries(u, m) && u.id != n
    requires Extends(net.nodes[n].sources, sources) && ValidSlot(net.dest, sources, net.nodes[n].slot)
    requires SourceId(u.id, net.dest) in sources && FreshAt(net.nodes[n].(sources := sources), sid, env.now)
    requires FindVia(net.nodes[n].slot, u.neigh, u.nexthop) == |net.nodes[n].slot|
    requires var slot := InsertNew(env, sources, net.nodes[n].slot, SourceId(u.id, net.dest), u);
             !InstallsUnbacked(net.nodes[n].slot, net.nodes[n].(sources := sources, slot := slot), sid, env.now)
    ensures var slot := InsertNew(env, sources, net.nodes[n].slot, SourceId(u.id, net.dest), u);
            SlotStep(net, sid, n, net.nodes[n].(sources := sources, slot := slot), env.now)
  {
    var node, about := net.nodes[n], SourceId(u.id, net.dest);
    assert GoodNode(net, n) && NodeVouched(net, sid, n) && MessageVouched(net, sid, m);
    InsertNewKeeps(net.dest, env, sources, node.slot, about, u);
    var r, slot := NewRoute(env, about, u), InsertNew(env, sources, node.slot, about, u);
    OutsideByBag(n, node.slot, slot, r);
    ClaimsVouched(net, sid, node.slot, slot, r);
  }

  lemma DeliverIsSlotStep(net: Net, sid: SourceId, n: NodeId, env: Env, u: Update, m: Message)
    requires Inv(net, sid) && KnownAt(net, n) && m in net.messages && Carries(u, m)
    requires FreshAt(net.nodes[n], sid, env.now)
    requires u.id != n && u.addMetric < INFINITY
    requires !InstallsUnbacked(net.nodes[n].slot, Received(net.nodes[n], n, net.dest, env, u), sid, env.now)
    ensures SlotStep(net, sid, n, Received(net.nodes[n], n, net.dest, env, u), env.now)
  {
    var node, about := net.nodes[n], SourceId(u.id, net.dest);
    var sources := EnsureSource(node.sources, about, u.seqno, env.now);
    assert GoodNode(net, n);
    KnownAfterEnsure(net, sid, n, about, u.seqno, env.now);
    var k := FindVia(node.slot, u.neigh, u.nexthop);
    if k < |node.slot| {
      ExistingIsSlotStep(net, sid, n, env, sources, u, m, k);
    } else if Accepts(env, sources[about], u) {
      NewIsSlotStep(net, sid, n, env, sources, u, m);
    } else {
      assert NodeVouched(net, sid, n);
    }
  }

  lemma DeliverKeepsInv(net: Net, sid: SourceId, n: NodeId, env: Env, m: Message, u: Update)
    requires Inv(net, sid) && KnownAt(net, n) && m in net.messages && Carries(u, m)
    requires FreshAt(net.nodes[n], sid, env.now)
    requires !InstallsUnbacked(net.nodes[n].slot, Received(net.nodes[n], n, net.dest, env, u), sid, env.now)
    requires HasWindow(With(net, n, Received(net.nodes[n], n, net.dest, env, u)), sid)
    ensures Inv(With(net, n, Received(net.nodes[n], n, net.dest, env, u)), sid)
  {
    var node := Received(net.nodes[n], n, net.dest, env, u);
    if u.id == n || u.addMetric >= INFINITY {
      assert With(net, n, node) == net;
    } else {
      DeliverIsSlotStep(net, sid, n, env, u, m);
      SlotStepKeepsInv(net, sid, n, node, env.now);
    }
  }

  // ----- advertising, the one step that changes a distance -----

  /** The distance of node n for a source went from s to t; nothing else changed
      except that a message was added. */
  predicate Moves(net: Net, after: Net, n: NodeId, src: SourceId, s: Source, t: Source) {
    && net.dest == after.dest
    && n in net.nodes && src in net.nodes[n].sources && net.nodes[n].sources[src] == s
    && after.nodes == net.nodes[n := net.nodes[n].(sources := net.nodes[n].sources[src := t])]
  }

  /** t is at least as good as s, both inside the window. */
  ghost predicate Improves(base: u16, s: Source, t: Source) {
    InWindow(base, s.seqno) && InWindow(base, t.seqno) && NoFarther(t.seqno, t.metric, s.seqno, s.metric)
  }

  /** Only claims about the improved source are touched, and they stay vouched. */
  lemma ImprovedVouch(net: Net, after: Net, n: NodeId, src: SourceId, s: Source, t: Source, base: u16,
                      b: NodeId, sid: SourceId, seqno: u16, metric: u16)
    requires Moves(net, after, n, src, s, t) && (src == sid ==> Improves(base, s, t) && InWindow(base, seqno))
    ensures Vouched(net, b, sid, seqno, metric) ==> Vouched(after, b, sid, seqno, metric)
    ensures Ahead(net, b, sid, seqno, metric) ==> Ahead(after, b, sid, seqno, metric)
  {
    if src == sid {
      CloserTransitive(base, t.seqno, t.metric, s.seqno, s.metric, seqno, metric);
    }
  }

  lemma AdvertiseKeepsNode(net: Net, after: Net, sid: SourceId, n: NodeId, src: SourceId, s: Source, t: Source,
                           base: u16, p: NodeId)
    requires Inv(net, sid) && Window(net, sid, base) && p in net.nodes
    requires Moves(net, after, n, src, s, t) && (src == sid ==> Improves(base, s, t))
    ensures GoodNode(after, p) && NodeVouched(after, sid, p)
    ensures p != n || src != sid ==> SuccessorAhead(after, sid, p)
  {
    assert GoodNode(net, p) && NodeVouched(net, sid, p) && SuccessorAhead(net, sid, p);
    var node := net.nodes[p];
    forall i | 0 <= i < |node.slot| ensures RouteVouched(after, sid, node.slot[i]) {
      var r := node.slot[i];
      assert RouteVouched(net, sid, r);
      if r.src == sid && r.refmetric < INFINITY {
        ImprovedVouch(net, after, n, src, s, t, base, r.neigh.address, sid, r.seqno, r.refmetric);
      }
    }
    if (p != n || src != sid) && HasInstalled(node.slot) && node.slot[0].src == sid {
      var d := node.sources[sid];
      ImprovedVouch(net, after, n, src, s, t, base, node.slot[0].neigh.address, sid, d.seqno, d.metric);
    }
  }

  /** The advertising node itself: its new distance includes the link cost, so
      its successor stays strictly ahead. */
  lemma AdvertiserStaysBehind(net: Net, after: Net, sid: SourceId, n: NodeId, t: Source, base: u16, now: int)
    requires Inv(net, sid) && Window(net, sid, base) && KnownAt(net, n) && HasInstalled(net.nodes[n].slot)
    requires net.nodes[n].slot[0].src == sid && FreshAt(net.nodes[n], sid, now)
    requires var r := net.nodes[n].slot[0];
             && Moves(net, after, n, sid, net.nodes[n].sources[sid], t)
             && t == UpdateSource(net.nodes[n].sources[sid], r.seqno, Metric(r), now)
    ensures SuccessorAhead(after, sid, n)
  {
    var r, s := net.nodes[n].slot[0], net.nodes[n].sources[sid];
    assert GoodNode(net, n) && NodeVouched(net, sid, n) && SuccessorAhead(net, sid, n) && RouteVouched(net, sid, r);
    var b := r.neigh.address;
    if b != sid.id && b != n && t.seqno == r.seqno && t.metric == Metric(r) < INFINITY {
      var d := net.nodes[b].sources[sid];
      CloserTransitive(base, d.seqno, d.metric, r.seqno, r.refmetric, t.seqno, t.metric);
    }
  }

  lemma AdvertiseKeepsMessages(net: Net, sid: SourceId, n: NodeId, nexthop: nat, outMetric: nat, now: int, base: u16,
                               t: Source)
    requires Inv(net, sid) && Enabled(net, Advertise(n, nexthop, outMetric, now)) && Window(net, sid, base)
    requires FreshAt(net.nodes[n], sid, now)
    requires var r := net.nodes[n].slot[0];
             && t == UpdateSource(net.nodes[n].sources[r.src], r.seqno, Metric(r), now)
             && (r.src == sid ==> Improves(base, net.nodes[n].sources[sid], t))
    ensures var after := Advertised(net, n, nexthop, outMetric, now);
            forall m :: m in after.messages ==> MessageVouched(after, sid, m)
  {
    var after := Advertised(net, n, nexthop, outMetric, now);
    var r := net.nodes[n].slot[0];
    var s := net.nodes[n].sources[r.src];
    assert GoodNode(net, n);
    forall m | m in after.messages ensures MessageVouched(after, sid, m) {
      if SourceId(m.id, net.dest) == sid && m.metric < INFINITY {
        if m in net.messages {
          assert MessageVouched(net, sid, m);
          ImprovedVouch(net, after, n, r.src, s, t, base, m.sender, sid, m.seqno, m.metric);
        } else {
          UpdateSourceImproves(s, r.seqno, Metric(r), now);
        }
      }
    }
  }

  lemma AdvertiseKeepsInv(net: Net, sid: SourceId, n: NodeId, nexthop: nat, outMetric: nat, now: int)
    requires Inv(net, sid) && GoodStep(net, Advertise(n, nexthop, outMetric, now), sid)
    ensures Inv(Advertised(net, n, nexthop, outMetric, now), sid)
  {
    var after := Advertised(net, n, nexthop, outMetric, now);
    var r := net.nodes[n].slot[0];
    var s := net.nodes[n].sources[r.src];
    var t := UpdateSource(s, r.seqno, Metric(r), now);
    var base :| Window(net, sid, base);
    if r.src == sid {
      UpdateSourceImproves(s, r.seqno, Metric(r), now);
      assert t.seqno == s.seqno || Metric(r) < INFINITY;
      assert Improves(base, s, t);
    }
    forall p | p in after.nodes
      ensures GoodNode(after, p) && NodeVouched(after, sid, p) && SuccessorAhead(after, sid, p)
    {
      AdvertiseKeepsNode(net, after, sid, n, r.src, s, t, base, p);
      if r.src == sid {
        AdvertiserStaysBehind(net, after, sid, n, t, base, now);
      }
    }
    AdvertiseKeepsMessages(net, sid, n, nexthop, outMetric, now, base, t);
  }

  // ----- whole runs -----

  lemma SendOwnKeepsInv(net: Net, after: Net, sid: SourceId)
    requires Inv(net, sid) && SameDistances(net, after) && net.nodes.Keys == after.nodes.Keys
    requires forall n :: n in net.nodes ==>
      after.nodes[n].slot == net.nodes[n].slot && after.nodes[n].sources == net.nodes[n].sources
    requires forall m :: m in after.messages ==> m in net.messages || m.sender == m.id
    ensures Inv(after, sid)
  {
    forall n | n in after.nodes
      ensures GoodNode(after, n) && NodeVouched(after, sid, n) && SuccessorAhead(after, sid, n)
    {
      assert GoodNode(net, n) && NodeVouched(net, sid, n) && SuccessorAhead(net, sid, n);
      forall i | 0 <= i < |net.nodes[n].slot| ensures RouteVouched(after, sid, net.nodes[n].slot[i]) {
        var r := net.nodes[n].slot[i];
        assert RouteVouched(net, sid, r);
        StillVouched(net, after, r.neigh.address, sid, r.seqno, r.refmetric);
      }
      if HasInstalled(net.nodes[n].slot) && net.nodes[n].slot[0].src == sid {
        var s := net.nodes[n].sources[sid];
        StillVouched(net, after, net.nodes[n].slot[0].neigh.address, sid, s.seqno, s.metric);
      }
    }
    forall m | m in after.messages ensures MessageVouched(after, sid, m) {
      if m in net.messages {
        MessagesKeep(net, after, sid, m);
      }
    }
  }

  lemma OwnStepKeepsInv(net: Net, sid: SourceId, step: Step)
    requires Inv(net, sid) && Enabled(net, step) && (step.Originate? || step.NewSeqno? || step.Lose?)
    ensures Inv(Next(net, step), sid)
  {
    var after := Next(net, step);
    assert after.nodes.Keys == net.nodes.Keys;
    SendOwnKeepsInv(net, after, sid);
  }

  /** Every step keeps the invariant, unless it installs a mere retraction. */
  lemma StepKeepsInv(net: Net, sid: SourceId, step: Step)
    requires Inv(net, sid) && GoodStep(net, step, sid)
    ensures Inv(Next(net, step), sid)
  {
    match step
    case Originate(_, _, _) => OwnStepKeepsInv(net, sid, step);
    case NewSeqno(_) => OwnStepKeepsInv(net, sid, step);
    case Lose(_) => OwnStepKeepsInv(net, sid, step);
    case Advertise(n, nexthop, outMetric, now) => AdvertiseKeepsInv(net, sid, n, nexthop, outMetric, now);
    case Deliver(n, env, m, ifindex, interval, cost, addMetric) =>
      var u := AsUpdate(m, ifindex, interval, cost, addMetric);
      assert Next(net, step).nodes[n] == Received(net.nodes[n], n, net.dest, env, u);
      DeliverKeepsInv(net, sid, n, env, m, u);
    case Flush(n, env, k) => FlushKeepsInv(net, sid, n, env, k);
    case Refresh(n, env, k, cost, addMetric) => RefreshKeepsInv(net, sid, n, env, k, cost, addMetric);
    case Retract(n, env, k) => RetractKeepsInv(net, sid, n, env, k);
    case Export(n) => ExportKeepsInv(net, sid, n);
  }

  lemma {:induction false} RunKeepsInv(states: seq<Net>, steps: seq<Step>, sid: SourceId, i: nat)
    requires CarefulRun(states, steps, sid) && i < |states|
    ensures Inv(states[i], sid)
  {
    if i > 0 {
      RunKeepsInv(states, steps, sid, i - 1);
      assert states[i - 1 + 1] == Next(states[i - 1], steps[i - 1]);
      StepKeepsInv(states[i - 1], sid, steps[i - 1]);
    }
  }

  // ----- forwarding -----

  /** Node a forwards traffic of source sid to node b: its installed route has
      that source and that neighbour, and a finite metric, so that the kernel
      holds a gateway and not a blackhole. */
  predicate Forwards(net: Net, sid: SourceId, a: NodeId, b: NodeId) {
    && a in net.nodes && HasInstalled(net.nodes[a].slot)
    && net.nodes[a].slot[0].src == sid && net.nodes[a].slot[0].neigh.address == b
    && Metric(net.nodes[a].slot[0]) < INFINITY
  }

  /** Consecutive members of path forward to each other. */
  predicate ForwardingPath(net: Net, sid: SourceId, path: seq<NodeId>) {
    |path| > 0 && forall i :: 0 <= i < |path| - 1 ==> Forwards(net, sid, path[i], path[i + 1])
  }

  predicate ForwardingLoop(net: Net, sid: SourceId, path: seq<NodeId>) {
    ForwardingPath(net, sid, path) && |path| > 1 && path[0] == path[|path| - 1]
  }

  /** Along a path the feasibility distance gets strictly better. */
  lemma {:induction false} PathGetsCloser(net: Net, base: u16, sid: SourceId, path: seq<NodeId>, i: nat)
    requires Inv(net, sid) && Window(net, sid, base) && ForwardingPath(net, sid, path)
    requires 0 < i < |path| && path[i] in net.nodes && HasInstalled(net.nodes[path[i]].slot)
    requires net.nodes[path[i]].slot[0].src == sid
    ensures path[0] in net.nodes && sid in net.nodes[path[0]].sources && sid in net.nodes[path[i]].sources
    ensures var s, t := net.nodes[path[0]].sources[sid], net.nodes[path[i]].sources[sid];
            Closer(t.seqno, t.metric, s.seqno, s.metric)
  {
    var a, b := path[i - 1], path[i];
    assert Forwards(net, sid, path[0], path[0 + 1]);
    assert Forwards(net, sid, a, path[i - 1 + 1]);
    assert GoodNode(net, a) && GoodNode(net, b) && GoodNode(net, path[0]) && SuccessorAhead(net, sid, a);
    var s, t := net.nodes[a].sources[sid], net.nodes[b].sources[sid];
    assert Closer(t.seqno, t.metric, s.seqno, s.metric);
    if i > 1 {
      PathGetsCloser(net, base, sid, path, i - 1);
      var o := net.nodes[path[0]].sources[sid];
      CloserTransitive(base, t.seqno, t.metric, s.seqno, s.metric, o.seqno, o.metric);
    }
  }

  lemma InvMeansLoopFree(net: Net, sid: SourceId, path: seq<NodeId>)
    requires Inv(net, sid) && HasWindow(net, sid)
    ensures !ForwardingLoop(net, sid, path)
  {
    if ForwardingLoop(net, sid, path) {
      var base :| Window(net, sid, base);
      assert Forwards(net, sid, path[0], path[1]);
      PathGetsCloser(net, base, sid, path, |path| - 1);
      var s := net.nodes[path[0]].sources[sid];
      CloserTransitive(base, s.seqno, s.metric, s.seqno, s.metric, s.seqno, s.metric);
      assert false;
    }
  }

  /** Loop freedom, source by source.  In every state of every run that is orderly
      for the source and never installs a mere retraction of it, no sequence of
      its next hops forms a loop, whatever happens to other sources. */
  lemma LoopFree(states: seq<Net>, steps: seq<Step>, i: nat, sid: SourceId, path: seq<NodeId>)
    requires CarefulRun(states, steps, sid) && i < |states|
    ensures !ForwardingLoop(states[i], sid, path)
  {
    RunKeepsInv(states, steps, sid, i);
    InvMeansLoopFree(states[i], sid, path);
  }
}
