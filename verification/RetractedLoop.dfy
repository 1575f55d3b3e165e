/** Why loop freedom needs careful runs: consider_route installs a retracted
    route when nothing is installed, and update_route then applies an unfeasible
    update from the same source to it.  First exactly which installs are safe,
    then a run in which an unsafe one closes a loop in fourteen steps. */
module RetractedLoop {
  import opened Basics
  import opened Seqno
  import opened Selection
  import opened Network
  import opened LoopFreedom

  // ----- exactly when it is safe to install a feasible route -----

  /** Another network that node n cannot tell from this one. */
  ghost predicate Alike(net: Net, other: Net, sid: SourceId, n: NodeId, base: u16) {
    && other.dest == net.dest && n in net.nodes && n in other.nodes && other.nodes[n] == net.nodes[n]
    && Inv(other, sid) && Window(other, sid, base)
  }

  /** The network after consider_route on route k of node n. */
  function Considered(net: Net, n: NodeId, env: Env, k: nat): Net
    requires KnownAt(net, n) && k < |net.nodes[n].slot|
  {
    With(net, n, net.nodes[n].(slot := Consider(env, net.nodes[n].sources, net.nodes[n].slot, k)))
  }

  /** Node n is about to install or switch to route k of the source. */
  predicate Installs(net: Net, sid: SourceId, n: NodeId, env: Env, k: nat) {
    && KnownAt(net, n) && k < |net.nodes[n].slot| && net.nodes[n].slot[k].src == sid
    && FreshAt(net.nodes[n], sid, env.now) && Switches(env, net.nodes[n].sources, net.nodes[n].slot, k)
  }

  lemma BackedIsSafe(net: Net, sid: SourceId, n: NodeId, env: Env, k: nat, base: u16)
    requires Inv(net, sid) && Window(net, sid, base) && Installs(net, sid, n, env, k)
    requires Backed(net.nodes[n].sources, net.nodes[n].slot, net.nodes[n].slot[k], env.now)
    ensures SuccessorAhead(Considered(net, n, env, k), sid, n)
  {
    var node := net.nodes[n];
    var r, after := node.slot[k], Considered(net, n, env, k);
    assert NodeVouched(net, sid, n);
    if r.neigh.address != sid.id {
      var j := k;
      if r.refmetric >= INFINITY {
        j :| 0 <= j < |node.slot| && Supports(node.sources, node.slot[j], r, env.now);
      }
      assert RouteVouched(net, sid, node.slot[j]);
      ClaimantIsAhead(net, sid, n, base, env.now, node.slot[j]);
      WithSameDistances(net, n, after.nodes[n]);
      StillVouched(net, after, r.neigh.address, sid, node.sources[sid].seqno, node.sources[sid].metric);
    }
  }

  /** Route r is a finite claim of neighbour b about the source. */
  predicate Claims(r: Route, sid: SourceId, b: NodeId) {
    r.src == sid && r.neigh.address == b && r.refmetric < INFINITY
  }

  /** Among the first m routes, the best claim of b. */
  lemma {:induction false} ClosestClaim(slot: Slot, sid: SourceId, b: NodeId, base: u16, m: nat) returns (c: nat)
    requires m <= |slot| && exists j :: 0 <= j < m && Claims(slot[j], sid, b)
    requires forall j :: 0 <= j < |slot| && Claims(slot[j], sid, b) ==> InWindow(base, slot[j].seqno)
    ensures c < m && Claims(slot[c], sid, b)
    ensures forall j :: 0 <= j < m && Claims(slot[j], sid, b) ==>
              NoFarther(slot[c].seqno, slot[c].refmetric, slot[j].seqno, slot[j].refmetric)
  {
    var last := m - 1;
    if exists j :: 0 <= j < last && Claims(slot[j], sid, b) {
      c := ClosestClaim(slot, sid, b, base, last);
      if Claims(slot[last], sid, b) {
        CompareInWindow(base, slot[c].seqno, slot[last].seqno);
        CompareInWindow(base, slot[last].seqno, slot[c].seqno);
        if !NoFarther(slot[c].seqno, slot[c].refmetric, slot[last].seqno, slot[last].refmetric) {
          forall j | 0 <= j < last && Claims(slot[j], sid, b)
            ensures NoFarther(slot[last].seqno, slot[last].refmetric, slot[j].seqno, slot[j].refmetric)
          {
            CloserTransitive(base, slot[last].seqno, slot[last].refmetric, slot[c].seqno, slot[c].refmetric,
                             slot[j].seqno, slot[j].refmetric);
          }
          c := last;
        }
      }
    } else {
      c := last;
    }
  }

  /** What b must know so that its claims at n are true, and no more. */
  ghost predicate Minimal(slot: Slot, sid: SourceId, b: NodeId, base: u16, known: Sources) {
    if exists j :: 0 <= j < |slot| && Claims(slot[j], sid, b) then
      exists c, s: Source :: 0 <= c < |slot| && Claims(slot[c], sid, b) && known == map[sid := s]
        && s.seqno == slot[c].seqno && s.metric == slot[c].refmetric
        && forall j :: 0 <= j < |slot| && Claims(slot[j], sid, b) ==>
             NoFarther(s.seqno, s.metric, slot[j].seqno, slot[j].refmetric)
    else known == map[]
  }

  lemma MinimalExists(slot: Slot, sid: SourceId, b: NodeId, base: u16) returns (known: Sources)
    requires forall j :: 0 <= j < |slot| && Claims(slot[j], sid, b) ==> InWindow(base, slot[j].seqno)
    ensures Minimal(slot, sid, b, base, known)
  {
    known := map[];
    if exists j :: 0 <= j < |slot| && Claims(slot[j], sid, b) {
      var c := ClosestClaim(slot, sid, b, base, |slot|);
      var s := Source(slot[c].seqno, slot[c].refmetric, 0, 0);
      known := map[sid := s];
    }
  }

  /** The same network with nothing in it but what the routes of n need. */
  function Bare(net: Net, n: NodeId, b: NodeId, known: Sources): Net
    requires n in net.nodes
  {
    Net(net.dest,
        map c | c in net.nodes ::
          if c == n then net.nodes[n] else if c == b then Node(known, [], 0) else Node(net.nodes[c].sources, [], 0),
        {})
  }

  lemma BareVouches(net: Net, sid: SourceId, n: NodeId, b: NodeId, base: u16, known: Sources, r: Route)
    requires n in net.nodes && b in net.nodes && b != n && b != sid.id && r in net.nodes[n].slot
    requires RouteVouched(net, sid, r) && Minimal(net.nodes[n].slot, sid, b, base, known)
    ensures RouteVouched(Bare(net, n, b, known), sid, r)
  {
    var slot := net.nodes[n].slot;
    if Claims(r, sid, b) {
      var j :| 0 <= j < |slot| && slot[j] == r;
      assert Claims(slot[j], sid, b);
    }
  }

  lemma BareHasWindow(net: Net, sid: SourceId, n: NodeId, b: NodeId, base: u16, known: Sources)
    requires Window(net, sid, base) && n in net.nodes && b in net.nodes
    requires Minimal(net.nodes[n].slot, sid, b, base, known)
    ensures Window(Bare(net, n, b, known), sid, base)
  {
  }

  lemma BareIsAlike(net: Net, sid: SourceId, n: NodeId, b: NodeId, base: u16, known: Sources)
    requires Inv(net, sid) && Window(net, sid, base) && n in net.nodes && b in net.nodes && b != n && b != sid.id
    requires !HasInstalled(net.nodes[n].slot) && Minimal(net.nodes[n].slot, sid, b, base, known)
    ensures Alike(net, Bare(net, n, b, known), sid, n, base)
  {
    var other, slot := Bare(net, n, b, known), net.nodes[n].slot;
    BareHasWindow(net, sid, n, b, base, known);
    assert GoodNode(net, n) && NodeVouched(net, sid, n);
    forall i | 0 <= i < |slot| ensures RouteVouched(other, sid, slot[i]) {
      BareVouches(net, sid, n, b, base, known, slot[i]);
    }
    forall c | c in other.nodes
      ensures GoodNode(other, c) && NodeVouched(other, sid, c) && SuccessorAhead(other, sid, c)
    {
      assert c != n ==> other.nodes[c].slot == [];
    }
  }

  /** A mere retraction leaves some network in which the neighbour is not ahead. */
  lemma UnbackedIsUnsafe(net: Net, sid: SourceId, n: NodeId, env: Env, k: nat, base: u16) returns (other: Net)
    requires Inv(net, sid) && Window(net, sid, base) && Installs(net, sid, n, env, k)
    requires !Backed(net.nodes[n].sources, net.nodes[n].slot, net.nodes[n].slot[k], env.now)
    ensures Alike(net, other, sid, n, base) && !SuccessorAhead(Considered(other, n, env, k), sid, n)
  {
    var node := net.nodes[n];
    var slot, b := node.slot, node.slot[k].neigh.address;
    other := net;
    if b != n && b in net.nodes {
      var known := MinimalExists(slot, sid, b, base);
      BareIsAlike(net, sid, n, b, base, known);
      other := Bare(net, n, b, known);
      forall j | 0 <= j < |slot| && Claims(slot[j], sid, b)
        ensures !Closer(slot[j].seqno, slot[j].refmetric, node.sources[sid].seqno, node.sources[sid].metric)
      {
        assert !Supports(node.sources, slot[j], slot[k], env.now);
      }
    }
  }

  /** Installing a feasible route leaves the neighbour strictly ahead, in every
      network the node could be in, if and only if the route is backed: its metric
      is finite, or its neighbour is the origin, or another route through that
      neighbour makes a finite feasible claim. */
  lemma InstallSafeIff(net: Net, sid: SourceId, n: NodeId, env: Env, k: nat, base: u16)
    requires Inv(net, sid) && Window(net, sid, base) && Installs(net, sid, n, env, k)
    ensures Backed(net.nodes[n].sources, net.nodes[n].slot, net.nodes[n].slot[k], env.now) <==>
            forall other: Net :: Alike(net, other, sid, n, base) ==>
              SuccessorAhead(Considered(other, n, env, k), sid, n)
  {
    if Backed(net.nodes[n].sources, net.nodes[n].slot, net.nodes[n].slot[k], env.now) {
      forall other: Net | Alike(net, other, sid, n, base)
        ensures SuccessorAhead(Considered(other, n, env, k), sid, n)
      {
        BackedIsSafe(other, sid, n, env, k, base);
      }
    } else {
      var other := UnbackedIsUnsafe(net, sid, n, env, k, base);
    }
  }

  // ----- the run: node 0 originates, nodes 1 and 2 end up in a loop -----

  const DEST := Key(0, 0)
  const SID := SourceId(0, DEST)
  const ENV := Env(0, -1, false, None)

  function R(via: nat, refmetric: u16, cost: u16, installed: bool): Route {
    Route(SID, refmetric, cost, 0, 0, Neigh(via, 0), via, 0, 15, installed)
  }

  function N(metric: u16, slot: Slot): Node {
    Node(map[SID := Source(0, metric, 0, 0)], slot, 0)
  }

  const BLANK := Node(map[], [], 0)

  function Mk(a: Node, b: Node, messages: set<Message>): Net {
    Net(DEST, map[0 := BLANK, 1 := a, 2 := b], messages)
  }

  function M(sender: nat, metric: u16): Message {
    Message(sender, sender, 0, 0, metric)
  }

  /** All sequence numbers and times are 0. */
  predicate Plain(node: Node) {
    && Known(node.sources, node.slot)
    && (forall sid :: sid in node.sources ==> node.sources[sid].seqno == 0 && node.sources[sid].time == 0)
    && (forall i :: 0 <= i < |node.slot| ==> node.slot[i].seqno == 0)
  }

  ghost predicate Trace(states: seq<Net>, steps: seq<Step>, last: Net) {
    OrderlyRun(states, steps, SID) && states[|states| - 1] == last
  }

  ghost predicate Reached(a: Node, b: Node, messages: set<Message>) {
    && Plain(a) && Plain(b)
    && (forall m :: m in messages ==> m.seqno == 0)
    && exists states, steps :: Trace(states, steps, Mk(a, b, messages))
  }

  lemma Extend(states: seq<Net>, steps: seq<Step>, s: Net, step: Step, t: Net)
    requires Trace(states, steps, s) && Enabled(s, step) && Next(s, step) == t
    requires HasWindow(t, SID) && FreshStep(s, step, SID)
    ensures Trace(states + [t], steps + [step], t)
  {
    var states', steps' := states + [t], steps + [step];
    forall i | 0 <= i < |steps'|
      ensures Enabled(states'[i], steps'[i]) && states'[i + 1] == Next(states'[i], steps'[i])
      ensures FreshStep(states'[i], steps'[i], SID)
    {
      if i < |steps| {
        assert states'[i] == states[i] && states'[i + 1] == states[i + 1] && steps'[i] == steps[i];
      } else {
        assert states'[i] == s && steps'[i] == step;
      }
    }
  }

  lemma PlainWindow(a: Node, b: Node, ms: set<Message>)
    requires Plain(a) && Plain(b) && forall m :: m in ms ==> m.seqno == 0
    ensures HasWindow(Mk(a, b, ms), SID)
  {
    var net := Mk(a, b, ms);
    assert net.nodes.Keys == {0, 1, 2};
    assert Window(net, SID, 0);
  }

  lemma PlainIsFresh(a: Node, b: Node, ms: set<Message>, step: Step)
    requires Plain(a) && Plain(b) && Enabled(Mk(a, b, ms), step) && TimeOf(step) == 0
    ensures FreshStep(Mk(a, b, ms), step, SID)
  {
    assert forall n :: n in Mk(a, b, ms).nodes ==> FreshAt(Mk(a, b, ms).nodes[n], SID, 0);
  }

  lemma Take(a: Node, b: Node, ms: set<Message>, step: Step, a': Node, b': Node, ms': set<Message>)
    requires Reached(a, b, ms) && Enabled(Mk(a, b, ms), step) && Next(Mk(a, b, ms), step) == Mk(a', b', ms')
    requires TimeOf(step) == 0
    requires Plain(a') && Plain(b') && forall m :: m in ms' ==> m.seqno == 0
    ensures Reached(a', b', ms')
  {
    var states, steps :| Trace(states, steps, Mk(a, b, ms));
    PlainWindow(a', b', ms');
    PlainIsFresh(a, b, ms, step);
    Extend(states, steps, Mk(a, b, ms), step, Mk(a', b', ms'));
  }

  function Recv(n: nat, m: Message, cost: u16): Step {
    Deliver(n, ENV, m, 0, 0, cost, 0)
  }

  lemma FirstRoute(n: nat, cost: u16)
    requires n == 1 || n == 2
    requires 1 <= cost < INFINITY
    ensures Received(BLANK, n, DEST, ENV, AsUpdate(M(0, 0), 0, 0, cost, 0)) == N(INFINITY, [R(0, 0, cost, true)])
  {
  }

  lemma BackupRoute()
    ensures Received(N(INFINITY, [R(0, 0, 50, true)]), 1, DEST, ENV, AsUpdate(M(2, 100), 0, 0, 100, 0))
         == N(INFINITY, [R(0, 0, 50, true), R(2, 100, 100, false)])
  {
  }

  lemma OriginRetracts()
    ensures Received(N(100, [R(0, 0, 100, true)]), 2, DEST, ENV, AsUpdate(M(0, INFINITY), 0, 0, 100, 0))
         == N(100, [R(0, INFINITY, 100, true)])
  {
  }

  /** Nothing is installed, so the retraction itself gets installed. */
  lemma RetractionInstalled()
    ensures Received(N(50, [R(2, 100, 100, false)]), 1, DEST, ENV, AsUpdate(M(2, INFINITY), 0, 0, 100, 0))
         == N(50, [R(2, INFINITY, 100, true)])
  {
  }

  lemma SwitchedToPeer()
    ensures Received(N(100, [R(0, INFINITY, 100, true)]), 2, DEST, ENV, AsUpdate(M(1, 50), 0, 0, 100, 0))
         == N(100, [R(1, 50, 100, true), R(0, INFINITY, 100, false)])
  {
  }

  /** Unfeasible, but the source is the same and the route is installed. */
  lemma UnfeasibleApplied()
    ensures Received(N(50, [R(2, INFINITY, 100, true)]), 1, DEST, ENV, AsUpdate(M(2, 150), 0, 0, 100, 0))
         == N(50, [R(2, 150, 100, true)])
  {
  }

  lemma OriginLost()
    ensures Flushed(ENV, map[SID := Source(0, 50, 0, 0)], [R(0, 0, 50, true), R(2, 100, 100, false)], 0)
         == [R(2, 100, 100, false)]
  {
  }

  lemma Hears1(a: Node, b: Node, messages: set<Message>, m: Message, cost: u16, a': Node)
    requires Reached(a, b, messages) && m in messages && Cut(cost) >= 1 && Plain(a')
    requires Received(a, 1, DEST, ENV, AsUpdate(m, 0, 0, cost, 0)) == a'
    ensures Reached(a', b, messages)
  {
    Take(a, b, messages, Recv(1, m, cost), a', b, messages);
  }

  lemma Hears2(a: Node, b: Node, messages: set<Message>, m: Message, cost: u16, b': Node)
    requires Reached(a, b, messages) && m in messages && Cut(cost) >= 1 && Plain(b')
    requires Received(b, 2, DEST, ENV, AsUpdate(m, 0, 0, cost, 0)) == b'
    ensures Reached(a, b', messages)
  {
    Take(a, b, messages, Recv(2, m, cost), a, b', messages);
  }

  lemma Says2(a: Node, metric: u16, slot: Slot, messages: set<Message>, advertised: u16)
    requires Reached(a, N(metric, slot), messages)
    requires HasInstalled(slot) && slot[0].src == SID && Metric(slot[0]) == advertised
    ensures Reached(a, N(if advertised < metric then advertised else metric, slot), messages + {M(2, advertised)})
  {
    var after := if advertised < metric then advertised else metric;
    assert map[SID := Source(0, metric, 0, 0)][SID := Source(0, after, 0, 0)] == map[SID := Source(0, after, 0, 0)];
    Take(a, N(metric, slot), messages, Advertise(2, 2, 0, 0), a, N(after, slot), messages + {M(2, advertised)});
  }

  lemma Says1(b: Node, metric: u16, slot: Slot, messages: set<Message>, advertised: u16)
    requires Reached(N(metric, slot), b, messages)
    requires HasInstalled(slot) && slot[0].src == SID && Metric(slot[0]) == advertised
    ensures Reached(N(if advertised < metric then advertised else metric, slot), b, messages + {M(1, advertised)})
  {
    var after := if advertised < metric then advertised else metric;
    assert map[SID := Source(0, metric, 0, 0)][SID := Source(0, after, 0, 0)] == map[SID := Source(0, after, 0, 0)];
    Take(N(metric, slot), b, messages, Advertise(1, 1, 0, 0), N(after, slot), b, messages + {M(1, advertised)});
  }

  lemma Start()
    ensures Reached(BLANK, BLANK, {M(0, 0)})
  {
    var net := Mk(BLANK, BLANK, {});
    assert Window(net, SID, 0);
    assert HasWindow(net, SID);
    assert Trace([net], [], net);
    assert {} + {M(0, 0)} == {M(0, 0)};
    Take(BLANK, BLANK, {}, Originate(0, 0, 0), BLANK, BLANK, {M(0, 0)});
  }

  const SLOT_A := [R(0, 0, 50, true), R(2, 100, 100, false)]
  const SLOT_B := [R(1, 50, 100, true), R(0, INFINITY, 100, false)]

  const B_DIRECT := N(100, [R(0, 0, 100, true)])
  const B_RETRACTED := N(100, [R(0, INFINITY, 100, true)])
  const A_RETRACTED := N(50, [R(2, INFINITY, 100, true)])

  /** Both nodes reach the origin directly. */
  lemma BothDirect()
    ensures Reached(N(INFINITY, [R(0, 0, 50, true)]), B_DIRECT, {M(0, 0)} + {M(2, 100)})
  {
    var a1, b1 := N(INFINITY, [R(0, 0, 50, true)]), N(INFINITY, [R(0, 0, 100, true)]);
    Start();
    FirstRoute(1, 50);
    Hears1(BLANK, BLANK, {M(0, 0)}, M(0, 0), 50, a1);
    FirstRoute(2, 100);
    Hears2(a1, BLANK, {M(0, 0)}, M(0, 0), 100, b1);
    Says2(a1, INFINITY, [R(0, 0, 100, true)], {M(0, 0)}, 100);
  }

  /** Node 1 learns a backup through node 2 before it advertises. */
  lemma BackupKnown()
    ensures Reached(N(50, SLOT_A), B_DIRECT, {M(0, 0)} + {M(2, 100)} + {M(1, 50)})
  {
    var ms := {M(0, 0)} + {M(2, 100)};
    BothDirect();
    BackupRoute();
    Hears1(N(INFINITY, [R(0, 0, 50, true)]), B_DIRECT, ms, M(2, 100), 100, N(INFINITY, SLOT_A));
    Says1(B_DIRECT, INFINITY, SLOT_A, ms, 50);
  }

  /** The origin retracts towards node 2, which passes it on. */
  lemma RetractionSpreads(ms: set<Message>)
    requires Reached(N(50, SLOT_A), B_DIRECT, ms)
    ensures Reached(N(50, SLOT_A), B_RETRACTED, ms + {M(0, INFINITY)} + {M(2, INFINITY)})
  {
    var ms4 := ms + {M(0, INFINITY)};
    Take(N(50, SLOT_A), B_DIRECT, ms, Originate(0, 0, INFINITY), N(50, SLOT_A), B_DIRECT, ms4);
    OriginRetracts();
    Hears2(N(50, SLOT_A), B_DIRECT, ms4, M(0, INFINITY), 100, B_RETRACTED);
    Says2(N(50, SLOT_A), 100, [R(0, INFINITY, 100, true)], ms4, INFINITY);
  }

  lemma OriginFlushed(ms: set<Message>)
    requires Reached(N(50, SLOT_A), B_RETRACTED, ms)
    ensures Reached(N(50, [R(2, 100, 100, false)]), B_RETRACTED, ms)
  {
    OriginLost();
    Take(N(50, SLOT_A), B_RETRACTED, ms, Flush(1, ENV, 0), N(50, [R(2, 100, 100, false)]), B_RETRACTED, ms);
  }

  /** Node 1 loses the origin and installs the retraction. */
  lemma RetractionTaken(ms: set<Message>)
    requires Reached(N(50, SLOT_A), B_RETRACTED, ms) && M(2, INFINITY) in ms
    ensures Reached(A_RETRACTED, B_RETRACTED, ms)
  {
    var a6 := N(50, [R(2, 100, 100, false)]);
    OriginFlushed(ms);
    RetractionInstalled();
    Hears1(a6, B_RETRACTED, ms, M(2, INFINITY), 100, A_RETRACTED);
  }

  /** Node 2 switches to node 1, whose old update is feasible, and says so. */
  lemma LoopCloses(ms: set<Message>)
    requires Reached(A_RETRACTED, B_RETRACTED, ms) && M(1, 50) in ms
    ensures Reached(N(50, [R(2, 150, 100, true)]), N(100, SLOT_B), ms + {M(2, 150)})
  {
    SwitchedToPeer();
    Hears2(A_RETRACTED, B_RETRACTED, ms, M(1, 50), 100, N(100, SLOT_B));
    Says2(A_RETRACTED, 100, SLOT_B, ms, 150);
    UnfeasibleApplied();
    Hears1(A_RETRACTED, N(100, SLOT_B), ms + {M(2, 150)}, M(2, 150), 100, N(50, [R(2, 150, 100, true)]));
  }

  lemma LoopReached() returns (ms: set<Message>)
    ensures Reached(N(50, [R(2, 150, 100, true)]), N(100, SLOT_B), ms)
  {
    BackupKnown();
    ms := {M(0, 0)} + {M(2, 100)} + {M(1, 50)};
    RetractionSpreads(ms);
    ms := ms + {M(0, INFINITY)} + {M(2, INFINITY)};
    RetractionTaken(ms);
    LoopCloses(ms);
    ms := ms + {M(2, 150)};
  }

  lemma PeersForwardToEachOther(ms: set<Message>)
    ensures ForwardingLoop(Mk(N(50, [R(2, 150, 100, true)]), N(100, SLOT_B), ms), SID, [1, 2, 1])
  {
  }

  /** A run that meets every hypothesis of LoopFree except carefulness and ends
      with nodes 1 and 2 forwarding to each other. */
  lemma LoopAfterRetractedInstall() returns (states: seq<Net>, steps: seq<Step>)
    ensures OrderlyRun(states, steps, SID)
    ensures ForwardingLoop(states[|states| - 1], SID, [1, 2, 1])
  {
    var ms := LoopReached();
    PeersForwardToEachOther(ms);
    states, steps :| Trace(states, steps, Mk(N(50, [R(2, 150, 100, true)]), N(100, SLOT_B), ms));
  }
}
