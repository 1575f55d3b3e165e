/** Babel route selection for one prefix (babeld/route.c, route.h, source.c).

    The routes to a prefix form a slot: a list whose head, and only whose head,
    may be installed.  Everything here is a function on values; the route table
    of one daemon (module RouteTable) and the network of daemons (module Network)
    are both built on these functions. */
module Selection {
  import opened Basics
  import opened Seqno

  const INFINITY: u16 := 0xFFFF
  const SOURCE_GC_TIME := 200

  /** A destination.  The 16 prefix bytes are read as one big-endian number, so
      that memcmp order is numeric order. */
  datatype Key = Key(prefix: nat, plen: nat)

  /** The identity of a source: who originates which destination. */
  datatype SourceId = SourceId(id: nat, key: Key)

  /** (seqno, metric) is the feasibility distance. */
  datatype Source = Source(seqno: u16, metric: u16, time: int, routeCount: nat)

  datatype Neigh = Neigh(address: nat, ifindex: nat)

  datatype Route = Route(
    src: SourceId, refmetric: u16, cost: u16, addMetric: u16, seqno: u16,
    neigh: Neigh, nexthop: nat, time: int, holdTime: nat, installed: bool)

  type Slot = seq<Route>
  type Sources = map<SourceId, Source>

  /** What a decision depends on besides the slot and the sources: the clock,
      two settings, and the metric of an exported route for the same prefix. */
  datatype Env = Env(now: int, allowDuplicates: int, keepUnfeasible: bool, xroute: Option<u16>)

  /** One received update, with the receiver's link cost and filter metric.  The
      link cost is what neighbour_cost returns; routes keep its low 16 bits. */
  datatype Update = Update(
    id: nat, seqno: u16, refmetric: u16, interval: u16,
    neigh: Neigh, nexthop: nat, cost: nat, addMetric: u16)

  function Cut(cost: nat): u16 {
    cost % 0x10000
  }

  function Min(a: int, b: int): int {
    if a <= b then a else b
  }

  function Metric(r: Route): (m: u16) {
    Min(r.refmetric + r.cost + r.addMetric, INFINITY)
  }

  predicate Expired(r: Route, now: int) {
    r.time < now - r.holdTime
  }

  predicate Stale(s: Source, now: int) {
    s.time < now - SOURCE_GC_TIME
  }

  /** The feasibility condition, section 3.5.1 of RFC 6126. */
  predicate Feasible(s: Source, seqno: u16, refmetric: u16, now: int) {
    || Stale(s, now)
    || refmetric >= INFINITY
    || Compare(seqno, s.seqno) > 0
    || (s.seqno == seqno && refmetric < s.metric)
  }

  predicate RouteFeasible(sources: Sources, r: Route, now: int)
    requires r.src in sources
  {
    Feasible(sources[r.src], r.seqno, r.refmetric, now)
  }

  /** Lowering the feasibility distance on advertisement, section 3.7.3. */
  function UpdateSource(s: Source, seqno: u16, metric: u16, now: int): Source {
    if metric >= INFINITY then s
    else if Stale(s, now) || Compare(s.seqno, seqno) < 0 || (s.seqno == seqno && s.metric > metric) then
      s.(seqno := seqno, metric := metric, time := now)
    else
      s.(time := now)
  }

  /** find_source with create set. */
  function EnsureSource(sources: Sources, sid: SourceId, seqno: u16, now: int): Sources {
    if sid in sources then sources
    else sources[sid := Source(seqno, INFINITY, now, 0)]
  }

  function Retain(sources: Sources, sid: SourceId): Sources
    requires sid in sources
  {
    sources[sid := sources[sid].(routeCount := sources[sid].routeCount + 1)]
  }

  function Release(sources: Sources, sid: SourceId): Sources
    requires sid in sources
  {
    var count := sources[sid].routeCount;
    sources[sid := sources[sid].(routeCount := if count > 0 then count - 1 else 0)]
  }

  // ----- slots -----

  predicate SameVia(r: Route, neigh: Neigh, nexthop: nat) {
    r.neigh == neigh && r.nexthop == nexthop
  }

  predicate ViaUnique(slot: Slot) {
    forall i, j :: 0 <= i < j < |slot| ==> !SameVia(slot[i], slot[j].neigh, slot[j].nexthop)
  }

  /** At most one route is installed and it is the head. */
  predicate HeadOnly(slot: Slot) {
    forall i :: 0 < i < |slot| ==> !slot[i].installed
  }

  predicate Known(sources: Sources, slot: Slot) {
    forall i :: 0 <= i < |slot| ==> slot[i].src in sources
  }

  predicate Homogeneous(key: Key, slot: Slot) {
    forall i :: 0 <= i < |slot| ==> slot[i].src.key == key
  }

  predicate ValidSlot(key: Key, sources: Sources, slot: Slot) {
    ViaUnique(slot) && HeadOnly(slot) && Known(sources, slot) && Homogeneous(key, slot)
  }

  predicate HasInstalled(slot: Slot) {
    |slot| > 0 && slot[0].installed
  }

  function Erase(r: Route): Route {
    r.(installed := false)
  }

  ghost function Erased(slot: Slot): seq<Route> {
    seq(|slot|, i requires 0 <= i < |slot| => Erase(slot[i]))
  }

  /** The routes of a slot, without order and installed marks. */
  ghost function Bag(slot: Slot): multiset<Route> {
    multiset(Erased(slot))
  }

  function Demoted(slot: Slot): Slot {
    if |slot| == 0 then [] else [Erase(slot[0])] + slot[1..]
  }

  /** Make route k the installed one: it moves to the head and the old head
      loses its mark. */
  function SwitchTo(slot: Slot, k: nat): Slot
    requires k < |slot|
  {
    [slot[k].(installed := true)] + Demoted(slot[..k]) + slot[k + 1..]
  }

  function Without(slot: Slot, k: nat): Slot
    requires k < |slot|
  {
    slot[..k] + slot[k + 1..]
  }

  predicate Eligible(sources: Sources, r: Route, now: int, feasible: bool, exclude: Option<Neigh>)
    requires r.src in sources
  {
    && !Expired(r, now)
    && (feasible ==> RouteFeasible(sources, r, now))
    && (exclude.Some? ==> r.neigh != exclude.value)
  }

  /** The scan of find_best_route from position i with the choice made so far. */
  function BestFrom(sources: Sources, slot: Slot, now: int, feasible: bool, exclude: Option<Neigh>,
                    i: nat, best: nat): (b: nat)
    requires Known(sources, slot) && i <= |slot| && best < |slot|
    ensures b < |slot|
    decreases |slot| - i
  {
    if i == |slot| then best
    else
      var better := Eligible(sources, slot[i], now, feasible, exclude) && Metric(slot[i]) < Metric(slot[best]);
      BestFrom(sources, slot, now, feasible, exclude, i + 1, if better then i else best)
  }

  /** find_best_route: the scan starts after the head, which is the first choice. */
  function Best(sources: Sources, slot: Slot, now: int, feasible: bool, exclude: Option<Neigh>): (b: nat)
    requires Known(sources, slot) && |slot| > 0
    ensures b < |slot|
  {
    BestFrom(sources, slot, now, feasible, exclude, 1, 0)
  }

  /** An exported route for the prefix keeps Babel routes out of the kernel. */
  predicate Blocked(env: Env) {
    env.xroute.Some? && (env.allowDuplicates < 0 || env.xroute.value >= env.allowDuplicates)
  }

  predicate Switches(env: Env, sources: Sources, slot: Slot, k: nat)
    requires Known(sources, slot) && k < |slot|
  {
    && !slot[k].installed
    && RouteFeasible(sources, slot[k], env.now)
    && !Blocked(env)
    && (|| !slot[0].installed
        || (&& Metric(slot[k]) < INFINITY
            && (Metric(slot[0]) >= INFINITY || Metric(slot[0]) >= Metric(slot[k]) + 64)))
  }

  /** consider_route. */
  function Consider(env: Env, sources: Sources, slot: Slot, k: nat): (after: Slot)
    requires Known(sources, slot) && k < |slot|
    ensures |after| == |slot| && Known(sources, after)
  {
    if Switches(env, sources, slot, k) then SwitchTo(slot, k) else slot
  }

  /** route_changed. */
  function Changed(env: Env, sources: Sources, slot: Slot, k: nat, oldMetric: u16): (after: Slot)
    requires Known(sources, slot) && k < |slot|
    ensures |after| == |slot| && Known(sources, after)
  {
    if slot[k].installed then
      var b := Best(sources, slot, env.now, true, None);
      if Metric(slot[k]) > oldMetric && Metric(slot[b]) <= Metric(slot[k]) - 96 then
        Consider(env, sources, slot, b)
      else slot
    else
      Consider(env, sources, slot, k)
  }

  /** route_lost. */
  function Lost(env: Env, sources: Sources, slot: Slot): Slot
    requires Known(sources, slot)
  {
    if |slot| == 0 then slot
    else Consider(env, sources, slot, Best(sources, slot, env.now, true, None))
  }

  /** flush_route on the slot. */
  function Flushed(env: Env, sources: Sources, slot: Slot, k: nat): Slot
    requires Known(sources, slot) && k < |slot|
  {
    if slot[k].installed then Lost(env, sources, Without(slot, k)) else Without(slot, k)
  }

  /** The fields change_route_metric sets, with the cost cut already. */
  function WithMetric(r: Route, refmetric: u16, cost: u16, addMetric: u16): Route {
    r.(refmetric := refmetric, cost := cost, addMetric := addMetric)
  }

  /** retract_route. */
  function Retracted(r: Route): Route {
    WithMetric(r, INFINITY, INFINITY, 0)
  }

  /** The body of the retraction loop: retract_route, then route_changed. */
  function RetractAt(env: Env, sources: Sources, slot: Slot, k: nat): Slot
    requires Known(sources, slot) && k < |slot|
  {
    if slot[k].refmetric == INFINITY then slot
    else
      var changed := slot[k := Retracted(slot[k])];
      if Metric(slot[k]) != INFINITY then Changed(env, sources, changed, k, Metric(slot[k])) else changed
  }

  /** update_route_metric. */
  function RefreshMetric(env: Env, sources: Sources, slot: Slot, k: nat, cost: nat, addMetric: u16): Slot
    requires Known(sources, slot) && k < |slot|
  {
    var r := slot[k];
    if Expired(r, env.now) then
      if r.refmetric >= INFINITY then slot
      else
        var changed := slot[k := Retracted(r.(seqno := Plus(sources[r.src].seqno, 1)))];
        if Metric(r) < INFINITY then Changed(env, sources, changed, k, Metric(r)) else changed
    else
      var changed := slot[k := WithMetric(r, r.refmetric, Cut(cost), addMetric)];
      if Metric(changed[k]) != Metric(r) then Changed(env, sources, changed, k, Metric(r)) else changed
  }

  function HoldTime(interval: u16): nat {
    var h := 4 * interval / 100 + interval / 50;
    if h <= 15 then 15 else h
  }

  /** The position of the route through (neigh, nexthop), or |slot|. */
  function FindVia(slot: Slot, neigh: Neigh, nexthop: nat): (k: nat)
    ensures k <= |slot|
    ensures k < |slot| ==> SameVia(slot[k], neigh, nexthop)
    ensures forall j :: 0 <= j < k ==> !SameVia(slot[j], neigh, nexthop)
  {
    if |slot| == 0 || SameVia(slot[0], neigh, nexthop) then 0
    else FindVia(slot[1..], neigh, nexthop) + 1
  }

  /** An existing route as an update leaves it, before any decision is taken.
      An unfeasible update that changes the source uninstalls the route. */
  function Revised(env: Env, s: Source, r: Route, sid: SourceId, u: Update): Route {
    var feasible := Feasible(s, u.seqno, u.refmetric, env.now);
    r.(installed := r.installed && (feasible || r.src == sid),
       src := sid,
       time := if (feasible || env.keepUnfeasible) && u.refmetric < INFINITY then env.now else r.time,
       seqno := u.seqno,
       refmetric := u.refmetric, cost := Cut(u.cost), addMetric := u.addMetric,
       holdTime := HoldTime(u.interval))
  }

  function NewRoute(env: Env, sid: SourceId, u: Update): Route {
    Route(sid, u.refmetric, Cut(u.cost), u.addMetric, u.seqno, u.neigh, u.nexthop,
          env.now, HoldTime(u.interval), false)
  }

  /** update_route on an existing route at position k: route_changed, and
      route_lost when the update cost the route its place in the kernel. */
  function UpdateExisting(env: Env, sources: Sources, slot: Slot, k: nat, sid: SourceId, u: Update): Slot
    requires Known(sources, slot) && k < |slot| && sid in sources
  {
    var r := Revised(env, sources[sid], slot[k], sid, u);
    var changed := Changed(env, sources, slot[k := r], k, Metric(slot[k]));
    if slot[k].installed && !r.installed then Lost(env, sources, changed) else changed
  }

  /** update_route on a route that is not in the table. */
  predicate Accepts(env: Env, s: Source, u: Update) {
    u.refmetric < INFINITY && (env.keepUnfeasible || Feasible(s, u.seqno, u.refmetric, env.now))
  }

  function InsertNew(env: Env, sources: Sources, slot: Slot, sid: SourceId, u: Update): Slot
    requires Known(sources, slot) && sid in sources
  {
    Consider(env, sources, slot + [NewRoute(env, sid, u)], |slot|)
  }

  /** The slot and sources after update_route, for updates that pass the
      router-id and input-filter tests. */
  function SlotAfterUpdate(env: Env, sources: Sources, slot: Slot, sid: SourceId, u: Update): Slot
    requires Known(sources, slot) && sid in sources
  {
    var k := FindVia(slot, u.neigh, u.nexthop);
    if k < |slot| then UpdateExisting(env, sources, slot, k, sid, u)
    else if Accepts(env, sources[sid], u) then InsertNew(env, sources, slot, sid, u)
    else slot
  }
}
