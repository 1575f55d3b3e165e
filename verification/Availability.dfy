/** What a route-selection step must install, as opposed to what it may (module
    SelectionProps): a destination that can be served is served, by a route that is
    not much worse than the best one (babeld/route.c). */
module Availability {
  import opened Basics
  import opened Seqno
  import opened Selection
  import opened SelectionProps

  /** Heard of within its hold time, and feasible. */
  predicate Usable(sources: Sources, slot: Slot, now: int, j: nat)
    requires Known(sources, slot) && j < |slot|
  {
    now - slot[j].time <= slot[j].holdTime && RouteFeasible(sources, slot[j], now)
  }

  /** No route for the prefix is exported, or one with a metric that the setting for
      duplicates lets pass. */
  predicate Open(env: Env) {
    env.xroute.Some? ==> env.xroute.value < env.allowDuplicates
  }

  /** No usable route of the slot is better than r. */
  predicate BestOf(sources: Sources, slot: Slot, now: int, r: Route)
    requires Known(sources, slot)
  {
    forall j :: 0 <= j < |slot| && Usable(sources, slot, now, j) ==> Metric(r) <= Metric(slot[j])
  }

  // ----- consider_route -----

  /** A feasible route that is considered is installed, or something less than 64
      worse stays so, and finite; and what is installed never gets worse. */
  lemma ConsiderServes(env: Env, sources: Sources, slot: Slot, k: nat)
    requires Known(sources, slot) && HeadOnly(slot) && k < |slot|
    ensures var after := Consider(env, sources, slot, k);
            && (HasInstalled(slot) ==> HasInstalled(after) && Metric(after[0]) <= Metric(slot[0]))
            && (RouteFeasible(sources, slot[k], env.now) && Open(env) ==>
                  && HasInstalled(after)
                  && (Metric(slot[k]) < INFINITY ==> Metric(after[0]) < Min(Metric(slot[k]) + 64, INFINITY)))
  {
  }

  // ----- route_lost -----

  /** The head is feasible, or a usable route is better than the head. */
  predicate Replaceable(sources: Sources, slot: Slot, now: int)
    requires Known(sources, slot)
  {
    && |slot| > 0
    && (|| RouteFeasible(sources, slot[0], now)
        || exists j :: 0 < j < |slot| && Usable(sources, slot, now, j) && Metric(slot[j]) < Metric(slot[0]))
  }

  /** With nothing installed, route_lost installs something exactly if the slot is
      replaceable, and then nothing usable is better. */
  lemma LostServesIff(env: Env, sources: Sources, slot: Slot)
    requires Known(sources, slot) && HeadOnly(slot) && !HasInstalled(slot) && Open(env)
    ensures var after := Lost(env, sources, slot);
            && (HasInstalled(after) <==> Replaceable(sources, slot, env.now))
            && (HasInstalled(after) ==> BestOf(sources, slot, env.now, after[0]))
  {
    if |slot| > 0 {
      BestFromIsMinimal(sources, slot, env.now, true, None, 1, 0);
      BestIsEligibleIff(sources, slot, env.now, true, None);
      var b := Best(sources, slot, env.now, true, None);
      if b > 0 {
        assert Usable(sources, slot, env.now, b) && Metric(slot[b]) < Metric(slot[0]);
      }
    }
  }

  predicate ReplaceableWithout(sources: Sources, slot: Slot, k: nat, now: int)
    requires Known(sources, slot) && k < |slot|
  {
    Replaceable(sources, Without(slot, k), now)
  }

  /** flush_route on the installed route. */
  lemma FlushServesIff(env: Env, sources: Sources, slot: Slot, k: nat)
    requires Known(sources, slot) && HeadOnly(slot) && k < |slot| && slot[k].installed && Open(env)
    ensures var rest, after := Without(slot, k), Flushed(env, sources, slot, k);
            && (HasInstalled(after) <==> ReplaceableWithout(sources, slot, k, env.now))
            && (HasInstalled(after) ==> BestOf(sources, rest, env.now, after[0]))
  {
    LostServesIff(env, sources, Without(slot, k));
  }

  // ----- route_changed -----

  /** A usable route is at least 96 better than the installed one. */
  predicate Beaten(sources: Sources, slot: Slot, now: int)
    requires Known(sources, slot)
  {
    exists j :: 0 <= j < |slot| && Usable(sources, slot, now, j) && Metric(slot[j]) + 96 <= Metric(slot[0])
  }

  /** Only when the installed route has got worse, route_changed leaves it for the best
      usable one, exactly if that is at least 96 better; else nothing changes. */
  lemma ChangedFailsOverIff(env: Env, sources: Sources, slot: Slot, oldMetric: u16)
    requires Known(sources, slot) && HeadOnly(slot) && HasInstalled(slot)
    ensures var after := Changed(env, sources, slot, 0, oldMetric);
            if Metric(slot[0]) > oldMetric && Open(env) && Beaten(sources, slot, env.now) then
              && HasInstalled(after) && BestOf(sources, slot, env.now, after[0])
              && Metric(after[0]) + 96 <= Metric(slot[0])
            else after == slot
  {
    BestFromIsMinimal(sources, slot, env.now, true, None, 1, 0);
    BestIsEligibleIff(sources, slot, env.now, true, None);
    var b := Best(sources, slot, env.now, true, None);
    if Beaten(sources, slot, env.now) {
      var j :| 0 <= j < |slot| && Usable(sources, slot, env.now, j) && Metric(slot[j]) + 96 <= Metric(slot[0]);
      assert Metric(slot[b]) <= Metric(slot[j]);
    } else if b > 0 {
      assert Usable(sources, slot, env.now, b);
    }
  }

  /** A route that is not installed is considered whatever its metric was. */
  lemma ChangedServes(env: Env, sources: Sources, slot: Slot, k: nat, oldMetric: u16)
    requires Known(sources, slot) && HeadOnly(slot) && k < |slot| && RouteFeasible(sources, slot[k], env.now)
    requires Open(env)
    ensures var after := Changed(env, sources, slot, k, oldMetric);
            && HasInstalled(after)
            && (Metric(slot[k]) < INFINITY ==> Metric(after[0]) < Min(Metric(slot[k]) + 64, INFINITY))
  {
    var b := Best(sources, slot, env.now, true, None);
    ConsiderServes(env, sources, slot, k);
    ConsiderServes(env, sources, slot, b);
  }

  // ----- the three ways a route gets worse -----

  /** The slot after the installed route has become r, and what is then decided. */
  ghost predicate FailsOver(env: Env, sources: Sources, slot: Slot, r: Route, after: Slot)
    requires |slot| > 0 && Known(sources, slot[0 := r])
  {
    var worse := slot[0 := r];
    if Open(env) && Beaten(sources, worse, env.now) then
      && HasInstalled(after) && BestOf(sources, worse, env.now, after[0])
      && Metric(after[0]) + 96 <= Metric(r)
    else after == worse
  }

  /** retract_route, on the installed route. */
  lemma RetractFailsOver(env: Env, sources: Sources, slot: Slot)
    requires Known(sources, slot) && HeadOnly(slot) && HasInstalled(slot) && Metric(slot[0]) < INFINITY
    ensures FailsOver(env, sources, slot, Retracted(slot[0]), RetractAt(env, sources, slot, 0))
  {
    ChangedFailsOverIff(env, sources, slot[0 := Retracted(slot[0])], Metric(slot[0]));
  }

  /** update_route_metric on the installed route, when it has expired or its link has
      got worse. */
  lemma RefreshFailsOver(env: Env, sources: Sources, slot: Slot, cost: nat, addMetric: u16)
    requires Known(sources, slot) && HeadOnly(slot) && HasInstalled(slot)
    requires Metric(Refreshed(env, sources, slot[0], cost, addMetric)) > Metric(slot[0])
    ensures FailsOver(env, sources, slot, Refreshed(env, sources, slot[0], cost, addMetric),
                      RefreshMetric(env, sources, slot, 0, cost, addMetric))
  {
    ChangedFailsOverIff(env, sources, slot[0 := Refreshed(env, sources, slot[0], cost, addMetric)], Metric(slot[0]));
  }

  /** update_route on the installed route, when it keeps its source but the metric
      grows; a retraction is the extreme case. */
  lemma UpdateFailsOver(env: Env, sources: Sources, slot: Slot, u: Update)
    requires Known(sources, slot) && HeadOnly(slot) && HasInstalled(slot)
    requires var r := Revised(env, sources[slot[0].src], slot[0], slot[0].src, u); Metric(r) > Metric(slot[0])
    ensures var r := Revised(env, sources[slot[0].src], slot[0], slot[0].src, u);
            FailsOver(env, sources, slot, r, UpdateExisting(env, sources, slot, 0, slot[0].src, u))
  {
    var r := Revised(env, sources[slot[0].src], slot[0], slot[0].src, u);
    ChangedFailsOverIff(env, sources, slot[0 := r], Metric(slot[0]));
  }

  /** update_route_metric on any feasible route whose metric has changed. */
  lemma RefreshServes(env: Env, sources: Sources, slot: Slot, k: nat, cost: nat, addMetric: u16)
    requires Known(sources, slot) && HeadOnly(slot) && k < |slot| && Open(env)
    requires var r := Refreshed(env, sources, slot[k], cost, addMetric);
             RouteFeasible(sources, r, env.now) && Metric(r) != Metric(slot[k])
    ensures var after := RefreshMetric(env, sources, slot, k, cost, addMetric);
            var r := Refreshed(env, sources, slot[k], cost, addMetric);
            HasInstalled(after) && (Metric(r) < INFINITY ==> Metric(after[0]) < Min(Metric(r) + 64, INFINITY))
  {
    ChangedServes(env, sources, slot[k := Refreshed(env, sources, slot[k], cost, addMetric)], k, Metric(slot[k]));
  }

  /** update_route on the installed route, when an unfeasible update moves it to
      another source: it is uninstalled and the rest of the slot searched. */
  lemma UpdateLosesIff(env: Env, sources: Sources, slot: Slot, sid: SourceId, u: Update)
    requires Known(sources, slot) && HeadOnly(slot) && HasInstalled(slot) && sid in sources && Open(env)
    requires sid != slot[0].src && !Feasible(sources[sid], u.seqno, u.refmetric, env.now)
    ensures var moved := slot[0 := Revised(env, sources[sid], slot[0], sid, u)];
            var after := UpdateExisting(env, sources, slot, 0, sid, u);
            && !HasInstalled(moved)
            && (HasInstalled(after) <==> Replaceable(sources, moved, env.now))
            && (HasInstalled(after) ==> BestOf(sources, moved, env.now, after[0]))
  {
    LostServesIff(env, sources, slot[0 := Revised(env, sources[sid], slot[0], sid, u)]);
  }

  /** update_route_metric gives a route that was heard of within its hold time its new
      link cost, and retracts any other. */
  lemma RefreshedIs(env: Env, sources: Sources, r: Route, cost: nat, addMetric: u16)
    requires r.src in sources
    ensures var q := Refreshed(env, sources, r, cost, addMetric);
            && q.src == r.src && SameVia(q, r.neigh, r.nexthop)
            && q.time == r.time && q.holdTime == r.holdTime && q.installed == r.installed
            && if env.now - r.time <= r.holdTime then
                 && q.refmetric == r.refmetric && q.seqno == r.seqno
                 && q.cost == cost % 0x10000 && q.addMetric == addMetric
               else
                 && q.refmetric == Metric(q) == 0xFFFF
                 && (r.refmetric == 0xFFFF ||
                     (q.seqno == (sources[r.src].seqno + 1) % 0x10000 && q.cost == 0xFFFF && q.addMetric == 0))
  {
  }

  // ----- update_route as a whole -----

  /** A route is held for six announcement intervals (in centiseconds), rounded down
      twice, but at least 15 seconds. */
  lemma HoldTimeIs(interval: u16)
    ensures var h := HoldTime(interval);
            h >= 15 && 6 * interval - 200 < 100 * h && (h > 15 ==> 100 * h <= 6 * interval)
  {
  }

  /** An update that a route is made or renewed for. */
  predicate Welcome(env: Env, s: Source, u: Update) {
    u.refmetric < 0xFFFF && (env.keepUnfeasible || Feasible(s, u.seqno, u.refmetric, env.now))
  }

  /** The route an update describes, last heard of at the given time. */
  predicate Records(r: Route, sid: SourceId, u: Update, time: int) {
    && r.src == sid && SameVia(r, u.neigh, u.nexthop)
    && r.refmetric == u.refmetric && r.cost == Cut(u.cost) && r.addMetric == u.addMetric && r.seqno == u.seqno
    && r.holdTime == HoldTime(u.interval) && r.time == time
  }

  ghost predicate Recorded(slot: Slot, sid: SourceId, u: Update, time: int) {
    exists i :: 0 <= i < |slot| && Records(slot[i], sid, u, time)
  }

  lemma InBag(slot: Slot, r: Route) returns (i: nat)
    requires r in Bag(slot)
    ensures i < |slot| && Erase(slot[i]) == r
  {
    i :| 0 <= i < |Erased(slot)| && Erased(slot)[i] == r;
  }

  /** An update to a known route, or one that is welcome, is in the slot after it, and
      only a welcome one renews the route; any other is ignored. */
  lemma UpdateIsRecorded(key: Key, env: Env, sources: Sources, slot: Slot, sid: SourceId, u: Update)
    requires ValidSlot(key, sources, slot) && sid in sources && sid.key == key
    ensures var k, after := FindVia(slot, u.neigh, u.nexthop), SlotAfterUpdate(env, sources, slot, sid, u);
            if Welcome(env, sources[sid], u) then Recorded(after, sid, u, env.now)
            else if k < |slot| then Recorded(after, sid, u, slot[k].time)
            else after == slot
  {
    var k, after := FindVia(slot, u.neigh, u.nexthop), SlotAfterUpdate(env, sources, slot, sid, u);
    if k < |slot| {
      UpdateExistingReplaces(key, env, sources, slot, k, sid, u);
      var r := Revised(env, sources[sid], slot[k], sid, u);
      var i := InBag(after, Erase(r));
      assert Records(after[i], sid, u, r.time);
    } else if Welcome(env, sources[sid], u) {
      InsertNewKeeps(key, env, sources, slot, sid, u);
      var i := InBag(after, Erase(NewRoute(env, sid, u)));
      assert Records(after[i], sid, u, env.now);
    }
  }

  /** The metric an update gives its route. */
  function MetricOf(u: Update): u16 {
    Min(u.refmetric + Cut(u.cost) + u.addMetric, INFINITY)
  }

  /** After a feasible update with a finite metric the destination is served, by a
      route less than 64 worse than the one announced. */
  lemma UpdateServes(key: Key, env: Env, sources: Sources, slot: Slot, sid: SourceId, u: Update)
    requires ValidSlot(key, sources, slot) && sid in sources && Open(env)
    requires u.refmetric < INFINITY && Feasible(sources[sid], u.seqno, u.refmetric, env.now)
    ensures var after := SlotAfterUpdate(env, sources, slot, sid, u);
            HasInstalled(after) && (MetricOf(u) < INFINITY ==> Metric(after[0]) < Min(MetricOf(u) + 64, INFINITY))
  {
    var k := FindVia(slot, u.neigh, u.nexthop);
    if k < |slot| {
      ChangedServes(env, sources, slot[k := Revised(env, sources[sid], slot[k], sid, u)], k, Metric(slot[k]));
    } else {
      ConsiderServes(env, sources, slot + [NewRoute(env, sid, u)], |slot|);
    }
  }
}
