/** What every route-selection step keeps, and where an installed route comes from. */
module SelectionProps {
  import opened Basics
  import opened Seqno
  import opened Selection

  /** The installed route of `after` is feasible, unless it already was the
      installed route of `before`, through the same neighbour and source. */
  predicate Inherited(before: Slot, after: Slot) {
    && HasInstalled(before) && HasInstalled(after)
    && SameVia(after[0], before[0].neigh, before[0].nexthop)
    && after[0].src == before[0].src
  }

  predicate SoundInstall(sources: Sources, now: int, before: Slot, after: Slot)
    requires Known(sources, after)
  {
    HasInstalled(after) ==> Inherited(before, after) || RouteFeasible(sources, after[0], now)
  }

  /** What a route says about its neighbour: "it advertised this". */
  predicate SameClaim(r: Route, q: Route) {
    r.src == q.src && r.neigh == q.neigh && r.nexthop == q.nexthop && r.seqno == q.seqno && r.refmetric == q.refmetric
  }

  predicate Claimed(slot: Slot, r: Route) {
    exists j :: 0 <= j < |slot| && SameClaim(r, slot[j])
  }

  /** Every finite claim in `after` was made in `before`. */
  predicate NoNewClaims(before: Slot, after: Slot) {
    forall i :: 0 <= i < |after| && after[i].refmetric < INFINITY ==> Claimed(before, after[i])
  }

  lemma NoNewClaimsTransitive(a: Slot, b: Slot, c: Slot)
    requires NoNewClaims(a, b) && NoNewClaims(b, c)
    ensures NoNewClaims(a, c)
  {
  }

  lemma ErasedConcat(a: Slot, b: Slot)
    ensures Erased(a + b) == Erased(a) + Erased(b)
    ensures Bag(a + b) == Bag(a) + Bag(b)
  {
  }

  lemma SplitAt(slot: Slot, k: nat)
    requires k < |slot|
    ensures Bag(slot) == Bag(slot[..k]) + multiset{Erase(slot[k])} + Bag(slot[k + 1..])
    ensures Bag(Without(slot, k)) == Bag(slot) - multiset{Erase(slot[k])}
  {
    assert slot == slot[..k] + [slot[k]] + slot[k + 1..];
    ErasedConcat(slot[..k] + [slot[k]], slot[k + 1..]);
    ErasedConcat(slot[..k], [slot[k]]);
    assert Erased([slot[k]]) == [Erase(slot[k])];
    ErasedConcat(slot[..k], slot[k + 1..]);
  }

  /** Where the route at position i of SwitchTo(slot, k) comes from. */
  function SwitchSource(k: nat, i: nat): nat {
    if i == 0 then k else if i <= k then i - 1 else i
  }

  lemma SwitchToAt(slot: Slot, k: nat, i: nat)
    requires k < |slot| && i < |slot|
    ensures Erase(SwitchTo(slot, k)[i]) == Erase(slot[SwitchSource(k, i)])
    ensures i > 1 ==> SwitchTo(slot, k)[i] == slot[SwitchSource(k, i)]
    ensures i == 1 && k > 0 ==> !SwitchTo(slot, k)[i].installed
  {
  }

  lemma SwitchToClaims(slot: Slot, k: nat)
    requires k < |slot|
    ensures NoNewClaims(slot, SwitchTo(slot, k))
  {
  }

  lemma SwitchToBag(slot: Slot, k: nat)
    requires k < |slot|
    ensures Bag(SwitchTo(slot, k)) == Bag(slot)
  {
    var head, mid, tail := [slot[k].(installed := true)], Demoted(slot[..k]), slot[k + 1..];
    SplitAt(slot, k);
    ErasedConcat(head + mid, tail);
    ErasedConcat(head, mid);
    assert Bag(mid) == Bag(slot[..k]) by {
      assert Erased(mid) == Erased(slot[..k]);
    }
    assert Bag(head) == multiset{Erase(slot[k])} by {
      assert Erased(head) == [Erase(slot[k])];
    }
    assert Bag(SwitchTo(slot, k)) == Bag(head) + Bag(mid) + Bag(tail);
  }

  lemma SwitchToVias(slot: Slot, k: nat)
    requires ViaUnique(slot) && k < |slot|
    ensures ViaUnique(SwitchTo(slot, k))
  {
    var after := SwitchTo(slot, k);
    forall i, j | 0 <= i < j < |after|
      ensures !SameVia(after[i], after[j].neigh, after[j].nexthop)
    {
      SwitchToAt(slot, k, i);
      SwitchToAt(slot, k, j);
      var i', j' := SwitchSource(k, i), SwitchSource(k, j);
      assert i' < j' ==> !SameVia(slot[i'], slot[j'].neigh, slot[j'].nexthop);
      assert j' < i' ==> !SameVia(slot[j'], slot[i'].neigh, slot[i'].nexthop);
    }
  }

  lemma SwitchToValid(key: Key, sources: Sources, slot: Slot, k: nat)
    requires ValidSlot(key, sources, slot) && k < |slot|
    ensures ValidSlot(key, sources, SwitchTo(slot, k))
  {
    SwitchToVias(slot, k);
    var after := SwitchTo(slot, k);
    forall i | 0 <= i < |after|
      ensures after[i].src in sources && after[i].src.key == key && (i > 0 ==> !after[i].installed)
    {
      SwitchToAt(slot, k, i);
    }
  }

  /** The frame of a decision: what consider_route, route_changed and route_lost
      all guarantee about a slot. */
  ghost predicate Decision(key: Key, sources: Sources, now: int, before: Slot, after: Slot) {
    && ValidSlot(key, sources, after)
    && |after| == |before|
    && Bag(after) == Bag(before)
    && NoNewClaims(before, after)
    && SoundInstall(sources, now, before, after)
  }

  lemma NothingChanged(key: Key, sources: Sources, now: int, slot: Slot)
    requires ValidSlot(key, sources, slot)
    ensures Decision(key, sources, now, slot, slot)
  {
  }

  lemma ConsiderDecides(key: Key, env: Env, sources: Sources, slot: Slot, k: nat)
    requires ValidSlot(key, sources, slot) && k < |slot|
    ensures Decision(key, sources, env.now, slot, Consider(env, sources, slot, k))
    ensures Blocked(env) ==> Consider(env, sources, slot, k) == slot
  {
    NothingChanged(key, sources, env.now, slot);
    if Switches(env, sources, slot, k) {
      SwitchToValid(key, sources, slot, k);
      SwitchToBag(slot, k);
      SwitchToClaims(slot, k);
      var r := SwitchTo(slot, k)[0];
      assert r == slot[k].(installed := true);
    }
  }

  lemma ChangedDecides(key: Key, env: Env, sources: Sources, slot: Slot, k: nat, oldMetric: u16)
    requires ValidSlot(key, sources, slot) && k < |slot|
    ensures Decision(key, sources, env.now, slot, Changed(env, sources, slot, k, oldMetric))
    ensures Blocked(env) ==> Changed(env, sources, slot, k, oldMetric) == slot
  {
    NothingChanged(key, sources, env.now, slot);
    ConsiderDecides(key, env, sources, slot, k);
    ConsiderDecides(key, env, sources, slot, Best(sources, slot, env.now, true, None));
  }

  lemma LostDecides(key: Key, env: Env, sources: Sources, slot: Slot)
    requires ValidSlot(key, sources, slot)
    ensures Decision(key, sources, env.now, slot, Lost(env, sources, slot))
    ensures Blocked(env) ==> Lost(env, sources, slot) == slot
  {
    NothingChanged(key, sources, env.now, slot);
    if |slot| > 0 {
      ConsiderDecides(key, env, sources, slot, Best(sources, slot, env.now, true, None));
    }
  }

  /** Two decisions in a row are one. */
  lemma DecisionsCompose(key: Key, sources: Sources, now: int, a: Slot, b: Slot, c: Slot)
    requires Decision(key, sources, now, a, b) && Decision(key, sources, now, b, c)
    requires Known(sources, a)
    ensures Decision(key, sources, now, a, c)
  {
  }

  /** Equal bags and unique vias: the same via means the same route. */
  lemma HeadFollowsBag(b: Slot, c: Slot)
    requires ViaUnique(b) && Bag(b) == Bag(c) && Inherited(b, c)
    ensures Erase(b[0]) == Erase(c[0])
  {
    assert Erased(c)[0] in Bag(c);
    var i :| 0 <= i < |Erased(b)| && Erased(b)[i] == Erased(c)[0];
    assert SameVia(b[0], b[i].neigh, b[i].nexthop);
  }

  lemma WithoutKeeps(key: Key, sources: Sources, slot: Slot, k: nat)
    requires ValidSlot(key, sources, slot) && k < |slot|
    ensures ValidSlot(key, sources, Without(slot, k))
    ensures Bag(Without(slot, k)) == Bag(slot) - multiset{Erase(slot[k])}
    ensures NoNewClaims(slot, Without(slot, k))
  {
    SplitAt(slot, k);
    var after := Without(slot, k);
    forall i | 0 <= i < |after| && after[i].refmetric < INFINITY ensures Claimed(slot, after[i]) {
      assert SameClaim(after[i], slot[if i < k then i else i + 1]);
    }
  }

  /** flush_route removes exactly one route, whatever it then installs. */
  lemma FlushedKeeps(key: Key, env: Env, sources: Sources, slot: Slot, k: nat)
    requires ValidSlot(key, sources, slot) && k < |slot|
    ensures var after := Flushed(env, sources, slot, k);
            && ValidSlot(key, sources, after)
            && |after| == |slot| - 1
            && Bag(after) == Bag(slot) - multiset{Erase(slot[k])}
            && NoNewClaims(slot, after)
            && SoundInstall(sources, env.now, slot, after)
            && (Blocked(env) && HasInstalled(after) ==> HasInstalled(slot))
  {
    WithoutKeeps(key, sources, slot, k);
    var rest := Without(slot, k);
    if slot[k].installed {
      LostDecides(key, env, sources, rest);
      var after := Lost(env, sources, rest);
      assert !HasInstalled(rest);
      NoNewClaimsTransitive(slot, rest, after);
    }
  }

  lemma ReplaceBag(slot: Slot, k: nat, r: Route)
    requires k < |slot|
    ensures Bag(slot[k := r]) == Bag(slot) - multiset{Erase(slot[k])} + multiset{Erase(r)}
  {
    SplitAt(slot, k);
    SplitAt(slot[k := r], k);
    assert slot[k := r][..k] == slot[..k] && slot[k := r][k + 1..] == slot[k + 1..];
  }

  /** Replacing one route by another through the same via keeps a slot valid. */
  lemma ReplaceKeeps(key: Key, sources: Sources, slot: Slot, k: nat, r: Route)
    requires ValidSlot(key, sources, slot) && k < |slot|
    requires SameVia(r, slot[k].neigh, slot[k].nexthop) && r.src in sources && r.src.key == key
    requires r.installed ==> slot[k].installed
    ensures ValidSlot(key, sources, slot[k := r])
  {
  }

  /** Every finite claim in `after` was made in `before` or is that of r. */
  predicate OneNewClaim(before: Slot, after: Slot, r: Route) {
    forall i :: 0 <= i < |after| && after[i].refmetric < INFINITY ==>
      Claimed(before, after[i]) || SameClaim(after[i], r)
  }

  /** What replacing route k by r and then deciding does to a slot. */
  ghost predicate Replacement(key: Key, sources: Sources, now: int, before: Slot, k: nat, r: Route, after: Slot)
    requires k < |before|
  {
    && ValidSlot(key, sources, after)
    && |after| == |before|
    && Bag(after) == Bag(before) - multiset{Erase(before[k])} + multiset{Erase(r)}
    && OneNewClaim(before, after, r)
    && SoundInstall(sources, now, before, after)
  }

  /** r may take the place of before[k]: it stays installed only if it was, and
      then only through the same source or as a feasible route. */
  predicate Replaces(key: Key, sources: Sources, now: int, prior: Route, r: Route) {
    && SameVia(r, prior.neigh, prior.nexthop)
    && r.src in sources && r.src.key == key
    && (r.installed ==> prior.installed && (r.src == prior.src || RouteFeasible(sources, r, now)))
  }

  lemma OneNewClaimAfter(slot: Slot, k: nat, r: Route, after: Slot)
    requires k < |slot| && NoNewClaims(slot[k := r], after)
    ensures OneNewClaim(slot, after, r)
  {
  }

  lemma ReplaceThenDecide(key: Key, sources: Sources, now: int, slot: Slot, k: nat, r: Route, after: Slot)
    requires ValidSlot(key, sources, slot) && k < |slot| && Replaces(key, sources, now, slot[k], r)
    requires Decision(key, sources, now, slot[k := r], after)
    ensures Replacement(key, sources, now, slot, k, r, after)
  {
    ReplaceKeeps(key, sources, slot, k, r);
    ReplaceBag(slot, k, r);
    OneNewClaimAfter(slot, k, r, after);
    var mid := slot[k := r];
    if HasInstalled(after) && Inherited(mid, after) {
      HeadFollowsBag(mid, after);
    }
  }

  /** route_changed right after the route at position k became r. */
  lemma ReplaceThenChanged(key: Key, env: Env, sources: Sources, slot: Slot, k: nat, r: Route, oldMetric: u16)
    requires ValidSlot(key, sources, slot) && k < |slot| && Replaces(key, sources, env.now, slot[k], r)
    ensures Replacement(key, sources, env.now, slot, k, r, Changed(env, sources, slot[k := r], k, oldMetric))
    ensures Replacement(key, sources, env.now, slot, k, r, slot[k := r])
    ensures Blocked(env) ==> Changed(env, sources, slot[k := r], k, oldMetric) == slot[k := r]
  {
    ReplaceKeeps(key, sources, slot, k, r);
    NothingChanged(key, sources, env.now, slot[k := r]);
    ChangedDecides(key, env, sources, slot[k := r], k, oldMetric);
    ReplaceThenDecide(key, sources, env.now, slot, k, r, slot[k := r]);
    ReplaceThenDecide(key, sources, env.now, slot, k, r, Changed(env, sources, slot[k := r], k, oldMetric));
  }

  lemma UpdateExistingReplaces(key: Key, env: Env, sources: Sources, slot: Slot, k: nat, sid: SourceId, u: Update)
    requires ValidSlot(key, sources, slot) && k < |slot| && sid in sources && sid.key == key
    ensures var r := Revised(env, sources[sid], slot[k], sid, u);
            var after := UpdateExisting(env, sources, slot, k, sid, u);
            && Replacement(key, sources, env.now, slot, k, r, after)
            && (Blocked(env) && HasInstalled(after) ==> HasInstalled(slot))
  {
    var r := Revised(env, sources[sid], slot[k], sid, u);
    var changed := Changed(env, sources, slot[k := r], k, Metric(slot[k]));
    ReplaceThenChanged(key, env, sources, slot, k, r, Metric(slot[k]));
    if slot[k].installed && !r.installed {
      ReplaceKeeps(key, sources, slot, k, r);
      ChangedDecides(key, env, sources, slot[k := r], k, Metric(slot[k]));
      LostDecides(key, env, sources, changed);
      DecisionsCompose(key, sources, env.now, slot[k := r], changed, Lost(env, sources, changed));
      ReplaceThenDecide(key, sources, env.now, slot, k, r, Lost(env, sources, changed));
    }
  }

  /** The route update_route_metric puts in place of r. */
  function Refreshed(env: Env, sources: Sources, r: Route, cost: nat, addMetric: u16): Route
    requires r.src in sources
  {
    if !Expired(r, env.now) then WithMetric(r, r.refmetric, Cut(cost), addMetric)
    else if r.refmetric >= INFINITY then r
    else Retracted(r.(seqno := Plus(sources[r.src].seqno, 1)))
  }

  lemma RefreshMetricCases(env: Env, sources: Sources, slot: Slot, k: nat, cost: nat, addMetric: u16)
    requires Known(sources, slot) && k < |slot|
    ensures var r := Refreshed(env, sources, slot[k], cost, addMetric);
            var after := RefreshMetric(env, sources, slot, k, cost, addMetric);
            after == slot[k := r] || after == Changed(env, sources, slot[k := r], k, Metric(slot[k]))
  {
  }

  lemma RefreshMetricReplaces(key: Key, env: Env, sources: Sources, slot: Slot, k: nat, cost: nat, addMetric: u16)
    requires ValidSlot(key, sources, slot) && k < |slot|
    ensures var after := RefreshMetric(env, sources, slot, k, cost, addMetric);
            && Replacement(key, sources, env.now, slot, k, Refreshed(env, sources, slot[k], cost, addMetric), after)
            && (Blocked(env) && HasInstalled(after) ==> HasInstalled(slot))
  {
    RefreshMetricCases(env, sources, slot, k, cost, addMetric);
    ReplaceThenChanged(key, env, sources, slot, k, Refreshed(env, sources, slot[k], cost, addMetric), Metric(slot[k]));
  }

  lemma RetractAtReplaces(key: Key, env: Env, sources: Sources, slot: Slot, k: nat)
    requires ValidSlot(key, sources, slot) && k < |slot|
    ensures var after := RetractAt(env, sources, slot, k);
            var r := if slot[k].refmetric == INFINITY then slot[k] else Retracted(slot[k]);
            && Replacement(key, sources, env.now, slot, k, r, after)
            && (Blocked(env) && HasInstalled(after) ==> HasInstalled(slot))
  {
    var r := if slot[k].refmetric == INFINITY then slot[k] else Retracted(slot[k]);
    ReplaceThenChanged(key, env, sources, slot, k, r, Metric(slot[k]));
    assert r == slot[k] ==> slot[k := r] == slot;
  }

  lemma AppendKeeps(key: Key, sources: Sources, slot: Slot, r: Route)
    requires ValidSlot(key, sources, slot) && r.src in sources && r.src.key == key && !r.installed
    requires FindVia(slot, r.neigh, r.nexthop) == |slot|
    ensures ValidSlot(key, sources, slot + [r]) && Bag(slot + [r]) == Bag(slot) + multiset{r}
  {
    ErasedConcat(slot, [r]);
    assert Erased([r]) == [r];
  }

  lemma AppendClaims(slot: Slot, r: Route, after: Slot)
    requires NoNewClaims(slot + [r], after)
    ensures OneNewClaim(slot, after, r)
  {
    var mid := slot + [r];
    forall i | 0 <= i < |after| && after[i].refmetric < INFINITY
      ensures Claimed(slot, after[i]) || SameClaim(after[i], r)
    {
      var j :| 0 <= j < |mid| && SameClaim(after[i], mid[j]);
      if j < |slot| {
        assert SameClaim(after[i], slot[j]);
      }
    }
  }

  /** A new route is appended, then considered. */
  lemma InsertNewKeeps(key: Key, env: Env, sources: Sources, slot: Slot, sid: SourceId, u: Update)
    requires ValidSlot(key, sources, slot) && sid in sources && sid.key == key
    requires FindVia(slot, u.neigh, u.nexthop) == |slot|
    ensures var r := NewRoute(env, sid, u);
            var after := InsertNew(env, sources, slot, sid, u);
            && ValidSlot(key, sources, after)
            && |after| == |slot| + 1
            && Bag(after) == Bag(slot) + multiset{r}
            && OneNewClaim(slot, after, r)
            && SoundInstall(sources, env.now, slot, after)
            && (Blocked(env) && HasInstalled(after) ==> HasInstalled(slot))
  {
    var r := NewRoute(env, sid, u);
    AppendKeeps(key, sources, slot, r);
    ConsiderDecides(key, env, sources, slot + [r], |slot|);
    AppendClaims(slot, r, InsertNew(env, sources, slot, sid, u));
  }

  // ----- find_best_route -----

  lemma {:induction false} BestFromIsMinimal(sources: Sources, slot: Slot, now: int, feasible: bool,
                                             exclude: Option<Neigh>, i: nat, best: nat)
    requires Known(sources, slot) && best < i <= |slot|
    ensures var b := BestFrom(sources, slot, now, feasible, exclude, i, best);
            && Metric(slot[b]) <= Metric(slot[best])
            && (b == best ||
                (i <= b && Eligible(sources, slot[b], now, feasible, exclude) && Metric(slot[b]) < Metric(slot[best])))
            && (forall j :: i <= j < |slot| && Eligible(sources, slot[j], now, feasible, exclude) ==>
                  Metric(slot[b]) <= Metric(slot[j]))
    decreases |slot| - i
  {
    if i < |slot| {
      var better := Eligible(sources, slot[i], now, feasible, exclude) && Metric(slot[i]) < Metric(slot[best]);
      BestFromIsMinimal(sources, slot, now, feasible, exclude, i + 1, if better then i else best);
    }
  }

  /** find_best_route promises the eligible route of smallest metric.  Its metric
      is minimal, but since the head is taken unseen, the result is eligible if
      and only if the head is or something eligible has a smaller metric. */
  lemma BestIsEligibleIff(sources: Sources, slot: Slot, now: int, feasible: bool, exclude: Option<Neigh>)
    requires Known(sources, slot) && |slot| > 0
    ensures var b := Best(sources, slot, now, feasible, exclude);
            && (forall j :: 0 <= j < |slot| && Eligible(sources, slot[j], now, feasible, exclude) ==>
                  Metric(slot[b]) <= Metric(slot[j]))
            && (Eligible(sources, slot[b], now, feasible, exclude) <==>
                (|| Eligible(sources, slot[0], now, feasible, exclude)
                 || exists j :: 0 < j < |slot| && Eligible(sources, slot[j], now, feasible, exclude)
                                && Metric(slot[j]) < Metric(slot[0])))
  {
    BestFromIsMinimal(sources, slot, now, feasible, exclude, 1, 0);
  }

  /** Past the head, find_best_route takes only what was heard of within its hold
      time, is feasible if it must be, and comes from another neighbour than excluded. */
  lemma BestIsFresh(sources: Sources, slot: Slot, now: int, feasible: bool, exclude: Option<Neigh>)
    requires Known(sources, slot) && |slot| > 0
    ensures var b := Best(sources, slot, now, feasible, exclude);
            b > 0 ==> && now - slot[b].time <= slot[b].holdTime && exclude != Some(slot[b].neigh)
                      && (feasible ==> RouteFeasible(sources, slot[b], now))
  {
    BestFromIsMinimal(sources, slot, now, feasible, exclude, 1, 0);
  }
}
