/** The route table of one daemon: the sorted slot array, the kernel routes it
    maintains, the sources it counts references to and the exported routes it
    must stay clear of (babeld/route.c, source.c, xroute.c, kernel.c). */
module RouteTable {
  import opened Basics
  import opened Seqno
  import opened Selection
  import opened SelectionProps
  import opened Availability
  import opened TableView

  const KERNEL_INFINITY := 0xFFFF

  datatype KernelEntry = KernelEntry(nexthop: nat, ifindex: nat, metric: int)

  type Kernel = map<Key, KernelEntry>

  datatype Xroute = Xroute(key: Key, metric: u16, ifindex: nat, proto: int)

  function MetricToKernel(metric: int, kernelMetric: int): int {
    if metric < INFINITY then kernelMetric else KERNEL_INFINITY
  }

  function EntryOf(r: Route, kernelMetric: int): KernelEntry {
    KernelEntry(r.nexthop, r.neigh.ifindex, MetricToKernel(Metric(r), kernelMetric))
  }

  /** The entry of an installed route; a muted one has the metric of a blackhole. */
  function Entry(r: Route, kernelMetric: int, mute: bool): KernelEntry {
    if mute then EntryOf(r, kernelMetric).(metric := KERNEL_INFINITY) else EntryOf(r, kernelMetric)
  }

  /** The kernel holds a route for a destination exactly if its slot has an
      installed route, and then with that route's next hop, interface and metric,
      unless the destination is muted: then, and only then, the metric is wrong. */
  ghost predicate AgreesAt(kernel: Kernel, key: Key, slot: Slot, kernelMetric: int, mute: bool) {
    && (key in kernel <==> HasInstalled(slot))
    && (key in kernel ==> kernel[key] == Entry(slot[0], kernelMetric, mute))
    && (mute ==> HasInstalled(slot) && EntryOf(slot[0], kernelMetric).metric != KERNEL_INFINITY)
  }

  ghost predicate KernelAgrees(kernel: Kernel, slots: seq<Slot>, kernelMetric: int, muted: set<Key>)
    requires NonEmptySlots(slots)
  {
    forall key: Key :: AgreesAt(kernel, key, SlotAt(slots, key), kernelMetric, key in muted)
  }

  /** The muted destinations are exactly those for which the kernel is wrong. */
  lemma MutedIsExact(kernel: Kernel, slots: seq<Slot>, kernelMetric: int, muted: set<Key>, key: Key)
    requires NonEmptySlots(slots) && KernelAgrees(kernel, slots, kernelMetric, muted)
    ensures key in kernel <==> HasInstalled(SlotAt(slots, key))
    ensures key in muted <==> key in kernel && kernel[key] != EntryOf(SlotAt(slots, key)[0], kernelMetric)
  {
    assert AgreesAt(kernel, key, SlotAt(slots, key), kernelMetric, key in muted);
  }

  /** At most the entry of one destination moves. */
  ghost predicate MovesAt(kernel: Kernel, after: Kernel, muted: set<Key>, muted': set<Key>, key: Key) {
    kernel - {key} == after - {key} && muted - {key} == muted' - {key}
  }

  lemma KernelMoves(kernel: Kernel, kernel': Kernel, before: seq<Slot>, after: seq<Slot>, key: Key, kernelMetric: int,
                    muted: set<Key>, muted': set<Key>)
    requires NonEmptySlots(before) && NonEmptySlots(after) && OnlyAt(before, after, key)
    requires KernelAgrees(kernel, before, kernelMetric, muted) && MovesAt(kernel, kernel', muted, muted', key)
    requires AgreesAt(kernel', key, SlotAt(after, key), kernelMetric, key in muted')
    ensures KernelAgrees(kernel', after, kernelMetric, muted')
  {
    forall other: Key | other != key
      ensures AgreesAt(kernel', other, SlotAt(after, other), kernelMetric, other in muted')
    {
      assert SlotAt(after, other) == SlotAt(before, other);
      assert other in kernel' <==> other in kernel' - {key};
      assert other in kernel <==> other in kernel - {key};
      assert other in kernel ==> (kernel - {key})[other] == kernel[other] && (kernel' - {key})[other] == kernel'[other];
      assert other in muted' <==> other in muted' - {key};
      assert AgreesAt(kernel, other, SlotAt(before, other), kernelMetric, other in muted);
    }
  }

  /** What one slot asks of the kernel. */
  function KernelWith(kernel: Kernel, key: Key, slot: Slot, kernelMetric: int): Kernel {
    if HasInstalled(slot) then kernel[key := EntryOf(slot[0], kernelMetric)] else kernel - {key}
  }

  lemma KernelWithMoves(kernel: Kernel, key: Key, slot: Slot, kernelMetric: int, muted: set<Key>)
    ensures MovesAt(kernel, KernelWith(kernel, key, slot, kernelMetric), muted, muted - {key}, key)
  {
    assert KernelWith(kernel, key, slot, kernelMetric) - {key} == kernel - {key};
  }

  lemma PutSlot(sources: Sources, slots: seq<Slot>, kernel: Kernel, kernelMetric: int, muted: set<Key>, i: nat,
                slot: Slot)
    requires ValidSlots(sources, slots) && KernelAgrees(kernel, slots, kernelMetric, muted)
    requires i < |slots| && |slot| > 0 && ValidSlot(KeyOf(slots[i]), sources, slot)
    ensures var after, key := slots[i := slot], KeyOf(slots[i]);
            && ValidSlots(sources, after)
            && KernelAgrees(KernelWith(kernel, key, slot, kernelMetric), after, kernelMetric, muted - {key})
  {
    var key := KeyOf(slots[i]);
    ReplaceSlot(sources, slots, i, slot);
    KernelWithMoves(kernel, key, slot, kernelMetric, muted);
    KernelMoves(kernel, KernelWith(kernel, key, slot, kernelMetric), slots, slots[i := slot], key, kernelMetric,
                muted, muted - {key});
  }

  /** A slot whose installed route looks the same needs no kernel call. */
  lemma KernelStays(kernel: Kernel, before: seq<Slot>, after: seq<Slot>, key: Key, kernelMetric: int, muted: set<Key>)
    requires NonEmptySlots(before) && NonEmptySlots(after) && OnlyAt(before, after, key)
    requires KernelAgrees(kernel, before, kernelMetric, muted)
    requires var slot, slot' := SlotAt(before, key), SlotAt(after, key);
             && HasInstalled(slot) == HasInstalled(slot')
             && (HasInstalled(slot) ==> EntryOf(slot[0], kernelMetric) == EntryOf(slot'[0], kernelMetric))
    ensures KernelAgrees(kernel, after, kernelMetric, muted)
  {
    assert AgreesAt(kernel, key, SlotAt(before, key), kernelMetric, key in muted);
    KernelMoves(kernel, kernel, before, after, key, kernelMetric, muted, muted);
  }

  lemma MutedIsInstalled(sources: Sources, slots: seq<Slot>, kernel: Kernel, kernelMetric: int, muted: set<Key>, i: nat)
    requires ValidSlots(sources, slots) && KernelAgrees(kernel, slots, kernelMetric, muted) && i < |slots|
    ensures KeyOf(slots[i]) in muted ==> HasInstalled(slots[i])
  {
    SlotAtIndex(slots, i);
    assert AgreesAt(kernel, KeyOf(slots[i]), slots[i], kernelMetric, KeyOf(slots[i]) in muted);
  }

  /** Installing route k by an addition. */
  lemma InstallInKernel(sources: Sources, slots: seq<Slot>, kernel: Kernel, kernelMetric: int, muted: set<Key>,
                        i: nat, k: nat)
    requires ValidSlots(sources, slots) && KernelAgrees(kernel, slots, kernelMetric, muted)
    requires i < |slots| && k < |slots[i]|
    ensures var after, key := slots[i := SwitchTo(slots[i], k)], KeyOf(slots[i]);
            var entry := EntryOf(slots[i][k], kernelMetric);
            && ValidSlots(sources, after)
            && KernelAgrees(kernel[key := entry], after, kernelMetric, muted - {key})
            && (kernel - {key})[key := entry] == kernel[key := entry]
  {
    var slot := SwitchTo(slots[i], k);
    SwitchToValid(KeyOf(slots[i]), sources, slots[i], k);
    PutSlot(sources, slots, kernel, kernelMetric, muted, i, slot);
    assert EntryOf(slot[0], kernelMetric) == EntryOf(slots[i][k], kernelMetric);
  }

  /** kernel_route with ROUTE_MODIFY: nothing at all if the caller asks for what it
      believes to be there, else a removal and an addition. */
  function Modified(kernel: Kernel, key: Key, from: KernelEntry, to: KernelEntry): Kernel {
    if from == to then kernel else (kernel - {key})[key := to]
  }

  /** Switching from the installed route to route k.  If both look the same to the
      kernel, it is not told and stays wrong where it was. */
  lemma SwitchInKernel(sources: Sources, slots: seq<Slot>, kernel: Kernel, kernelMetric: int, muted: set<Key>,
                       i: nat, k: nat)
    requires ValidSlots(sources, slots) && KernelAgrees(kernel, slots, kernelMetric, muted)
    requires i < |slots| && k < |slots[i]| && HasInstalled(slots[i])
    ensures var after, key := slots[i := SwitchTo(slots[i], k)], KeyOf(slots[i]);
            var from, to := EntryOf(slots[i][0], kernelMetric), EntryOf(slots[i][k], kernelMetric);
            && ValidSlots(sources, after)
            && KernelAgrees(Modified(kernel, key, from, to), after, kernelMetric,
                            if from == to then muted else muted - {key})
  {
    InstallInKernel(sources, slots, kernel, kernelMetric, muted, i, k);
    if EntryOf(slots[i][0], kernelMetric) == EntryOf(slots[i][k], kernelMetric) {
      ReplaceSlot(sources, slots, i, SwitchTo(slots[i], k));
      SlotAtIndex(slots, i);
      KernelStays(kernel, slots, slots[i := SwitchTo(slots[i], k)], KeyOf(slots[i]), kernelMetric, muted);
    }
  }

  // ----- change_route_metric -----

  /** The kernel after change_route_metric on a route of the given destination: it
      is told the metric of the full cost, if that differs from the old one. */
  function Told(kernel: Kernel, key: Key, r: Route, refmetric: u16, cost: nat, addMetric: u16,
                kernelMetric: int): Kernel {
    var before := MetricToKernel(Metric(r), kernelMetric);
    var after := MetricToKernel(Min(refmetric + cost + addMetric, INFINITY), kernelMetric);
    if r.installed && before != after
    then (kernel - {key})[key := KernelEntry(r.nexthop, r.neigh.ifindex, after)]
    else kernel
  }

  /** The metric change leaves the destination muted: the cut cost makes the metric
      finite, but the full cost does not, or the kernel was wrong already and is
      not told again. */
  predicate Mutes(r: Route, refmetric: u16, cost: nat, addMetric: u16, kernelMetric: int, already: bool) {
    && r.installed && kernelMetric != KERNEL_INFINITY && refmetric + Cut(cost) + addMetric < INFINITY
    && (refmetric + cost + addMetric >= INFINITY || already)
  }

  function Muted(muted: set<Key>, key: Key, mute: bool): set<Key> {
    if mute then muted + {key} else muted - {key}
  }

  lemma MutedMoves(muted: set<Key>, key: Key, mute: bool)
    ensures var after := Muted(muted, key, mute);
            && (key in after <==> mute) && after - {key} == muted - {key}
            && after <= muted + {key} && ((mute ==> key in muted) ==> after <= muted)
  {
  }

  lemma ToldAt(kernel: Kernel, key: Key, r: Route, refmetric: u16, cost: nat, addMetric: u16, kernelMetric: int,
               already: bool)
    requires r.installed && key in kernel && kernel[key] == Entry(r, kernelMetric, already)
    requires already ==> EntryOf(r, kernelMetric).metric != KERNEL_INFINITY
    ensures var told := Told(kernel, key, r, refmetric, cost, addMetric, kernelMetric);
            var after := WithMetric(r, refmetric, Cut(cost), addMetric);
            var mute := Mutes(r, refmetric, cost, addMetric, kernelMetric, already);
            && key in told && told[key] == Entry(after, kernelMetric, mute)
            && (mute ==> EntryOf(after, kernelMetric).metric != KERNEL_INFINITY)
  {
  }

  lemma ToldMoves(kernel: Kernel, key: Key, r: Route, refmetric: u16, cost: nat, addMetric: u16, kernelMetric: int,
                  muted: set<Key>, mute: bool)
    ensures var told := Told(kernel, key, r, refmetric, cost, addMetric, kernelMetric);
            MovesAt(kernel, told, muted, Muted(muted, key, mute), key)
  {
    assert Told(kernel, key, r, refmetric, cost, addMetric, kernelMetric) - {key} == kernel - {key};
  }

  lemma ChangeInKernel(sources: Sources, slots: seq<Slot>, kernel: Kernel, kernelMetric: int, muted: set<Key>,
                       i: nat, k: nat,
                       refmetric: u16, cost: nat, addMetric: u16)
    requires ValidSlots(sources, slots) && KernelAgrees(kernel, slots, kernelMetric, muted)
    requires i < |slots| && k < |slots[i]|
    ensures var key, was := KeyOf(slots[i]), slots[i][k];
            var after := slots[i := slots[i][k := WithMetric(was, refmetric, Cut(cost), addMetric)]];
            && ValidSlots(sources, after)
            && KernelAgrees(Told(kernel, key, was, refmetric, cost, addMetric, kernelMetric), after, kernelMetric,
                 if was.installed
                 then Muted(muted, key, Mutes(was, refmetric, cost, addMetric, kernelMetric, key in muted)) else muted)
  {
    var key, was := KeyOf(slots[i]), slots[i][k];
    var r := WithMetric(was, refmetric, Cut(cost), addMetric);
    var after := slots[i := slots[i][k := r]];
    ReplaceKeeps(key, sources, slots[i], k, r);
    ReplaceSlot(sources, slots, i, slots[i][k := r]);
    SlotAtIndex(slots, i);
    assert AgreesAt(kernel, key, slots[i], kernelMetric, key in muted);
    if was.installed {
      var mute := Mutes(was, refmetric, cost, addMetric, kernelMetric, key in muted);
      ToldAt(kernel, key, was, refmetric, cost, addMetric, kernelMetric, key in muted);
      ToldMoves(kernel, key, was, refmetric, cost, addMetric, kernelMetric, muted, mute);
      KernelMoves(kernel, Told(kernel, key, was, refmetric, cost, addMetric, kernelMetric), slots, after, key,
                  kernelMetric, muted, Muted(muted, key, mute));
    } else {
      KernelStays(kernel, slots, after, key, kernelMetric, muted);
    }
  }

  /** Each source knows how many routes point at it. */
  ghost predicate CountsReferences(sources: Sources, slots: seq<Slot>) {
    forall sid :: sid in sources ==> sources[sid].routeCount == Total(SrcBag, slots)[sid]
  }

  /** The array after slot i became `slot`: an empty slot is taken out. */
  function Resettled(slots: seq<Slot>, i: nat, slot: Slot): seq<Slot>
    requires i < |slots|
  {
    if |slot| == 0 then Removed(slots, i) else slots[i := slot]
  }

  lemma TotalResettled<T>(f: Slot -> multiset<T>, slots: seq<Slot>, i: nat, slot: Slot)
    requires i < |slots| && f([]) == multiset{}
    ensures Total(f, Resettled(slots, i, slot)) == Total(f, slots) - f(slots[i]) + f(slot)
    ensures f(slots[i]) <= Total(f, slots)
  {
    TotalAt(f, slots, i);
    TotalReplaced(f, slots, i, slot);
  }

  lemma EmptyBags()
    ensures SrcBag([]) == multiset{} && Bag([]) == multiset{}
  {
  }

  /** Taking out route k and releasing its source keeps the counts right. */
  lemma CountsAfterFlush(sources: Sources, slots: seq<Slot>, i: nat, k: nat, slot: Slot)
    requires CountsReferences(sources, slots) && i < |slots| && k < |slots[i]| && slots[i][k].src in sources
    requires Bag(slot) == Bag(slots[i]) - multiset{Erase(slots[i][k])}
    ensures sources[slots[i][k].src].routeCount > 0
    ensures CountsReferences(Release(sources, slots[i][k].src), Resettled(slots, i, slot))
  {
    SplitAt(slots[i], k);
    BagDeterminesSrcs(slot, Without(slots[i], k));
    SrcBagAt(slots[i], k);
    EmptyBags();
    TotalResettled(SrcBag, slots, i, slot);
    assert slots[i][k].src in SrcBag(slots[i]);
  }

  lemma ExchangeOne<T(!new)>(total: multiset<T>, a: multiset<T>, b: multiset<T>, x: T, y: T)
    requires a <= total && b + multiset{x} == a + multiset{y}
    ensures forall e: T :: (total - a + b)[e] + (if e == x then 1 else 0) == total[e] + (if e == y then 1 else 0)
  {
    forall e: T
      ensures (total - a + b)[e] + (if e == x then 1 else 0) == total[e] + (if e == y then 1 else 0)
    {
      assert (b + multiset{x})[e] == (a + multiset{y})[e];
      assert a[e] <= total[e];
    }
  }

  lemma TotalExchanged(slots: seq<Slot>, i: nat, slot: Slot, x: SourceId, y: SourceId)
    requires i < |slots| && x in SrcBag(slots[i])
    requires SrcBag(slot) + multiset{x} == SrcBag(slots[i]) + multiset{y}
    ensures var before, after := Total(SrcBag, slots), Total(SrcBag, slots[i := slot]);
            && x in before
            && forall sid: SourceId ::
                 after[sid] + (if sid == x then 1 else 0) == before[sid] + (if sid == y then 1 else 0)
  {
    EmptyBags();
    TotalResettled(SrcBag, slots, i, slots[i]);
    TotalReplaced(SrcBag, slots, i, slot);
    ExchangeOne(Total(SrcBag, slots), SrcBag(slots[i]), SrcBag(slot), x, y);
  }

  lemma Recounted(sources: Sources, before: multiset<SourceId>, after: multiset<SourceId>, x: SourceId, y: SourceId)
    requires x in sources && y in sources && x in before
    requires forall sid :: sid in sources ==> sources[sid].routeCount == before[sid]
    requires forall sid: SourceId ::
               after[sid] + (if sid == x then 1 else 0) == before[sid] + (if sid == y then 1 else 0)
    ensures Retain(sources, y)[x].routeCount > 0
    ensures forall sid :: sid in sources ==> Release(Retain(sources, y), x)[sid].routeCount == after[sid]
  {
  }

  lemma SrcBagReplaced(before: Slot, k: nat, r: Route, after: Slot)
    requires k < |before| && Bag(after) == Bag(before) - multiset{Erase(before[k])} + multiset{Erase(r)}
    ensures SrcBag(after) + multiset{before[k].src} == SrcBag(before) + multiset{r.src}
    ensures before[k].src in SrcBag(before)
  {
    ReplaceBag(before, k, r);
    BagDeterminesSrcs(after, before[k := r]);
    SrcBagAt(before, k);
    SrcBagAt(before[k := r], k);
    assert Without(before[k := r], k) == Without(before, k);
  }

  /** Pointing route k at another source: retain the new one, release the old one. */
  lemma CountsAfterReplacement(sources: Sources, slots: seq<Slot>, i: nat, k: nat, r: Route, slot: Slot)
    requires CountsReferences(sources, slots) && i < |slots| && k < |slots[i]|
    requires slots[i][k].src in sources && r.src in sources
    requires Bag(slot) == Bag(slots[i]) - multiset{Erase(slots[i][k])} + multiset{Erase(r)}
    ensures Retain(sources, r.src)[slots[i][k].src].routeCount > 0
    ensures CountsReferences(Release(Retain(sources, r.src), slots[i][k].src), slots[i := slot])
  {
    SrcBagReplaced(slots[i], k, r, slot);
    TotalExchanged(slots, i, slot, slots[i][k].src, r.src);
    Recounted(sources, Total(SrcBag, slots), Total(SrcBag, slots[i := slot]), slots[i][k].src, r.src);
  }

  lemma ExclusiveKept(xroutes: seq<Xroute>, before: seq<Slot>, after: seq<Slot>, key: Key)
    requires NonEmptySlots(before) && NonEmptySlots(after) && OnlyAt(before, after, key)
    requires Exclusive(xroutes, before)
    requires XrouteMetric(xroutes, key).Some? && HasInstalled(SlotAt(after, key)) ==> HasInstalled(SlotAt(before, key))
    ensures Exclusive(xroutes, after)
  {
  }

  predicate KeysUnique(xroutes: seq<Xroute>) {
    forall i, j :: 0 <= i < j < |xroutes| ==> xroutes[i].key != xroutes[j].key
  }

  /** The position of an exported route, or |xroutes|. */
  function FindX(xroutes: seq<Xroute>, key: Key): (i: nat)
    ensures i <= |xroutes|
    ensures i < |xroutes| ==> xroutes[i].key == key
    ensures forall j :: 0 <= j < i ==> xroutes[j].key != key
  {
    if |xroutes| == 0 || xroutes[0].key == key then 0 else 1 + FindX(xroutes[1..], key)
  }

  function XrouteMetric(xroutes: seq<Xroute>, key: Key): Option<u16> {
    var i := FindX(xroutes, key);
    if i < |xroutes| then Some(xroutes[i].metric) else None
  }

  /** No destination is both exported and installed. */
  ghost predicate Exclusive(xroutes: seq<Xroute>, slots: seq<Slot>)
    requires NonEmptySlots(slots)
  {
    forall i :: 0 <= i < |xroutes| ==> !HasInstalled(SlotAt(slots, xroutes[i].key))
  }

  lemma ValidByKeys(sources: Sources, sources': Sources, slots: seq<Slot>)
    requires ValidSlots(sources, slots) && sources.Keys <= sources'.Keys
    ensures ValidSlots(sources', slots)
  {
  }

  lemma Resettle(sources: Sources, slots: seq<Slot>, i: nat, slot: Slot)
    requires ValidSlots(sources, slots) && i < |slots| && ValidSlot(KeyOf(slots[i]), sources, slot)
    ensures ValidSlots(sources, Resettled(slots, i, slot))
    ensures SlotAt(Resettled(slots, i, slot), KeyOf(slots[i])) == slot
    ensures OnlyAt(slots, Resettled(slots, i, slot), KeyOf(slots[i]))
  {
    if |slot| == 0 {
      RemoveSlot(sources, slots, i);
    } else {
      ReplaceSlot(sources, slots, i, slot);
    }
  }

  /** Resettling a slot without touching its installed route needs no kernel call. */
  lemma ResettleInKernel(sources: Sources, slots: seq<Slot>, kernel: Kernel, kernelMetric: int, muted: set<Key>,
                         i: nat, slot: Slot)
    requires ValidSlots(sources, slots) && KernelAgrees(kernel, slots, kernelMetric, muted)
    requires i < |slots| && ValidSlot(KeyOf(slots[i]), sources, slot)
    requires HasInstalled(slot) == HasInstalled(slots[i]) && (HasInstalled(slot) ==> slot[0] == slots[i][0])
    ensures ValidSlots(sources, Resettled(slots, i, slot))
    ensures KernelAgrees(kernel, Resettled(slots, i, slot), kernelMetric, muted)
  {
    Resettle(sources, slots, i, slot);
    SlotAtIndex(slots, i);
    KernelStays(kernel, slots, Resettled(slots, i, slot), KeyOf(slots[i]), kernelMetric, muted);
  }

  /** The parts of Valid that flush_route restores only at its end. */
  lemma FlushOutcome(sources: Sources, slots: seq<Slot>, xroutes: seq<Xroute>, env: Env, i: nat, k: nat)
    requires ValidSlots(sources, slots) && CountsReferences(sources, slots) && i < |slots| && k < |slots[i]|
    requires env.xroute == XrouteMetric(xroutes, KeyOf(slots[i]))
    ensures var after, src := Resettled(slots, i, Flushed(env, sources, slots[i], k)), slots[i][k].src;
            && ValidSlots(sources, after)
            && sources[src].routeCount > 0
            && CountsReferences(Release(sources, src), after)
            && (env.allowDuplicates < 0 && Exclusive(xroutes, slots) ==> Exclusive(xroutes, after))
  {
    var key, slot := KeyOf(slots[i]), Flushed(env, sources, slots[i], k);
    FlushedKeeps(key, env, sources, slots[i], k);
    CountsAfterFlush(sources, slots, i, k, slot);
    Resettle(sources, slots, i, slot);
    SlotAtIndex(slots, i);
    if env.allowDuplicates < 0 && Exclusive(xroutes, slots) {
      ExclusiveKept(xroutes, slots, Resettled(slots, i, slot), key);
    }
  }

  /** Whether the destination of a flushed route is still served. */
  lemma FlushInKernel(sources: Sources, slots: seq<Slot>, env: Env, i: nat, k: nat)
    requires ValidSlots(sources, slots) && i < |slots| && k < |slots[i]|
    ensures var after := Resettled(slots, i, Flushed(env, sources, slots[i], k));
            && NonEmptySlots(after)
            && (slots[i][k].installed && !Blocked(env) ==>
                  (HasInstalled(SlotAt(after, KeyOf(slots[i]))) <==>
                   ReplaceableWithout(sources, slots[i], k, env.now)))
  {
    FlushedKeeps(KeyOf(slots[i]), env, sources, slots[i], k);
    Resettle(sources, slots, i, Flushed(env, sources, slots[i], k));
    if slots[i][k].installed && !Blocked(env) {
      FlushServesIff(env, sources, slots[i], k);
    }
  }

  // ----- update_route -----

  /** The kernel has a route to the destination, less than 64 worse than m. */
  ghost predicate ServedBy(kernel: Kernel, slot: Slot, key: Key, m: u16) {
    key in kernel && HasInstalled(slot) && (m < INFINITY ==> Metric(slot[0]) < m + 64)
  }

  lemma UpdateInKernel(sources: Sources, slots: seq<Slot>, env: Env, sid: SourceId, u: Update)
    requires ValidSlots(sources, slots) && sid in sources
    ensures Known(sources, SlotAt(slots, sid.key))
    ensures var after := SlotAfterUpdate(env, sources, SlotAt(slots, sid.key), sid, u);
            !Blocked(env) && u.refmetric < INFINITY && Feasible(sources[sid], u.seqno, u.refmetric, env.now) ==>
              HasInstalled(after) && (MetricOf(u) < INFINITY ==> Metric(after[0]) < MetricOf(u) + 64)
  {
    SlotIsValid(sources, slots, sid.key);
    if !Blocked(env) && u.refmetric < INFINITY && Feasible(sources[sid], u.seqno, u.refmetric, env.now) {
      UpdateServes(sid.key, env, sources, SlotAt(slots, sid.key), sid, u);
    }
  }

  lemma SlotIsValid(sources: Sources, slots: seq<Slot>, key: Key)
    requires ValidSlots(sources, slots)
    ensures ValidSlot(key, sources, SlotAt(slots, key))
  {
  }

  lemma AddOne<T>(total: multiset<T>, a: multiset<T>, b: multiset<T>, x: T)
    requires a <= total && b == a + multiset{x}
    ensures total - a + b == total + multiset{x}
  {
  }

  lemma CountsAfterInsert(sources: Sources, before: multiset<SourceId>, slots: seq<Slot>, sid: SourceId)
    requires sid in sources && Total(SrcBag, slots) == before + multiset{sid}
    requires forall s :: s in sources ==> sources[s].routeCount == before[s]
    ensures CountsReferences(Retain(sources, sid), slots)
  {
  }

  lemma SrcBagAfterInsert(before: Slot, r: Route, after: Slot)
    requires Bag(after) == Bag(before) + multiset{Erase(r)}
    ensures SrcBag(after) == SrcBag(before) + multiset{r.src}
  {
    ErasedConcat(before, [r]);
    assert Erased([r]) == [Erase(r)];
    BagDeterminesSrcs(after, before + [r]);
    SrcBagConcat(before, [r]);
    assert Srcs([r]) == [r.src];
  }

  /** A source just created has no routes. */
  lemma CountsWithNewSource(sources: Sources, slots: seq<Slot>, sid: SourceId, seqno: u16, now: int)
    requires ValidSlots(sources, slots) && CountsReferences(sources, slots)
    ensures CountsReferences(EnsureSource(sources, sid, seqno, now), slots)
  {
    if sid !in sources {
      UnknownUncounted(sources, slots, sid);
    }
  }

  lemma {:induction false} UnknownUncounted(sources: Sources, slots: seq<Slot>, sid: SourceId)
    requires forall i :: 0 <= i < |slots| ==> Known(sources, slots[i])
    requires sid !in sources
    ensures Total(SrcBag, slots)[sid] == 0
  {
    if slots != [] {
      UnknownUncounted(sources, slots[1..], sid);
      assert forall k :: 0 <= k < |Srcs(slots[0])| ==> Srcs(slots[0])[k] != sid;
    }
  }

  /** The parts of Valid that updating an existing route restores at its end. */
  lemma UpdateOutcome(sources: Sources, slots: seq<Slot>, xroutes: seq<Xroute>, env: Env, i: nat, k: nat,
                      sid: SourceId, u: Update)
    requires ValidSlots(sources, slots) && CountsReferences(sources, slots) && i < |slots| && k < |slots[i]|
    requires sid in sources && sid.key == KeyOf(slots[i])
    requires env.xroute == XrouteMetric(xroutes, KeyOf(slots[i]))
    ensures var after, src := slots[i := UpdateExisting(env, sources, slots[i], k, sid, u)], slots[i][k].src;
            && ValidSlots(sources, after)
            && OnlyAt(slots, after, sid.key)
            && SlotAt(after, sid.key) == UpdateExisting(env, sources, slots[i], k, sid, u)
            && Retain(sources, sid)[src].routeCount > 0
            && CountsReferences(Release(Retain(sources, sid), src), after)
            && (env.allowDuplicates < 0 && Exclusive(xroutes, slots) ==> Exclusive(xroutes, after))
  {
    var slot := UpdateExisting(env, sources, slots[i], k, sid, u);
    UpdateExistingReplaces(sid.key, env, sources, slots[i], k, sid, u);
    CountsAfterReplacement(sources, slots, i, k, Revised(env, sources[sid], slots[i][k], sid, u), slot);
    ReplaceSlot(sources, slots, i, slot);
    SlotAtIndex(slots, i);
    if env.allowDuplicates < 0 && Exclusive(xroutes, slots) {
      ExclusiveKept(xroutes, slots, slots[i := slot], sid.key);
    }
  }

  /** The array after a slot for its own key was put in, replacing slot i if
      found, else at its insertion point n. */
  function Put(slots: seq<Slot>, found: int, n: nat, slot: Slot): seq<Slot>
    requires found < |slots| && (found < 0 ==> n <= |slots|)
  {
    if found >= 0 then slots[found := slot] else Inserted(slots, n, slot)
  }

  ghost predicate Located(slots: seq<Slot>, key: Key, found: int, n: nat)
    requires NonEmptySlots(slots)
  {
    && found < |slots|
    && (found >= 0 ==> KeyOf(slots[found]) == key)
    && (found < 0 ==> InsertionPoint(slots, key, n))
  }

  lemma PutKeeps(sources: Sources, slots: seq<Slot>, key: Key, found: int, n: nat, slot: Slot)
    requires ValidSlots(sources, slots) && Located(slots, key, found, n)
    requires |slot| > 0 && ValidSlot(key, sources, slot)
    ensures var after := Put(slots, found, n, slot);
            && ValidSlots(sources, after)
            && SlotAt(after, key) == slot
            && OnlyAt(slots, after, key)
            && Total(SrcBag, after) == Total(SrcBag, slots) - SrcBag(SlotAt(slots, key)) + SrcBag(slot)
            && SrcBag(SlotAt(slots, key)) <= Total(SrcBag, slots)
  {
    EmptyBags();
    assert KeyOf(slot) == key;
    if found >= 0 {
      SlotAtIndex(slots, found);
      ReplaceSlot(sources, slots, found, slot);
      TotalResettled(SrcBag, slots, found, slot);
    } else {
      InsertSlot(sources, slots, n, slot);
      TotalInserted(SrcBag, slots, n, slot);
    }
  }

  lemma InsertOutcome(sources: Sources, slots: seq<Slot>, xroutes: seq<Xroute>, env: Env, found: int, n: nat,
                      sid: SourceId, u: Update)
    requires ValidSlots(sources, slots) && CountsReferences(sources, slots) && Located(slots, sid.key, found, n)
    requires sid in sources && Known(sources, SlotAt(slots, sid.key))
    requires FindVia(SlotAt(slots, sid.key), u.neigh, u.nexthop) == |SlotAt(slots, sid.key)|
    requires env.xroute == XrouteMetric(xroutes, sid.key)
    ensures var slot := InsertNew(env, sources, SlotAt(slots, sid.key), sid, u);
            var after := Put(slots, found, n, slot);
            && ValidSlots(sources, after)
            && SlotAt(after, sid.key) == slot
            && OnlyAt(slots, after, sid.key)
            && CountsReferences(Retain(sources, sid), after)
            && (env.allowDuplicates < 0 && Exclusive(xroutes, slots) ==> Exclusive(xroutes, after))
  {
    var before := SlotAt(slots, sid.key);
    SlotIsValid(sources, slots, sid.key);
    var slot := InsertNew(env, sources, before, sid, u);
    InsertNewKeeps(sid.key, env, sources, before, sid, u);
    PutKeeps(sources, slots, sid.key, found, n, slot);
    SrcBagAfterInsert(before, NewRoute(env, sid, u), slot);
    AddOne(Total(SrcBag, slots), SrcBag(before), SrcBag(slot), sid);
    CountsAfterInsert(sources, Total(SrcBag, slots), Put(slots, found, n, slot), sid);
    if env.allowDuplicates < 0 && Exclusive(xroutes, slots) {
      ExclusiveKept(xroutes, slots, Put(slots, found, n, slot), sid.key);
    }
  }

  /** Appending a route that is not installed needs no kernel call. */
  lemma AppendInKernel(sources: Sources, slots: seq<Slot>, kernel: Kernel, kernelMetric: int, muted: set<Key>,
                       key: Key, found: int, n: nat, r: Route)
    requires ValidSlots(sources, slots) && KernelAgrees(kernel, slots, kernelMetric, muted)
    requires Located(slots, key, found, n)
    requires r.src in sources && r.src.key == key && !r.installed
    requires FindVia(SlotAt(slots, key), r.neigh, r.nexthop) == |SlotAt(slots, key)|
    ensures var after := Put(slots, found, n, SlotAt(slots, key) + [r]);
            && ValidSlots(sources, after)
            && KernelAgrees(kernel, after, kernelMetric, muted)
            && (found < 0 ==> SlotAt(slots, key) == [])
  {
    var slot := SlotAt(slots, key) + [r];
    SlotIsValid(sources, slots, key);
    assert ValidSlot(key, sources, slot);
    PutKeeps(sources, slots, key, found, n, slot);
    KernelStays(kernel, slots, Put(slots, found, n, slot), key, kernelMetric, muted);
    if found < 0 {
      InsertSlot(sources, slots, n, [r]);
    }
  }

  lemma PutTwice(slots: seq<Slot>, found: int, n: nat, a: Slot, b: Slot)
    requires found < |slots| && (found < 0 ==> n <= |slots|)
    ensures Put(slots, found, n, a)[(if found >= 0 then found else n) := b] == Put(slots, found, n, b)
  {
  }

  function SlotsSet(slots: seq<Slot>, i: nat, k: nat, r: Route): seq<Slot>
    requires i < |slots| && k < |slots[i]|
  {
    slots[i := slots[i][k := r]]
  }

  lemma SetTwice(slots: seq<Slot>, i: nat, k: nat, a: Route, b: Route)
    requires i < |slots| && k < |slots[i]|
    ensures SlotsSet(SlotsSet(slots, i, k, a), i, k, b) == SlotsSet(slots, i, k, b)
    ensures SlotsSet(slots, i, k, a)[i][k] == a
  {
    assert slots[i][k := a][k := b] == slots[i][k := b];
  }

  /** Refreshing a metric keeps the source, so the counts stay right. */
  lemma RefreshOutcome(sources: Sources, slots: seq<Slot>, xroutes: seq<Xroute>, env: Env, i: nat, k: nat,
                       cost: nat, addMetric: u16)
    requires ValidSlots(sources, slots) && CountsReferences(sources, slots) && i < |slots| && k < |slots[i]|
    requires env.xroute == XrouteMetric(xroutes, KeyOf(slots[i]))
    ensures var after := slots[i := RefreshMetric(env, sources, slots[i], k, cost, addMetric)];
            && CountsReferences(sources, after)
            && (env.allowDuplicates < 0 && Exclusive(xroutes, slots) ==>
                ValidSlots(sources, after) && Exclusive(xroutes, after))
  {
    var key, slot := KeyOf(slots[i]), RefreshMetric(env, sources, slots[i], k, cost, addMetric);
    RefreshMetricReplaces(key, env, sources, slots[i], k, cost, addMetric);
    CountsAfterSameSource(slots, i, k, Refreshed(env, sources, slots[i][k], cost, addMetric), slot);
    ReplaceSlot(sources, slots, i, slot);
    SlotAtIndex(slots, i);
    if env.allowDuplicates < 0 && Exclusive(xroutes, slots) {
      ExclusiveKept(xroutes, slots, slots[i := slot], key);
    }
  }

  lemma CountsAfterSameSource(slots: seq<Slot>, i: nat, k: nat, r: Route, slot: Slot)
    requires i < |slots| && k < |slots[i]| && r.src == slots[i][k].src
    requires Bag(slot) == Bag(slots[i]) - multiset{Erase(slots[i][k])} + multiset{Erase(r)}
    ensures Total(SrcBag, slots[i := slot]) == Total(SrcBag, slots)
  {
    SrcBagReplaced(slots[i], k, r, slot);
    var x := multiset{r.src};
    assert (SrcBag(slot) + x) - x == SrcBag(slot) && (SrcBag(slots[i]) + x) - x == SrcBag(slots[i]);
    TotalReplaced(SrcBag, slots, i, slot);
    TotalAt(SrcBag, slots, i);
  }

  // ----- exported routes -----

  /** flush_xroute: the last entry takes the place of the removed one. */
  function SwapRemoved(xroutes: seq<Xroute>, i: nat): seq<Xroute>
    requires i < |xroutes|
  {
    xroutes[i := xroutes[|xroutes| - 1]][..|xroutes| - 1]
  }

  lemma SwapRemovedIsRemoval(xroutes: seq<Xroute>, i: nat)
    requires i < |xroutes|
    ensures multiset(SwapRemoved(xroutes, i)) == multiset(xroutes) - multiset{xroutes[i]}
  {
    var last, init := xroutes[|xroutes| - 1], xroutes[..|xroutes| - 1];
    assert xroutes == init + [last];
    if i < |init| {
      assert SwapRemoved(xroutes, i) == init[i := last];
    } else {
      assert SwapRemoved(xroutes, i) == init;
    }
  }

  lemma SwapRemovedKeepsKeys(xroutes: seq<Xroute>, i: nat)
    requires i < |xroutes| && KeysUnique(xroutes)
    ensures KeysUnique(SwapRemoved(xroutes, i))
  {
  }

  /** A slot whose head is uninstalled keeps its sources. */
  lemma DemotedCounts(sources: Sources, slots: seq<Slot>, i: nat)
    requires NonEmptySlots(slots) && CountsReferences(sources, slots) && i < |slots|
    ensures CountsReferences(sources, slots[i := Demoted(slots[i])])
  {
    assert Srcs(Demoted(slots[i])) == Srcs(slots[i]);
    TotalReplaced(SrcBag, slots, i, Demoted(slots[i]));
    TotalAt(SrcBag, slots, i);
  }

  lemma DemotedInPlace(sources: Sources, slots: seq<Slot>, i: nat)
    requires ValidSlots(sources, slots) && i < |slots|
    ensures slots[i][0 := Erase(slots[i][0])] == Demoted(slots[i])
    ensures var after := slots[i := Demoted(slots[i])];
            && NonEmptySlots(after)
            && SlotAt(after, KeyOf(slots[i])) == Demoted(slots[i])
            && OnlyAt(slots, after, KeyOf(slots[i]))
  {
    var slot, key := slots[i], KeyOf(slots[i]);
    ReplaceKeeps(key, sources, slot, 0, Erase(slot[0]));
    assert slot[0 := Erase(slot[0])] == Demoted(slot);
    ReplaceSlot(sources, slots, i, Demoted(slot));
  }

  lemma UsedSourcesStay(before: Sources, after: Sources, slots: seq<Slot>)
    requires ValidSlots(before, slots) && CountsReferences(before, slots)
    requires forall sid :: sid in before && before[sid].routeCount > 0 ==> sid in after
    requires forall sid :: sid in after ==> sid in before && after[sid].routeCount == before[sid].routeCount
    ensures ValidSlots(after, slots) && CountsReferences(after, slots)
  {
    forall i, k | 0 <= i < |slots| && 0 <= k < |slots[i]| ensures slots[i][k].src in after {
      EmptyBags();
      TotalResettled(SrcBag, slots, i, slots[i]);
      assert Srcs(slots[i])[k] in SrcBag(slots[i]);
    }
  }

  lemma ExportedNow(before: seq<Xroute>, after: seq<Xroute>, x: Xroute)
    requires KeysUnique(after)
    requires var i := FindX(before, x.key);
             after == if i == |before| then before + [x]
                      else if before[i].metric <= x.metric then before
                      else before[i := before[i].(metric := x.metric)]
    ensures XrouteMetric(after, x.key).Some? && XrouteMetric(after, x.key).value <= x.metric
    ensures forall j :: 0 <= j < |after| && after[j].key != x.key ==>
              exists h :: 0 <= h < |before| && before[h].key == after[j].key
  {
    var i := FindX(before, x.key);
    assert i < |after| && after[i].key == x.key;
    var f := FindX(after, x.key);
    assert f == i;
  }

  lemma ExclusiveAfterRemoval(xroutes: seq<Xroute>, i: nat, slots: seq<Slot>)
    requires NonEmptySlots(slots) && i < |xroutes| && Exclusive(xroutes, slots)
    ensures Exclusive(SwapRemoved(xroutes, i), slots)
  {
  }

  lemma ExclusiveAfterExport(xroutes: seq<Xroute>, after: seq<Xroute>, slots: seq<Slot>, slots': seq<Slot>, key: Key)
    requires NonEmptySlots(slots) && NonEmptySlots(slots') && OnlyAt(slots, slots', key)
    requires Exclusive(xroutes, slots) && !HasInstalled(SlotAt(slots', key))
    requires forall j :: 0 <= j < |after| && after[j].key != key ==>
               exists h :: 0 <= h < |xroutes| && xroutes[h].key == after[j].key
    ensures Exclusive(after, slots')
  {
  }

  // ----- flush_neighbour_routes -----

  predicate NoneVia(slot: Slot, neigh: Neigh) {
    forall k :: 0 <= k < |slot| ==> slot[k].neigh != neigh
  }

  lemma {:induction false} NoneViaTotal(slots: seq<Slot>, neigh: Neigh, r: Route)
    requires r.neigh == neigh && forall i :: 0 <= i < |slots| ==> NoneVia(slots[i], neigh)
    ensures Total(Bag, slots)[r] == 0
  {
    if slots != [] {
      NoneViaTotal(slots[1..], neigh, r);
      assert forall k :: 0 <= k < |Erased(slots[0])| ==> Erased(slots[0])[k] != r;
    }
  }

  /** One flush takes exactly one route out of the table. */
  lemma TotalAfterFlush(sources: Sources, slots: seq<Slot>, env: Env, i: nat, k: nat)
    requires ValidSlots(sources, slots) && i < |slots| && k < |slots[i]|
    ensures var after := Resettled(slots, i, Flushed(env, sources, slots[i], k));
            && Total(Bag, slots) == Total(Bag, after) + multiset{Erase(slots[i][k])}
            && |after| >= i && after[..i] == slots[..i]
  {
    var slot := Flushed(env, sources, slots[i], k);
    FlushedKeeps(KeyOf(slots[i]), env, sources, slots[i], k);
    EmptyBags();
    TotalResettled(Bag, slots, i, slot);
    assert Erase(slots[i][k]) in Bag(slots[i]) by {
      assert Erased(slots[i])[k] == Erase(slots[i][k]);
    }
  }

  predicate Cleared(slots: seq<Slot>, i: nat, neigh: Neigh) {
    i <= |slots| && forall j :: 0 <= j < i ==> NoneVia(slots[j], neigh)
  }

  ghost predicate OthersKept(before: multiset<Route>, after: multiset<Route>, neigh: Neigh) {
    forall r: Route :: r.neigh != neigh ==> after[r] == before[r]
  }

  lemma FlushProgress(slots: seq<Slot>, after: seq<Slot>, i: nat, r: Route, neigh: Neigh, total: multiset<Route>)
    requires Total(Bag, slots) == Total(Bag, after) + multiset{r} && r.neigh == neigh
    requires |after| >= i && i <= |slots| && after[..i] == slots[..i]
    requires Cleared(slots, i, neigh) && OthersKept(total, Total(Bag, slots), neigh)
    ensures Cleared(after, i, neigh) && OthersKept(total, Total(Bag, after), neigh)
    ensures |Total(Bag, after)| < |Total(Bag, slots)|
  {
    assert forall j :: 0 <= j < i ==> after[..i][j] == after[j] && slots[..i][j] == slots[j];
  }

  lemma OthersAreAll(slots: seq<Slot>, neigh: Neigh, total: multiset<Route>)
    requires Cleared(slots, |slots|, neigh) && OthersKept(total, Total(Bag, slots), neigh)
    ensures forall r: Route :: Total(Bag, slots)[r] == if r.neigh == neigh then 0 else total[r]
  {
    forall r: Route | r.neigh == neigh ensures Total(Bag, slots)[r] == 0 {
      NoneViaTotal(slots, neigh, r);
    }
  }

  /** The sources as they were, but for their reference counts. */
  predicate SameDistances(before: Sources, after: Sources) {
    && before.Keys == after.Keys
    && forall sid :: sid in before ==> after[sid] == before[sid].(routeCount := after[sid].routeCount)
  }

  lemma CountsOnly(sources: Sources, sid: SourceId, src: SourceId)
    requires sid in sources && src in sources
    ensures SameDistances(sources, Retain(sources, sid))
    ensures SameDistances(sources, Release(sources, src))
    ensures SameDistances(sources, Release(Retain(sources, sid), src))
  {
  }

  lemma SameDistancesTransitive(a: Sources, b: Sources, c: Sources)
    requires SameDistances(a, b) && SameDistances(b, c)
    ensures SameDistances(a, c)
  {
  }

  /** The growth rule shared by both arrays. */
  function Grown(max: nat): nat {
    if max < 1 then 8 else 2 * max
  }

  function Shrunk(count: nat, max: nat): nat {
    if count == 0 then 0 else if max > 8 && count < max / 4 then max / 2 else max
  }

  /** An array that has room for its elements and, beyond eight places, at most four
      times as much as it needs; nothing is kept for no elements. */
  predicate Snug(count: nat, max: nat) {
    count <= max && (max <= 8 || max / 4 <= count) && (count == 0 ==> max == 0)
  }

  /** Both rules keep the array so. */
  lemma StaysSnug(count: nat, max: nat)
    requires Snug(count, max)
    ensures Snug(count + 1, if count >= max then Grown(max) else max)
    ensures count > 0 ==> Snug(count - 1, Shrunk(count - 1, max))
  {
  }

  class Table {
    var slots: seq<Slot>
    var maxSlots: nat
    var sources: Sources
    var kernel: Kernel
    ghost var muted: set<Key> // destinations whose kernel metric is wrong
    var xroutes: seq<Xroute>
    var maxXroutes: nat
    const myid: nat
    const kernelMetric: int
    const allowDuplicates: int
    const keepUnfeasible: bool

    /** What holds between any two kernel calls. */
    ghost predicate TableOk()
      reads this
    {
      && ValidSlots(sources, slots)
      && |slots| <= maxSlots
      && KernelAgrees(kernel, slots, kernelMetric, muted)
    }

    ghost predicate ExportsOk()
      reads this
      requires NonEmptySlots(slots)
    {
      && KeysUnique(xroutes) && |xroutes| <= maxXroutes
      && (allowDuplicates < 0 ==> Exclusive(xroutes, slots))
    }

    /** What every operation keeps. */
    ghost predicate Valid()
      reads this
    {
      TableOk() && ExportsOk() && CountsReferences(sources, slots)
    }

    function EnvFor(key: Key, now: int): Env
      reads this
    {
      Env(now, allowDuplicates, keepUnfeasible, XrouteMetric(xroutes, key))
    }

    constructor (myid: nat, kernelMetric: int, allowDuplicates: int, keepUnfeasible: bool)
      ensures Valid() && slots == [] && sources == map[] && kernel == map[] && xroutes == [] && muted == {}
    {
      this.myid, this.kernelMetric := myid, kernelMetric;
      this.allowDuplicates, this.keepUnfeasible := allowDuplicates, keepUnfeasible;
      slots, maxSlots, sources, kernel, xroutes, maxXroutes, muted := [], 0, map[], map[], [], 0, {};
    }

    /** find_route_slot: binary search.  Either the slot of the key, or where a
        slot for it belongs. */
    method FindRouteSlot(key: Key) returns (found: int, n: nat)
      requires NonEmptySlots(slots) && Sorted(slots)
      ensures -1 <= found < |slots|
      ensures found >= 0 ==> KeyOf(slots[found]) == key
      ensures found >= 0 <==> HasKey(slots, key)
      ensures found < 0 ==> InsertionPoint(slots, key, n)
    {
      if |slots| < 1 {
        return -1, 0;
      }
      var p, g := 0, |slots| - 1;
      while p <= g
        invariant 0 <= p <= g + 1 <= |slots|
        invariant forall i :: 0 <= i < p ==> KeyLess(KeyOf(slots[i]), key)
        invariant forall i :: g < i < |slots| ==> KeyLess(key, KeyOf(slots[i]))
      {
        var m := (p + g) / 2;
        var c := KeyCompare(key, KeyOf(slots[m]));
        if c == 0 {
          return m, 0;
        } else if c < 0 {
          g := m - 1;
        } else {
          p := m + 1;
        }
      }
      return -1, p;
    }

    /** install_route, when the kernel accepts the route. */
    method InstallRoute(i: nat, k: nat)
      requires TableOk() && i < |slots| && k < |slots[i]|
      modifies this`slots, this`kernel, this`muted
      ensures TableOk() && muted == old(muted)
      ensures slots == if old(HasInstalled(slots[i])) then old(slots) else old(slots[i := SwitchTo(slots[i], k)])
    {
      var slot, key := slots[i], KeyOf(slots[i]);
      if slot[k].installed {
        return;
      }
      if k != 0 && slot[0].installed {
        return;
      }
      InstallInKernel(sources, slots, kernel, kernelMetric, muted, i, k);
      MutedIsInstalled(sources, slots, kernel, kernelMetric, muted, i);
      assert muted - {key} == muted;
      kernel := kernel[key := EntryOf(slot[k], kernelMetric)];
      slots := slots[i := SwitchTo(slot, k)];
    }

    /** uninstall_route. */
    method UninstallRoute(i: nat, k: nat)
      requires TableOk() && i < |slots| && k < |slots[i]|
      modifies this`slots, this`kernel, this`muted
      ensures TableOk() && muted <= old(muted)
      ensures slots == old(slots)[i := old(slots)[i][k := Erase(old(slots)[i][k])]]
    {
      var slot, key := slots[i], KeyOf(slots[i]);
      if !slot[k].installed {
        assert slot[k := Erase(slot[k])] == slot;
        return;
      }
      var after := slot[k := Erase(slot[k])];
      ReplaceKeeps(key, sources, slot, k, Erase(slot[k]));
      PutSlot(sources, slots, kernel, kernelMetric, muted, i, after);
      muted := muted - {key};
      kernel := kernel - {key};
      slots := slots[i := after];
    }

    /** switch_routes: one kernel modification instead of a removal and an addition.
        The kernel is right about the destination afterwards, unless it was wrong
        before and both routes look the same to it. */
    method SwitchRoutes(i: nat, installed: bool, k: nat)
      requires TableOk() && i < |slots| && k < |slots[i]|
      requires installed == HasInstalled(slots[i]) && !slots[i][k].installed
      modifies this`slots, this`kernel, this`muted
      ensures TableOk() && muted <= old(muted)
      ensures slots == old(slots[i := SwitchTo(slots[i], k)])
      ensures var key, slot := old(KeyOf(slots[i])), old(slots)[i];
              && muted - {key} == old(muted) - {key}
              && (key in muted <==>
                    key in old(muted) && EntryOf(slot[0], kernelMetric) == EntryOf(slot[k], kernelMetric))
    {
      MutedIsInstalled(sources, slots, kernel, kernelMetric, muted, i);
      if !installed {
        InstallRoute(i, k);
      } else {
        ModifyRoute(i, k);
      }
    }

    /** switch_routes with a route installed. */
    method ModifyRoute(i: nat, k: nat)
      requires TableOk() && i < |slots| && k < |slots[i]| && HasInstalled(slots[i])
      modifies this`slots, this`kernel, this`muted
      ensures TableOk()
      ensures slots == old(slots[i := SwitchTo(slots[i], k)])
      ensures var key, slot := old(KeyOf(slots[i])), old(slots)[i];
              muted == if EntryOf(slot[0], kernelMetric) == EntryOf(slot[k], kernelMetric) then old(muted)
                       else old(muted) - {key}
    {
      var slot, key := slots[i], KeyOf(slots[i]);
      var from, to := EntryOf(slot[0], kernelMetric), EntryOf(slot[k], kernelMetric);
      var after := slots[i := SwitchTo(slot, k)];
      ghost var quiet := if from == to then muted else muted - {key};
      SwitchInKernel(sources, slots, kernel, kernelMetric, muted, i, k);
      assert KernelAgrees(Modified(kernel, key, from, to), after, kernelMetric, quiet);
      slots, kernel, muted := after, Modified(kernel, key, from, to), quiet;
    }

    /** change_route_metric.  The kernel is told about the full cost, the route
        keeps its low 16 bits.  Exactly when that leaves the kernel wrong, the
        destination is muted. */
    method ChangeRouteMetric(i: nat, k: nat, refmetric: u16, cost: nat, addMetric: u16)
      requires TableOk() && i < |slots| && k < |slots[i]|
      modifies this`slots, this`kernel, this`muted
      ensures TableOk()
      ensures var r := WithMetric(old(slots)[i][k], refmetric, Cut(cost), addMetric);
              slots == old(slots)[i := old(slots)[i][k := r]]
      ensures var key, was := old(KeyOf(slots[i])), old(slots)[i][k];
              && (was.installed ==>
                    (key in muted <==> Mutes(was, refmetric, cost, addMetric, kernelMetric, key in old(muted))))
              && (!was.installed ==> muted == old(muted))
              && muted - {key} == old(muted) - {key}
      ensures muted <= old(muted) + {old(KeyOf(slots[i]))} && (cost < 0x10000 ==> muted <= old(muted))
    {
      var r, key := slots[i][k], KeyOf(slots[i]);
      ChangeInKernel(sources, slots, kernel, kernelMetric, muted, i, k, refmetric, cost, addMetric);
      kernel := Told(kernel, key, r, refmetric, cost, addMetric, kernelMetric);
      slots := slots[i := slots[i][k := WithMetric(r, refmetric, Cut(cost), addMetric)]];
      if r.installed {
        ghost var mute := Mutes(r, refmetric, cost, addMetric, kernelMetric, key in muted);
        MutedMoves(muted, key, mute);
        muted := Muted(muted, key, mute);
      }
    }

    /** find_xroute: linear search over the exported routes. */
    method FindXroute(key: Key) returns (i: nat)
      ensures i == FindX(xroutes, key)
    {
      i := 0;
      while i < |xroutes|
        invariant 0 <= i <= |xroutes|
        invariant FindX(xroutes, key) == i + FindX(xroutes[i..], key)
      {
        if xroutes[i].key == key {
          return;
        }
        assert xroutes[i..][1..] == xroutes[i + 1..];
        i := i + 1;
      }
    }

    /** find_best_route. */
    method FindBestRoute(i: nat, now: int, feasible: bool, exclude: Option<Neigh>) returns (b: nat)
      requires i < |slots| && |slots[i]| > 0 && Known(sources, slots[i])
      ensures b == Best(sources, slots[i], now, feasible, exclude)
    {
      var slot := slots[i];
      b := 0;
      var j := 1;
      while j < |slot|
        invariant 1 <= j <= |slot| && b < |slot|
        invariant BestFrom(sources, slot, now, feasible, exclude, j, b) == Best(sources, slot, now, feasible, exclude)
      {
        if !Expired(slot[j], now) && (!feasible || RouteFeasible(sources, slot[j], now))
           && (exclude.None? || slot[j].neigh != exclude.value) && Metric(slot[j]) < Metric(slot[b]) {
          b := j;
        }
        j := j + 1;
      }
    }

    /** consider_route. */
    method ConsiderRoute(i: nat, k: nat, now: int)
      requires TableOk() && i < |slots| && k < |slots[i]|
      modifies this`slots, this`kernel, this`muted
      ensures TableOk() && muted <= old(muted)
      ensures slots == old(slots[i := Consider(EnvFor(KeyOf(slots[i]), now), sources, slots[i], k)])
    {
      var slot := slots[i];
      if slot[k].installed || !RouteFeasible(sources, slot[k], now) {
        return;
      }
      var x := FindXroute(KeyOf(slot));
      if x < |xroutes| && (allowDuplicates < 0 || xroutes[x].metric >= allowDuplicates) {
        return;
      }
      if slot[0].installed {
        if Metric(slot[k]) >= INFINITY {
          return;
        }
        if Metric(slot[0]) < INFINITY && Metric(slot[0]) < Metric(slot[k]) + 64 {
          return;
        }
      }
      SwitchRoutes(i, slot[0].installed, k);
    }

    /** route_changed. */
    method RouteChanged(i: nat, k: nat, oldMetric: u16, now: int)
      requires TableOk() && i < |slots| && k < |slots[i]|
      modifies this`slots, this`kernel, this`muted
      ensures TableOk() && muted <= old(muted)
      ensures slots == old(slots[i := Changed(EnvFor(KeyOf(slots[i]), now), sources, slots[i], k, oldMetric)])
    {
      if slots[i][k].installed {
        if Metric(slots[i][k]) > oldMetric {
          var b := FindBestRoute(i, now, true, None);
          if Metric(slots[i][b]) <= Metric(slots[i][k]) - 96 {
            ConsiderRoute(i, b, now);
          }
        }
      } else {
        ConsiderRoute(i, k, now);
      }
    }

    /** route_lost, while the slot still has routes.  The kernel has a route to the
        destination again if and only if the slot has a replacement. */
    method RouteLost(i: nat, now: int)
      requires TableOk() && i < |slots|
      modifies this`slots, this`kernel, this`muted
      ensures TableOk() && muted <= old(muted)
      ensures slots == old(slots[i := Lost(EnvFor(KeyOf(slots[i]), now), sources, slots[i])])
      ensures old(!HasInstalled(slots[i]) && !Blocked(EnvFor(KeyOf(slots[i]), now))) ==>
                (HasInstalled(slots[i]) <==> old(Replaceable(sources, slots[i], now)))
    {
      if !HasInstalled(slots[i]) && !Blocked(EnvFor(KeyOf(slots[i]), now)) {
        LostServesIff(EnvFor(KeyOf(slots[i]), now), sources, slots[i]);
      }
      var b := FindBestRoute(i, now, true, None);
      ConsiderRoute(i, b, now);
    }

    /** The list surgery of flush_route on a route that is not installed. */
    method Unlink(i: nat, k: nat)
      requires TableOk() && i < |slots| && k < |slots[i]| && !slots[i][k].installed
      modifies this`slots, this`maxSlots
      ensures TableOk()
      ensures slots == old(Resettled(slots, i, Without(slots[i], k)))
    {
      var slot, key := slots[i], KeyOf(slots[i]);
      var rest := Without(slot, k);
      WithoutKeeps(key, sources, slot, k);
      assert HasInstalled(rest) == HasInstalled(slot);
      ResettleInKernel(sources, slots, kernel, kernelMetric, muted, i, rest);
      slots := Resettled(slots, i, rest);
      if k == 0 {
        maxSlots := Shrunk(|slots|, maxSlots);
      }
    }

    /** flush_route up to the release of the source. */
    method UninstallAndUnlink(i: nat, k: nat, now: int)
      requires TableOk() && i < |slots| && k < |slots[i]|
      modifies this`slots, this`kernel, this`muted, this`maxSlots
      ensures TableOk() && muted <= old(muted)
      ensures slots == old(Resettled(slots, i, Flushed(EnvFor(KeyOf(slots[i]), now), sources, slots[i], k)))
    {
      ghost var slots0, slot, key := slots, slots[i], KeyOf(slots[i]);
      var lost, last := slots[i][k].installed, |slots[i]| == 1;
      if lost {
        UninstallRoute(i, k);
        assert Without(slots[i], k) == Without(slot, k);
      }
      Unlink(i, k);
      assert slots == Resettled(slots0, i, Without(slot, k));
      if lost && !last {
        WithoutKeeps(key, sources, slot, k);
        assert KeyOf(slots[i]) == key;
        RouteLost(i, now);
      }
    }

    /** flush_route.  Exactly route k leaves the table.  If it was installed, the
        kernel still has a route to the destination if and only if what is left of
        the slot has a replacement. */
    method FlushRoute(i: nat, k: nat, now: int)
      requires Valid() && i < |slots| && k < |slots[i]|
      modifies this`slots, this`kernel, this`muted, this`sources, this`maxSlots
      ensures Valid() && muted <= old(muted)
      ensures slots == old(Resettled(slots, i, Flushed(EnvFor(KeyOf(slots[i]), now), sources, slots[i], k)))
      ensures sources == old(Release(sources, slots[i][k].src))
      ensures old(slots[i][k].installed && !Blocked(EnvFor(KeyOf(slots[i]), now))) ==>
                (old(KeyOf(slots[i])) in kernel <==> old(ReplaceableWithout(sources, slots[i], k, now)))
    {
      ghost var env := EnvFor(KeyOf(slots[i]), now);
      FlushOutcome(sources, slots, xroutes, env, i, k);
      FlushInKernel(sources, slots, env, i, k);
      var src := slots[i][k].src;
      UninstallAndUnlink(i, k, now);
      CountsOnly(sources, src, src);
      Recount(Release(sources, src));
      assert AgreesAt(kernel, old(KeyOf(slots[i])), SlotAt(slots, old(KeyOf(slots[i]))), kernelMetric,
                      old(KeyOf(slots[i])) in muted);
    }

    /** flush_neighbour_routes.  Each flush may shift the array, reorder the slot
        and install a replacement; yet in the end exactly the routes through
        other neighbours are left. */
    method FlushNeighbourRoutes(neigh: Neigh, now: int)
      requires Valid()
      modifies this`slots, this`kernel, this`muted, this`sources, this`maxSlots
      ensures Valid() && muted <= old(muted)
      ensures forall r: Route :: Total(Bag, slots)[r] == if r.neigh == neigh then 0 else old(Total(Bag, slots))[r]
      ensures SameDistances(old(sources), sources)
    {
      ghost var total := Total(Bag, slots);
      var i := 0;
      while i < |slots|
        invariant Valid()
        invariant Cleared(slots, i, neigh) && OthersKept(total, Total(Bag, slots), neigh)
        invariant SameDistances(old(sources), sources) && muted <= old(muted)
        decreases |Total(Bag, slots)|, |slots| - i
      {
        var k := FirstThrough(i, neigh);
        if k < |slots[i]| {
          ghost var before := sources;
          FlushThrough(i, k, neigh, now, total);
          SameDistancesTransitive(old(sources), before, sources);
        } else {
          i := i + 1;
        }
      }
      OthersAreAll(slots, neigh, total);
    }

    /** One round of the loop: the part of the table already cleared stays so. */
    method FlushThrough(i: nat, k: nat, neigh: Neigh, now: int, ghost total: multiset<Route>)
      requires Valid() && i < |slots| && k < |slots[i]| && slots[i][k].neigh == neigh
      requires Cleared(slots, i, neigh) && OthersKept(total, Total(Bag, slots), neigh)
      modifies this`slots, this`kernel, this`muted, this`sources, this`maxSlots
      ensures Valid() && muted <= old(muted)
      ensures Cleared(slots, i, neigh) && OthersKept(total, Total(Bag, slots), neigh)
      ensures |Total(Bag, slots)| < old(|Total(Bag, slots)|)
      ensures SameDistances(old(sources), sources)
    {
      ghost var before, r := slots, Erase(slots[i][k]);
      TotalAfterFlush(sources, slots, EnvFor(KeyOf(slots[i]), now), i, k);
      FlushRoute(i, k, now);
      FlushProgress(before, slots, i, r, neigh, total);
    }

    method FirstThrough(i: nat, neigh: Neigh) returns (k: nat)
      requires i < |slots|
      ensures k <= |slots[i]|
      ensures k < |slots[i]| ==> slots[i][k].neigh == neigh
      ensures k == |slots[i]| ==> NoneVia(slots[i], neigh)
    {
      k := 0;
      while k < |slots[i]| && slots[i][k].neigh != neigh
        invariant 0 <= k <= |slots[i]|
        invariant forall j :: 0 <= j < k ==> slots[i][j].neigh != neigh
      {
        k := k + 1;
      }
    }

    /** find_route. */
    method FindRoute(i: nat, neigh: Neigh, nexthop: nat) returns (k: nat)
      requires i < |slots|
      ensures k == FindVia(slots[i], neigh, nexthop)
    {
      var slot := slots[i];
      k := 0;
      while k < |slot|
        invariant 0 <= k <= |slot|
        invariant FindVia(slot, neigh, nexthop) == k + FindVia(slot[k..], neigh, nexthop)
      {
        if slot[k].neigh == neigh && slot[k].nexthop == nexthop {
          return;
        }
        assert slot[k..][1..] == slot[k + 1..];
        k := k + 1;
      }
    }

    /** Fields the kernel does not see. */
    method Relabel(i: nat, k: nat, r: Route)
      requires TableOk() && i < |slots| && k < |slots[i]|
      requires r.src in sources && r.src.key == KeyOf(slots[i])
      requires r == slots[i][k].(src := r.src, time := r.time, seqno := r.seqno, holdTime := r.holdTime)
      modifies this`slots
      ensures TableOk()
      ensures slots == old(slots[i := slots[i][k := r]])
    {
      ReplaceKeeps(KeyOf(slots[i]), sources, slots[i], k, r);
      ReplaceSlot(sources, slots, i, slots[i][k := r]);
      SlotAtIndex(slots, i);
      KernelStays(kernel, slots, slots[i := slots[i][k := r]], KeyOf(slots[i]), kernelMetric, muted);
      slots := slots[i := slots[i][k := r]];
    }

    /** The field updates of update_route, and the removal from the kernel of a
        route that an unfeasible update moved to another source. */
    method ReviseFields(i: nat, k: nat, sid: SourceId, u: Update, now: int) returns (lost: bool)
      requires TableOk() && i < |slots| && k < |slots[i]|
      requires sid in sources && sid.key == KeyOf(slots[i])
      modifies this`slots, this`kernel, this`muted
      ensures TableOk()
      ensures muted <= old(muted) + {old(KeyOf(slots[i]))} && (u.cost < 0x10000 ==> muted <= old(muted))
      ensures var r := old(Revised(EnvFor(KeyOf(slots[i]), now), sources[sid], slots[i][k], sid, u));
              && slots == old(slots)[i := old(slots)[i][k := r]]
              && lost == (old(slots)[i][k].installed && !r.installed)
    {
      ghost var slots0: seq<Slot>, was: Route := slots, slots[i][k];
      var feasible := Feasible(sources[sid], u.seqno, u.refmetric, now);
      lost := false;
      if !feasible && slots[i][k].installed {
        if sid != slots[i][k].src {
          UninstallRoute(i, k);
          lost := true;
        }
      }
      assert SlotsSet(slots0, i, k, was.(installed := was.installed && !lost)) == slots by {
        assert slots0[i][k := slots0[i][k]] == slots0[i];
      }
      var r := slots[i][k].(src := sid, seqno := u.seqno, holdTime := HoldTime(u.interval));
      if (feasible || keepUnfeasible) && u.refmetric < INFINITY {
        r := r.(time := now);
      }
      SetTwice(slots0, i, k, slots[i][k], r);
      Relabel(i, k, r);
      var changed := WithMetric(r, u.refmetric, Cut(u.cost), u.addMetric);
      SetTwice(slots0, i, k, r, changed);
      assert KeyOf(slots[i]) == KeyOf(slots0[i]);
      ChangeRouteMetric(i, k, u.refmetric, u.cost, u.addMetric);
    }

    /** update_route on an existing route, but for the reference counts. */
    method ReviseRoute(i: nat, k: nat, sid: SourceId, u: Update, now: int)
      requires TableOk() && i < |slots| && k < |slots[i]|
      requires sid in sources && sid.key == KeyOf(slots[i])
      modifies this`slots, this`kernel, this`muted
      ensures TableOk()
      ensures muted <= old(muted) + {old(KeyOf(slots[i]))} && (u.cost < 0x10000 ==> muted <= old(muted))
      ensures slots == old(slots[i := UpdateExisting(EnvFor(KeyOf(slots[i]), now), sources, slots[i], k, sid, u)])
    {
      ghost var key := KeyOf(slots[i]);
      var oldMetric := Metric(slots[i][k]);
      var lost := ReviseFields(i, k, sid, u, now);
      assert KeyOf(slots[i]) == key;
      RouteChanged(i, k, oldMetric, now);
      if lost {
        assert ValidSlot(KeyOf(slots[i]), sources, slots[i]);
        RouteLost(i, now);
      }
    }

    /** insert_route: at the end of the slot, or in a new slot at its place. */
    method InsertRoute(found: int, n: nat, key: Key, r: Route) returns (i: nat)
      requires TableOk() && Located(slots, key, found, n)
      requires r.src in sources && r.src.key == key && !r.installed
      requires FindVia(SlotAt(slots, key), r.neigh, r.nexthop) == |SlotAt(slots, key)|
      modifies this`slots, this`maxSlots
      ensures TableOk()
      ensures slots == old(Put(slots, found, n, SlotAt(slots, key) + [r]))
      ensures i == (if found >= 0 then found else n) && slots[i] == old(SlotAt(slots, key)) + [r]
    {
      AppendInKernel(sources, slots, kernel, kernelMetric, muted, key, found, n, r);
      if found < 0 {
        if |slots| >= maxSlots {
          maxSlots := Grown(maxSlots);
        }
        assert [] + [r] == [r];
        slots := slots[..n] + [[r]] + slots[n..];
        return n;
      } else {
        SlotAtIndex(slots, found);
        slots := slots[found := slots[found] + [r]];
        return found;
      }
    }

    /** update_route on a route that is not in the table and is accepted. */
    method InsertAndConsider(found: int, n: nat, sid: SourceId, u: Update, now: int)
      requires TableOk() && Located(slots, sid.key, found, n) && sid in sources
      requires Known(sources, SlotAt(slots, sid.key))
      requires FindVia(SlotAt(slots, sid.key), u.neigh, u.nexthop) == |SlotAt(slots, sid.key)|
      modifies this`slots, this`kernel, this`muted, this`maxSlots
      ensures TableOk() && muted <= old(muted)
      ensures slots ==
              old(Put(slots, found, n, InsertNew(EnvFor(sid.key, now), sources, SlotAt(slots, sid.key), sid, u)))
    {
      ghost var slots0, slot := slots, SlotAt(slots, sid.key);
      ghost var env := EnvFor(sid.key, now);
      var r := Route(sid, u.refmetric, Cut(u.cost), u.addMetric, u.seqno, u.neigh, u.nexthop, now,
                     HoldTime(u.interval), false);
      SlotIsValid(sources, slots, sid.key);
      var i := InsertRoute(found, n, sid.key, r);
      assert KeyOf(slots[i]) == sid.key;
      ConsiderRoute(i, |slots[i]| - 1, now);
      PutTwice(slots0, found, n, slot + [r], InsertNew(env, sources, slot, sid, u));
    }

    /** find_source with create set. */
    method FindSource(sid: SourceId, seqno: u16, now: int)
      requires Valid()
      modifies this`sources
      ensures Valid()
      ensures sources == EnsureSource(old(sources), sid, seqno, now)
    {
      CountsWithNewSource(sources, slots, sid, seqno, now);
      ValidByKeys(sources, EnsureSource(sources, sid, seqno, now), slots);
      if sid !in sources {
        sources := sources[sid := Source(seqno, INFINITY, now, 0)];
      }
    }

    method UpdateFound(i: nat, k: nat, sid: SourceId, u: Update, now: int)
      requires Valid() && i < |slots| && k < |slots[i]|
      requires sid in sources && sid.key == KeyOf(slots[i])
      modifies this`slots, this`kernel, this`muted, this`sources
      ensures Valid()
      ensures muted <= old(muted) + {sid.key} && (u.cost < 0x10000 ==> muted <= old(muted))
      ensures SlotAt(slots, sid.key) == old(UpdateExisting(EnvFor(sid.key, now), sources, slots[i], k, sid, u))
      ensures OnlyAt(old(slots), slots, sid.key)
      ensures SameDistances(old(sources), sources)
    {
      UpdateOutcome(sources, slots, xroutes, EnvFor(sid.key, now), i, k, sid, u);
      var src := slots[i][k].src;
      ghost var after := Release(Retain(sources, sid), src);
      CountsOnly(sources, sid, src);
      ReviseRoute(i, k, sid, u, now);
      assert ExportsOk();
      assert CountsReferences(after, slots);
      Recount(Release(Retain(sources, sid), src));
    }

    /** retain_source and release_source: only reference counts change. */
    method Recount(after: Sources)
      requires TableOk() && SameDistances(sources, after)
      requires ExportsOk() && CountsReferences(after, slots)
      modifies this`sources
      ensures Valid() && sources == after
    {
      ValidByKeys(sources, after, slots);
      sources := after;
    }

    method InsertAccepted(found: int, n: nat, sid: SourceId, u: Update, now: int)
      requires Valid() && Located(slots, sid.key, found, n) && sid in sources
      requires Known(sources, SlotAt(slots, sid.key))
      requires FindVia(SlotAt(slots, sid.key), u.neigh, u.nexthop) == |SlotAt(slots, sid.key)|
      modifies this`slots, this`kernel, this`muted, this`sources, this`maxSlots
      ensures Valid() && muted <= old(muted)
      ensures SlotAt(slots, sid.key) == old(InsertNew(EnvFor(sid.key, now), sources, SlotAt(slots, sid.key), sid, u))
      ensures OnlyAt(old(slots), slots, sid.key)
      ensures SameDistances(old(sources), sources)
    {
      InsertOutcome(sources, slots, xroutes, EnvFor(sid.key, now), found, n, sid, u);
      InsertAndConsider(found, n, sid, u, now);
      CountsOnly(sources, sid, sid);
      Recount(Retain(sources, sid));
    }

    /** update_route, for a prefix that is not martian: the destination's slot
        becomes what Selection says, nothing else moves, and every invariant is
        kept, whatever the update. */
    method UpdateRoute(key: Key, u: Update, now: int)
      requires Valid()
      modifies this`slots, this`kernel, this`muted, this`sources, this`maxSlots
      ensures Valid()
      ensures muted <= old(muted) + {key} && (u.cost < 0x10000 ==> muted <= old(muted))
      ensures u.id == myid || u.addMetric >= INFINITY ==>
              slots == old(slots) && kernel == old(kernel) && sources == old(sources) && muted == old(muted)
      ensures u.id != myid && u.addMetric < INFINITY ==>
              var sid := SourceId(u.id, key);
              var known := EnsureSource(old(sources), sid, u.seqno, now);
              && Known(known, old(SlotAt(slots, key)))
              && SlotAt(slots, key) == SlotAfterUpdate(old(EnvFor(key, now)), known, old(SlotAt(slots, key)), sid, u)
              && OnlyAt(old(slots), slots, key)
              && SameDistances(known, sources)
      ensures u.id != myid && u.addMetric < INFINITY && u.refmetric < INFINITY && !Blocked(old(EnvFor(key, now))) ==>
                var sid := SourceId(u.id, key);
                Feasible(EnsureSource(old(sources), sid, u.seqno, now)[sid], u.seqno, u.refmetric, now) ==>
                  ServedBy(kernel, SlotAt(slots, key), key, MetricOf(u))
    {
      if u.id == myid || u.addMetric >= INFINITY {
        return;
      }
      var sid := SourceId(u.id, key);
      FindSource(sid, u.seqno, now);
      UpdateInKernel(sources, slots, EnvFor(key, now), sid, u);
      UpdateSlot(sid, u, now);
      assert AgreesAt(kernel, key, SlotAt(slots, key), kernelMetric, key in muted);
    }

    /** update_route once the source is known. */
    method UpdateSlot(sid: SourceId, u: Update, now: int)
      requires Valid() && sid in sources
      modifies this`slots, this`kernel, this`muted, this`sources, this`maxSlots
      ensures Valid()
      ensures muted <= old(muted) + {sid.key} && (u.cost < 0x10000 ==> muted <= old(muted))
      ensures Known(old(sources), old(SlotAt(slots, sid.key)))
      ensures SlotAt(slots, sid.key) ==
              old(SlotAfterUpdate(EnvFor(sid.key, now), sources, SlotAt(slots, sid.key), sid, u))
      ensures OnlyAt(old(slots), slots, sid.key) && SameDistances(old(sources), sources)
    {
      SlotIsValid(sources, slots, sid.key);
      var found, n := FindRouteSlot(sid.key);
      if found >= 0 {
        SlotAtIndex(slots, found);
        var k := FindRoute(found, u.neigh, u.nexthop);
        if k < |slots[found]| {
          UpdateFound(found, k, sid, u, now);
          return;
        }
      }
      if u.refmetric >= INFINITY {
        return;
      }
      if !Feasible(sources[sid], u.seqno, u.refmetric, now) && !keepUnfeasible {
        return;
      }
      InsertAccepted(found, n, sid, u, now);
    }

    /** The retraction of an expired route. */
    method AgeRoute(i: nat, k: nat)
      requires TableOk() && i < |slots| && k < |slots[i]|
      modifies this`slots, this`kernel, this`muted
      ensures TableOk() && muted <= old(muted)
      ensures var r := old(slots)[i][k];
              slots == old(slots)[i := old(slots)[i][k := Retracted(r.(seqno := Plus(sources[r.src].seqno, 1)))]]
    {
      ghost var slots0 := slots;
      var r := slots[i][k];
      var aged := r.(seqno := Plus(sources[r.src].seqno, 1));
      Relabel(i, k, aged);
      SetTwice(slots0, i, k, aged, Retracted(aged));
      ChangeRouteMetric(i, k, INFINITY, INFINITY, 0);
    }

    /** update_route_metric on the slot and the kernel. */
    method RefreshRoute(i: nat, k: nat, cost: nat, addMetric: u16, now: int)
      requires TableOk() && i < |slots| && k < |slots[i]|
      modifies this`slots, this`kernel, this`muted
      ensures TableOk()
      ensures muted <= old(muted) + {old(KeyOf(slots[i]))} && (cost < 0x10000 ==> muted <= old(muted))
      ensures slots ==
              old(slots[i := RefreshMetric(EnvFor(KeyOf(slots[i]), now), sources, slots[i], k, cost, addMetric)])
    {
      ghost var key := KeyOf(slots[i]);
      var r, oldMetric := slots[i][k], Metric(slots[i][k]);
      if Expired(r, now) {
        if r.refmetric < INFINITY {
          AgeRoute(i, k);
          if oldMetric < INFINITY {
            assert KeyOf(slots[i]) == key;
            RouteChanged(i, k, oldMetric, now);
          }
        }
      } else {
        ChangeRouteMetric(i, k, r.refmetric, cost, addMetric);
        if Metric(slots[i][k]) != oldMetric {
          assert KeyOf(slots[i]) == key;
          RouteChanged(i, k, oldMetric, now);
        }
      }
    }

    /** update_route_metric.  The kernel can go wrong for this destination only, and
        only with a cost of more than 16 bits. */
    method UpdateRouteMetric(i: nat, k: nat, cost: nat, addMetric: u16, now: int)
      requires Valid() && i < |slots| && k < |slots[i]|
      modifies this`slots, this`kernel, this`muted
      ensures Valid()
      ensures muted <= old(muted) + {old(KeyOf(slots[i]))} && (cost < 0x10000 ==> muted <= old(muted))
      ensures slots ==
              old(slots[i := RefreshMetric(EnvFor(KeyOf(slots[i]), now), sources, slots[i], k, cost, addMetric)])
    {
      RefreshOutcome(sources, slots, xroutes, EnvFor(KeyOf(slots[i]), now), i, k, cost, addMetric);
      RefreshRoute(i, k, cost, addMetric, now);
    }

    /** The bookkeeping of flushupdates for one destination: an advertised route
        lowers the feasibility distance of its source. */
    method AdvertiseRoute(i: nat, now: int)
      requires Valid() && i < |slots|
      modifies this`sources
      ensures Valid()
      ensures var r := slots[i][0];
              sources == if r.installed
                         then old(sources)[r.src := UpdateSource(old(sources)[r.src], r.seqno, Metric(r), now)]
                         else old(sources)
    {
      var r := slots[i][0];
      if r.installed {
        var after := sources[r.src := UpdateSource(sources[r.src], r.seqno, Metric(r), now)];
        ValidByKeys(sources, after, slots);
        sources := after;
      }
    }

    /** expire_sources: exactly the stale sources no route points at are freed,
        so every route still finds its source. */
    method ExpireSources(now: int)
      requires Valid()
      modifies this`sources
      ensures Valid()
      ensures forall sid :: sid in sources <==>
              sid in old(sources) && !(Stale(old(sources)[sid], now) && old(sources)[sid].routeCount == 0)
      ensures forall sid :: sid in sources ==>
              sources[sid] == old(sources)[sid].(time := Min(old(sources)[sid].time, now))
    {
      var todo, before := sources.Keys, sources;
      var left := sources;
      while todo != {}
        invariant todo <= before.Keys && left.Keys <= before.Keys
        invariant forall sid :: sid in before ==>
          (sid in left <==> sid in todo || !(Stale(before[sid], now) && before[sid].routeCount == 0))
        invariant forall sid :: sid in left ==>
          left[sid] == if sid in todo then before[sid] else before[sid].(time := Min(before[sid].time, now))
        decreases |todo|
      {
        var sid :| sid in todo;
        if left[sid].time > now {
          left := left[sid := left[sid].(time := now)];
        }
        if Stale(left[sid], now) && left[sid].routeCount == 0 {
          left := left - {sid};
        }
        todo := todo - {sid};
      }
      UsedSourcesStay(before, left, slots);
      sources := left;
    }

    /** add_xroute: 0 if a route at least as good is exported already, else 1. */
    method AddXroute(x: Xroute) returns (rc: int)
      requires KeysUnique(xroutes) && |xroutes| <= maxXroutes
      modifies this`xroutes, this`maxXroutes
      ensures KeysUnique(xroutes) && |xroutes| <= maxXroutes
      ensures var i := FindX(old(xroutes), x.key);
              if i == |old(xroutes)| then
                rc == 1 && xroutes == old(xroutes) + [x]
              else if old(xroutes)[i].metric <= x.metric then
                rc == 0 && xroutes == old(xroutes)
              else
                rc == 1 && xroutes == old(xroutes)[i := old(xroutes)[i].(metric := x.metric)]
    {
      var i := FindXroute(x.key);
      if i < |xroutes| {
        if xroutes[i].metric <= x.metric {
          return 0;
        }
        xroutes := xroutes[i := xroutes[i].(metric := x.metric)];
        return 1;
      }
      if |xroutes| >= maxXroutes {
        maxXroutes := Grown(maxXroutes);
      }
      xroutes := xroutes + [x];
      return 1;
    }

    /** xroute_add_new_route, for a prefix that is not martian and the metric the
        redistribute filter gave: an exported destination leaves the kernel. */
    method ExportRoute(x: Xroute)
      requires Valid()
      modifies this`slots, this`kernel, this`muted, this`xroutes, this`maxXroutes
      ensures Valid() && muted <= old(muted)
      ensures x.metric < INFINITY ==>
                XrouteMetric(xroutes, x.key).Some? && XrouteMetric(xroutes, x.key).value <= x.metric
      ensures OnlyAt(old(slots), slots, x.key)
      ensures SlotAt(slots, x.key) == old(SlotAt(slots, x.key)) ||
              SlotAt(slots, x.key) == Demoted(old(SlotAt(slots, x.key)))
    {
      if x.metric >= INFINITY {
        return;
      }
      var rc := AddXroute(x);
      ExportedNow(old(xroutes), xroutes, x);
      if rc > 0 {
        WithdrawDuplicate(x.key, x.metric);
      }
      if allowDuplicates < 0 {
        ExclusiveAfterExport(old(xroutes), xroutes, old(slots), slots, x.key);
      }
    }

    /** The tail of xroute_add_new_route: uninstall the route just duplicated. */
    method WithdrawDuplicate(key: Key, metric: u16)
      requires TableOk() && CountsReferences(sources, slots)
      modifies this`slots, this`kernel, this`muted
      ensures TableOk() && CountsReferences(sources, slots) && muted <= old(muted)
      ensures OnlyAt(old(slots), slots, key)
      ensures SlotAt(slots, key) == old(SlotAt(slots, key)) || SlotAt(slots, key) == Demoted(old(SlotAt(slots, key)))
      ensures allowDuplicates < 0 ==> !HasInstalled(SlotAt(slots, key))
    {
      var found, n := FindRouteSlot(key);
      if found >= 0 {
        SlotAtIndex(slots, found);
        if slots[found][0].installed && (allowDuplicates < 0 || metric < allowDuplicates) {
          Withdraw(found);
        }
      }
    }

    /** uninstall_route on the head of a slot, as exporting its prefix does. */
    method Withdraw(i: nat)
      requires TableOk() && CountsReferences(sources, slots) && i < |slots|
      modifies this`slots, this`kernel, this`muted
      ensures TableOk() && CountsReferences(sources, slots) && muted <= old(muted)
      ensures slots == old(slots[i := Demoted(slots[i])])
      ensures SlotAt(slots, old(KeyOf(slots[i]))) == old(Demoted(slots[i]))
      ensures OnlyAt(old(slots), slots, old(KeyOf(slots[i])))
    {
      DemotedInPlace(sources, slots, i);
      DemotedCounts(sources, slots, i);
      UninstallRoute(i, 0);
    }

    /** flush_xroute. */
    method FlushXroute(i: nat)
      requires Valid() && i < |xroutes|
      modifies this`xroutes, this`maxXroutes
      ensures Valid()
      ensures multiset(xroutes) == old(multiset(xroutes) - multiset{xroutes[i]})
    {
      SwapRemovedIsRemoval(xroutes, i);
      SwapRemovedKeepsKeys(xroutes, i);
      if allowDuplicates < 0 {
        ExclusiveAfterRemoval(xroutes, i, slots);
      }
      SwapRemove(i);
    }

    /** The last route moves to the place of the removed one. */
    method SwapRemove(i: nat)
      requires i < |xroutes| <= maxXroutes
      modifies this`xroutes, this`maxXroutes
      ensures xroutes == SwapRemoved(old(xroutes), i) && |xroutes| <= maxXroutes
    {
      xroutes := xroutes[i := xroutes[|xroutes| - 1]][..|xroutes| - 1];
      maxXroutes := Shrunk(|xroutes|, maxXroutes);
    }
  }
}
