/** The sorted slot array seen as a table from destinations to slots, and the
    sums over it (babeld/route.c). */
module TableView {
  import opened Selection
  import opened SelectionProps

  /** memcmp on the prefix, then the prefix length. */
  function KeyCompare(a: Key, b: Key): int {
    if a.prefix != b.prefix then (if a.prefix < b.prefix then -1 else 1)
    else if a.plen < b.plen then -1
    else if a.plen > b.plen then 1
    else 0
  }

  predicate KeyLess(a: Key, b: Key) {
    KeyCompare(a, b) < 0
  }

  predicate NonEmptySlots(slots: seq<Slot>) {
    forall i :: 0 <= i < |slots| ==> |slots[i]| > 0
  }

  function KeyOf(slot: Slot): Key
    requires |slot| > 0
  {
    slot[0].src.key
  }

  predicate Sorted(slots: seq<Slot>)
    requires NonEmptySlots(slots)
  {
    forall i, j :: 0 <= i < j < |slots| ==> KeyLess(KeyOf(slots[i]), KeyOf(slots[j]))
  }

  predicate ValidSlots(sources: Sources, slots: seq<Slot>) {
    && NonEmptySlots(slots) && Sorted(slots)
    && forall i :: 0 <= i < |slots| ==> ValidSlot(KeyOf(slots[i]), sources, slots[i])
  }

  predicate HasKey(slots: seq<Slot>, key: Key)
    requires NonEmptySlots(slots)
  {
    exists i :: 0 <= i < |slots| && KeyOf(slots[i]) == key
  }

  /** The slot of a destination, empty if the table has none. */
  ghost function SlotAt(slots: seq<Slot>, key: Key): Slot
    requires NonEmptySlots(slots)
  {
    if HasKey(slots, key) then
      var i :| 0 <= i < |slots| && KeyOf(slots[i]) == key; slots[i]
    else []
  }

  /** Everything but one destination is as it was. */
  ghost predicate OnlyAt(before: seq<Slot>, after: seq<Slot>, key: Key)
    requires NonEmptySlots(before) && NonEmptySlots(after)
  {
    forall other: Key :: other != key ==> SlotAt(after, other) == SlotAt(before, other)
  }

  lemma SlotAtIndex(slots: seq<Slot>, i: nat)
    requires NonEmptySlots(slots) && Sorted(slots) && i < |slots|
    ensures SlotAt(slots, KeyOf(slots[i])) == slots[i]
  {
  }

  lemma SlotAtSame(before: seq<Slot>, after: seq<Slot>, key: Key)
    requires NonEmptySlots(before) && Sorted(before) && NonEmptySlots(after) && Sorted(after)
    requires forall slot: Slot :: |slot| > 0 && KeyOf(slot) == key ==> (slot in before <==> slot in after)
    ensures SlotAt(before, key) == SlotAt(after, key)
  {
  }

  // ----- the three ways the array changes -----

  lemma ReplaceSlot(sources: Sources, slots: seq<Slot>, i: nat, slot: Slot)
    requires ValidSlots(sources, slots) && i < |slots| && |slot| > 0
    requires ValidSlot(KeyOf(slots[i]), sources, slot)
    ensures ValidSlots(sources, slots[i := slot])
    ensures SlotAt(slots[i := slot], KeyOf(slots[i])) == slot
    ensures OnlyAt(slots, slots[i := slot], KeyOf(slots[i]))
  {
    var after := slots[i := slot];
    assert KeyOf(slot) == KeyOf(slots[i]);
    SlotAtIndex(after, i);
    forall other: Key | other != KeyOf(slots[i]) ensures SlotAt(after, other) == SlotAt(slots, other) {
      forall s: Slot | |s| > 0 && KeyOf(s) == other ensures s in slots <==> s in after {
        if s in slots {
          var j :| 0 <= j < |slots| && slots[j] == s;
          assert after[j] == s;
        }
      }
      SlotAtSame(slots, after, other);
    }
  }

  /** n is where a new key belongs. */
  predicate InsertionPoint(slots: seq<Slot>, key: Key, n: nat)
    requires NonEmptySlots(slots)
  {
    && n <= |slots|
    && (forall i :: 0 <= i < n ==> KeyLess(KeyOf(slots[i]), key))
    && (forall i :: n <= i < |slots| ==> KeyLess(key, KeyOf(slots[i])))
  }

  function Inserted(slots: seq<Slot>, n: nat, slot: Slot): seq<Slot>
    requires n <= |slots|
  {
    slots[..n] + [slot] + slots[n..]
  }

  lemma InsertedSorted(slots: seq<Slot>, n: nat, slot: Slot)
    requires NonEmptySlots(slots) && Sorted(slots) && |slot| > 0 && InsertionPoint(slots, KeyOf(slot), n)
    ensures NonEmptySlots(Inserted(slots, n, slot)) && Sorted(Inserted(slots, n, slot))
  {
    var after := Inserted(slots, n, slot);
    assert forall i :: 0 <= i < |after| ==>
             after[i] == if i < n then slots[i] else if i == n then slot else slots[i - 1];
  }

  lemma InsertedValid(sources: Sources, slots: seq<Slot>, n: nat, slot: Slot)
    requires ValidSlots(sources, slots) && |slot| > 0
    requires ValidSlot(KeyOf(slot), sources, slot) && InsertionPoint(slots, KeyOf(slot), n)
    ensures ValidSlots(sources, Inserted(slots, n, slot))
  {
    var after := Inserted(slots, n, slot);
    InsertedSorted(slots, n, slot);
    forall i | 0 <= i < |after| ensures ValidSlot(KeyOf(after[i]), sources, after[i]) {
      assert after[i] == if i < n then slots[i] else if i == n then slot else slots[i - 1];
    }
  }

  lemma InsertSlot(sources: Sources, slots: seq<Slot>, n: nat, slot: Slot)
    requires ValidSlots(sources, slots) && |slot| > 0
    requires ValidSlot(KeyOf(slot), sources, slot) && InsertionPoint(slots, KeyOf(slot), n)
    ensures ValidSlots(sources, Inserted(slots, n, slot))
    ensures SlotAt(Inserted(slots, n, slot), KeyOf(slot)) == slot
    ensures SlotAt(slots, KeyOf(slot)) == []
    ensures OnlyAt(slots, Inserted(slots, n, slot), KeyOf(slot))
  {
    var after := Inserted(slots, n, slot);
    InsertedValid(sources, slots, n, slot);
    assert after[n] == slot;
    SlotAtIndex(after, n);
    forall other: Key | other != KeyOf(slot) ensures SlotAt(after, other) == SlotAt(slots, other) {
      forall s: Slot | |s| > 0 && KeyOf(s) == other ensures s in slots <==> s in after {
        assert s in slots <==> s in slots[..n] || s in slots[n..];
      }
      SlotAtSame(slots, after, other);
    }
  }

  function Removed(slots: seq<Slot>, i: nat): seq<Slot>
    requires i < |slots|
  {
    slots[..i] + slots[i + 1..]
  }

  lemma RemovedAt(slots: seq<Slot>, i: nat, j: nat)
    requires i < |slots| && j < |slots| - 1
    ensures Removed(slots, i)[j] == slots[if j < i then j else j + 1]
  {
  }

  lemma RemovedSorted(slots: seq<Slot>, i: nat)
    requires NonEmptySlots(slots) && Sorted(slots) && i < |slots|
    ensures NonEmptySlots(Removed(slots, i)) && Sorted(Removed(slots, i)) && !HasKey(Removed(slots, i), KeyOf(slots[i]))
  {
    var after := Removed(slots, i);
    assert forall j :: 0 <= j < |after| ==> after[j] == if j < i then slots[j] else slots[j + 1];
  }

  lemma RemovedMember(slots: seq<Slot>, i: nat, s: Slot)
    requires i < |slots| && s != slots[i]
    ensures s in slots <==> s in Removed(slots, i)
  {
    if s in slots {
      var j :| 0 <= j < |slots| && slots[j] == s;
      RemovedAt(slots, i, if j < i then j else j - 1);
    }
  }

  lemma RemoveSlot(sources: Sources, slots: seq<Slot>, i: nat)
    requires ValidSlots(sources, slots) && i < |slots|
    ensures ValidSlots(sources, Removed(slots, i))
    ensures SlotAt(Removed(slots, i), KeyOf(slots[i])) == []
    ensures OnlyAt(slots, Removed(slots, i), KeyOf(slots[i]))
  {
    var after := Removed(slots, i);
    RemovedSorted(slots, i);
    forall j | 0 <= j < |after| ensures ValidSlot(KeyOf(after[j]), sources, after[j]) {
      RemovedAt(slots, i, j);
    }
    forall other: Key | other != KeyOf(slots[i]) ensures SlotAt(after, other) == SlotAt(slots, other) {
      forall s: Slot | |s| > 0 && KeyOf(s) == other ensures s in slots <==> s in after {
        RemovedMember(slots, i, s);
      }
      SlotAtSame(slots, after, other);
    }
  }

  // ----- sums over the table -----

  ghost function Srcs(slot: Slot): seq<SourceId> {
    seq(|slot|, i requires 0 <= i < |slot| => slot[i].src)
  }

  /** Which sources the routes of a slot point at, and how often. */
  ghost function SrcBag(slot: Slot): multiset<SourceId> {
    multiset(Srcs(slot))
  }

  ghost function Total<T>(f: Slot -> multiset<T>, slots: seq<Slot>): multiset<T> {
    if slots == [] then multiset{} else f(slots[0]) + Total(f, slots[1..])
  }

  lemma {:induction false} TotalConcat<T>(f: Slot -> multiset<T>, a: seq<Slot>, b: seq<Slot>)
    ensures Total(f, a + b) == Total(f, a) + Total(f, b)
  {
    if a == [] {
      assert a + b == b;
    } else {
      assert (a + b)[1..] == a[1..] + b;
      TotalConcat(f, a[1..], b);
    }
  }

  lemma TotalAt<T>(f: Slot -> multiset<T>, slots: seq<Slot>, i: nat)
    requires i < |slots|
    ensures Total(f, slots) == Total(f, slots[..i]) + f(slots[i]) + Total(f, slots[i + 1..])
    ensures Total(f, Removed(slots, i)) == Total(f, slots[..i]) + Total(f, slots[i + 1..])
  {
    assert slots == slots[..i] + slots[i..];
    TotalConcat(f, slots[..i], slots[i..]);
    assert slots[i..][1..] == slots[i + 1..];
    TotalConcat(f, slots[..i], slots[i + 1..]);
  }

  lemma TotalReplaced<T>(f: Slot -> multiset<T>, slots: seq<Slot>, i: nat, slot: Slot)
    requires i < |slots|
    ensures Total(f, slots[i := slot]) == Total(f, slots) - f(slots[i]) + f(slot)
  {
    TotalAt(f, slots, i);
    TotalAt(f, slots[i := slot], i);
    assert slots[i := slot][..i] == slots[..i] && slots[i := slot][i + 1..] == slots[i + 1..];
  }

  lemma TotalInserted<T>(f: Slot -> multiset<T>, slots: seq<Slot>, n: nat, slot: Slot)
    requires n <= |slots|
    ensures Total(f, Inserted(slots, n, slot)) == Total(f, slots) + f(slot)
  {
    TotalAt(f, Inserted(slots, n, slot), n);
    assert Inserted(slots, n, slot)[..n] == slots[..n];
    assert Inserted(slots, n, slot)[n + 1..] == slots[n..];
    TotalConcat(f, slots[..n], slots[n..]);
    assert slots == slots[..n] + slots[n..];
  }

  lemma SrcBagConcat(a: Slot, b: Slot)
    ensures SrcBag(a + b) == SrcBag(a) + SrcBag(b)
  {
    assert Srcs(a + b) == Srcs(a) + Srcs(b);
  }

  lemma SrcBagAt(slot: Slot, k: nat)
    requires k < |slot|
    ensures SrcBag(slot) == SrcBag(Without(slot, k)) + multiset{slot[k].src}
  {
    assert slot == slot[..k] + [slot[k]] + slot[k + 1..];
    SrcBagConcat(slot[..k] + [slot[k]], slot[k + 1..]);
    SrcBagConcat(slot[..k], [slot[k]]);
    SrcBagConcat(slot[..k], slot[k + 1..]);
    assert Srcs([slot[k]]) == [slot[k].src];
  }

  /** Reordering a slot and moving the installed mark keeps the reference counts. */
  lemma {:induction false} BagDeterminesSrcs(a: Slot, b: Slot)
    requires Bag(a) == Bag(b)
    ensures SrcBag(a) == SrcBag(b)
    decreases |a|
  {
    if |a| == 0 {
      assert |Bag(b)| == 0;
      assert |b| == 0;
    } else {
      assert Erased(a)[0] in Bag(b);
      var j :| 0 <= j < |Erased(b)| && Erased(b)[j] == Erased(a)[0];
      SplitAt(a, 0);
      SplitAt(b, j);
      BagDeterminesSrcs(Without(a, 0), Without(b, j));
      SrcBagAt(a, 0);
      SrcBagAt(b, j);
      assert Erase(a[0]) == Erase(b[j]);
    }
  }
}
