/** The order of multipath candidates, and what the choice means on a sorted list
    (bgpd/bgp_mpath.c). */
module MultipathProps {
  import opened Basics
  import opened Multipath

  // ----- the comparison -----

  /** Both paths carry the same kind of multiprotocol next hop, or none. */
  predicate Alike(a: Info, b: Info) {
    var x, y := a.attr.extra, b.attr.extra;
    (x.None? && y.None?) || (x.Some? && y.Some? && x.value.mpNexthopLen == y.value.mpNexthopLen)
  }

  predicate AllAlike(ms: seq<Info>) {
    forall i, j :: 0 <= i < j < |ms| ==> Alike(ms[i], ms[j])
  }

  lemma CmpAntisymmetric(a: Info, b: Info)
    ensures NexthopCmp(a, b) == -NexthopCmp(b, a) && MpathCmp(a, b) == -MpathCmp(b, a)
  {
  }

  /** Among paths of one kind the comparison is a total preorder. */
  lemma CmpTransitive(a: Info, b: Info, c: Info)
    requires Alike(a, b) && Alike(b, c)
    ensures NexthopCmp(a, b) <= 0 && NexthopCmp(b, c) <= 0 ==> NexthopCmp(a, c) <= 0
    ensures NexthopCmp(a, b) < 0 && NexthopCmp(b, c) <= 0 ==> NexthopCmp(a, c) < 0
    ensures NexthopCmp(a, b) <= 0 && NexthopCmp(b, c) < 0 ==> NexthopCmp(a, c) < 0
  {
  }

  /** The addresses a path of the given kind is compared by. */
  function Addresses(a: Info): seq<nat> {
    match a.attr.extra
    case None => [a.attr.nexthop]
    case Some(x) =>
      if x.mpNexthopLen == 4 || x.mpNexthopLen == 12 then [a.attr.nexthop, x.globalIn]
      else if x.mpNexthopLen == 16 then [a.attr.nexthop, x.global]
      else if x.mpNexthopLen == 32 then [a.attr.nexthop, x.global, x.local]
      else [a.attr.nexthop]
  }

  /** Paths of one kind compare as equal exactly if all those addresses agree; and
      among them MpathCmp tells peers apart. */
  lemma CmpZeroIff(a: Info, b: Info)
    requires Alike(a, b)
    ensures NexthopCmp(a, b) == 0 <==> Addresses(a) == Addresses(b)
    ensures MpathCmp(a, b) == 0 <==> Addresses(a) == Addresses(b) && a.peer == b.peer
  {
    var x, y := Addresses(a), Addresses(b);
    assert |x| == |y| && x[0] == a.attr.nexthop && y[0] == b.attr.nexthop;
    assert x == y <==> forall i :: 0 <= i < |x| ==> x[i] == y[i];
  }

  /** Paths of different kinds can break the order: b equals both a and c, and yet a
      and c differ. */
  lemma CmpNotTransitive(a: Info, b: Info, c: Info)
    requires a.attr == Attr(1, Some(Extra(16, 0, 5, 0))) && b.attr == Attr(1, None)
    requires c.attr == Attr(1, Some(Extra(16, 0, 3, 0)))
    ensures NexthopCmp(a, b) == 0 && NexthopCmp(b, c) == 0 && NexthopCmp(a, c) > 0
  {
  }

  // ----- distinct next hops -----

  lemma {:induction false} WithinSorted(x: seq<Info>, ms: seq<Info>)
    requires Within(x, ms) && Sorted(ms) && AllAlike(ms)
    ensures Sorted(x) && AllAlike(x)
    decreases |ms|
  {
    if x != [] {
      if Within(x, ms[1..]) {
        WithinSorted(x, ms[1..]);
      } else {
        WithinSorted(x[1..], ms[1..]);
        WithinMembers(x[1..], ms[1..]);
        forall j | 0 < j < |x| ensures MpathCmp(x[j], x[0]) >= 0 && Alike(x[0], x[j]) {
          assert x[j] == x[1..][j - 1] && x[j] in ms[1..];
          var h :| 0 <= h < |ms[1..]| && ms[1..][h] == x[j];
          assert ms[h + 1] == x[j];
        }
        assert forall i, j :: 0 < i < j < |x| ==> x[i] == x[1..][i - 1] && x[j] == x[1..][j - 1];
      }
    }
  }

  lemma {:induction false} Ascends(g: seq<Info>, i: nat, j: nat)
    requires Sorted(g) && AllAlike(g) && i < j < |g|
    requires forall k :: 0 < k < |g| ==> NexthopCmp(g[k - 1], g[k]) != 0
    ensures NexthopCmp(g[i], g[j]) < 0
    decreases j - i
  {
    assert NexthopCmp(g[j - 1], g[j]) != 0 && MpathCmp(g[j], g[j - 1]) >= 0;
    CmpAntisymmetric(g[j - 1], g[j]);
    if i < j - 1 {
      Ascends(g, i, j - 1);
      CmpTransitive(g[i], g[j - 1], g[j]);
    }
  }

  /** From sorted candidates of one kind no two chosen paths share a next hop. */
  lemma ChosenDiffer(best: Info, maxpaths: nat, ms: seq<Info>, i: nat, j: nat)
    requires Sorted(ms) && AllAlike(ms) && i < j < |Choice(best, maxpaths, ms)|
    ensures var g := Choice(best, maxpaths, ms); NexthopCmp(g[i], g[j]) < 0
  {
    GreedyIsProper(best, best, 1, maxpaths, ms);
    WithinSorted(Choice(best, maxpaths, ms), ms);
    Ascends(Choice(best, maxpaths, ms), i, j);
  }

  // ----- the next hop of the best path -----

  function LastOf(prev: Info, g: seq<Info>): Info {
    if g == [] then prev else g[|g| - 1]
  }

  lemma {:induction false} GreedyConcat(best: Info, prev: Info, count: nat, maxpaths: nat, a: seq<Info>, b: seq<Info>)
    ensures var g := Greedy(best, prev, count, maxpaths, a);
            Greedy(best, prev, count, maxpaths, a + b) ==
            g + Greedy(best, LastOf(prev, g), count + |g|, maxpaths, b)
    decreases |a|
  {
    if a == [] {
      assert a + b == b;
    } else {
      assert (a + b)[0] == a[0] && (a + b)[1..] == a[1..] + b;
      if Picks(best, prev, count, maxpaths, a[0]) {
        GreedyConcat(best, a[0], count + 1, maxpaths, a[1..], b);
        var g := Greedy(best, a[0], count + 1, maxpaths, a[1..]);
        Associates([a[0]], g, Greedy(best, LastOf(a[0], g), count + 1 + |g|, maxpaths, b));
        assert LastOf(prev, [a[0]] + g) == LastOf(a[0], g);
      } else {
        GreedyConcat(best, prev, count, maxpaths, a[1..], b);
      }
    }
  }

  /** Candidates below, at and above the next hop of the best path. */
  ghost predicate Split(best: Info, low: seq<Info>, same: seq<Info>, high: seq<Info>) {
    && (forall m :: m in low ==> NexthopCmp(m, best) < 0)
    && (forall m :: m in same ==> NexthopCmp(m, best) == 0)
    && (forall m :: m in high ==> NexthopCmp(m, best) > 0)
    && (forall m :: m in low + same + high ==> Alike(m, best))
  }

  predicate HasOther(ms: seq<Info>, best: Info) {
    exists i :: 0 <= i < |ms| && ms[i] != best
  }

  lemma OtherInTail(ms: seq<Info>, best: Info)
    requires ms != []
    ensures HasOther(ms, best) <==> ms[0] != best || HasOther(ms[1..], best)
  {
    if HasOther(ms[1..], best) {
      var i :| 0 <= i < |ms[1..]| && ms[1..][i] != best;
      assert ms[i + 1] != best;
    }
    if HasOther(ms, best) {
      var i :| 0 <= i < |ms| && ms[i] != best;
      assert i > 0 ==> ms[1..][i - 1] != best;
    }
  }

  /** From candidates that all have the next hop of the best path, the first other
      one is taken if the last pick has another next hop and the limit allows. */
  lemma {:induction false} GreedyOfSame(best: Info, prev: Info, count: nat, maxpaths: nat, same: seq<Info>)
    requires forall m :: m in same ==> NexthopCmp(m, best) == 0 && Alike(m, best)
    requires Alike(prev, best)
    ensures Greedy(best, prev, count, maxpaths, same) != [] <==>
            NexthopCmp(prev, best) != 0 && count < maxpaths && HasOther(same, best)
    decreases |same|
  {
    if same != [] {
      var m := same[0];
      assert m in same;
      SameAsBest(prev, m, best);
      if !Picks(best, prev, count, maxpaths, m) {
        GreedyOfSame(best, prev, count, maxpaths, same[1..]);
        OtherInTail(same, best);
      }
    }
  }

  lemma SameAsBest(prev: Info, m: Info, best: Info)
    requires Alike(prev, best) && Alike(m, best) && NexthopCmp(m, best) == 0
    ensures NexthopCmp(prev, m) == 0 <==> NexthopCmp(prev, best) == 0
  {
    CmpZeroIff(m, best);
    CmpZeroIff(prev, m);
    CmpZeroIff(prev, best);
  }

  /** The choice can repeat the next hop of the best path: it does so if and only if
      a path with a lower next hop is chosen first, the limit then allows one more,
      and there is another path with that next hop. */
  lemma BestRepeatsIff(best: Info, maxpaths: nat, low: seq<Info>, same: seq<Info>, high: seq<Info>)
    requires Split(best, low, same, high)
    ensures var g := Choice(best, maxpaths, low);
            (exists x :: x in Choice(best, maxpaths, low + same + high) && NexthopCmp(x, best) == 0) <==>
            g != [] && 1 + |g| < maxpaths && HasOther(same, best)
  {
    var g := Choice(best, maxpaths, low);
    var last := LastOf(best, g);
    var h := Greedy(best, last, 1 + |g|, maxpaths, same);
    var t := Greedy(best, LastOf(last, h), 1 + |g| + |h|, maxpaths, high);
    GreedyConcat(best, best, 1, maxpaths, low, same + high);
    GreedyConcat(best, last, 1 + |g|, maxpaths, same, high);
    Associates(low, same, high);
    assert Choice(best, maxpaths, low + same + high) == g + (h + t);
    PartsOfChoice(best, maxpaths, low, same, high, g, h, t);
    CmpZeroIff(best, best);
    GreedyOfSame(best, last, 1 + |g|, maxpaths, same);
    if h != [] {
      assert h[0] in g + (h + t);
    }
  }

  /** Where the parts of a choice come from. */
  lemma PartsOfChoice(best: Info, maxpaths: nat, low: seq<Info>, same: seq<Info>, high: seq<Info>,
                      g: seq<Info>, h: seq<Info>, t: seq<Info>)
    requires Split(best, low, same, high) && g == Choice(best, maxpaths, low)
    requires h == Greedy(best, LastOf(best, g), 1 + |g|, maxpaths, same)
    requires t == Greedy(best, LastOf(LastOf(best, g), h), 1 + |g| + |h|, maxpaths, high)
    ensures forall x :: x in g ==> NexthopCmp(x, best) < 0 && Alike(x, best)
    ensures forall x :: x in h ==> NexthopCmp(x, best) == 0
    ensures forall x :: x in t ==> NexthopCmp(x, best) > 0
  {
    GreedyMembers(best, best, 1, maxpaths, low);
    GreedyMembers(best, LastOf(best, g), 1 + |g|, maxpaths, same);
    GreedyMembers(best, LastOf(LastOf(best, g), h), 1 + |g| + |h|, maxpaths, high);
  }

  lemma GreedyMembers(best: Info, prev: Info, count: nat, maxpaths: nat, ms: seq<Info>)
    ensures forall x :: x in Greedy(best, prev, count, maxpaths, ms) ==> x in ms
  {
    GreedyIsProper(best, prev, count, maxpaths, ms);
    WithinMembers(Greedy(best, prev, count, maxpaths, ms), ms);
  }
}
