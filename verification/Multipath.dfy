/** The multipath list of a BGP route: an ordered walk over the old list and the
    sorted candidates, relinking live objects (bgpd/bgp_mpath.c). */
module Multipath {
  import opened Basics

  /** The attributes next hops are compared by; addresses are big-endian numbers. */
  datatype Extra = Extra(mpNexthopLen: nat, globalIn: nat, global: nat, local: nat)
  datatype Attr = Attr(nexthop: nat, extra: Option<Extra>)

  function AddrCmp(a: nat, b: nat): int {
    if a < b then -1 else if a > b then 1 else 0
  }

  class Info {
    const attr: Attr
    const peer: nat
    const ibgp: bool
    var mpNext: Info?
    var mpPrev: Info?
    var mpCount: nat
    var multipath: bool
    var multipathChg: bool

    constructor (attr: Attr, peer: nat, ibgp: bool)
      ensures this.attr == attr && this.peer == peer && this.ibgp == ibgp
      ensures mpNext == null && mpPrev == null && mpCount == 0 && !multipath && !multipathChg
    {
      this.attr, this.peer, this.ibgp := attr, peer, ibgp;
      mpNext, mpPrev, mpCount, multipath, multipathChg := null, null, 0, false, false;
    }
  }

  /** bgp_info_nexthop_cmp. */
  function NexthopCmp(a: Info, b: Info): int {
    var c := AddrCmp(a.attr.nexthop, b.attr.nexthop);
    if c == 0 && a.attr.extra.Some? && b.attr.extra.Some?
       && a.attr.extra.value.mpNexthopLen == b.attr.extra.value.mpNexthopLen
    then
      var x, y := a.attr.extra.value, b.attr.extra.value;
      if x.mpNexthopLen == 4 || x.mpNexthopLen == 12 then AddrCmp(x.globalIn, y.globalIn)
      else if x.mpNexthopLen == 16 then AddrCmp(x.global, y.global)
      else if x.mpNexthopLen == 32 then
        if AddrCmp(x.global, y.global) != 0 then AddrCmp(x.global, y.global) else AddrCmp(x.local, y.local)
      else 0
    else c
  }

  /** bgp_info_mpath_cmp: by next hop, then by peer address. */
  function MpathCmp(a: Info, b: Info): int {
    if NexthopCmp(a, b) != 0 then NexthopCmp(a, b) else AddrCmp(a.peer, b.peer)
  }

  // ----- linked lists as sequences -----

  function NextIn(c: seq<Info>, i: nat): Info?
    requires i < |c|
  {
    if i + 1 < |c| then c[i + 1] else null
  }

  function PrevIn(c: seq<Info>, i: nat): Info?
    requires i < |c|
  {
    if i > 0 then c[i - 1] else null
  }

  predicate Distinct(c: seq<Info>) {
    forall i, j :: 0 <= i < j < |c| ==> c[i] != c[j]
  }

  /** c is a whole doubly linked list, in order. */
  predicate Chain(c: seq<Info>)
    reads c
  {
    && Distinct(c)
    && (forall i :: 0 <= i < |c| ==> c[i].mpNext == NextIn(c, i))
    && (forall i :: 0 <= i < |c| ==> c[i].mpPrev == PrevIn(c, i))
  }

  predicate Alone(x: Info)
    reads x
  {
    x.mpNext == null && x.mpPrev == null
  }

  function Dropped(c: seq<Info>, k: nat): seq<Info>
    requires k < |c|
  {
    c[..k] + c[k + 1..]
  }

  /** c with x after position k. */
  function Linked(c: seq<Info>, k: nat, x: Info): seq<Info>
    requires k < |c|
  {
    c[..k + 1] + [x] + c[k + 1..]
  }

  lemma DroppedAt(c: seq<Info>, k: nat)
    requires k < |c|
    ensures var d := Dropped(c, k);
            |d| == |c| - 1 && forall i :: 0 <= i < |d| ==> d[i] == c[if i < k then i else i + 1]
    ensures Distinct(c) ==> Distinct(Dropped(c, k)) && c[k] !in Dropped(c, k)
  {
  }

  lemma LinkedAt(c: seq<Info>, k: nat, x: Info)
    requires k < |c|
    ensures var d := Linked(c, k, x);
            |d| == |c| + 1 && d[k + 1] == x && forall i :: 0 <= i < |c| ==> d[if i <= k then i else i + 1] == c[i]
    ensures Distinct(c) && x !in c ==> Distinct(Linked(c, k, x))
  {
  }

  /** The links of the list c once its element k is unlinked. */
  ghost predicate Bypassed(c: seq<Info>, k: nat)
    requires k < |c|
    reads c
  {
    && Distinct(c)
    && (forall i :: 0 <= i < |c| ==>
          c[i].mpNext == if i == k then null else if i + 1 == k then NextIn(c, k) else NextIn(c, i))
    && (forall i :: 0 <= i < |c| ==>
          c[i].mpPrev == if i == k then null else if i == k + 1 then PrevIn(c, k) else PrevIn(c, i))
  }

  lemma BypassedIsChain(c: seq<Info>, k: nat)
    requires k < |c| && Bypassed(c, k)
    ensures Chain(Dropped(c, k)) && Alone(c[k])
  {
    DroppedAt(c, k);
    var d := Dropped(c, k);
    forall i | 0 <= i < |d| ensures d[i].mpNext == NextIn(d, i) && d[i].mpPrev == PrevIn(d, i) {
      assert d[i] == c[if i < k then i else i + 1];
    }
  }

  /** bgp_info_mpath_dequeue, for a member of the list c (a path on no list is a
      list of its own). */
  method Dequeue(x: Info, ghost c: seq<Info>, ghost k: nat)
    requires Chain(c) && k < |c| && c[k] == x
    modifies c`mpNext, c`mpPrev, x`multipath
    ensures Chain(Dropped(c, k)) && Alone(x) && !x.multipath
  {
    assert x.mpPrev == PrevIn(c, k) && x.mpNext == NextIn(c, k);
    if x.mpPrev != null {
      x.mpPrev.mpNext := x.mpNext;
    }
    if x.mpNext != null {
      x.mpNext.mpPrev := x.mpPrev;
    }
    x.mpNext, x.mpPrev := null, null;
    x.multipath := false;
    BypassedIsChain(c, k);
  }

  /** The links of the list c and of x once x is linked in after element k. */
  ghost predicate Spliced(c: seq<Info>, k: nat, x: Info)
    requires k < |c|
    reads c, x
  {
    && Distinct(c) && x !in c && x.mpNext == NextIn(c, k) && x.mpPrev == c[k]
    && (forall i :: 0 <= i < |c| ==> c[i].mpNext == if i == k then x else NextIn(c, i))
    && (forall i :: 0 <= i < |c| ==> c[i].mpPrev == if i == k + 1 then x else PrevIn(c, i))
  }

  lemma SplicedIsChain(c: seq<Info>, k: nat, x: Info)
    requires k < |c| && Spliced(c, k, x)
    ensures Chain(Linked(c, k, x))
  {
    LinkedAt(c, k, x);
    var d := Linked(c, k, x);
    forall i | 0 <= i < |d| ensures d[i].mpNext == NextIn(d, i) && d[i].mpPrev == PrevIn(d, i) {
      assert d[i] == if i <= k then c[i] else if i == k + 1 then x else c[i - 1];
    }
  }

  /** bgp_info_mpath_enqueue, after the member prev of the list c. */
  method Enqueue(prev: Info, x: Info, ghost c: seq<Info>, ghost k: nat)
    requires Chain(c) && k < |c| && c[k] == prev && x !in c && Alone(x)
    modifies c`mpNext, c`mpPrev, x`mpNext, x`mpPrev, x`multipath
    ensures Chain(Linked(c, k, x)) && x.multipath
  {
    assert prev.mpNext == NextIn(c, k);
    x.mpNext := prev.mpNext;
    x.mpPrev := prev;
    if prev.mpNext != null {
      prev.mpNext.mpPrev := x;
    }
    prev.mpNext := x;
    x.multipath := true;
    SplicedIsChain(c, k, x);
  }

  // ----- the choice -----

  predicate Picks(best: Info, prev: Info, count: nat, maxpaths: nat, m: Info) {
    count < maxpaths && m != best && NexthopCmp(prev, m) != 0
  }

  /** What the walk is meant to compute, without any list: go through the sorted
      candidates, skip the best path and next hops equal to the last pick, stop
      at maxpaths (the best path counts as one). */
  function Greedy(best: Info, prev: Info, count: nat, maxpaths: nat, ms: seq<Info>): seq<Info>
    decreases |ms|
  {
    if ms == [] then []
    else if Picks(best, prev, count, maxpaths, ms[0])
    then [ms[0]] + Greedy(best, ms[0], count + 1, maxpaths, ms[1..])
    else Greedy(best, prev, count, maxpaths, ms[1..])
  }

  /** The choice starts at the best path, which counts as one. */
  function Choice(best: Info, maxpaths: nat, ms: seq<Info>): seq<Info> {
    Greedy(best, best, 1, maxpaths, ms)
  }

  lemma {:induction false} GreedyFull(best: Info, prev: Info, count: nat, maxpaths: nat, ms: seq<Info>)
    requires count >= maxpaths
    ensures Greedy(best, prev, count, maxpaths, ms) == []
  {
    if ms != [] {
      GreedyFull(best, prev, count, maxpaths, ms[1..]);
    }
  }

  /** x is left of ms when some elements are struck out. */
  ghost predicate Within(x: seq<Info>, ms: seq<Info>)
    decreases |ms|
  {
    || x == []
    || (ms != [] && (Within(x, ms[1..]) || (x[0] == ms[0] && Within(x[1..], ms[1..]))))
  }

  lemma {:induction false} WithinMembers(x: seq<Info>, ms: seq<Info>)
    requires Within(x, ms)
    ensures forall m :: m in x ==> m in ms
    decreases |ms|
  {
    if x != [] {
      if Within(x, ms[1..]) {
        WithinMembers(x, ms[1..]);
      } else {
        WithinMembers(x[1..], ms[1..]);
        assert x == [x[0]] + x[1..];
      }
    }
  }

  /** The choice is made from the candidates in order; no two neighbours in it share
      a next hop, the best path is not among them, and there are at most
      maxpaths - 1. */
  lemma {:induction false} GreedyIsProper(best: Info, prev: Info, count: nat, maxpaths: nat, ms: seq<Info>)
    ensures var g := Greedy(best, prev, count, maxpaths, ms);
            && best !in g && Within(g, ms)
            && (count <= maxpaths ==> count + |g| <= maxpaths)
            && (|g| > 0 ==> NexthopCmp(prev, g[0]) != 0)
            && (forall i :: 0 < i < |g| ==> NexthopCmp(g[i - 1], g[i]) != 0)
    decreases |ms|
  {
    if ms != [] {
      if Picks(best, prev, count, maxpaths, ms[0]) {
        GreedyIsProper(best, ms[0], count + 1, maxpaths, ms[1..]);
        var g := Greedy(best, ms[0], count + 1, maxpaths, ms[1..]);
        var h := [ms[0]] + g;
        assert Greedy(best, prev, count, maxpaths, ms) == h && h[1..] == g;
        forall i | 0 < i < |h| ensures NexthopCmp(h[i - 1], h[i]) != 0 {
          if i > 1 {
            assert h[i - 1] == g[i - 2] && h[i] == g[i - 1];
            assert NexthopCmp(g[i - 1 - 1], g[i - 1]) != 0;
          }
        }
      } else {
        GreedyIsProper(best, prev, count, maxpaths, ms[1..]);
      }
    }
  }

  /** Candidate i is left out with reason: of those chosen k come from before it and
      the rest from behind it, and after the k either the limit is reached or the
      last of them has its next hop. */
  ghost predicate LeftOut(prev: Info, count: nat, maxpaths: nat, ms: seq<Info>, g: seq<Info>, i: nat, k: nat)
    requires i < |ms|
  {
    && k <= |g| && Within(g[..k], ms[..i]) && Within(g[k..], ms[i + 1..])
    && (count + k >= maxpaths || NexthopCmp(if k == 0 then prev else g[k - 1], ms[i]) == 0)
  }

  /** Every candidate that is not chosen is left out with reason. */
  ghost predicate NoneMissed(best: Info, prev: Info, count: nat, maxpaths: nat, ms: seq<Info>, g: seq<Info>) {
    forall i :: 0 <= i < |ms| && ms[i] != best && ms[i] !in g ==>
                  exists k :: LeftOut(prev, count, maxpaths, ms, g, i, k)
  }

  lemma LeftOutLater(prev: Info, count: nat, maxpaths: nat, ms: seq<Info>, g: seq<Info>, i: nat, k: nat)
    requires 0 < i < |ms| && LeftOut(prev, count, maxpaths, ms[1..], g, i - 1, k)
    ensures LeftOut(prev, count, maxpaths, ms, g, i, k)
  {
    assert ms[..i][1..] == ms[1..][..i - 1] && ms[1..][i..] == ms[i + 1..];
  }

  lemma LeftOutBehind(prev: Info, count: nat, maxpaths: nat, ms: seq<Info>, g: seq<Info>, i: nat, k: nat)
    requires 0 < i < |ms| && LeftOut(ms[0], count + 1, maxpaths, ms[1..], g, i - 1, k)
    ensures LeftOut(prev, count, maxpaths, ms, [ms[0]] + g, i, k + 1)
  {
    var h := [ms[0]] + g;
    assert ms[..i][0] == ms[0] && ms[..i][1..] == ms[1..][..i - 1] && ms[1..][i..] == ms[i + 1..];
    assert h[..k + 1][1..] == g[..k] && h[k + 1..] == g[k..];
    assert k > 0 ==> h[k] == g[k - 1];
  }

  lemma {:induction false} GreedyMisses(best: Info, prev: Info, count: nat, maxpaths: nat, ms: seq<Info>, i: nat)
    returns (k: nat)
    requires i < |ms| && ms[i] != best && ms[i] !in Greedy(best, prev, count, maxpaths, ms)
    ensures LeftOut(prev, count, maxpaths, ms, Greedy(best, prev, count, maxpaths, ms), i, k)
    decreases |ms|
  {
    var g := Greedy(best, prev, count, maxpaths, ms);
    if i == 0 {
      k := 0;
      GreedyIsProper(best, prev, count, maxpaths, ms[1..]);
      assert g[..0] == [] && g[0..] == g && ms[0 + 1..] == ms[1..];
    } else if Picks(best, prev, count, maxpaths, ms[0]) {
      k := GreedyMisses(best, ms[0], count + 1, maxpaths, ms[1..], i - 1);
      LeftOutBehind(prev, count, maxpaths, ms, Greedy(best, ms[0], count + 1, maxpaths, ms[1..]), i, k);
      k := k + 1;
    } else {
      k := GreedyMisses(best, prev, count, maxpaths, ms[1..], i - 1);
      LeftOutLater(prev, count, maxpaths, ms, g, i, k);
    }
  }

  /** The choice takes every path it can. */
  lemma GreedyMissesNone(best: Info, prev: Info, count: nat, maxpaths: nat, ms: seq<Info>)
    ensures NoneMissed(best, prev, count, maxpaths, ms, Greedy(best, prev, count, maxpaths, ms))
  {
    var g := Greedy(best, prev, count, maxpaths, ms);
    forall i | 0 <= i < |ms| && ms[i] != best && ms[i] !in g
      ensures exists k :: LeftOut(prev, count, maxpaths, ms, g, i, k)
    {
      var k := GreedyMisses(best, prev, count, maxpaths, ms, i);
    }
  }

  /** Candidates come sorted: nothing later compares below something earlier. */
  predicate Sorted(ms: seq<Info>) {
    forall i, j :: 0 <= i < j < |ms| ==> MpathCmp(ms[j], ms[i]) >= 0
  }

  // ----- the state of the walk -----

  /** Two lists, n and o; every other path of the universe is on no list. */
  ghost predicate Lists(paths: set<Info>, n: seq<Info>, o: seq<Info>)
    reads paths
  {
    && (forall x :: x in n ==> x in paths)
    && (forall x :: x in o ==> x in paths)
    && (forall x :: x in n ==> x !in o)
    && Chain(n) && Chain(o)
    && (forall x :: x in paths && x !in n && x !in o ==> Alone(x))
  }

  /** Exactly the members of s carry the multipath flag. */
  ghost predicate Flagged(paths: set<Info>, s: seq<Info>)
    reads paths
  {
    forall x :: x in paths ==> (x.multipath <==> x in s)
  }

  /** The state of the walk: the new list n, its best path first, and what is
      left of the old list.  Flags say who is on a list; the best path is not. */
  ghost predicate Walk(paths: set<Info>, n: seq<Info>, o: seq<Info>)
    reads paths
  {
    |n| > 0 && Lists(paths, n, o) && Flagged(paths, n[1..] + o)
  }

  twostate predicate SameLinks(x: Info)
    reads x
  {
    x.mpNext == old(x.mpNext) && x.mpPrev == old(x.mpPrev)
  }

  twostate lemma ChainFrame(c: seq<Info>)
    requires old(Chain(c)) && forall i :: 0 <= i < |c| ==> SameLinks(c[i])
    ensures Chain(c)
  {
  }

  /** A move of the path x in a walk, from position k of the old list if it is there. */
  datatype Move = Move(paths: set<Info>, n: seq<Info>, o: seq<Info>, x: Info, k: nat)

  /** Only members of c were relinked. */
  twostate predicate Touched(w: Move, c: seq<Info>)
    reads w.paths
  {
    forall y :: y in w.paths && y !in c ==> SameLinks(y)
  }

  lemma DroppedMembers(o: seq<Info>, k: nat)
    requires k < |o| && Distinct(o)
    ensures forall y :: y in Dropped(o, k) <==> y in o && y != o[k]
  {
  }

  twostate lemma ListsAfterDrop(w: Move)
    requires old(Lists(w.paths, w.n, w.o)) && w.k < |w.o| && w.o[w.k] == w.x && Touched(w, w.o)
    requires Chain(Dropped(w.o, w.k)) && Alone(w.x)
    ensures Lists(w.paths, w.n, Dropped(w.o, w.k))
  {
    DroppedMembers(w.o, w.k);
    forall i | 0 <= i < |w.n| ensures SameLinks(w.n[i]) {
      assert w.n[i] in w.n;
    }
    ChainFrame(w.n);
  }

  twostate lemma ListsAfterLoner(w: Move)
    requires old(Lists(w.paths, w.n, w.o)) && w.x in w.paths && w.x !in w.n && w.x !in w.o && Touched(w, [w.x])
    requires Alone(w.x)
    ensures Lists(w.paths, w.n, w.o)
  {
    forall i | 0 <= i < |w.n| ensures SameLinks(w.n[i]) {
      assert w.n[i] in w.n;
    }
    ChainFrame(w.n);
    forall i | 0 <= i < |w.o| ensures SameLinks(w.o[i]) {
      assert w.o[i] in w.o;
    }
    ChainFrame(w.o);
  }

  twostate lemma ListsAfterAppend(w: Move)
    requires old(Lists(w.paths, w.n, w.o)) && w.x in w.paths && w.x !in w.n && w.x !in w.o && Touched(w, w.n + [w.x])
    requires Chain(w.n + [w.x])
    ensures Lists(w.paths, w.n + [w.x], w.o)
  {
    forall i | 0 <= i < |w.o| ensures SameLinks(w.o[i]) {
      assert w.o[i] in w.o;
    }
    ChainFrame(w.o);
  }

  /** o without x. */
  predicate TakenFrom(o: seq<Info>, x: Info, rest: seq<Info>) {
    if x in o then exists k :: 0 <= k < |o| && o[k] == x && rest == Dropped(o, k) else rest == o
  }

  lemma TakenMembers(o: seq<Info>, x: Info, rest: seq<Info>)
    requires Distinct(o) && TakenFrom(o, x, rest)
    ensures forall y :: y in rest <==> y in o && y != x
    ensures Distinct(rest) && |rest| == if x in o then |o| - 1 else |o|
  {
  }

  /** Take a path off the old list, wherever it is there. */
  method Detach(ghost paths: set<Info>, ghost n: seq<Info>, x: Info, ghost o: seq<Info>) returns (ghost rest: seq<Info>)
    requires Lists(paths, n, o) && x in paths && x !in n
    modifies paths`mpNext, paths`mpPrev, x`multipath
    ensures Lists(paths, n, rest) && TakenFrom(o, x, rest) && Alone(x) && !x.multipath
  {
    ghost var c, k := [x], 0;
    if x in o {
      c := o;
      k :| 0 <= k < |o| && o[k] == x;
    }
    Dequeue(x, c, k);
    if x in o {
      ListsAfterDrop(Move(paths, n, o, x, k));
      rest := Dropped(o, k);
    } else {
      ListsAfterLoner(Move(paths, n, o, x, k));
      rest := o;
    }
  }

  lemma ListedAfterAppend(n: seq<Info>, x: Info, o: seq<Info>)
    requires |n| > 0
    ensures forall y :: y in (n + [x])[1..] + o <==> y == x || y in n[1..] + o
  {
    assert (n + [x])[1..] == n[1..] + [x];
  }

  /** Put a path that is on no list at the end of the new one. */
  method Append(ghost paths: set<Info>, ghost n: seq<Info>, prev: Info, x: Info, ghost o: seq<Info>)
    requires Walk(paths, n, o) && n[|n| - 1] == prev && x in paths && x !in n && x !in o
    modifies paths`mpNext, paths`mpPrev, x`multipath
    ensures Walk(paths, n + [x], o)
  {
    assert Linked(n, |n| - 1, x) == n + [x];
    Enqueue(prev, x, n, |n| - 1);
    ListsAfterAppend(Move(paths, n, o, x, 0));
    ListedAfterAppend(n, x, o);
  }

  /** Take a path off the old list during the walk. */
  method Unlist(ghost paths: set<Info>, ghost n: seq<Info>, x: Info, ghost o: seq<Info>) returns (ghost rest: seq<Info>)
    requires Walk(paths, n, o) && x in paths && x !in n
    modifies paths`mpNext, paths`mpPrev, x`multipath
    ensures Walk(paths, n, rest) && TakenFrom(o, x, rest) && x !in rest
  {
    rest := Detach(paths, n, x, o);
    TakenMembers(o, x, rest);
    assert forall y :: y in n[1..] ==> y in n;
  }

  // ----- what the walk has achieved, apart from the links -----

  /** was: the old list without the new best path; n, o: the two lists; rest: the
      candidates not yet seen. */
  datatype Pace = Pace(best: Info, maxpaths: nat, sorted: bool, chosen: seq<Info>, was: seq<Info>,
                       n: seq<Info>, o: seq<Info>, rest: seq<Info>, changed: bool)

  /** Once a list is spoiled it can no longer end up equal to the old one. */
  predicate Spoiled(picked: seq<Info>, rest: seq<Info>, was: seq<Info>) {
    !(picked <= was) || exists x :: x in was && x !in picked && x !in rest
  }

  predicate OnTrack(p: Pace) {
    && |p.n| > 0 && p.n[0] == p.best
    && p.best !in p.o
    && Distinct(p.o) && Distinct(p.rest)
    && (forall x :: x in p.n ==> x !in p.o)
    && (forall x :: x in p.rest ==> x !in p.n[1..])
    && (forall x :: x in p.o ==> x in p.was)
    && p.chosen == p.n[1..] + Greedy(p.best, p.n[|p.n| - 1], |p.n|, p.maxpaths, p.rest)
    && (!p.changed ==> p.n[1..] + p.o == p.was)
    && (p.sorted ==> Sorted(p.rest))
    && (p.sorted && p.changed ==> Spoiled(p.n[1..], p.rest, p.was))
  }

  function Last(p: Pace): Info
    requires |p.n| > 0
  {
    p.n[|p.n| - 1]
  }

  lemma SortedTail(ms: seq<Info>)
    requires |ms| > 0
    ensures Sorted(ms) ==> Sorted(ms[1..])
    ensures Distinct(ms) ==> Distinct(ms[1..]) && ms[0] !in ms[1..]
  {
  }

  lemma StillSpoiled(picked: seq<Info>, rest: seq<Info>, was: seq<Info>)
    requires Spoiled(picked, rest, was) && |rest| > 0
    ensures Spoiled(picked, rest[1..], was) && Spoiled(picked + [rest[0]], rest[1..], was)
  {
  }

  /** A candidate that is not taken. */
  lemma SkipStep(p: Pace)
    requires OnTrack(p) && |p.rest| > 0 && !Picks(p.best, Last(p), |p.n|, p.maxpaths, p.rest[0])
    ensures OnTrack(p.(rest := p.rest[1..]))
  {
  }

  lemma ExtendChoice(p: Pace)
    requires OnTrack(p) && |p.rest| > 0 && Picks(p.best, Last(p), |p.n|, p.maxpaths, p.rest[0])
    ensures var n := p.n + [p.rest[0]];
            && n[1..] == p.n[1..] + [p.rest[0]]
            && p.chosen == n[1..] + Greedy(p.best, n[|n| - 1], |n|, p.maxpaths, p.rest[1..])
            && (forall x :: x in p.rest[1..] ==> x !in n[1..])
  {
    var m, n := p.rest[0], p.n + [p.rest[0]];
    SortedTail(p.rest);
    assert n[1..] == p.n[1..] + [m];
    var g := Greedy(p.best, m, |p.n| + 1, p.maxpaths, p.rest[1..]);
    assert p.n[1..] + ([m] + g) == (p.n[1..] + [m]) + g;
  }

  /** The head of the old list goes to the end of the new one. */
  lemma MoveHead(n: seq<Info>, o: seq<Info>)
    requires |n| > 0 && |o| > 0 && Distinct(o) && forall x :: x in n ==> x !in o
    ensures Distinct(o[1..]) && forall x :: x in n + [o[0]] ==> x !in o[1..]
    ensures (n + [o[0]])[1..] + o[1..] == n[1..] + o
  {
    SortedTail(o);
    assert (n + [o[0]])[1..] == n[1..] + [o[0]];
    Associates(n[1..], [o[0]], o[1..]);
    assert [o[0]] + o[1..] == o;
  }

  /** A path on both lists that stays. */
  lemma KeepStep(p: Pace)
    requires OnTrack(p) && |p.rest| > 0 && |p.o| > 0 && p.o[0] == p.rest[0]
    requires Picks(p.best, Last(p), |p.n|, p.maxpaths, p.rest[0])
    ensures OnTrack(p.(n := p.n + [p.rest[0]], o := p.o[1..], rest := p.rest[1..]))
  {
    ExtendChoice(p);
    SortedTail(p.rest);
    MoveHead(p.n, p.o);
    if p.sorted && p.changed {
      StillSpoiled(p.n[1..], p.rest, p.was);
    }
  }

  /** A path on both lists that has to go. */
  lemma RejectStep(p: Pace)
    requires OnTrack(p) && |p.rest| > 0 && |p.o| > 0 && p.o[0] == p.rest[0]
    requires !Picks(p.best, Last(p), |p.n|, p.maxpaths, p.rest[0])
    ensures OnTrack(p.(o := p.o[1..], rest := p.rest[1..], changed := true))
  {
    SortedTail(p.rest);
    SortedTail(p.o);
    var x := p.o[0];
    assert x in p.was && x !in p.n[1..] && x !in p.rest[1..];
  }

  /** A path on the old list only. */
  lemma PurgeStep(p: Pace)
    requires OnTrack(p) && |p.o| > 0
    requires |p.rest| > 0 ==> p.rest[0] != p.o[0] && MpathCmp(p.o[0], p.rest[0]) < 0
    ensures OnTrack(p.(o := p.o[1..], changed := true))
  {
    SortedTail(p.o);
    var x := p.o[0];
    assert x in p.o && forall y :: y in p.n[1..] ==> y in p.n;
    assert x in p.was && x !in p.n[1..];
    assert p.sorted ==> x !in p.rest;
  }

  /** A new path, possibly from further down the old list. */
  lemma AdoptStep(p: Pace, rest: seq<Info>)
    requires OnTrack(p) && |p.rest| > 0 && (|p.o| > 0 ==> p.o[0] != p.rest[0])
    requires Picks(p.best, Last(p), |p.n|, p.maxpaths, p.rest[0]) && TakenFrom(p.o, p.rest[0], rest)
    ensures OnTrack(p.(n := p.n + [p.rest[0]], o := rest, rest := p.rest[1..], changed := true))
    ensures Head(rest) == Head(p.o) && |rest| <= |p.o|
  {
    var m := p.rest[0];
    ExtendChoice(p);
    SortedTail(p.rest);
    TakenMembers(p.o, m, rest);
    if p.sorted {
      if p.changed {
        StillSpoiled(p.n[1..], p.rest, p.was);
      } else {
        var picked := p.n[1..] + [m];
        assert p.n[1..] + p.o == p.was && picked[|p.n| - 1] == m;
        assert |p.o| > 0 ==> p.was[|p.n| - 1] == p.o[0];
        assert !(picked <= p.was);
      }
    }
  }

  /** At the end nothing of either list is left. */
  lemma WalkDone(p: Pace)
    requires OnTrack(p) && p.o == [] && (p.rest == [] || |p.n| >= p.maxpaths)
    ensures p.n[1..] == p.chosen
    ensures !p.changed ==> p.chosen == p.was
    ensures p.sorted && p.changed ==> p.chosen != p.was
  {
    if p.rest != [] {
      GreedyFull(p.best, Last(p), |p.n|, p.maxpaths, p.rest);
    }
    assert p.n[1..] + [] == p.n[1..];
  }

  // ----- bgp_info_mpath_update -----

  /** Before the call: the old best path leads the old list, which its count and
      the flags describe; nothing else is linked. */
  ghost predicate OldState(paths: set<Info>, oldBest: Info?, was: seq<Info>)
    reads paths
  {
    && Flagged(paths, was)
    && if oldBest == null then was == [] && Lists(paths, [], [])
       else oldBest in paths && Lists(paths, [], [oldBest] + was) && oldBest.mpCount == |was|
  }

  function Head(o: seq<Info>): Info? {
    if |o| > 0 then o[0] else null
  }

  lemma DroppedBehind(head: Info, was: seq<Info>, k: nat)
    requires k < |was|
    ensures Dropped([head] + was, k + 1) == [head] + Dropped(was, k)
  {
    assert ([head] + was)[..k + 1] == [head] + was[..k];
    assert ([head] + was)[k + 2..] == was[k + 1..];
    Associates([head], was[..k], was[k + 1..]);
  }

  /** Taking something other than its head off a list takes it off the tail. */
  lemma BehindHead(head: Info, was: seq<Info>, x: Info, l: seq<Info>) returns (o: seq<Info>)
    requires x != head && TakenFrom([head] + was, x, l)
    ensures l == [head] + o && TakenFrom(was, x, o)
  {
    if x in was {
      var k :| 0 <= k < |[head] + was| && ([head] + was)[k] == x && l == Dropped([head] + was, k);
      assert k > 0;
      o := Dropped(was, k - 1);
      assert was[k - 1] == x;
      DroppedBehind(head, was, k - 1);
    } else {
      o := was;
    }
  }

  lemma HeadTaken(head: Info, o: seq<Info>, l: seq<Info>)
    requires Distinct([head] + o) && TakenFrom([head] + o, head, l)
    ensures l == o && head !in o
  {
    var c := [head] + o;
    assert c[0] == head;
    var k :| 0 <= k < |c| && c[k] == head && l == Dropped(c, k);
    assert k == 0;
    assert Dropped(c, 0) == o;
    assert forall i :: 0 <= i < |o| ==> c[i + 1] == o[i];
  }

  /** Take a new best path off the list behind the old one. */
  method TakeOther(newBest: Info, oldBest: Info, ghost paths: set<Info>, ghost was: seq<Info>)
    returns (ghost o: seq<Info>)
    requires OldState(paths, oldBest, was) && Distinct(was) && newBest in paths && newBest != oldBest
    modifies paths`mpNext, paths`mpPrev, newBest`multipath
    ensures Flagged(paths, o) && TakenFrom(was, newBest, o) && newBest !in o
    ensures Lists(paths, [], [oldBest] + o) && Alone(newBest)
  {
    ghost var l := Detach(paths, [], newBest, [oldBest] + was);
    o := BehindHead(oldBest, was, newBest, l);
    TakenMembers(was, newBest, o);
  }

  /** Take the new best path off the old list. */
  method TakeBest(newBest: Info, oldBest: Info?, ghost paths: set<Info>, ghost was: seq<Info>)
    returns (ghost o: seq<Info>)
    requires OldState(paths, oldBest, was) && Distinct(was) && newBest in paths
    modifies paths`mpNext, paths`mpPrev, newBest`multipath
    ensures Flagged(paths, o) && TakenFrom(was, newBest, o) && newBest !in o
    ensures Lists(paths, [], if oldBest == null then [] else [oldBest] + o)
    ensures newBest != oldBest ==> Alone(newBest)
  {
    o := was;
    if oldBest == null {
      ghost var l := Detach(paths, [], newBest, []);
    } else if newBest != oldBest {
      o := TakeOther(newBest, oldBest, paths, was);
    } else {
      assert ([oldBest] + was)[0] == oldBest;
      assert forall i :: 0 <= i < |was| ==> was[i] == ([oldBest] + was)[i + 1];
    }
  }

  lemma OldDistinct(paths: set<Info>, oldBest: Info?, was: seq<Info>)
    requires OldState(paths, oldBest, was)
    ensures Distinct(was)
  {
    if oldBest != null {
      var l := [oldBest] + was;
      assert forall i :: 0 <= i < |was| ==> was[i] == l[i + 1];
    }
  }

  /** The old best path hands over the list behind it. */
  method DropOldHead(oldBest: Info, ghost paths: set<Info>, ghost o: seq<Info>) returns (cur: Info?, count: nat)
    requires oldBest in paths && Lists(paths, [], [oldBest] + o) && Flagged(paths, o)
    modifies paths`mpNext, paths`mpPrev, oldBest`multipath, oldBest`mpCount
    ensures Lists(paths, [], o) && Flagged(paths, o)
    ensures cur == Head(o) && count == old(oldBest.mpCount) && oldBest.mpCount == 0
  {
    ghost var l := [oldBest] + o;
    assert l[0].mpNext == NextIn(l, 0);
    cur, count := oldBest.mpNext, oldBest.mpCount;
    oldBest.mpCount := 0;
    ghost var rest := Detach(paths, [], oldBest, l);
    HeadTaken(oldBest, o, rest);
  }

  lemma PromoteLoner(paths: set<Info>, x: Info, o: seq<Info>)
    requires Lists(paths, [], o) && Flagged(paths, o) && x in paths && x !in o
    ensures Walk(paths, [x], o)
  {
  }

  /** The head of the walk: the new best path leaves the old list, and the old
      best path its head. */
  method Begin(newBest: Info, oldBest: Info?, ghost paths: set<Info>, ghost was: seq<Info>)
    returns (cur: Info?, oldCount: nat, ghost o: seq<Info>)
    requires OldState(paths, oldBest, was) && newBest in paths
    modifies paths`mpNext, paths`mpPrev, paths`multipath, paths`mpCount
    ensures Walk(paths, [newBest], o) && newBest !in o && TakenFrom(was, newBest, o) && Distinct(was)
    ensures cur == Head(o) && oldCount == |was|
    ensures forall x :: x in paths ==> x.mpCount == if x == oldBest then 0 else old(x.mpCount)
  {
    OldDistinct(paths, oldBest, was);
    o := TakeBest(newBest, oldBest, paths, was);
    cur, oldCount := null, 0;
    if oldBest != null {
      cur, oldCount := DropOldHead(oldBest, paths, o);
    }
    PromoteLoner(paths, newBest, o);
  }

  /** Everything the loop of bgp_info_mpath_update keeps. */
  ghost predicate Walking(paths: set<Info>, p: Pace)
    reads paths
  {
    && OnTrack(p) && Walk(paths, p.n, p.o)
    && (forall x :: x in p.rest ==> x in paths)
  }

  lemma TakenHead(o: seq<Info>, rest: seq<Info>)
    requires |o| > 0 && Distinct(o) && TakenFrom(o, o[0], rest)
    ensures rest == o[1..]
  {
  }

  /** The variables of the loop. */
  datatype Vars = Vars(cur: Info?, rest: seq<Info>, prev: Info, count: nat, changed: bool)

  ghost predicate Synced(paths: set<Info>, p: Pace, v: Vars)
    reads paths
  {
    && Walking(paths, p)
    && v == Vars(Head(p.o), p.rest, Last(p), |p.n|, p.changed)
  }

  /** q pursues the same end as p, and is nearer to it. */
  ghost predicate Nearer(p: Pace, q: Pace) {
    && q == p.(n := q.n, o := q.o, rest := q.rest, changed := q.changed)
    && |q.rest| + |q.o| < |p.rest| + |p.o|
  }

  /** Take the head off the old list; what follows it becomes the head. */
  method PassHead(ghost paths: set<Info>, ghost n: seq<Info>, x: Info, ghost o: seq<Info>) returns (next: Info?)
    requires Walk(paths, n, o) && |o| > 0 && o[0] == x
    modifies paths`mpNext, paths`mpPrev, paths`multipath
    ensures Walk(paths, n, o[1..]) && next == Head(o[1..]) && x !in o[1..]
  {
    assert x in o && x !in n;
    assert o[0].mpNext == NextIn(o, 0);
    next := x.mpNext;
    ghost var rest := Unlist(paths, n, x, o);
    TakenHead(o, rest);
  }

  /** Move the head of the old list to the end of the new one. */
  method KeepHead(ghost paths: set<Info>, ghost n: seq<Info>, prev: Info, x: Info, ghost o: seq<Info>)
    returns (next: Info?)
    requires Walk(paths, n, o) && n[|n| - 1] == prev && |o| > 0 && o[0] == x
    modifies paths`mpNext, paths`mpPrev, paths`multipath
    ensures Walk(paths, n + [x], o[1..]) && next == Head(o[1..])
  {
    assert x in o && x !in n;
    next := PassHead(paths, n, x, o);
    Append(paths, n, prev, x, o[1..]);
  }

  /** Take a path off the old list, if it is there, and add it to the new one. */
  method Adopt(ghost paths: set<Info>, ghost n: seq<Info>, prev: Info, x: Info, ghost o: seq<Info>)
    returns (ghost rest: seq<Info>)
    requires Walk(paths, n, o) && n[|n| - 1] == prev && x in paths && x !in n
    modifies paths`mpNext, paths`mpPrev, paths`multipath
    ensures Walk(paths, n + [x], rest) && TakenFrom(o, x, rest)
  {
    rest := Unlist(paths, n, x, o);
    Append(paths, n, prev, x, rest);
  }

  /** A path met on both lists. */
  method MeetBoth(maxpaths: nat, v: Vars, ghost paths: set<Info>, ghost p: Pace) returns (v': Vars, ghost q: Pace)
    requires Synced(paths, p, v) && p.maxpaths == maxpaths
    requires |v.rest| > 0 && v.cur != null && v.rest[0] == v.cur
    modifies paths`mpNext, paths`mpPrev, paths`multipath
    ensures Synced(paths, q, v') && Nearer(p, q)
  {
    if v.count < maxpaths && NexthopCmp(v.prev, v.cur) != 0 {
      v', q := KeepBoth(v, paths, p);
    } else {
      v', q := DropBoth(v, paths, p);
    }
  }

  method KeepBoth(v: Vars, ghost paths: set<Info>, ghost p: Pace) returns (v': Vars, ghost q: Pace)
    requires Synced(paths, p, v) && |v.rest| > 0 && v.cur != null && v.rest[0] == v.cur
    requires Picks(p.best, Last(p), |p.n|, p.maxpaths, p.rest[0])
    modifies paths`mpNext, paths`mpPrev, paths`multipath
    ensures Synced(paths, q, v') && Nearer(p, q)
  {
    var x := v.cur;
    KeepStep(p);
    q := p.(n := p.n + [x], o := p.o[1..], rest := p.rest[1..]);
    assert OnTrack(q) && Last(q) == x;
    var next := KeepHead(paths, p.n, v.prev, x, p.o);
    v' := Vars(next, v.rest[1..], x, v.count + 1, v.changed);
  }

  method DropBoth(v: Vars, ghost paths: set<Info>, ghost p: Pace) returns (v': Vars, ghost q: Pace)
    requires Synced(paths, p, v) && |v.rest| > 0 && v.cur != null && v.rest[0] == v.cur
    requires !Picks(p.best, Last(p), |p.n|, p.maxpaths, p.rest[0])
    modifies paths`mpNext, paths`mpPrev, paths`multipath
    ensures Synced(paths, q, v') && Nearer(p, q)
  {
    RejectStep(p);
    var next := PassHead(paths, p.n, v.cur, p.o);
    q := p.(o := p.o[1..], rest := p.rest[1..], changed := true);
    v' := Vars(next, v.rest[1..], v.prev, v.count, true);
  }

  /** A path on the old list only. */
  method MeetOld(v: Vars, ghost paths: set<Info>, ghost p: Pace) returns (v': Vars, ghost q: Pace)
    requires Synced(paths, p, v) && v.cur != null
    requires |v.rest| > 0 ==> v.rest[0] != v.cur && MpathCmp(v.cur, v.rest[0]) < 0
    modifies paths`mpNext, paths`mpPrev, paths`multipath
    ensures Synced(paths, q, v') && Nearer(p, q)
  {
    PurgeStep(p);
    var next := PassHead(paths, p.n, v.cur, p.o);
    q := p.(o := p.o[1..], changed := true);
    v' := v.(cur := next, changed := true);
  }

  /** A candidate that is taken, wherever it was before. */
  method TakeNew(v: Vars, ghost paths: set<Info>, ghost p: Pace) returns (v': Vars, ghost q: Pace)
    requires Synced(paths, p, v) && |v.rest| > 0 && v.rest[0] != v.cur
    requires v.count < p.maxpaths && v.rest[0] != p.best && NexthopCmp(v.prev, v.rest[0]) != 0
    modifies paths`mpNext, paths`mpPrev, paths`multipath
    ensures Synced(paths, q, v') && Nearer(p, q)
  {
    var x := v.rest[0];
    assert x in p.rest && x in paths && x !in p.n;
    ghost var rest := Adopt(paths, p.n, v.prev, x, p.o);
    AdoptStep(p, rest);
    q := p.(n := p.n + [x], o := rest, rest := p.rest[1..], changed := true);
    v' := Vars(v.cur, v.rest[1..], x, v.count + 1, true);
  }

  /** A candidate that is not the head of the old list. */
  method MeetNew(newBest: Info, maxpaths: nat, v: Vars, ghost paths: set<Info>, ghost p: Pace)
    returns (v': Vars, ghost q: Pace)
    requires Synced(paths, p, v) && p.best == newBest && p.maxpaths == maxpaths
    requires |v.rest| > 0 && v.rest[0] != v.cur
    modifies paths`mpNext, paths`mpPrev, paths`multipath
    ensures Synced(paths, q, v') && Nearer(p, q)
  {
    var x := v.rest[0];
    if v.count < maxpaths && x != newBest && NexthopCmp(v.prev, x) != 0 {
      v', q := TakeNew(v, paths, p);
    } else {
      SkipStep(p);
      q := p.(rest := p.rest[1..]);
      v' := v.(rest := v.rest[1..]);
    }
  }

  /** One iteration of the walk. */
  method Round(newBest: Info, maxpaths: nat, v: Vars, ghost paths: set<Info>, ghost p: Pace)
    returns (v': Vars, ghost q: Pace)
    requires Synced(paths, p, v) && p.best == newBest && p.maxpaths == maxpaths
    requires |v.rest| > 0 || v.cur != null
    modifies paths`mpNext, paths`mpPrev, paths`multipath
    ensures Synced(paths, q, v') && Nearer(p, q)
  {
    if |v.rest| > 0 && v.rest[0] == v.cur {
      v', q := MeetBoth(maxpaths, v, paths, p);
    } else if v.cur != null && (|v.rest| == 0 || MpathCmp(v.cur, v.rest[0]) < 0) {
      v', q := MeetOld(v, paths, p);
    } else {
      v', q := MeetNew(newBest, maxpaths, v, paths, p);
    }
  }

  /** The loop: an ordered walk through both lists in parallel. */
  method WalkLoop(newBest: Info, start: Vars, maxpaths: nat, ghost paths: set<Info>, ghost from: Pace)
    returns (v: Vars, ghost p: Pace)
    requires Synced(paths, from, start) && from.best == newBest && from.maxpaths == maxpaths
    modifies paths`mpNext, paths`mpPrev, paths`multipath
    ensures Synced(paths, p, v) && p == from.(n := p.n, o := p.o, rest := p.rest, changed := p.changed)
    ensures p.o == [] && (p.rest == [] || |p.n| >= maxpaths)
  {
    v, p := start, from;
    while |v.rest| > 0 || v.cur != null
      invariant Synced(paths, p, v) && p == from.(n := p.n, o := p.o, rest := p.rest, changed := p.changed)
      decreases |p.rest| + |p.o|
    {
      if v.cur == null && v.count >= maxpaths {
        break;
      }
      v, p := Round(newBest, maxpaths, v, paths, p);
    }
  }

  method WalkLists(newBest: Info, cur: Info?, mpList: seq<Info>, maxpaths: nat,
                   ghost paths: set<Info>, ghost was: seq<Info>)
    returns (count: nat, changed: bool)
    requires Walk(paths, [newBest], was) && newBest !in was && cur == Head(was)
    requires Distinct(mpList) && forall x :: x in mpList ==> x in paths
    modifies paths`mpNext, paths`mpPrev, paths`multipath
    ensures Walk(paths, [newBest] + Choice(newBest, maxpaths, mpList), [])
    ensures count == 1 + |Choice(newBest, maxpaths, mpList)|
    ensures !changed ==> Choice(newBest, maxpaths, mpList) == was
    ensures Sorted(mpList) && changed ==> Choice(newBest, maxpaths, mpList) != was
  {
    ghost var start := Pace(newBest, maxpaths, Sorted(mpList), Choice(newBest, maxpaths, mpList), was, [newBest],
                            was, mpList, false);
    WalkStarts(start);
    var v;
    ghost var p;
    v, p := WalkLoop(newBest, Vars(cur, mpList, newBest, 1, false), maxpaths, paths, start);
    WalkDone(p);
    assert p.n == [newBest] + p.n[1..];
    return v.count, v.changed;
  }

  lemma WalkStarts(p: Pace)
    requires p.n == [p.best] && p.o == p.was && p.chosen == Choice(p.best, p.maxpaths, p.rest)
    requires !p.changed && p.sorted == Sorted(p.rest)
    requires p.best !in p.was && Distinct(p.was) && Distinct(p.rest)
    ensures OnTrack(p)
  {
  }

  /** The flag compares with the old list before the new best path left it. */
  lemma Verdict(newBest: Info, was: seq<Info>, o: seq<Info>, chosen: seq<Info>, changed: bool)
    requires Distinct(was) && TakenFrom(was, newBest, o) && newBest !in chosen
    requires !changed ==> chosen == o
    ensures chosen != was ==> changed || |chosen| != |was|
    ensures (changed ==> chosen != o) ==> (changed || |chosen| != |was| ==> chosen != was)
  {
  }

  /** bgp_info_mpath_update up to the count and the change flag. */
  method Rebuild(newBest: Info, oldBest: Info?, mpList: seq<Info>, maxpaths: nat,
                 ghost paths: set<Info>, ghost was: seq<Info>)
    returns (count: nat, changed: bool)
    requires OldState(paths, oldBest, was) && newBest in paths
    requires Distinct(mpList) && forall x :: x in mpList ==> x in paths
    modifies paths`mpNext, paths`mpPrev, paths`multipath, paths`mpCount
    ensures Walk(paths, [newBest] + Choice(newBest, maxpaths, mpList), [])
    ensures count == |Choice(newBest, maxpaths, mpList)|
    ensures !changed ==> Choice(newBest, maxpaths, mpList) == was
    ensures Sorted(mpList) && changed ==> Choice(newBest, maxpaths, mpList) != was
    ensures forall x :: x in paths ==> x.mpCount == if x == oldBest then 0 else old(x.mpCount)
  {
    var cur, oldCount;
    ghost var o;
    cur, oldCount, o := Begin(newBest, oldBest, paths, was);
    count, changed := WalkLists(newBest, cur, mpList, maxpaths, paths, o);
    GreedyIsProper(newBest, newBest, 1, maxpaths, mpList);
    Verdict(newBest, was, o, Choice(newBest, maxpaths, mpList), changed);
    count := count - 1;
    changed := changed || count != oldCount;
  }

  /** The new count, and the flag that zebra is to be told. */
  method Publish(newBest: Info, count: nat, changed: bool, ghost paths: set<Info>, ghost chosen: seq<Info>)
    requires Walk(paths, [newBest] + chosen, []) && count == |chosen|
    modifies newBest`mpCount, newBest`multipathChg
    ensures OldState(paths, newBest, chosen)
    ensures newBest.multipathChg == (old(newBest.multipathChg) || changed)
  {
    assert ([newBest] + chosen)[1..] + [] == chosen;
    newBest.mpCount := count;
    if changed {
      newBest.multipathChg := true;
    }
  }

  /** bgp_info_mpath_update, for a new best path.  Whatever the old list was, the
      new one is the greedy choice; whoever is not on it is unlinked and
      unflagged; the count is its length; and the change flag is raised exactly
      when the list differs from the old one. */
  method MpathUpdate(newBest: Info, oldBest: Info?, mpList: seq<Info>, maxIbgp: nat, maxEbgp: nat,
                     ghost paths: set<Info>, ghost was: seq<Info>)
    requires OldState(paths, oldBest, was) && newBest in paths
    requires Distinct(mpList) && forall x :: x in mpList ==> x in paths
    modifies paths`mpNext, paths`mpPrev, paths`multipath, paths`mpCount, newBest`multipathChg
    ensures var chosen := Choice(newBest, if newBest.ibgp then maxIbgp else maxEbgp, mpList);
            && OldState(paths, newBest, chosen)
            && (newBest.multipathChg <== old(newBest.multipathChg) || chosen != was)
            && (Sorted(mpList) ==> (newBest.multipathChg <==> old(newBest.multipathChg) || chosen != was))
    ensures var maxpaths := if newBest.ibgp then maxIbgp else maxEbgp;
            NoneMissed(newBest, newBest, 1, maxpaths, mpList, Choice(newBest, maxpaths, mpList))
    ensures oldBest != null && oldBest != newBest ==> oldBest.mpCount == 0
  {
    var maxpaths := if newBest.ibgp then maxIbgp else maxEbgp;
    ghost var chosen := Choice(newBest, maxpaths, mpList);
    GreedyMissesNone(newBest, newBest, 1, maxpaths, mpList);
    var count, changed := Rebuild(newBest, oldBest, mpList, maxpaths, paths, was);
    Publish(newBest, count, changed, paths, chosen);
  }

  /** Take everything off the old list. */
  method PassAll(oldBest: Info, first: Info?, ghost paths: set<Info>, ghost was: seq<Info>)
    requires Walk(paths, [oldBest], was) && first == Head(was)
    modifies paths`mpNext, paths`mpPrev, paths`multipath
    ensures Walk(paths, [oldBest], [])
  {
    var cur := first;
    ghost var o := was;
    while cur != null
      invariant Walk(paths, [oldBest], o) && cur == Head(o)
      decreases |o|
    {
      cur := PassHead(paths, [oldBest], cur, o);
      o := o[1..];
    }
  }

  /** bgp_info_mpath_update without a new best path, hence without candidates:
      every path leaves its list. */
  method MpathClear(oldBest: Info?, ghost paths: set<Info>, ghost was: seq<Info>)
    requires OldState(paths, oldBest, was)
    modifies paths`mpNext, paths`mpPrev, paths`multipath, paths`mpCount
    ensures Lists(paths, [], []) && Flagged(paths, [])
    ensures forall x :: x in paths ==> x.mpCount == if x == oldBest then 0 else old(x.mpCount)
  {
    if oldBest == null {
      return;
    }
    var cur, count;
    ghost var o;
    cur, count, o := Begin(oldBest, oldBest, paths, was);
    PassAll(oldBest, cur, paths, o);
    assert [oldBest][1..] + [] == [];
    assert [oldBest][0].mpNext == NextIn([oldBest], 0) && [oldBest][0].mpPrev == PrevIn([oldBest], 0);
  }
}
