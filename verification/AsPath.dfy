/** BGP AS paths and their normal form (bgpd/bgp_aspath.c). */
module AsPath {
  import opened SortedSet
  import opened Basics

  type Asn = u32

  datatype SegType = AsSet | AsSequence | ConfedSequence | ConfedSet

  datatype Segment = Segment(typ: SegType, asns: seq<Asn>)

  type Path = seq<Segment>

  predicate IsSetType(t: SegType) {
    t == AsSet || t == ConfedSet
  }

  // ----- sorting the members of a set -----

  /** The duplicate-weeding loop of assegment_normalise, in place. */
  method WeedDupes(a: array<Asn>) returns (length: nat)
    requires Ascending(a[..])
    modifies a
    ensures length <= a.Length && (length == 0 <==> a.Length == 0)
    ensures StrictlyAscending(a[..length]) && Members(a[..length]) == old(Members(a[..]))
  {
    ghost var was := a[..];
    var tail, i := 0, 1;
    while i < a.Length
      invariant a.Length > 0 ==> 0 <= tail < i <= a.Length
      invariant a.Length > 0 ==> a[tail] == was[i - 1] && a[i..] == was[i..]
      invariant a.Length > 0 ==> StrictlyAscending(a[..tail + 1])
      invariant a.Length > 0 ==> forall x :: x in a[..tail + 1] <==> x in was[..i]
    {
      assert a[i] == a[i..][0] == was[i];
      assert was[..i + 1] == was[..i] + [was[i]];
      if a[tail] == a[i] {
        assert a[tail] in a[..tail + 1];
        assert a[i + 1..] == a[i..][1..];
      } else {
        ghost var kept := a[..tail + 1];
        ghost var left := a[i + 1..];
        assert left == a[i..][1..];
        tail := tail + 1;
        if tail < i {
          a[tail] := a[i];
        }
        assert a[..tail + 1] == kept + [was[i]];
        assert a[i + 1..] == left;
      }
      i := i + 1;
    }
    length := if a.Length > 0 then tail + 1 else 0;
    if a.Length > 0 {
      assert was[..i] == was;
    }
  }

  method NormaliseSet(asns: seq<Asn>) returns (r: seq<Asn>)
    ensures r == Canonical(asns)
  {
    var sorted := Sort(asns);
    SortSorts(asns);
    var a := new Asn[|sorted|](i requires 0 <= i < |sorted| => sorted[i]);
    assert a[..] == sorted;
    var length := WeedDupes(a);
    r := a[..length];
    CanonicalIs(asns);
    StrictIsDetermined(r, Canonical(asns));
  }

  // ----- normal form -----

  predicate Packable(a: Segment, b: Segment) {
    a.typ == b.typ == AsSequence
  }

  function Tidied(s: Segment): Segment {
    if IsSetType(s.typ) then Segment(s.typ, Canonical(s.asns)) else s
  }

  function Joined(a: Segment, b: Segment): Segment {
    Segment(a.typ, a.asns + b.asns)
  }

  /** Add one segment after a normalised path. */
  function Push(done: Path, s: Segment): Path {
    if |done| > 0 && Packable(done[|done| - 1], s)
    then done[..|done| - 1] + [Joined(done[|done| - 1], s)]
    else done + [Tidied(s)]
  }

  function NormalFrom(done: Path, p: Path): Path
    decreases |p|
  {
    if p == [] then done else NormalFrom(Push(done, p[0]), p[1..])
  }

  function Normal(p: Path): Path {
    NormalFrom([], p)
  }

  predicate NoAdjacent(p: Path) {
    forall i :: 0 < i < |p| ==> !Packable(p[i - 1], p[i])
  }

  /** No adjacent AS_SEQUENCEs, and sets in their canonical listing. */
  predicate IsNormal(p: Path) {
    NoAdjacent(p) && forall i :: 0 <= i < |p| && IsSetType(p[i].typ) ==> StrictlyAscending(p[i].asns)
  }

  /** Segment i + 1 joined to segment i. */
  function Absorbed(segs: Path, i: nat): Path
    requires i + 1 < |segs|
  {
    segs[..i] + [Joined(segs[i], segs[i + 1])] + segs[i + 2..]
  }

  lemma PinStep(segs: Path, i: nat)
    requires i < |segs| && (i > 0 ==> !Packable(segs[i - 1], segs[i]))
    ensures var t := segs[i := Tidied(segs[i])];
            NormalFrom(segs[..i], segs[i..]) == NormalFrom(t[..i + 1], t[i + 1..])
  {
    var t := segs[i := Tidied(segs[i])];
    assert segs[i..][0] == segs[i] && segs[i..][1..] == t[i + 1..];
    assert i > 0 ==> segs[..i][|segs[..i]| - 1] == segs[i - 1];
    assert t[..i + 1] == segs[..i] + [Tidied(segs[i])];
  }

  lemma AbsorbStep(segs: Path, i: nat)
    requires i + 1 < |segs| && Packable(segs[i], segs[i + 1])
    ensures var t := Absorbed(segs, i);
            NormalFrom(segs[..i + 1], segs[i + 1..]) == NormalFrom(t[..i + 1], t[i + 1..])
  {
    var t := Absorbed(segs, i);
    assert segs[i + 1..][0] == segs[i + 1] && segs[i + 1..][1..] == t[i + 1..];
    assert segs[..i + 1] == segs[..i] + [segs[i]];
    assert t[..i + 1] == Push(segs[..i + 1], segs[i + 1]);
  }

  /** The inner loop of assegment_normalise: the pinned segment swallows the
      AS_SEQUENCEs that follow it. */
  method Absorb(start: Path, i: nat) returns (segs: Path)
    requires i < |start|
    ensures i < |segs| <= |start|
    ensures i + 1 < |segs| ==> !Packable(segs[i], segs[i + 1])
    ensures NormalFrom(segs[..i + 1], segs[i + 1..]) == NormalFrom(start[..i + 1], start[i + 1..])
  {
    segs := start;
    while i + 1 < |segs| && Packable(segs[i], segs[i + 1])
      invariant i < |segs| <= |start|
      invariant NormalFrom(segs[..i + 1], segs[i + 1..]) == NormalFrom(start[..i + 1], start[i + 1..])
      decreases |segs|
    {
      AbsorbStep(segs, i);
      segs := Absorbed(segs, i);
    }
  }

  /** Pin a segment; a set is sorted and weeded in place. */
  method Pin(start: Path, i: nat) returns (segs: Path)
    requires i < |start| && (i > 0 ==> !Packable(start[i - 1], start[i]))
    ensures |segs| == |start| && NormalFrom(segs[..i + 1], segs[i + 1..]) == NormalFrom(start[..i], start[i..])
  {
    PinStep(start, i);
    if IsSetType(start[i].typ) {
      var asns := NormaliseSet(start[i].asns);
      segs := start[i := Segment(start[i].typ, asns)];
    } else {
      segs := start;
      assert start[i := Tidied(start[i])] == start;
    }
  }

  /** assegment_normalise.  Each segment in turn is pinned, sorted and weeded if
      it is a set, and then absorbs what it can. */
  method Normalise(head: Path) returns (segs: Path)
    ensures segs == Normal(head)
  {
    segs := head;
    ghost var normal := Normal(head);
    var i := 0;
    assert segs[..0] == [] && segs[0..] == segs;
    while i < |segs|
      invariant Normalising(segs, i, normal)
      decreases |segs| - i
    {
      segs := NormaliseAt(segs, i, normal);
      i := i + 1;
    }
    assert segs[..i] == segs && segs[i..] == [];
  }

  /** The first i segments are final. */
  ghost predicate Normalising(segs: Path, i: nat, normal: Path) {
    && i <= |segs| && (0 < i < |segs| ==> !Packable(segs[i - 1], segs[i]))
    && NormalFrom(segs[..i], segs[i..]) == normal
  }

  /** One round of the outer loop. */
  method NormaliseAt(start: Path, i: nat, ghost normal: Path) returns (segs: Path)
    requires Normalising(start, i, normal) && i < |start|
    ensures Normalising(segs, i + 1, normal) && |segs| <= |start|
  {
    segs := Pin(start, i);
    segs := Absorb(segs, i);
  }

  lemma PushKeepsNormal(done: Path, s: Segment)
    requires IsNormal(done)
    ensures IsNormal(Push(done, s))
  {
    CanonicalIs(s.asns);
  }

  lemma {:induction false} NormalFromIsNormal(done: Path, p: Path)
    requires IsNormal(done)
    ensures IsNormal(NormalFrom(done, p))
    decreases |p|
  {
    if p != [] {
      PushKeepsNormal(done, p[0]);
      NormalFromIsNormal(Push(done, p[0]), p[1..]);
    }
  }

  lemma {:induction false} NormalFromFixes(done: Path, p: Path)
    requires IsNormal(done + p)
    ensures NormalFrom(done, p) == done + p
    decreases |p|
  {
    if p == [] {
      assert done + p == done;
    } else {
      var k := |done|;
      assert (done + p)[k] == p[0] && (k > 0 ==> (done + p)[k - 1] == done[k - 1]);
      CanonicalByMembers(p[0].asns, p[0].asns);
      assert Push(done, p[0]) == done + [p[0]];
      assert done + [p[0]] + p[1..] == done + p;
      NormalFromFixes(done + [p[0]], p[1..]);
    }
  }

  /** Normalisation reaches the normal form and stops there. */
  lemma NormalIsIdempotent(p: Path)
    ensures IsNormal(Normal(p)) && Normal(Normal(p)) == Normal(p)
    ensures IsNormal(p) <==> Normal(p) == p
  {
    NormalFromIsNormal([], p);
    NormalFromFixes([], Normal(p));
    if IsNormal(p) {
      NormalFromFixes([], p);
    }
  }

  // ----- what a path denotes -----

  /** A path as the protocol reads it: AS_SEQUENCEs are hops one after another, a
      set is one unordered hop, a confederation sequence stands for itself. */
  datatype Hop = As(asn: Asn) | AnyOf(members: set<Asn>) | Confed(asns: seq<Asn>) | ConfedAnyOf(members: set<Asn>)

  ghost function Hops(s: Segment): seq<Hop> {
    match s.typ
    case AsSequence => seq(|s.asns|, i requires 0 <= i < |s.asns| => As(s.asns[i]))
    case AsSet => [AnyOf(Members(s.asns))]
    case ConfedSequence => [Confed(s.asns)]
    case ConfedSet => [ConfedAnyOf(Members(s.asns))]
  }

  ghost function Denote(p: Path): seq<Hop> {
    if p == [] then [] else Hops(p[0]) + Denote(p[1..])
  }

  lemma {:induction false} DenoteConcat(a: Path, b: Path)
    ensures Denote(a + b) == Denote(a) + Denote(b)
  {
    if a == [] {
      assert a + b == b;
    } else {
      assert (a + b)[1..] == a[1..] + b;
      DenoteConcat(a[1..], b);
    }
  }

  lemma DenoteLast(init: Path, s: Segment)
    ensures Denote(init + [s]) == Denote(init) + Hops(s)
  {
    DenoteConcat(init, [s]);
    assert Denote([s]) == Hops(s) + [];
  }

  lemma DenotePush(done: Path, s: Segment)
    ensures Denote(Push(done, s)) == Denote(done) + Hops(s)
  {
    if |done| > 0 && Packable(done[|done| - 1], s) {
      var init, last := done[..|done| - 1], done[|done| - 1];
      assert done == init + [last];
      DenoteLast(init, last);
      DenoteLast(init, Joined(last, s));
      assert Hops(Joined(last, s)) == Hops(last) + Hops(s);
      Associates(Denote(init), Hops(last), Hops(s));
    } else {
      CanonicalIs(s.asns);
      DenoteLast(done, Tidied(s));
      assert Hops(Tidied(s)) == Hops(s);
    }
  }

  lemma {:induction false} NormalFromDenotes(done: Path, p: Path)
    ensures Denote(NormalFrom(done, p)) == Denote(done) + Denote(p)
    decreases |p|
  {
    if p != [] {
      DenotePush(done, p[0]);
      NormalFromDenotes(Push(done, p[0]), p[1..]);
    }
  }

  /** No AS_SEQUENCE is empty; the parser refuses empty segments. */
  predicate Solid(p: Path) {
    forall i :: 0 <= i < |p| && p[i].typ == AsSequence ==> p[i].asns != []
  }

  lemma {:induction false} NormalFromSolid(done: Path, p: Path)
    requires Solid(done) && Solid(p)
    ensures Solid(NormalFrom(done, p))
    decreases |p|
  {
    if p != [] {
      NormalFromSolid(Push(done, p[0]), p[1..]);
    }
  }

  /** The hops of a normal path begin with exactly the ASNs of its first segment. */
  lemma FirstRun(p: Path)
    requires IsNormal(p) && Solid(p) && |p| > 0
    ensures var d := Denote(p);
            && |d| > 0
            && (p[0].typ == AsSequence ==>
                  && |p[0].asns| <= |d|
                  && (forall i :: 0 <= i < |p[0].asns| ==> d[i] == As(p[0].asns[i]))
                  && (|p[0].asns| < |d| ==> !d[|p[0].asns|].As?))
            && (p[0].typ != AsSequence ==> !d[0].As? && d[0] == Hops(p[0])[0])
  {
  }

  lemma FirstSegmentDetermined(p: Path, q: Path)
    requires IsNormal(p) && Solid(p) && IsNormal(q) && Solid(q) && |p| > 0 && |q| > 0 && Denote(p) == Denote(q)
    ensures p[0] == q[0]
  {
    FirstRun(p);
    FirstRun(q);
    var d := Denote(p);
    if p[0].typ == AsSequence {
      assert d[0].As?;
      var a, b := p[0].asns, q[0].asns;
      assert |a| == |b|;
      assert forall i :: 0 <= i < |a| ==> d[i] == As(a[i]) && d[i] == As(b[i]);
    } else if IsSetType(p[0].typ) {
      StrictIsDetermined(p[0].asns, q[0].asns);
    }
  }

  lemma {:induction false} NormalIsDetermined(p: Path, q: Path)
    requires IsNormal(p) && Solid(p) && IsNormal(q) && Solid(q) && Denote(p) == Denote(q)
    ensures p == q
  {
    if p == [] {
      if q != [] {
        FirstRun(q);
      }
    } else if q == [] {
      FirstRun(p);
    } else {
      FirstSegmentDetermined(p, q);
      assert Denote(p)[|Hops(p[0])|..] == Denote(p[1..]) && Denote(q)[|Hops(q[0])|..] == Denote(q[1..]);
      NormalIsDetermined(p[1..], q[1..]);
    }
  }

  lemma NormalDenotes(p: Path)
    ensures Denote(Normal(p)) == Denote(p)
  {
    NormalFromDenotes([], p);
    assert Denote([]) + Denote(p) == Denote(p);
  }

  /** Canonical form: without empty AS_SEQUENCEs, two segment lists denote the
      same path if and only if they normalise to the same list. */
  lemma NormalFormIsCanonical(p: Path, q: Path)
    requires Solid(p) && Solid(q)
    ensures Denote(p) == Denote(q) <==> Normal(p) == Normal(q)
  {
    NormalDenotes(p);
    NormalDenotes(q);
    NormalFromIsNormal([], p);
    NormalFromIsNormal([], q);
    NormalFromSolid([], p);
    NormalFromSolid([], q);
    if Denote(p) == Denote(q) {
      NormalIsDetermined(Normal(p), Normal(q));
    }
  }

  /** An empty AS_SEQUENCE denotes nothing but survives normalisation. */
  lemma EmptySequenceIsNotCanonical()
    ensures Denote([Segment(AsSequence, [])]) == Denote([]) && Normal([Segment(AsSequence, [])]) != Normal([])
  {
  }

  /** aspath_cmp: a loop over both segment lists and their ASNs. */
  method Compare(p: Path, q: Path) returns (same: bool)
    ensures same <==> p == q
  {
    var i := 0;
    while i < |p| || i < |q|
      invariant i <= |p| && i <= |q| && p[..i] == q[..i]
      decreases |p| - i
    {
      if (i >= |p| && i < |q|) || (i < |p| && i >= |q|) {
        return false;
      }
      if p[i].typ != q[i].typ || |p[i].asns| != |q[i].asns| {
        return false;
      }
      var j := 0;
      while j < |p[i].asns|
        invariant 0 <= j <= |p[i].asns| && p[i].asns[..j] == q[i].asns[..j]
      {
        if p[i].asns[j] != q[i].asns[j] {
          return false;
        }
        j := j + 1;
      }
      assert p[i].asns == p[i].asns[..j] && q[i].asns == q[i].asns[..j];
      i := i + 1;
    }
    assert p == p[..i] && q == q[..i];
    return true;
  }
}
