/** The transition to 32-bit AS numbers: hop counts, prepending, and putting an
    AS_PATH and an AS4_PATH back together (bgpd/bgp_aspath.c, section 4.2.3 of
    RFC 4893). */
module As4 {
  import opened AsPath
  import opened Basics
  import opened SortedSet
  import opened AsPathWire

  // ----- hop counts -----

  function CountHops(p: Path): nat {
    if p == [] then 0
    else (match p[0].typ case AsSequence => |p[0].asns| case AsSet => 1 case _ => 0) + CountHops(p[1..])
  }

  function CountConfeds(p: Path): nat {
    if p == [] then 0
    else (match p[0].typ case ConfedSequence => |p[0].asns| case ConfedSet => 1 case _ => 0) + CountConfeds(p[1..])
  }

  /** aspath_count_hops. */
  method TallyHops(p: Path) returns (count: nat)
    ensures count == CountHops(p)
  {
    var seg := p;
    count := 0;
    while seg != []
      invariant count + CountHops(seg) == CountHops(p)
    {
      if seg[0].typ == AsSequence {
        count := count + |seg[0].asns|;
      } else if seg[0].typ == AsSet {
        count := count + 1;
      }
      seg := seg[1..];
    }
  }

  /** aspath_count_confeds. */
  method TallyConfeds(p: Path) returns (count: nat)
    ensures count == CountConfeds(p)
  {
    var seg := p;
    count := 0;
    while seg != []
      invariant count + CountConfeds(seg) == CountConfeds(p)
    {
      if seg[0].typ == ConfedSequence {
        count := count + |seg[0].asns|;
      } else if seg[0].typ == ConfedSet {
        count := count + 1;
      }
      seg := seg[1..];
    }
  }

  // ----- aspath_reconcile_as4 -----

  /** How many hops to take from the AS_PATH. */
  function Excess(a: Path, b: Path): nat {
    var hops := CountHops(a) + CountConfeds(a) - CountHops(b);
    if hops < 0 then CountHops(a) else hops
  }

  /** How much of a segment is copied when `hops` are wanted. */
  function Copied(s: Segment, hops: int): Segment
    requires hops > 0
  {
    if s.typ == AsSequence && hops < |s.asns| then Segment(s.typ, s.asns[..hops]) else s
  }

  function Remaining(s: Segment, hops: int): int {
    if IsSetType(s.typ) then hops - 1
    else if s.typ == ConfedSequence && hops < |s.asns| then 0
    else hops - |s.asns|
  }

  function Taken(a: Path, hops: int): Path
    decreases |a|
  {
    if a == [] || hops <= 0 then [] else [Copied(a[0], hops)] + Taken(a[1..], Remaining(a[0], hops))
  }

  function Reconcile(a: Path, b: Path): Path {
    if Excess(a, b) == 0 then b else Normal(Taken(a, Excess(a, b)) + b)
  }

  /** aspath_reconcile_as4.  The assertion on the copied count never fails, and a
      first segment is always copied before the paths are merged. */
  method ReconcileAs4(a: Path, b: Path) returns (r: Path)
    ensures r == Reconcile(a, b)
  {
    var inPath := TallyHops(a);
    var inConfeds := TallyConfeds(a);
    var inAs4 := TallyHops(b);
    var hops := (inPath + inConfeds) as int - inAs4 as int;
    if hops < 0 {
      hops := inPath;
    }
    if hops == 0 {
      return b;
    }
    var newpath := CopyHops(a, hops);
    assert newpath != [];
    r := Normalise(newpath + b);
  }

  /** The copying loop of aspath_reconcile_as4. */
  method CopyHops(a: Path, wanted: int) returns (newpath: Path)
    ensures newpath == Taken(a, wanted)
  {
    var seg, hops := a, wanted;
    newpath := [];
    assert [] + Taken(a, hops) == Taken(a, hops);
    while seg != [] && hops > 0
      invariant newpath + Taken(seg, hops) == Taken(a, wanted)
      decreases |seg|
    {
      var newseg;
      newseg, hops := CopySegment(seg[0], hops);
      Associates(newpath, [newseg], Taken(seg[1..], hops));
      newpath := newpath + [newseg];
      seg := seg[1..];
    }
    assert newpath + [] == newpath;
  }

  /** One round of the loop: the switch over the segment type and the copy. */
  method CopySegment(seg: Segment, wanted: int) returns (newseg: Segment, hops: int)
    requires wanted > 0
    ensures newseg == Copied(seg, wanted) && hops == Remaining(seg, wanted)
  {
    hops := wanted;
    var cpasns := 0;
    match seg.typ {
      case AsSet | ConfedSet =>
        hops := hops - 1;
        cpasns := |seg.asns|;
      case ConfedSequence =>
        if hops < |seg.asns| {
          hops := |seg.asns|;
        }
        cpasns := if |seg.asns| < hops then |seg.asns| else hops;
        hops := hops - |seg.asns|;
      case AsSequence =>
        cpasns := if |seg.asns| < hops then |seg.asns| else hops;
        hops := hops - |seg.asns|;
    }
    assert cpasns <= |seg.asns|;
    newseg := Segment(seg.typ, seg.asns[..cpasns]);
    assert cpasns == |seg.asns| ==> seg.asns[..cpasns] == seg.asns;
  }

  // ----- what a reconciled path denotes -----

  ghost function HopWeight(h: Hop): nat {
    match h
    case Confed(asns) => |asns|
    case _ => 1
  }

  ghost function Weight(d: seq<Hop>): nat {
    if d == [] then 0 else HopWeight(d[0]) + Weight(d[1..])
  }

  /** The shortest prefix of the hops that weighs at least w. */
  ghost function Cover(d: seq<Hop>, w: int): seq<Hop>
    decreases |d|
  {
    if d == [] || w <= 0 then [] else [d[0]] + Cover(d[1..], w - HopWeight(d[0]))
  }

  ghost function AsList(asns: seq<Asn>): (r: seq<Hop>)
    ensures r == Hops(Segment(AsSequence, asns))
  {
    seq(|asns|, i requires 0 <= i < |asns| => As(asns[i]))
  }

  lemma {:induction false} WeightConcat(a: seq<Hop>, b: seq<Hop>)
    ensures Weight(a + b) == Weight(a) + Weight(b)
  {
    if a == [] {
      assert a + b == b;
    } else {
      assert (a + b)[1..] == a[1..] + b;
      WeightConcat(a[1..], b);
    }
  }

  lemma {:induction false} WeightOfList(asns: seq<Asn>)
    ensures Weight(AsList(asns)) == |asns|
  {
    if asns != [] {
      assert AsList(asns)[1..] == AsList(asns[1..]);
      WeightOfList(asns[1..]);
    }
  }

  /** The counters weigh the hops of a path. */
  lemma {:induction false} CountsWeigh(p: Path)
    ensures CountHops(p) + CountConfeds(p) == Weight(Denote(p))
  {
    if p != [] {
      CountsWeigh(p[1..]);
      WeightConcat(Hops(p[0]), Denote(p[1..]));
      WeightOfList(p[0].asns);
      assert p[0].typ == AsSequence ==> Hops(p[0]) == AsList(p[0].asns);
    }
  }

  lemma CoverCons(h: Hop, d: seq<Hop>, w: int)
    requires w > 0
    ensures Cover([h] + d, w) == [h] + Cover(d, w - HopWeight(h))
  {
    assert ([h] + d)[1..] == d;
  }

  lemma AsListCons(asns: seq<Asn>)
    requires asns != []
    ensures AsList(asns) == [As(asns[0])] + AsList(asns[1..])
  {
  }

  /** The cut falls inside a run of ASes. */
  lemma {:induction false} CoverWithin(asns: seq<Asn>, rest: seq<Hop>, w: int)
    requires 0 < w <= |asns|
    ensures Cover(AsList(asns) + rest, w) == AsList(asns[..w])
    decreases w
  {
    AsListCons(asns);
    Associates([As(asns[0])], AsList(asns[1..]), rest);
    CoverCons(As(asns[0]), AsList(asns[1..]) + rest, w);
    if w == 1 {
      assert Cover(AsList(asns[1..]) + rest, 0) == [];
    } else {
      CoverWithin(asns[1..], rest, w - 1);
      AsListCons(asns[..w]);
      assert asns[..w][1..] == asns[1..][..w - 1];
    }
  }

  lemma {:induction false} CoverPast(asns: seq<Asn>, rest: seq<Hop>, w: int)
    requires w > |asns|
    ensures Cover(AsList(asns) + rest, w) == AsList(asns) + Cover(rest, w - |asns|)
  {
    if asns == [] {
      assert AsList(asns) == [];
      assert AsList(asns) + rest == rest;
    } else {
      AsListCons(asns);
      Associates([As(asns[0])], AsList(asns[1..]), rest);
      CoverCons(As(asns[0]), AsList(asns[1..]) + rest, w);
      CoverPast(asns[1..], rest, w - 1);
      Associates([As(asns[0])], AsList(asns[1..]), Cover(rest, w - |asns|));
    }
  }

  lemma CoverRun(asns: seq<Asn>, rest: seq<Hop>, w: int)
    requires w > 0
    ensures Cover(AsList(asns) + rest, w) ==
            if w < |asns| then AsList(asns[..w]) else AsList(asns) + Cover(rest, w - |asns|)
  {
    if w <= |asns| {
      CoverWithin(asns, rest, w);
      assert w == |asns| ==> asns[..w] == asns;
    } else {
      CoverPast(asns, rest, w);
    }
  }

  lemma TakeSequence(asns: seq<Asn>, rest: seq<Hop>, w: int)
    requires w > 0
    ensures var s := Segment(AsSequence, asns);
            Cover(AsList(asns) + rest, w) == Hops(Copied(s, w)) + Cover(rest, Remaining(s, w))
  {
    CoverRun(asns, rest, w);
    if w < |asns| {
      assert AsList(asns[..w]) + [] == AsList(asns[..w]);
    }
  }

  lemma TakeFirst(s: Segment, rest: seq<Hop>, w: int)
    requires w > 0
    ensures Cover(Hops(s) + rest, w) == Hops(Copied(s, w)) + Cover(rest, Remaining(s, w))
  {
    if s.typ == AsSequence {
      TakeSequence(s.asns, rest, w);
      assert s == Segment(AsSequence, s.asns);
    } else {
      var h := Hops(s)[0];
      assert Hops(s) == [h];
      CoverCons(h, rest, w);
      assert Cover(rest, w - HopWeight(h)) == Cover(rest, Remaining(s, w));
    }
  }

  lemma {:induction false} TakenCovers(a: Path, w: int)
    ensures Denote(Taken(a, w)) == Cover(Denote(a), w)
    decreases |a|
  {
    if a != [] && w > 0 {
      TakenCovers(a[1..], Remaining(a[0], w));
      TakeFirst(a[0], Denote(a[1..]), w);
      assert Taken(a, w)[1..] == Taken(a[1..], Remaining(a[0], w));
    }
  }

  lemma ReconcileCovers(a: Path, b: Path)
    ensures Denote(Reconcile(a, b)) == Cover(Denote(a), Excess(a, b)) + Denote(b)
    ensures IsNormal(b) ==> IsNormal(Reconcile(a, b))
  {
    if Excess(a, b) == 0 {
      assert [] + Denote(b) == Denote(b);
    } else {
      TakenCovers(a, Excess(a, b));
      DenoteConcat(Taken(a, Excess(a, b)), b);
      NormalDenotes(Taken(a, Excess(a, b)) + b);
      NormalFromIsNormal([], Taken(a, Excess(a, b)) + b);
    }
  }

  /** How many hops are not inside a confederation. */
  ghost function Outside(d: seq<Hop>): nat {
    if d == [] then 0 else (if d[0].As? || d[0].AnyOf? then 1 else 0) + Outside(d[1..])
  }

  lemma {:induction false} OutsideConcat(a: seq<Hop>, b: seq<Hop>)
    ensures Outside(a + b) == Outside(a) + Outside(b)
  {
    if a == [] {
      assert a + b == b;
    } else {
      assert (a + b)[0] == a[0] && (a + b)[1..] == a[1..] + b;
      OutsideConcat(a[1..], b);
    }
  }

  lemma {:induction false} OutsideList(asns: seq<Asn>)
    ensures Outside(AsList(asns)) == |asns|
  {
    if asns != [] {
      AsListCons(asns);
      OutsideList(asns[1..]);
      assert AsList(asns)[1..] == AsList(asns[1..]);
    }
  }

  /** The hop counter counts the hops outside confederations. */
  lemma {:induction false} CountsOutside(p: Path)
    ensures CountHops(p) == Outside(Denote(p))
  {
    if p != [] {
      CountsOutside(p[1..]);
      OutsideConcat(Hops(p[0]), Denote(p[1..]));
      if p[0].typ == AsSequence {
        OutsideList(p[0].asns);
        assert Hops(p[0]) == AsList(p[0].asns);
      } else {
        assert Hops(p[0]) == [Hops(p[0])[0]] && Hops(p[0])[1..] == [];
      }
    }
  }

  /** For all inputs: the reconciled path is a run of leading hops of the AS_PATH,
      followed by the whole AS4_PATH.  The run is the shortest that makes up the
      difference between the weight of the AS_PATH, confederations included, and
      the hops of the AS4_PATH, never splitting a confederation sequence; or, if
      the AS4_PATH has more, as much as the AS_PATH has outside confederations. */
  lemma ReconcileDenotes(a: Path, b: Path)
    ensures var path, as4 := Denote(a), Denote(b);
            Denote(Reconcile(a, b)) ==
            Cover(path, if Weight(path) >= Outside(as4) then Weight(path) - Outside(as4) else Outside(path)) + as4
    ensures IsNormal(b) ==> IsNormal(Reconcile(a, b))
  {
    ReconcileCovers(a, b);
    CountsWeigh(a);
    CountsOutside(a);
    CountsOutside(b);
  }

  predicate ConfedFree(p: Path) {
    forall i :: 0 <= i < |p| ==> p[i].typ == AsSequence || p[i].typ == AsSet
  }

  lemma {:induction false} ConfedFreeHops(p: Path)
    requires ConfedFree(p)
    ensures CountHops(p) == |Denote(p)| && CountConfeds(p) == 0
    ensures forall i :: 0 <= i < |Denote(p)| ==> HopWeight(Denote(p)[i]) == 1
  {
    if p != [] {
      ConfedFreeHops(p[1..]);
    }
  }

  lemma {:induction false} CoverIsPrefix(d: seq<Hop>, w: nat)
    requires w <= |d| && forall i :: 0 <= i < |d| ==> HopWeight(d[i]) == 1
    ensures Cover(d, w) == d[..w]
  {
    if w > 0 {
      CoverIsPrefix(d[1..], w - 1);
      assert d[..w] == [d[0]] + d[1..][..w - 1];
    }
  }

  /** Without confederations the AS4_PATH replaces exactly as many hops as it has,
      and the hop count is kept, if and only if it has no more than the AS_PATH. */
  lemma ReconcileKeepsHops(a: Path, b: Path)
    requires ConfedFree(a) && ConfedFree(b)
    ensures CountHops(a) == |Denote(a)|
    ensures CountHops(a) >= CountHops(b) ==>
              Denote(Reconcile(a, b)) == Denote(a)[..CountHops(a) - CountHops(b)] + Denote(b)
    ensures CountHops(a) < CountHops(b) ==> Denote(Reconcile(a, b)) == Denote(a) + Denote(b)
    ensures |Denote(Reconcile(a, b))| == CountHops(a) <==> CountHops(b) <= CountHops(a)
  {
    ConfedFreeHops(a);
    ConfedFreeHops(b);
    ReconcileCovers(a, b);
    CoverIsPrefix(Denote(a), Excess(a, b));
    assert Denote(a)[..|Denote(a)|] == Denote(a);
  }

  // ----- prepending -----

  /** aspath_add_one_as. */
  function AddOneAs(p: Path, asn: Asn, typ: SegType): Path {
    if p == [] || p[0].asns == [] then [Segment(typ, [asn])]
    else if p[0].typ == typ then [Segment(typ, [asn] + p[0].asns)] + p[1..]
    else [Segment(typ, [asn])] + p
  }

  function AddSeq(p: Path, asn: Asn): Path {
    AddOneAs(p, asn, AsSequence)
  }

  /** Prepended one after the other, the last one ends up leftmost. */
  function AddAll(p: Path, asns: seq<Asn>): Path
    decreases |asns|
  {
    if asns == [] then p else AddAll(AddSeq(p, asns[0]), asns[1..])
  }

  predicate NonEmpty(p: Path) {
    forall i :: 0 <= i < |p| ==> p[i].asns != []
  }

  /** ASNs in a leading AS_SEQUENCE. */
  function Lead(p: Path): nat {
    if p != [] && p[0].typ == AsSequence then |p[0].asns| else 0
  }

  lemma AddSeqDenotes(p: Path, x: Asn)
    requires IsNormal(p) && NonEmpty(p)
    ensures Denote(AddSeq(p, x)) == [As(x)] + Denote(p)
    ensures IsNormal(AddSeq(p, x)) && NonEmpty(AddSeq(p, x)) && Lead(AddSeq(p, x)) == Lead(p) + 1
  {
    var q := AddSeq(p, x);
    if p == [] {
      assert Hops(q[0]) == [As(x)] && Denote(q) == [As(x)] + Denote([]);
    } else if p[0].typ == AsSequence {
      assert q[1..] == p[1..];
      assert Hops(q[0]) == [As(x)] + Hops(p[0]);
      assert [As(x)] + (Hops(p[0]) + Denote(p[1..])) == ([As(x)] + Hops(p[0])) + Denote(p[1..]);
    } else {
      assert q[1..] == p;
      assert Hops(q[0]) == [As(x)];
    }
  }

  lemma {:induction false} AddAllDenotes(p: Path, xs: seq<Asn>)
    requires IsNormal(p) && NonEmpty(p)
    ensures IsNormal(AddAll(p, xs)) && NonEmpty(AddAll(p, xs))
    ensures |Denote(AddAll(p, xs))| == |xs| + |Denote(p)|
    ensures Denote(AddAll(p, xs))[|xs|..] == Denote(p)
    ensures forall i :: 0 <= i < |xs| ==> Denote(AddAll(p, xs))[i] == As(xs[|xs| - 1 - i])
    decreases |xs|
  {
    if xs != [] {
      AddSeqDenotes(p, xs[0]);
      var q := AddSeq(p, xs[0]);
      AddAllDenotes(q, xs[1..]);
      var d := Denote(AddAll(p, xs));
      assert d[|xs| - 1] == d[|xs| - 1..][0] == As(xs[0]);
      assert d[|xs|..] == d[|xs| - 1..][1..];
    }
  }

  // ----- what a 16-bit speaker sees -----

  function TidiedAll(p: Path): (q: Path)
    ensures |q| == |p|
  {
    seq(|p|, i requires 0 <= i < |p| => Tidied(p[i]))
  }

  lemma {:induction false} NormalOfSpaced(done: Path, p: Path)
    requires NoAdjacent(done + p)
    ensures NormalFrom(done, p) == done + TidiedAll(p)
    decreases |p|
  {
    if p == [] {
      assert done + TidiedAll(p) == done;
    } else {
      var k := |done|;
      assert (done + p)[k] == p[0] && (k > 0 ==> (done + p)[k - 1] == done[k - 1]);
      assert Push(done, p[0]) == done + [Tidied(p[0])];
      var next := done + [Tidied(p[0])];
      forall i | 0 < i < |next + p[1..]| ensures !Packable((next + p[1..])[i - 1], (next + p[1..])[i]) {
        assert (next + p[1..])[i].typ == (done + p)[i].typ && (next + p[1..])[i - 1].typ == (done + p)[i - 1].typ;
        assert !Packable((done + p)[i - 1], (done + p)[i]);
      }
      NormalOfSpaced(next, p[1..]);
      assert next + TidiedAll(p[1..]) == done + TidiedAll(p);
    }
  }

  lemma {:induction false} UniqueIsNoLonger(s: seq<Asn>)
    ensures |Unique(s)| <= |s|
  {
    if |s| > 1 {
      UniqueIsNoLonger(s[1..]);
    }
  }

  predicate Narrow(p: Path) {
    forall i :: 0 <= i < |p| ==> NarrowAll(p[i].asns)
  }

  predicate NarrowAll(s: seq<Asn>) {
    forall i :: 0 <= i < |s| ==> s[i] <= BGP_AS_MAX
  }

  /** A 16-bit speaker sees a narrow path as it is. */
  lemma SeenNarrow(p: Path)
    requires Narrow(p)
    ensures SeenPath(p, false) == p
  {
    forall i | 0 <= i < |p| ensures SeenSegment(p[i], false) == p[i] {
      assert SeenAll(p[i].asns, false) == p[i].asns;
    }
  }

  /** The path a 16-bit speaker makes of a segment list. */
  function Narrowed(p: Path): Path {
    Normal(SeenPath(p, false))
  }

  lemma NarrowedSegment(s: Segment)
    ensures var t := Tidied(SeenSegment(s, false));
            && t.typ == s.typ
            && |t.asns| <= |s.asns|
            && (t.asns == [] <==> s.asns == [])
            && (s.typ == AsSequence ==> |t.asns| == |s.asns|)
            && NarrowAll(t.asns)
  {
    var asns := SeenAll(s.asns, false);
    SortSorts(asns);
    UniqueIsNoLonger(Sort(asns));
    CanonicalIs(asns);
    assert NarrowAll(asns);
    forall i | 0 <= i < |Canonical(asns)| ensures Canonical(asns)[i] <= BGP_AS_MAX {
      assert Canonical(asns)[i] in Members(Canonical(asns));
    }
  }

  /** Same number of segments, types and AS_SEQUENCE lengths, nothing empty,
      nothing longer, and 16-bit throughout. */
  lemma NarrowedShape(p: Path)
    requires NoAdjacent(p) && Portable(p)
    ensures var q := Narrowed(p);
            && |q| == |p|
            && (forall i :: 0 <= i < |p| ==>
                  q[i].typ == p[i].typ && (p[i].typ == AsSequence ==> |q[i].asns| == |p[i].asns|))
            && IsNormal(q) && Portable(q) && Narrow(q)
  {
    var q := Narrowed(p);
    NormalFromIsNormal([], SeenPath(p, false));
    assert NoAdjacent([] + SeenPath(p, false));
    NormalOfSpaced([], SeenPath(p, false));
    forall i | 0 <= i < |p|
      ensures q[i].typ == p[i].typ && (p[i].typ == AsSequence ==> |q[i].asns| == |p[i].asns|)
      ensures NarrowAll(q[i].asns) && 0 < |q[i].asns| <= |p[i].asns|
    {
      NarrowedSegment(p[i]);
    }
  }

  lemma {:induction false} SameShapeSameHops(p: Path, q: Path)
    requires |p| == |q|
    requires forall i :: 0 <= i < |p| ==>
               q[i].typ == p[i].typ && (p[i].typ == AsSequence ==> |q[i].asns| == |p[i].asns|)
    ensures |Denote(p)| == |Denote(q)|
  {
    if p != [] {
      SameShapeSameHops(p[1..], q[1..]);
      assert q[0].typ == p[0].typ;
    }
  }

  // ----- 16-bit speakers on the way -----

  /** A speaker with a 16-bit AS number, and the room in its output stream. */
  datatype Speaker = Speaker(asn: Asn, room: nat)

  predicate Legacy(speakers: seq<Speaker>) {
    forall i :: 0 <= i < |speakers| ==> speakers[i].asn <= BGP_AS_MAX
  }

  function Asns(speakers: seq<Speaker>): (r: seq<Asn>)
    ensures |r| == |speakers|
  {
    seq(|speakers|, i requires 0 <= i < |speakers| => speakers[i].asn)
  }

  /** Each speaker in turn parses the attribute, prepends itself and writes it. */
  function Relayed(attribute: (seq<byte>, nat), speakers: seq<Speaker>): Option<(seq<byte>, nat)>
    decreases |speakers|
  {
    if speakers == [] then Some(attribute)
    else
      match AssegmentsParse(attribute.0, attribute.1, false)
      case None => None
      case Some(p) => Relayed(AspathPut(AddSeq(p, speakers[0].asn), speakers[0].room, false), speakers[1..])
  }

  /** Every speaker has room for what it writes. */
  predicate Roomy(p: Path, speakers: seq<Speaker>)
    decreases |speakers|
  {
    speakers == [] ||
    var q := AddSeq(p, speakers[0].asn);
    speakers[0].room >= |Wire(q, false)| && Roomy(q, speakers[1..])
  }

  lemma AddSeqStaysPortable(p: Path, x: Asn)
    requires IsNormal(p) && Portable(p) && Narrow(p) && x <= BGP_AS_MAX && Lead(p) < 510
    ensures IsNormal(AddSeq(p, x)) && Portable(AddSeq(p, x)) && Narrow(AddSeq(p, x))
    ensures Lead(AddSeq(p, x)) == Lead(p) + 1
  {
    AddSeqDenotes(p, x);
    var q := AddSeq(p, x);
    var shift := |q| - |p|;
    forall i | 0 <= i < |q|
      ensures 0 < |q[i].asns| <= (if q[i].typ == AsSequence then 510 else 255) && NarrowAll(q[i].asns)
    {
      assert i > 0 ==> q[i] == p[i - shift];
    }
  }

  /** A narrow path survives the 16-bit wire. */
  lemma NarrowRoundTrip(p: Path, room: nat)
    requires IsNormal(p) && Portable(p) && Narrow(p) && room >= |Wire(p, false)|
    ensures var (bytes, count) := AspathPut(p, room, false); AssegmentsParse(bytes, count, false) == Some(p)
  {
    ParseOfPut(p, room, false);
    SeenNarrow(p);
    NormalIsIdempotent(p);
  }

  lemma RelayedOnce(attribute: (seq<byte>, nat), q: Path, speakers: seq<Speaker>)
    requires speakers != [] && AssegmentsParse(attribute.0, attribute.1, false) == Some(q)
    ensures Relayed(attribute, speakers) ==
            Relayed(AspathPut(AddSeq(q, speakers[0].asn), speakers[0].room, false), speakers[1..])
  {
  }

  lemma AddAllOnce(q: Path, speakers: seq<Speaker>)
    requires speakers != []
    ensures AddAll(q, Asns(speakers)) == AddAll(AddSeq(q, speakers[0].asn), Asns(speakers[1..]))
  {
    assert Asns(speakers)[1..] == Asns(speakers[1..]);
  }

  lemma {:induction false} RelayedPath(attribute: (seq<byte>, nat), q: Path, speakers: seq<Speaker>)
    requires AssegmentsParse(attribute.0, attribute.1, false) == Some(q)
    requires IsNormal(q) && Portable(q) && Narrow(q) && Legacy(speakers)
    requires Lead(q) + |speakers| <= 510 && Roomy(q, speakers)
    ensures var last := Relayed(attribute, speakers);
            last.Some? && AssegmentsParse(last.value.0, last.value.1, false) == Some(AddAll(q, Asns(speakers)))
    decreases |speakers|
  {
    if speakers != [] {
      var next := AddSeq(q, speakers[0].asn);
      AddSeqStaysPortable(q, speakers[0].asn);
      NarrowRoundTrip(next, speakers[0].room);
      RelayedOnce(attribute, q, speakers);
      RelayedPath(AspathPut(next, speakers[0].room, false), next, speakers[1..]);
      AddAllOnce(q, speakers);
    }
  }

  /** Reconciling what the speakers made of p with p itself. */
  lemma ReconcilePrepended(p: Path, q: Path, xs: seq<Asn>)
    requires IsNormal(p) && NonEmpty(p) && ConfedFree(p)
    requires IsNormal(q) && NonEmpty(q) && ConfedFree(q) && |Denote(q)| == |Denote(p)|
    ensures Reconcile(AddAll(q, xs), p) == AddAll(p, xs)
  {
    var a, want := AddAll(q, xs), AddAll(p, xs);
    AddAllDenotes(q, xs);
    AddAllDenotes(p, xs);
    AddAllConfedFree(q, xs);
    ConfedFreeHops(a);
    ConfedFreeHops(p);
    ReconcileCovers(a, p);
    CoverIsPrefix(Denote(a), |xs|);
    SplitEqual(Denote(a), Denote(want), |xs|);
    ReconcileIsSolid(a, p);
    NormalIsDetermined(Reconcile(a, p), want);
  }

  lemma SplitEqual(d: seq<Hop>, e: seq<Hop>, n: nat)
    requires n <= |d| && n <= |e| && forall i :: 0 <= i < n ==> d[i] == e[i]
    ensures d[..n] + e[n..] == e
  {
  }

  lemma ReconcileIsSolid(a: Path, b: Path)
    requires Solid(a) && Solid(b)
    ensures Solid(Reconcile(a, b))
  {
    TakenIsSolid(a, Excess(a, b));
    NormalFromSolid([], Taken(a, Excess(a, b)) + b);
  }

  lemma {:induction false} AddAllConfedFree(p: Path, xs: seq<Asn>)
    requires ConfedFree(p)
    ensures ConfedFree(AddAll(p, xs))
    decreases |xs|
  {
    if xs != [] {
      AddAllConfedFree(AddSeq(p, xs[0]), xs[1..]);
    }
  }

  lemma {:induction false} TakenIsSolid(a: Path, w: int)
    requires Solid(a)
    ensures Solid(Taken(a, w))
    decreases |a|
  {
    if a != [] && w > 0 {
      TakenIsSolid(a[1..], Remaining(a[0], w));
    }
  }

  /** aspath_has_as4. */
  predicate HasAs4(p: Path) {
    !Narrow(p)
  }

  /** The AGGREGATOR and AS4_AGGREGATOR attributes of an update, if any. */
  datatype Aggregation = Aggregation(aggregator: Option<Asn>, as4: Option<Asn>)

  /** What is sent to a 16-bit speaker about the aggregating AS. */
  function AggregationOf(g: Option<Asn>): Aggregation {
    if g.None? then Aggregation(None, None)
    else Aggregation(Some(Seen(g.value, false)), if g.value > BGP_AS_MAX then g else None)
  }

  /** A 16-bit speaker has aggregated since: AS4_PATH is to be ignored. */
  predicate Overrides(g: Aggregation) {
    g.as4.Some? && g.aggregator.Some? && g.aggregator.value != BGP_AS_TRANS
  }

  /** bgp_attr_munge_as4_attrs for a 16-bit peer: path and aggregating AS. */
  function Munged(path: Path, as4Path: Option<Path>, g: Aggregation): (Path, Option<Asn>) {
    (if as4Path.Some? && !Overrides(g) then Reconcile(path, as4Path.value) else path,
     if g.as4.Some? && !Overrides(g) then g.as4 else g.aggregator)
  }

  /** Aggregators that arrive as they were sent give the aggregating AS back and
      leave AS4_PATH in force. */
  lemma AggregatorSurvives(g: Option<Asn>, path: Path, as4Path: Option<Path>)
    ensures !Overrides(AggregationOf(g)) && Munged(path, as4Path, AggregationOf(g)).1 == g
  {
  }

  /** AS4_PATH as it is sent and parsed: only with a path that has a wide ASN. */
  function As4PathOf(p: Path, room: nat): Option<Option<Path>> {
    if !HasAs4(p) then Some(None)
    else
      var (bytes, count) := AspathPut(p, room, true);
      match AssegmentsParse(bytes, count, true)
      case None => None
      case Some(b) => Some(Some(b))
  }

  /** What the first 32-bit speaker after the 16-bit ones ends up with; AS4_PATH is
      carried along unchanged. */
  function Received(p: Path, room: nat, speakers: seq<Speaker>, g: Aggregation): Option<(Path, Option<Asn>)> {
    match Relayed(AspathPut(p, room, false), speakers)
    case None => None
    case Some(last) =>
      match (AssegmentsParse(last.0, last.1, false), As4PathOf(p, room))
      case (Some(a), Some(b)) => Some(Munged(a, b, g))
      case _ => None
  }

  lemma NarrowedLead(p: Path)
    requires IsNormal(p) && Portable(p)
    ensures IsNormal(Narrowed(p)) && Portable(Narrowed(p)) && Narrow(Narrowed(p)) && Lead(Narrowed(p)) == Lead(p)
  {
    NarrowedShape(p);
  }

  /** A leading AS_SEQUENCE of 511 ASNs is announced longer than it is written. */
  lemma TooLongToParse(q: Path, x: Asn, room: nat)
    requires IsNormal(q) && Portable(q) && Lead(q) == 510 && room >= |Wire(AddSeq(q, x), false)|
    ensures var (bytes, count) := AspathPut(AddSeq(q, x), room, false);
            AssegmentsParse(bytes, count, false) == None
  {
    var next := AddSeq(q, x);
    AddSeqDenotes(q, x);
    PutIsWire(next, room, false);
    WireCountIsRightIff(next, false);
    assert |next[0].asns| == 511;
  }

  predicate Unreadable(attribute: Option<(seq<byte>, nat)>) {
    attribute.Some? ==> AssegmentsParse(attribute.value.0, attribute.value.1, false) == None
  }

  lemma {:induction false} RelayedTooFar(attribute: (seq<byte>, nat), q: Path, speakers: seq<Speaker>)
    requires AssegmentsParse(attribute.0, attribute.1, false) == Some(q)
    requires IsNormal(q) && Portable(q) && Narrow(q) && Legacy(speakers)
    requires Lead(q) <= 510 < Lead(q) + |speakers| && Roomy(q, speakers)
    ensures Unreadable(Relayed(attribute, speakers))
    decreases |speakers|
  {
    var next := AddSeq(q, speakers[0].asn);
    var written := AspathPut(next, speakers[0].room, false);
    if Lead(q) == 510 {
      TooLongToParse(q, speakers[0].asn, speakers[0].room);
    } else {
      AddSeqStaysPortable(q, speakers[0].asn);
      NarrowRoundTrip(next, speakers[0].room);
      RelayedTooFar(written, next, speakers[1..]);
    }
  }

  /** What comes out of the 16-bit speakers: the narrowed path with them prepended,
      or nothing that can be parsed. */
  lemma RelayedAway(p: Path, room: nat, speakers: seq<Speaker>)
    requires IsNormal(p) && Portable(p) && Legacy(speakers)
    requires room >= |Wire(p, false)| && Roomy(Narrowed(p), speakers)
    ensures var last := Relayed(AspathPut(p, room, false), speakers);
            if Lead(p) + |speakers| <= 510 then
              last.Some? &&
              AssegmentsParse(last.value.0, last.value.1, false) == Some(AddAll(Narrowed(p), Asns(speakers)))
            else Unreadable(last)
  {
    ParseOfPut(p, room, false);
    NarrowedLead(p);
    var first := AspathPut(p, room, false);
    if Lead(p) + |speakers| <= 510 {
      RelayedPath(first, Narrowed(p), speakers);
    } else {
      LeadFits(p);
      RelayedTooFar(first, Narrowed(p), speakers);
    }
  }

  lemma LeadFits(p: Path)
    requires Portable(p)
    ensures Lead(p) <= 510
  {
  }

  /** The path the far side makes of a readable AS_PATH. */
  lemma ReconciledAway(p: Path, room: nat, xs: seq<Asn>)
    requires IsNormal(p) && Portable(p) && ConfedFree(p) && room >= |Wire(p, true)|
    ensures As4PathOf(p, room) == Some(if HasAs4(p) then Some(p) else None)
    ensures HasAs4(p) ==> Reconcile(AddAll(Narrowed(p), xs), p) == AddAll(p, xs)
    ensures !HasAs4(p) ==> Narrowed(p) == p
  {
    NormalIsIdempotent(p);
    if HasAs4(p) {
      ParseOfPut(p, room, true);
      SeenWide(p);
      NarrowedShape(p);
      SameShapeSameHops(p, Narrowed(p));
      ReconcilePrepended(p, Narrowed(p), xs);
    } else {
      SeenNarrow(p);
    }
  }

  /** Exactly what becomes of a confederation-free path behind a chain of 16-bit
      speakers: nothing if its leading AS_SEQUENCE outgrows 510 ASNs; its 16-bit
      view if one of them has aggregated; else the original path.  In the last two
      cases with the speakers prepended. */
  lemma As4Outcome(p: Path, room: nat, speakers: seq<Speaker>, g: Aggregation)
    requires IsNormal(p) && Portable(p) && ConfedFree(p) && Legacy(speakers)
    requires room >= |Wire(p, true)| && room >= |Wire(p, false)| && Roomy(Narrowed(p), speakers)
    ensures var aggregated := g.as4.Some? && g.aggregator.Some? && g.aggregator.value != 23456;
            var wide := exists i, j :: 0 <= i < |p| && 0 <= j < |p[i].asns| && p[i].asns[j] > 65535;
            Received(p, room, speakers, g) ==
            if Lead(p) + |speakers| > 510 then None
            else Some((AddAll(if wide && aggregated then Narrowed(p) else p, Asns(speakers)),
                       if g.as4.Some? && !aggregated then g.as4 else g.aggregator))
  {
    RelayedAway(p, room, speakers);
    ReconciledAway(p, room, Asns(speakers));
  }

  /** With the aggregator attributes as they were sent, path and aggregating AS come
      back exactly, if and only if the leading AS_SEQUENCE has room for the
      speakers. */
  lemma As4Transition(p: Path, room: nat, speakers: seq<Speaker>, g: Option<Asn>)
    requires IsNormal(p) && Portable(p) && ConfedFree(p) && Legacy(speakers)
    requires room >= |Wire(p, true)| && room >= |Wire(p, false)| && Roomy(Narrowed(p), speakers)
    ensures Received(p, room, speakers, AggregationOf(g)) == Some((AddAll(p, Asns(speakers)), g)) <==>
            Lead(p) + |speakers| <= 510
  {
    As4Outcome(p, room, speakers, AggregationOf(g));
    AggregatorSurvives(g, p, None);
  }
}
