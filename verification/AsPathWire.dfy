/** AS paths on the wire: aspath_put and assegments_parse (bgpd/bgp_aspath.c,
    section 4.3 of RFC 4271, 16- and 32-bit AS numbers). */
module AsPathWire {
  import opened AsPath
  import opened Basics

  const AS_SEGMENT_MAX := 255
  const BGP_AS_MAX := 65535
  const BGP_AS_TRANS: Asn := 23456

  function Code(t: SegType): byte {
    match t
    case AsSet => 1
    case AsSequence => 2
    case ConfedSequence => 3
    case ConfedSet => 4
  }

  function Decode(b: byte): Option<SegType> {
    if b == 1 then Some(AsSet)
    else if b == 2 then Some(AsSequence)
    else if b == 3 then Some(ConfedSequence)
    else if b == 4 then Some(ConfedSet)
    else None
  }

  // ----- AS numbers -----

  function AsnSize(wide: bool): nat {
    if wide then 4 else 2
  }

  /** n AS numbers take this many bytes. */
  function DataSize(n: nat, wide: bool): nat {
    if wide then 4 * n else 2 * n
  }

  /** What a speaker of the given width sees of an AS number. */
  function Seen(a: Asn, wide: bool): Asn {
    if wide || a <= BGP_AS_MAX then a else BGP_AS_TRANS
  }

  function PutAsn(a: Asn, wide: bool): (s: seq<byte>)
    ensures |s| == AsnSize(wide)
  {
    if wide then [a / 0x1000000, a / 0x10000 % 256, a / 0x100 % 256, a % 256]
    else [Seen(a, false) / 256, Seen(a, false) % 256]
  }

  function GetAsn(s: seq<byte>, wide: bool): Asn
    requires |s| >= AsnSize(wide)
  {
    var b0: int, b1: int := s[0], s[1];
    if wide then
      var b2: int, b3: int := s[2], s[3];
      ((b0 * 256 + b1) * 256 + b2) * 256 + b3
    else b0 * 256 + b1
  }

  lemma GetPutAsn(a: Asn, wide: bool, rest: seq<byte>)
    ensures GetAsn(PutAsn(a, wide) + rest, wide) == Seen(a, wide)
  {
    var s := PutAsn(a, wide) + rest;
    if wide {
      assert s[0] == a / 0x1000000 && s[1] == a / 0x10000 % 256 && s[2] == a / 0x100 % 256 && s[3] == a % 256;
      assert a / 0x100 == (a / 0x10000) * 256 + a / 0x100 % 256;
      assert a / 0x10000 == (a / 0x1000000) * 256 + a / 0x10000 % 256;
    }
  }

  function PutAsns(asns: seq<Asn>, wide: bool): (s: seq<byte>)
    ensures |s| == DataSize(|asns|, wide)
  {
    if asns == [] then [] else PutAsn(asns[0], wide) + PutAsns(asns[1..], wide)
  }

  function GetAsns(s: seq<byte>, n: nat, wide: bool): (asns: seq<Asn>)
    requires |s| >= DataSize(n, wide)
    ensures |asns| == n
    decreases n
  {
    if n == 0 then []
    else
      [GetAsn(s, wide)] + GetAsns(s[AsnSize(wide)..], n - 1, wide)
  }

  function SeenAll(asns: seq<Asn>, wide: bool): (r: seq<Asn>)
    ensures |r| == |asns|
  {
    seq(|asns|, i requires 0 <= i < |asns| => Seen(asns[i], wide))
  }

  lemma {:induction false} GetPutAsns(asns: seq<Asn>, wide: bool, rest: seq<byte>)
    ensures GetAsns(PutAsns(asns, wide) + rest, |asns|, wide) == SeenAll(asns, wide)
  {
    if asns != [] {
      var tail := PutAsns(asns[1..], wide) + rest;
      assert PutAsns(asns, wide) + rest == PutAsn(asns[0], wide) + tail;
      GetPutAsn(asns[0], wide, tail);
      GetPutAsns(asns[1..], wide, rest);
      assert SeenAll(asns, wide) == [Seen(asns[0], wide)] + SeenAll(asns[1..], wide);
    }
  }

  // ----- aspath_put -----

  function SegSize(n: nat, wide: bool): nat {
    2 + DataSize(n, wide)
  }

  /** The bytes of one segment from ASN number `written` on.  Every full chunk is
      taken from the start of the segment, as the code does. */
  function PutSegment(s: Segment, written: nat, wide: bool): seq<byte>
    requires written <= |s.asns|
    decreases |s.asns| - written
  {
    if |s.asns| - written > AS_SEGMENT_MAX
    then [Code(s.typ), 255] + PutAsns(s.asns[..255], wide) + PutSegment(s, written + 255, wide)
    else [Code(s.typ), |s.asns| - written] + PutAsns(s.asns[written..], wide)
  }

  /** What the code adds to its byte count for the same segment: a full chunk
      counts for all ASNs written so far. */
  function CountSegment(n: nat, written: nat, wide: bool): nat
    requires written <= n
    decreases n - written
  {
    if n - written > AS_SEGMENT_MAX
    then SegSize(written + 255, wide) + CountSegment(n, written + 255, wide)
    else SegSize(n - written, wide)
  }

  predicate PackableNow(a: Segment, b: Segment) {
    Packable(a, b) && |a.asns| + |b.asns| <= AS_SEGMENT_MAX
  }

  /** How many of the following segments are packed into the first one. */
  function Packed(s: Segment, rest: Path): (k: nat)
    ensures k <= |rest|
  {
    if rest == [] || !PackableNow(s, rest[0]) then 0 else 1 + Packed(s, rest[1..])
  }

  function PackedData(rest: Path, k: nat, wide: bool): seq<byte>
    requires k <= |rest|
  {
    if k == 0 then [] else PackedData(rest, k - 1, wide) + PutAsns(rest[k - 1].asns, wide)
  }

  function PackedAsns(rest: Path, k: nat): nat
    requires k <= |rest|
  {
    if k == 0 then 0 else PackedAsns(rest, k - 1) + |rest[k - 1].asns|
  }

  /** A segment with packed data appended and the given length byte. */
  function Filled(s: Segment, length: byte, packed: seq<byte>, wide: bool): (r: seq<byte>)
    ensures |r| >= 2
  {
    [Code(s.typ), length] + (PutAsns(s.asns, wide) + packed)
  }

  /** The bytes written for a segment and the k segments packed into it.
      Packing rewrites the length byte from the last packed segment alone. */
  function PutPacked(s: Segment, rest: Path, k: nat, wide: bool): seq<byte>
    requires k <= |rest|
  {
    if k == 0 then PutSegment(s, 0, wide)
    else Filled(s, (|s.asns| + |rest[k - 1].asns|) % 256, PackedData(rest, k, wide), wide)
  }

  function CountPacked(s: Segment, rest: Path, k: nat, wide: bool): nat
    requires k <= |rest|
  {
    if k == 0 then CountSegment(|s.asns|, 0, wide) else SegSize(|s.asns| + PackedAsns(rest, k), wide)
  }

  /** What one round of aspath_put takes: a segment, and the first k of those after it
      packed into it. */
  datatype RawGroup = Group(head: Segment, rest: Path, k: nat)
  type Group = g: RawGroup | g.k <= |g.rest| witness Group(Segment(AsSet, []), [], 0)

  function FirstGroup(p: Path): Group
    requires |p| > 0
  {
    Group(p[0], p[1..], Packed(p[0], p[1..]))
  }

  function Groups(p: Path): seq<Group>
    decreases |p|
  {
    if p == [] then [] else [FirstGroup(p)] + Groups(p[1 + FirstGroup(p).k..])
  }

  function GroupBytes(g: Group, wide: bool): seq<byte> {
    PutPacked(g.head, g.rest, g.k, wide)
  }

  function GroupCount(g: Group, wide: bool): nat {
    CountPacked(g.head, g.rest, g.k, wide)
  }

  // ----- a stream that can be full -----

  /** Calls of stream_putc, stream_putw and stream_putl in a row, one unit each from
      unit i on, on a stream with the given room: a unit that does not fit is
      dropped, and a shorter one after it may fit again. */
  function FitFrom(units: seq<seq<byte>>, i: nat, room: nat): (s: seq<byte>)
    requires i <= |units|
    ensures |s| <= room
    decreases |units| - i
  {
    if i == |units| then []
    else if |units[i]| <= room then units[i] + FitFrom(units, i + 1, room - |units[i]|)
    else FitFrom(units, i + 1, room)
  }

  function Fit(units: seq<seq<byte>>, room: nat): (s: seq<byte>) {
    FitFrom(units, 0, room)
  }

  function FlatFrom(units: seq<seq<byte>>, i: nat): seq<byte>
    requires i <= |units|
    decreases |units| - i
  {
    if i == |units| then [] else units[i] + FlatFrom(units, i + 1)
  }

  /** All units, as if there were room for them. */
  function Flat(units: seq<seq<byte>>): seq<byte> {
    FlatFrom(units, 0)
  }

  function AsnUnits(asns: seq<Asn>, wide: bool): (r: seq<seq<byte>>)
    ensures |r| == |asns|
  {
    seq(|asns|, i requires 0 <= i < |asns| => PutAsn(asns[i], wide))
  }

  function HeaderUnits(typ: SegType, length: byte): seq<seq<byte>> {
    [[Code(typ)], [length]]
  }

  /** The units of PutSegment. */
  function SegmentUnits(s: Segment, written: nat, wide: bool): seq<seq<byte>>
    requires written <= |s.asns|
    decreases |s.asns| - written
  {
    if |s.asns| - written > AS_SEGMENT_MAX
    then (HeaderUnits(s.typ, 255) + AsnUnits(s.asns[..255], wide)) + SegmentUnits(s, written + 255, wide)
    else HeaderUnits(s.typ, |s.asns| - written) + AsnUnits(s.asns[written..], wide)
  }

  function PackedUnits(rest: Path, k: nat, wide: bool): seq<seq<byte>>
    requires k <= |rest|
  {
    if k == 0 then [] else PackedUnits(rest, k - 1, wide) + AsnUnits(rest[k - 1].asns, wide)
  }

  /** A segment whose header fits, with packed data as far as that fits. */
  function FilledIn(s: Segment, length: byte, rest: Path, k: nat, room: nat, wide: bool): (r: seq<byte>)
    requires k <= |rest| && room >= 2
    ensures 2 <= |r| <= room
  {
    [Code(s.typ), length] + Fit(AsnUnits(s.asns, wide) + PackedUnits(rest, k, wide), room - 2)
  }

  function PutPackedIn(s: Segment, rest: Path, k: nat, room: nat, wide: bool): (r: seq<byte>)
    requires k <= |rest| && room >= 2
    ensures |r| <= room
  {
    if k == 0 then Fit(SegmentUnits(s, 0, wide), room)
    else FilledIn(s, (|s.asns| + |rest[k - 1].asns|) % 256, rest, k, room, wide)
  }

  /** What of GroupBytes ends up on a stream with the given room. */
  function GroupIn(g: Group, room: nat, wide: bool): (r: seq<byte>)
    requires room >= 2
    ensures |r| <= room
  {
    PutPackedIn(g.head, g.rest, g.k, room, wide)
  }

  function After(stream: seq<byte>, bytes: nat, rest: (seq<byte>, nat)): (seq<byte>, nat) {
    (stream + rest.0, bytes + rest.1)
  }

  /** The guard of the loop asks for room for the segment as if that had one header
      and nothing were packed into it. */
  predicate Stops(gs: seq<Group>, room: nat, wide: bool) {
    gs == [] || SegSize(|gs[0].head.asns|, wide) > room
  }

  /** The loop of aspath_put over a stream with the given room. */
  function Put(gs: seq<Group>, room: nat, wide: bool): (seq<byte>, nat)
    decreases |gs|
  {
    if Stops(gs, room, wide) then ([], 0)
    else
      var first := GroupIn(gs[0], room, wide);
      After(first, GroupCount(gs[0], wide), Put(gs[1..], room - |first|, wide))
  }

  /** aspath_put: the bytes written and the count returned. */
  function AspathPut(p: Path, room: nat, wide: bool): (r: (seq<byte>, nat)) {
    if p == [] || p[0].asns == [] then ([], 0) else Put(Groups(p), room, wide)
  }

  // ----- assegments_parse -----

  function ParseRaw(s: seq<byte>, wide: bool): Option<Path>
    decreases |s|
  {
    if s == [] then Some([])
    else if |s| <= 2 || s[1] == 0 || SegSize(s[1], wide) > |s| || Decode(s[0]).None? then None
    else
      var size := SegSize(s[1], wide);
      match ParseRaw(s[size..], wide)
      case None => None
      case Some(rest) => Some([Segment(Decode(s[0]).value, GetAsns(s[2..], s[1], wide))] + rest)
  }

  /** assegments_parse on a stream holding s. */
  function AssegmentsParse(s: seq<byte>, length: nat, wide: bool): Option<Path> {
    if length == 0 then Some([])
    else if |s| < length || |s| < 2 || length % 2 != 0 then None
    else
      match ParseRaw(s[..length], wide)
      case None => None
      case Some(p) => Some(Normal(p))
  }

  // ----- the loops -----

  lemma {:induction false} FitSuffix(a: seq<seq<byte>>, b: seq<seq<byte>>, j: nat, room: nat)
    requires j <= |b|
    ensures FitFrom(a + b, |a| + j, room) == FitFrom(b, j, room)
    decreases |b| - j
  {
    if j < |b| {
      FitSuffix(a, b, j + 1, if |b[j]| <= room then room - |b[j]| else room);
    }
  }

  lemma {:induction false} FitPrefix(a: seq<seq<byte>>, b: seq<seq<byte>>, i: nat, room: nat)
    requires i <= |a|
    ensures var first := FitFrom(a, i, room);
            FitFrom(a + b, i, room) == first + FitFrom(b, 0, room - |first|)
    decreases |a| - i
  {
    if i == |a| {
      FitSuffix(a, b, 0, room);
    } else {
      var left := if |a[i]| <= room then room - |a[i]| else room;
      var first := FitFrom(a, i + 1, left);
      FitPrefix(a, b, i + 1, left);
      Associates(a[i], first, FitFrom(b, 0, left - |first|));
    }
  }

  lemma FitConcat(a: seq<seq<byte>>, b: seq<seq<byte>>, room: nat)
    ensures Fit(a + b, room) == Fit(a, room) + Fit(b, room - |Fit(a, room)|)
  {
    FitPrefix(a, b, 0, room);
  }

  /** Writing a after what is on the stream, and then b. */
  lemma FitOn(stream: seq<byte>, a: seq<seq<byte>>, b: seq<seq<byte>>, room: nat)
    requires |stream| <= room
    ensures var on := stream + Fit(a, room - |stream|);
            |on| <= room && stream + Fit(a + b, room - |stream|) == on + Fit(b, room - |on|)
  {
    var left := room - |stream|;
    FitConcat(a, b, left);
    Associates(stream, Fit(a, left), Fit(b, left - |Fit(a, left)|));
  }

  lemma {:induction false} FitAllFrom(units: seq<seq<byte>>, i: nat, room: nat)
    requires i <= |units| && |FlatFrom(units, i)| <= room
    ensures FitFrom(units, i, room) == FlatFrom(units, i)
    decreases |units| - i
  {
    if i < |units| {
      FitAllFrom(units, i + 1, room - |units[i]|);
    }
  }

  lemma FitAll(units: seq<seq<byte>>, room: nat)
    requires |Flat(units)| <= room
    ensures Fit(units, room) == Flat(units)
  {
    FitAllFrom(units, 0, room);
  }

  lemma {:induction false} FlatSuffix(a: seq<seq<byte>>, b: seq<seq<byte>>, j: nat)
    requires j <= |b|
    ensures FlatFrom(a + b, |a| + j) == FlatFrom(b, j)
    decreases |b| - j
  {
    if j < |b| {
      FlatSuffix(a, b, j + 1);
    }
  }

  lemma {:induction false} FlatPrefix(a: seq<seq<byte>>, b: seq<seq<byte>>, i: nat)
    requires i <= |a|
    ensures FlatFrom(a + b, i) == FlatFrom(a, i) + FlatFrom(b, 0)
    decreases |a| - i
  {
    if i == |a| {
      FlatSuffix(a, b, 0);
    } else {
      FlatPrefix(a, b, i + 1);
      Associates(a[i], FlatFrom(a, i + 1), FlatFrom(b, 0));
    }
  }

  lemma FlatConcat(a: seq<seq<byte>>, b: seq<seq<byte>>)
    ensures Flat(a + b) == Flat(a) + Flat(b)
  {
    FlatPrefix(a, b, 0);
  }

  lemma HeaderFits(typ: SegType, length: byte, room: nat)
    requires room >= 2
    ensures Flat(HeaderUnits(typ, length)) == [Code(typ), length]
    ensures Fit(HeaderUnits(typ, length), room) == [Code(typ), length]
  {
    var header := HeaderUnits(typ, length);
    assert FlatFrom(header, 1) == [length] + FlatFrom(header, 2);
    FitAll(header, room);
  }

  /** One of stream_putc, stream_putw and stream_putl. */
  method StreamPut(stream: seq<byte>, room: nat, unit: seq<byte>) returns (after: seq<byte>)
    requires |stream| <= room
    ensures after == stream + Fit([unit], room - |stream|)
  {
    if room - |stream| < |unit| {
      assert FitFrom([unit], 0, room - |stream|) == FitFrom([unit], 1, room - |stream|);
      assert stream + [] == stream;
      return stream;
    }
    assert FitFrom([unit], 0, room - |stream|) == unit + FitFrom([unit], 1, room - |stream| - |unit|);
    assert unit + [] == unit;
    return stream + unit;
  }

  lemma FitNext(stream: seq<byte>, units: seq<seq<byte>>, i: nat, room: nat)
    requires i < |units| && |stream| <= room
    ensures var on := stream + Fit([units[i]], room - |stream|);
            |on| <= room && stream + FitFrom(units, i, room - |stream|) == on + FitFrom(units, i + 1, room - |on|)
  {
    var left, one := room - |stream|, [units[i]];
    if |units[i]| <= left {
      assert FitFrom(one, 0, left) == units[i] + FitFrom(one, 1, left - |units[i]|);
      assert units[i] + [] == units[i];
    }
    Associates(stream, Fit(one, left), FitFrom(units, i + 1, left - |Fit(one, left)|));
  }

  /** assegment_data_put. */
  method PutData(stream: seq<byte>, room: nat, asns: seq<Asn>, wide: bool) returns (after: seq<byte>)
    requires |stream| <= room
    ensures after == stream + Fit(AsnUnits(asns, wide), room - |stream|)
  {
    ghost var units := AsnUnits(asns, wide);
    ghost var all := stream + Fit(units, room - |stream|);
    after := stream;
    for i := 0 to |asns|
      invariant |after| <= room && all == after + FitFrom(units, i, room - |after|)
    {
      FitNext(after, units, i, room);
      after := StreamPut(after, room, PutAsn(asns[i], wide));
    }
    assert after + [] == after;
  }

  /** assegment_header_put. */
  method PutHeader(stream: seq<byte>, room: nat, typ: SegType, length: byte) returns (after: seq<byte>)
    requires |stream| <= room
    ensures after == stream + Fit(HeaderUnits(typ, length), room - |stream|)
  {
    assert HeaderUnits(typ, length) == [[Code(typ)]] + [[length]];
    FitOn(stream, [[Code(typ)]], [[length]], room);
    after := StreamPut(stream, room, [Code(typ)]);
    after := StreamPut(after, room, [length]);
  }

  /** A header and the ASNs behind it. */
  method PutChunk(stream: seq<byte>, room: nat, typ: SegType, asns: seq<Asn>, wide: bool) returns (after: seq<byte>)
    requires |stream| <= room && |asns| <= AS_SEGMENT_MAX
    ensures after == stream + Fit(HeaderUnits(typ, |asns|) + AsnUnits(asns, wide), room - |stream|)
  {
    FitOn(stream, HeaderUnits(typ, |asns|), AsnUnits(asns, wide), room);
    after := PutHeader(stream, room, typ, |asns|);
    after := PutData(after, room, asns, wide);
  }

  /** The chunk loop of aspath_put and the final, possibly only, chunk. */
  method WriteSegment(seg: Segment, room: nat, wide: bool) returns (stream: seq<byte>, bytes: nat)
    ensures stream == Fit(SegmentUnits(seg, 0, wide), room) && bytes == CountSegment(|seg.asns|, 0, wide)
  {
    ghost var all, count := Fit(SegmentUnits(seg, 0, wide), room), CountSegment(|seg.asns|, 0, wide);
    var written := 0;
    stream, bytes := [], 0;
    assert [] + all == all;
    while |seg.asns| - written > AS_SEGMENT_MAX
      invariant 0 <= written <= |seg.asns| && |stream| <= room
      invariant all == stream + Fit(SegmentUnits(seg, written, wide), room - |stream|)
      invariant count == bytes + CountSegment(|seg.asns|, written, wide)
    {
      FitOn(stream, HeaderUnits(seg.typ, 255) + AsnUnits(seg.asns[..255], wide),
            SegmentUnits(seg, written + 255, wide), room);
      stream := PutChunk(stream, room, seg.typ, seg.asns[..255], wide);
      written := written + AS_SEGMENT_MAX;
      bytes := bytes + SegSize(written, wide);
    }
    stream := PutChunk(stream, room, seg.typ, seg.asns[written..], wide);
    bytes := bytes + SegSize(|seg.asns| - written, wide);
  }

  lemma Refill(a: byte, was: byte, data: seq<byte>, more: seq<byte>, length: byte)
    ensures (([a, was] + data) + more)[1 := length] == [a, length] + (data + more)
  {
  }

  /** What the packing loop has written after k segments. */
  ghost predicate Packing(seg: Segment, rest: Path, k: nat, packed: nat, stream: seq<byte>, room: nat, wide: bool) {
    && |seg.asns| <= AS_SEGMENT_MAX && k <= Packed(seg, rest) && packed == PackedAsns(rest, k) && room >= 2
    && (k > 0 ==> PackableNow(seg, rest[k - 1]))
    && stream == FilledIn(seg, |seg.asns| + (if k == 0 then 0 else |rest[k - 1].asns|), rest, k, room, wide)
  }

  /** Packing goes on just as long as AS_SEQUENCEs follow that each fit behind the first
      one, whatever is packed there already. */
  lemma {:induction false} PackedOn(seg: Segment, rest: Path, k: nat)
    requires k <= Packed(seg, rest)
    ensures k < Packed(seg, rest) <==>
            k < |rest| && seg.typ == rest[k].typ == AsSequence && |seg.asns| + |rest[k].asns| <= 255
    decreases k
  {
    if k > 0 {
      PackedOn(seg, rest[1..], k - 1);
    }
  }

  lemma PackedFit(s: Segment, rest: Path, k: nat, room: nat, wide: bool)
    requires k < |rest|
    ensures var data := Fit(AsnUnits(s.asns, wide) + PackedUnits(rest, k, wide), room);
            Fit(AsnUnits(s.asns, wide) + PackedUnits(rest, k + 1, wide), room) ==
            data + Fit(AsnUnits(rest[k].asns, wide), room - |data|)
  {
    var own, before, units := AsnUnits(s.asns, wide), PackedUnits(rest, k, wide), AsnUnits(rest[k].asns, wide);
    FitConcat(own + before, units, room);
    Associates(own, before, units);
  }

  /** The data of one more segment, and the new length byte. */
  lemma FilledMore(s: Segment, was: byte, length: byte, rest: Path, k: nat, room: nat, wide: bool)
    requires k < |rest| && room >= 2
    ensures var stream := FilledIn(s, was, rest, k, room, wide);
            var more := Fit(AsnUnits(rest[k].asns, wide), room - |stream|);
            (stream + more)[1 := length] == FilledIn(s, length, rest, k + 1, room, wide)
  {
    var data := Fit(AsnUnits(s.asns, wide) + PackedUnits(rest, k, wide), room - 2);
    PackedFit(s, rest, k, room - 2, wide);
    Refill(Code(s.typ), was, data, Fit(AsnUnits(rest[k].asns, wide), room - 2 - |data|), length);
  }

  lemma PackStep(seg: Segment, rest: Path, k: nat, packed: nat, stream: seq<byte>, room: nat, wide: bool)
    requires Packing(seg, rest, k, packed, stream, room, wide) && k < |rest| && PackableNow(seg, rest[k])
    ensures 2 <= |stream| <= room
    ensures var more := Fit(AsnUnits(rest[k].asns, wide), room - |stream|);
            Packing(seg, rest, k + 1, packed + |rest[k].asns|,
                    (stream + more)[1 := |seg.asns| + |rest[k].asns|], room, wide)
  {
    PackedOn(seg, rest, k);
    var was := |seg.asns| + if k == 0 then 0 else |rest[k - 1].asns|;
    FilledMore(seg, was, |seg.asns| + |rest[k].asns|, rest, k, room, wide);
  }

  /** Unpacked, the segment is as SegmentUnits has it. */
  lemma FilledAlone(s: Segment, rest: Path, room: nat, wide: bool)
    requires |s.asns| <= AS_SEGMENT_MAX && room >= 2
    ensures Fit(SegmentUnits(s, 0, wide), room) == FilledIn(s, |s.asns|, rest, 0, room, wide)
  {
    var header, data := HeaderUnits(s.typ, |s.asns|), AsnUnits(s.asns, wide);
    assert s.asns[0..] == s.asns && data + [] == data;
    FitConcat(header, data, room);
    HeaderFits(s.typ, |s.asns|, room);
  }

  lemma PackedIs(seg: Segment, rest: Path, k: nat, packed: nat, stream: seq<byte>, room: nat, wide: bool)
    requires Packing(seg, rest, k, packed, stream, room, wide)
    ensures stream == PutPackedIn(seg, rest, k, room, wide)
    ensures SegSize(|seg.asns| + packed, wide) == CountPacked(seg, rest, k, wide)
  {
    if k == 0 {
      FilledAlone(seg, rest, room, wide);
    } else {
      assert (|seg.asns| + |rest[k - 1].asns|) % 256 == |seg.asns| + |rest[k - 1].asns|;
    }
  }

  /** One round of the packing loop. */
  method PackOne(seg: Segment, next: Segment, stream: seq<byte>, packed: nat, room: nat, wide: bool,
                 ghost rest: Path, ghost k: nat)
    returns (stream': seq<byte>, packed': nat)
    requires Packing(seg, rest, k, packed, stream, room, wide)
    requires k < |rest| && rest[k] == next && PackableNow(seg, next)
    ensures Packing(seg, rest, k + 1, packed', stream', room, wide)
  {
    PackStep(seg, rest, k, packed, stream, room, wide);
    var lenp := 1;
    stream' := PutData(stream, room, next.asns, wide);
    stream' := stream'[lenp := |seg.asns| + |next.asns|];
    packed' := packed + |next.asns|;
  }

  /** The packing loop: the data of following segments is appended as far as it fits,
      and each time the length byte of the segment is overwritten. */
  method PackSegments(seg: Segment, rest: Path, room: nat, wide: bool)
    returns (stream: seq<byte>, bytes: nat, k: nat)
    requires |seg.asns| <= AS_SEGMENT_MAX && room >= 2
    ensures k == Packed(seg, rest)
    ensures stream == PutPackedIn(seg, rest, k, room, wide) && bytes == CountPacked(seg, rest, k, wide)
  {
    var packed: nat, next := 0, rest;
    k := 0;
    stream, bytes := WriteSegment(seg, room, wide);
    FilledAlone(seg, rest, room, wide);
    while next != [] && PackableNow(seg, next[0])
      invariant k <= |rest| && next == rest[k..]
      invariant Packing(seg, rest, k, packed, stream, room, wide)
      decreases |next|
    {
      stream, packed := PackOne(seg, next[0], stream, packed, room, wide, rest, k);
      next := next[1..];
      k := k + 1;
    }
    bytes := SegSize(|seg.asns| + packed, wide);
    PackedOn(seg, rest, k);
    PackedIs(seg, rest, k, packed, stream, room, wide);
  }

  /** What is written so far, and what the groups left over add to it. */
  ghost predicate Writing(all: (seq<byte>, nat), stream: seq<byte>, bytes: nat, gs: seq<Group>, left: nat, wide: bool) {
    all == After(stream, bytes, Put(gs, left, wide))
  }

  /** aspath_put on a stream with the given room. */
  method WritePath(p: Path, room: nat, wide: bool) returns (stream: seq<byte>, bytes: nat)
    ensures (stream, bytes) == AspathPut(p, room, wide)
  {
    if p == [] || p[0].asns == [] {
      return [], 0;
    }
    AfterNothing(Put(Groups(p), room, wide));
    stream, bytes := WriteSegments(p, room, wide, Put(Groups(p), room, wide));
  }

  /** The loop of aspath_put. */
  method WriteSegments(p: Path, room: nat, wide: bool, ghost all: (seq<byte>, nat))
    returns (stream: seq<byte>, bytes: nat)
    requires Writing(all, [], 0, Groups(p), room, wide)
    ensures (stream, bytes) == all
  {
    stream, bytes := [], 0;
    var segs, left := p, room;
    ghost var gs := Groups(p);
    GroupsUnfold(segs);
    while segs != [] && SegSize(|segs[0].asns|, wide) <= left
      invariant Begins(gs, segs) && gs == Groups(segs) && Writing(all, stream, bytes, gs, left, wide)
      decreases |segs|
    {
      ghost var before := segs;
      stream, bytes, segs, left := WriteRound(stream, bytes, segs, left, wide, all, gs);
      gs := gs[1..];
      GroupsUnfold(before);
      GroupsUnfold(segs);
    }
    WriteEnd(stream, bytes, gs, left, wide);
  }

  ghost predicate Begins(gs: seq<Group>, p: Path) {
    if p == [] then gs == [] else gs != [] && gs[0] == FirstGroup(p)
  }

  lemma GroupsUnfold(p: Path)
    ensures Begins(Groups(p), p)
    ensures p != [] ==> Groups(p)[1..] == Groups(p[1 + FirstGroup(p).k..])
  {
  }

  method WriteRound(stream: seq<byte>, bytes: nat, segs: Path, left: nat, wide: bool,
                    ghost all: (seq<byte>, nat), ghost gs: seq<Group>)
    returns (stream': seq<byte>, bytes': nat, segs': Path, left': nat)
    requires segs != [] && SegSize(|segs[0].asns|, wide) <= left
    requires Begins(gs, segs) && Writing(all, stream, bytes, gs, left, wide)
    ensures Writing(all, stream', bytes', gs[1..], left', wide) && segs' == segs[1 + FirstGroup(segs).k..]
  {
    var first, count, k := WriteFirst(segs, left, wide);
    WriteStep(stream, bytes, gs, left, wide);
    stream', bytes' := stream + first, bytes + count;
    left' := left - |first|;
    segs' := segs[1 + k..];
  }

  lemma AfterNothing(r: (seq<byte>, nat))
    ensures After([], 0, r) == r
  {
    assert [] + r.0 == r.0;
  }

  lemma AfterTwice(a: seq<byte>, m: nat, b: seq<byte>, n: nat, r: (seq<byte>, nat))
    ensures After(a, m, After(b, n, r)) == After(a + b, m + n, r)
  {
    assert a + (b + r.0) == (a + b) + r.0;
  }

  lemma WriteStep(stream: seq<byte>, bytes: nat, gs: seq<Group>, room: nat, wide: bool)
    requires !Stops(gs, room, wide)
    ensures var first, count := GroupIn(gs[0], room, wide), GroupCount(gs[0], wide);
            After(stream, bytes, Put(gs, room, wide)) ==
            After(stream + first, bytes + count, Put(gs[1..], room - |first|, wide))
  {
    var first, count := GroupIn(gs[0], room, wide), GroupCount(gs[0], wide);
    AfterTwice(stream, bytes, first, count, Put(gs[1..], room - |first|, wide));
  }

  lemma WriteEnd(stream: seq<byte>, bytes: nat, gs: seq<Group>, room: nat, wide: bool)
    requires Stops(gs, room, wide)
    ensures After(stream, bytes, Put(gs, room, wide)) == (stream, bytes)
  {
    assert stream + [] == stream;
  }

  /** One round of aspath_put: a segment and what is packed into it. */
  method WriteFirst(p: Path, room: nat, wide: bool) returns (stream: seq<byte>, bytes: nat, k: nat)
    requires |p| > 0 && room >= 2
    ensures k == FirstGroup(p).k && stream == GroupIn(FirstGroup(p), room, wide)
    ensures bytes == GroupCount(FirstGroup(p), wide)
  {
    if |p[0].asns| <= AS_SEGMENT_MAX {
      stream, bytes, k := PackSegments(p[0], p[1..], room, wide);
    } else {
      stream, bytes := WriteSegment(p[0], room, wide);
      k := 0;
    }
  }

  /** The path after segs were read and s is left. */
  function ParsedAfter(segs: Path, s: seq<byte>, wide: bool): Option<Path> {
    match ParseRaw(s, wide)
    case None => None
    case Some(rest) => Some(segs + rest)
  }

  predicate Malformed(s: seq<byte>, wide: bool) {
    |s| <= 2 || s[1] == 0 || SegSize(s[1], wide) > |s| || Decode(s[0]).None?
  }

  lemma ReadStep(segs: Path, s: seq<byte>, wide: bool)
    requires !Malformed(s, wide)
    ensures var seg := Segment(Decode(s[0]).value, GetAsns(s[2..], s[1], wide));
            ParsedAfter(segs, s, wide) == ParsedAfter(segs + [seg], s[SegSize(s[1], wide)..], wide)
  {
    var seg := Segment(Decode(s[0]).value, GetAsns(s[2..], s[1], wide));
    var later := ParseRaw(s[SegSize(s[1], wide)..], wide);
    if later.Some? {
      assert segs + ([seg] + later.value) == (segs + [seg]) + later.value;
    }
  }

  /** The loop of assegments_parse. */
  method ReadSegments(s: seq<byte>, wide: bool) returns (r: Option<Path>)
    ensures r == ParseRaw(s, wide)
  {
    var left, segs := s, [];
    if ParseRaw(s, wide).Some? {
      assert [] + ParseRaw(s, wide).value == ParseRaw(s, wide).value;
    }
    while left != []
      invariant ParsedAfter(segs, left, wide) == ParseRaw(s, wide)
      decreases |left|
    {
      if |left| <= 2 {
        return None;
      }
      var size := SegSize(left[1], wide);
      if size > |left| || left[1] == 0 || Decode(left[0]).None? {
        return None;
      }
      ReadStep(segs, left, wide);
      segs := segs + [Segment(Decode(left[0]).value, GetAsns(left[2..], left[1], wide))];
      left := left[size..];
    }
    assert segs + [] == segs;
    return Some(segs);
  }

  /** assegments_parse. */
  method ReadPath(s: seq<byte>, length: nat, wide: bool) returns (r: Option<Path>)
    ensures r == AssegmentsParse(s, length, wide)
  {
    if length == 0 {
      return Some([]);
    }
    if |s| < length || |s| < 2 || length % 2 != 0 {
      return None;
    }
    r := ReadSegments(s[..length], wide);
    if r.Some? {
      var p := Normalise(r.value);
      r := Some(p);
    }
  }

  // ----- normalised paths are written segment by segment -----

  function Wire(p: Path, wide: bool): seq<byte> {
    if p == [] then [] else PutSegment(p[0], 0, wide) + Wire(p[1..], wide)
  }

  function WireCount(p: Path, wide: bool): nat {
    if p == [] then 0 else CountSegment(|p[0].asns|, 0, wide) + WireCount(p[1..], wide)
  }

  lemma {:induction false} PutSegmentSize(s: Segment, written: nat, wide: bool)
    requires written <= |s.asns|
    ensures |PutSegment(s, written, wide)| >= SegSize(|s.asns| - written, wide)
    ensures CountSegment(|s.asns|, written, wide) >= |PutSegment(s, written, wide)|
    ensures CountSegment(|s.asns|, written, wide) == |PutSegment(s, written, wide)| <==>
            (written == 0 && |s.asns| <= 510) || |s.asns| - written <= 255
    decreases |s.asns| - written
  {
    if |s.asns| - written > 255 {
      PutSegmentSize(s, written + 255, wide);
    }
  }

  lemma NothingPacked(p: Path)
    requires NoAdjacent(p) && |p| > 0
    ensures FirstGroup(p) == Group(p[0], p[1..], 0) && NoAdjacent(p[1..]) && Groups(p)[1..] == Groups(p[1..])
  {
  }

  lemma {:induction false} FlatAsnsFrom(asns: seq<Asn>, i: nat, wide: bool)
    requires i <= |asns|
    ensures FlatFrom(AsnUnits(asns, wide), i) == PutAsns(asns[i..], wide)
    decreases |asns| - i
  {
    if i < |asns| {
      FlatAsnsFrom(asns, i + 1, wide);
      assert asns[i..][1..] == asns[i + 1..];
    }
  }

  lemma FlatAsns(asns: seq<Asn>, wide: bool)
    ensures Flat(AsnUnits(asns, wide)) == PutAsns(asns, wide)
  {
    FlatAsnsFrom(asns, 0, wide);
    assert asns[0..] == asns;
  }

  lemma FlatChunk(typ: SegType, length: byte, asns: seq<Asn>, wide: bool)
    ensures Flat(HeaderUnits(typ, length) + AsnUnits(asns, wide)) == [Code(typ), length] + PutAsns(asns, wide)
  {
    var header := HeaderUnits(typ, length);
    FlatConcat(header, AsnUnits(asns, wide));
    FlatAsns(asns, wide);
    HeaderFits(typ, length, 2);
  }

  lemma {:induction false} FlatSegment(s: Segment, written: nat, wide: bool)
    requires written <= |s.asns|
    ensures Flat(SegmentUnits(s, written, wide)) == PutSegment(s, written, wide)
    decreases |s.asns| - written
  {
    if |s.asns| - written > AS_SEGMENT_MAX {
      FlatChunk(s.typ, 255, s.asns[..255], wide);
      FlatSegment(s, written + 255, wide);
      FlatConcat(HeaderUnits(s.typ, 255) + AsnUnits(s.asns[..255], wide), SegmentUnits(s, written + 255, wide));
    } else {
      FlatChunk(s.typ, |s.asns| - written, s.asns[written..], wide);
    }
  }

  lemma FlatMore(units: seq<seq<byte>>, data: seq<byte>, asns: seq<Asn>, wide: bool)
    requires Flat(units) == data
    ensures Flat(units + AsnUnits(asns, wide)) == data + PutAsns(asns, wide)
  {
    FlatAsns(asns, wide);
    FlatConcat(units, AsnUnits(asns, wide));
  }

  lemma {:induction false} FlatPacked(rest: Path, k: nat, wide: bool)
    requires k <= |rest|
    ensures Flat(PackedUnits(rest, k, wide)) == PackedData(rest, k, wide)
  {
    if k > 0 {
      FlatPacked(rest, k - 1, wide);
      FlatMore(PackedUnits(rest, k - 1, wide), PackedData(rest, k - 1, wide), rest[k - 1].asns, wide);
    }
  }

  /** With enough room nothing is dropped. */
  lemma GroupFits(g: Group, room: nat, wide: bool)
    requires 2 <= room && |GroupBytes(g, wide)| <= room
    ensures GroupIn(g, room, wide) == GroupBytes(g, wide)
  {
    var s, rest, k := g.head, g.rest, g.k;
    if k == 0 {
      FlatSegment(s, 0, wide);
      FitAll(SegmentUnits(s, 0, wide), room);
    } else {
      var units := AsnUnits(s.asns, wide) + PackedUnits(rest, k, wide);
      FlatAsns(s.asns, wide);
      FlatPacked(rest, k, wide);
      FlatConcat(AsnUnits(s.asns, wide), PackedUnits(rest, k, wide));
      FitAll(units, room - 2);
    }
  }

  lemma PutAlone(p: Path, room: nat, wide: bool)
    requires NoAdjacent(p) && |p| > 0 && room >= |PutSegment(p[0], 0, wide)|
    ensures Put(Groups(p), room, wide) ==
            After(PutSegment(p[0], 0, wide), CountSegment(|p[0].asns|, 0, wide),
                  Put(Groups(p[1..]), room - |PutSegment(p[0], 0, wide)|, wide))
  {
    PutSegmentSize(p[0], 0, wide);
    GroupsUnfold(p);
    NothingPacked(p);
    GroupFits(FirstGroup(p), room, wide);
  }

  ghost predicate IsWire(r: (seq<byte>, nat), p: Path, wide: bool) {
    r.0 == Wire(p, wide) && r.1 == WireCount(p, wide)
  }

  lemma WireAfter(p: Path, wide: bool, r: (seq<byte>, nat))
    requires |p| > 0 && IsWire(r, p[1..], wide)
    ensures IsWire(After(PutSegment(p[0], 0, wide), CountSegment(|p[0].asns|, 0, wide), r), p, wide)
    ensures |Wire(p, wide)| == |PutSegment(p[0], 0, wide)| + |r.0|
  {
  }

  lemma {:induction false} PutIsWire(p: Path, room: nat, wide: bool)
    requires NoAdjacent(p) && room >= |Wire(p, wide)|
    ensures IsWire(Put(Groups(p), room, wide), p, wide)
    decreases |p|
  {
    if p != [] {
      WireAfter(p, wide, (Wire(p[1..], wide), WireCount(p[1..], wide)));
      var left := room - |PutSegment(p[0], 0, wide)|;
      PutIsWire(p[1..], left, wide);
      WireAfter(p, wide, Put(Groups(p[1..]), left, wide));
      PutAlone(p, room, wide);
    }
  }

  lemma {:induction false} WireCountIsRightIff(p: Path, wide: bool)
    ensures WireCount(p, wide) >= |Wire(p, wide)|
    ensures WireCount(p, wide) == |Wire(p, wide)| <==> forall i :: 0 <= i < |p| ==> |p[i].asns| <= 510
  {
    if p != [] {
      PutSegmentSize(p[0], 0, wide);
      WireCountIsRightIff(p[1..], wide);
      assert p == [p[0]] + p[1..];
    }
  }

  // ----- the returned count, for all paths and any room -----

  /** The room left over, if nothing is dropped. */
  function Minus(a: nat, b: nat): nat {
    if a >= b then a - b else 0
  }

  /** The segments the loop sets out to write with a header of their own. */
  function Heads(gs: seq<Group>, room: nat, wide: bool): Path
    decreases |gs|
  {
    if Stops(gs, room, wide) then []
    else [gs[0].head] + Heads(gs[1..], Minus(room, |GroupBytes(gs[0], wide)|), wide)
  }

  /** The bytes it sets out to write for them. */
  function Demand(gs: seq<Group>, room: nat, wide: bool): nat
    decreases |gs|
  {
    if Stops(gs, room, wide) then 0
    else |GroupBytes(gs[0], wide)| + Demand(gs[1..], Minus(room, |GroupBytes(gs[0], wide)|), wide)
  }

  predicate NoThirdChunk(heads: Path) {
    forall i :: 0 <= i < |heads| ==> |heads[i].asns| <= 510
  }

  lemma {:induction false} PackedDataSize(rest: Path, k: nat, wide: bool)
    requires k <= |rest|
    ensures |PackedData(rest, k, wide)| == DataSize(PackedAsns(rest, k), wide)
  {
    if k > 0 {
      PackedDataSize(rest, k - 1, wide);
    }
  }

  /** A segment and what the loop packs into it: only an overlong one is miscounted. */
  lemma CountOfGroup(g: Group, wide: bool)
    requires g.k > 0 ==> |g.head.asns| <= AS_SEGMENT_MAX
    ensures GroupCount(g, wide) >= |GroupBytes(g, wide)|
    ensures GroupCount(g, wide) == |GroupBytes(g, wide)| <==> |g.head.asns| <= 510
  {
    if g.k == 0 {
      PutSegmentSize(g.head, 0, wide);
    } else {
      PackedDataSize(g.rest, g.k, wide);
    }
  }

  /** Nothing is packed into an overlong segment. */
  predicate Sane(gs: seq<Group>) {
    forall i :: 0 <= i < |gs| ==> gs[i].k > 0 ==> |gs[i].head.asns| <= AS_SEGMENT_MAX
  }

  lemma {:induction false} GroupsAreSane(p: Path)
    ensures Sane(Groups(p))
    decreases |p|
  {
    if p != [] {
      GroupsUnfold(p);
      GroupsAreSane(p[1 + FirstGroup(p).k..]);
      var gs := Groups(p);
      assert forall i :: 0 < i < |gs| ==> gs[i] == gs[1..][i - 1];
    }
  }

  lemma HeadsUnfold(gs: seq<Group>, room: nat, wide: bool)
    requires !Stops(gs, room, wide)
    ensures var size := |GroupBytes(gs[0], wide)|;
            && Demand(gs, room, wide) == size + Demand(gs[1..], Minus(room, size), wide)
            && (NoThirdChunk(Heads(gs, room, wide)) <==>
                  |gs[0].head.asns| <= 510 && NoThirdChunk(Heads(gs[1..], Minus(room, size), wide)))
  {
    var later, heads := Heads(gs[1..], Minus(room, |GroupBytes(gs[0], wide)|), wide), Heads(gs, room, wide);
    assert heads[0] == gs[0].head && heads[1..] == later;
    assert forall i :: 0 < i < |heads| ==> heads[i] == heads[1..][i - 1];
  }

  /** The count is right exactly if nothing is dropped and no segment has a third
      chunk. */
  ghost predicate CountedWell(bytes: nat, count: nat, gs: seq<Group>, room: nat, wide: bool) {
    && bytes <= room && bytes <= count
    && (count == bytes <==> Demand(gs, room, wide) <= room && NoThirdChunk(Heads(gs, room, wide)))
  }

  /** One round in which `first` bytes are written. */
  lemma CountedRound(gs: seq<Group>, room: nat, wide: bool, first: nat, bytes: nat, count: nat)
    requires !Stops(gs, room, wide) && Sane(gs)
    requires first <= room && (|GroupBytes(gs[0], wide)| <= room ==> first == |GroupBytes(gs[0], wide)|)
    requires CountedWell(bytes, count, gs[1..], room - first, wide)
    ensures CountedWell(first + bytes, GroupCount(gs[0], wide) + count, gs, room, wide)
  {
    CountOfGroup(gs[0], wide);
    HeadsUnfold(gs, room, wide);
  }

  /** The sizes of one round. */
  lemma PutSizes(gs: seq<Group>, room: nat, wide: bool) returns (first: nat)
    requires !Stops(gs, room, wide)
    ensures first <= room && (|GroupBytes(gs[0], wide)| <= room ==> first == |GroupBytes(gs[0], wide)|)
    ensures |Put(gs, room, wide).0| == first + |Put(gs[1..], room - first, wide).0|
    ensures Put(gs, room, wide).1 == GroupCount(gs[0], wide) + Put(gs[1..], room - first, wide).1
  {
    first := |GroupIn(gs[0], room, wide)|;
    if |GroupBytes(gs[0], wide)| <= room {
      GroupFits(gs[0], room, wide);
    }
  }

  lemma {:induction false} PutCount(gs: seq<Group>, room: nat, wide: bool)
    requires Sane(gs)
    ensures CountedWell(|Put(gs, room, wide).0|, Put(gs, room, wide).1, gs, room, wide)
    decreases |gs|
  {
    if !Stops(gs, room, wide) {
      var first := PutSizes(gs, room, wide);
      var later := Put(gs[1..], room - first, wide);
      PutCount(gs[1..], room - first, wide);
      CountedRound(gs, room, wide, first, |later.0|, later.1);
    }
  }

  /** aspath_put never writes past the room.  The count it returns is never less than
      the bytes it writes, and equal to them if and only if all it sets out to write
      fits the room and no segment of it needs a third chunk. */
  lemma CountIsRightIff(p: Path, room: nat, wide: bool)
    ensures var ((bytes, count), gs) := (AspathPut(p, room, wide), Groups(p));
            && |bytes| <= room && |bytes| <= count
            && (count == |bytes| <==>
                  || p == [] || p[0].asns == []
                  || (Demand(gs, room, wide) <= room && NoThirdChunk(Heads(gs, room, wide))))
  {
    GroupsAreSane(p);
    PutCount(Groups(p), room, wide);
  }

  /** Two chunks need two headers, and the guard of the loop counts one: the last AS
      number is dropped, and counted. */
  lemma ShortRoomMiscounts(asns: seq<Asn>)
    requires |asns| == 256
    ensures var (bytes, count) := AspathPut([Segment(AsSequence, asns)], 1026, true);
            |bytes| == 1024 && count == 1028
  {
    var s := Segment(AsSequence, asns);
    var p, one, two := [s], HeaderUnits(AsSequence, 255) + AsnUnits(asns[..255], true), SegmentUnits(s, 255, true);
    GroupsUnfold(p);
    assert p[1..] == [] && FirstGroup(p) == Group(s, [], 0) && Groups(p)[1..] == [];
    FirstChunk(asns[..255], 1026);
    FitConcat(one, two, 1026);
    SecondChunk(s);
    assert |GroupIn(FirstGroup(p), 1026, true)| == 1024;
    assert GroupCount(FirstGroup(p), true) == SegSize(255, true) + CountSegment(256, 255, true);
    assert Put(Groups(p)[1..], 2, true) == ([], 0);
  }

  lemma FirstChunk(asns: seq<Asn>, room: nat)
    requires |asns| == 255 && room >= 1022
    ensures |Fit(HeaderUnits(AsSequence, 255) + AsnUnits(asns, true), room)| == 1022
  {
    FlatChunk(AsSequence, 255, asns, true);
    FitAll(HeaderUnits(AsSequence, 255) + AsnUnits(asns, true), room);
  }

  lemma SecondChunk(s: Segment)
    requires s.typ == AsSequence && |s.asns| == 256
    ensures |Fit(SegmentUnits(s, 255, true), 4)| == 2
  {
    var asn, header := s.asns[255], HeaderUnits(AsSequence, 1);
    assert s.asns[255..] == [asn];
    assert AsnUnits([asn], true) == [PutAsn(asn, true)];
    FitConcat(header, [PutAsn(asn, true)], 4);
    HeaderFits(AsSequence, 1, 4);
    assert FitFrom([PutAsn(asn, true)], 0, 2) == FitFrom([PutAsn(asn, true)], 1, 2);
  }

  // ----- what the receiver reads -----

  /** The segments a receiver sees for one segment of at most two chunks. */
  function Chunks(s: Segment, wide: bool): Path {
    var asns := SeenAll(s.asns, wide);
    if |asns| <= 255 then [Segment(s.typ, asns)]
    else [Segment(s.typ, asns[..255]), Segment(s.typ, asns[255..])]
  }

  function AllChunks(p: Path, wide: bool): Path {
    if p == [] then [] else Chunks(p[0], wide) + AllChunks(p[1..], wide)
  }

  /** One wire segment: type, length, ASNs. */
  function Framed(t: SegType, asns: seq<Asn>, wide: bool): seq<byte>
    requires |asns| <= 255
  {
    [Code(t), |asns|] + PutAsns(asns, wide)
  }

  lemma HeaderLayout(a: byte, b: byte, data: seq<byte>, rest: seq<byte>)
    ensures var s := ([a, b] + data) + rest;
            && |s| == 2 + |data| + |rest| && s[0] == a && s[1] == b && s[2..] == data + rest && s[2 + |data|..] == rest
  {
  }

  lemma FramedLayout(t: SegType, asns: seq<Asn>, wide: bool, rest: seq<byte>)
    requires 0 < |asns| <= 255
    ensures var s := Framed(t, asns, wide) + rest;
            && |s| == SegSize(|asns|, wide) + |rest| && s[0] == Code(t) && s[1] == |asns|
            && s[2..] == PutAsns(asns, wide) + rest && s[SegSize(|asns|, wide)..] == rest
  {
    HeaderLayout(Code(t), |asns|, PutAsns(asns, wide), rest);
  }

  lemma ParseRawOnce(s: seq<byte>, wide: bool, p: Path)
    requires !Malformed(s, wide) && ParseRaw(s[SegSize(s[1], wide)..], wide) == Some(p)
    ensures ParseRaw(s, wide) == Some([Segment(Decode(s[0]).value, GetAsns(s[2..], s[1], wide))] + p)
  {
  }

  lemma ParseOne(t: SegType, asns: seq<Asn>, wide: bool, rest: seq<byte>, p: Path)
    requires 0 < |asns| <= 255 && ParseRaw(rest, wide) == Some(p)
    ensures ParseRaw(Framed(t, asns, wide) + rest, wide) == Some([Segment(t, SeenAll(asns, wide))] + p)
  {
    FramedLayout(t, asns, wide, rest);
    GetPutAsns(asns, wide, rest);
    assert Decode(Code(t)) == Some(t);
    ParseRawOnce(Framed(t, asns, wide) + rest, wide, p);
  }

  lemma TwoChunks(s: Segment, wide: bool, rest: seq<byte>)
    requires 255 < |s.asns| <= 510
    ensures PutSegment(s, 0, wide) + rest ==
            Framed(s.typ, s.asns[..255], wide) + (Framed(s.typ, s.asns[255..], wide) + rest)
  {
  }

  lemma ChunksAre(s: Segment, wide: bool)
    requires 255 < |s.asns| <= 510
    ensures Chunks(s, wide) ==
            [Segment(s.typ, SeenAll(s.asns[..255], wide)), Segment(s.typ, SeenAll(s.asns[255..], wide))]
  {
    assert SeenAll(s.asns[..255], wide) == SeenAll(s.asns, wide)[..255];
    assert SeenAll(s.asns[255..], wide) == SeenAll(s.asns, wide)[255..];
  }

  lemma ParseTwo(t: SegType, a: seq<Asn>, b: seq<Asn>, wide: bool, rest: seq<byte>, p: Path)
    requires 0 < |a| <= 255 && 0 < |b| <= 255 && ParseRaw(rest, wide) == Some(p)
    ensures ParseRaw(Framed(t, a, wide) + (Framed(t, b, wide) + rest), wide)
         == Some([Segment(t, SeenAll(a, wide)), Segment(t, SeenAll(b, wide))] + p)
  {
    var sa, sb := Segment(t, SeenAll(a, wide)), Segment(t, SeenAll(b, wide));
    ParseOne(t, b, wide, rest, p);
    ParseOne(t, a, wide, Framed(t, b, wide) + rest, [sb] + p);
    Associates([sa], [sb], p);
    assert [sa] + [sb] == [sa, sb];
  }

  lemma ParseLong(s: Segment, wide: bool, rest: seq<byte>, p: Path)
    requires 255 < |s.asns| <= 510 && ParseRaw(rest, wide) == Some(p)
    ensures ParseRaw(PutSegment(s, 0, wide) + rest, wide) == Some(Chunks(s, wide) + p)
  {
    TwoChunks(s, wide, rest);
    ChunksAre(s, wide);
    ParseTwo(s.typ, s.asns[..255], s.asns[255..], wide, rest, p);
  }

  lemma ParseSegment(s: Segment, wide: bool, rest: seq<byte>, p: Path)
    requires 0 < |s.asns| <= 510 && ParseRaw(rest, wide) == Some(p)
    ensures ParseRaw(PutSegment(s, 0, wide) + rest, wide) == Some(Chunks(s, wide) + p)
  {
    if |s.asns| <= 255 {
      assert s.asns[0..] == s.asns;
      assert PutSegment(s, 0, wide) == Framed(s.typ, s.asns, wide);
      ParseOne(s.typ, s.asns, wide, rest, p);
    } else {
      ParseLong(s, wide, rest, p);
    }
  }

  lemma {:induction false} ParseWire(p: Path, wide: bool)
    requires forall i :: 0 <= i < |p| ==> 0 < |p[i].asns| <= 510
    ensures ParseRaw(Wire(p, wide), wide) == Some(AllChunks(p, wide))
  {
    if p != [] {
      ParseWire(p[1..], wide);
      ParseSegment(p[0], wide, Wire(p[1..], wide), AllChunks(p[1..], wide));
    }
  }

  function SeenSegment(s: Segment, wide: bool): Segment {
    Segment(s.typ, SeenAll(s.asns, wide))
  }

  function SeenPath(p: Path, wide: bool): (q: Path)
    ensures |q| == |p|
  {
    seq(|p|, i requires 0 <= i < |p| => SeenSegment(p[i], wide))
  }

  /** No segment is empty, and none is longer than its type survives. */
  predicate Portable(p: Path) {
    forall i :: 0 <= i < |p| ==> 0 < |p[i].asns| <= if p[i].typ == AsSequence then 510 else 255
  }

  lemma PushChunks(done: Path, s: Segment, wide: bool)
    requires 0 < |s.asns| <= if s.typ == AsSequence then 510 else 255
    ensures NormalFrom(done, Chunks(s, wide)) == Push(done, SeenSegment(s, wide))
  {
    var asns := SeenAll(s.asns, wide);
    if |asns| > 255 {
      var a, b := Segment(s.typ, asns[..255]), Segment(s.typ, asns[255..]);
      assert Chunks(s, wide)[1..] == [b];
      assert Joined(a, b) == SeenSegment(s, wide) by {
        assert asns[..255] + asns[255..] == asns;
      }
      PushTwice(done, a, b);
      assert NormalFrom(Push(done, a), [b]) == NormalFrom(Push(Push(done, a), b), []);
    } else {
      assert Chunks(s, wide)[1..] == [];
    }
  }

  lemma PushTwice(done: Path, a: Segment, b: Segment)
    requires Packable(a, b)
    ensures Push(Push(done, a), b) == Push(done, Joined(a, b))
  {
    if |done| > 0 && Packable(done[|done| - 1], a) {
      var last := done[|done| - 1];
      assert Joined(Joined(last, a), b) == Joined(last, Joined(a, b)) by {
        assert (last.asns + a.asns) + b.asns == last.asns + (a.asns + b.asns);
      }
    }
  }

  lemma {:induction false} NormalFromConcat(done: Path, a: Path, b: Path)
    ensures NormalFrom(done, a + b) == NormalFrom(NormalFrom(done, a), b)
    decreases |a|
  {
    if a == [] {
      assert a + b == b;
    } else {
      assert (a + b)[0] == a[0] && (a + b)[1..] == a[1..] + b;
      NormalFromConcat(Push(done, a[0]), a[1..], b);
    }
  }

  lemma {:induction false} NormalOfChunks(done: Path, p: Path, wide: bool)
    requires Portable(p)
    ensures NormalFrom(done, AllChunks(p, wide)) == NormalFrom(done, SeenPath(p, wide))
    decreases |p|
  {
    if p != [] {
      NormalFromConcat(done, Chunks(p[0], wide), AllChunks(p[1..], wide));
      PushChunks(done, p[0], wide);
      NormalOfChunks(Push(done, SeenSegment(p[0], wide)), p[1..], wide);
      assert SeenPath(p, wide)[1..] == SeenPath(p[1..], wide);
    }
  }

  lemma {:induction false} WireIsEven(p: Path, wide: bool)
    ensures |Wire(p, wide)| % 2 == 0
  {
    if p != [] {
      SegmentIsEven(p[0], 0, wide);
      WireIsEven(p[1..], wide);
    }
  }

  /** Half the bytes of a segment. */
  function Words(n: nat, written: nat, wide: bool): nat
    requires written <= n
    decreases n - written
  {
    if n - written > 255 then (if wide then 511 else 256) + Words(n, written + 255, wide)
    else 1 + if wide then 2 * (n - written) else n - written
  }

  lemma {:induction false} SegmentIsEven(s: Segment, written: nat, wide: bool)
    requires written <= |s.asns|
    ensures |PutSegment(s, written, wide)| == 2 * Words(|s.asns|, written, wide)
    decreases |s.asns| - written
  {
    if |s.asns| - written > 255 {
      SegmentIsEven(s, written + 255, wide);
    }
  }

  lemma ParseWhole(s: seq<byte>, wide: bool, p: Path)
    requires |s| >= 2 && |s| % 2 == 0 && ParseRaw(s, wide) == Some(p)
    ensures AssegmentsParse(s, |s|, wide) == Some(Normal(p))
  {
    assert s[..|s|] == s;
  }

  lemma ParseOfWire(p: Path, wide: bool)
    requires Portable(p)
    ensures AssegmentsParse(Wire(p, wide), |Wire(p, wide)|, wide) == Some(Normal(SeenPath(p, wide)))
  {
    if p != [] {
      ParseWire(p, wide);
      NormalOfChunks([], p, wide);
      WireIsEven(p, wide);
      PutSegmentSize(p[0], 0, wide);
      ParseWhole(Wire(p, wide), wide, AllChunks(p, wide));
    }
  }

  /** What is written, at the announced length, parses back to the normal form of
      what a speaker of that width sees. */
  lemma ParseOfPut(p: Path, room: nat, wide: bool)
    requires NoAdjacent(p) && Portable(p) && room >= |Wire(p, wide)|
    ensures var (bytes, count) := AspathPut(p, room, wide);
            && count == |bytes|
            && AssegmentsParse(bytes, count, wide) == Some(Normal(SeenPath(p, wide)))
  {
    if p != [] {
      PutIsWire(p, room, wide);
      WireCountIsRightIff(p, wide);
      ParseOfWire(p, wide);
    }
  }

  // ----- exactly when the round trip works -----

  function Others(p: Path): nat {
    if p == [] then 0 else (if p[0].typ == AsSequence then 0 else 1) + Others(p[1..])
  }

  lemma {:induction false} OthersConcat(a: Path, b: Path)
    ensures Others(a + b) == Others(a) + Others(b)
  {
    if a == [] {
      assert a + b == b;
    } else {
      assert (a + b)[1..] == a[1..] + b;
      OthersConcat(a[1..], b);
    }
  }

  lemma {:induction false} NormalKeepsOthers(done: Path, p: Path)
    ensures Others(NormalFrom(done, p)) == Others(done) + Others(p)
    decreases |p|
  {
    if p != [] {
      var s := p[0];
      if |done| > 0 && Packable(done[|done| - 1], s) {
        var init, last := done[..|done| - 1], done[|done| - 1];
        assert done == init + [last];
        OthersConcat(init, [last]);
        OthersConcat(init, [Joined(last, s)]);
      } else {
        OthersConcat(done, [Tidied(s)]);
      }
      NormalKeepsOthers(Push(done, s), p[1..]);
    }
  }

  lemma {:induction false} ChunksAddOthers(p: Path, wide: bool)
    ensures Others(AllChunks(p, wide)) >= Others(p)
    ensures (exists i :: 0 <= i < |p| && p[i].typ != AsSequence && |p[i].asns| > 255) ==>
            Others(AllChunks(p, wide)) > Others(p)
  {
    if p != [] {
      ChunksAddOthers(p[1..], wide);
      OthersConcat(Chunks(p[0], wide), AllChunks(p[1..], wide));
      assert p == [p[0]] + p[1..];
      if |p[0].asns| > 255 {
        assert Chunks(p[0], wide)[1..] == [Chunks(p[0], wide)[1]];
        assert Others(Chunks(p[0], wide)) == if p[0].typ == AsSequence then 0 else 2;
      }
    }
  }

  lemma SeenWide(p: Path)
    ensures SeenPath(p, true) == p
  {
    assert forall i :: 0 <= i < |p| ==> SeenAll(p[i].asns, true) == p[i].asns;
  }

  predicate RoundTrips(p: Path, room: nat) {
    var (bytes, count) := AspathPut(p, room, true);
    count == |bytes| && AssegmentsParse(bytes, count, true) == Some(p)
  }

  /** A normalised path of non-empty segments survives the wire, with the right
      byte count, if and only if its AS_SEQUENCEs have at most 510 ASNs and its
      other segments at most 255. */
  lemma RoundTripIff(p: Path, room: nat)
    requires IsNormal(p) && room >= |Wire(p, true)|
    requires forall i :: 0 <= i < |p| ==> p[i].asns != []
    ensures RoundTrips(p, room) <==> Portable(p)
  {
    if Portable(p) {
      ParseOfPut(p, room, true);
      SeenWide(p);
      NormalIsIdempotent(p);
    } else {
      PutIsWire(p, room, true);
      WireCountIsRightIff(p, true);
      if forall i :: 0 <= i < |p| ==> |p[i].asns| <= 510 {
        OverlongSetsSplit(p, room);
      }
    }
  }

  lemma OverlongSetsSplit(p: Path, room: nat)
    requires IsNormal(p) && !Portable(p) && room >= |Wire(p, true)|
    requires forall i :: 0 <= i < |p| ==> 0 < |p[i].asns| <= 510
    ensures AssegmentsParse(Wire(p, true), |Wire(p, true)|, true) != Some(p)
  {
    ParseWire(p, true);
    ChunksAddOthers(p, true);
    NormalKeepsOthers([], AllChunks(p, true));
    assert Wire(p, true)[..|Wire(p, true)|] == Wire(p, true);
    PutSegmentSize(p[0], 0, true);
  }
}
