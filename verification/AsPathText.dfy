/** AS paths as text: aspath_make_str_count and aspath_str2aspath
    (bgpd/bgp_aspath.c). */
module AsPathText {
  import opened AsPath
  import opened Decimal
  import opened Basics

  // ----- printing -----

  function StartOf(t: SegType): char {
    match t
    case AsSet => '{'
    case ConfedSet => '['
    case ConfedSequence => '('
    case AsSequence => ' '
  }

  function EndOf(t: SegType): char {
    match t
    case AsSet => '}'
    case ConfedSet => ']'
    case ConfedSequence => ')'
    case AsSequence => ' '
  }

  function Separator(t: SegType): char {
    if IsSetType(t) then ',' else ' '
  }

  function Listed(asns: seq<Asn>, sep: char): string {
    if asns == [] then ""
    else if |asns| == 1 then Print(asns[0])
    else Print(asns[0]) + ([sep] + Listed(asns[1..], sep))
  }

  function SegText(s: Segment): string {
    var list := Listed(s.asns, Separator(s.typ));
    if s.typ == AsSequence then list else [StartOf(s.typ)] + (list + [EndOf(s.typ)])
  }

  function Text(p: Path): string {
    if p == [] then ""
    else if |p| == 1 then SegText(p[0])
    else SegText(p[0]) + (" " + Text(p[1..]))
  }

  const ASN_STR_LEN := 11
  const ASPATH_STR_DEFAULT_LEN := 32

  function SegmentStrLen(s: Segment): nat {
    |s.asns| * ASN_STR_LEN + 4
  }

  /** assegment_count_asns from the start of a segment chain. */
  function CountAsns(p: Path): nat {
    if p == [] then 0 else |p[0].asns| + CountAsns(p[1..])
  }

  /** snprintf at the end of the text in a buffer of the given size: what does not
      fit in front of the final zero is cut off. */
  function Snprintf(buf: string, size: nat, text: string): (r: string)
    ensures buf <= r && (|buf| < size ==> |r| < size)
  {
    if |buf| + |text| < size then buf + text
    else if |buf| < size then buf + text[..size - |buf| - 1]
    else buf
  }

  lemma {:induction false} ListedLength(asns: seq<Asn>, sep: char)
    ensures |Listed(asns, sep)| <= ASN_STR_LEN * |asns|
    ensures asns != [] ==> |Listed(asns, sep)| < ASN_STR_LEN * |asns|
  {
    if asns != [] {
      PrintAtMost10(asns[0]);
      if |asns| > 1 {
        ListedLength(asns[1..], sep);
      }
    }
  }

  lemma ListStep(r: string, left: seq<Asn>, sep: char)
    requires left != []
    ensures var one := r + Print(left[0]);
            (if |left| > 1 then one + [sep] else one) + Listed(left[1..], sep) == r + Listed(left, sep)
  {
  }

  /** The inner loop of aspath_make_str_count. */
  method PrintAsns(buf: string, size: nat, seg: Segment) returns (r: string)
    requires |buf| + |seg.asns| * ASN_STR_LEN < size
    ensures r == buf + Listed(seg.asns, Separator(seg.typ))
  {
    var sep, left := Separator(seg.typ), seg.asns;
    r := buf;
    while left != []
      invariant r + Listed(left, sep) == buf + Listed(seg.asns, sep)
      invariant |r| + |left| * ASN_STR_LEN < size
      decreases |left|
    {
      ListStep(r, left, sep);
      PrintAtMost10(left[0]);
      r := Snprintf(r, size, Print(left[0]));
      if |left| > 1 {
        r := Snprintf(r, size, [sep]);
      }
      left := left[1..];
    }
  }

  /** One segment: nothing is cut off once the buffer has SegmentStrLen to spare. */
  method PrintSegment(buf: string, size: nat, seg: Segment, more: bool) returns (r: string)
    requires |buf| + SegmentStrLen(seg) <= size
    ensures r == (buf + SegText(seg)) + if more then " " else ""
    ensures |r| < size
  {
    ListedLength(seg.asns, Separator(seg.typ));
    r := buf;
    if seg.typ != AsSequence {
      r := Snprintf(r, size, [StartOf(seg.typ)]);
    }
    r := PrintAsns(r, size, seg);
    if seg.typ != AsSequence {
      r := Snprintf(r, size, [EndOf(seg.typ)]);
      Bracketed(buf, seg);
    }
    if more {
      r := Snprintf(r, size, " ");
    }
  }

  lemma Bracketed(buf: string, s: Segment)
    requires s.typ != AsSequence
    ensures ((buf + [StartOf(s.typ)]) + Listed(s.asns, Separator(s.typ))) + [EndOf(s.typ)] == buf + SegText(s)
  {
  }

  /** aspath_make_str_count.  The text is complete, whatever the path, and always
      ends before the end of the buffer, which the source asserts. */
  method MakeStr(p: Path) returns (str: string, size: nat)
    ensures str == Text(p)
    ensures |str| < size
  {
    if p == [] {
      return "", 1;
    }
    var seg := p;
    var guess := CountAsns(p) * ASN_STR_LEN + 3;
    size := if guess > ASPATH_STR_DEFAULT_LEN then guess else ASPATH_STR_DEFAULT_LEN;
    str := "";
    while seg != []
      invariant Text(p) == str + Text(seg)
      invariant |str| < size
    {
      if |str| + SegmentStrLen(seg[0]) > size {
        size := |str| + SegmentStrLen(seg[0]);
      }
      ghost var was := str;
      str := PrintSegment(str, size, seg[0], |seg| > 1);
      TextStep(was, seg);
      seg := seg[1..];
    }
  }

  lemma TextStep(str: string, seg: Path)
    requires seg != []
    ensures str + Text(seg) == ((str + SegText(seg[0])) + if |seg| > 1 then " " else "") + Text(seg[1..])
  {
    if |seg| > 1 {
      Associates(str + SegText(seg[0]), " ", Text(seg[1..]));
      Associates(str, SegText(seg[0]), " " + Text(seg[1..]));
    } else {
      assert Text(seg[1..]) == "";
    }
  }

  // ----- reading -----

  datatype Token = AsVal(asn: Asn) | Opens(typ: SegType) | Closes | Unknown

  predicate Skipped(c: char) {
    IsSpace(c) || c == ','
  }

  /** The text after leading separators. */
  function Skip(s: string): (r: string)
    ensures |r| <= |s| && (r == [] || !Skipped(r[0]))
  {
    if s == [] || !Skipped(s[0]) then s else Skip(s[1..])
  }

  /** The token at the start of a text without leading separators, and the rest. */
  function TokenAt(s: string): (r: (Token, string))
    requires s != []
    ensures r.0 != Unknown ==> |r.1| < |s|
  {
    var c := s[0];
    if c == '{' then (Opens(AsSet), s[1..])
    else if c == '(' then (Opens(ConfedSequence), s[1..])
    else if c == '[' then (Opens(ConfedSet), s[1..])
    else if c == '}' || c == ')' || c == ']' then (Closes, s[1..])
    else if IsDigit(c) then (AsVal(Read(0, s[..Run(s)])), s[Run(s)..])
    else (Unknown, s)
  }

  /** aspath_gettoken: the next token, or None at the end of the text. */
  function GetToken(s: string): (r: Option<(Token, string)>)
    ensures r.Some? && r.value.0 != Unknown ==> |r.value.1| < |s|
  {
    var t := Skip(s);
    if t == [] then None else Some(TokenAt(t))
  }

  datatype Reader = Reader(path: Path, needtype: bool)

  /** aspath_segment_add. */
  function SegmentAdd(p: Path, t: SegType): Path {
    p + [Segment(t, [])]
  }

  /** aspath_as_add. */
  function AsAdd(p: Path, a: Asn): Path {
    if p == [] then p
    else
      var last := p[|p| - 1];
      p[|p| - 1 := Segment(last.typ, last.asns + [a])]
  }

  /** What one token does to the path being read.  Whenever a type is needed it is
      AS_SEQUENCE. */
  function Take(r: Reader, t: Token): Reader
    requires t != Unknown
  {
    match t
    case AsVal(a) => Reader(AsAdd(if r.needtype then SegmentAdd(r.path, AsSequence) else r.path, a), false)
    case Opens(typ) => Reader(SegmentAdd(r.path, typ), false)
    case Closes => Reader(r.path, true)
  }

  function ReadFrom(r: Reader, s: string): Option<Path>
    decreases |s|
  {
    match GetToken(s)
    case None => Some(r.path)
    case Some((t, rest)) => if t == Unknown then None else ReadFrom(Take(r, t), rest)
  }

  /** aspath_str2aspath. */
  function FromText(s: string): Option<Path> {
    ReadFrom(Reader([], true), s)
  }

  /** The loops of aspath_gettoken. */
  method NextToken(buf: string) returns (r: Option<(Token, string)>)
    ensures r == GetToken(buf)
  {
    var p := buf;
    while p != [] && Skipped(p[0])
      invariant Skip(p) == Skip(buf)
      decreases |p|
    {
      p := p[1..];
    }
    if p == [] {
      return None;
    }
    if p[0] in "{([})]" || !IsDigit(p[0]) {
      return Some(TokenAt(p));
    }
    var asval: u32, k := 0, 0;
    while k < |p| && IsDigit(p[k])
      invariant 0 <= k <= Run(p) && AllDigits(p[..k]) && asval == Read(0, p[..k])
    {
      assert p[..k + 1] == p[..k] + [p[k]];
      ReadConcat(0, p[..k], [p[k]]);
      assert [p[k]][1..] == [];
      DigitsBound(p, k);
      asval := Digit(asval, p[k]);
      k := k + 1;
    }
    return Some((AsVal(asval), p[k..]));
  }

  lemma DigitsBound(p: string, k: nat)
    requires k < |p| && k <= Run(p) && IsDigit(p[k])
    ensures k < Run(p)
  {
  }

  /** aspath_str2aspath. */
  method Str2Aspath(str: string) returns (r: Option<Path>)
    ensures r == FromText(str)
  {
    var path, asType, needtype, s := [], AsSequence, true, str;
    while true
      invariant needtype ==> asType == AsSequence
      invariant ReadFrom(Reader(path, needtype), s) == FromText(str)
      decreases |s|
    {
      var next := NextToken(s);
      if next.None? {
        return Some(path);
      }
      match next.value.0 {
        case AsVal(asn) =>
          if needtype {
            path := SegmentAdd(path, asType);
            needtype := false;
          }
          path := AsAdd(path, asn);
        case Opens(typ) =>
          asType := typ;
          path := SegmentAdd(path, asType);
          needtype := false;
        case Closes =>
          asType := AsSequence;
          needtype := true;
        case Unknown =>
          return None;
      }
      s := next.value.1;
    }
  }

  // ----- the round trip -----

  /** One segment of a path that is printed and read again. */
  function Rejoin(done: Path, s: Segment): Path {
    if s.typ != AsSequence then done + [s]
    else if s.asns == [] then done
    else if done != [] && done[|done| - 1].typ == AsSequence
    then done[..|done| - 1] + [Joined(done[|done| - 1], s)]
    else done + [s]
  }

  /** A path without empty AS_SEQUENCEs and with adjacent ones joined. */
  function Rejoined(done: Path, p: Path): Path
    decreases |p|
  {
    if p == [] then done else Rejoined(Rejoin(done, p[0]), p[1..])
  }

  predicate EndsInSequence(p: Path) {
    p != [] && p[|p| - 1].typ == AsSequence
  }

  /** Where the reader stands between segments. */
  function Between(done: Path): Reader {
    Reader(done, !EndsInSequence(done))
  }

  lemma ReadSeparator(r: Reader, sep: char, s: string)
    requires Skipped(sep)
    ensures ReadFrom(r, [sep] + s) == ReadFrom(r, s)
  {
  }

  /** A printed number is read as one token. */
  lemma TokenOfNumber(a: Asn, rest: string)
    requires rest == [] || !IsDigit(rest[0])
    ensures GetToken(Print(a) + rest) == Some((AsVal(a), rest))
  {
    var s := Print(a) + rest;
    assert s[0] == Print(a)[0] && IsDigit(s[0]);
    RunOf(Print(a), rest);
    assert s[..Run(s)] == Print(a) && s[Run(s)..] == rest;
    ReadPrint(a);
  }

  lemma ReadNumber(r: Reader, a: Asn, rest: string)
    requires rest == [] || !IsDigit(rest[0])
    ensures ReadFrom(r, Print(a) + rest) == ReadFrom(Take(r, AsVal(a)), rest)
  {
    TokenOfNumber(a, rest);
  }

  /** The last segment extended by more ASNs. */
  function Extended(p: Path, asns: seq<Asn>): Path
    requires p != []
  {
    var last := p[|p| - 1];
    p[..|p| - 1] + [Segment(last.typ, last.asns + asns)]
  }

  lemma ExtendOne(p: Path, a: Asn, more: seq<Asn>)
    requires p != []
    ensures AsAdd(p, a) == Extended(p, [a]) && Extended(AsAdd(p, a), more) == Extended(p, [a] + more)
  {
    var last := p[|p| - 1];
    assert (last.asns + [a]) + more == last.asns + ([a] + more);
  }

  lemma ReadOneOfList(p: Path, a: Asn, sep: char, tail: string)
    requires p != [] && Skipped(sep)
    ensures ReadFrom(Reader(p, false), Print(a) + ([sep] + tail)) == ReadFrom(Reader(AsAdd(p, a), false), tail)
  {
    assert !IsDigit(sep);
    ReadNumber(Reader(p, false), a, [sep] + tail);
    ReadSeparator(Reader(AsAdd(p, a), false), sep, tail);
  }

  lemma ListedSplit(asns: seq<Asn>, sep: char, rest: string)
    requires |asns| > 1
    ensures Listed(asns, sep) + rest == Print(asns[0]) + ([sep] + (Listed(asns[1..], sep) + rest))
  {
  }

  lemma ReadLastOfList(p: Path, a: Asn, sep: char, rest: string)
    requires p != [] && (rest == [] || !IsDigit(rest[0]))
    ensures ReadFrom(Reader(p, false), Listed([a], sep) + rest) == ReadFrom(Reader(Extended(p, [a]), false), rest)
  {
    ReadNumber(Reader(p, false), a, rest);
    ExtendOne(p, a, []);
  }

  lemma ExtendedByNone(p: Path)
    requires p != []
    ensures Extended(p, []) == p
  {
    assert p[|p| - 1].asns + [] == p[|p| - 1].asns;
  }

  lemma ReadCons(p: Path, asns: seq<Asn>, sep: char, rest: string, result: Option<Path>)
    requires p != [] && Skipped(sep) && |asns| > 1
    requires ReadFrom(Reader(AsAdd(p, asns[0]), false), Listed(asns[1..], sep) + rest) == result
    ensures ReadFrom(Reader(p, false), Listed(asns, sep) + rest) == result
  {
    ListedSplit(asns, sep, rest);
    ReadOneOfList(p, asns[0], sep, Listed(asns[1..], sep) + rest);
  }

  lemma {:induction false} ReadList(p: Path, asns: seq<Asn>, sep: char, rest: string)
    requires p != [] && Skipped(sep) && (rest == [] || !IsDigit(rest[0]))
    ensures ReadFrom(Reader(p, false), Listed(asns, sep) + rest) == ReadFrom(Reader(Extended(p, asns), false), rest)
    decreases |asns|
  {
    if asns == [] {
      assert Listed(asns, sep) + rest == rest;
      ExtendedByNone(p);
    } else if |asns| == 1 {
      assert asns == [asns[0]];
      ReadLastOfList(p, asns[0], sep, rest);
    } else {
      ExtendOne(p, asns[0], asns[1..]);
      assert [asns[0]] + asns[1..] == asns;
      ReadList(AsAdd(p, asns[0]), asns[1..], sep, rest);
      ReadCons(p, asns, sep, rest, ReadFrom(Reader(Extended(p, asns), false), rest));
    }
  }

  lemma ReadOpening(done: Path, t: SegType, rest: string)
    requires t != AsSequence
    ensures ReadFrom(Between(done), [StartOf(t)] + rest) == ReadFrom(Reader(SegmentAdd(done, t), false), rest)
  {
    assert ([StartOf(t)] + rest)[1..] == rest;
  }

  lemma ReadClosing(done: Path, t: SegType, rest: string)
    requires t != AsSequence
    ensures ReadFrom(Reader(done, false), [EndOf(t)] + rest) == ReadFrom(Reader(done, true), rest)
  {
    assert ([EndOf(t)] + rest)[1..] == rest;
  }

  lemma ReadBracketed(done: Path, s: Segment, rest: string)
    requires s.typ != AsSequence
    ensures ReadFrom(Between(done), SegText(s) + rest) == ReadFrom(Reader(done + [s], true), rest)
  {
    var list, open := Listed(s.asns, Separator(s.typ)), SegmentAdd(done, s.typ);
    Associates([StartOf(s.typ)], list + [EndOf(s.typ)], rest);
    Associates(list, [EndOf(s.typ)], rest);
    ReadOpening(done, s.typ, list + ([EndOf(s.typ)] + rest));
    ReadList(open, s.asns, Separator(s.typ), [EndOf(s.typ)] + rest);
    assert Extended(open, s.asns) == done + [s] by {
      assert [] + s.asns == s.asns;
    }
    ReadClosing(done + [s], s.typ, rest);
  }

  lemma ReadSequence(done: Path, s: Segment, rest: string)
    requires s.typ == AsSequence && s.asns != [] && (rest == [] || !IsDigit(rest[0]))
    ensures ReadFrom(Between(done), SegText(s) + rest) == ReadFrom(Reader(Rejoin(done, s), false), rest)
  {
    if EndsInSequence(done) {
      ReadList(done, s.asns, ' ', rest);
    } else {
      var open := SegmentAdd(done, AsSequence);
      assert Extended(open, s.asns) == done + [s] by {
        assert [] + s.asns == s.asns;
      }
      ReadList(open, s.asns, ' ', rest);
      NeedtypeOpens(done, s.asns, rest);
    }
  }

  /** A list starts with its first number. */
  lemma ListedStarts(asns: seq<Asn>, sep: char, rest: string) returns (tail: string)
    requires asns != [] && !IsDigit(sep) && (rest == [] || !IsDigit(rest[0]))
    ensures Listed(asns, sep) + rest == Print(asns[0]) + tail && (tail == [] || !IsDigit(tail[0]))
  {
    if |asns| == 1 {
      tail := rest;
    } else {
      tail := [sep] + (Listed(asns[1..], sep) + rest);
      ListedSplit(asns, sep, rest);
    }
  }

  /** The first number after a bracket opens an AS_SEQUENCE. */
  lemma NeedtypeOpens(done: Path, asns: seq<Asn>, rest: string)
    requires asns != [] && (rest == [] || !IsDigit(rest[0]))
    ensures var list := Listed(asns, ' ') + rest;
            ReadFrom(Reader(done, true), list) == ReadFrom(Reader(SegmentAdd(done, AsSequence), false), list)
  {
    var tail := ListedStarts(asns, ' ', rest);
    ReadNumber(Reader(done, true), asns[0], tail);
    ReadNumber(Reader(SegmentAdd(done, AsSequence), false), asns[0], tail);
  }

  lemma ReadSegment(done: Path, s: Segment, rest: string)
    requires rest == [] || !IsDigit(rest[0])
    ensures ReadFrom(Between(done), SegText(s) + rest) == ReadFrom(Between(Rejoin(done, s)), rest)
  {
    if s.typ != AsSequence {
      ReadBracketed(done, s, rest);
    } else if s.asns == [] {
      assert SegText(s) + rest == rest;
    } else {
      ReadSequence(done, s, rest);
    }
  }

  lemma {:induction false} ReadText(done: Path, p: Path)
    ensures ReadFrom(Between(done), Text(p)) == Some(Rejoined(done, p))
    decreases |p|
  {
    if |p| == 1 {
      ReadSegment(done, p[0], "");
      assert SegText(p[0]) + "" == SegText(p[0]) && p[1..] == [];
      assert Rejoined(Rejoin(done, p[0]), p[1..]) == Rejoin(done, p[0]);
    } else if |p| > 1 {
      ReadSegment(done, p[0], " " + Text(p[1..]));
      ReadSeparator(Between(Rejoin(done, p[0])), ' ', Text(p[1..]));
      ReadText(Rejoin(done, p[0]), p[1..]);
    }
  }

  /** No empty AS_SEQUENCE and no two in a row. */
  predicate Spelled(p: Path) {
    Solid(p) && NoAdjacent(p)
  }

  lemma {:induction false} RejoinedIsSpelled(done: Path, p: Path)
    requires Spelled(done)
    ensures Spelled(Rejoined(done, p))
    decreases |p|
  {
    if p != [] {
      RejoinedIsSpelled(Rejoin(done, p[0]), p[1..]);
    }
  }

  lemma {:induction false} RejoinedFixes(done: Path, p: Path)
    requires Spelled(done + p)
    ensures Rejoined(done, p) == done + p
    decreases |p|
  {
    if p == [] {
      assert done + p == done;
    } else {
      var k := |done|;
      assert (done + p)[k] == p[0] && (k > 0 ==> (done + p)[k - 1] == done[k - 1]);
      assert done + [p[0]] + p[1..] == done + p;
      RejoinedFixes(done + [p[0]], p[1..]);
    }
  }

  /** Every printed path is read back, with empty AS_SEQUENCEs dropped and
      adjacent ones joined; so it is read back exactly if and only if it has
      neither. */
  lemma TextRoundTrip(p: Path)
    ensures FromText(Text(p)) == Some(Rejoined([], p))
    ensures FromText(Text(p)) == Some(p) <==> Spelled(p)
  {
    ReadText([], p);
    RejoinedIsSpelled([], p);
    if Spelled(p) {
      assert [] + p == p;
      RejoinedFixes([], p);
    }
  }
}
