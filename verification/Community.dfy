/** BGP communities: sorting, matching and text (bgpd/bgp_community.c). */
module Community {
  import opened Basics
  import opened Decimal
  import opened SortedSet

  const INTERNET: u32 := 0
  const NO_EXPORT: u32 := 0xFFFFFF01
  const NO_ADVERTISE: u32 := 0xFFFFFF02
  const LOCAL_AS: u32 := 0xFFFFFF03

  // ----- sorting -----

  predicate Distinct(s: seq<u32>) {
    forall i, j :: 0 <= i < j < |s| ==> s[i] != s[j]
  }

  lemma {:induction false} InsertStrict(x: u32, s: seq<u32>)
    requires StrictlyAscending(s) && x !in s
    ensures StrictlyAscending(Insert(x, s))
  {
    InsertSorts(x, s);
    if s != [] && x > s[0] {
      InsertStrict(x, s[1..]);
      InsertSorts(x, s[1..]);
      var t := Insert(x, s[1..]);
      forall j | 0 <= j < |t| ensures s[0] < t[j] {
        assert t[j] in t;
      }
    }
  }

  lemma {:induction false} SortStrict(s: seq<u32>)
    requires Distinct(s)
    ensures StrictlyAscending(Sort(s))
  {
    if s != [] {
      SortStrict(s[1..]);
      SortSorts(s[1..]);
      assert s[0] !in s[1..];
      InsertStrict(s[0], Sort(s[1..]));
    }
  }

  /** community_include. */
  method Include(com: seq<u32>, val: u32) returns (found: bool)
    ensures found <==> val in com
  {
    for i := 0 to |com|
      invariant val !in com[..i]
    {
      if com[i] == val {
        return true;
      }
      assert com[..i + 1] == com[..i] + [com[i]];
    }
    assert com[..|com|] == com;
    return false;
  }

  /** community_uniq_sort: the strictly ascending listing of the same values. */
  method UniqSort(com: seq<u32>) returns (r: seq<u32>)
    ensures r == Canonical(com)
  {
    var kept: seq<u32> := [];
    for i := 0 to |com|
      invariant Distinct(kept)
      invariant forall x :: x in kept <==> x in com[..i]
    {
      assert com[..i + 1] == com[..i] + [com[i]];
      var found := Include(kept, com[i]);
      if !found {
        kept := kept + [com[i]];
      }
    }
    assert com[..|com|] == com;
    SortStrict(kept);
    SortSorts(kept);
    CanonicalIs(com);
    r := Sort(kept);
    StrictIsDetermined(r, Canonical(com));
  }

  // ----- matching -----

  /** b is found in order in a. */
  predicate Subsequence(a: seq<u32>, b: seq<u32>) {
    if b == [] then true
    else if a == [] then false
    else Subsequence(a[1..], if a[0] == b[0] then b[1..] else b)
  }

  lemma {:induction false} SubsequenceIsShorter(a: seq<u32>, b: seq<u32>)
    requires Subsequence(a, b)
    ensures |b| <= |a|
  {
    if a != [] && b != [] {
      SubsequenceIsShorter(a[1..], if a[0] == b[0] then b[1..] else b);
    }
  }

  /** On strictly ascending lists that is inclusion. */
  lemma {:induction false} SubsequenceIffSubset(a: seq<u32>, b: seq<u32>)
    requires StrictlyAscending(a) && StrictlyAscending(b)
    ensures Subsequence(a, b) <==> forall x :: x in b ==> x in a
  {
    if a != [] && b != [] {
      assert a == [a[0]] + a[1..] && b == [b[0]] + b[1..];
      assert a[0] !in a[1..] && b[0] !in b[1..];
      if a[0] == b[0] {
        SubsequenceIffSubset(a[1..], b[1..]);
        if forall x :: x in b ==> x in a {
          assert forall x :: x in b[1..] ==> x in b && x != b[0];
        }
      } else {
        SubsequenceIffSubset(a[1..], b);
        if a[0] in b {
          assert b[0] < a[0];
          assert b[0] !in a;
        }
      }
    } else if b != [] {
      assert b[0] in b;
    }
  }

  /** community_match: one pass over both lists. */
  method Match(com1: Option<seq<u32>>, com2: Option<seq<u32>>) returns (matches: bool)
    ensures com1.None? || com2.None? ==> (matches <==> com1.None? && com2.None?)
    ensures com1.Some? && com2.Some? ==> (matches <==> Subsequence(com1.value, com2.value))
    ensures com1.Some? && com2.Some? && StrictlyAscending(com1.value) && StrictlyAscending(com2.value) ==>
              (matches <==> forall x :: x in com2.value ==> x in com1.value)
  {
    if com1.None? || com2.None? {
      return com1.None? && com2.None?;
    }
    var a, b := com1.value, com2.value;
    if StrictlyAscending(a) && StrictlyAscending(b) {
      SubsequenceIffSubset(a, b);
    }
    if |a| < |b| {
      if Subsequence(a, b) {
        SubsequenceIsShorter(a, b);
      }
      return false;
    }
    while a != [] && b != []
      invariant Subsequence(a, b) == Subsequence(com1.value, com2.value)
      decreases |a|
    {
      if a[0] == b[0] {
        b := b[1..];
      }
      a := a[1..];
    }
    return b == [];
  }

  // ----- printing -----

  function Show(v: u32): (s: string)
    ensures |s| > 0
  {
    if v == INTERNET then "internet"
    else if v == NO_EXPORT then "no-export"
    else if v == NO_ADVERTISE then "no-advertise"
    else if v == LOCAL_AS then "local-AS"
    else Print(v / 0x10000) + (":" + Print(v % 0x10000))
  }

  function Text(vs: seq<u32>): string {
    if vs == [] then ""
    else if |vs| == 1 then Show(vs[0])
    else Show(vs[0]) + (" " + Text(vs[1..]))
  }

  /** What is reserved for a value and the space or zero next to it. */
  function Reserved(v: u32): nat {
    if v == INTERNET then |" internet"|
    else if v == NO_EXPORT then |" no-export"|
    else if v == NO_ADVERTISE then |" no-advertise"|
    else if v == LOCAL_AS then |" local-AS"|
    else |" 65536:65535"|
  }

  function AllReserved(vs: seq<u32>): nat {
    if vs == [] then 0 else Reserved(vs[0]) + AllReserved(vs[1..])
  }

  lemma ShowFits(v: u32)
    ensures |Show(v)| < Reserved(v)
  {
    PrintAtMost5(v / 0x10000);
    PrintAtMost5(v % 0x10000);
  }

  lemma {:induction false} TextFits(vs: seq<u32>)
    requires vs != []
    ensures |Text(vs)| < AllReserved(vs)
  {
    ShowFits(vs[0]);
    if |vs| > 1 {
      TextFits(vs[1..]);
    }
  }

  lemma TextStep(str: string, vs: seq<u32>)
    requires |vs| > 1
    ensures ((str + Show(vs[0])) + " ") + Text(vs[1..]) == str + Text(vs)
  {
    Associates(str + Show(vs[0]), " ", Text(vs[1..]));
    Associates(str, Show(vs[0]), " " + Text(vs[1..]));
  }

  /** community_com2str: both loops.  The text and its final zero fit in the
      memory reserved for them. */
  method Com2Str(com: seq<u32>) returns (str: string, len: nat)
    ensures str == Text(com) && |str| < len
  {
    str, len := "", 1;
    if com == [] {
      return;
    }
    TextFits(com);
    var left := com;
    len := 0;
    while left != []
      invariant len + AllReserved(left) == AllReserved(com)
    {
      len := len + Reserved(left[0]);
      left := left[1..];
    }
    left := com;
    var first := true;
    while left != []
      invariant left == [] ==> str == Text(com) && !first
      invariant left != [] ==> (if first then str else str + " ") + Text(left) == Text(com)
    {
      if first {
        first := false;
      } else {
        str := str + " ";
      }
      if |left| > 1 {
        TextStep(str, left);
      }
      str := str + Show(left[0]);
      left := left[1..];
    }
  }

  // ----- reading -----

  datatype Got = End | Unknown | Found(val: u32, rest: string)

  /** The locals of the digit loop. */
  datatype Scan = Scan(separator: bool, digit: bool, low: u32, high: u32)

  function Skip(s: string): (r: string)
    ensures |r| <= |s| && (r == [] || !IsSpace(r[0]))
  {
    if s == [] || !IsSpace(s[0]) then s else Skip(s[1..])
  }

  function ScanFrom(st: Scan, s: string): (g: Got)
    ensures g.Found? ==> |g.rest| <= |s|
    ensures g.Found? && s != [] && IsDigit(s[0]) ==> |g.rest| < |s|
    decreases |s|
  {
    if s == [] || !(IsDigit(s[0]) || s[0] == ':') then
      if st.digit then Found((st.high + st.low) % TWO32, s) else Unknown
    else if s[0] != ':' then ScanFrom(st.(digit := true, low := Digit(st.low, s[0])), s[1..])
    else if st.separator then Unknown
    else ScanFrom(Scan(true, false, 0, st.low * 0x10000 % TWO32), s[1..])
  }

  predicate IsAlpha(c: char) {
    'a' <= c <= 'z' || 'A' <= c <= 'Z'
  }

  /** The well-known names, in the order in which they are tried. */
  function Keyword(s: string): (g: Got)
    ensures g.Found? ==> |g.rest| < |s|
  {
    if "internet" <= s then Found(INTERNET, s[|"internet"|..])
    else if "no-export" <= s then Found(NO_EXPORT, s[|"no-export"|..])
    else if "no-advertise" <= s then Found(NO_ADVERTISE, s[|"no-advertise"|..])
    else if "local-AS" <= s then Found(LOCAL_AS, s[|"local-AS"|..])
    else Unknown
  }

  /** community_gettoken. */
  function GetToken(s: string): (g: Got)
    ensures g.Found? ==> |g.rest| < |s|
  {
    var t := Skip(s);
    if t == [] then End
    else if IsAlpha(t[0]) then Keyword(t)
    else if IsDigit(t[0]) then ScanFrom(Scan(false, false, 0, 0), t)
    else Unknown
  }

  /** The values community_str2com collects.  At the end of the text the token and
      value of the previous round are still there, and are added once more. */
  function Values(s: string, last: Option<u32>): Option<seq<u32>>
    decreases |s|
  {
    match GetToken(s)
    case End => if last.None? then None else Some([last.value])
    case Unknown => None
    case Found(v, rest) =>
      match Values(rest, Some(v))
      case None => None
      case Some(vs) => Some([v] + vs)
  }

  /** community_str2com. */
  function FromText(s: string): Option<seq<u32>> {
    match Values(s, None)
    case None => None
    case Some(vs) => Some(Canonical(vs))
  }

  /** The loops of community_gettoken. */
  method NextToken(buf: string) returns (g: Got)
    ensures g == GetToken(buf)
  {
    var p := buf;
    while p != [] && IsSpace(p[0])
      invariant Skip(p) == Skip(buf)
      decreases |p|
    {
      p := p[1..];
    }
    if p == [] {
      return End;
    }
    if IsAlpha(p[0]) {
      return Keyword(p);
    }
    if !IsDigit(p[0]) {
      return Unknown;
    }
    g := ScanValue(p);
  }

  method ScanValue(s: string) returns (g: Got)
    ensures g == ScanFrom(Scan(false, false, 0, 0), s)
  {
    var p, separator, digit, low: u32, high: u32 := s, false, false, 0, 0;
    while p != [] && (IsDigit(p[0]) || p[0] == ':')
      invariant ScanFrom(Scan(separator, digit, low, high), p) == ScanFrom(Scan(false, false, 0, 0), s)
      decreases |p|
    {
      if p[0] == ':' {
        if separator {
          return Unknown;
        }
        separator, digit := true, false;
        high := low * 0x10000 % TWO32;
        low := 0;
      } else {
        digit := true;
        low := Digit(low, p[0]);
      }
      p := p[1..];
    }
    if !digit {
      return Unknown;
    }
    return Found((high + low) % TWO32, p);
  }

  /** The values still to come, after those collected so far. */
  function Collected(com: seq<u32>, rest: Option<seq<u32>>): Option<seq<u32>> {
    match rest
    case None => None
    case Some(vs) => Some(com + vs)
  }

  /** community_str2com, with its do-while loop. */
  method Str2Com(str: string) returns (r: Option<seq<u32>>)
    ensures r == FromText(str)
  {
    var com: seq<u32>, known, val: u32, s := [], false, 0, str;
    NothingCollected(Values(str, None));
    while true
      invariant Collected(com, Values(s, if known then Some(val) else None)) == Values(str, None)
      decreases |s|
    {
      var got := NextToken(s);
      if got.Found? {
        known, val := true, got.val;
      } else if got.Unknown? {
        known := false;
      }
      if !known {
        return None;
      }
      if got.Found? {
        CollectOne(com, got.val, Values(got.rest, Some(got.val)));
      }
      com := com + [val];
      if !got.Found? {
        break;
      }
      s := got.rest;
    }
    var sorted := UniqSort(com);
    return Some(sorted);
  }

  lemma NothingCollected(rest: Option<seq<u32>>)
    ensures Collected([], rest) == rest
  {
    if rest.Some? {
      assert [] + rest.value == rest.value;
    }
  }

  lemma CollectOne(com: seq<u32>, v: u32, rest: Option<seq<u32>>)
    ensures Collected(com, Collected([v], rest)) == Collected(com + [v], rest)
  {
    if rest.Some? {
      assert com + ([v] + rest.value) == (com + [v]) + rest.value;
    }
  }

  // ----- the round trip -----

  predicate Ends(rest: string) {
    rest == [] || IsSpace(rest[0])
  }

  lemma {:induction false} ScanDigits(st: Scan, ds: string, rest: string)
    requires AllDigits(ds)
    ensures ScanFrom(st, ds + rest) == ScanFrom(st.(digit := st.digit || ds != [], low := Read(st.low, ds)), rest)
    decreases |ds|
  {
    if ds == [] {
      assert ds + rest == rest;
    } else {
      assert (ds + rest)[0] == ds[0] && (ds + rest)[1..] == ds[1..] + rest;
      ScanDigits(st.(digit := true, low := Digit(st.low, ds[0])), ds[1..], rest);
    }
  }

  lemma ScanColon(st: Scan, tail: string)
    requires !st.separator
    ensures ScanFrom(st, ":" + tail) == ScanFrom(Scan(true, false, 0, st.low * 0x10000 % TWO32), tail)
  {
  }

  lemma ScanLow(high: u32, low: u32, rest: string)
    requires high < 0x10000 && low < 0x10000 && Ends(rest)
    ensures ScanFrom(Scan(true, false, 0, high * 0x10000), Print(low) + rest) == Found(high * 0x10000 + low, rest)
  {
    ReadPrint(low);
    ScanDigits(Scan(true, false, 0, high * 0x10000), Print(low), rest);
  }

  lemma ScanHigh(high: u32, tail: string)
    requires high < 0x10000
    ensures ScanFrom(Scan(false, false, 0, 0), Print(high) + (":" + tail)) ==
            ScanFrom(Scan(true, false, 0, high * 0x10000), tail)
  {
    ReadPrint(high);
    ScanDigits(Scan(false, false, 0, 0), Print(high), ":" + tail);
    ScanColon(Scan(false, true, high, 0), tail);
  }

  lemma ScanShown(high: u32, low: u32, rest: string)
    requires high < 0x10000 && low < 0x10000 && Ends(rest)
    ensures ScanFrom(Scan(false, false, 0, 0), Print(high) + (":" + (Print(low) + rest)))
         == Found(high * 0x10000 + low, rest)
  {
    ScanHigh(high, Print(low) + rest);
    ScanLow(high, low, rest);
  }

  lemma KeywordShown(v: u32, rest: string)
    requires v == INTERNET || v == NO_EXPORT || v == NO_ADVERTISE || v == LOCAL_AS
    ensures var s := Show(v) + rest; IsAlpha(s[0]) && Keyword(s) == Found(v, rest)
  {
    var s := Show(v) + rest;
    assert s[..|Show(v)|] == Show(v) && s[|Show(v)|..] == rest;
    assert Show(v) <= s;
    assert s[0] == Show(v)[0] && s[3] == Show(v)[3];
  }

  /** A printed value is read as one token. */
  lemma PairShown(high: u32, low: u32, rest: string)
    requires high < 0x10000 && low < 0x10000 && Ends(rest)
    ensures GetToken(Print(high) + (":" + (Print(low) + rest))) == Found(high * 0x10000 + low, rest)
  {
    assert (Print(high) + (":" + (Print(low) + rest)))[0] == Print(high)[0];
    ScanShown(high, low, rest);
  }

  lemma TokenShown(v: u32, rest: string)
    requires Ends(rest)
    ensures GetToken(Show(v) + rest) == Found(v, rest)
  {
    if v == INTERNET || v == NO_EXPORT || v == NO_ADVERTISE || v == LOCAL_AS {
      KeywordShown(v, rest);
    } else {
      var high, low := v / 0x10000, v % 0x10000;
      Associates(Print(high), ":" + Print(low), rest);
      Associates(":", Print(low), rest);
      PairShown(high, low, rest);
    }
  }

  lemma ValuesAfterSpace(s: string, last: Option<u32>)
    ensures Values(" " + s, last) == Values(s, last)
  {
  }

  lemma ValuesOfOne(v: u32, rest: string, last: Option<u32>)
    requires Ends(rest)
    ensures Values(Show(v) + rest, last) == Collected([v], Values(rest, Some(v)))
  {
    TokenShown(v, rest);
  }

  lemma TextSplit(vs: seq<u32>)
    requires |vs| > 1
    ensures Text(vs) == Show(vs[0]) + (" " + Text(vs[1..]))
  {
  }

  lemma ValuesOfCons(v: u32, text: string, last: Option<u32>, values: seq<u32>)
    requires Values(text, Some(v)) == Some(values)
    ensures Values(Show(v) + (" " + text), last) == Some([v] + values)
  {
    ValuesOfOne(v, " " + text, last);
    ValuesAfterSpace(text, Some(v));
  }

  lemma {:induction false} ValuesOfText(vs: seq<u32>, last: Option<u32>)
    requires vs != []
    ensures Values(Text(vs), last) == Some(vs + [vs[|vs| - 1]])
    decreases |vs|
  {
    var v, end := vs[0], [vs[|vs| - 1]];
    if |vs| == 1 {
      assert Show(v) + "" == Show(v);
      ValuesOfOne(v, "", last);
      assert [v] + [v] == vs + end;
    } else {
      TextSplit(vs);
      ValuesOfText(vs[1..], Some(v));
      ValuesOfCons(v, Text(vs[1..]), last, vs[1..] + end);
      Associates([v], vs[1..], end);
      assert [v] + vs[1..] == vs;
    }
  }

  /** A printed list is read back sorted and without duplicates; the value added
      once too often is absorbed.  The text of the empty list is refused. */
  lemma TextRoundTrip(vs: seq<u32>)
    ensures FromText(Text(vs)) == if vs == [] then None else Some(Canonical(vs))
    ensures FromText(Text(vs)) == Some(vs) <==> vs != [] && StrictlyAscending(vs)
  {
    if vs != [] {
      ValuesOfText(vs, None);
      var more := vs + [vs[|vs| - 1]];
      assert Members(more) == Members(vs);
      CanonicalByMembers(more, vs);
      CanonicalByMembers(vs, vs);
      CanonicalIs(vs);
    }
  }
}
