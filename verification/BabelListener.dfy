/** What the parser makes of any sender that follows sections 4.4.7 to 4.4.9 of
    RFC 6126, not only of this one: next hops of every encoding, prefixes of every
    encoding with any number of omitted bytes, any flags, and sub-messages behind the
    prefix (parse_packet in babeld/message.c). */
module BabelListener {
  import opened Basics
  import opened BabelPrefix
  import opened BabelParser
  import opened BabelSender
  import opened BabelCodec

  datatype Via = ViaNone | Via4(bytes: seq<byte>) | Via6(address: Address) | ViaLocal(suffix: seq<byte>)

  /** What a sender says, message by message. */
  datatype Message =
    | Identity(id: seq<byte>)
    | Through(via: Via)
    | Announcement(ae: byte, flags: byte, prefix: Address, plen: nat, omit: nat,
                   seqno: u16, metric: u16, interval: u16, extra: seq<byte>)
    | Garbled(typ: byte, data: seq<byte>)
    | Elsewhere(typ: byte, data: seq<byte>)

  /** What was said before and is still in force. */
  datatype Context = Context(
    id: Option<seq<byte>>, prefix4: Option<Address>, prefix6: Option<Address>,
    nh4: Option<Address>, nh6: Option<Address>)

  const SILENCE := Context(None, None, None, None, None)
  const LOCAL: seq<byte> := [0xfe, 0x80, 0, 0, 0, 0, 0, 0]

  // ----- bytes -----

  /** How many bytes of the address a prefix reaches into. */
  function Reach(m: Message): nat
    requires m.Announcement?
  {
    if m.ae == 1 && m.plen >= 96 then (m.plen - 96 + 7) / 8 else (m.plen + 7) / 8
  }

  /** An update whose address cannot be put together: its encoding is not known, it is
      too long for it, more bytes are omitted than it has, or too few are given. */
  predicate Unreadable(data: seq<byte>)
    requires |data| >= 10
  {
    var plen: int := data[2];
    var ae, pb, omit, given := data[0], (plen + 7) / 8, data[3], |data| - 10;
    || ae > 3 || pb > 16
    || (ae == 1 && (pb > 4 || omit > pb || given < pb - omit))
    || (ae == 2 && (omit > pb || given < pb - omit))
    || (ae == 3 && (pb < 8 || given < pb - 8))
  }

  /** Too short for its type, or with an address that cannot be read. */
  predicate Broken(typ: byte, data: seq<byte>) {
    || (typ == MESSAGE_ROUTER_ID && |data| < 10)
    || (typ == MESSAGE_NH && (|data| < 2 || data[0] > 3 || |data| - 2 < [0, 4, 16, 8][data[0]]))
    || (typ == MESSAGE_UPDATE && (|data| < 10 || Unreadable(data)))
  }

  /** Well-formed, and bytes are omitted only if the prefix they come from was said. */
  predicate Sayable(c: Context, m: Message) {
    match m
    case Identity(id) => |id| == 8
    case Through(via) =>
      (match via
       case ViaNone => true
       case Via4(bytes) => |bytes| == 4
       case Via6(_) => true
       case ViaLocal(suffix) => |suffix| == 8)
    case Garbled(typ, data) => Broken(typ, data) && |data| <= 255
    case Elsewhere(typ, data) =>
      typ !in {MESSAGE_PAD1, MESSAGE_ROUTER_ID, MESSAGE_NH, MESSAGE_UPDATE} && |data| <= 255
    case Announcement(ae, _, prefix, plen, omit, _, _, _, extra) =>
      && ae <= 3 && |extra| <= 229 && plen <= 128 && Canonical(prefix, plen) && omit <= Reach(m)
      && (ae == 0 ==> prefix == Zeros(16) && plen == 0)
      && (ae == 1 ==> plen >= 96 && V4Mapped(prefix))
      && (ae == 3 ==> plen >= 64 && prefix[..8] == LOCAL && omit == 0)
      && (omit > 0 && ae == 1 ==> c.prefix4.Some? && c.prefix4.value[..12 + omit] == prefix[..12 + omit])
      && (omit > 0 && ae == 2 ==>
            c.prefix6.Some? && !V4Mapped(c.prefix6.value) && c.prefix6.value[..omit] == prefix[..omit])
  }

  function ViaBytes(via: Via): seq<byte> {
    match via
    case ViaNone => [0, 0]
    case Via4(bytes) => [1, 0] + bytes
    case Via6(address) => [2, 0] + address
    case ViaLocal(suffix) => [3, 0] + suffix
  }

  /** The bytes of the prefix that are sent. */
  function Given(m: Message): (s: seq<byte>)
    requires m.Announcement? && m.plen <= 128 && m.omit <= Reach(m) && (m.ae == 1 ==> m.plen >= 96)
    requires m.ae == 3 ==> m.plen >= 64
    ensures |s| <= 16
  {
    if m.ae == 1 then m.prefix[12 + m.omit..12 + Reach(m)]
    else if m.ae == 3 then m.prefix[8..Reach(m)]
    else m.prefix[m.omit..Reach(m)]
  }

  function AsRoute(m: Message): Route
    requires m.Announcement?
  {
    Route([], m.prefix, m.plen, m.seqno, m.metric, m.interval)
  }

  function WirePlen(m: Message): byte
    requires m.Announcement? && m.plen <= 128
  {
    if m.ae == 1 && m.plen >= 96 then m.plen - 96 else m.plen
  }

  function Written(c: Context, m: Message): Tlv
    requires Sayable(c, m)
  {
    match m
    case Identity(id) => IdTlv(id)
    case Through(via) => Tlv(MESSAGE_NH, ViaBytes(via))
    case Garbled(typ, data) => Tlv(typ, data)
    case Elsewhere(typ, data) => Tlv(typ, data)
    case Announcement(ae, flags, _, _, omit, _, _, _, extra) =>
      UpdateTlv(ae, flags, WirePlen(m), omit, AsRoute(m), Given(m) + extra)
  }

  // ----- meaning -----

  function AddressOf(via: Via): Address
    requires Sayable(SILENCE, Through(via))
  {
    match via
    case ViaNone => Zeros(16)
    case Via4(bytes) => V4PREFIX + bytes
    case Via6(address) => address
    case ViaLocal(suffix) => LOCAL + suffix
  }

  predicate Flagged(m: Message)
    requires m.Announcement?
  {
    m.flags / 128 % 2 == 1
  }

  predicate Identifies(m: Message)
    requires m.Announcement?
  {
    m.flags / 64 % 2 == 1
  }

  /** The test for omitted bytes looks at the wrong field: unless the flags are
      exactly 1, it asks whether an IPv6 prefix was said, even of an IPv4 prefix. */
  predicate Misjudged(c: Context, m: Message)
    requires m.Announcement?
  {
    m.omit > 0 && if m.flags == 1 then c.prefix4.None? else c.prefix6.None?
  }

  /** What a message that cannot be read makes the receiver forget, lest it take an
      older value for the one that was meant. */
  function Forgotten(c: Context, typ: byte, data: seq<byte>): Context {
    if typ == MESSAGE_ROUTER_ID then c.(id := None)
    else if typ == MESSAGE_NH then c.(nh4 := None, nh6 := None)
    else if |data| < 2 || data[1] / 128 % 2 == 1 then c.(prefix4 := None, prefix6 := None)
    else c
  }

  /** What is in force after a message. */
  function Afterwards(c: Context, m: Message): Context
    requires Sayable(c, m)
  {
    match m
    case Identity(id) => c.(id := Some(id))
    case Through(via) => if via.Via4? then c.(nh4 := Some(AddressOf(via))) else c.(nh6 := Some(AddressOf(via)))
    case Garbled(typ, data) => Forgotten(c, typ, data)
    case Elsewhere(_, _) => c
    case Announcement(ae, _, prefix, _, _, _, _, _, _) =>
      if Misjudged(c, m) then (if Flagged(m) then c.(prefix4 := None, prefix6 := None) else c)
      else
        var d := if !Flagged(m) then c
                 else if ae == 1 then c.(prefix4 := Some(prefix)) else c.(prefix6 := Some(prefix));
        if !Identifies(m) then d
        else d.(id := Some(if ae == 1 then [0, 0, 0, 0] + prefix[12..] else prefix[8..]))
  }

  /** What is to be learnt from it: nothing while the router-id, or for IPv4 the next
      hop, is missing; the next hop is the one announced for the family, and for IPv6
      the sender if none was. */
  function Told(c: Context, m: Message, r: Receiver): seq<Heard>
    requires Sayable(c, m)
  {
    if !m.Announcement? || Misjudged(c, m) then []
    else
      var d := Afterwards(c, m);
      if m.ae == 0 then (if m.metric == 65535 then [WildcardRetraction] else [])
      else if d.id.None? || (m.ae == 1 && (d.nh4.None? || !r.hasIpv4)) then []
      else
        var nh := if m.ae == 1 then d.nh4.value else if d.nh6.Some? then d.nh6.value else r.from;
        [Update(d.id.value, m.prefix, m.plen, m.seqno, m.metric, m.interval, nh)]
  }

  predicate AllSayable(c: Context, ms: seq<Message>)
    decreases |ms|
  {
    ms == [] || (Sayable(c, ms[0]) && AllSayable(Afterwards(c, ms[0]), ms[1..]))
  }

  function AllWritten(c: Context, ms: seq<Message>): seq<Tlv>
    requires AllSayable(c, ms)
    decreases |ms|
  {
    if ms == [] then [] else [Written(c, ms[0])] + AllWritten(Afterwards(c, ms[0]), ms[1..])
  }

  function AllTold(c: Context, ms: seq<Message>, r: Receiver): seq<Heard>
    requires AllSayable(c, ms)
    decreases |ms|
  {
    if ms == [] then [] else Told(c, ms[0], r) + AllTold(Afterwards(c, ms[0]), ms[1..], r)
  }

  // ----- the parser follows -----

  /** The parser knows what is in force. */
  ghost predicate Tracks(c: Context, p: Parser) {
    && p.id == c.id && p.v4Nh == c.nh4 && p.v6Nh == c.nh6
    && p.haveV4Prefix == c.prefix4.Some? && (c.prefix4.Some? ==> p.v4Prefix == c.prefix4 && V4Mapped(c.prefix4.value))
    && p.haveV6Prefix == c.prefix6.Some? && (c.prefix6.Some? ==> p.v6Prefix == c.prefix6)
  }

  lemma ViaIsRead(c: Context, via: Via)
    requires Sayable(c, Through(via))
    ensures var b := ViaBytes(via);
            var r := NetworkPrefix(b[0], None, 0, b[2..], None);
            r.Some? && r.value.0 == AddressOf(via) && (b[0] == 1 <==> via.Via4?)
  {
    var b := ViaBytes(via);
    MaskNothing(AddressOf(via));
    match via {
      case ViaNone =>
        assert b[0] == 0;
      case Via4(bytes) =>
        assert b[0] == 1 && b[2..] == bytes && bytes[..4] == bytes;
        assert Padded(V4PREFIX + bytes) == V4PREFIX + bytes;
      case Via6(address) =>
        assert b[0] == 2 && b[2..] == address && [] + address[..16] == address;
        assert Padded(address) == address;
      case ViaLocal(suffix) =>
        assert b[0] == 3 && b[2..] == suffix && suffix[..8] == suffix;
        assert [0xfe, 0x80] + Zeros(6) == LOCAL;
        assert Padded(LOCAL + suffix) == LOCAL + suffix;
    }
  }

  lemma StepVia(c: Context, p: Parser, via: Via, r: Receiver)
    requires Sayable(c, Through(via))
    ensures ValidTlv(Tlv(MESSAGE_NH, ViaBytes(via)))
    ensures Step(p, Bytes(Tlv(MESSAGE_NH, ViaBytes(via))), r) ==
            Stepped(if via.Via4? then p.(v4Nh := Some(AddressOf(via))) else p.(v6Nh := Some(AddressOf(via))), [])
  {
    var b := ViaBytes(via);
    var m := Bytes(Tlv(MESSAGE_NH, b));
    assert m[2] == b[0] && m[4..] == b[2..];
    ViaIsRead(c, via);
  }

  /** What follows the bytes of the prefix does not matter. */
  lemma MoreBehind(ae: byte, plen: byte, omitted: byte, p: seq<byte>, extra: seq<byte>, dp: Option<Address>)
    requires ae <= 3 && omitted <= (plen + 7) / 8 && |p| == (plen + 7) / 8 - (if ae == 3 then 8 else omitted)
    ensures NetworkPrefix(ae, Some(plen), omitted, p + extra, dp) == NetworkPrefix(ae, Some(plen), omitted, p, dp)
  {
    assert (p + extra)[..|p|] == p == p[..|p|];
  }

  /** The prefix an IPv4 announcement with omitted bytes stands for. */
  lemma Omitted4(plen: byte, omitted: byte, p: seq<byte>, dp: Option<Address>, prefix: Address)
    requires plen <= 32 && Canonical(prefix, plen + 96) && omitted + |p| == (plen + 7) / 8 && V4Mapped(prefix)
    requires omitted > 0 ==> dp.Some? && V4Mapped(dp.value) && dp.value[..12 + omitted] == prefix[..12 + omitted]
    requires p == prefix[12 + omitted..12 + (plen + 7) / 8]
    ensures NetworkPrefix(1, Some(plen), omitted, p, dp) == Some((prefix, |p|))
  {
    var head := if omitted > 0 then dp.value[..12 + omitted] else V4PREFIX;
    assert head == prefix[..12 + omitted] && p[..|p|] == p;
    assert head + p == prefix[..12 + (plen + 7) / 8];
    PaddedRestores(head + p, prefix, plen + 96);
  }

  lemma LocalPrefix(plen: byte, p: seq<byte>, prefix: Address)
    requires 64 <= plen <= 128 && Canonical(prefix, plen) && prefix[..8] == LOCAL && p == prefix[8..(plen + 7) / 8]
    ensures NetworkPrefix(3, Some(plen), 0, p, None) == Some((prefix, |p|))
  {
    assert [0xfe, 0x80] + Zeros(6) == LOCAL && p[..|p|] == p;
    assert LOCAL + p == prefix[..(plen + 7) / 8];
    PaddedRestores(LOCAL + p, prefix, plen);
  }

  lemma SixPrefix(plen: byte, omitted: byte, p: seq<byte>, dp: Option<Address>, prefix: Address)
    requires plen <= 128 && Canonical(prefix, plen) && omitted <= (plen + 7) / 8
    requires omitted > 0 ==> dp.Some? && !V4Mapped(dp.value) && dp.value[..omitted] == prefix[..omitted]
    requires p == prefix[omitted..(plen + 7) / 8]
    ensures NetworkPrefix(2, Some(plen), omitted, p, dp) == Some((prefix, |p|))
  {
    var head := if omitted > 0 then dp.value[..omitted] else [];
    assert head == prefix[..omitted];
    assert head + p == prefix[..(plen + 7) / 8];
    Restored6(plen, omitted, p, dp, prefix);
  }

  /** The default prefix the parser completes a message with. */
  function Default(p: Parser, ae: byte): Option<Address> {
    if ae == 1 then p.v4Prefix else p.v6Prefix
  }

  lemma FourIsBack(c: Context, p: Parser, m: Message)
    requires m.Announcement? && Sayable(c, m) && Tracks(c, p) && m.ae == 1
    ensures NetworkPrefix(1, Some(WirePlen(m)), m.omit, Given(m), p.v4Prefix) == Some((m.prefix, |Given(m)|))
  {
    Omitted4(WirePlen(m), m.omit, Given(m), p.v4Prefix, m.prefix);
  }

  lemma SixIsBack(c: Context, p: Parser, m: Message)
    requires m.Announcement? && Sayable(c, m) && Tracks(c, p) && m.ae == 2
    ensures NetworkPrefix(2, Some(WirePlen(m)), m.omit, Given(m), p.v6Prefix) == Some((m.prefix, |Given(m)|))
  {
    SixPrefix(WirePlen(m), m.omit, Given(m), p.v6Prefix, m.prefix);
  }

  lemma OtherIsBack(c: Context, p: Parser, m: Message, dp: Option<Address>)
    requires m.Announcement? && Sayable(c, m) && (m.ae == 0 || m.ae == 3)
    ensures NetworkPrefix(m.ae, Some(WirePlen(m)), m.omit, Given(m), dp) == Some((m.prefix, |Given(m)|))
  {
    if m.ae == 0 {
      assert MaskPrefix(Zeros(16), 0) == Zeros(16);
      assert Given(m) == [];
    } else {
      LocalPrefix(WirePlen(m), Given(m), m.prefix);
    }
  }

  lemma PrefixIsBack(c: Context, p: Parser, m: Message)
    requires m.Announcement? && Sayable(c, m) && Tracks(c, p)
    ensures NetworkPrefix(m.ae, Some(WirePlen(m)), m.omit, Given(m) + m.extra, Default(p, m.ae)) ==
            Some((m.prefix, |Given(m)|))
  {
    MoreBehind(m.ae, WirePlen(m), m.omit, Given(m), m.extra, Default(p, m.ae));
    if m.ae == 1 {
      FourIsBack(c, p, m);
    } else if m.ae == 2 {
      SixIsBack(c, p, m);
    } else {
      OtherIsBack(c, p, m, Default(p, m.ae));
    }
  }

  lemma WideFields(ae: byte, flags: byte, plen: byte, omit: byte, u: Route, tail: seq<byte>)
    requires |tail| <= 245
    ensures var t := UpdateTlv(ae, flags, plen, omit, u, tail);
            && ValidTlv(t)
            && var m := Bytes(t);
            && |m| == 12 + |tail|
            && m[0] == MESSAGE_UPDATE && m[2] == ae && m[3] == flags && m[4] == plen && m[5] == omit && m[12..] == tail
            && Short(m[6], m[7]) == u.interval && Short(m[8], m[9]) == u.seqno && Short(m[10], m[11]) == u.metric
  {
  }

  /** The parser after an update whose prefix it has made out. */
  function Noted(p: Parser, m: Message): Parser
    requires m.Announcement?
  {
    Identify(Remember(p, m.ae, m.flags, m.prefix), m.ae, m.flags, m.prefix)
  }

  lemma ReadsPrefix(p: Parser, b: seq<byte>, r: Receiver, prefix: Address, k: nat)
    requires |b| >= 12 && b[0] == MESSAGE_UPDATE
    requires b[5] == 0 || (if b[3] == 1 then p.haveV4Prefix else p.haveV6Prefix)
    requires b[5] > 0 ==> Default(p, b[2]).Some?
    requires NetworkPrefix(b[2], Some(b[4]), b[5], b[12..], Default(p, b[2])) == Some((prefix, k))
    ensures var q := Identify(Remember(p, b[2], b[3], prefix), b[2], b[3], prefix);
            Step(p, b, r) == Stepped(q, Deliver(q, b, prefix, r))
  {
  }

  lemma MissesPrefix(p: Parser, b: seq<byte>, r: Receiver)
    requires |b| >= 12 && b[0] == MESSAGE_UPDATE && b[5] > 0
    requires !(if b[3] == 1 then p.haveV4Prefix else p.haveV6Prefix)
    ensures Step(p, b, r) == Stepped(if Bit80(b[3]) then NoPrefixes(p) else p, [])
  {
  }

  lemma NotedTracks(c: Context, p: Parser, m: Message)
    requires m.Announcement? && Sayable(c, m) && Tracks(c, p) && !Misjudged(c, m)
    ensures Tracks(Afterwards(c, m), Noted(p, m))
  {
  }

  lemma DeliversTold(c: Context, q: Parser, m: Message, b: seq<byte>, r: Receiver)
    requires m.Announcement? && Sayable(c, m) && !Misjudged(c, m) && Tracks(Afterwards(c, m), q)
    requires |b| >= 12 && b[2] == m.ae && b[4] == WirePlen(m)
    requires Short(b[6], b[7]) == m.interval && Short(b[8], b[9]) == m.seqno && Short(b[10], b[11]) == m.metric
    ensures Deliver(q, b, m.prefix, r) == Told(c, m, r)
  {
  }

  lemma StepAnnouncement(c: Context, p: Parser, m: Message, r: Receiver)
    requires m.Announcement? && Sayable(c, m) && Tracks(c, p)
    ensures ValidTlv(Written(c, m))
    ensures var s := Step(p, Bytes(Written(c, m)), r);
            s.Stepped? && s.heard == Told(c, m, r) && Tracks(Afterwards(c, m), s.parser)
  {
    WideFields(m.ae, m.flags, WirePlen(m), m.omit, AsRoute(m), Given(m) + m.extra);
    var b := Bytes(Written(c, m));
    if Misjudged(c, m) {
      MissesPrefix(p, b, r);
    } else {
      PrefixIsBack(c, p, m);
      ReadsPrefix(p, b, r, m.prefix, |Given(m)|);
      NotedTracks(c, p, m);
      DeliversTold(c, Noted(p, m), m, b, r);
    }
  }

  lemma UnreadableIsNone(data: seq<byte>, dp: Option<Address>)
    requires |data| >= 10 && Unreadable(data)
    ensures NetworkPrefix(data[0], Some(data[2]), data[3], data[10..], dp) == None
    ensures !Relies(data[0], data[2], data[3], |data| - 10)
  {
  }

  lemma StepGarbled(c: Context, p: Parser, typ: byte, data: seq<byte>, r: Receiver)
    requires Broken(typ, data) && |data| <= 255 && Tracks(c, p)
    ensures ValidTlv(Tlv(typ, data))
    ensures var s := Step(p, Bytes(Tlv(typ, data)), r);
            s.Stepped? && s.heard == [] && Tracks(Forgotten(c, typ, data), s.parser)
  {
    var b := Bytes(Tlv(typ, data));
    assert b[2..] == data && forall i :: 0 <= i < |data| ==> b[i + 2] == data[i];
    if typ == MESSAGE_UPDATE && |data| >= 10 {
      assert b[12..] == data[10..];
      UnreadableIsNone(data, if data[0] == 1 then p.v4Prefix else p.v6Prefix);
    }
  }

  lemma StepListens(c: Context, p: Parser, m: Message, r: Receiver)
    requires Sayable(c, m) && Tracks(c, p)
    ensures ValidTlv(Written(c, m))
    ensures var s := Step(p, Bytes(Written(c, m)), r);
            s.Stepped? && s.heard == Told(c, m, r) && Tracks(Afterwards(c, m), s.parser)
  {
    match m {
      case Identity(id) => StepId(p, id, r);
      case Through(via) => StepVia(c, p, via, r);
      case Garbled(typ, data) => StepGarbled(c, p, typ, data, r);
      case Elsewhere(typ, data) =>
      case Announcement(_, _, _, _, _, _, _, _, _) => StepAnnouncement(c, p, m, r);
    }
  }

  lemma {:induction false} FoldListens(c: Context, p: Parser, ms: seq<Message>, r: Receiver)
    requires AllSayable(c, ms) && Tracks(c, p)
    ensures ValidTlvs(AllWritten(c, ms))
    ensures var s := Fold(p, AllWritten(c, ms), r); s.Stepped? && s.heard == AllTold(c, ms, r)
    decreases |ms|
  {
    if ms != [] {
      StepListens(c, p, ms[0], r);
      var s, ts := Step(p, Bytes(Written(c, ms[0])), r), AllWritten(c, ms);
      FoldListens(Afterwards(c, ms[0]), s.parser, ms[1..], r);
      assert ts[0] == Written(c, ms[0]) && ts[1..] == AllWritten(Afterwards(c, ms[0]), ms[1..]);
    }
  }

  /** A packet with any messages of any sender is heard as it is meant. */
  lemma ListenerHears(ms: seq<Message>, r: Receiver)
    requires AllSayable(SILENCE, ms) && r.from[..8] == LOCAL
    ensures var ts := AllWritten(SILENCE, ms);
            && ValidTlvs(ts)
            && (|Encode(ts)| <= 0xFFFF ==>
                  Parse(Packet(ts), r).Stepped? && Parse(Packet(ts), r).heard == AllTold(SILENCE, ms, r))
  {
    FoldListens(SILENCE, START, ms, r);
    if |Encode(AllWritten(SILENCE, ms))| <= 0xFFFF {
      ParsePacketOf(AllWritten(SILENCE, ms), r);
    }
  }

  /** Packets from elsewhere, and of another protocol or version, are not heard. */
  lemma ForeignPacket(packet: seq<byte>, r: Receiver)
    requires |packet| >= 4 && (r.from[..8] != LOCAL || packet[0] != 42 || packet[1] != 2)
    ensures Parse(packet, r) == Stepped(START, [])
  {
  }

  /** What follows the body is not read. */
  lemma {:induction false} ParseInFront(p: Parser, ts: seq<Tlv>, tail: seq<byte>, r: Receiver)
    requires ValidTlvs(ts)
    ensures ParseFrom(p, Encode(ts) + tail, |Encode(ts)|, r) == Fold(p, ts, r)
    decreases |ts|
  {
    if ts != [] {
      var b, more, s := Bytes(ts[0]), Encode(ts[1..]), Encode(ts) + tail;
      assert s[..|b|] == b && s[|b|..] == more + tail;
      var one := Step(p, b, r);
      if one.Stepped? {
        ParseInFront(one.parser, ts[1..], tail, r);
      }
    }
  }

  /** The body ends where the header says, or where the packet does. */
  lemma BodyEnds(ts: seq<Tlv>, tail: seq<byte>, n: nat, r: Receiver)
    requires ValidTlvs(ts) && n < 0x10000 && r.from[..8] == LOCAL
    requires n == |Encode(ts)| || (n > |Encode(ts)| && tail == [])
    ensures Parse([42, 2, Hi(n), Lo(n)] + (Encode(ts) + tail), r) == Fold(START, ts, r)
  {
    var packet := [42, 2, Hi(n), Lo(n)] + (Encode(ts) + tail);
    ShortOf(n);
    assert packet[4..] == Encode(ts) + tail;
    ParseInFront(START, ts, tail, r);
  }

  /** The one way to depend on memory that was never written: bytes are omitted from
      a prefix of a family that had none, because the other family had one. */
  lemma StepUndefinedIff(p: Parser, m: seq<byte>, r: Receiver)
    requires |m| >= 2
    ensures Step(p, m, r).Undefined? <==>
            && m[0] == MESSAGE_UPDATE && |m| >= 12 && !Unreadable(m[2..]) && m[5] > 0
            && (if m[3] == 1 then p.haveV4Prefix else p.haveV6Prefix)
            && ((m[2] == 1 && p.v4Prefix == None) || (m[2] == 2 && p.v6Prefix == None))
  {
  }

  // ----- padding, and packets that end too early -----

  lemma {:induction false} PadsAreSkipped(p: Parser, n: nat, s: seq<byte>, left: int, r: Receiver)
    requires 0 <= left <= |s|
    ensures ParseFrom(p, Zeros(n) + s, n + left, r) == ParseFrom(p, s, left, r)
  {
    if n == 0 {
      assert Zeros(0) + s == s;
    } else {
      var t := Zeros(n) + s;
      assert t[0] == 0 && t[1..] == Zeros(n - 1) + s;
      PadsAreSkipped(p, n - 1, s, left, r);
    }
  }

  /** The bytes of some messages, each with padding before it. */
  function Padding(ts: seq<Tlv>, pads: seq<nat>): seq<byte>
    requires ValidTlvs(ts) && |pads| == |ts|
    decreases |ts|
  {
    if ts == [] then [] else Zeros(pads[0]) + (Bytes(ts[0]) + Padding(ts[1..], pads[1..]))
  }

  /** The rest of a packet after one message. */
  function Onward(one: Stepped, rest: seq<byte>, left: int, r: Receiver): Stepped
    requires left <= |rest|
  {
    if one.Undefined? then Undefined else Then(one.heard, ParseFrom(one.parser, rest, left, r))
  }

  /** One message at the head of the rest of a packet. */
  lemma ParseHead(p: Parser, t: Tlv, rest: seq<byte>, left: int, r: Receiver)
    requires ValidTlv(t) && 0 <= left <= |rest|
    ensures ParseFrom(p, Bytes(t) + rest, |Bytes(t)| + left, r) == Onward(Step(p, Bytes(t), r), rest, left, r)
  {
    var s, n := Bytes(t) + rest, |t.data|;
    assert s[0] == t.typ && s[1] == n && s[..n + 2] == Bytes(t) && s[n + 2..] == rest;
  }

  lemma PaddedHead(p: Parser, n: nat, t: Tlv, rest: seq<byte>, r: Receiver)
    requires ValidTlv(t)
    ensures var s := Zeros(n) + (Bytes(t) + rest);
            ParseFrom(p, s, |s|, r) == Onward(Step(p, Bytes(t), r), rest, |rest|, r)
  {
    var body := Bytes(t) + rest;
    PadsAreSkipped(p, n, body, |body|, r);
    ParseHead(p, t, rest, |rest|, r);
  }

  lemma PaddingSplit(ts: seq<Tlv>, pads: seq<nat>, cut: seq<byte>)
    requires ValidTlvs(ts) && |pads| == |ts| > 0
    ensures Padding(ts, pads) + cut == Zeros(pads[0]) + (Bytes(ts[0]) + (Padding(ts[1..], pads[1..]) + cut))
  {
    var later := Padding(ts[1..], pads[1..]);
    Associates(Zeros(pads[0]), Bytes(ts[0]) + later, cut);
    Associates(Bytes(ts[0]), later, cut);
  }

  /** Padding anywhere between messages changes nothing, and a last message that
      claims to reach at least three bytes beyond the end is dropped alone. */
  lemma {:induction false} PaddedAndCutOff(p: Parser, ts: seq<Tlv>, pads: seq<nat>, cut: seq<byte>, r: Receiver)
    requires ValidTlvs(ts) && |pads| == |ts|
    requires cut == [] || (|cut| >= 2 && cut[0] != MESSAGE_PAD1 && cut[1] > |cut|)
    ensures var s := Padding(ts, pads) + cut; ParseFrom(p, s, |s|, r) == Fold(p, ts, r)
    decreases |ts|
  {
    if ts == [] {
      assert Padding(ts, pads) + cut == cut;
    } else {
      PaddingSplit(ts, pads, cut);
      PaddedHead(p, pads[0], ts[0], Padding(ts[1..], pads[1..]) + cut, r);
      var one := Step(p, Bytes(ts[0]), r);
      if one.Stepped? {
        PaddedAndCutOff(one.parser, ts[1..], pads[1..], cut, r);
      }
    }
  }
}
