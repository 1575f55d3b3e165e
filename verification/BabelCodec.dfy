/** The update codec as a whole: whatever is sent over an interface, in whatever
    packets it ends up, is what a receiver hears. */
module BabelCodec {
  import opened Basics
  import opened BabelPrefix
  import opened BabelParser
  import opened BabelSender

  predicate WellFormed(u: Route) {
    Proper(u) && Canonical(u.prefix, u.plen)
  }

  // ----- messages one by one -----

  /** The parser's state after a list of messages, and what it has heard. */
  function Fold(p: Parser, ts: seq<Tlv>, r: Receiver): Stepped
    requires ValidTlvs(ts)
    decreases |ts|
  {
    if ts == [] then Stepped(p, [])
    else
      match Step(p, Bytes(ts[0]), r)
      case Undefined => Undefined
      case Stepped(q, heard) => Then(heard, Fold(q, ts[1..], r))
  }

  lemma {:induction false} FoldConcat(p: Parser, a: seq<Tlv>, b: seq<Tlv>, r: Receiver)
    requires ValidTlvs(a) && ValidTlvs(b) && Fold(p, a, r).Stepped?
    ensures ValidTlvs(a + b)
    ensures Fold(p, a + b, r) == Then(Fold(p, a, r).heard, Fold(Fold(p, a, r).parser, b, r))
    decreases |a|
  {
    if a == [] {
      assert a + b == b;
      ThenNothing([], Fold(p, b, r));
    } else {
      assert (a + b)[0] == a[0] && (a + b)[1..] == a[1..] + b;
      var one := Step(p, Bytes(a[0]), r);
      FoldConcat(one.parser, a[1..], b, r);
      ThenTwice(one.heard, Fold(one.parser, a[1..], r).heard, Fold(Fold(p, a, r).parser, b, r));
    }
  }

  lemma FoldOne(p: Parser, t: Tlv, r: Receiver)
    requires ValidTlv(t)
    ensures Fold(p, [t], r) == Step(p, Bytes(t), r)
  {
  }

  /** The bytes of a list of messages are parsed message by message. */
  lemma {:induction false} ParseEncoded(p: Parser, ts: seq<Tlv>, r: Receiver)
    requires ValidTlvs(ts)
    ensures ParseFrom(p, Encode(ts), |Encode(ts)|, r) == Fold(p, ts, r)
    decreases |ts|
  {
    if ts != [] {
      var s, n := Encode(ts), |ts[0].data|;
      assert s[0] == ts[0].typ && s[1] == n;
      assert s[..n + 2] == Bytes(ts[0]) && s[n + 2..] == Encode(ts[1..]);
      var one := Step(p, Bytes(ts[0]), r);
      if one.Stepped? {
        ParseEncoded(one.parser, ts[1..], r);
      }
    }
  }

  lemma ShortOf(n: nat)
    requires n < 0x10000
    ensures Short(Hi(n), Lo(n)) == n
  {
  }

  /** A packet is parsed from a fresh state. */
  lemma ParsePacketOf(ts: seq<Tlv>, r: Receiver)
    requires ValidTlvs(ts) && |Encode(ts)| <= 0xFFFF && LinkLocal(r.from)
    ensures Parse(Packet(ts), r) == Fold(START, ts, r)
  {
    ShortOf(|Encode(ts)|);
    assert Packet(ts)[4..] == Encode(ts);
    ParseEncoded(START, ts, r);
  }

  // ----- the two ends in step -----

  /** Whatever the sender relies on, the parser knows. */
  ghost predicate InStep(o: Out, p: Parser) {
    && (o.id.Some? ==> p.id == o.id)
    && (o.nh.Some? ==> |o.nh.value| == 4 && p.v4Nh == Some(V4PREFIX + o.nh.value))
    && (o.prefix.Some? ==> p.haveV6Prefix && p.v6Prefix == o.prefix && !V4Mapped(o.prefix.value))
    && p.v6Nh.None?
  }

  lemma StepNh(p: Parser, ipv4: seq<byte>, r: Receiver)
    requires |ipv4| == 4
    ensures Step(p, Bytes(NhTlv(ipv4)), r) == Stepped(p.(v4Nh := Some(V4PREFIX + ipv4)), [])
  {
    var m := Bytes(NhTlv(ipv4));
    assert m[0] == MESSAGE_NH && m[2] == 1 && m[4..] == ipv4;
    assert ipv4[..4] == ipv4;
    assert Padded(V4PREFIX + ipv4) == V4PREFIX + ipv4;
    MaskNothing(V4PREFIX + ipv4);
  }

  lemma StepId(p: Parser, id: seq<byte>, r: Receiver)
    requires |id| == 8
    ensures Step(p, Bytes(IdTlv(id)), r) == Stepped(p.(id := Some(id)), [])
  {
    var m := Bytes(IdTlv(id));
    assert m[0] == MESSAGE_ROUTER_ID && m[4..12] == id;
  }

  lemma StepWildcard(p: Parser, seqno: u16, r: Receiver)
    ensures Step(p, Bytes(WildcardTlv(seqno)), r) == Stepped(p.(id := Some(Zeros(8))), [WildcardRetraction])
  {
    var m := Bytes(WildcardTlv(seqno));
    assert m[0] == MESSAGE_UPDATE && m[2] == 0 && m[3] == 0x40 && m[4] == 0 && m[5] == 0;
    assert m[10] == 0xFF && m[11] == 0xFF;
    assert MaskPrefix(Zeros(16), 0) == Zeros(16);
    assert Zeros(16)[8..] == Zeros(8);
  }

  /** The address bytes of an IPv6 update bring the prefix back, whichever end
      remembers the omitted ones. */
  lemma PrefixBack6(o: Out, p: Parser, u: Route)
    requires WellFormed(u) && !IsV4(u) && InStep(o.(id := None), p)
    ensures var n, pb := Omit(o, u), (u.plen + 7) / 8;
            && NetworkPrefix(2, Some(u.plen), n, u.prefix[n..pb], p.v6Prefix) == Some((u.prefix, pb - n))
            && (n > 0 ==> p.haveV6Prefix && p.v6Prefix.Some?)
  {
    var n, pb := Omit(o, u), (u.plen + 7) / 8;
    var head := if n > 0 then p.v6Prefix.value[..n] else [];
    assert head == u.prefix[..n];
    assert head + u.prefix[n..pb] == u.prefix[..pb];
    Restored6(u.plen, n, u.prefix[n..pb], p.v6Prefix, u.prefix);
  }

  lemma PrefixBack4(u: Route, dp: Option<Address>)
    requires WellFormed(u) && IsV4(u)
    ensures var n := u.plen - 96;
            NetworkPrefix(1, Some(n), 0, u.prefix[12..12 + (n + 7) / 8], dp) == Some((u.prefix, (n + 7) / 8))
  {
    var pb := (u.plen - 96 + 7) / 8;
    assert V4PREFIX + u.prefix[12..12 + pb] == u.prefix[..12 + pb];
    Restored4(u.plen - 96, u.prefix[12..12 + pb], dp, u.prefix);
  }

  /** The fixed part of an update message. */
  lemma UpdateFields(ae: byte, flags: byte, plen: byte, omit: byte, u: Route, tail: seq<byte>)
    requires |tail| <= 16
    ensures var t := UpdateTlv(ae, flags, plen, omit, u, tail);
            && ValidTlv(t)
            && var m := Bytes(t);
            && |m| == 12 + |tail|
            && m[0] == MESSAGE_UPDATE && m[2] == ae && m[3] == flags && m[4] == plen && m[5] == omit && m[12..] == tail
            && Short(m[6], m[7]) == u.interval && Short(m[8], m[9]) == u.seqno && Short(m[10], m[11]) == u.metric
  {
  }

  function Hear(u: Route, nexthop: Address): Heard {
    Update(u.id, u.prefix, u.plen, u.seqno, u.metric, u.interval, nexthop)
  }

  /** An update whose prefix can be reconstructed. */
  lemma StepKnown(p: Parser, m: seq<byte>, r: Receiver, prefix: Address, k: nat)
    requires |m| >= 12 && m[0] == MESSAGE_UPDATE && m[3] != 1
    requires m[5] > 0 ==> p.haveV6Prefix && m[2] == 2 && p.v6Prefix.Some?
    requires NetworkPrefix(m[2], Some(m[4]), m[5], m[12..], if m[2] == 1 then p.v4Prefix else p.v6Prefix) ==
             Some((prefix, k))
    ensures var q := Identify(Remember(p, m[2], m[3], prefix), m[2], m[3], prefix);
            Step(p, m, r) == Stepped(q, Deliver(q, m, prefix, r))
  {
  }

  lemma FlagBits(o: Out, u: Route)
    ensures Bit80(Flags(o, u)) == Remembers(o, u) && Bit40(Flags(o, u)) == (NewId(o, u) && SelfIdentifying(u))
    ensures Flags(o, u) % 64 == 0
  {
  }

  /** What the parser has learnt from an IPv6 update. */
  function Learnt(p: Parser, o: Out, u: Route): Parser {
    Identify(Remember(p, 2, Flags(o, u), u.prefix), 2, Flags(o, u), u.prefix)
  }

  lemma LearntInStep(o: Out, p: Parser, u: Route)
    requires WellFormed(u) && !IsV4(u) && InStep(o.(id := None), p)
    requires (NewId(o, u) && SelfIdentifying(u)) || p.id == Some(u.id)
    ensures var prefix := if Remembers(o, u) then Some(u.prefix) else o.prefix;
            InStep(o.(id := Some(u.id), prefix := prefix), Learnt(p, o, u))
  {
    FlagBits(o, u);
    CanonicalV6IsNotMapped(u.prefix, u.plen);
  }

  lemma Deliver6(p: Parser, m: seq<byte>, u: Route, r: Receiver)
    requires |m| >= 12 && m[2] == 2 && m[4] == u.plen && p.id == Some(u.id) && p.v6Nh == None
    requires Short(m[6], m[7]) == u.interval && Short(m[8], m[9]) == u.seqno && Short(m[10], m[11]) == u.metric
    ensures Deliver(p, m, u.prefix, r) == [Hear(u, r.from)]
  {
  }

  lemma Message6(o: Out, u: Route)
    requires WellFormed(u) && !IsV4(u)
    ensures ValidTlv(UpdateMessage(o, u))
    ensures var m := Bytes(UpdateMessage(o, u));
            && |m| >= 12 && m[0] == MESSAGE_UPDATE && m[2] == 2 && m[3] == Flags(o, u) && m[4] == u.plen
            && m[5] == Omit(o, u) && m[12..] == u.prefix[Omit(o, u)..(u.plen + 7) / 8]
            && Short(m[6], m[7]) == u.interval && Short(m[8], m[9]) == u.seqno && Short(m[10], m[11]) == u.metric
  {
    UpdateFields(2, Flags(o, u), u.plen, Omit(o, u), u, u.prefix[Omit(o, u)..(u.plen + 7) / 8]);
  }

  lemma StepMessage6(o: Out, p: Parser, u: Route, m: seq<byte>, r: Receiver)
    requires WellFormed(u) && !IsV4(u) && InStep(o.(id := None), p)
    requires |m| >= 12 && m[0] == MESSAGE_UPDATE && m[2] == 2 && m[3] == Flags(o, u) && m[4] == u.plen
    requires m[5] == Omit(o, u) && m[12..] == u.prefix[Omit(o, u)..(u.plen + 7) / 8]
    ensures Step(p, m, r) == Stepped(Learnt(p, o, u), Deliver(Learnt(p, o, u), m, u.prefix, r))
  {
    PrefixBack6(o, p, u);
    FlagBits(o, u);
    StepKnown(p, m, r, u.prefix, (u.plen + 7) / 8 - Omit(o, u));
  }

  /** The parser knows, or learns from the update, the router-id. */
  lemma StepUpdate6(o: Out, p: Parser, u: Route, r: Receiver)
    requires WellFormed(u) && !IsV4(u) && InStep(o.(id := None), p)
    requires (NewId(o, u) && SelfIdentifying(u)) || p.id == Some(u.id)
    ensures ValidTlv(UpdateMessage(o, u))
    ensures Step(p, Bytes(UpdateMessage(o, u)), r) == Stepped(Learnt(p, o, u), [Hear(u, r.from)])
  {
    Message6(o, u);
    var m := Bytes(UpdateMessage(o, u));
    StepMessage6(o, p, u, m, r);
    LearntInStep(o, p, u);
    Deliver6(Learnt(p, o, u), m, u, r);
  }

  lemma Deliver4(p: Parser, m: seq<byte>, u: Route, ipv4: seq<byte>, r: Receiver)
    requires |m| >= 12 && 96 <= u.plen <= 128 && |ipv4| == 4
    requires m[2] == 1 && m[4] == u.plen - 96
    requires Short(m[6], m[7]) == u.interval && Short(m[8], m[9]) == u.seqno && Short(m[10], m[11]) == u.metric
    requires p.id == Some(u.id) && p.v4Nh == Some(V4PREFIX + ipv4)
    ensures Deliver(p, m, u.prefix, r) == if r.hasIpv4 then [Hear(u, V4PREFIX + ipv4)] else []
  {
  }

  lemma StepUpdate4(o: Out, p: Parser, u: Route, ipv4: seq<byte>, r: Receiver)
    requires WellFormed(u) && IsV4(u) && |ipv4| == 4 && p.v4Nh == Some(V4PREFIX + ipv4) && p.id == Some(u.id)
    ensures ValidTlv(UpdateMessage(o, u))
    ensures Step(p, Bytes(UpdateMessage(o, u)), r) ==
            Stepped(p, if r.hasIpv4 then [Hear(u, V4PREFIX + ipv4)] else [])
  {
    var n := u.plen - 96;
    var tail := u.prefix[12..12 + (n + 7) / 8];
    UpdateFields(1, Flags(o, u), n, 0, u, tail);
    FlagBits(o, u);
    PrefixBack4(u, p.v4Prefix);
    var m := Bytes(UpdateTlv(1, Flags(o, u), n, 0, u, tail));
    StepKnown(p, m, r, u.prefix, (n + 7) / 8);
    Deliver4(p, m, u, ipv4, r);
  }

  // ----- a whole group -----

  /** What one operation should make the receiver hear. */
  function Said(u: Route, ipv4: Option<seq<byte>>, r: Receiver): seq<Heard>
    requires Address4(ipv4)
  {
    if !IsV4(u) then [Hear(u, r.from)]
    else if ipv4.Some? && r.hasIpv4 then [Hear(u, V4PREFIX + ipv4.value)]
    else []
  }

  /** The messages before the update itself. */
  function Lead(o: Out, u: Route, ipv4: seq<byte>): seq<Tlv> {
    (if IsV4(u) && o.nh != Some(ipv4) then [NhTlv(ipv4)] else []) +
    (if NewId(o, u) && !SelfIdentifying(u) then [IdTlv(u.id)] else [])
  }

  function AfterNh(p: Parser, o: Out, u: Route, ipv4: seq<byte>): Parser
    requires |ipv4| == 4
  {
    if IsV4(u) && o.nh != Some(ipv4) then p.(v4Nh := Some(V4PREFIX + ipv4)) else p
  }

  function AfterId(p: Parser, o: Out, u: Route): Parser {
    if NewId(o, u) && !SelfIdentifying(u) then p.(id := Some(u.id)) else p
  }

  lemma FoldLead(o: Out, p: Parser, u: Route, ipv4: seq<byte>, r: Receiver)
    requires WellFormed(u) && |ipv4| == 4
    ensures ValidTlvs(Lead(o, u, ipv4))
    ensures Fold(p, Lead(o, u, ipv4), r) == Stepped(AfterId(AfterNh(p, o, u, ipv4), o, u), [])
  {
    var nh := if IsV4(u) && o.nh != Some(ipv4) then [NhTlv(ipv4)] else [];
    var id := if NewId(o, u) && !SelfIdentifying(u) then [IdTlv(u.id)] else [];
    var q := AfterNh(p, o, u, ipv4);
    StepNh(p, ipv4, r);
    FoldOne(p, NhTlv(ipv4), r);
    StepId(q, u.id, r);
    FoldOne(q, IdTlv(u.id), r);
    assert Fold(p, nh, r) == Stepped(q, []);
    FoldConcat(p, nh, id, r);
    ThenNothing([], Fold(q, id, r));
  }

  lemma FoldLast(p: Parser, lead: seq<Tlv>, q: Parser, t: Tlv, r: Receiver)
    requires ValidTlvs(lead) && ValidTlv(t) && Fold(p, lead, r) == Stepped(q, [])
    ensures ValidTlvs(lead + [t]) && Fold(p, lead + [t], r) == Step(q, Bytes(t), r)
  {
    FoldOne(q, t, r);
    FoldConcat(p, lead, [t], r);
    ThenNothing([], Step(q, Bytes(t), r));
  }

  /** The update itself, once the parser has what came before it. */
  lemma StepLast(o: Out, p: Parser, u: Route, ipv4: seq<byte>, r: Receiver)
    requires WellFormed(u) && |ipv4| == 4 && InStep(o, p)
    ensures ValidTlv(UpdateMessage(o, u))
    ensures var s := Step(AfterId(AfterNh(p, o, u, ipv4), o, u), Bytes(UpdateMessage(o, u)), r);
            s.Stepped? && s.heard == Said(u, Some(ipv4), r) && InStep(Extended(o, u, ipv4), s.parser)
  {
    var q := AfterId(AfterNh(p, o, u, ipv4), o, u);
    if IsV4(u) {
      StepUpdate4(o, q, u, ipv4, r);
    } else {
      StepUpdate6(o, q, u, r);
      LearntInStep(o, q, u);
    }
  }

  /** The group of an update leaves both ends in step, and the receiver has heard
      exactly that update. */
  lemma FoldGroup(o: Out, p: Parser, u: Route, ipv4: seq<byte>, r: Receiver)
    requires WellFormed(u) && |ipv4| == 4 && InStep(o, p)
    ensures ValidTlvs(Group(o, u, ipv4))
    ensures var s := Fold(p, Group(o, u, ipv4), r);
            s.Stepped? && s.heard == Said(u, Some(ipv4), r) && InStep(Extended(o, u, ipv4), s.parser)
  {
    FoldLead(o, p, u, ipv4, r);
    StepLast(o, p, u, ipv4, r);
    FoldLast(p, Lead(o, u, ipv4), AfterId(AfterNh(p, o, u, ipv4), o, u), UpdateMessage(o, u), r);
    GroupIsLead(o, u, ipv4);
  }

  lemma GroupIsLead(o: Out, u: Route, ipv4: seq<byte>)
    requires u.plen <= 128
    ensures Group(o, u, ipv4) == Lead(o, u, ipv4) + [UpdateMessage(o, u)]
  {
  }

  // ----- whole runs -----

  /** What may happen on an interface.  Pending updates that a flush sends first
      are operations of their own; SendOther is any message that is not a
      Router-Id, a Next Hop or an Update. */
  datatype Op =
    | SendUpdate(route: Route)
    | SendRetraction(seqno: u16)
    | SendOther(message: Tlv)
    | Flush
    | SetIpv4(address: Option<seq<byte>>)

  datatype State = State(out: Out, ipv4: Option<seq<byte>>)

  predicate Allowed(op: Op, bufsize: nat) {
    match op
    case SendUpdate(u) => WellFormed(u)
    case SendOther(t) =>
      && ValidTlv(t) && |Bytes(t)| <= bufsize
      && t.typ != MESSAGE_ROUTER_ID && t.typ != MESSAGE_NH && t.typ != MESSAGE_UPDATE
    case SetIpv4(a) => Address4(a)
    case _ => true
  }

  predicate AllAllowed(ops: seq<Op>, bufsize: nat) {
    forall i :: 0 <= i < |ops| ==> Allowed(ops[i], bufsize)
  }

  /** Every packet, and the one under construction, fits the buffer. */
  predicate Sound(st: State, bufsize: nat) {
    && 60 <= bufsize <= 0xFFFF
    && ValidTlvs(st.out.tlvs) && |Encode(st.out.tlvs)| <= bufsize
    && ValidPackets(st.out.packets)
    && Address4(st.ipv4)
  }

  function Do(st: State, op: Op, bufsize: nat): State
    requires Sound(st, bufsize) && Allowed(op, bufsize)
  {
    match op
    case SendUpdate(u) => st.(out := Sent(st.out, bufsize, st.ipv4, u))
    case SendRetraction(seqno) => st.(out := Retracted(st.out, bufsize, seqno))
    case SendOther(t) => st.(out := Appended(st.out, bufsize, t))
    case Flush => st.(out := Flushed(st.out))
    case SetIpv4(a) => st.(ipv4 := a)
  }

  lemma EnsuredSound(st: State, bufsize: nat, space: nat)
    requires Sound(st, bufsize) && space <= bufsize
    ensures var e := Ensured(st.out, bufsize, space);
            Sound(st.(out := e), bufsize) && |Encode(e.tlvs)| + space <= bufsize
  {
  }

  lemma AddSound(st: State, more: seq<Tlv>, bufsize: nat)
    requires Sound(st, bufsize) && ValidTlvs(more) && |Encode(st.out.tlvs)| + |Encode(more)| <= bufsize
    ensures Sound(st.(out := st.out.(tlvs := st.out.tlvs + more)), bufsize)
  {
    EncodeConcat(st.out.tlvs, more);
  }

  lemma DoSound(st: State, op: Op, bufsize: nat)
    requires Sound(st, bufsize) && Allowed(op, bufsize)
    ensures Sound(Do(st, op, bufsize), bufsize)
  {
    match op {
      case SendUpdate(u) =>
        EnsuredSound(st, bufsize, 60);
        var e := Ensured(st.out, bufsize, 60);
        if !IsV4(u) || st.ipv4.Some? {
          var a := if st.ipv4.Some? then st.ipv4.value else [];
          AnyGroupFits(e, u, a);
          AddSound(st.(out := e), Group(e, u, a), bufsize);
        }
      case SendRetraction(seqno) =>
        EnsuredSound(st, bufsize, 12);
        SingleFits([WildcardTlv(seqno)], 12);
        AddSound(st.(out := Ensured(st.out, bufsize, 12)), [WildcardTlv(seqno)], bufsize);
      case SendOther(t) =>
        EnsuredSound(st, bufsize, |Bytes(t)|);
        SingleFits([t], |Bytes(t)|);
        AddSound(st.(out := Ensured(st.out, bufsize, |Bytes(t)|)), [t], bufsize);
      case _ =>
    }
  }

  /** Without an IPv4 address the group of an IPv6 update is the same. */
  lemma AnyGroupFits(o: Out, u: Route, a: seq<byte>)
    requires WellFormed(u) && (IsV4(u) ==> |a| == 4)
    ensures ValidTlvs(Group(o, u, a)) && |Encode(Group(o, u, a))| <= 48
    ensures !IsV4(u) ==> forall b :: Group(o, u, b) == Group(o, u, a) && Extended(o, u, b) == Extended(o, u, a)
  {
    var b: seq<byte> := if IsV4(u) then a else [0, 0, 0, 0];
    GroupFits(o, u, b);
    assert Group(o, u, a) == Group(o, u, b);
  }

  function Perform(st: State, ops: seq<Op>, bufsize: nat): (r: State)
    requires Sound(st, bufsize) && AllAllowed(ops, bufsize)
    ensures Sound(r, bufsize)
    decreases |ops|
  {
    if ops == [] then st
    else
      DoSound(st, ops[0], bufsize);
      Perform(Do(st, ops[0], bufsize), ops[1..], bufsize)
  }

  /** What the receiver should hear of one operation. */
  function SaidBy(op: Op, ipv4: Option<seq<byte>>, r: Receiver): seq<Heard>
    requires Address4(ipv4)
  {
    match op
    case SendUpdate(u) => Said(u, ipv4, r)
    case SendRetraction(_) => [WildcardRetraction]
    case _ => []
  }

  /** Everything the receiver should hear, in order. */
  function Expected(ops: seq<Op>, ipv4: Option<seq<byte>>, bufsize: nat, r: Receiver): seq<Heard>
    requires Address4(ipv4) && AllAllowed(ops, bufsize)
    decreases |ops|
  {
    if ops == [] then []
    else SaidBy(ops[0], ipv4, r) + Expected(ops[1..], if ops[0].SetIpv4? then ops[0].address else ipv4, bufsize, r)
  }

  /** What the parser makes of a series of packets. */
  function HearAll(wire: seq<seq<byte>>, r: Receiver): Option<seq<Heard>> {
    if wire == [] then Some([])
    else
      match (HearAll(wire[..|wire| - 1], r), Parse(wire[|wire| - 1], r))
      case (Some(heard), Stepped(_, more)) => Some(heard + more)
      case _ => None
  }

  /** After `said` was sent: the packets on the wire tell the first part of it, the
      packet under construction will tell the rest, and would leave the parser in
      step with the sender. */
  ghost predicate Simulates(st: State, said: seq<Heard>, bufsize: nat, r: Receiver) {
    && Sound(st, bufsize)
    && var before, now := HearAll(Packets(st.out.packets), r), Fold(START, st.out.tlvs, r);
    && before.Some? && now.Stepped?
    && said == before.value + now.heard
    && InStep(st.out, now.parser)
  }

  lemma HearOneMore(ps: seq<seq<Tlv>>, ts: seq<Tlv>, r: Receiver)
    requires ValidPackets(ps) && ValidTlvs(ts) && |Encode(ts)| <= 0xFFFF && LinkLocal(r.from)
    requires HearAll(Packets(ps), r).Some? && Fold(START, ts, r).Stepped?
    ensures HearAll(Packets(ps + [ts]), r) == Some(HearAll(Packets(ps), r).value + Fold(START, ts, r).heard)
  {
    ParsePacketOf(ts, r);
    var all := Packets(ps + [ts]);
    assert all[..|all| - 1] == Packets(ps) && all[|all| - 1] == Packet(ts);
  }

  /** Flushing loses nothing and resets both ends. */
  lemma FlushSimulates(st: State, said: seq<Heard>, bufsize: nat, r: Receiver)
    requires Simulates(st, said, bufsize, r) && LinkLocal(r.from)
    ensures Simulates(st.(out := Flushed(st.out)), said, bufsize, r)
    ensures HearAll(Packets(Flushed(st.out).packets), r) == Some(said)
  {
    var before, now := HearAll(Packets(st.out.packets), r).value, Fold(START, st.out.tlvs, r);
    if st.out.tlvs != [] {
      HearOneMore(st.out.packets, st.out.tlvs, r);
    } else {
      assert before + [] == before;
    }
    assert said + [] == said;
  }

  lemma EnsureSimulates(st: State, said: seq<Heard>, bufsize: nat, space: nat, r: Receiver)
    requires Simulates(st, said, bufsize, r) && LinkLocal(r.from) && space <= bufsize
    ensures var e := Ensured(st.out, bufsize, space);
            Simulates(st.(out := e), said, bufsize, r) && |Encode(e.tlvs)| + space <= bufsize
  {
    FlushSimulates(st, said, bufsize, r);
  }

  /** Messages added to the packet under construction. */
  lemma AddSimulates(st: State, said: seq<Heard>, o: Out, more: seq<Tlv>, bufsize: nat, r: Receiver)
    requires Simulates(st, said, bufsize, r) && ValidTlvs(more)
    requires |Encode(st.out.tlvs)| + |Encode(more)| <= bufsize
    requires o.packets == st.out.packets && o.tlvs == st.out.tlvs + more
    requires var s := Fold(Fold(START, st.out.tlvs, r).parser, more, r); s.Stepped? && InStep(o, s.parser)
    ensures Simulates(st.(out := o), said + Fold(Fold(START, st.out.tlvs, r).parser, more, r).heard, bufsize, r)
  {
    var before, now := HearAll(Packets(st.out.packets), r).value, Fold(START, st.out.tlvs, r);
    EncodeConcat(st.out.tlvs, more);
    FoldConcat(START, st.out.tlvs, more, r);
    Associates(before, now.heard, Fold(now.parser, more, r).heard);
  }

  lemma UpdateSimulates(st: State, said: seq<Heard>, u: Route, bufsize: nat, r: Receiver)
    requires Simulates(st, said, bufsize, r) && LinkLocal(r.from) && WellFormed(u)
    ensures Simulates(Do(st, SendUpdate(u), bufsize), said + Said(u, st.ipv4, r), bufsize, r)
  {
    EnsureSimulates(st, said, bufsize, 60, r);
    var e := Ensured(st.out, bufsize, 60);
    if IsV4(u) && st.ipv4.None? {
      assert said + [] == said;
    } else {
      var a := if st.ipv4.Some? then st.ipv4.value else [];
      var b: seq<byte> := if st.ipv4.Some? then a else [0, 0, 0, 0];
      AnyGroupFits(e, u, a);
      FoldGroup(e, Fold(START, e.tlvs, r).parser, u, b, r);
      AddSimulates(st.(out := e), said, Extended(e, u, a), Group(e, u, a), bufsize, r);
    }
  }

  lemma RetractionSimulates(st: State, said: seq<Heard>, seqno: u16, bufsize: nat, r: Receiver)
    requires Simulates(st, said, bufsize, r) && LinkLocal(r.from)
    ensures Simulates(Do(st, SendRetraction(seqno), bufsize), said + [WildcardRetraction], bufsize, r)
  {
    EnsureSimulates(st, said, bufsize, 12, r);
    var e := Ensured(st.out, bufsize, 12);
    var p := Fold(START, e.tlvs, r).parser;
    StepWildcard(p, seqno, r);
    FoldOne(p, WildcardTlv(seqno), r);
    SingleFits([WildcardTlv(seqno)], 12);
    AddSimulates(st.(out := e), said, Retracted(st.out, bufsize, seqno), [WildcardTlv(seqno)], bufsize, r);
  }

  lemma OtherSimulates(st: State, said: seq<Heard>, t: Tlv, bufsize: nat, r: Receiver)
    requires Simulates(st, said, bufsize, r) && LinkLocal(r.from) && Allowed(SendOther(t), bufsize)
    ensures Simulates(Do(st, SendOther(t), bufsize), said + [], bufsize, r)
  {
    EnsureSimulates(st, said, bufsize, 2 + |t.data|, r);
    var e := Ensured(st.out, bufsize, 2 + |t.data|);
    FoldOne(Fold(START, e.tlvs, r).parser, t, r);
    SingleFits([t], 2 + |t.data|);
    AddSimulates(st.(out := e), said, Appended(st.out, bufsize, t), [t], bufsize, r);
  }

  lemma DoSimulates(st: State, said: seq<Heard>, op: Op, bufsize: nat, r: Receiver)
    requires Simulates(st, said, bufsize, r) && LinkLocal(r.from) && Allowed(op, bufsize)
    ensures Simulates(Do(st, op, bufsize), said + SaidBy(op, st.ipv4, r), bufsize, r)
  {
    match op {
      case SendUpdate(u) => UpdateSimulates(st, said, u, bufsize, r);
      case SendRetraction(seqno) => RetractionSimulates(st, said, seqno, bufsize, r);
      case SendOther(t) => OtherSimulates(st, said, t, bufsize, r);
      case Flush =>
        FlushSimulates(st, said, bufsize, r);
        assert said + [] == said;
      case SetIpv4(_) =>
        assert said + [] == said;
    }
  }

  lemma {:induction false} PerformSimulates(st: State, said: seq<Heard>, ops: seq<Op>, bufsize: nat, r: Receiver)
    requires Simulates(st, said, bufsize, r) && LinkLocal(r.from) && AllAllowed(ops, bufsize)
    ensures Simulates(Perform(st, ops, bufsize), said + Expected(ops, st.ipv4, bufsize, r), bufsize, r)
    decreases |ops|
  {
    if ops == [] {
      assert said + [] == said;
    } else {
      var said1 := SaidBy(ops[0], st.ipv4, r);
      DoSimulates(st, said, ops[0], bufsize, r);
      var next := Do(st, ops[0], bufsize);
      PerformSimulates(next, said + said1, ops[1..], bufsize, r);
      Associates(said, said1, Expected(ops[1..], next.ipv4, bufsize, r));
    }
  }

  /** The packets a new interface has sent once everything is flushed. */
  function OnWire(ops: seq<Op>, bufsize: nat): seq<seq<byte>>
    requires 60 <= bufsize <= 0xFFFF && AllAllowed(ops, bufsize)
  {
    Packets(Flushed(Perform(State(EMPTY, None), ops, bufsize).out).packets)
  }

  /** For every series of operations, the packets sent are heard as exactly the
      updates and retractions that were sent, in order, whatever was compressed
      and wherever the packets were cut. */
  lemma CodecRoundTrip(ops: seq<Op>, bufsize: nat, r: Receiver)
    requires 60 <= bufsize <= 0xFFFF && AllAllowed(ops, bufsize) && LinkLocal(r.from)
    ensures HearAll(OnWire(ops, bufsize), r) == Some(Expected(ops, None, bufsize, r))
  {
    var start := State(EMPTY, None);
    PerformSimulates(start, [], ops, bufsize, r);
    var said := Expected(ops, None, bufsize, r);
    assert [] + said == said;
    FlushSimulates(Perform(start, ops, bufsize), said, bufsize, r);
  }

  /** The same of the interface object: any use of its methods, ended by a flush,
      puts on the wire exactly what the receiver should hear. */
  method Converse(i: Interface, ops: seq<Op>, ghost r: Receiver)
    requires i.Valid() && i.out == EMPTY && i.ipv4 == None && AllAllowed(ops, i.bufsize) && LinkLocal(r.from)
    modifies i, i.sendbuf
    ensures i.Valid() && HearAll(i.wire, r) == Some(Expected(ops, None, i.bufsize, r))
  {
    var left := ops;
    ghost var last := Perform(State(EMPTY, None), ops, i.bufsize);
    while left != []
      invariant i.Valid() && AllAllowed(left, i.bufsize)
      invariant Perform(State(i.out, i.ipv4), left, i.bufsize) == last
      decreases |left|
    {
      Operate(i, left[0]);
      left := left[1..];
    }
    CodecRoundTrip(ops, i.bufsize, r);
    i.FlushBuf();
  }

  method Operate(i: Interface, op: Op)
    requires i.Valid() && Allowed(op, i.bufsize)
    modifies i, i.sendbuf
    ensures i.Valid() && State(i.out, i.ipv4) == Do(State(old(i.out), old(i.ipv4)), op, i.bufsize)
  {
    match op {
      case SendUpdate(u) => i.ReallySendUpdate(u);
      case SendRetraction(seqno) => i.SendWildcardRetraction(seqno);
      case SendOther(t) => i.SendOther(t);
      case Flush => i.FlushBuf();
      case SetIpv4(a) => i.ipv4 := a;
    }
  }
}
