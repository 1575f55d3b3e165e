/** Sending Babel updates: messages are compressed against what the packet under
    construction already says (ensure_space, start_message, really_send_update,
    send_wildcard_retraction and flushbuf in babeld/message.c). */
module BabelSender {
  import opened Basics
  import opened BabelPrefix
  import opened BabelParser

  /** A message: type, length byte, data. */
  datatype Tlv = Tlv(typ: byte, data: seq<byte>)

  predicate ValidTlv(t: Tlv) {
    t.typ != MESSAGE_PAD1 && |t.data| <= 255
  }

  function Bytes(t: Tlv): (s: seq<byte>)
    requires ValidTlv(t)
    ensures |s| == 2 + |t.data|
  {
    [t.typ, |t.data|] + t.data
  }

  predicate ValidTlvs(ts: seq<Tlv>) {
    forall i :: 0 <= i < |ts| ==> ValidTlv(ts[i])
  }

  function Encode(ts: seq<Tlv>): seq<byte>
    requires ValidTlvs(ts)
  {
    if ts == [] then [] else Bytes(ts[0]) + Encode(ts[1..])
  }

  lemma {:induction false} EncodeConcat(a: seq<Tlv>, b: seq<Tlv>)
    requires ValidTlvs(a) && ValidTlvs(b)
    ensures ValidTlvs(a + b) && Encode(a + b) == Encode(a) + Encode(b)
  {
    if a == [] {
      assert a + b == b;
    } else {
      assert (a + b)[1..] == a[1..] + b;
      EncodeConcat(a[1..], b);
      Associates(Bytes(a[0]), Encode(a[1..]), Encode(b));
    }
  }

  function Hi(n: nat): byte {
    n / 256 % 256
  }

  function Lo(n: nat): byte {
    n % 256
  }

  /** One update to be sent: really_send_update's arguments, and the interval. */
  datatype Route = Route(id: seq<byte>, prefix: Address, plen: nat, seqno: u16, metric: u16, interval: u16)

  predicate Proper(u: Route) {
    |u.id| == 8 && u.plen <= 128
  }

  predicate IsV4(u: Route) {
    u.plen >= 96 && V4Mapped(u.prefix)
  }

  /** What the packet under construction has said so far, and the packets sent. */
  datatype Out = Out(
    packets: seq<seq<Tlv>>, tlvs: seq<Tlv>,
    id: Option<seq<byte>>, nh: Option<seq<byte>>, prefix: Option<Address>)

  const EMPTY := Out([], [], None, None, None)

  function NhTlv(ipv4: seq<byte>): Tlv {
    Tlv(MESSAGE_NH, [1, 0] + ipv4)
  }

  function IdTlv(id: seq<byte>): Tlv {
    Tlv(MESSAGE_ROUTER_ID, [0, 0] + id)
  }

  function UpdateTlv(ae: byte, flags: byte, plen: byte, omit: byte, u: Route, tail: seq<byte>): Tlv {
    Tlv(MESSAGE_UPDATE,
        [ae, flags, plen, omit, Hi(u.interval), Lo(u.interval),
         Hi(u.seqno), Lo(u.seqno), Hi(u.metric), Lo(u.metric)] + tail)
  }

  /** Leading bytes that need not be repeated. */
  function Common(a: Address, b: Address, limit: nat, from: nat): (n: nat)
    requires from <= limit <= 16
    ensures from <= n <= limit && (forall i :: from <= i < n ==> a[i] == b[i]) && (n < limit ==> a[n] != b[n])
    decreases limit - from
  {
    if from < limit && a[from] == b[from] then Common(a, b, limit, from + 1) else from
  }

  function Omit(o: Out, u: Route): (n: nat)
    requires u.plen <= 128
    ensures n <= u.plen / 8
  {
    if o.prefix.Some? then Common(o.prefix.value, u.prefix, u.plen / 8, 0) else 0
  }

  predicate Remembers(o: Out, u: Route) {
    !IsV4(u) && (o.prefix.None? || u.plen >= 48)
  }

  predicate NewId(o: Out, u: Route) {
    o.id != Some(u.id)
  }

  /** The prefix itself ends in the router-id. */
  predicate SelfIdentifying(u: Route) {
    !IsV4(u) && u.plen == 128 && u.prefix[8..] == u.id
  }

  function Flags(o: Out, u: Route): byte {
    (if Remembers(o, u) then 0x80 else 0) + (if NewId(o, u) && SelfIdentifying(u) then 0x40 else 0)
  }

  function UpdateMessage(o: Out, u: Route): Tlv
    requires u.plen <= 128
  {
    if IsV4(u) then UpdateTlv(1, Flags(o, u), u.plen - 96, 0, u, u.prefix[12..12 + (u.plen - 96 + 7) / 8])
    else UpdateTlv(2, Flags(o, u), u.plen, Omit(o, u), u, u.prefix[Omit(o, u)..(u.plen + 7) / 8])
  }

  /** The messages for one update: next hop and router-id only when they are news. */
  function Group(o: Out, u: Route, ipv4: seq<byte>): seq<Tlv>
    requires u.plen <= 128
  {
    (if IsV4(u) && o.nh != Some(ipv4) then [NhTlv(ipv4)] else []) +
    ((if NewId(o, u) && !SelfIdentifying(u) then [IdTlv(u.id)] else []) + [UpdateMessage(o, u)])
  }

  /** flushbuf. */
  function Flushed(o: Out): Out {
    Out(if o.tlvs == [] then o.packets else o.packets + [o.tlvs], [], None, None, None)
  }

  function Ensured(o: Out, bufsize: nat, space: nat): Out
    requires ValidTlvs(o.tlvs)
  {
    if bufsize - |Encode(o.tlvs)| < space then Flushed(o) else o
  }

  function Extended(o: Out, u: Route, ipv4: seq<byte>): Out
    requires u.plen <= 128
  {
    o.(tlvs := o.tlvs + Group(o, u, ipv4),
       id := Some(u.id),
       nh := if IsV4(u) then Some(ipv4) else o.nh,
       prefix := if Remembers(o, u) then Some(u.prefix) else o.prefix)
  }

  /** really_send_update.  The whole group goes into one packet. */
  function Sent(o: Out, bufsize: nat, ipv4: Option<seq<byte>>, u: Route): Out
    requires ValidTlvs(o.tlvs) && u.plen <= 128
  {
    var e := Ensured(o, bufsize, 60);
    if IsV4(u) && ipv4.None? then e else Extended(e, u, if ipv4.Some? then ipv4.value else [])
  }

  function WildcardTlv(seqno: u16): Tlv {
    Tlv(MESSAGE_UPDATE, [0, 0x40, 0, 0, 0xFF, 0xFF, Hi(seqno), Lo(seqno), 0xFF, 0xFF])
  }

  /** send_wildcard_retraction. */
  function Retracted(o: Out, bufsize: nat, seqno: u16): Out
    requires ValidTlvs(o.tlvs)
  {
    var e := Ensured(o, bufsize, 12);
    e.(tlvs := e.tlvs + [WildcardTlv(seqno)], id := None)
  }

  /** Any other message. */
  function Appended(o: Out, bufsize: nat, t: Tlv): Out
    requires ValidTlvs(o.tlvs)
  {
    var e := Ensured(o, bufsize, 2 + |t.data|);
    e.(tlvs := e.tlvs + [t])
  }

  predicate Address4(ipv4: Option<seq<byte>>) {
    ipv4.Some? ==> |ipv4.value| == 4
  }

  /** A group never takes more than 48 of the 60 bytes made available. */
  lemma GroupFits(o: Out, u: Route, ipv4: seq<byte>)
    requires Proper(u) && |ipv4| == 4
    ensures ValidTlvs(Group(o, u, ipv4)) && |Encode(Group(o, u, ipv4))| <= 48
  {
    var nh := if IsV4(u) && o.nh != Some(ipv4) then [NhTlv(ipv4)] else [];
    var id := if NewId(o, u) && !SelfIdentifying(u) then [IdTlv(u.id)] else [];
    var up := [UpdateMessage(o, u)];
    SingleFits(nh, 8);
    SingleFits(id, 12);
    SingleFits(up, 28);
    EncodeConcat(id, up);
    EncodeConcat(nh, id + up);
  }

  lemma SingleFits(ts: seq<Tlv>, n: nat)
    requires |ts| <= 1 && (ts != [] ==> ValidTlv(ts[0]) && |Bytes(ts[0])| <= n)
    ensures ValidTlvs(ts) && |Encode(ts)| <= n
  {
  }

  /** The part of struct babel_interface that updates are sent through, with the
      packets it has sent. */
  class Interface {
    const bufsize: nat
    const sendbuf: array<byte>
    var buffered: nat
    var ipv4: Option<seq<byte>>
    var haveBufferedId: bool
    var haveBufferedNh: bool
    var haveBufferedPrefix: bool
    var bufferedId: seq<byte>
    var bufferedNh: seq<byte>
    var bufferedPrefix: Address
    var wire: seq<seq<byte>>
    ghost var out: Out

    constructor (mtu: nat)
      requires mtu <= 0xFFFF + 64
      ensures Valid() && out == EMPTY && ipv4 == None && wire == [] && fresh(this) && fresh(sendbuf)
    {
      var size := if mtu < 128 then 128 - 64 else mtu - 64;
      bufsize := size;
      sendbuf := new byte[size](_ => 0);
      buffered, ipv4, wire, out := 0, None, [], EMPTY;
      haveBufferedId, haveBufferedNh, haveBufferedPrefix := false, false, false;
      bufferedId, bufferedNh, bufferedPrefix := [], [], Zeros(16);
    }

    ghost function Body(): seq<byte>
      requires buffered <= sendbuf.Length
      reads this, sendbuf
    {
      sendbuf[..buffered]
    }

    /** The buffer and the remembered values, without the contents of the buffer. */
    ghost predicate Remembered(o: Out)
      reads this
    {
      && o.id == (if haveBufferedId then Some(bufferedId) else None)
      && o.nh == (if haveBufferedNh then Some(bufferedNh) else None)
      && o.prefix == (if haveBufferedPrefix then Some(bufferedPrefix) else None)
    }

    predicate Sized()
      reads this
    {
      60 <= bufsize <= 0xFFFF && sendbuf.Length == bufsize && buffered <= bufsize && Address4(ipv4)
    }

    ghost predicate Valid()
      reads this, sendbuf
    {
      && Sized()
      && ValidTlvs(out.tlvs) && Body() == Encode(out.tlvs)
      && ValidPackets(out.packets) && wire == Packets(out.packets)
      && Remembered(out)
    }

    method AccumulateByte(b: byte)
      requires Sized() && buffered < bufsize
      modifies this`buffered, sendbuf
      ensures Sized() && Body() == old(Body()) + [b]
    {
      sendbuf[buffered] := b;
      buffered := buffered + 1;
    }

    method AccumulateShort(n: u16)
      requires Sized() && buffered + 2 <= bufsize
      modifies this`buffered, sendbuf
      ensures Sized() && Body() == old(Body()) + [Hi(n), Lo(n)]
    {
      sendbuf[buffered], sendbuf[buffered + 1] := Hi(n), Lo(n);
      buffered := buffered + 2;
    }

    method AccumulateBytes(value: seq<byte>)
      requires Sized() && buffered + |value| <= bufsize
      modifies this`buffered, sendbuf
      ensures Sized() && Body() == old(Body()) + value
    {
      forall i | 0 <= i < |value| {
        sendbuf[buffered + i] := value[i];
      }
      buffered := buffered + |value|;
    }

    /** flushbuf.  Every packet goes out; pending updates were sent before. */
    method FlushBuf()
      requires Valid()
      modifies this`buffered, this`haveBufferedId, this`haveBufferedNh, this`haveBufferedPrefix, this`wire, this`out
      ensures Valid() && out == Flushed(old(out)) && buffered == 0
    {
      EmptyIff(out.tlvs);
      if buffered > 0 {
        wire := wire + [[42, 2, Hi(buffered), Lo(buffered)] + sendbuf[..buffered]];
        PacketsAppend(out.packets, out.tlvs);
      }
      buffered := 0;
      haveBufferedId, haveBufferedNh, haveBufferedPrefix := false, false, false;
      out := Flushed(out);
    }

    /** ensure_space. */
    method EnsureSpace(space: nat)
      requires Valid() && space <= bufsize
      modifies this`buffered, this`haveBufferedId, this`haveBufferedNh, this`haveBufferedPrefix, this`wire, this`out
      ensures Valid() && out == Ensured(old(out), bufsize, space) && buffered + space <= bufsize
      ensures out == old(out) || (old(buffered) + space > bufsize && buffered == 0)
    {
      if bufsize - buffered < space {
        FlushBuf();
      }
    }

    /** What a flush would change besides the buffer. */
    ghost function Memory(): (bool, bool, bool, seq<seq<byte>>, Out)
      reads this
    {
      (haveBufferedId, haveBufferedNh, haveBufferedPrefix, wire, out)
    }

    /** start_message.  It flushes only when there is no room, and then only
        between whole groups. */
    method StartMessage(typ: byte, len: byte)
      requires Sized() && len + 2 <= bufsize && (bufsize - buffered < len + 2 ==> Valid())
      modifies this`buffered, this`haveBufferedId, this`haveBufferedNh, this`haveBufferedPrefix, this`wire, this`out,
               sendbuf
      ensures Sized()
      ensures old(bufsize - buffered >= len + 2) ==> Memory() == old(Memory()) && Body() == old(Body()) + [typ, len]
      ensures old(bufsize - buffered < len + 2) ==>
                && out == Flushed(old(out)) && Remembered(out) && Body() == [typ, len]
                && ValidPackets(out.packets) && wire == Packets(out.packets)
    {
      if bufsize - buffered < len + 2 {
        FlushBuf();
      }
      AccumulateByte(typ);
      AccumulateByte(len);
    }

    /** A whole message, as start_message, accumulate_* and end_message write it. */
    method PutNh(address: seq<byte>)
      requires Sized() && |address| == 4 && buffered + 8 <= bufsize
      modifies this`buffered, this`haveBufferedId, this`haveBufferedNh, this`haveBufferedPrefix, this`wire, this`out,
               sendbuf
      ensures Sized() && Memory() == old(Memory()) && Body() == old(Body()) + Bytes(NhTlv(address))
    {
      StartMessage(MESSAGE_NH, 6);
      AccumulateByte(1);
      AccumulateByte(0);
      AccumulateBytes(address);
      assert Body()[buffered - 8] == MESSAGE_NH && Body()[buffered - 7] == 6;
    }

    method PutRouterId(id: seq<byte>)
      requires Sized() && |id| == 8 && buffered + 12 <= bufsize
      modifies this`buffered, this`haveBufferedId, this`haveBufferedNh, this`haveBufferedPrefix, this`wire, this`out,
               sendbuf
      ensures Sized() && Memory() == old(Memory()) && Body() == old(Body()) + Bytes(IdTlv(id))
    {
      StartMessage(MESSAGE_ROUTER_ID, 10);
      AccumulateShort(0);
      AccumulateBytes(id);
      assert Body()[buffered - 12] == MESSAGE_ROUTER_ID && Body()[buffered - 11] == 10;
    }

    method AccumulateFour(a: byte, b: byte, c: byte, d: byte)
      requires Sized() && buffered + 4 <= bufsize
      modifies this`buffered, sendbuf
      ensures Sized() && Body() == old(Body()) + [a, b, c, d]
    {
      AccumulateByte(a);
      AccumulateByte(b);
      AccumulateByte(c);
      AccumulateByte(d);
    }

    method AccumulateShorts(a: u16, b: u16, c: u16)
      requires Sized() && buffered + 6 <= bufsize
      modifies this`buffered, sendbuf
      ensures Sized() && Body() == old(Body()) + [Hi(a), Lo(a), Hi(b), Lo(b), Hi(c), Lo(c)]
    {
      AccumulateShort(a);
      AccumulateShort(b);
      AccumulateShort(c);
    }

    method PutUpdate(ae: byte, flags: byte, plen: byte, omit: byte, u: Route, tail: seq<byte>)
      requires Sized() && |tail| <= 16 && buffered + 12 + |tail| <= bufsize
      modifies this`buffered, this`haveBufferedId, this`haveBufferedNh, this`haveBufferedPrefix, this`wire, this`out,
               sendbuf
      ensures Sized() && Memory() == old(Memory())
      ensures Body() == old(Body()) + Bytes(UpdateTlv(ae, flags, plen, omit, u, tail))
    {
      StartMessage(MESSAGE_UPDATE, 10 + |tail|);
      AccumulateFour(ae, flags, plen, omit);
      AccumulateShorts(u.interval, u.seqno, u.metric);
      AccumulateBytes(tail);
      UpdateBytes(old(Body()), ae, flags, plen, omit, u, tail);
    }

    /** The loop that finds how many bytes can be omitted. */
    method CountOmitted(u: Route) returns (omit: nat)
      requires haveBufferedPrefix && u.plen <= 128
      ensures omit == Common(bufferedPrefix, u.prefix, u.plen / 8, 0)
    {
      omit := 0;
      while omit < u.plen / 8 && bufferedPrefix[omit] == u.prefix[omit]
        invariant omit <= u.plen / 8
        invariant Common(bufferedPrefix, u.prefix, u.plen / 8, 0) == Common(bufferedPrefix, u.prefix, u.plen / 8, omit)
      {
        omit := omit + 1;
      }
    }

    /** The next hop, if it is news. */
    method PutNexthopIfNew(ghost o: Out, u: Route)
      requires Sized() && Remembered(o) && IsV4(u) && ipv4.Some? && buffered + 8 <= bufsize
      modifies this`buffered, this`haveBufferedId, this`haveBufferedNh, this`haveBufferedPrefix, this`bufferedNh,
               this`wire, this`out, sendbuf
      ensures Sized() && wire == old(wire) && out == old(out) && buffered <= old(buffered) + 8
      ensures Body() == old(Body()) + NhPart(o, u, ipv4.value) && Remembered(o.(nh := Some(ipv4.value)))
    {
      if !haveBufferedNh || bufferedNh != ipv4.value {
        PutNh(ipv4.value);
        bufferedNh := ipv4.value;
        haveBufferedNh := true;
      } else {
        assert Body() + [] == Body();
      }
    }

    /** The router-id, if it is news; returns the flag for a prefix that tells it. */
    method PutIdIfNew(ghost o: Out, u: Route, realPlen: nat) returns (flag: byte)
      requires Sized() && Remembered(o) && |u.id| == 8 && (realPlen == 128 <==> !IsV4(u) && u.plen == 128)
      requires buffered + 12 <= bufsize
      modifies this`buffered, this`haveBufferedId, this`haveBufferedNh, this`haveBufferedPrefix, this`bufferedId,
               this`wire, this`out, sendbuf
      ensures Sized() && wire == old(wire) && out == old(out) && buffered <= old(buffered) + 12
      ensures flag == if NewId(o, u) && SelfIdentifying(u) then 0x40 else 0
      ensures Body() == old(Body()) + IdPart(o, u) && Remembered(o.(id := Some(u.id)))
    {
      flag := 0;
      assert Body() + [] == Body();
      if !haveBufferedId || bufferedId != u.id {
        if realPlen == 128 && u.prefix[8..] == u.id {
          flag := 0x40;
        } else {
          PutRouterId(u.id);
        }
        bufferedId := u.id;
        haveBufferedId := true;
      }
    }

    /** The update message, once omitted bytes and flags are known. */
    method PutMessage6(ghost o: Out, u: Route, omit: byte, flags: byte)
      requires Sized() && u.plen <= 128 && !IsV4(u) && flags == Flags(o, u) && omit == Omit(o, u)
      requires buffered + 28 <= bufsize
      modifies this`buffered, this`haveBufferedId, this`haveBufferedNh, this`haveBufferedPrefix, this`wire, this`out,
               sendbuf
      ensures Sized() && Memory() == old(Memory()) && Body() == old(Body()) + Bytes(UpdateMessage(o, u))
    {
      PutUpdate(2, flags, u.plen, omit, u, u.prefix[omit..(u.plen + 7) / 8]);
    }

    method PutMessage4(ghost o: Out, u: Route, flags: byte)
      requires Sized() && u.plen <= 128 && IsV4(u) && flags == Flags(o, u) && buffered + 28 <= bufsize
      modifies this`buffered, this`haveBufferedId, this`haveBufferedNh, this`haveBufferedPrefix, this`wire, this`out,
               sendbuf
      ensures Sized() && Memory() == old(Memory()) && Body() == old(Body()) + Bytes(UpdateMessage(o, u))
    {
      PutUpdate(1, flags, u.plen - 96, 0, u, u.prefix[12..12 + (u.plen - 96 + 7) / 8]);
    }

    /** The group of an IPv4 update. */
    method PutGroup4(ghost o: Out, u: Route)
      requires Sized() && Remembered(o) && Proper(u) && IsV4(u) && ipv4.Some? && buffered + 60 <= bufsize
      modifies this`buffered, this`haveBufferedId, this`haveBufferedNh, this`haveBufferedPrefix, this`bufferedId,
               this`bufferedNh, this`wire, this`out, sendbuf
      ensures Sized() && wire == old(wire) && out == old(out)
      ensures Body() == old(Body()) + GroupBytes(o, u, ipv4.value) && Remembered(Extended(o, u, ipv4.value))
    {
      PutNexthopIfNew(o, u);
      var flag := PutIdIfNew(o.(nh := Some(ipv4.value)), u, u.plen - 96);
      PutMessage4(o, u, flag);
      Glue(old(Body()), NhPart(o, u, ipv4.value), IdPart(o, u), Bytes(UpdateMessage(o, u)));
    }

    /** How an IPv6 prefix is compressed. */
    method Compress(ghost o: Out, u: Route) returns (omit: nat, flags: byte)
      requires Remembered(o) && Proper(u) && !IsV4(u)
      ensures omit == Omit(o, u) && flags == if Remembers(o, u) then 0x80 else 0
    {
      omit, flags := 0, 0;
      if haveBufferedPrefix {
        omit := CountOmitted(u);
      }
      if !haveBufferedPrefix || u.plen >= 48 {
        flags := 0x80;
      }
    }

    method RememberPrefix(ghost o: Out, u: Route, flags: byte)
      requires Remembered(o) && flags == if Remembers(o, u) then 0x80 else 0
      modifies this`haveBufferedPrefix, this`bufferedPrefix
      ensures Remembered(o.(prefix := if Remembers(o, u) then Some(u.prefix) else o.prefix))
    {
      if flags == 0x80 {
        bufferedPrefix := u.prefix;
        haveBufferedPrefix := true;
      }
    }

    /** The group of an IPv6 update. */
    method PutGroup6(ghost o: Out, u: Route, ghost a: seq<byte>)
      requires Sized() && Remembered(o) && Proper(u) && !IsV4(u) && buffered + 60 <= bufsize
      modifies this`buffered, this`haveBufferedId, this`haveBufferedNh, this`haveBufferedPrefix, this`bufferedId,
               this`bufferedPrefix, this`wire, this`out, sendbuf
      ensures Sized() && wire == old(wire) && out == old(out)
      ensures Body() == old(Body()) + GroupBytes(o, u, a) && Remembered(Extended(o, u, a))
    {
      var omit, flags := Compress(o, u);
      var flag := PutIdIfNew(o, u, u.plen);
      PutMessage6(o, u, omit, flags + flag);
      Associates(old(Body()), IdPart(o, u), Bytes(UpdateMessage(o, u)));
      assert Remembered(o.(id := Some(u.id)));
      RememberPrefix(o.(id := Some(u.id)), u, flags);
    }

    /** The messages of one update, with the room for them ensured. */
    method AddGroup(u: Route, v4: bool)
      requires Valid() && Proper(u) && v4 == IsV4(u) && (v4 ==> ipv4.Some?) && buffered + 60 <= bufsize
      modifies this`buffered, this`haveBufferedId, this`haveBufferedNh, this`haveBufferedPrefix, this`bufferedId,
               this`bufferedNh, this`bufferedPrefix, this`wire, this`out, sendbuf
      ensures Valid() && out == Extended(old(out), u, if ipv4.Some? then ipv4.value else [])
    {
      ghost var a := if ipv4.Some? then ipv4.value else [];
      EncodeGroup(out, u, a);
      if v4 {
        PutGroup4(out, u);
      } else {
        PutGroup6(out, u, a);
      }
      out := Extended(out, u, a);
    }

    /** really_send_update: what is sent, and where packets are cut, is Sent. */
    method ReallySendUpdate(u: Route)
      requires Valid() && Proper(u)
      modifies this`buffered, this`haveBufferedId, this`haveBufferedNh, this`haveBufferedPrefix, this`bufferedId,
               this`bufferedNh, this`bufferedPrefix, this`wire, this`out, sendbuf
      ensures Valid() && out == Sent(old(out), bufsize, ipv4, u)
    {
      EnsureSpace(60);
      var v4 := u.plen >= 96 && V4Mapped(u.prefix);
      if v4 && ipv4.None? {
        return;
      }
      AddGroup(u, v4);
    }

    method PutWildcard(ghost before: seq<byte>, seqno: u16)
      requires Sized() && buffered + 10 <= bufsize && Body() == before + [MESSAGE_UPDATE, 10]
      modifies this`buffered, sendbuf
      ensures Sized() && Body() == before + Bytes(WildcardTlv(seqno))
    {
      AccumulateFour(0, 0x40, 0, 0);
      AccumulateShorts(0xFFFF, seqno, 0xFFFF);
      WildcardBytes(before, seqno);
    }

    /** send_wildcard_retraction. */
    method SendWildcardRetraction(seqno: u16)
      requires Valid()
      modifies this, sendbuf
      ensures Valid() && ipv4 == old(ipv4) && out == Retracted(old(out), bufsize, seqno)
    {
      ghost var e := Ensured(out, bufsize, 12);
      StartMessage(MESSAGE_UPDATE, 10);
      PutWildcard(Encode(e.tlvs), seqno);
      haveBufferedId := false;
      EncodeOne(e.tlvs, WildcardTlv(seqno));
      out := e.(tlvs := e.tlvs + [WildcardTlv(seqno)], id := None);
    }

    /** Any other message. */
    method SendOther(t: Tlv)
      requires Valid() && ValidTlv(t) && 2 + |t.data| <= bufsize
      modifies this`buffered, this`haveBufferedId, this`haveBufferedNh, this`haveBufferedPrefix, this`wire, this`out,
               sendbuf
      ensures Valid() && out == Appended(old(out), bufsize, t)
    {
      ghost var e := Ensured(out, bufsize, 2 + |t.data|);
      EncodeOne(e.tlvs, t);
      StartMessage(t.typ, |t.data|);
      assert Body() == Encode(e.tlvs) + [t.typ, |t.data|];
      Associates(Encode(e.tlvs), [t.typ, |t.data|], t.data);
      AccumulateBytes(t.data);
      out := e.(tlvs := e.tlvs + [t]);
      assert Body() == Encode(e.tlvs) + Bytes(t);
    }
  }

  function NhPart(o: Out, u: Route, ipv4: seq<byte>): seq<byte>
    requires |ipv4| == 4
  {
    if IsV4(u) && o.nh != Some(ipv4) then Bytes(NhTlv(ipv4)) else []
  }

  function IdPart(o: Out, u: Route): seq<byte>
    requires |u.id| == 8
  {
    if NewId(o, u) && !SelfIdentifying(u) then Bytes(IdTlv(u.id)) else []
  }

  lemma EncodeOne(ts: seq<Tlv>, t: Tlv)
    requires ValidTlvs(ts) && ValidTlv(t)
    ensures ValidTlvs(ts + [t]) && Encode(ts + [t]) == Encode(ts) + Bytes(t)
  {
    EncodeConcat(ts, [t]);
    assert Encode([t]) == Bytes(t) + Encode([t][1..]);
  }

  /** The bytes of a group, part by part. */
  function GroupBytes(o: Out, u: Route, ipv4: seq<byte>): seq<byte>
    requires Proper(u) && (IsV4(u) ==> |ipv4| == 4)
  {
    var rest := IdPart(o, u) + Bytes(UpdateMessage(o, u));
    if IsV4(u) then NhPart(o, u, ipv4) + rest else rest
  }

  lemma EncodeMaybe(ts: seq<Tlv>)
    requires |ts| <= 1 && ValidTlvs(ts)
    ensures Encode(ts) == if ts == [] then [] else Bytes(ts[0])
  {
  }

  /** Next hop, router-id and update. */
  lemma EncodeParts(nh: seq<Tlv>, id: seq<Tlv>, up: Tlv)
    requires ValidTlvs(nh) && ValidTlvs(id) && ValidTlv(up)
    ensures ValidTlvs(nh + (id + [up])) && Encode(nh + (id + [up])) == Encode(nh) + (Encode(id) + Bytes(up))
  {
    EncodeOne(id, up);
    EncodeConcat(nh, id + [up]);
  }

  lemma EncodeOwn(o: Out, u: Route, ipv4: seq<byte>)
    requires Proper(u) && (IsV4(u) ==> |ipv4| == 4)
    ensures ValidTlvs(Group(o, u, ipv4)) && Encode(Group(o, u, ipv4)) == GroupBytes(o, u, ipv4)
  {
    var nh := if IsV4(u) && o.nh != Some(ipv4) then [NhTlv(ipv4)] else [];
    var id := if NewId(o, u) && !SelfIdentifying(u) then [IdTlv(u.id)] else [];
    EncodeMaybe(nh);
    EncodeMaybe(id);
    EncodeParts(nh, id, UpdateMessage(o, u));
    var rest := IdPart(o, u) + Bytes(UpdateMessage(o, u));
    assert [] + rest == rest;
  }

  lemma EncodeGroup(o: Out, u: Route, ipv4: seq<byte>)
    requires ValidTlvs(o.tlvs) && Proper(u) && (IsV4(u) ==> |ipv4| == 4)
    ensures ValidTlvs(o.tlvs + Group(o, u, ipv4))
    ensures Encode(o.tlvs + Group(o, u, ipv4)) == Encode(o.tlvs) + GroupBytes(o, u, ipv4)
  {
    EncodeOwn(o, u, ipv4);
    EncodeConcat(o.tlvs, Group(o, u, ipv4));
  }

  lemma Glue(body: seq<byte>, a: seq<byte>, b: seq<byte>, c: seq<byte>)
    ensures ((body + a) + b) + c == body + (a + (b + c))
  {
  }

  lemma WildcardBytes(body: seq<byte>, seqno: u16)
    ensures body + [MESSAGE_UPDATE, 10] + [0, 0x40, 0, 0] + [0xFF, 0xFF, Hi(seqno), Lo(seqno), 0xFF, 0xFF]
         == body + Bytes(WildcardTlv(seqno))
  {
  }

  lemma UpdateBytes(body: seq<byte>, ae: byte, flags: byte, plen: byte, omit: byte, u: Route, tail: seq<byte>)
    requires |tail| <= 16
    ensures body + [MESSAGE_UPDATE, 10 + |tail|] + [ae, flags, plen, omit]
            + [Hi(u.interval), Lo(u.interval), Hi(u.seqno), Lo(u.seqno), Hi(u.metric), Lo(u.metric)] + tail
         == body + Bytes(UpdateTlv(ae, flags, plen, omit, u, tail))
  {
  }

  lemma EmptyIff(ts: seq<Tlv>)
    requires ValidTlvs(ts)
    ensures Encode(ts) == [] <==> ts == []
  {
  }

  lemma PacketsAppend(ps: seq<seq<Tlv>>, ts: seq<Tlv>)
    requires ValidPackets(ps) && ValidTlvs(ts) && |Encode(ts)| <= 0xFFFF
    ensures ValidPackets(ps + [ts]) && Packets(ps + [ts]) == Packets(ps) + [Packet(ts)]
  {
  }

  predicate ValidPackets(ps: seq<seq<Tlv>>) {
    forall i :: 0 <= i < |ps| ==> ValidTlvs(ps[i]) && |Encode(ps[i])| <= 0xFFFF
  }

  /** The header is magic number, version and body length. */
  function Packet(ts: seq<Tlv>): seq<byte>
    requires ValidTlvs(ts) && |Encode(ts)| <= 0xFFFF
  {
    [42, 2, Hi(|Encode(ts)|), Lo(|Encode(ts)|)] + Encode(ts)
  }

  function Packets(ps: seq<seq<Tlv>>): (r: seq<seq<byte>>)
    requires ValidPackets(ps)
    ensures |r| == |ps|
  {
    seq(|ps|, i requires 0 <= i < |ps| => Packet(ps[i]))
  }
}
