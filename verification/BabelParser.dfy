/** Reading Babel packets: the Router-Id, Next Hop and Update messages and the
    state they share (parse_packet in babeld/message.c, sections 4.4.7 to 4.4.9 of
    RFC 6126). */
module BabelParser {
  import opened Basics
  import opened BabelPrefix

  const MESSAGE_PAD1: byte := 0
  const MESSAGE_ROUTER_ID: byte := 6
  const MESSAGE_NH: byte := 7
  const MESSAGE_UPDATE: byte := 8

  const INFINITY := 0xFFFF

  function Short(hi: byte, lo: byte): (n: nat)
    ensures n < 0x10000
  {
    var h: int, l: int := hi, lo;
    h * 256 + l
  }

  /** The interface and neighbour a packet is received on and from. */
  datatype Receiver = Receiver(from: Address, hasIpv4: bool)

  /** What the parser hands to the route table. */
  datatype Heard =
    | Update(id: seq<byte>, prefix: Address, plen: nat, seqno: nat, metric: nat, interval: nat, nexthop: Address)
    | WildcardRetraction

  /** The parser's locals.  A prefix keeps its bytes when its flag is cleared; the
      bytes are None until they are first written. */
  datatype Parser = Parser(
    id: Option<seq<byte>>,
    haveV4Prefix: bool, v4Prefix: Option<Address>,
    haveV6Prefix: bool, v6Prefix: Option<Address>,
    v4Nh: Option<Address>, v6Nh: Option<Address>)

  const START := Parser(None, false, None, false, None, None, None)

  function NoPrefixes(p: Parser): Parser {
    p.(haveV4Prefix := false, haveV6Prefix := false)
  }

  /** After one message; Undefined when memory is read that the packet and the
      earlier messages do not determine. */
  datatype Stepped = Stepped(parser: Parser, heard: seq<Heard>) | Undefined

  function RouterId(p: Parser, m: seq<byte>): Stepped {
    if |m| < 12 then Stepped(p.(id := None), []) else Stepped(p.(id := Some(m[4..12])), [])
  }

  function NextHop(p: Parser, m: seq<byte>): Stepped {
    var failed := Stepped(p.(v4Nh := None, v6Nh := None), []);
    if |m| < 4 then failed
    else
      match NetworkPrefix(m[2], None, 0, m[4..], None)
      case None => failed
      case Some((nh, _)) =>
        if m[2] == 1 then Stepped(p.(v4Nh := Some(nh)), []) else Stepped(p.(v6Nh := Some(nh)), [])
  }

  predicate Bit80(flags: byte) {
    flags >= 0x80
  }

  predicate Bit40(flags: byte) {
    flags / 0x40 % 2 == 1
  }

  /** What a flagged update does to the remembered prefixes. */
  function Remember(p: Parser, ae: byte, flags: byte, prefix: Address): Parser {
    if !Bit80(flags) then p
    else if ae == 1 then p.(haveV4Prefix := true, v4Prefix := Some(prefix))
    else p.(haveV6Prefix := true, v6Prefix := Some(prefix))
  }

  function Identify(p: Parser, ae: byte, flags: byte, prefix: Address): Parser {
    if !Bit40(flags) then p
    else if ae == 1 then p.(id := Some([0, 0, 0, 0] + prefix[12..]))
    else p.(id := Some(prefix[8..]))
  }

  /** What is handed on once the prefix is known. */
  function Deliver(p: Parser, m: seq<byte>, prefix: Address, r: Receiver): seq<Heard>
    requires |m| >= 12
  {
    var ae, metric := m[2], Short(m[10], m[11]);
    if p.id.None? && ae != 0 then []
    else if ae == 0 then (if metric < INFINITY then [] else [WildcardRetraction])
    else if ae == 1 && (p.v4Nh.None? || !r.hasIpv4) then []
    else
      var nh := if ae == 1 then p.v4Nh.value else if p.v6Nh.Some? then p.v6Nh.value else r.from;
      var plen: nat := if ae == 1 then (m[4] as int + 96) % 256 else m[4];
      [Update(p.id.value, prefix, plen, Short(m[8], m[9]), metric, Short(m[6], m[7]), nh)]
  }

  /** The message with its type and length bytes.  The source decides which prefix
      must be known by comparing the flags, not the address encoding, with 1. */
  function ReadUpdate(p: Parser, m: seq<byte>, r: Receiver): Stepped {
    if |m| < 12 then Stepped(if |m| < 4 || Bit80(m[3]) then NoPrefixes(p) else p, [])
    else
      var ae, flags, omitted := m[2], m[3], m[5];
      var dp := if ae == 1 then p.v4Prefix else p.v6Prefix;
      var known := omitted == 0 || (if flags == 1 then p.haveV4Prefix else p.haveV6Prefix);
      if known && Relies(ae, m[4], omitted, |m| - 12) && dp.None? then Undefined
      else
        match if known then NetworkPrefix(ae, Some(m[4]), omitted, m[12..], dp) else None
        case None => Stepped(if Bit80(flags) then NoPrefixes(p) else p, [])
        case Some((prefix, _)) =>
          var q := Identify(Remember(p, ae, flags, prefix), ae, flags, prefix);
          Stepped(q, Deliver(q, m, prefix, r))
  }

  /** One message; the other types do not touch this state. */
  function Step(p: Parser, m: seq<byte>, r: Receiver): Stepped
    requires |m| >= 2
  {
    if m[0] == MESSAGE_ROUTER_ID then RouterId(p, m)
    else if m[0] == MESSAGE_NH then NextHop(p, m)
    else if m[0] == MESSAGE_UPDATE then ReadUpdate(p, m, r)
    else Stepped(p, [])
  }

  /** All that is heard after `heard`. */
  function Then(heard: seq<Heard>, s: Stepped): Stepped {
    match s
    case Undefined => Undefined
    case Stepped(p, more) => Stepped(p, heard + more)
  }

  /** The loop over the messages: s is the rest of the packet and left the rest of
      the announced body.  A message may stick out of the body by up to two bytes. */
  function ParseFrom(p: Parser, s: seq<byte>, left: int, r: Receiver): Stepped
    requires left <= |s|
    decreases |s|
  {
    if left <= 0 then Stepped(p, [])
    else if s[0] == MESSAGE_PAD1 then ParseFrom(p, s[1..], left - 1, r)
    else if |s| < 2 then Undefined
    else if s[1] > left then Stepped(p, [])
    else if s[1] + 2 > |s| then Undefined
    else
      match Step(p, s[..s[1] + 2], r)
      case Undefined => Undefined
      case Stepped(q, heard) => Then(heard, ParseFrom(q, s[s[1] + 2..], left - s[1] - 2, r))
  }

  predicate LinkLocal(a: Address) {
    a[..8] == [0xfe, 0x80, 0, 0, 0, 0, 0, 0]
  }

  /** parse_packet. */
  function Parse(packet: seq<byte>, r: Receiver): Stepped {
    if !LinkLocal(r.from) then Stepped(START, [])
    else if |packet| < 4 then Undefined
    else if packet[0] != 42 || packet[1] != 2 then Stepped(START, [])
    else
      var bodylen := Short(packet[2], packet[3]);
      ParseFrom(START, packet[4..], if bodylen + 4 > |packet| then |packet| - 4 else bodylen, r)
  }

  lemma ThenTwice(a: seq<Heard>, b: seq<Heard>, s: Stepped)
    ensures Then(a, Then(b, s)) == Then(a + b, s)
  {
  }

  lemma ThenNothing(a: seq<Heard>, s: Stepped)
    ensures Then([], s) == s && Then(a, Stepped(START, [])) == Stepped(START, a)
  {
  }

  /** One round of the loop. */
  lemma ParseStep(p: Parser, heard: seq<Heard>, s: seq<byte>, left: int, r: Receiver)
    requires 0 < left <= |s| && |s| >= 2 && s[0] != MESSAGE_PAD1 && s[1] <= left && s[1] + 2 <= |s|
    ensures var one := Step(p, s[..s[1] + 2], r);
            Then(heard, ParseFrom(p, s, left, r)) ==
            if one.Undefined? then Undefined
            else Then(heard + one.heard, ParseFrom(one.parser, s[s[1] + 2..], left - s[1] - 2, r))
  {
    var one := Step(p, s[..s[1] + 2], r);
    if one.Stepped? {
      ThenTwice(heard, one.heard, ParseFrom(one.parser, s[s[1] + 2..], left - s[1] - 2, r));
    }
  }

  /** parse_packet, with its loop; None if undefined memory was read. */
  method ParsePacket(packet: seq<byte>, r: Receiver) returns (heard: Option<seq<Heard>>)
    ensures Parse(packet, r).Undefined? ==> heard == None
    ensures Parse(packet, r).Stepped? ==> heard == Some(Parse(packet, r).heard)
  {
    if !LinkLocal(r.from) {
      return Some([]);
    }
    if |packet| < 4 {
      return None;
    }
    if packet[0] != 42 || packet[1] != 2 {
      return Some([]);
    }
    var bodylen: int := Short(packet[2], packet[3]);
    if bodylen + 4 > |packet| {
      bodylen := |packet| - 4;
    }
    heard := ReadMessages(packet[4..], bodylen, r);
  }

  /** What is heard so far, and what the messages left over add to it. */
  ghost predicate Reading(all: Stepped, got: seq<Heard>, p: Parser, message: seq<byte>, left: int, r: Receiver) {
    left <= |message| && all == Then(got, ParseFrom(p, message, left, r))
  }

  lemma ParseEnd(all: Stepped, got: seq<Heard>, p: Parser, message: seq<byte>, left: int, r: Receiver)
    requires Reading(all, got, p, message, left, r)
    requires left <= 0 || (|message| >= 2 && message[0] != MESSAGE_PAD1 && message[1] > left)
    ensures all.Stepped? && all.heard == got
  {
    assert got + [] == got;
  }

  lemma ParsePad(all: Stepped, got: seq<Heard>, p: Parser, message: seq<byte>, left: int, r: Receiver)
    requires Reading(all, got, p, message, left, r) && left > 0 && message[0] == MESSAGE_PAD1
    ensures Reading(all, got, p, message[1..], left - 1, r)
  {
  }

  lemma ParseOverrun(all: Stepped, got: seq<Heard>, p: Parser, message: seq<byte>, left: int, r: Receiver)
    requires Reading(all, got, p, message, left, r) && left > 0 && message[0] != MESSAGE_PAD1
    requires |message| < 2 || (message[1] <= left && message[1] + 2 > |message|)
    ensures all.Undefined?
  {
  }

  /** One round of the loop on a message that is there in full. */
  method ReadMessage(p: Parser, got: seq<Heard>, message: seq<byte>, left: int, r: Receiver, ghost all: Stepped)
    returns (one: Stepped)
    requires Reading(all, got, p, message, left, r) && left > 0 && |message| >= 2 && message[0] != MESSAGE_PAD1
    requires message[1] <= left && message[1] + 2 <= |message|
    ensures one.Undefined? ==> all.Undefined?
    ensures one.Stepped? ==>
              Reading(all, got + one.heard, one.parser, message[message[1] + 2..], left - message[1] - 2, r)
  {
    ParseStep(p, got, message, left, r);
    one := Step(p, message[..message[1] + 2], r);
  }

  method ReadMessages(body: seq<byte>, bodylen: nat, r: Receiver) returns (heard: Option<seq<Heard>>)
    requires bodylen <= |body|
    ensures var all := ParseFrom(START, body, bodylen, r);
            heard == if all.Undefined? then None else Some(all.heard)
  {
    ThenNothing([], ParseFrom(START, body, bodylen, r));
    heard := ReadLoop(body, bodylen, r, ParseFrom(START, body, bodylen, r));
  }

  /** The loop of parse_packet. */
  method ReadLoop(body: seq<byte>, bodylen: nat, r: Receiver, ghost all: Stepped) returns (heard: Option<seq<Heard>>)
    requires Reading(all, [], START, body, bodylen, r)
    ensures heard == if all.Undefined? then None else Some(all.heard)
  {
    var message, left: int, p, got: seq<Heard> := body, bodylen, START, [];
    while left > 0
      invariant Reading(all, got, p, message, left, r)
      decreases |message|
    {
      if message[0] == MESSAGE_PAD1 {
        ParsePad(all, got, p, message, left, r);
        message, left := message[1..], left - 1;
        continue;
      }
      if |message| < 2 {
        ParseOverrun(all, got, p, message, left, r);
        return None;
      }
      var len := message[1];
      if len > left {
        break;
      }
      if len + 2 > |message| {
        ParseOverrun(all, got, p, message, left, r);
        return None;
      }
      var one := ReadMessage(p, got, message, left, r, all);
      if one.Undefined? {
        return None;
      }
      p, got := one.parser, got + one.heard;
      message, left := message[len + 2..], left - len - 2;
    }
    ParseEnd(all, got, p, message, left, r);
    return Some(got);
  }
}
