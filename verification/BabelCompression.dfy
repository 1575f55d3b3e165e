/** How little an update costs: what the packet has said already is not said
    again (really_send_update in babeld/message.c), and the messages are laid out
    as sections 4.4.7 to 4.4.9 of RFC 6126 have them. */
module BabelCompression {
  import opened Basics
  import opened BabelPrefix
  import opened BabelParser
  import opened BabelSender

  /** Next hop, router-id and retraction of everything, byte by byte. */
  lemma Layouts(ipv4: seq<byte>, id: seq<byte>, seqno: u16)
    requires |ipv4| == 4 && |id| == 8
    ensures Bytes(NhTlv(ipv4)) == [7, 6, 1, 0] + ipv4
    ensures Bytes(IdTlv(id)) == [6, 10, 0, 0] + id
    ensures Bytes(WildcardTlv(seqno)) == [8, 10, 0, 0x40, 0, 0, 0xFF, 0xFF, Hi(seqno), Lo(seqno), 0xFF, 0xFF]
  {
    assert [7, 6] + ([1, 0] + ipv4) == [7, 6, 1, 0] + ipv4;
    assert [6, 10] + ([0, 0] + id) == [6, 10, 0, 0] + id;
  }

  /** No more bytes than these could be left to the receiver's memory. */
  lemma OmitsMost(o: Out, u: Route, k: nat)
    requires u.plen <= 128 && o.prefix.Some?
    ensures o.prefix.value[..Omit(o, u)] == u.prefix[..Omit(o, u)]
    ensures k <= u.plen / 8 && o.prefix.value[..k] == u.prefix[..k] ==> k <= Omit(o, u)
  {
    var n, w := Omit(o, u), o.prefix.value;
    if n < k <= u.plen / 8 {
      assert w[..k][n] == w[n] && u.prefix[..k][n] == u.prefix[n];
    }
  }

  /** The prefix that the next update is compressed against. */
  function Against(o: Out, u: Route): Address {
    if o.prefix.Some? && u.plen < 48 then o.prefix.value else u.prefix
  }

  /** An update that follows another one pays only for the bytes in which it differs
      from it, or from the last long prefix before it. */
  lemma SiblingsAreShort(o: Out, u: Route, v: Route, ipv4: seq<byte>, k: nat)
    requires Proper(u) && Proper(v) && !IsV4(u) && !IsV4(v) && k <= v.plen / 8
    requires Against(o, u)[..k] == v.prefix[..k]
    ensures |UpdateMessage(Extended(o, u, ipv4), v).data| <= 10 + (v.plen + 7) / 8 - k
  {
    OmitsMost(Extended(o, u, ipv4), v, k);
  }

  /** A next hop is sent only with an IPv4 update and when it is news; a router-id
      only when it is news and a host prefix does not end in it already. */
  lemma GroupIsTerse(o: Out, u: Route, ipv4: seq<byte>)
    requires Proper(u)
    ensures var nh := if u.plen >= 96 && V4Mapped(u.prefix) && o.nh != Some(ipv4) then 1 else 0;
            var host := u.plen == 128 && !V4Mapped(u.prefix) && u.prefix[8..] == u.id;
            |Group(o, u, ipv4)| == nh + (if o.id == Some(u.id) || host then 0 else 1) + 1
  {
  }
}
