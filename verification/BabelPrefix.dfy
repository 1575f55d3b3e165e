/** Prefixes of Babel messages: masking, and the compressed encoding
    (babeld/util.c, network_prefix in babeld/message.c). */
module BabelPrefix {
  import opened Basics

  /** Sixteen bytes; IPv4 addresses are mapped into them. */
  type Address = s: seq<byte> | |s| == 16 witness seq(16, _ => 0)

  const V4PREFIX: seq<byte> := [0, 0, 0, 0, 0, 0, 0, 0, 0, 0, 0xFF, 0xFF]

  predicate V4Mapped(a: Address) {
    a[..12] == V4PREFIX
  }

  function Zeros(n: nat): (s: seq<byte>)
    ensures |s| == n
  {
    seq(n, _ => 0)
  }

  function Pow2(k: nat): (p: nat)
    ensures p > 0
  {
    if k == 0 then 1 else 2 * Pow2(k - 1)
  }

  /** The leading k bits of a byte. */
  function MaskByte(b: byte, k: nat): (r: byte)
    requires k <= 8
    ensures r <= b
  {
    var m: int := Pow2(8 - k);
    var n: int := b;
    MaskBounds(n, m);
    n / m * m
  }

  lemma MaskBounds(n: int, m: int)
    requires n >= 0 && m > 0
    ensures 0 <= n / m * m <= n
  {
  }

  /** Byte i of a masked prefix. */
  function MaskedByte(b: byte, i: nat, plen: nat): byte {
    if 8 * (i + 1) <= plen then b
    else if plen <= 8 * i then 0
    else MaskByte(b, plen - 8 * i)
  }

  /** mask_prefix. */
  function MaskPrefix(p: Address, plen: nat): (r: Address) {
    seq(16, i requires 0 <= i < 16 => MaskedByte(p[i], i, plen))
  }

  /** mask_prefix as it fills its result: clear, copy the whole bytes, mask one. */
  method MaskInto(ret: array<byte>, prefix: Address, plen: byte)
    requires ret.Length == 16
    modifies ret
    ensures ret[..] == MaskPrefix(prefix, plen)
  {
    if plen >= 128 {
      forall i | 0 <= i < 16 {
        ret[i] := prefix[i];
      }
      return;
    }
    forall i | 0 <= i < 16 {
      ret[i] := 0;
    }
    forall i | 0 <= i < plen / 8 {
      ret[i] := prefix[i];
    }
    if plen % 8 != 0 {
      ret[plen / 8] := MaskByte(prefix[plen / 8], plen % 8);
    }
  }

  lemma MaskNothing(p: Address)
    ensures MaskPrefix(p, 128) == p
  {
  }

  /** No bits are set beyond the prefix length. */
  predicate Canonical(p: Address, plen: nat) {
    MaskPrefix(p, plen) == p
  }

  lemma PowersOfTwo()
    ensures Pow2(1) == 2 && Pow2(2) == 4 && Pow2(3) == 8 && Pow2(4) == 16
    ensures Pow2(5) == 32 && Pow2(6) == 64 && Pow2(7) == 128
  {
  }

  lemma {:induction false} Pow2Sum(a: nat, b: nat)
    ensures Pow2(a + b) == Pow2(a) * Pow2(b)
  {
    if a == 0 {
      assert Pow2(0 + b) == 1 * Pow2(b);
    } else {
      Pow2Sum(a - 1, b);
      assert Pow2(a + b) == 2 * Pow2((a - 1) + b);
      assert 2 * (Pow2(a - 1) * Pow2(b)) == 2 * Pow2(a - 1) * Pow2(b);
    }
  }

  lemma AtLeastOnce(b: int, t: int)
    requires b > 0
    ensures (t >= 1 ==> b * t >= b) && (t <= -1 ==> b * t <= -b)
  {
  }

  lemma QuotientIs(a: int, b: int, q: int, r: int)
    requires 0 <= r < b && a == b * q + r
    ensures a / b == q
  {
    var d := a / b - q;
    assert b * (a / b) == b * q + b * d;
    AtLeastOnce(b, d);
  }

  /** Rounding down to a multiple of m does not move a quotient by a multiple of m. */
  lemma RoundedQuotient(n: int, m: int, e: int, d: int)
    requires n >= 0 && m > 0 && d > 0 && d == m * e
    ensures (n / m * m) / d == n / d
  {
    var x, s, q, r := n / d, n % d, n / m, n % m;
    assert n == d * x + s && n == m * q + r;
    var t := q - e * x;
    assert m * t == s - r by {
      assert m * (e * x) == d * x;
      assert m * q == m * (e * x) + m * t;
    }
    AtLeastOnce(m, t);
    QuotientIs(q * m, d, x, s - r);
  }

  /** Bit j of a byte, the highest first. */
  function Bit(b: byte, j: nat): nat
    requires j < 8
  {
    var n: int := b;
    n / Pow2(7 - j) % 2
  }

  /** mask_prefix's mask for one byte keeps the leading bits and clears the others. */
  lemma MaskByteBits(b: byte, k: nat, j: nat)
    requires k <= 8 && j < 8
    ensures Bit(MaskByte(b, k), j) == if j < k then Bit(b, j) else 0
  {
    var n: int, m: int, d: int := b, Pow2(8 - k), Pow2(7 - j);
    if j < k {
      Pow2Sum(8 - k, k - 1 - j);
      RoundedQuotient(n, m, Pow2(k - 1 - j), d);
    } else {
      Pow2Sum(8 - j, j - k);
      ClearedBit(n / m, Pow2(j - k), d);
    }
  }

  lemma ClearedBit(q: int, h: int, d: int)
    requires d > 0
    ensures q * (2 * d * h) / d % 2 == 0
  {
    assert q * (2 * d * h) == d * (2 * (q * h));
    QuotientIs(q * (2 * d * h), d, 2 * (q * h), 0);
  }

  lemma NoBits(j: nat)
    requires j < 8
    ensures Bit(0, j) == 0
  {
    QuotientIs(0, Pow2(7 - j), 0, 0);
  }

  /** mask_prefix keeps the first plen bits and clears the others. */
  lemma MaskKeepsBits(p: Address, plen: nat, i: nat, j: nat)
    requires i < 16 && j < 8
    ensures Bit(MaskPrefix(p, plen)[i], j) == if 8 * i + j < plen then Bit(p[i], j) else 0
  {
    if plen <= 8 * i {
      NoBits(j);
    } else if plen < 8 * (i + 1) {
      MaskByteBits(p[i], plen - 8 * i, j);
    }
  }

  /** A masked byte is even unless all its bits are kept. */
  lemma MaskIsEven(b: byte, k: nat)
    requires 0 < k < 8
    ensures MaskByte(b, k) % 2 == 0
  {
    PowersOfTwo();
    var m := Pow2(8 - k);
    var q := b / m;
    assert m == 2 * Pow2(7 - k);
    EvenProduct(q, Pow2(7 - k));
  }

  lemma EvenProduct(q: int, h: int)
    ensures q * (2 * h) % 2 == 0
  {
    assert q * (2 * h) == 2 * (q * h);
  }

  /** A canonical prefix that is sent as IPv6 is not IPv4-mapped. */
  lemma CanonicalV6IsNotMapped(p: Address, plen: nat)
    requires Canonical(p, plen) && !(plen >= 96 && V4Mapped(p))
    ensures !V4Mapped(p)
  {
    if plen < 96 {
      assert p[11] == MaskPrefix(p, plen)[11] == MaskedByte(p[11], 11, plen);
      if plen > 88 {
        MaskIsEven(p[11], plen - 88);
      }
      assert p[..12][11] == p[11] && V4PREFIX[11] == 0xFF;
    }
  }

  /** Leading bytes in an array that was zero. */
  function Padded(s: seq<byte>): Address
    requires |s| <= 16
  {
    s + Zeros(16 - |s|)
  }

  /** The bytes a canonical prefix reaches into bring it back. */
  lemma PaddedRestores(s: seq<byte>, prefix: Address, plen: nat)
    requires plen <= 128 && Canonical(prefix, plen) && s == prefix[..(plen + 7) / 8]
    ensures MaskPrefix(Padded(s), plen) == prefix
  {
  }

  /** network_prefix: the prefix and the number of bytes parsed, or None.  No
      length stands for the -1 that whole addresses are parsed with; dp is what
      omitted bytes are taken from. */
  function NetworkPrefix(ae: byte, plen: Option<byte>, omitted: byte, p: seq<byte>,
                         dp: Option<Address>): (r: Option<(Address, nat)>)
  {
    var pb: nat := if plen.Some? then (plen.value + 7) / 8 else if ae == 1 then 4 else 16;
    var bits: nat := if plen.None? then 128 else if ae == 1 then plen.value + 96 else plen.value;
    if pb > 16 then None
    else if ae == 0 then Some((MaskPrefix(Zeros(16), bits), 0))
    else if ae == 1 then
      if omitted > 4 || pb > 4 || |p| < pb - omitted || pb < omitted then None
      else if omitted > 0 && (dp.None? || !V4Mapped(dp.value)) then None
      else
        var head := if omitted > 0 then dp.value[..12 + omitted] else V4PREFIX;
        Some((MaskPrefix(Padded(head + p[..pb - omitted]), bits), pb - omitted))
    else if ae == 2 then
      if omitted > 16 || |p| < pb - omitted || pb < omitted then None
      else if omitted > 0 && (dp.None? || V4Mapped(dp.value)) then None
      else
        var head := if omitted > 0 then dp.value[..omitted] else [];
        Some((MaskPrefix(Padded(head + p[..pb - omitted]), bits), pb - omitted))
    else if ae == 3 then
      if pb < 8 || |p| < pb - 8 then None
      else Some((MaskPrefix(Padded([0xfe, 0x80] + Zeros(6) + p[..pb - 8]), bits), pb - 8))
    else None
  }

  /** network_prefix goes as far as to take bytes from a remembered prefix, with this
      many bytes given. */
  predicate Relies(ae: byte, plen: byte, omitted: byte, given: nat) {
    var pb := (plen + 7) / 8;
    omitted > 0 && (ae == 1 || ae == 2) && omitted <= pb <= (if ae == 1 then 4 else 16) && pb - omitted <= given
  }

  /** An IPv6 prefix comes back from its omitted and its given bytes. */
  lemma Restored6(plen: byte, omitted: byte, p: seq<byte>, dp: Option<Address>, prefix: Address)
    requires plen <= 128 && Canonical(prefix, plen) && omitted + |p| == (plen + 7) / 8
    requires omitted > 0 ==> dp.Some? && !V4Mapped(dp.value)
    requires (if omitted > 0 then dp.value[..omitted] else []) + p == prefix[..(plen + 7) / 8]
    ensures NetworkPrefix(2, Some(plen), omitted, p, dp) == Some((prefix, |p|))
  {
    assert p[..|p|] == p;
    PaddedRestores((if omitted > 0 then dp.value[..omitted] else []) + p, prefix, plen);
  }

  lemma Restored4(plen: byte, p: seq<byte>, dp: Option<Address>, prefix: Address)
    requires plen <= 32 && Canonical(prefix, plen + 96) && |p| == (plen + 7) / 8
    requires V4PREFIX + p == prefix[..12 + (plen + 7) / 8]
    ensures NetworkPrefix(1, Some(plen), 0, p, dp) == Some((prefix, |p|))
  {
    assert p[..|p|] == p;
    PaddedRestores(V4PREFIX + p, prefix, plen + 96);
  }
}
