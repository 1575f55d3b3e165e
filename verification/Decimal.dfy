/** Unsigned 32-bit numbers in decimal text, as printf writes them and as the
    digit loops of bgpd read them. */
module Decimal {
  import opened Basics

  predicate IsDigit(c: char) {
    '0' <= c <= '9'
  }

  /** isspace in the C locale. */
  predicate IsSpace(c: char) {
    c == ' ' || 9 as char <= c <= 13 as char
  }

  function DigitOf(n: nat): (c: char)
    requires n < 10
    ensures IsDigit(c) && ValueOf(c) == n
  {
    '0' + n as char
  }

  function ValueOf(c: char): (n: nat)
    requires IsDigit(c)
    ensures n < 10
  {
    (c - '0') as nat
  }

  predicate AllDigits(s: string) {
    forall i :: 0 <= i < |s| ==> IsDigit(s[i])
  }

  function Print(n: nat): (s: string)
    ensures |s| > 0 && AllDigits(s)
  {
    if n < 10 then [DigitOf(n)] else Print(n / 10) + [DigitOf(n % 10)]
  }

  /** Reading one more digit; the sum wraps at 32 bits. */
  function Digit(acc: u32, c: char): u32
    requires IsDigit(c)
  {
    (acc * 10 + ValueOf(c)) % TWO32
  }

  /** The value of a run of digits read after acc. */
  function Read(acc: u32, s: string): u32
    requires AllDigits(s)
    decreases |s|
  {
    if s == [] then acc else Read(Digit(acc, s[0]), s[1..])
  }

  /** The length of the digits at the start of a string. */
  function Run(s: string): (k: nat)
    ensures k <= |s| && AllDigits(s[..k])
    ensures k < |s| ==> !IsDigit(s[k])
  {
    if s == [] || !IsDigit(s[0]) then 0
    else
      var k := 1 + Run(s[1..]);
      assert forall i :: 0 < i < k ==> s[..k][i] == s[1..][..k - 1][i - 1];
      k
  }

  lemma {:induction false} ReadConcat(acc: u32, a: string, b: string)
    requires AllDigits(a) && AllDigits(b)
    ensures AllDigits(a + b) && Read(acc, a + b) == Read(Read(acc, a), b)
    decreases |a|
  {
    if a == [] {
      assert a + b == b;
    } else {
      assert (a + b)[1..] == a[1..] + b;
      ReadConcat(Digit(acc, a[0]), a[1..], b);
    }
  }

  /** Reading what was printed gives the number back. */
  lemma {:induction false} ReadPrint(n: u32)
    ensures Read(0, Print(n)) == n
    decreases n
  {
    if n < 10 {
      assert Print(n)[1..] == [];
    } else {
      ReadPrint(n / 10);
      ReadConcat(0, Print(n / 10), [DigitOf(n % 10)]);
      assert [DigitOf(n % 10)][1..] == [];
      assert Read(n / 10, [DigitOf(n % 10)]) == Digit(n / 10, DigitOf(n % 10));
    }
  }

  /** Power of ten. */
  function Pow10(k: nat): (p: nat)
    ensures p > 0
  {
    if k == 0 then 1 else 10 * Pow10(k - 1)
  }

  lemma {:induction false} PrintLength(n: nat, k: nat)
    requires k > 0 && n < Pow10(k)
    ensures |Print(n)| <= k
  {
    if n >= 10 {
      PrintLength(n / 10, k - 1);
    }
  }

  /** An AS number takes at most ten characters. */
  lemma PrintAtMost10(n: u32)
    ensures |Print(n)| <= 10
  {
    assert Pow10(5) == 100000;
    assert Pow10(10) == 10 * Pow10(9) == 100 * Pow10(8) == 1000 * Pow10(7) == 10000 * Pow10(6) == 100000 * Pow10(5);
    PrintLength(n, 10);
  }

  lemma PrintAtMost5(n: nat)
    requires n < 0x10000
    ensures |Print(n)| <= 5
  {
    assert Pow10(5) == 100000;
    PrintLength(n, 5);
  }

  /** The digits in front of something else are exactly the printed number. */
  lemma {:induction false} RunOf(digits: string, rest: string)
    requires AllDigits(digits) && (rest == [] || !IsDigit(rest[0]))
    ensures Run(digits + rest) == |digits|
  {
    if digits == [] {
      assert digits + rest == rest;
    } else {
      assert (digits + rest)[0] == digits[0] && (digits + rest)[1..] == digits[1..] + rest;
      RunOf(digits[1..], rest);
    }
  }
}
