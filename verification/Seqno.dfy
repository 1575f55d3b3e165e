/** Sixteen-bit sequence numbers and their circular order (babeld/util.h). */
module Seqno {
  import opened Basics

  /** 1 when s1 is newer than s2, -1 when it is older, 0 when they are equal.
      The C code tests bit 15 of the 16-bit difference s2 - s1. */
  function Compare(s1: u16, s2: u16): int {
    if s1 == s2 then 0
    else if (s2 - s1) % 0x10000 >= 0x8000 then 1
    else -1
  }

  function Plus(s: u16, plus: int): u16 {
    (s + plus) % 0x10000
  }

  /** How far s lies ahead of base on the circle. */
  function Offset(base: u16, s: u16): nat {
    (s - base) % 0x10000
  }

  /** s lies less than 2^15 ahead of base. */
  ghost predicate InWindow(base: u16, s: u16) {
    Offset(base, s) < 0x8000
  }

  /** Inside a window the circular comparison is integer comparison of the
      offsets, hence a strict total order. */
  lemma CompareInWindow(base: u16, s1: u16, s2: u16)
    requires InWindow(base, s1) && InWindow(base, s2)
    ensures Compare(s1, s2) > 0 <==> Offset(base, s1) > Offset(base, s2)
    ensures Compare(s1, s2) < 0 <==> Offset(base, s1) < Offset(base, s2)
    ensures Compare(s1, s2) == 0 <==> Offset(base, s1) == Offset(base, s2)
  {
  }

  /** Antisymmetry fails for exactly one distance: half way round the circle
      each of the two numbers is newer than the other. */
  lemma CompareAntisymmetricIff(s1: u16, s2: u16)
    ensures Compare(s1, s2) == -Compare(s2, s1) <==> (s1 - s2) % 0x10000 != 0x8000
  {
  }
}
