/** Types shared by the models of bgpd and babeld. */
module Basics {
  const TWO32 := 0x1_0000_0000

  /** Sequence numbers, metrics. */
  type u16 = x: int | 0 <= x < 0x10000

  /** AS numbers, communities. */
  type u32 = x: int | 0 <= x < 0x1_0000_0000

  type byte = x: int | 0 <= x < 256

  datatype Option<+T> = None | Some(value: T)

  lemma Associates<T>(a: seq<T>, b: seq<T>, c: seq<T>)
    ensures (a + b) + c == a + (b + c)
  {
  }
}
