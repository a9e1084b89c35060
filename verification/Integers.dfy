/** Machine integers as the 386 build has them. */
module Integers {
  const TWO32 := 0x1_0000_0000
  const TWO64 := 0x1_0000_0000_0000_0000
  const MAX64 := 0x7fff_ffff_ffff_ffff

  /** The int with the low 32 bits of x. */
  function ToInt32(x: int): int {
    (x + 0x8000_0000) % TWO32 - 0x8000_0000
  }

  lemma ToInt32Add(x: int, y: int)
    ensures ToInt32(ToInt32(x) + y) == ToInt32(x + y)
  {}

  /** The int64 with the low 64 bits of x. */
  function ToInt64(x: int): int {
    (x + 0x8000_0000_0000_0000) % TWO64 - 0x8000_0000_0000_0000
  }
}
