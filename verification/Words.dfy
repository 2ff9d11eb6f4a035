/**
Fixed-width unsigned arithmetic. Values are mathematical integers restricted to the
range of the machine type; the operations write the wrap-around out.
 */
module Words {

  const TWO_16 := 0x1_0000
  const TWO_31 := 0x8000_0000
  const TWO_32 := 0x1_0000_0000

  type Byte = x: int | 0 <= x < 0x100
  type U16 = x: int | 0 <= x < 0x1_0000
  type U31 = x: int | 0 <= x < 0x8000_0000   // the range of random()
  type U32 = x: int | 0 <= x < 0x1_0000_0000

  /** `a + b` on uint32_t. */
  function Add32(a: U32, b: U32): U32 {
    if a + b < TWO_32 then a + b else a + b - TWO_32
  }

  /** `a - b` on uint32_t. */
  function Sub32(a: U32, b: U32): U32 {
    if b <= a then a - b else a - b + TWO_32
  }

  function Min(a: int, b: int): int {
    if a < b then a else b
  }

  function Pow2(n: nat): nat {
    if n == 0 then 1 else 2 * Pow2(n - 1)
  }
}
