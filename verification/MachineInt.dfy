/** Fixed-width unsigned arithmetic of the C++ code: `size_t`, `uintptr_t` and `unsigned`. */
module MachineInt {
  const TWO_31: int := 0x8000_0000
  const TWO_32: int := 0x1_0000_0000
  const TWO_64: int := 0x1_0000_0000_0000_0000
  const MAX_64: int := 0xFFFF_FFFF_FFFF_FFFF

  type u32 = x: int | 0 <= x < 0x1_0000_0000
  type u64 = x: int | 0 <= x < 0x1_0000_0000_0000_0000
  type i32 = x: int | -0x8000_0000 <= x < 0x8000_0000

  // Wrapping 64-bit sum and difference.
  function Add64(a: u64, b: u64): u64 {
    if a + b < TWO_64 then a + b else a + b - TWO_64
  }

  function Sub64(a: u64, b: u64): u64 {
    if b <= a then a - b else a - b + TWO_64
  }

  function Mul64(a: u64, b: u64): u64 {
    (a * b) % TWO_64
  }

  // Wrapping 32-bit difference.
  function Sub32(a: u32, b: u32): u32 {
    if b <= a then a - b else a - b + TWO_32
  }

  // The bits of an int read as an unsigned.
  function AsUnsigned(x: i32): u32 {
    if 0 <= x then x else x + TWO_32
  }

  // An int converted to size_t: sign extended, so a negative value becomes a huge one.
  function AsSize(x: i32): u64 {
    if 0 <= x then x else x + TWO_64
  }

  function Min(a: int, b: int): int {
    if a <= b then a else b
  }

  lemma ModUnique(x: int, q: int, r: int)
    requires x == q * TWO_64 + r && 0 <= r < TWO_64
    ensures x % TWO_64 == r
  {
  }

  /** Adding a reduced sum is adding the sum: 64-bit addresses form a ring. */
  lemma AddMod(a: int, b: u64)
    requires 0 <= a
    ensures Add64(a % TWO_64, b) == (a + b) % TWO_64
  {
    var q := a / TWO_64;
    var r := a % TWO_64;
    assert a == q * TWO_64 + r;
    if r + b < TWO_64 {
      ModUnique(a + b, q, r + b);
    } else {
      ModUnique(a + b, q + 1, r + b - TWO_64);
    }
  }
}
