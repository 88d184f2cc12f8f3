/**
 * The fixed-width integer types of the Windows harness: `DWORD`/`ULONG` (unsigned
 * 32-bit), `ULONGLONG` (unsigned 64-bit), `int` (signed 32-bit) and `LONGLONG`
 * (signed 64-bit). Dafny integers are unbounded, so every wrap-around of an unsigned
 * operation is written out with the modulus below.
 */
module Ints {

  const U32_MODULUS: nat := 0x1_0000_0000
  const U64_MODULUS: nat := 0x1_0000_0000_0000_0000

  const U32_MAX: nat := U32_MODULUS - 1
  const U64_MAX: nat := U64_MODULUS - 1

  const I32_MIN: int := -0x8000_0000
  const I32_MAX: int := 0x7fff_ffff
  const I64_MIN: int := -0x8000_0000_0000_0000
  const I64_MAX: int := 0x7fff_ffff_ffff_ffff

  type u32 = x: int | 0 <= x < 0x1_0000_0000
  type u64 = x: int | 0 <= x < 0x1_0000_0000_0000_0000
  type i32 = x: int | -0x8000_0000 <= x < 0x8000_0000
  type i64 = x: int | -0x8000_0000_0000_0000 <= x < 0x8000_0000_0000_0000

  /** Unsigned 32-bit arithmetic keeps the value modulo 2^32. */
  function Wrap32(x: int): (r: u32)
    ensures 0 <= x < U32_MODULUS ==> r == x
    ensures 0 <= x ==> r <= x
  {
    x % U32_MODULUS
  }

  /** Unsigned 64-bit arithmetic keeps the value modulo 2^64. */
  function Wrap64(x: int): (r: u64)
    ensures 0 <= x < U64_MODULUS ==> r == x
    ensures 0 <= x ==> r <= x
  {
    x % U64_MODULUS
  }

  /** Saturation of a mathematical value into `[lo, hi]`. */
  function Clamp(x: int, lo: int, hi: int): (r: int)
    requires lo <= hi
    ensures lo <= r <= hi
    ensures lo <= x <= hi ==> r == x
    ensures x < lo ==> r == lo
    ensures hi < x ==> r == hi
  {
    if x < lo then lo else if hi < x then hi else x
  }

  /** Multiplying by a fixed factor is monotone. */
  lemma {:induction false} ScaleMonotone(x: nat, y: nat, c: nat)
    requires x <= y
    ensures x * c <= y * c
  {
    if x < y {
      ScaleMonotone(x, y - 1, c);
      assert y * c == (y - 1) * c + c;
    }
  }

  /** A strict inequality between multiples of the same factor carries over to the multipliers. */
  lemma {:induction false} LessCancel(x: nat, y: nat, c: nat)
    requires x * c < y * c
    ensures x < y
    decreases y
  {
    if x > 0 && y > 0 {
      assert (x - 1) * c == x * c - c;
      assert (y - 1) * c == y * c - c;
      LessCancel(x - 1, y - 1, c);
    }
  }

  /** So does a non-strict one, for a positive factor. */
  lemma LeCancel(x: nat, y: nat, c: nat)
    requires c > 0 && x * c <= y * c
    ensures x <= y
  {
    assert (y + 1) * c == y * c + c;
    LessCancel(x, y + 1, c);
  }
}
