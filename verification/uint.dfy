/** Fixed-width unsigned integers of the on-chain program, as ranges of `int`. */
module Uint {
  import opened Results

  const U8_LIMIT: int := 0x100
  const U64_LIMIT: int := 0x1_0000_0000_0000_0000
  const U64_MAX: int := U64_LIMIT - 1

  type u8 = x: int | 0 <= x < U8_LIMIT
  type u64 = x: int | 0 <= x < U64_LIMIT

  /** Addition of two `u64` values with overflow detection: `None` exactly when the
      mathematical sum does not fit in 64 bits. */
  function CheckedAdd(a: u64, b: u64): (r: Option<u64>)
    ensures r.None? <==> a + b > U64_MAX
    ensures r.Some? ==> r.value - a == b
  {
    if a + b <= U64_MAX then Some(a + b) else None
  }

  /** 2 to the power `n`. */
  function Pow2(n: nat): (r: nat)
    ensures r >= 1
  {
    if n == 0 then 1 else 2 * Pow2(n - 1)
  }

  /** The powers of two grow with the exponent; 2^64 is the first that leaves `u64`. */
  lemma {:induction false} Pow2Monotonic(m: nat, n: nat)
    requires m <= n
    ensures Pow2(m) <= Pow2(n)
    decreases n
  {
    if m < n {
      Pow2Monotonic(m, n - 1);
    }
  }

  /** Exponents add when powers of two multiply. */
  lemma {:induction false} Pow2Add(m: nat, n: nat)
    ensures Pow2(m + n) == Pow2(m) * Pow2(n)
    decreases n
  {
    if n > 0 {
      Pow2Add(m, n - 1);
      assert Pow2(m + n) == 2 * Pow2(m + n - 1);
    }
  }

  lemma Pow2At64()
    ensures Pow2(64) == U64_LIMIT
  {
    assert Pow2(8) == 0x100;
    Pow2Add(8, 8);
    Pow2Add(16, 16);
    Pow2Add(32, 32);
  }
}
