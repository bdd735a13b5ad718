/** Unsigned 32-bit arithmetic, and the signed reading of a difference by which the
    firmware compares clock values. */
module Word32 {
  import opened Wire

  const WRAP: int := 0x1_0000_0000
  const HALF: int := 0x8000_0000

  function Add32(a: u32, b: u32): u32 {
    (a + b) % WRAP
  }

  function Sub32(a: u32, b: u32): u32 {
    (a - b) % WRAP
  }

  /** The value of the 32-bit word read as a two's complement integer. */
  function Signed(x: u32): int {
    if x < HALF then x else x - WRAP
  }

  lemma ModAdd(a: int, b: nat)
    ensures (a % WRAP + b) % WRAP == (a + b) % WRAP
  {
    var q := a / WRAP;
    assert a == q * WRAP + a % WRAP;
  }

  /** The signed difference of two clock readings is the true one, across any number
      of wraps, exactly as long as the moments are less than 2^31 ms apart. */
  lemma SignedIsDifference(a: int, b: int)
    ensures Signed(Sub32(a % WRAP, b % WRAP)) == a - b <==> -HALF <= a - b < HALF
  {
    var p, q := a / WRAP, b / WRAP;
    assert a == p * WRAP + a % WRAP && b == q * WRAP + b % WRAP;
    var d := a % WRAP - b % WRAP;
    assert d == a - b - (p - q) * WRAP;
    assert Sub32(a % WRAP, b % WRAP) == if d < 0 then d + WRAP else d;
  }
}
