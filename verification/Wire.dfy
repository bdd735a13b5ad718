/** Byte strings, big-endian integers and the cutting of a payload into windows,
    shared by the push and the pull protocol. */
module Wire {
  datatype Option<+T> = None | Some(value: T)

  type byte = x: int | 0 <= x < 0x100
  type u16 = x: int | 0 <= x < 0x1_0000
  type u32 = x: int | 0 <= x < 0x1_0000_0000
  type bytes = seq<byte>

  /** An uninterpreted 32-bit checksum: nothing here depends on which one it is. */
  type Checksum = bytes -> u32

  function Min(a: int, b: int): int {
    if a <= b then a else b
  }

  function Max(a: int, b: int): int {
    if a <= b then b else a
  }

  function Put16(x: u16): bytes {
    [x / 0x100, x % 0x100]
  }

  function Put32(x: u32): bytes {
    Put16(x / 0x1_0000) + Put16(x % 0x1_0000)
  }

  function Get16(b: bytes, at: nat): u16
    requires at + 2 <= |b|
  {
    b[at] as int * 0x100 + b[at + 1]
  }

  function Get32(b: bytes, at: nat): u32
    requires at + 4 <= |b|
  {
    Get16(b, at) as int * 0x1_0000 + Get16(b, at + 2)
  }

  lemma Put16OfGet16(b: bytes, at: nat)
    requires at + 2 <= |b|
    ensures Put16(Get16(b, at)) == b[at..at + 2]
  {
    assert Get16(b, at) / 0x100 == b[at];
  }

  lemma Put32OfGet32(b: bytes, at: nat)
    requires at + 4 <= |b|
    ensures Put32(Get32(b, at)) == b[at..at + 4]
  {
    Put16OfGet16(b, at);
    Put16OfGet16(b, at + 2);
    assert Get32(b, at) / 0x1_0000 == Get16(b, at);
    assert Get32(b, at) % 0x1_0000 == Get16(b, at + 2);
    assert b[at..at + 2] + b[at + 2..at + 4] == b[at..at + 4];
  }

  /** The four bytes of Put32 read back at `at` give the number. */
  lemma Get32OfPut32(b: bytes, at: nat, x: u32)
    requires at + 4 <= |b| && b[at..at + 4] == Put32(x)
    ensures Get32(b, at) == x
  {
    var four := b[at..at + 4];
    assert b[at] == four[0] && b[at + 1] == four[1] && b[at + 2] == four[2] && b[at + 3] == four[3];
  }

  // ---- cutting a payload into windows ---------------------------------------

  /** How many windows of `size` bytes a payload of `len` bytes needs. */
  function WindowCount(len: nat, size: nat): nat
    requires size > 0
  {
    (len + size - 1) / size
  }

  function Window(payload: bytes, i: nat, size: nat): bytes
    requires size > 0 && i < WindowCount(|payload|, size)
  {
    WindowStarts(|payload|, i, size);
    payload[i * size..Min((i + 1) * size, |payload|)]
  }

  /** Every window starts strictly inside the payload, and the last one ends it. */
  lemma WindowStarts(len: nat, i: nat, size: nat)
    requires size > 0 && i < WindowCount(len, size)
    ensures 0 <= i * size < len && i * size + size == (i + 1) * size
    ensures i + 1 == WindowCount(len, size) <==> len <= (i + 1) * size
  {
    var n := WindowCount(len, size);
    var r := (len + size - 1) % size;
    assert len + size - 1 == n * size + r;
    assert i * size <= (n - 1) * size by { MulMonotone(i, n - 1, size); }
    assert n * size == (n - 1) * size + size;
    assert i * size + size == (i + 1) * size;
    if i + 1 < n {
      MulMonotone(i + 2, n, size);
      assert (i + 2) * size == (i + 1) * size + size;
    }
  }

  lemma MulMonotone(a: int, b: int, c: nat)
    requires a <= b
    ensures a * c <= b * c
  {
    assert (b - a) * c >= 0;
  }

  lemma MulStep(a: int, b: int, d: nat)
    requires a < b
    ensures a * d + d <= b * d
  {
    MulMonotone(a + 1, b, d);
    assert (a + 1) * d == a * d + d;
  }

  /** Quotient and remainder are unique. */
  lemma DivModUnique(x: int, d: nat, q: int, r: nat)
    requires r < d && x == q * d + r
    ensures x / d == q && x % d == r
  {
    var p := x / d;
    assert x == p * d + x % d;
    if p > q {
      MulStep(q, p, d);
    } else if p < q {
      MulStep(p, q, d);
    }
  }
}
