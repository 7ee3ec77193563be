/**
  Byte-level primitives of the Petra GRD reader: bytes, unsigned 32-bit
  integers in little-endian order, and 64-bit floats kept as opaque
  eight-byte chunks (the reader never interprets them beyond copying).
 */
module Primitives {

  /** An octet of the file, as its unsigned value. */
  type byte = x: int | 0 <= x < 256

  /** Unsigned 32-bit integers, the Rust `u32` of the header fields. */
  type u32 = n: int | 0 <= n < 0x1_0000_0000

  const U32_LIMIT: int := 0x1_0000_0000

  /** A little-endian IEEE-754 double exactly as stored: eight raw bytes. */
  type F64 = s: seq<byte> | |s| == 8 witness [0, 0, 0, 0, 0, 0, 0, 0]

  /** `read_u32::<LittleEndian>` applied to four bytes. */
  function LeU32(b: seq<byte>): u32
    requires |b| == 4
  {
    var b0: int, b1: int, b2: int, b3: int := b[0], b[1], b[2], b[3];
    b0 + 256 * b1 + 65536 * b2 + 16777216 * b3
  }

  /** `write_u32::<LittleEndian>`, the inverse of LeU32 (the reader has no
      writer; this is here to state that decoding loses nothing). */
  function U32Le(n: u32): (b: seq<byte>)
    ensures |b| == 4
  {
    var n1 := n / 256;
    var n2 := n1 / 256;
    [n % 256, n1 % 256, n2 % 256, n2 / 256]
  }

  /** Decoding what was encoded gives the number back. */
  lemma LeU32OfU32Le(n: u32)
    ensures LeU32(U32Le(n)) == n
  {
    var n1 := n / 256;
    var n2 := n1 / 256;
    assert n == n % 256 + 256 * n1;
    assert n1 == n1 % 256 + 256 * n2;
    assert n2 == n2 % 256 + 256 * (n2 / 256);
  }

  /** Encoding what was decoded gives the four bytes back, so LeU32 is a
      bijection between four-byte sequences and u32. */
  lemma U32LeOfLeU32(b: seq<byte>)
    requires |b| == 4
    ensures U32Le(LeU32(b)) == b
  {
    var b0: int, b1: int, b2: int, b3: int := b[0], b[1], b[2], b[3];
    var n := LeU32(b);
    var m2 := b2 + 256 * b3;
    var m1 := b1 + 256 * m2;
    assert n == b0 + 256 * m1;
    SplitByte(n, m1, b0);
    SplitByte(m1, m2, b1);
    SplitByte(m2, b3, b2);
    var e := U32Le(n);
    assert e == [b0, b1, b2, b3];
  }

  /** Euclidean division by 256 is unique. */
  lemma SplitByte(n: int, q: int, r: int)
    requires n == r + 256 * q && 0 <= r < 256
    ensures n / 256 == q && n % 256 == r
  {
  }

  lemma MultiplyMonotonic(a: nat, b: nat, k: nat)
    requires a <= b
    ensures a * k <= b * k
  {
  }

  /** k n fits in d exactly when n is at most d / k, rounded down. */
  lemma FloorDivision(d: nat, k: nat, n: nat)
    requires k > 0
    ensures k * n <= d <==> n <= d / k
  {
    if n <= d / k {
      MultiplyMonotonic(n, d / k, k);
    } else {
      MultiplyMonotonic(d / k + 1, n, k);
    }
  }

  /** d / k == q exactly when d lies in [k q, k q + k). */
  lemma FloorDivisionExact(d: nat, k: nat, q: nat)
    requires k > 0
    ensures d / k == q <==> k * q <= d < k * q + k
  {
    assert d == k * (d / k) + d % k;
    if d / k < q {
      MultiplyMonotonic(d / k + 1, q, k);
    } else if d / k > q {
      MultiplyMonotonic(q + 1, d / k, k);
    }
  }
}
