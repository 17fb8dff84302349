/**
  Machine integers of the C source and the little-endian byte layout of the
  RIFF/WAVE format. Every multi-byte field of a WAVE file is little-endian;
  the reader rebuilds each one from single bytes, and the sample buffers are
  reinterpreted as two's-complement integers of the host (little-endian here).
*/
module Bytes {

  type byte = x: int | 0 <= x < 0x100
  type u16 = x: int | 0 <= x < 0x1_0000
  type u32 = x: int | 0 <= x < 0x1_0000_0000

  const TWO_32: int := 0x1_0000_0000
  const TWO_31: int := 0x8000_0000

  /** 256 to the power n: one more than the largest value that n bytes hold. */
  function Pow256(n: nat): (r: nat)
    ensures r >= 1
  {
    if n == 0 then 1 else 256 * Pow256(n - 1)
  }

  /** uint32_t arithmetic: the value modulo 2^32. */
  function Wrap32(x: int): (r: u32)
    ensures 0 <= x < TWO_32 ==> r == x
  {
    x % TWO_32
  }

  /** Wrapping takes away a whole number of 2^32 steps: the floor of x / 2^32 of them, and nothing else. */
  lemma Wrap32Congruent(x: int)
    ensures x == Wrap32(x) + (x / TWO_32) * TWO_32
    ensures 0 <= Wrap32(x) < TWO_32
  {
  }

  /**
    The int32_t that results when an int is narrowed to 32 bits, the
    two's-complement wrap-around of the usual platforms.
  */
  function ToInt32(x: int): (r: int)
    ensures -TWO_31 <= r < TWO_31
    ensures -TWO_31 <= x < TWO_31 ==> r == x
    ensures Wrap32(r) == Wrap32(x)
  {
    var w := x % TWO_32;
    if w < TWO_31 then w else w - TWO_32
  }

  /**
    C's signed division, which truncates toward zero (Dafny's `/` is
    Euclidean): the remainder `a - q * b` has the sign of the dividend and is
    smaller than the divisor in magnitude (section 6.5.5 of ISO/IEC 9899:2011).
  */
  function TruncDiv(a: int, b: int): (q: int)
    requires b > 0
    ensures a >= 0 ==> 0 <= a - q * b < b
    ensures a < 0 ==> -b < a - q * b <= 0
  {
    if a >= 0 then a / b else -((-a) / b)
  }

  /** Truncation and Dafny's floor division part on a negative dividend: -3 / 2 is -1 in C and -2 in Dafny. */
  lemma TruncDivTowardZero()
    ensures TruncDiv(-3, 2) == -1 && -3 / 2 == -2
    ensures TruncDiv(3, 2) == 1 == 3 / 2
  {
  }

  /** Reference definition: the unsigned value of a little-endian byte string. */
  function LeValue(b: seq<byte>): (v: nat)
    ensures v < Pow256(|b|)
  {
    if b == [] then 0 else b[0] + 256 * LeValue(b[1..])
  }

  /** The n low-order bytes of v, least significant first. */
  function LeBytes(v: nat, n: nat): (b: seq<byte>)
    ensures |b| == n
  {
    if n == 0 then [] else [v % 256] + LeBytes(v / 256, n - 1)
  }

  /** `Buffer[0] | (Buffer[1] << 8)`: the byte ranges are disjoint, so `|` adds. */
  function LeU16(b: seq<byte>): (v: u16)
    requires |b| == 2
    ensures v == LeValue(b)
  {
    assert b[1..][1..] == [];
    b[0] as int + 0x100 * (b[1] as int)
  }

  /**
    `Buffer[0] | (Buffer[1] << 8) | (Buffer[2] << 16) | (Buffer[3] << 24)`.
    For a top byte of 128 or more, `Buffer[3] << 24` shifts an `int` into its
    sign bit, which ISO/IEC 9899:2011 section 6.5.7 leaves undefined; the
    model takes the usual reading, in which the OR assigned to `uint32_t`
    gives the unsigned little-endian value.
  */
  function LeU32(b: seq<byte>): (v: u32)
    requires |b| == 4
    ensures v == LeValue(b)
  {
    assert b[1..][1..][1..][1..] == [];
    var b0, b1, b2, b3 := b[0] as int, b[1] as int, b[2] as int, b[3] as int;
    assert LeValue(b[3..]) == b3;
    assert LeValue(b[2..]) == b2 + 256 * b3 by { assert b[2..][1..] == b[3..]; }
    assert LeValue(b[1..]) == b1 + 256 * LeValue(b[2..]) by { assert b[1..][1..] == b[2..]; }
    b0 + 0x100 * b1 + 0x1_0000 * b2 + 0x100_0000 * b3
  }

  /** Reading the bytes of an encoded value gives the value back. */
  lemma {:induction false} LeValueOfLeBytes(v: nat, n: nat)
    requires v < Pow256(n)
    ensures LeValue(LeBytes(v, n)) == v
  {
    if n > 0 {
      LeValueOfLeBytes(v / 256, n - 1);
      assert LeBytes(v, n)[1..] == LeBytes(v / 256, n - 1);
    }
  }

  /** Encoding the value of a byte string gives the byte string back. */
  lemma {:induction false} LeBytesOfLeValue(b: seq<byte>)
    ensures LeBytes(LeValue(b), |b|) == b
  {
    if b != [] {
      LeBytesOfLeValue(b[1..]);
      var v, rest := LeValue(b), LeValue(b[1..]);
      assert v % 256 == b[0] && v / 256 == rest by {
        assert v == rest * 256 + b[0] as int;
        DivModUnique(v, 256, rest, b[0] as int);
      }
      assert LeBytes(v, |b|) == [b[0]] + LeBytes(rest, |b| - 1);
    }
  }

  /** Half the range of n bytes: the signed n-byte integers are -Half(n) .. Half(n) - 1. */
  function Half(n: nat): (h: int)
    requires n > 0
    ensures h >= 128 && Pow256(n) == 2 * h
  {
    128 * Pow256(n - 1)
  }

  /** The two's-complement value of a little-endian byte string (int8/16/32 on the host). */
  function SignedLe(b: seq<byte>): (x: int)
    requires |b| > 0
    ensures -Half(|b|) <= x < Half(|b|)
    ensures x >= 0 <==> LeValue(b) < Half(|b|)
  {
    var v := LeValue(b);
    if v < Half(|b|) then v else v - Pow256(|b|)
  }

  /** The narrowing store `(intN_t)x`: the n low-order bytes of x in two's complement. */
  function EncodeSigned(x: int, n: nat): (b: seq<byte>)
    ensures |b| == n
  {
    LeBytes(x % Pow256(n), n)
  }

  /** Division and remainder are determined by the quotient-remainder equation. */
  lemma DivModUnique(x: int, m: int, q: int, r: int)
    requires m > 0 && x == q * m + r && 0 <= r < m
    ensures x / m == q && x % m == r
  {
    var q', r' := x / m, x % m;
    assert x == q' * m + r';
    assert (q - q') * m == r' - r;
    if q > q' {
      MulAtLeast(q - q', m);
      assert false;
    } else if q < q' {
      MulAtLeast(q' - q, m);
      assert false;
    }
  }

  lemma MulAtLeast(d: int, m: int)
    requires d >= 1 && m > 0
    ensures d * m >= m
  {
    assert d * m == (d - 1) * m + m;
  }

  /** Storing a value that fits and reading it back gives the value. */
  lemma SignedRoundTrip(x: int, n: nat)
    requires n > 0
    requires -Half(n) <= x < Half(n)
    ensures SignedLe(EncodeSigned(x, n)) == x
  {
    var m: int := Pow256(n);
    var r := x % m;
    LeValueOfLeBytes(r, n);
    assert LeValue(EncodeSigned(x, n)) == r;
    if x >= 0 {
      DivModUnique(x, m, 0, x);
    } else {
      DivModUnique(x, m, -1, x + m);
    }
  }

  /** Reading a stored byte string and storing it again gives the bytes back. */
  lemma SignedBytesRoundTrip(b: seq<byte>)
    requires |b| > 0
    ensures EncodeSigned(SignedLe(b), |b|) == b
  {
    var m: int := Pow256(|b|);
    var v := LeValue(b);
    if v < Half(|b|) {
      DivModUnique(v, m, 0, v);
    } else {
      DivModUnique(v - m, m, -1, v);
    }
    LeBytesOfLeValue(b);
  }

  /** Dividing a natural number by a positive one does not make it larger. */
  lemma DivNotLarger(a: nat, b: int)
    requires b >= 1
    ensures 0 <= a / b <= a
  {
    MulMonotone(a / b, 0, b);
    if a / b > a {
      MulMonotone(b, 1, a / b);
      assert false;
    }
  }

  /** A product of two naturals is at most its product with a positive third. */
  lemma ProductAtMost(a: nat, b: nat, w: int)
    requires w >= 1
    ensures a * b <= a * b * w
  {
    var p: nat := a * b;
    if p > 0 {
      MulAtLeast(w, p);
    }
  }

  /** A product of three factors does not depend on their order. */
  lemma MulRotate(a: int, b: int, c: int)
    ensures c * a * b == a * b * c
  {
  }

  /** Multiplying by a positive number keeps the order. */
  lemma MulMonotone(x: int, y: int, m: int)
    requires x >= y && m > 0
    ensures x * m >= y * m
  {
    assert x * m - y * m == (x - y) * m;
  }

  lemma Distribute(q: int, b: int, s: int, a: int)
    ensures (q * b + s) * a == q * (a * b) + s * a
  {
    assert (q * b + s) * a == (q * b) * a + s * a;
  }

  /** Floor division by a then by b is floor division by their product. */
  lemma DivDiv(x: nat, a: int, b: int)
    requires a > 0 && b > 0
    ensures (x / a) / b == x / (a * b)
  {
    var q, r := x / (a * b), x % (a * b);
    DivDivParts(x, a, b, q, r, r / a, r % a);
  }

  /** The step of DivDiv that mentions no division of x. */
  lemma DivDivParts(x: int, a: int, b: int, q: int, r: int, s: int, t: int)
    requires a > 0 && b > 0
    requires x == q * (a * b) + r && 0 <= r < a * b
    requires r == s * a + t && 0 <= t < a
    ensures x / a == q * b + s && (q * b + s) / b == q
  {
    assert 0 <= s < b by {
      if s >= b {
        MulMonotone(s, b, a);
      } else if s < 0 {
        MulMonotone(0, s + 1, a);
      }
    }
    assert x == (q * b + s) * a + t by { Distribute(q, b, s, a); }
    DivModUnique(x, a, q * b + s, t);
    DivModUnique(q * b + s, b, q, s);
  }
}
