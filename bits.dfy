/** Integer models of the bit and byte operations the AD7190 driver performs on
    32-bit C integers: powers of two, shifts, bitwise OR, byte extraction and
    most-significant-byte-first assembly. */
module Bits {

  /** A value of the C type `byte` (unsigned 8 bits). */
  type Byte = b: int | 0 <= b < 256

  function Pow2(k: nat): (r: nat)
    ensures r >= 1
  {
    if k == 0 then 1 else 2 * Pow2(k - 1)
  }

  lemma {:induction false} Pow2Add(j: nat, k: nat)
    ensures Pow2(j + k) == Pow2(j) * Pow2(k)
  {
    if k > 0 {
      Pow2Add(j, k - 1);
      var a, b := Pow2(j), Pow2(k - 1);
      assert Pow2(j + k) == 2 * Pow2(j + (k - 1));
      assert 2 * (a * b) == a * (2 * b);
    }
  }

  /** Splitting `2^k` at an exponent `i <= k`. */
  lemma Pow2Split(k: nat, i: nat)
    requires i <= k
    ensures Pow2(k) == Pow2(i) * Pow2(k - i)
  {
    Pow2Add(i, k - i);
    assert i + (k - i) == k;
  }

  /** `x << k` on a non-negative value that does not overflow. */
  function Shl(x: nat, k: nat): nat
  {
    x * Pow2(k)
  }

  /** Bitwise OR of two non-negative integers, bit by bit from the least
      significant end. */
  function BitOr(a: nat, b: nat): nat
    decreases a + b
  {
    if a == 0 && b == 0 then 0
    else 2 * BitOr(a / 2, b / 2) + (if a % 2 == 1 || b % 2 == 1 then 1 else 0)
  }

  lemma {:induction false} BitOrComm(a: nat, b: nat)
    ensures BitOr(a, b) == BitOr(b, a)
    decreases a + b
  {
    if a != 0 || b != 0 {
      BitOrComm(a / 2, b / 2);
    }
  }

  /** OR never exceeds the sum: the set bits of the result are those of the
      operands. */
  lemma {:induction false} BitOrBound(a: nat, b: nat)
    ensures BitOr(a, b) <= a + b
    decreases a + b
  {
    if a != 0 || b != 0 {
      BitOrBound(a / 2, b / 2);
    }
  }

  lemma {:induction false} BitOrZero(a: nat)
    ensures BitOr(a, 0) == a
  {
    if a != 0 {
      BitOrZero(a / 2);
    }
  }

  /** OR of a value shifted left by `k` with a value below `2^k` adds them: the
      two fields do not overlap. */
  lemma {:induction false} BitOrDisjoint(q: nat, k: nat, lo: nat)
    requires lo < Pow2(k)
    ensures BitOr(q * Pow2(k), lo) == q * Pow2(k) + lo
    ensures BitOr(lo, q * Pow2(k)) == q * Pow2(k) + lo
  {
    if k == 0 {
      BitOrZero(q);
    } else {
      assert lo / 2 < Pow2(k - 1);
      BitOrDisjoint(q, k - 1, lo / 2);
      Pow2Double(q, k);
      MulNonneg(q, Pow2(k));
      OrStep(q * Pow2(k), q * Pow2(k - 1), lo);
    }
    BitOrComm(lo, q * Pow2(k));
  }

  /** `BitOrDisjoint` for a shift written as a multiplication by `m == 2^k`. */
  lemma BitOrShifted(q: nat, k: nat, m: nat, lo: nat)
    requires m == Pow2(k) && lo < m
    ensures BitOr(q * m, lo) == q * m + lo
    ensures BitOr(lo, q * m) == q * m + lo
  {
    BitOrDisjoint(q, k, lo);
  }

  lemma MulNonneg(a: nat, b: nat)
    ensures a * b >= 0
  {
  }

  lemma Pow2Double(q: nat, k: nat)
    requires k > 0
    ensures q * Pow2(k) == 2 * (q * Pow2(k - 1))
  {
    assert Pow2(k) == 2 * Pow2(k - 1);
  }

  lemma OrStep(hi: nat, h: nat, lo: nat)
    requires hi == 2 * h && BitOr(h, lo / 2) == h + lo / 2
    ensures BitOr(hi, lo) == hi + lo
  {
    BitOrDouble(h, lo);
  }

  /** The low bit of an OR with an even number is the other operand's. */
  lemma BitOrDouble(h: nat, lo: nat)
    ensures BitOr(2 * h, lo) == 2 * BitOr(h, lo / 2) + lo % 2
  {
    if h != 0 || lo != 0 {
      assert (2 * h) / 2 == h && (2 * h) % 2 == 0;
    }
  }

  /** Multiplying by a positive factor preserves a strict lower bound. */
  lemma MulAtLeast(m: int, d: int)
    requires m >= 1 && d > 0
    ensures m * d >= d
  {
    assert m * d == (m - 1) * d + d;
    assert (m - 1) * d >= 0;
  }

  lemma MulLe(a: int, b: int, c: int)
    requires a <= b && c >= 0
    ensures a * c <= b * c
  {
    assert b * c - a * c == (b - a) * c;
  }

  /** Euclidean division is unique. */
  lemma DivModUnique(x: int, d: int, q: int, r: int)
    requires d > 0 && 0 <= r < d && x == q * d + r
    ensures x / d == q && x % d == r
  {
    var q0, r0 := x / d, x % d;
    assert x == q0 * d + r0 && 0 <= r0 < d;
    assert (q0 - q) * d == r - r0 by {
      assert (q0 - q) * d == q0 * d - q * d;
    }
    if q0 > q {
      MulAtLeast(q0 - q, d);
    } else if q0 < q {
      MulAtLeast(q - q0, d);
    }
  }

  /** Adding a multiple of the divisor shifts the quotient and keeps the
      remainder. */
  lemma DivAddMultiple(x: int, d: int, m: int)
    requires d > 0
    ensures (x + m * d) / d == x / d + m
    ensures (x + m * d) % d == x % d
  {
    assert x == (x / d) * d + x % d;
    assert (x / d + m) * d == (x / d) * d + m * d;
    DivModUnique(x + m * d, d, x / d + m, x % d);
  }

  /** Dividing by `a` then by `b` divides by `a * b`, and the remainder modulo
      `a * b` splits into the digit at weight `a` and the remainder modulo `a`. */
  lemma DivMulMod(x: int, a: int, b: int)
    requires a > 0 && b > 0
    ensures (x / a) / b == x / (a * b)
    ensures x % (a * b) == ((x / a) % b) * a + x % a
  {
    var q, r := x / a, x % a;
    var q1, r1 := q / b, q % b;
    assert x == q1 * (a * b) + (r1 * a + r) by {
      assert x == q * a + r;
      assert q * a == (q1 * b + r1) * a;
      assert (q1 * b + r1) * a == q1 * (a * b) + r1 * a;
    }
    assert 0 <= r1 * a + r < a * b by {
      MulLe(0, r1, a);
      MulLe(r1, b - 1, a);
      assert (b - 1) * a == a * b - a;
    }
    DivModUnique(x, a * b, q1, r1 * a + r);
  }

  /** The `n` low bytes of the signed integer `data`, most significant first:
      the byte at weight `2^(8i)` is `(data >> 8*i) & 0xFF`, the arithmetic
      shift being floor division and the mask the non-negative remainder. */
  function BytesMSB(data: int, n: nat): (r: seq<Byte>)
    ensures |r| == n
    decreases n
  {
    if n == 0 then [] else BytesMSB(data / 256, n - 1) + [data % 256]
  }

  lemma Pow2Byte()
    ensures Pow2(8) == 256
  {
    assert Pow2(4) == 16;
  }

  /** `2^(8(n+1)) == 256 * 2^(8n)`: one more byte of width. */
  lemma Pow2NextByte(n: nat)
    ensures Pow2(8 * (n + 1)) == Pow2(8 * n) * 256
  {
    Pow2Add(8 * n, 8);
    Pow2Byte();
  }

  /** Byte `i` from the low end of `BytesMSB(data, n)` is
      `(data >> 8*i) & 0xFF`. */
  lemma {:induction false} BytesMSBAt(data: int, n: nat, i: nat)
    requires i < n
    ensures BytesMSB(data, n)[n - 1 - i] == (data / Pow2(8 * i)) % 256
    decreases n
  {
    if i > 0 {
      BytesMSBAt(data / 256, n - 1, i - 1);
      assert BytesMSB(data, n)[n - 1 - i] == BytesMSB(data / 256, n - 1)[n - 2 - (i - 1)];
      DivByteThenPow(data, i - 1);
    }
  }

  lemma DivByteThenPow(x: int, j: nat)
    ensures (x / 256) / Pow2(8 * j) == x / Pow2(8 * (j + 1))
  {
    DivMulMod(x, 256, Pow2(8 * j));
    Pow2NextByte(j);
    assert 256 * Pow2(8 * j) == Pow2(8 * j) * 256;
  }

  /** The value of a byte string whose first byte is most significant. */
  function BigEndian(s: seq<Byte>): nat
  {
    if |s| == 0 then 0 else BigEndian(s[..|s| - 1]) * 256 + s[|s| - 1]
  }

  lemma {:induction false} BigEndianBound(s: seq<Byte>)
    ensures BigEndian(s) < Pow2(8 * |s|)
  {
    if |s| > 0 {
      var n := |s| - 1;
      BigEndianBound(s[..n]);
      Pow2NextByte(n);
      MulLe(BigEndian(s[..n]), Pow2(8 * n) - 1, 256);
    }
  }

  /** The first byte of a big-endian string carries weight `2^(8(|s|-1))`. */
  lemma {:induction false} BigEndianCons(s: seq<Byte>)
    requires |s| > 0
    ensures BigEndian(s) == s[0] * Pow2(8 * (|s| - 1)) + BigEndian(s[1..])
  {
    if |s| == 1 {
      assert s[..0] == [] && s[1..] == [];
    } else {
      BigEndianCons(s[..|s| - 1]);
      assert s[..|s| - 1][1..] == s[1..][..|s| - 2];
      ShiftWeight(s[0], |s| - 2, BigEndian(s[1..][..|s| - 2]), s[|s| - 1]);
    }
  }

  /** `(a * 2^(8n) + b) * 256 + c == a * 2^(8(n+1)) + (b * 256 + c)`. */
  lemma ShiftWeight(a: int, n: nat, b: int, c: int)
    ensures (a * Pow2(8 * n) + b) * 256 + c == a * Pow2(8 * (n + 1)) + (b * 256 + c)
  {
    Pow2NextByte(n);
    assert (a * Pow2(8 * n)) * 256 == a * (Pow2(8 * n) * 256);
  }

  /** Reassembling the bytes that are sent for `data` yields `data` reduced
      modulo `2^(8n)`. */
  lemma {:induction false} BytesRoundTrip(data: int, n: nat)
    ensures BigEndian(BytesMSB(data, n)) == data % Pow2(8 * n)
    decreases n
  {
    if n > 0 {
      var s := BytesMSB(data, n);
      assert s[..n - 1] == BytesMSB(data / 256, n - 1);
      BytesRoundTrip(data / 256, n - 1);
      Pow2NextByte(n - 1);
      DivMulMod(data, 256, Pow2(8 * (n - 1)));
    }
  }
}
