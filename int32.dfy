/** Fixed-width integers of the interpreter: the C `int32_t` operand type with
    its wrap-around written out, the unsigned byte of the code buffer, C's
    truncating division, the two shifts, the three bitwise operations, and the
    decoding of the byte immediates (sign-extended 8-bit, big-endian 16-bit). */
module Int32 {

  const TWO32: int := 0x1_0000_0000
  const INT_MIN: int := -0x8000_0000
  const INT_MAX: int := 0x7fff_ffff

  type i32 = x: int | -0x8000_0000 <= x <= 0x7fff_ffff
  type u32 = x: int | 0 <= x < 0x1_0000_0000
  type u16 = x: int | 0 <= x < 0x1_0000
  type u8 = x: int | 0 <= x < 0x100

  function Abs(x: int): (r: nat)
  {
    if x < 0 then -x else x
  }

  // ---------------------------------------------------------------------------
  // Two's complement

  /** The bit pattern of `x`, read as an unsigned number. */
  function ToUnsigned(x: i32): (u: u32)
    ensures (u - x) % TWO32 == 0
    ensures ToSigned(u) == x
  {
    if x < 0 then x + TWO32 else x
  }

  /** The signed number whose bit pattern is `u`. */
  function ToSigned(u: u32): (x: i32)
    ensures (u - x) % TWO32 == 0
  {
    if u <= INT_MAX then u else u - TWO32
  }

  /** Conversion of an arbitrary integer to `int32_t` by wrap-around modulo 2^32:
      the one 32-bit value congruent to `x`. */
  function Wrap(x: int): (r: i32)
    ensures (x - r) % TWO32 == 0
    ensures INT_MIN <= x <= INT_MAX ==> r == x
  {
    ToSigned(x % TWO32)
  }

  /** C's `x * y` on int32_t, keeping the low 32 bits of the product. */
  function Mul(x: i32, y: i32): (r: i32)
  {
    Wrap(x * y)
  }

  /** `Wrap` depends only on the residue modulo 2^32. */
  lemma WrapCongruent(x: int, y: int)
    requires (x - y) % TWO32 == 0
    ensures Wrap(x) == Wrap(y)
  {
    var k := (x - y) / TWO32;
    assert x == y + k * TWO32;
    assert x % TWO32 == y % TWO32 by {
      var qy := y / TWO32;
      assert y == qy * TWO32 + y % TWO32;
      assert x == (qy + k) * TWO32 + y % TWO32;
    }
  }

  /** Two 32-bit values congruent modulo 2^32 are equal. */
  lemma CongruentEqual(x: i32, y: i32)
    requires (x - y) % TWO32 == 0
    ensures x == y
  {
    var k := (x - y) / TWO32;
    assert x - y == k * TWO32;
  }

  // ---------------------------------------------------------------------------
  // Truncating division, as C's `/` and `%` on int32_t

  /** The quotient of `x / y` rounded toward zero. */
  function Quot(x: int, y: int): int
    requires y != 0
  {
    if (x < 0) == (y < 0) then Abs(x) / Abs(y) else -(Abs(x) / Abs(y))
  }

  /** The remainder of `x % y`, carrying the sign of the dividend. */
  function Rem(x: int, y: int): int
    requires y != 0
  {
    if x < 0 then -(Abs(x) % Abs(y)) else Abs(x) % Abs(y)
  }

  /** `Quot` and `Rem` are C's truncating division: quotient times divisor plus
      remainder gives back the dividend, the remainder is smaller than the
      divisor in magnitude and is zero or has the sign of the dividend, and the
      quotient never overshoots (it rounds toward zero). */
  lemma {:induction false} QuotRem(x: int, y: int)
    requires y != 0
    ensures Quot(x, y) * y + Rem(x, y) == x
    ensures Abs(Rem(x, y)) < Abs(y)
    ensures Rem(x, y) == 0 || (Rem(x, y) < 0 <==> x < 0)
    ensures Abs(Quot(x, y) * y) <= Abs(x)
  {
    var a: int, b: int := Abs(x), Abs(y);
    var q: int, r: int := a / b, a % b;
    NatDivMod(a, b);
    var m := q * b;
    SignedProduct(q, b);
    assert Rem(x, y) == (if x < 0 then -r else r);
    if (x < 0) == (y < 0) {
      assert Quot(x, y) == q;
      assert Quot(x, y) * y == (if y < 0 then -m else m);
    } else {
      assert Quot(x, y) == -q;
      assert Quot(x, y) * y == (if y < 0 then m else -m);
    }
  }

  /** Euclidean division of naturals: the quotient is a natural number whose
      product with the divisor does not exceed the dividend. */
  lemma NatDivMod(a: nat, b: nat)
    requires b >= 1
    ensures a == (a / b) * b + a % b && 0 <= a % b < b
    ensures a / b >= 0 && 0 <= (a / b) * b <= a
  {
    var q := a / b;
    assert q >= 0 by {
      if q < 0 { MulMonotone(b, q, -1); }
    }
    MulMonotone(q, 0, b);
  }

  lemma SignedProduct(q: int, b: int)
    ensures (-q) * b == -(q * b)
    ensures q * (-b) == -(q * b)
    ensures (-q) * (-b) == q * b
  {
  }

  /** Multiplying by a natural number is monotone. */
  lemma {:induction false} MulMonotone(x: nat, y: int, z: int)
    requires y <= z
    ensures x * y <= x * z
  {
    if x > 0 {
      MulMonotone(x - 1, y, z);
      assert x * y == (x - 1) * y + y;
      assert x * z == (x - 1) * z + z;
    }
  }

  /** Euclidean division is determined by quotient and remainder. */
  lemma DivUnique(x: int, d: int, q: int, s: int)
    requires d > 0 && x == q * d + s && 0 <= s < d
    ensures x / d == q
  {
    var q', s' := x / d, x % d;
    assert x == q' * d + s' && 0 <= s' < d;
    assert (q - q') * d == s' - s;
    if q - q' >= 1 {
      MulMonotone(d, 1, q - q');
    } else if q - q' <= -1 {
      MulMonotone(d, q - q', -1);
    }
  }

  lemma {:induction false} DivNotLarger(a: nat, b: nat)
    requires b >= 1
    ensures a / b <= a
    ensures b >= 2 ==> a / b <= a / 2
  {
    var q: int := a / b;
    assert a == q * b + a % b && 0 <= a % b;
    assert q >= 0 by {
      if q < 0 { MulMonotone(b, q, -1); }
    }
    MulMonotone(q, 1, b);
    if b >= 2 {
      MulMonotone(q, 2, b);
    }
  }

  /** Except for INT_MIN / -1, the quotient of two 32-bit values is a 32-bit
      value. */
  lemma QuotInRange(x: i32, y: i32)
    requires y != 0 && !(x == INT_MIN && y == -1)
    ensures INT_MIN <= Quot(x, y) <= INT_MAX
  {
    DivNotLarger(Abs(x), Abs(y));
  }

  /** INT_MIN / -1 is the one quotient of 32-bit values that does not fit. */
  lemma QuotOverflow()
    ensures Quot(INT_MIN, -1) == INT_MAX + 1
  {
  }

  /** The remainder of two 32-bit values is a 32-bit value. */
  lemma RemInRange(x: i32, y: i32)
    requires y != 0
    ensures INT_MIN <= Rem(x, y) <= INT_MAX
  {
    QuotRem(x, y);
  }

  // ---------------------------------------------------------------------------
  // Shifts

  function Pow2(n: nat): (p: nat)
    ensures p >= 1
  {
    if n == 0 then 1 else 2 * Pow2(n - 1)
  }

  lemma {:induction false} FloorDivInRange(x: i32, p: int)
    requires p >= 1
    ensures INT_MIN <= x / p <= INT_MAX
    ensures x >= 0 ==> 0 <= x / p <= x
    ensures x < 0 ==> x <= x / p < 0
  {
    var q := x / p;
    assert x == q * p + x % p && 0 <= x % p < p;
    if x >= 0 {
      assert q >= 0 by {
        if q < 0 { MulMonotone(p, q, -1); }
      }
      MulMonotone(q, 1, p);
    } else {
      assert q < 0 by {
        if q >= 0 { MulMonotone(p, 0, q); }
      }
      var nx: nat := -(x as int);
      MulMonotone(nx, 1, p);
      assert x <= q by {
        if q < x { MulMonotone(p, q, x - 1); }
      }
    }
  }

  /** C's `x << n` on int32_t, with the bits shifted out discarded. */
  function Shl(x: i32, n: nat): i32
    requires n < 32
  {
    Wrap(x * Pow2(n))
  }

  /** C's `x >> n` on int32_t: an arithmetic shift, rounding toward minus
      infinity. */
  function Shr(x: i32, n: nat): i32
    requires n < 32
  {
    FloorDivInRange(x, Pow2(n));
    x / Pow2(n)
  }

  /** Shifting left by one more bit doubles the previous shift, modulo 2^32. */
  lemma {:induction false} ShlSucc(x: i32, n: nat)
    requires n < 31
    ensures Shl(x, n + 1) == Wrap(2 * Shl(x, n))
  {
    var z := x * Pow2(n);
    assert x * Pow2(n + 1) == 2 * z;
    assert (z - Shl(x, n)) % TWO32 == 0;
    var k := (z - Shl(x, n)) / TWO32;
    assert z - Shl(x, n) == k * TWO32;
    assert 2 * z - 2 * Shl(x, n) == (2 * k) * TWO32;
    WrapCongruent(2 * z, 2 * Shl(x, n));
  }

  /** Shifting right by one more bit halves the previous shift, rounding down. */
  lemma {:induction false} ShrSucc(x: i32, n: nat)
    requires n < 31
    ensures Shr(x, n + 1) == Shr(x, n) / 2
  {
    var p := Pow2(n);
    var q, r := x / p, x % p;
    var q2, r2 := q / 2, q % 2;
    var m := if r2 == 1 then p else 0;
    HalveQuotient(q, p, q2, r2, m);
    assert x == q2 * (2 * p) + (m + r);
    assert Pow2(n + 1) == 2 * p;
    DivUnique(x, 2 * p, q2, m + r);
  }

  /** Splitting `q = 2 * q2 + r2` splits `q * p` accordingly. */
  lemma HalveQuotient(q: int, p: int, q2: int, r2: int, m: int)
    requires q == 2 * q2 + r2 && (r2 == 0 || r2 == 1) && m == (if r2 == 1 then p else 0)
    ensures q * p == q2 * (2 * p) + m
  {
    assert q * p == (2 * q2) * p + r2 * p;
  }

  /** An arithmetic right shift keeps the sign of its operand. */
  lemma ShrKeepsSign(x: i32, n: nat)
    requires n < 32
    ensures Shr(x, n) < 0 <==> x < 0
  {
    FloorDivInRange(x, Pow2(n));
  }

  // ---------------------------------------------------------------------------
  // Bitwise operations, on the two's-complement bit patterns

  /** The 32-bit pattern of `x`: `ToUnsigned(x)` in binary. */
  function ToBits(x: i32): bv32
  {
    ToUnsigned(x) as bv32
  }

  /** The number whose 32-bit pattern is `b`. */
  function FromBits(b: bv32): i32
  {
    ToSigned(b as int)
  }

  /** C's `x & y`, `x | y` and `x ^ y` on int32_t. */
  function And(x: i32, y: i32): i32
  {
    FromBits(ToBits(x) & ToBits(y))
  }

  function Or(x: i32, y: i32): i32
  {
    FromBits(ToBits(x) | ToBits(y))
  }

  function Xor(x: i32, y: i32): i32
  {
    FromBits(ToBits(x) ^ ToBits(y))
  }

  /** The bit pattern of a number below 2^32, built one bit at a time. */
  function BitsOf(n: nat): (b: bv32)
    requires n < TWO32
    ensures b as int == n
  {
    if n == 0 then 0
    else
      var h := BitsOf(n / 2);
      TopBitClear(h);
      ShiftIn(h);
      if n % 2 == 1 then (h << 1) | 1 else h << 1
  }

  /** The top bit of a pattern is clear exactly when its value is below 2^31. */
  lemma TopBitClear(h: bv32)
    ensures (h as int < 0x8000_0000) == (h < 0x8000_0000)
  {
    if h < 0x8000_0000 {
      ShiftIn(h);
      assert (h << 1) as int < TWO32;
    } else {
      TopBitSet(h);
    }
  }

  lemma TopBitSet(h: bv32)
    requires h >= 0x8000_0000
    ensures h as int >= 0x8000_0000
  {
  }

  lemma TopBitMask(h: bv32)
    ensures (h < 0x8000_0000) == (h & 0x8000_0000 == 0)
  {
  }

  lemma ShiftIn(h: bv32)
    requires h < 0x8000_0000
    ensures (h << 1) as int == 2 * (h as int)
    ensures ((h << 1) | 1) as int == 2 * (h as int) + 1
  {
  }

  /** Conversion to `bv32` is exact on numbers that fit. */
  lemma PatternExact(b: bv32, n: int)
    requires b as int == n
    ensures n as bv32 == b
  {
  }

  /** A number and its bit pattern determine each other, and the top bit of
      the pattern is the sign. */
  lemma BitsRoundTrip(x: i32, b: bv32)
    ensures FromBits(ToBits(x)) == x
    ensures ToBits(FromBits(b)) == b
    ensures x < 0 <==> ToBits(x) & 0x8000_0000 != 0
  {
    PatternValue(x);
    PatternOfNumber(b);
    SignBit(x);
  }

  /** The pattern of `x` is `ToUnsigned(x)` in binary. */
  lemma PatternValue(x: i32)
    ensures ToBits(x) as int == ToUnsigned(x)
  {
    PatternExact(BitsOf(ToUnsigned(x)), ToUnsigned(x));
  }

  lemma PatternOfNumber(b: bv32)
    ensures ToBits(FromBits(b)) == b
  {
    UnsignedRoundTrip(b as int);
    PatternExact(b, b as int);
  }

  lemma UnsignedRoundTrip(u: u32)
    ensures ToUnsigned(ToSigned(u)) == u
  {
  }

  lemma SignBit(x: i32)
    ensures x < 0 <==> ToBits(x) & 0x8000_0000 != 0
  {
    PatternValue(x);
    TopBitClear(ToBits(x));
    TopBitMask(ToBits(x));
  }

  /** The bitwise operations act bit by bit on the two's-complement patterns. */
  lemma BitwisePatterns(x: i32, y: i32)
    ensures ToBits(And(x, y)) == ToBits(x) & ToBits(y)
    ensures ToBits(Or(x, y)) == ToBits(x) | ToBits(y)
    ensures ToBits(Xor(x, y)) == ToBits(x) ^ ToBits(y)
  {
    PatternOfNumber(ToBits(x) & ToBits(y));
    PatternOfNumber(ToBits(x) | ToBits(y));
    PatternOfNumber(ToBits(x) ^ ToBits(y));
  }

  /** The sign of a bitwise result is the operation applied to the signs. */
  lemma BitwiseSigns(x: i32, y: i32)
    ensures And(x, y) < 0 <==> x < 0 && y < 0
    ensures Or(x, y) < 0 <==> x < 0 || y < 0
    ensures Xor(x, y) < 0 <==> (x < 0) != (y < 0)
  {
    BitwisePatterns(x, y);
    SignBit(x);
    SignBit(y);
    SignBit(And(x, y));
    SignBit(Or(x, y));
    SignBit(Xor(x, y));
  }

  /** All-ones (-1) is the unit of AND and zero the unit of OR. */
  lemma BitwiseUnits(x: i32)
    ensures And(x, -1) == x && Or(x, 0) == x
  {
    AndUnit(x);
    OrUnit(x);
  }

  lemma AndUnit(x: i32)
    ensures And(x, -1) == x
  {
    BitsRoundTrip(x, 0);
    assert ToBits(-1) == 0xFFFF_FFFF by {
      assert ToUnsigned(-1) == TWO32 - 1;
      PatternExact(0xFFFF_FFFF, TWO32 - 1);
    }
    AllOnes(ToBits(x));
  }

  lemma OrUnit(x: i32)
    ensures Or(x, 0) == x
  {
    BitsRoundTrip(x, 0);
    assert ToBits(0) == 0;
  }

  lemma AllOnes(a: bv32)
    ensures a & 0xFFFF_FFFF == a
  {
  }

  // ---------------------------------------------------------------------------
  // Immediates

  /** The conversion `(int32_t)(int8_t)b` of a code byte: bytes 0x80..0xFF
      stand for -128..-1. */
  function SignExtend8(b: u8): (r: i32)
    ensures -128 <= r < 128
    ensures (r - b) % 256 == 0
  {
    if b < 128 then b else b - 256
  }

  /** The conversion of an int to a signed `char`: the low byte, sign-extended.
      Values already in -128..127 are kept. */
  function ToChar(x: int): (r: i32)
    ensures -128 <= r < 128
    ensures (r - x) % 256 == 0
    ensures -128 <= x < 128 ==> r == x
  {
    SignExtend8(x % 256)
  }

  /** A big-endian unsigned 16-bit immediate, high byte first. */
  function U16(hi: u8, lo: u8): (r: u16)
    ensures r / 256 == hi && r % 256 == lo
  {
    hi * 256 + lo
  }

  /** A big-endian signed 16-bit immediate: the conversion to `int16_t` of the
      unsigned value. */
  function S16(hi: u8, lo: u8): (r: int)
    ensures -0x8000 <= r < 0x8000
    ensures (r - U16(hi, lo)) % 0x1_0000 == 0
  {
    var u := U16(hi, lo);
    if u < 0x8000 then u else u - 0x1_0000
  }

  /** The two bytes a compiler emits for a signed 16-bit offset. */
  function OffsetBytes(n: int): (bytes: (u8, u8))
    requires -0x8000 <= n < 0x8000
  {
    var u := if n < 0 then n + 0x1_0000 else n;
    (u / 256, u % 256)
  }

  /** Decoding a 16-bit branch offset undoes its encoding. */
  lemma OffsetRoundTrip(n: int)
    requires -0x8000 <= n < 0x8000
    ensures S16(OffsetBytes(n).0, OffsetBytes(n).1) == n
  {
  }

  /** Every pair of bytes is the encoding of the offset it decodes to. */
  lemma OffsetBytesOnto(hi: u8, lo: u8)
    ensures OffsetBytes(S16(hi, lo)) == (hi, lo)
  {
  }
}
