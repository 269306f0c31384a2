/**
  * Machine integers of the Rust code as ranges of mathematical integers,
  * and the Rust operators whose meaning differs from Dafny's own:
  * `/` and `%` on signed integers truncate toward zero, `>>` on a signed
  * integer is an arithmetic shift, `saturating_abs` clamps at `MAX`.
  */
module Ints {

  const I32_MIN: int := -0x8000_0000
  const I32_MAX: int := 0x7FFF_FFFF
  const I64_MIN: int := -0x8000_0000_0000_0000
  const I64_MAX: int := 0x7FFF_FFFF_FFFF_FFFF
  const USIZE_MAX: int := 0xFFFF_FFFF_FFFF_FFFF

  type I32 = x: int | I32_MIN <= x <= I32_MAX
  type I64 = x: int | I64_MIN <= x <= I64_MAX
  type USize = x: int | 0 <= x <= USIZE_MAX
  type U8 = x: int | 0 <= x < 0x100

  /** `x as usize` for an `i32`: sign extension to 64 bits, read unsigned. */
  function AsUsize(x: I32): (r: USize)
    ensures x >= 0 ==> r == x
    ensures x < 0 ==> r == x + USIZE_MAX + 1 && r > I64_MAX
  {
    if x >= 0 then x else x + USIZE_MAX + 1
  }

  predicate InI32(x: int) { I32_MIN <= x <= I32_MAX }
  predicate InI64(x: int) { I64_MIN <= x <= I64_MAX }

  function Min(a: int, b: int): int { if a <= b then a else b }
  function Max(a: int, b: int): int { if a >= b then a else b }
  function Abs(a: int): nat { if a < 0 then -a else a }

  function Pow2(k: nat): (r: nat)
    ensures r >= 1
  {
    if k == 0 then 1 else 2 * Pow2(k - 1)
  }

  lemma {:induction false} Pow2Mono(k: nat, n: nat)
    requires k <= n
    ensures Pow2(k) <= Pow2(n)
  {
    if k < n {
      Pow2Mono(k, n - 1);
    }
  }

  lemma {:induction false} Pow2Split(a: nat, b: nat)
    ensures Pow2(a + b) == Pow2(a) * Pow2(b)
  {
    if b > 0 {
      Pow2Split(a, b - 1);
      assert Pow2(a + b) == 2 * Pow2(a + b - 1);
    }
  }

  /** 2^32, by doubling the exponent. */
  lemma Pow2Of32()
    ensures Pow2(32) == 0x1_0000_0000
  {
    assert Pow2(2) == 4;
    assert Pow2(4) == 16 by { Pow2Split(2, 2); }
    assert Pow2(8) == 256 by { Pow2Split(4, 4); }
    assert Pow2(16) == 0x1_0000 by { Pow2Split(8, 8); }
    Pow2Split(16, 16);
  }

  /** 2^64 is one past the largest `usize`. */
  lemma Pow2Usize()
    ensures Pow2(64) == USIZE_MAX + 1
  {
    Pow2Of32();
    Pow2Split(32, 32);
  }

  /** Quotient and remainder are unique: the fact every division proof below rests on. */
  lemma DivModUnique(v: int, d: int, q: int, r: int)
    requires d > 0 && 0 <= r < d && v == d * q + r
    ensures v / d == q && v % d == r
  {
    var q', r' := v / d, v % d;
    assert d * q' + r' == d * q + r;
    MulCancel(d, q, q', r' - r);
  }

  /** `d*q` and `d*q'` closer than `d` apart means `q == q'`. */
  lemma MulCancel(d: int, q: int, q': int, gap: int)
    requires d > 0 && -d < gap < d && d * q == d * q' + gap
    ensures q == q' && gap == 0
  {
    var t := q - q';
    assert d * t == gap;
    if t >= 1 {
      MulAtLeast(d, t);
      assert false;
    } else if t <= -1 {
      MulAtLeast(d, -t);
      assert false;
    }
  }

  lemma MulAtLeast(d: int, t: int)
    requires d > 0 && t >= 1
    ensures d * t >= d
  {
    assert d * t == d * (t - 1) + d;
  }

  /**
    * Rust's `/` on signed integers: the quotient truncated toward zero.
    * Its sign is the sign of the exact quotient; `TruncDivMagnitude` gives
    * its magnitude and `TruncDivRemainder` characterises it by its
    * remainder.
    */
  function TruncDiv(a: int, b: int): (q: int)
    requires b != 0
    ensures q < 0 ==> (a < 0) != (b < 0)
    ensures q > 0 ==> (a < 0) == (b < 0)
  {
    QuotNonneg(Abs(a), Abs(b));
    var q0: int := Abs(a) / Abs(b);
    if (a < 0) == (b < 0) then q0 else -q0
  }

  /** The magnitude of a truncated quotient is the quotient of the magnitudes. */
  lemma TruncDivMagnitude(a: int, b: int)
    requires b != 0
    ensures Abs(TruncDiv(a, b)) == Abs(a) / Abs(b)
  {
    QuotNonneg(Abs(a), Abs(b));
  }

  /** Euclidean division of a natural by a positive number is natural. */
  lemma QuotNonneg(x: int, y: int)
    requires x >= 0 && y >= 1
    ensures x / y >= 0
  {
    var q := x / y;
    assert x == y * q + x % y;
    if q < 0 {
      MulAtLeast(y, -q);
      assert false;
    }
  }

  /**
    * Truncation toward zero: the remainder `a - b*q` is smaller than `b`
    * in magnitude and never has the opposite sign of `a`.
    */
  lemma TruncDivRemainder(a: int, b: int)
    requires b != 0
    ensures Abs(a - b * TruncDiv(a, b)) < Abs(b)
    ensures a >= 0 ==> 0 <= a - b * TruncDiv(a, b)
    ensures a <= 0 ==> a - b * TruncDiv(a, b) <= 0
  {
    QuotNonneg(Abs(a), Abs(b));
    var q0: int, rr: int := Abs(a) / Abs(b), Abs(a) % Abs(b);
    assert Abs(a) == Abs(b) * q0 + rr;
    if b > 0 {
      assert b * q0 == Abs(b) * q0;
      assert b * -q0 == -(Abs(b) * q0);
    } else {
      assert b * q0 == -(Abs(b) * q0);
      assert b * -q0 == Abs(b) * q0;
    }
  }

  /**
    * `i32 / i32` stays in range except for `i32::MIN / -1`, which Rust
    * reports as an overflow.
    */
  lemma TruncDivI32(a: I32, b: I32)
    requires b != 0 && !(a == I32_MIN && b == -1)
    ensures InI32(TruncDiv(a, b))
  {
    var x, y := Abs(a), Abs(b);
    var q0: int := x / y;
    var t := TruncDiv(a, b);
    assert t == q0 || t == -q0 by {
      QuotNonneg(x, y);
    }
    assert 0 <= q0 <= 0x8000_0000 by {
      QuotientBound(x, y);
    }
    assert q0 == 0x8000_0000 ==> t == -q0 by {
      QuotientBound(x, y);
      if q0 == 0x8000_0000 {
        assert y == 1 && a == I32_MIN && b == 1;
      }
    }
  }

  lemma QuotientBound(x: nat, y: nat)
    requires y >= 1
    ensures x / y <= x
    ensures y >= 2 ==> 2 * (x / y) <= x
    ensures y == 1 ==> x / y == x
  {
    QuotNonneg(x, y);
    var q := x / y;
    assert y * q <= x by {
      assert x == y * q + x % y;
    }
    ScaleAway(y, q);
    if y >= 2 {
      MulMono(2, y, q, q);
    }
  }

  /**
    * Rust's `>>` on a signed integer: an arithmetic shift, which rounds
    * toward minus infinity (`ShiftRightFloor`); it keeps the sign.
    */
  function ShiftRight(a: int, k: nat): (q: int)
    ensures 0 <= a ==> 0 <= q <= a
    ensures a < 0 ==> a <= q < 0
  {
    var d := Pow2(k);
    assert a == d * (a / d) + a % d;
    ShiftRightBetween(a, d, a / d);
    a / d
  }

  /** `a >> k` is the floor of `a / 2^k`. */
  lemma ShiftRightFloor(a: int, k: nat)
    ensures Pow2(k) * ShiftRight(a, k) <= a < Pow2(k) * (ShiftRight(a, k) + 1)
  {
    var d := Pow2(k);
    assert a == d * (a / d) + a % d;
  }

  /** Shifting by `j` and then by `k` is shifting by `j + k`. */
  lemma ShiftRightTwice(a: int, j: nat, k: nat)
    ensures ShiftRight(ShiftRight(a, j), k) == ShiftRight(a, j + k)
  {
    var d1, d2 := Pow2(j), Pow2(k);
    var q1 := ShiftRight(a, j);
    var q2 := ShiftRight(q1, k);
    var d: int := Pow2(j + k);
    assert d1 * d2 == d by { Pow2Split(j, k); }
    assert d * q2 <= a by {
      ShiftRightFloor(a, j);
      ShiftRightFloor(q1, k);
      MulLeftMono(d1, d2 * q2, q1);
      MulAssoc(d1, d2, q2);
    }
    assert a < d * (q2 + 1) by {
      ShiftRightFloor(a, j);
      ShiftRightFloor(q1, k);
      MulLeftMono(d1, q1 + 1, d2 * (q2 + 1));
      MulAssoc(d1, d2, q2 + 1);
    }
    FloorUnique(a, d, q2);
  }

  lemma MulNonneg(x: int, y: int)
    requires x >= 0 && y >= 0
    ensures x * y >= 0
  {
  }

  lemma MulAssoc(x: int, y: int, z: int)
    ensures x * (y * z) == (x * y) * z
  {
  }

  lemma MulLeftMono(d: int, x: int, y: int)
    requires d >= 0 && x <= y
    ensures d * x <= d * y
  {
    assert d * y - d * x == d * (y - x);
  }

  /** The sign of `a*t` for a nonzero `a`. */
  lemma ProductSign(a: int, t: int)
    requires a != 0
    ensures a > 0 ==> (a * t >= 0 <==> t >= 0) && (a * t <= 0 <==> t <= 0)
    ensures a < 0 ==> (a * t >= 0 <==> t <= 0) && (a * t <= 0 <==> t >= 0)
  {
    var m := Abs(a);
    assert a * t == m * t || a * t == -(m * t);
    if t > 0 {
      MulAtLeast(m, t);
    } else if t < 0 {
      MulAtLeast(m, -t);
      assert m * -t == -(m * t);
    }
  }

  /** For a positive divisor, `q <= m / d` exactly when `q * d <= m`. */
  lemma LeQuotient(q: int, m: int, d: int)
    requires d >= 1 && m >= 0
    ensures q <= m / d <==> q * d <= m
  {
    var f := m / d;
    assert d * f + m % d == m;
    if q <= f {
      MulLeftMono(d, q, f);
    } else {
      MulLeftMono(d, f + 1, q);
      assert d * (f + 1) == d * f + d;
    }
  }

  /** The floor quotient is the only `q` with `d*q <= a < d*(q+1)`. */
  lemma FloorUnique(a: int, d: int, q: int)
    requires d >= 1 && d * q <= a < d * (q + 1)
    ensures a / d == q
  {
    assert d * (q + 1) == d * q + d;
    DivModUnique(a, d, q, a - d * q);
  }

  /** A floor quotient lies between zero and the dividend. */
  lemma ShiftRightBetween(a: int, d: int, q: int)
    requires d >= 1 && d * q <= a < d * (q + 1)
    ensures 0 <= a ==> 0 <= q <= a
    ensures a < 0 ==> a <= q < 0
  {
    ScaleAway(d, q);
    ScaleAway(d, q + 1);
  }

  /** Multiplying by a positive `d` moves `t` away from zero. */
  lemma ScaleAway(d: int, t: int)
    requires d >= 1
    ensures t >= 0 ==> d * t >= t
    ensures t <= 0 ==> d * t <= t
  {
    assert d * t - t == (d - 1) * t;
    if t >= 0 {
      assert (d - 1) * t >= 0;
    } else {
      assert (d - 1) * -t >= 0;
    }
  }

  /** `i32::saturating_abs`: the magnitude, clamped at `i32::MAX` for `i32::MIN`. */
  function SaturatingAbs(a: I32): (r: I32)
    ensures 0 <= r
    ensures a != I32_MIN ==> r == Abs(a)
    ensures a == I32_MIN ==> r == I32_MAX
  {
    if a == I32_MIN then I32_MAX else Abs(a)
  }

  /** `(a as i64) * (b as i64)`: the product of two `i32` never leaves the `i64` range. */
  function I64Mul(a: I32, b: I32): (r: I64)
    ensures r == a * b
  {
    MulBound(a, b);
    a * b
  }

  lemma MulBound(a: I32, b: I32)
    ensures -0x4000_0000_0000_0000 <= a * b <= 0x4000_0000_0000_0000
  {
    var m := 0x8000_0000;
    MulMono(Abs(a), m, Abs(b), m);
    if (a < 0) == (b < 0) {
      assert a * b == Abs(a) * Abs(b);
    } else {
      assert a * b == -(Abs(a) * Abs(b));
    }
  }

  lemma MulMono(x: int, xMax: int, y: int, yMax: int)
    requires 0 <= x <= xMax && 0 <= y <= yMax
    ensures x * y <= xMax * yMax
  {
    assert (xMax - x) * y >= 0;
    assert xMax * (yMax - y) >= 0;
  }
}
