/**
  * `align` from src/ass/utils.rs: round a size up to a multiple of an
  * alignment, leaving it alone when the rounding would overflow `usize`.
  *
  * The mask `!(alignment - 1)` is a bitwise operation; it is modelled on
  * mathematical integers: `BitAnd` is bitwise AND on naturals and the
  * complement of `m` in 64 bits is `USIZE_MAX - m`.
  */
module Utils {
  import opened Ints

  /** Bitwise AND of two naturals, one binary digit at a time. */
  function BitAnd(x: nat, y: nat): nat
  {
    if x == 0 || y == 0 then 0
    else 2 * BitAnd(x / 2, y / 2) + (if x % 2 == 1 && y % 2 == 1 then 1 else 0)
  }

  /** `!m` on a `usize`. */
  function BitNot(m: USize): (r: USize)
    ensures r + m == USIZE_MAX
  {
    USIZE_MAX - m
  }

  /**
    * `align(alignment, s)`. An `alignment` of zero makes `alignment - 1`
    * underflow, which panics, so callers must pass a positive one.
    */
  function Align(alignment: USize, s: USize): (r: USize)
    requires alignment >= 1
    ensures s > USIZE_MAX - (alignment - 1) ==> r == s
  {
    if s > USIZE_MAX - (alignment - 1) then s
    else
      BitAndBound(s + (alignment - 1), BitNot(alignment - 1));
      BitAnd(s + (alignment - 1), BitNot(alignment - 1))
  }

  lemma {:induction false} BitAndBound(x: nat, y: nat)
    ensures BitAnd(x, y) <= y
  {
    if x != 0 && y != 0 {
      BitAndBound(x / 2, y / 2);
    }
  }

  /**
    * For an alignment that is a power of two (the only kind the bitmap
    * code passes), `align` returns the least multiple of the alignment
    * that is at least `s`, unless that would overflow, in which case it
    * returns `s` unchanged.
    */
  lemma AlignRoundsUp(k: nat, s: USize)
    requires k < 64
    ensures Pow2(k) <= USIZE_MAX
    ensures s <= USIZE_MAX - (Pow2(k) - 1) ==>
      var r := Align(Pow2(k), s);
      r % Pow2(k) == 0 && s <= r < s + Pow2(k)
    ensures s > USIZE_MAX - (Pow2(k) - 1) ==> Align(Pow2(k), s) == s
  {
    assert Pow2(k) <= USIZE_MAX by {
      Pow2Usize();
      Pow2Mono(k, 63);
      Pow2Split(1, 63);
    }
    var a := Pow2(k);
    if s <= USIZE_MAX - (a - 1) {
      var v := s + (a - 1);
      assert Align(a, s) == RoundDown(v, k) by {
        MaskIsHighBits(v, k);
      }
      RoundDownBounds(v, k);
      RoundDownMultiple(v, k);
    }
  }

  lemma MaskIsHighBits(v: nat, k: nat)
    requires k < 64 && v <= USIZE_MAX && Pow2(k) <= USIZE_MAX
    ensures BitAnd(v, BitNot(Pow2(k) - 1)) == RoundDown(v, k)
  {
    var n := 64;
    Pow2Usize();
    assert v < Pow2(n);
    assert BitNot(Pow2(k) - 1) == Pow2(n) - Pow2(k);
    BitAndHighMask(v, n, k);
  }

  /** Aligning twice is aligning once. */
  lemma AlignIdempotent(k: nat, s: USize)
    requires k < 64
    ensures Pow2(k) <= USIZE_MAX
    ensures Align(Pow2(k), Align(Pow2(k), s)) == Align(Pow2(k), s)
  {
    AlignRoundsUp(k, s);
    var a := Pow2(k);
    var r := Align(a, s);
    if s <= USIZE_MAX - (a - 1) {
      // `r` is a multiple of `a` no larger than 2^64 - 1, so it is at most
      // 2^64 - a and rounding it up again does not overflow.
      assert r <= USIZE_MAX - (a - 1) by {
        Pow2Usize();
        Pow2Split(k, 64 - k);
        MultipleBelow(r, a, Pow2(64 - k));
      }
      AlignRoundsUp(k, r);
      AlignOfMultiple(a, r);
    } else {
      AlignRoundsUp(k, r);
    }
  }

  /** A multiple of `a` below `a * n` is at most `a * n - a`. */
  lemma MultipleBelow(r: nat, a: nat, n: nat)
    requires a >= 1 && r % a == 0 && r < a * n
    ensures r <= a * n - a
  {
    var q := r / a;
    assert r == a * q;
    if q >= n {
      MulMono(a, a, n, q);
      assert false;
    }
    MulMono(a, a, q, n - 1);
    assert a * (n - 1) == a * n - a;
  }

  /** A multiple rounds up to itself. */
  lemma AlignOfMultiple(a: nat, r: nat)
    requires a >= 1 && r % a == 0
    ensures forall t :: t % a == 0 && r <= t < r + a ==> t == r
  {
    forall t | t % a == 0 && r <= t < r + a
      ensures t == r
    {
      var q, q' := r / a, t / a;
      assert r == a * q && t == a * q';
      MulCancel(a, q', q, t - r);
    }
  }

  /** `v` with its low `k` bits cleared. */
  function RoundDown(v: nat, k: nat): nat
  {
    if k == 0 then v else 2 * RoundDown(v / 2, k - 1)
  }

  /** `v` shifted right by `k` bits. */
  function ShrNat(v: nat, k: nat): nat
  {
    if k == 0 then v else ShrNat(v / 2, k - 1)
  }

  lemma {:induction false} RoundDownBounds(v: nat, k: nat)
    ensures RoundDown(v, k) <= v < RoundDown(v, k) + Pow2(k)
  {
    if k > 0 {
      RoundDownBounds(v / 2, k - 1);
    }
  }

  lemma {:induction false} RoundDownMultiple(v: nat, k: nat)
    ensures RoundDown(v, k) % Pow2(k) == 0
  {
    RoundDownIsProduct(v, k);
    DivModUnique(RoundDown(v, k), Pow2(k), ShrNat(v, k), 0);
  }

  lemma {:induction false} RoundDownIsProduct(v: nat, k: nat)
    ensures RoundDown(v, k) == Pow2(k) * ShrNat(v, k)
  {
    if k > 0 {
      RoundDownIsProduct(v / 2, k - 1);
      var t := ShrNat(v / 2, k - 1);
      assert ShrNat(v, k) == t;
      MulAssoc(2, Pow2(k - 1), t);
    }
  }

  lemma {:induction false} RoundDownSmall(v: nat, k: nat)
    requires v < Pow2(k)
    ensures RoundDown(v, k) == 0
  {
    if k > 0 {
      RoundDownSmall(v / 2, k - 1);
    }
  }

  lemma {:induction false} BitAndLowMask(v: nat, n: nat)
    requires v < Pow2(n)
    ensures BitAnd(v, Pow2(n) - 1) == v
  {
    if v != 0 && n > 0 {
      BitAndLowMask(v / 2, n - 1);
    }
  }

  /**
    * Masking with 2^n - 2^k (the bits k .. n-1 set) clears the low k bits
    * of a number below 2^n.
    */
  lemma {:induction false} BitAndHighMask(v: nat, n: nat, k: nat)
    requires k <= n && v < Pow2(n)
    ensures Pow2(k) <= Pow2(n)
    ensures BitAnd(v, Pow2(n) - Pow2(k)) == RoundDown(v, k)
  {
    Pow2Mono(k, n);
    if k == 0 {
      BitAndLowMask(v, n);
    } else if k == n {
      RoundDownSmall(v, k);
    } else {
      Pow2Mono(k, n - 1);
      var m := Pow2(n) - Pow2(k);
      assert m == 2 * (Pow2(n - 1) - Pow2(k - 1));
      BitAndHighMask(v / 2, n - 1, k - 1);
    }
  }
}
