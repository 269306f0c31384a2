/**
  * The glyph bitmap of src/ass/bitmap.rs: `Bitmap::new`, which chooses a
  * row stride aligned for the rasterizer engine and allocates a zeroed
  * buffer of `stride * h + 32` bytes, and `Clone`, which allocates a fresh
  * bitmap of the same shape and copies the bytes.
  *
  * `new` panics on four conditions (an `assert!`, an arithmetic overflow
  * and a failed allocation). They are modelled as the `Err` cases of
  * `Layout`, the pure computation of the stride and size, so that which
  * inputs are rejected is part of what is stated.
  */
module Bitmap {
  import opened Ints
  import opened Wrappers
  import opened Utils

  /** The part of a `BitmapEngine` that `new` consults. */
  datatype BitmapEngine = BitmapEngine(alignOrder: I32, tileOrder: I32)

  /** Why `Bitmap::new` panics. */
  datatype NewError =
    | NotZeroed        // `assert!(zero, ...)`
    | StrideTooLarge   // the stride guard against `i32` overflow of the size
    | SizeOverflow     // `stride * (h as usize) + 32` overflows `usize`
    | AllocFailed      // the allocation layout exceeds `isize::MAX`

  /**
    * `1 << align_order` as a `usize`. A shift amount outside 0..63
    * overflows, so the engine must report one inside that range.
    */
  function Alignment(alignOrder: I32): (a: USize)
    requires 0 <= alignOrder < 64
    ensures a == Pow2(alignOrder) && 1 <= a <= I64_MAX + 1
  {
    Pow2Mono(alignOrder, 63);
    Pow2Usize();
    Pow2Split(1, 63);
    Pow2(alignOrder)
  }

  /** `align(1 << align_order, w as usize)`, the row stride. */
  function Stride(alignOrder: I32, w: I32): USize
    requires 0 <= alignOrder < 64
  {
    Align(Alignment(alignOrder), AsUsize(w))
  }

  /**
    * `(i32::MAX - 32) / h.max(1)`, the largest stride the guard lets
    * through. Both operands are positive, so the `i32` division is floor
    * division.
    */
  function StrideLimit(h: I32): (n: nat)
    ensures n <= I32_MAX - 32
  {
    QuotientBound(I32_MAX - 32, Max(h, 1));
    (I32_MAX - 32) / Max(h, 1)
  }

  /** The stride and buffer size `new` computes, or the reason it panics. */
  function Layout(alignOrder: I32, w: I32, h: I32, zero: bool): Result<(USize, USize), NewError>
    requires 0 <= alignOrder < 64
  {
    var stride := Stride(alignOrder, w);
    var hu := AsUsize(h);
    MulNonneg(stride, hu);
    var size: int := stride * hu + 32;
    if !zero then Err(NotZeroed)
    else if stride > StrideLimit(h) then Err(StrideTooLarge)
    else if size > USIZE_MAX then Err(SizeOverflow)
    // `Layout::from_size_align` refuses a size that, rounded up to the
    // alignment, exceeds `isize::MAX`; the largest multiple of the
    // alignment not above `isize::MAX` is `isize::MAX - (alignment - 1)`
    else if size > I64_MAX - (Alignment(alignOrder) - 1) then Err(AllocFailed)
    else Ok((stride, size))
  }

  /**
    * Whenever `new` returns: the stride is the least multiple of the
    * alignment that holds a row of `w` bytes, and the buffer is `h` such
    * rows plus 32 bytes of slack, no more than `i32::MAX` bytes in all. A
    * negative width is always rejected; a negative height only gets through
    * when the width is zero.
    */
  lemma LayoutOk(alignOrder: I32, w: I32, h: I32, zero: bool)
    requires 0 <= alignOrder < 64
    requires Layout(alignOrder, w, h, zero).Ok?
    ensures zero && 0 <= w
    ensures var (stride, size) := Layout(alignOrder, w, h, zero).value;
      stride % Pow2(alignOrder) == 0
      && w <= stride < w + Pow2(alignOrder)
      && size == stride * AsUsize(h) + 32
      && size <= I32_MAX
      && (h < 0 ==> stride == 0 && w == 0)
  {
    var a := Alignment(alignOrder);
    var stride := Stride(alignOrder, w);
    var hu := AsUsize(h);
    var size := stride * hu + 32;
    assert zero && stride <= StrideLimit(h) && size <= I64_MAX - (a - 1);
    assert Layout(alignOrder, w, h, zero).value == (stride, size);
    StrideOk(alignOrder, w);
    SizeOk(stride, h);
  }

  /** A stride the guard lets through is an aligned row of `w >= 0` bytes. */
  lemma StrideOk(alignOrder: I32, w: I32)
    requires 0 <= alignOrder < 64
    requires Stride(alignOrder, w) <= I32_MAX - 32
    ensures var stride := Stride(alignOrder, w);
      0 <= w && stride % Pow2(alignOrder) == 0 && w <= stride < w + Pow2(alignOrder)
  {
    var a := Alignment(alignOrder);
    AlignRoundsUp(alignOrder, AsUsize(w));
  }

  /** The size bound, from the stride guard and the overflow and allocation checks. */
  lemma SizeOk(stride: USize, h: I32)
    requires stride <= StrideLimit(h)
    requires stride * AsUsize(h) + 32 <= I64_MAX
    ensures stride * AsUsize(h) + 32 <= I32_MAX
    ensures h < 0 ==> stride == 0
  {
    var hu := AsUsize(h);
    if h >= 1 {
      assert stride * h <= I32_MAX - 32 by {
        LeQuotient(stride, I32_MAX - 32, h);
      }
    } else if h < 0 && stride >= 1 {
      MulAtLeast(hu, stride);
      assert false;
    }
  }

  /**
    * A bitmap: its placement, its shape, and the buffer of `stride * h + 32`
    * bytes. `left` and `top` are set to 0 by `new` and never changed by the
    * code modelled here.
    */
  class Bitmap {
    var left: I32
    var top: I32
    var w: I32
    var h: I32
    var stride: I64
    var buffer: array<U8>
    var engine: BitmapEngine

    /** The fields are those `new` computed for the engine, `w` and `h`. */
    predicate Valid()
      reads this
    {
      0 <= engine.alignOrder < 64
      && var layout := Layout(engine.alignOrder, w, h, true);
      layout.Ok? && stride == layout.value.0 && buffer.Length == layout.value.1
    }

    constructor Init(engine: BitmapEngine, w: I32, h: I32, stride: I64, buffer: array<U8>)
      ensures this.engine == engine && this.w == w && this.h == h
      ensures this.stride == stride && this.buffer == buffer
      ensures left == 0 && top == 0
    {
      this.left, this.top := 0, 0;
      this.w, this.h := w, h;
      this.stride := stride;
      this.buffer := buffer;
      this.engine := engine;
    }

    /** `Clone::clone`: a new bitmap of the same shape holding a copy of the bytes. */
    method Clone() returns (b: Bitmap)
      requires Valid()
      ensures fresh(b) && fresh(b.buffer)
      ensures b.Valid()
      ensures b.engine == engine && b.w == w && b.h == h && b.stride == stride
      ensures b.left == 0 && b.top == 0
      ensures b.buffer[..] == buffer[..]
    {
      var r := New(engine, w, h, true);
      b := r.value;
      // `copy_from_slice`, which panics unless the lengths agree; they do
      var i := 0;
      while i < buffer.Length
        modifies b.buffer
        invariant 0 <= i <= buffer.Length == b.buffer.Length
        invariant forall j :: 0 <= j < i ==> b.buffer[j] == buffer[j]
      {
        b.buffer[i] := buffer[i];
        i := i + 1;
      }
    }
  }

  /**
    * `Bitmap::new`: a bitmap at (0, 0) of `w` by `h` pixels with a zeroed
    * buffer, or the reason the source panics.
    */
  method New(engine: BitmapEngine, w: I32, h: I32, zero: bool) returns (r: Result<Bitmap, NewError>)
    requires 0 <= engine.alignOrder < 64
    ensures var layout := Layout(engine.alignOrder, w, h, zero);
      (r.Err? <==> layout.Err?)
      && (r.Err? ==> r.error == layout.error)
      && (r.Ok? ==>
        fresh(r.value) && fresh(r.value.buffer) && r.value.Valid()
        && r.value.engine == engine && r.value.w == w && r.value.h == h
        && r.value.left == 0 && r.value.top == 0
        && r.value.stride == layout.value.0
        && r.value.buffer.Length == layout.value.1
        && forall i :: 0 <= i < r.value.buffer.Length ==> r.value.buffer[i] == 0)
  {
    var layout := Layout(engine.alignOrder, w, h, zero);
    if layout.Err? {
      return Err(layout.error);
    }
    LayoutOk(engine.alignOrder, w, h, zero);
    var (stride, size) := layout.value;
    var buffer := new U8[size](_ => 0);
    var b := new Bitmap.Init(engine, w, h, stride, buffer);
    return Ok(b);
  }
}
