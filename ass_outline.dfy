/**
  * Fixed-point geometry helpers of src/ass_outline.rs: the `Vector` value
  * type with its componentwise operators, the bounding box `Rect` (also
  * declared, field for field, in src/ass/outline.rs), and the path
  * `Segment` enum the drawing parser emits.
  *
  * Coordinates are `i32` in 1/64-pixel units. Rust panics on `i32`
  * overflow in debug builds, so each operator requires its results to fit.
  */
module AssOutline {
  import opened Ints
  import opened Wrappers

  /** `Vector`: a `Copy` struct, hence a value. */
  datatype Vector = Vector(x: I32, y: I32)

  /** The vector with both components equal to `s`. */
  function Splat(s: I32): Vector
  {
    Vector(s, s)
  }

  predicate SumFits(a: Vector, b: Vector)
  {
    InI32(a.x + b.x) && InI32(a.y + b.y)
  }

  predicate DiffFits(a: Vector, b: Vector)
  {
    InI32(a.x - b.x) && InI32(a.y - b.y)
  }

  /** `impl Add for Vector`. */
  function Add(a: Vector, b: Vector): Vector
    requires SumFits(a, b)
  {
    Vector(a.x + b.x, a.y + b.y)
  }

  /** `impl Add<i32> for Vector`. */
  function AddScalar(v: Vector, s: I32): Vector
    requires SumFits(v, Splat(s))
  {
    Vector(v.x + s, v.y + s)
  }

  /** `impl Sub for Vector`. */
  function Sub(a: Vector, b: Vector): Vector
    requires DiffFits(a, b)
  {
    Vector(a.x - b.x, a.y - b.y)
  }

  /** `impl Sub<i32> for Vector`. */
  function SubScalar(v: Vector, s: I32): Vector
    requires DiffFits(v, Splat(s))
  {
    Vector(v.x - s, v.y - s)
  }

  /**
    * `impl Shr<i32> for Vector`: an arithmetic shift of each component,
    * that is, division by 2^k rounded toward minus infinity. A shift
    * amount outside 0..31 is an overflow in Rust.
    */
  function Shr(v: Vector, k: I32): Vector
    requires 0 <= k < 32
  {
    Vector(ShiftRight(v.x, k), ShiftRight(v.y, k))
  }

  /** Each component of `v >> k` is the floor of its quotient by `2^k`. */
  lemma ShrFloor(v: Vector, k: I32)
    requires 0 <= k < 32
    ensures var r := Shr(v, k);
      Pow2(k) * r.x <= v.x < Pow2(k) * (r.x + 1)
      && Pow2(k) * r.y <= v.y < Pow2(k) * (r.y + 1)
  {
    ShiftRightFloor(v.x, k);
    ShiftRightFloor(v.y, k);
  }

  /**
    * `impl Div<i32> for Vector`: truncating division of each component.
    * Division by zero and `i32::MIN / -1` panic in Rust.
    */
  function Div(v: Vector, s: I32): (r: Vector)
    requires s != 0
    requires s == -1 ==> v.x != I32_MIN && v.y != I32_MIN
  {
    TruncDivI32(v.x, s);
    TruncDivI32(v.y, s);
    Vector(TruncDiv(v.x, s), TruncDiv(v.y, s))
  }

  /** `Vector::abs`; `i32::abs` of `i32::MIN` overflows. */
  function Abs(v: Vector): (r: Vector)
    requires v.x != I32_MIN && v.y != I32_MIN
    ensures 0 <= r.x && (r.x == v.x || r.x == -v.x)
    ensures 0 <= r.y && (r.y == v.y || r.y == -v.y)
  {
    Vector(Ints.Abs(v.x), Ints.Abs(v.y))
  }

  /** `Vector::checked_abs`: `None` exactly when a component is `i32::MIN`. */
  function CheckedAbs(v: Vector): (r: Option<Vector>)
    ensures r.None? <==> v.x == I32_MIN || v.y == I32_MIN
    ensures r.Some? ==> r.value == Abs(v)
  {
    if v.x == I32_MIN || v.y == I32_MIN then None else Some(Abs(v))
  }

  /** Subtracting what was added gives back the original, and vice versa. */
  lemma AddSubRoundTrip(a: Vector, b: Vector)
    ensures SumFits(a, b) ==> DiffFits(Add(a, b), b) && Sub(Add(a, b), b) == a
    ensures DiffFits(a, b) ==> SumFits(Sub(a, b), b) && Add(Sub(a, b), b) == a
  {
  }

  /** The scalar operators are the vector operators applied to `Splat(s)`. */
  lemma ScalarIsSplat(v: Vector, s: I32)
    ensures SumFits(v, Splat(s)) ==> AddScalar(v, s) == Add(v, Splat(s))
    ensures DiffFits(v, Splat(s)) ==> SubScalar(v, s) == Sub(v, Splat(s))
  {
  }

  /** Truncating division leaves a remainder of the dividend's sign, smaller than the divisor. */
  lemma DivTruncates(v: Vector, s: I32)
    requires s != 0
    requires s == -1 ==> v.x != I32_MIN && v.y != I32_MIN
    ensures Ints.Abs(v.x - s * Div(v, s).x) < Ints.Abs(s)
    ensures Ints.Abs(v.y - s * Div(v, s).y) < Ints.Abs(s)
    ensures v.x >= 0 ==> v.x - s * Div(v, s).x >= 0
    ensures v.x <= 0 ==> v.x - s * Div(v, s).x <= 0
    ensures v.y >= 0 ==> v.y - s * Div(v, s).y >= 0
    ensures v.y <= 0 ==> v.y - s * Div(v, s).y <= 0
  {
    TruncDivRemainder(v.x, s);
    TruncDivRemainder(v.y, s);
  }

  /** Two shifts are one shift by the sum of the amounts. */
  lemma ShrTwice(v: Vector, j: I32, k: I32)
    requires 0 <= j && 0 <= k && j + k < 32
    ensures Shr(Shr(v, j), k) == Shr(v, j + k)
  {
    ShiftRightTwice(v.x, j, k);
    ShiftRightTwice(v.y, j, k);
  }

  /**
    * A mutable `Vector` place, for the compound assignment operators,
    * which update `self` in place.
    */
  class VectorCell {
    var x: I32
    var y: I32

    function Value(): Vector
      reads this
    {
      Vector(x, y)
    }

    constructor (v: Vector)
      ensures Value() == v
    {
      x, y := v.x, v.y;
    }

    /** `impl AddAssign<i32> for Vector`. */
    method AddAssignScalar(s: I32)
      requires SumFits(Value(), Splat(s))
      modifies this
      ensures Value() == AddScalar(old(Value()), s)
    {
      x := x + s;
      y := y + s;
    }

    /** `impl AddAssign<Self> for Vector`. */
    method AddAssign(rhs: Vector)
      requires SumFits(Value(), rhs)
      modifies this
      ensures Value() == Add(old(Value()), rhs)
    {
      x := x + rhs.x;
      y := y + rhs.y;
    }

    /** `impl SubAssign<Self> for Vector`. */
    method SubAssign(rhs: Vector)
      requires DiffFits(Value(), rhs)
      modifies this
      ensures Value() == Sub(old(Value()), rhs)
    {
      x := x - rhs.x;
      y := y - rhs.y;
    }

    /** `impl ShrAssign<i32> for Vector`: `*self = *self >> rhs`. */
    method ShrAssign(k: I32)
      requires 0 <= k < 32
      modifies this
      ensures Value() == Shr(old(Value()), k)
    {
      var v := Shr(Value(), k);
      x, y := v.x, v.y;
    }
  }

  /**
    * `Rect`: a bounding box whose `reset` and `update` assign its fields
    * in place. `update` only ever widens it.
    */
  class Rect {
    var xMin: I32
    var yMin: I32
    var xMax: I32
    var yMax: I32

    /** `#[derive(Default)]`: all four bounds zero. */
    constructor ()
      ensures xMin == 0 && yMin == 0 && xMax == 0 && yMax == 0
    {
      xMin, yMin, xMax, yMax := 0, 0, 0, 0;
    }

    /** The four bounds as a value. */
    function Box(): Bounds
      reads this
    {
      Bounds(xMin, yMin, xMax, yMax)
    }

    predicate Contains(p: Vector)
      reads this
    {
      Box().Contains(p)
    }

    /** `reset`: the empty box, with the minima at `MAX` and the maxima at `MIN`. */
    method Reset()
      modifies this
      ensures xMin == I32_MAX && yMin == I32_MAX
      ensures xMax == I32_MIN && yMax == I32_MIN
      ensures forall p :: !Contains(p)
    {
      xMin, yMin := I32_MAX, I32_MAX;
      xMax, yMax := I32_MIN, I32_MIN;
    }

    /**
      * `update`: widen the box to cover `(x0, y0) .. (x1, y1)`. Nothing the
      * box contained before is lost.
      */
    method Update(x0: I32, y0: I32, x1: I32, y1: I32)
      modifies this
      ensures xMin == Min(old(xMin), x0) && yMin == Min(old(yMin), y0)
      ensures xMax == Max(old(xMax), x1) && yMax == Max(old(yMax), y1)
      ensures forall p :: old(Contains(p)) ==> Contains(p)
      ensures x0 <= x1 && y0 <= y1 ==> Contains(Vector(x0, y0)) && Contains(Vector(x1, y1))
    {
      xMin := Min(xMin, x0);
      yMin := Min(yMin, y0);
      xMax := Max(xMax, x1);
      yMax := Max(yMax, y1);
    }
  }

  /** The value of a `Rect`'s four bounds. */
  datatype Bounds = Bounds(xMin: int, yMin: int, xMax: int, yMax: int) {
    predicate Contains(p: Vector)
    {
      xMin <= p.x <= xMax && yMin <= p.y <= yMax
    }

    /** The bounds after `update(p.x, p.y, p.x, p.y)`. */
    function WidenTo(p: Vector): Bounds
    {
      Bounds(Min(xMin, p.x), Min(yMin, p.y), Max(xMax, p.x), Max(yMax, p.y))
    }
  }

  /** The bounds after `cbox.update(p, p)` for each point `p` of `pts` in order. */
  function WidenAll(b: Bounds, pts: seq<Vector>): Bounds
    decreases |pts|
  {
    if pts == [] then b else WidenAll(b, pts[..|pts| - 1]).WidenTo(pts[|pts| - 1])
  }

  /**
    * Widening over a list of points covers every one of them and keeps
    * everything the box covered before.
    */
  lemma {:induction false} WidenAllCovers(b: Bounds, pts: seq<Vector>)
    ensures forall i :: 0 <= i < |pts| ==> WidenAll(b, pts).Contains(pts[i])
    ensures forall p :: b.Contains(p) ==> WidenAll(b, pts).Contains(p)
    decreases |pts|
  {
    if pts != [] {
      var init := pts[..|pts| - 1];
      WidenAllCovers(b, init);
      assert forall i :: 0 <= i < |init| ==> init[i] == pts[i];
    }
  }

  /**
    * Widening is never more than needed: each bound is either the old one
    * or a coordinate of one of the points.
    */
  lemma {:induction false} WidenAllTight(b: Bounds, pts: seq<Vector>)
    ensures var w := WidenAll(b, pts);
      (w.xMin == b.xMin || exists i :: 0 <= i < |pts| && w.xMin == pts[i].x)
      && (w.yMin == b.yMin || exists i :: 0 <= i < |pts| && w.yMin == pts[i].y)
      && (w.xMax == b.xMax || exists i :: 0 <= i < |pts| && w.xMax == pts[i].x)
      && (w.yMax == b.yMax || exists i :: 0 <= i < |pts| && w.yMax == pts[i].y)
    decreases |pts|
  {
    if pts != [] {
      var init := pts[..|pts| - 1];
      WidenAllTight(b, init);
      assert forall i :: 0 <= i < |init| ==> init[i] == pts[i];
    }
  }

  /** `reset` followed by `update(p, p)` leaves exactly the point `p` in the box. */
  method ResetThenUpdate(r: Rect, p: Vector)
    modifies r
    ensures r.xMin == p.x && r.yMin == p.y && r.xMax == p.x && r.yMax == p.y
    ensures forall q :: r.Contains(q) <==> q == p
  {
    r.Reset();
    r.Update(p.x, p.y, p.x, p.y);
  }

  /** The path segments of src/ass_outline.rs, each carrying its control points. */
  datatype Segment =
    | LineSegment(p0: Vector, p1: Vector)
    | QuadSpline(p0: Vector, p1: Vector, p2: Vector)
    | CubicSpline(p0: Vector, p1: Vector, p2: Vector, p3: Vector)
}
