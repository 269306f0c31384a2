/**
  * The halfplane segment of src/ass/polyline.rs: the line `a*X + b*Y = c`
  * restricted to a bounding box in 1/64-pixel units, with six flag bits.
  * `Dn` and `UlDr` describe the line's direction; `ExactLeft`, `ExactRight`,
  * `ExactTop` and `ExactBottom` say that the segment touches that edge of
  * its box exactly, which lets the side tests answer from the box alone.
  *
  * `Segment` is a `Copy` struct. `move_x` and `move_y` update it in place
  * through `&mut self`; here they are functions returning the updated
  * value, so `s.move_x(x)` is `s := s.MoveX(x)`. `split_horz` and
  * `split_vert` take it by value and return the two halves.
  *
  * Rust panics on `i32` and `i64` overflow in debug builds, so each
  * operation requires its intermediate results to fit.
  */
module Polyline {
  import opened Ints

  /** `SegmentFlag`; a `BitFlags<SegmentFlag>` is a set of them. */
  datatype SegmentFlag = Dn | UlDr | ExactLeft | ExactRight | ExactTop | ExactBottom

  /**
    * The sign test of the `check_*` functions can be evaluated without
    * overflow: `c - p`, `c - p - q` fit in `i64`, and when the result is
    * negated it is not `i64::MIN`.
    */
  predicate SignTestFits(c: int, p: int, q: int, negate: bool)
  {
    InI64(c - p) && InI64(c - p - q) && (negate ==> c - p - q != I64_MIN)
  }

  datatype Segment = Segment(
    c: I64, a: I32, b: I32, scale: I32, flags: set<SegmentFlag>,
    xMin: I32, xMax: I32, yMin: I32, yMax: I32)
  {
    /** The plane equation `c - a*X - b*Y` at the point `(X, Y)`. */
    function Value(x: int, y: int): int
    {
      c - a * x - b * y
    }

    /** `cond_uldr`: pick the first argument for an up-left/down-right line. */
    function CondUlDr(first: I32, second: I32): (r: I32)
      ensures UlDr in flags ==> r == first
      ensures UlDr !in flags ==> r == second
    {
      if UlDr in flags then first else second
    }

    predicate MoveXFits(x: I32)
    {
      InI32(xMin - x) && InI32(xMax - x) && InI64(c - a * x)
    }

    /**
      * `move_x`: shift the origin right by `x`. The box moves left by `x`
      * and its left edge is clamped at 0; the plane is translated; when the
      * clamped left edge is 0 on an exact-left up-left/down-right line,
      * `ExactTop` is dropped.
      */
    function MoveX(x: I32): (r: Segment)
      requires MoveXFits(x)
      ensures r.xMin == Max(xMin - x, 0) && r.xMax == xMax - x
      ensures r.c == c - a * x
      ensures r.a == a && r.b == b && r.scale == scale && r.yMin == yMin && r.yMax == yMax
      ensures r.xMin == 0 && {ExactLeft, UlDr} <= flags ==> r.flags == flags - {ExactTop}
      ensures !(r.xMin == 0 && {ExactLeft, UlDr} <= flags) ==> r.flags == flags
    {
      var xMin' := Max(xMin - x, 0);
      var c' := c - I64Mul(a, x);
      var flags' := if xMin' == 0 && {ExactLeft, UlDr} <= flags then flags - {ExactTop} else flags;
      this.(xMin := xMin', xMax := xMax - x, c := c', flags := flags')
    }

    predicate MoveYFits(y: I32)
    {
      InI32(yMin - y) && InI32(yMax - y) && InI64(c - b * y)
    }

    /** `move_y`: the vertical counterpart of `move_x`, dropping `ExactLeft`. */
    function MoveY(y: I32): (r: Segment)
      requires MoveYFits(y)
      ensures r.yMin == Max(yMin - y, 0) && r.yMax == yMax - y
      ensures r.c == c - b * y
      ensures r.a == a && r.b == b && r.scale == scale && r.xMin == xMin && r.xMax == xMax
      ensures r.yMin == 0 && {ExactTop, UlDr} <= flags ==> r.flags == flags - {ExactLeft}
      ensures !(r.yMin == 0 && {ExactTop, UlDr} <= flags) ==> r.flags == flags
    {
      var yMin' := Max(yMin - y, 0);
      var c' := c - I64Mul(b, y);
      var flags' := if yMin' == 0 && {ExactTop, UlDr} <= flags then flags - {ExactLeft} else flags;
      this.(yMin := yMin', yMax := yMax - y, c := c', flags := flags')
    }

    predicate SplitHorzOk(x: I32)
    {
      xMin < x < xMax && InI32(xMax - x) && InI64(c - a * x)
    }

    /**
      * `split_horz`: cut the segment at the vertical line `X = x`. The first
      * half keeps the plane and ends at `x`; the second starts at 0 in
      * coordinates shifted by `x`. The source panics unless
      * `x_min < x < x_max`.
      */
    function SplitHorz(x: I32): (halves: (Segment, Segment))
      requires SplitHorzOk(x)
      ensures var first, next := halves.0, halves.1;
        first == this.(xMax := x, flags := first.flags)
        && next == this.(c := c - a * x, xMin := 0, xMax := xMax - x, flags := next.flags)
      ensures var first, next := halves.0, halves.1;
        UlDr !in flags ==>
          first.flags == flags - {ExactTop} + {ExactRight}
          && next.flags == flags - {ExactBottom} + {ExactLeft}
      ensures var first, next := halves.0, halves.1;
        UlDr in flags ==>
          first.flags == flags - {ExactBottom} + {ExactRight}
          && next.flags == flags - {ExactTop} + {ExactLeft}
    {
      // The first half drops `ExactTop`, the second `ExactBottom`; for an
      // up-left/down-right line the two flag sets are then swapped.
      var firstFlags := if UlDr in flags then flags - {ExactBottom} else flags - {ExactTop};
      var nextFlags := if UlDr in flags then flags - {ExactTop} else flags - {ExactBottom};
      (this.(xMax := x, flags := firstFlags + {ExactRight}),
       this.(c := c - I64Mul(a, x), xMin := 0, xMax := xMax - x, flags := nextFlags + {ExactLeft}))
    }

    predicate SplitVertOk(y: I32)
    {
      yMin < y < yMax && InI32(yMax - y) && InI64(c - a * y)
    }

    /**
      * `split_vert` as written: cut at the horizontal line `Y = y`. The
      * second half's plane constant is reduced by `a*y`, where the
      * translation by `y` calls for `b*y` (see `SplitVertMisplacesPlane`).
      */
    function SplitVert(y: I32): (halves: (Segment, Segment))
      requires SplitVertOk(y)
      ensures var first, next := halves.0, halves.1;
        first == this.(yMax := y, flags := first.flags)
        && next == this.(c := c - a * y, yMin := 0, yMax := yMax - y, flags := next.flags)
      ensures var first, next := halves.0, halves.1;
        UlDr !in flags ==>
          first.flags == flags - {ExactLeft} + {ExactBottom}
          && next.flags == flags - {ExactRight} + {ExactTop}
      ensures var first, next := halves.0, halves.1;
        UlDr in flags ==>
          first.flags == flags - {ExactRight} + {ExactBottom}
          && next.flags == flags - {ExactLeft} + {ExactTop}
    {
      var next := this.(c := c - I64Mul(a, y), yMin := 0, yMax := yMax - y);
      SplitVertFlags(next, y)
    }

    predicate SplitVertCorrectedOk(y: I32)
    {
      yMin < y < yMax && InI32(yMax - y) && InI64(c - b * y)
    }

    /** `split_vert` with the plane translated by `b*y`, as the cut requires. */
    function SplitVertCorrected(y: I32): (halves: (Segment, Segment))
      requires SplitVertCorrectedOk(y)
      ensures var first, next := halves.0, halves.1;
        first == this.(yMax := y, flags := first.flags)
        && next == this.(c := c - b * y, yMin := 0, yMax := yMax - y, flags := next.flags)
      ensures var first, next := halves.0, halves.1;
        UlDr !in flags ==>
          first.flags == flags - {ExactLeft} + {ExactBottom}
          && next.flags == flags - {ExactRight} + {ExactTop}
      ensures var first, next := halves.0, halves.1;
        UlDr in flags ==>
          first.flags == flags - {ExactRight} + {ExactBottom}
          && next.flags == flags - {ExactLeft} + {ExactTop}
    {
      var next := this.(c := c - I64Mul(b, y), yMin := 0, yMax := yMax - y);
      SplitVertFlags(next, y)
    }

    /** The flag bookkeeping shared by both versions of `split_vert`. */
    function SplitVertFlags(next: Segment, y: I32): (Segment, Segment)
    {
      // The first half drops `ExactLeft`, the second `ExactRight`; for an
      // up-left/down-right line the two flag sets are then swapped.
      var firstFlags := if UlDr in flags then flags - {ExactRight} else flags - {ExactLeft};
      var nextFlags := if UlDr in flags then flags - {ExactLeft} else flags - {ExactRight};
      (this.(yMax := y, flags := firstFlags + {ExactBottom}), next.(flags := nextFlags + {ExactTop}))
    }

    predicate CheckLeftFits(x: I32)
    {
      ExactLeft !in flags ==> SignTestFits(c, a * x, b * CondUlDr(yMin, yMax), a < 0)
    }

    /**
      * `check_left`: whether the segment lies right of `X = x`. With
      * `ExactLeft` the box answers; otherwise the sign of the plane at `x`
      * and the box corner the line passes at its left end, with the sign
      * oriented by `a`.
      */
    function CheckLeft(x: I32): (r: bool)
      requires CheckLeftFits(x)
      ensures ExactLeft in flags ==> (r <==> xMin >= x)
      ensures ExactLeft !in flags ==>
        (r <==> (if a < 0 then -Value(x, CondUlDr(yMin, yMax)) else Value(x, CondUlDr(yMin, yMax))) >= 0)
    {
      if ExactLeft in flags then xMin >= x
      else
        var y := CondUlDr(yMin, yMax);
        var cc := c - I64Mul(a, x) - I64Mul(b, y);
        var cc := if a < 0 then -cc else cc;
        cc >= 0
    }

    predicate CheckRightFits(x: I32)
    {
      ExactRight !in flags ==> SignTestFits(c, a * x, b * CondUlDr(yMax, yMin), a > 0)
    }

    /** `check_right`: whether the segment lies left of `X = x`. */
    function CheckRight(x: I32): (r: bool)
      requires CheckRightFits(x)
      ensures ExactRight in flags ==> (r <==> xMax <= x)
      ensures ExactRight !in flags ==>
        (r <==> (if a > 0 then -Value(x, CondUlDr(yMax, yMin)) else Value(x, CondUlDr(yMax, yMin))) >= 0)
    {
      if ExactRight in flags then xMax <= x
      else
        var y := CondUlDr(yMax, yMin);
        var cc := c - I64Mul(a, x) - I64Mul(b, y);
        var cc := if a > 0 then -cc else cc;
        cc >= 0
    }

    predicate CheckTopFits(y: I32)
    {
      ExactTop !in flags ==> SignTestFits(c, b * y, a * CondUlDr(xMin, xMax), b < 0)
    }

    /** `check_top`: whether the segment lies below `Y = y`. */
    function CheckTop(y: I32): (r: bool)
      requires CheckTopFits(y)
      ensures ExactTop in flags ==> (r <==> yMin >= y)
      ensures ExactTop !in flags ==>
        (r <==> (if b < 0 then -Value(CondUlDr(xMin, xMax), y) else Value(CondUlDr(xMin, xMax), y)) >= 0)
    {
      if ExactTop in flags then yMin >= y
      else
        var x := CondUlDr(xMin, xMax);
        var cc := c - I64Mul(b, y) - I64Mul(a, x);
        var cc := if b < 0 then -cc else cc;
        cc >= 0
    }

    predicate CheckBottomFits(y: I32)
    {
      ExactBottom !in flags ==> SignTestFits(c, b * y, a * CondUlDr(xMax, xMin), b > 0)
    }

    /** `check_bottom`: whether the segment lies above `Y = y`. */
    function CheckBottom(y: I32): (r: bool)
      requires CheckBottomFits(y)
      ensures ExactBottom in flags ==> (r <==> yMax <= y)
      ensures ExactBottom !in flags ==>
        (r <==> (if b > 0 then -Value(CondUlDr(xMax, xMin), y) else Value(CondUlDr(xMax, xMin), y)) >= 0)
    {
      if ExactBottom in flags then yMax <= y
      else
        var x := CondUlDr(xMax, xMin);
        var cc := c - I64Mul(b, y) - I64Mul(a, x);
        var cc := if b > 0 then -cc else cc;
        cc >= 0
    }
  }
}

/** Properties of the halfplane segment operations. */
module PolylineFacts {
  import opened Ints
  import opened Polyline

  /** `move_x` translates the plane: the moved segment at `X - x` is the original at `X`. */
  lemma MoveXTranslates(s: Segment, x: I32, px: int, py: int)
    requires s.MoveXFits(x)
    ensures s.MoveX(x).Value(px - x, py) == s.Value(px, py)
  {
    assert s.a * (px - x) == s.a * px - s.a * x;
  }

  /** `move_y` translates the plane in the vertical direction. */
  lemma MoveYTranslates(s: Segment, y: I32, px: int, py: int)
    requires s.MoveYFits(y)
    ensures s.MoveY(y).Value(px, py - y) == s.Value(px, py)
  {
    assert s.b * (py - y) == s.b * py - s.b * y;
  }

  /** `move_x` never touches the direction bits and drops at most `ExactTop`. */
  lemma MoveXFlags(s: Segment, x: I32)
    requires s.MoveXFits(x)
    ensures (Dn in s.MoveX(x).flags <==> Dn in s.flags) && (UlDr in s.MoveX(x).flags <==> UlDr in s.flags)
    ensures s.MoveX(x).flags <= s.flags && s.flags - s.MoveX(x).flags <= {ExactTop}
  {
  }

  /**
    * The horizontal side tests give the same answers after `move_x` at
    * the shifted abscissa; for `check_left` with an exact left edge this
    * needs the edge not to have been clamped.
    */
  lemma MoveXKeepsChecks(s: Segment, x: I32, px: I32)
    requires s.MoveXFits(x) && InI32(px - x)
    ensures s.CheckRightFits(px) ==>
      s.MoveX(x).CheckRightFits(px - x) && s.MoveX(x).CheckRight(px - x) == s.CheckRight(px)
    ensures s.CheckLeftFits(px) && (ExactLeft !in s.flags || s.xMin >= x) ==>
      s.MoveX(x).CheckLeftFits(px - x) && s.MoveX(x).CheckLeft(px - x) == s.CheckLeft(px)
  {
    var m := s.MoveX(x);
    assert s.a * (px - x) == s.a * px - s.a * x;
    assert m.CondUlDr(s.yMax, s.yMin) == s.CondUlDr(s.yMax, s.yMin);
    assert m.CondUlDr(s.yMin, s.yMax) == s.CondUlDr(s.yMin, s.yMax);
  }

  /** The vertical side tests give the same answers after `move_y`. */
  lemma MoveYKeepsChecks(s: Segment, y: I32, py: I32)
    requires s.MoveYFits(y) && InI32(py - y)
    ensures s.CheckBottomFits(py) ==>
      s.MoveY(y).CheckBottomFits(py - y) && s.MoveY(y).CheckBottom(py - y) == s.CheckBottom(py)
    ensures s.CheckTopFits(py) && (ExactTop !in s.flags || s.yMin >= y) ==>
      s.MoveY(y).CheckTopFits(py - y) && s.MoveY(y).CheckTop(py - y) == s.CheckTop(py)
  {
    var m := s.MoveY(y);
    assert s.b * (py - y) == s.b * py - s.b * y;
    assert m.CondUlDr(s.xMax, s.xMin) == s.CondUlDr(s.xMax, s.xMin);
    assert m.CondUlDr(s.xMin, s.xMax) == s.CondUlDr(s.xMin, s.xMax);
  }

  /** Lying right of `X = x2` implies lying right of any `X = x1` further left. */
  lemma CheckLeftMonotone(s: Segment, x1: I32, x2: I32)
    requires x1 <= x2 && s.CheckLeftFits(x1) && s.CheckLeftFits(x2)
    ensures s.CheckLeft(x2) ==> s.CheckLeft(x1)
  {
    if s.a >= 0 {
      MulLeftMono(s.a, x1, x2);
    } else {
      var m: int := -(s.a as int);
      MulLeftMono(m, x1, x2);
      assert m * x1 == -(s.a * x1) && m * x2 == -(s.a * x2);
    }
  }

  /** Lying left of `X = x1` implies lying left of any `X = x2` further right. */
  lemma CheckRightMonotone(s: Segment, x1: I32, x2: I32)
    requires x1 <= x2 && s.CheckRightFits(x1) && s.CheckRightFits(x2)
    ensures s.CheckRight(x1) ==> s.CheckRight(x2)
  {
    if s.a >= 0 {
      MulLeftMono(s.a, x1, x2);
    } else {
      var m: int := -(s.a as int);
      MulLeftMono(m, x1, x2);
      assert m * x1 == -(s.a * x1) && m * x2 == -(s.a * x2);
    }
  }

  /** Lying below `Y = y2` implies lying below any `Y = y1` further up. */
  lemma CheckTopMonotone(s: Segment, y1: I32, y2: I32)
    requires y1 <= y2 && s.CheckTopFits(y1) && s.CheckTopFits(y2)
    ensures s.CheckTop(y2) ==> s.CheckTop(y1)
  {
    if s.b >= 0 {
      MulLeftMono(s.b, y1, y2);
    } else {
      var m: int := -(s.b as int);
      MulLeftMono(m, y1, y2);
      assert m * y1 == -(s.b * y1) && m * y2 == -(s.b * y2);
    }
  }

  /** Lying above `Y = y1` implies lying above any `Y = y2` further down. */
  lemma CheckBottomMonotone(s: Segment, y1: I32, y2: I32)
    requires y1 <= y2 && s.CheckBottomFits(y1) && s.CheckBottomFits(y2)
    ensures s.CheckBottom(y1) ==> s.CheckBottom(y2)
  {
    if s.b >= 0 {
      MulLeftMono(s.b, y1, y2);
    } else {
      var m: int := -(s.b as int);
      MulLeftMono(m, y1, y2);
      assert m * y1 == -(s.b * y1) && m * y2 == -(s.b * y2);
    }
  }

  /**
    * The `ExactLeft` shortcut is sound: when the line passes through the
    * box corner the sign test uses at its left end, the sign test answers
    * exactly `x_min >= x`.
    */
  lemma CheckLeftAtCorner(s: Segment, x: I32)
    requires ExactLeft !in s.flags && s.a != 0 && s.CheckLeftFits(x)
    requires s.c == s.a * s.xMin + s.b * s.CondUlDr(s.yMin, s.yMax)
    ensures s.CheckLeft(x) <==> s.xMin >= x
  {
    assert s.Value(x, s.CondUlDr(s.yMin, s.yMax)) == s.a * (s.xMin - x);
    ProductSign(s.a, s.xMin - x);
  }

  /** The `ExactRight` shortcut is sound in the same sense. */
  lemma CheckRightAtCorner(s: Segment, x: I32)
    requires ExactRight !in s.flags && s.a != 0 && s.CheckRightFits(x)
    requires s.c == s.a * s.xMax + s.b * s.CondUlDr(s.yMax, s.yMin)
    ensures s.CheckRight(x) <==> s.xMax <= x
  {
    assert s.Value(x, s.CondUlDr(s.yMax, s.yMin)) == s.a * (s.xMax - x);
    ProductSign(s.a, s.xMax - x);
  }

  /** The `ExactTop` shortcut is sound in the same sense. */
  lemma CheckTopAtCorner(s: Segment, y: I32)
    requires ExactTop !in s.flags && s.b != 0 && s.CheckTopFits(y)
    requires s.c == s.b * s.yMin + s.a * s.CondUlDr(s.xMin, s.xMax)
    ensures s.CheckTop(y) <==> s.yMin >= y
  {
    assert s.Value(s.CondUlDr(s.xMin, s.xMax), y) == s.b * (s.yMin - y);
    ProductSign(s.b, s.yMin - y);
  }

  /** The `ExactBottom` shortcut is sound in the same sense. */
  lemma CheckBottomAtCorner(s: Segment, y: I32)
    requires ExactBottom !in s.flags && s.b != 0 && s.CheckBottomFits(y)
    requires s.c == s.b * s.yMax + s.a * s.CondUlDr(s.xMax, s.xMin)
    ensures s.CheckBottom(y) <==> s.yMax <= y
  {
    assert s.Value(s.CondUlDr(s.xMax, s.xMin), y) == s.b * (s.yMax - y);
    ProductSign(s.b, s.yMax - y);
  }

  /**
    * The halves of `split_horz`: the first keeps the plane and the second
    * is the plane translated by `x`; both keep the direction bits. The
    * exact edges the split inserts make the first half answer `check_right`
    * at the cut, and the second `check_left` at its new origin, without
    * the sign test.
    */
  lemma SplitHorzHalves(s: Segment, x: I32, px: int, py: int)
    requires s.SplitHorzOk(x)
    ensures var (first, next) := s.SplitHorz(x);
      first.CheckRightFits(x) && first.CheckRight(x) && next.CheckLeftFits(0) && next.CheckLeft(0)
    ensures var (first, next) := s.SplitHorz(x);
      (Dn in first.flags <==> Dn in s.flags) && (Dn in next.flags <==> Dn in s.flags)
      && (UlDr in first.flags <==> UlDr in s.flags) && (UlDr in next.flags <==> UlDr in s.flags)
    ensures var (first, next) := s.SplitHorz(x);
      first.Value(px, py) == s.Value(px, py) && next.Value(px - x, py) == s.Value(px, py)
  {
    assert s.a * (px - x) == s.a * px - s.a * x;
  }

  /** The second half of `split_horz` is `move_x` by `x`, up to the flags. */
  lemma SplitHorzNextIsMoveX(s: Segment, x: I32)
    requires s.SplitHorzOk(x) && s.MoveXFits(x)
    ensures s.SplitHorz(x).1 == s.MoveX(x).(flags := s.SplitHorz(x).1.flags)
  {
  }

  /**
    * The halves of the corrected `split_vert`: the first keeps the plane
    * and the second is the plane translated by `y`; both keep the
    * direction bits. The inserted exact edges make the first half answer
    * `check_bottom` at the cut, and the second `check_top` at its new
    * origin, without the sign test.
    */
  lemma SplitVertCorrectedHalves(s: Segment, y: I32, px: int, py: int)
    requires s.SplitVertCorrectedOk(y)
    ensures var (first, next) := s.SplitVertCorrected(y);
      first.CheckBottomFits(y) && first.CheckBottom(y) && next.CheckTopFits(0) && next.CheckTop(0)
    ensures var (first, next) := s.SplitVertCorrected(y);
      (Dn in first.flags <==> Dn in s.flags) && (Dn in next.flags <==> Dn in s.flags)
      && (UlDr in first.flags <==> UlDr in s.flags) && (UlDr in next.flags <==> UlDr in s.flags)
    ensures var (first, next) := s.SplitVertCorrected(y);
      first.Value(px, py) == s.Value(px, py) && next.Value(px, py - y) == s.Value(px, py)
  {
    assert s.b * (py - y) == s.b * py - s.b * y;
  }

  /** The second half of the corrected `split_vert` is `move_y` by `y`, up to the flags. */
  lemma SplitVertCorrectedNextIsMoveY(s: Segment, y: I32)
    requires s.SplitVertCorrectedOk(y) && s.MoveYFits(y)
    ensures s.SplitVertCorrected(y).1 == s.MoveY(y).(flags := s.SplitVertCorrected(y).1.flags)
  {
  }

  /**
    * `split_vert` as written moves the second half's plane by `(b - a)*y`:
    * it is right only when `a == b`.
    */
  lemma SplitVertPlaneOffset(s: Segment, y: I32, px: int, py: int)
    requires s.SplitVertOk(y)
    ensures s.SplitVert(y).1.Value(px, py - y) == s.Value(px, py) + (s.b - s.a) * y
  {
    assert s.b * (py - y) == s.b * py - s.b * y;
    assert (s.b - s.a) * y == s.b * y - s.a * y;
  }

  /** The segment the counterexample below starts from: the line `X = 0` in a 10 x 10 box. */
  predicate IsWitness(s: Segment)
  {
    s.c == 0 && s.a == 1 && s.b == 0 && s.flags == {}
    && s.xMin == 0 && s.xMax == 10 && s.yMin == 0 && s.yMax == 10
  }

  /**
    * A concrete input on which `split_vert` as written changes a side
    * test: the vertical line `X = 0` (`a = 1`, `b = 0`, `c = 0`) lies right
    * of `X = -3`, but the lower half `split_vert` cuts from it at `y = 5`
    * does not.
    */
  lemma SplitVertMisplacesPlane(s: Segment)
    requires IsWitness(s)
    ensures s.SplitVertOk(5)
    ensures s.CheckLeft(-3)
    ensures s.SplitVert(5).1.CheckLeftFits(-3) && !s.SplitVert(5).1.CheckLeft(-3)
  {
    WitnessLowerHalves(s);
    WitnessSideTest(s);
    WitnessSideTest(s.SplitVert(5).1);
  }

  /** On the same input the corrected `split_vert` keeps the lower half right of `X = -3`. */
  lemma SplitVertCorrectedKeepsSide(s: Segment)
    requires IsWitness(s)
    ensures s.SplitVertCorrectedOk(5)
    ensures s.SplitVertCorrected(5).1.CheckLeftFits(-3) && s.SplitVertCorrected(5).1.CheckLeft(-3)
  {
    WitnessLowerHalves(s);
    WitnessSideTest(s.SplitVertCorrected(5).1);
  }

  lemma WitnessLowerHalves(s: Segment)
    requires IsWitness(s)
    ensures s.SplitVertOk(5) && s.SplitVertCorrectedOk(5)
    ensures var h := s.SplitVert(5).1;
      h.c == -5 && h.a == 1 && h.b == 0 && ExactLeft !in h.flags && UlDr !in h.flags
    ensures var h := s.SplitVertCorrected(5).1;
      h.c == 0 && h.a == 1 && h.b == 0 && ExactLeft !in h.flags && UlDr !in h.flags
  {
  }

  /** The left test at `-3` of the line `X = -c` (`a = 1`, `b = 0`) without exact or UlDr flags. */
  lemma WitnessSideTest(h: Segment)
    requires h.a == 1 && h.b == 0 && -10 <= h.c <= 10 && ExactLeft !in h.flags && UlDr !in h.flags
    ensures h.CheckLeftFits(-3)
    ensures h.CheckLeft(-3) <==> h.c + 3 >= 0
  {
  }
}
