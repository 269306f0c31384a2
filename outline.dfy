/**
  * The outline store of src/ass/outline.rs: bit-encoded segment tags and
  * the `Outline` that collects points and tags. `Vector` and `Rect` are the
  * ones of module `AssOutline`; src/ass/outline.rs declares identical ones.
  */
module Outline {
  import opened Ints
  import opened Wrappers
  import opened Utils
  import AssOutline

  type Vector = AssOutline.Vector
  type Bounds = AssOutline.Bounds
  type Rect = AssOutline.Rect

  /**
    * A segment tag, `#[repr(u8)]`. Bit 2 (value 4) marks the last segment
    * of a contour; bits 0-1 count the points the segment contributes.
    */
  datatype Segment =
    | LineSegment
    | QuadSpline
    | CubicSpline
    | ContourEnd
    | LineSegmentEnd
    | QuadSplineEnd
    | CubicSplineEnd
  {
    /** The discriminant: 1, 2, 3, 4, and base | 4 for the `*End` variants. */
    function Tag(): (t: nat)
      ensures 1 <= t <= 7
    {
      match this
      case LineSegment => 1
      case QuadSpline => 2
      case CubicSpline => 3
      case ContourEnd => 4
      case LineSegmentEnd => 5
      case QuadSplineEnd => 6
      case CubicSplineEnd => 7
    }

    /** `outline_count`: `tag & 3`, the number of points of the segment. */
    function OutlineCount(): (n: nat)
      ensures this in {LineSegment, LineSegmentEnd} ==> n == 1
      ensures this in {QuadSpline, QuadSplineEnd} ==> n == 2
      ensures this in {CubicSpline, CubicSplineEnd} ==> n == 3
      ensures this == ContourEnd ==> n == 0
    {
      TagMasks();
      BitAnd(Tag(), 3)
    }

    /** `is_end`: `tag & 4 != 0`. */
    function IsEnd(): (b: bool)
      ensures b <==> this in {ContourEnd, LineSegmentEnd, QuadSplineEnd, CubicSplineEnd}
    {
      TagMasks();
      BitAnd(Tag(), 4) != 0
    }

    /** `as_end`: the `*End` form of a base tag; every other tag is already one. */
    function AsEnd(): (r: Segment)
      ensures r.IsEnd()
      ensures r.OutlineCount() == OutlineCount()
      ensures IsEnd() ==> r == this
      ensures !IsEnd() ==> r.Tag() == Tag() + 4
    {
      match this
      case LineSegment => LineSegmentEnd
      case QuadSpline => QuadSplineEnd
      case CubicSpline => CubicSplineEnd
      case _ => this
    }
  }

  /** The two masks applied to each of the seven discriminants. */
  lemma TagMasks()
    ensures BitAnd(1, 3) == 1 && BitAnd(2, 3) == 2 && BitAnd(3, 3) == 3 && BitAnd(4, 3) == 0
    ensures BitAnd(5, 3) == 1 && BitAnd(6, 3) == 2 && BitAnd(7, 3) == 3
    ensures BitAnd(1, 4) == 0 && BitAnd(2, 4) == 0 && BitAnd(3, 4) == 0
    ensures BitAnd(4, 4) == 4 && BitAnd(5, 4) == 4 && BitAnd(6, 4) == 4 && BitAnd(7, 4) == 4
  {
  }

  /** `as_end` applied twice is `as_end` applied once. */
  lemma AsEndIdempotent(s: Segment)
    ensures s.AsEnd().AsEnd() == s.AsEnd()
  {
  }

  /** `Outline::MAX_COORD`, `(1 << 28) - 1`. */
  const MAX_COORD: I32 := 0x0FFF_FFFF

  /**
    * The test `add_point` applies: both saturating magnitudes at most
    * `MAX_COORD`. Saturation makes `i32::MIN` count as `i32::MAX`, so the
    * test is exactly the interval `-MAX_COORD ..= MAX_COORD`.
    */
  function CoordInRange(pt: Vector): (ok: bool)
    ensures ok <==> -MAX_COORD <= pt.x <= MAX_COORD && -MAX_COORD <= pt.y <= MAX_COORD
  {
    SaturatingAbs(pt.x) <= MAX_COORD && SaturatingAbs(pt.y) <= MAX_COORD
  }

  /** An outline: a list of points and the list of tags that group them. */
  class Outline {
    var points: seq<Vector>
    var segments: seq<Segment>

    /** Every stored point passed the `add_point` range test. */
    predicate Valid()
      reads this
    {
      forall i :: 0 <= i < |points| ==> CoordInRange(points[i])
    }

    /** `Outline::new`: the capacities only reserve memory. */
    constructor (nPoints: USize, nSegments: USize)
      ensures points == [] && segments == []
      ensures Valid()
    {
      points := [];
      segments := [];
    }

    /**
      * `add_point`: reject a point out of range, leaving the outline as it
      * was; otherwise append it and, when given, its tag.
      */
    method AddPoint(pt: Vector, segment: Option<Segment>) returns (r: Result<(), ()>)
      modifies this
      ensures r.Err? <==> !CoordInRange(pt)
      ensures r.Err? ==> points == old(points) && segments == old(segments)
      ensures r.Ok? ==> points == old(points) + [pt]
      ensures r.Ok? && segment.Some? ==> segments == old(segments) + [segment.value]
      ensures r.Ok? && segment.None? ==> segments == old(segments)
      ensures old(Valid()) ==> Valid()
    {
      if SaturatingAbs(pt.x) > MAX_COORD || SaturatingAbs(pt.y) > MAX_COORD {
        return Err(());
      }
      points := points + [pt];
      if segment.Some? {
        segments := segments + [segment.value];
      }
      return Ok(());
    }

    /** `add_segment`: append one tag. */
    method AddSegment(segment: Segment)
      modifies this
      ensures segments == old(segments) + [segment]
      ensures points == old(points)
    {
      segments := segments + [segment];
    }

    /**
      * `close_contour`: turn the last tag into its `*End` form. The source
      * panics when there is no tag or the last one already ends a contour.
      */
    method CloseContour()
      requires segments != [] && !segments[|segments| - 1].IsEnd()
      modifies this
      ensures |segments| == |old(segments)|
      ensures segments[..|segments| - 1] == old(segments)[..|segments| - 1]
      ensures segments[|segments| - 1] == old(segments)[|segments| - 1].AsEnd()
      ensures points == old(points)
    {
      var n := |segments|;
      segments := segments[..n - 1] + [segments[n - 1].AsEnd()];
    }

    /**
      * `update_cbox`: widen `cbox` by every stored point, in order. Started
      * from a reset box, the result is the tight box of the points, so it
      * stays within the range `add_point` admits.
      */
    method UpdateCBox(cbox: Rect)
      requires Valid()
      modifies cbox
      ensures cbox.Box() == AssOutline.WidenAll(old(cbox.Box()), points)
      ensures forall i :: 0 <= i < |points| ==> cbox.Contains(points[i])
      ensures forall p :: old(cbox.Contains(p)) ==> cbox.Contains(p)
      ensures old(cbox.Box()) == AssOutline.Bounds(I32_MAX, I32_MAX, I32_MIN, I32_MIN) && points != [] ==>
        var w := cbox.Box();
        -MAX_COORD <= w.xMin <= w.xMax <= MAX_COORD && -MAX_COORD <= w.yMin <= w.yMax <= MAX_COORD
    {
      var i := 0;
      while i < |points|
        invariant 0 <= i <= |points|
        invariant cbox.Box() == AssOutline.WidenAll(old(cbox.Box()), points[..i])
      {
        var pt := points[i];
        cbox.Update(pt.x, pt.y, pt.x, pt.y);
        assert points[..i + 1][..i] == points[..i];
        i := i + 1;
      }
      assert points[..i] == points;
      AssOutline.WidenAllCovers(old(cbox.Box()), points);
      AssOutline.WidenAllTight(old(cbox.Box()), points);
      if points != [] {
        assert CoordInRange(points[0]);
      }
    }
  }
}
