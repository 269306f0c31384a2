/**
  * The generic two-component point of src/point.rs. Every operator is
  * generated by a macro from the element type's own operator, so the model
  * takes that element operator as a function parameter: a binary operator
  * combines the components pairwise, a scalar operator combines each
  * component with the same scalar, a unary one (`Neg`, `abs`, the `From`
  * conversions) maps each component, and each compound operator assigns
  * the binary operator's result to the point in place.
  */
module Point {
  import opened Wrappers

  /** `Point<T>`; `Point::new(x, y)` is the constructor. */
  datatype Point<T> = Point(x: T, y: T)

  /** The point with both components `s`. */
  function Splat<T>(s: T): Point<T>
  {
    Point(s, s)
  }

  /** `binary_op!` with `rhs: Self`: `self.x op rhs.x`, `self.y op rhs.y`. */
  function Zip<T, U>(op: (T, T) -> U, a: Point<T>, b: Point<T>): Point<U>
  {
    Point(op(a.x, b.x), op(a.y, b.y))
  }

  /** `binary_op!` with `rhs: T`: both components combined with the same scalar. */
  function ZipScalar<T, U>(op: (T, T) -> U, a: Point<T>, s: T): Point<U>
  {
    Point(op(a.x, s), op(a.y, s))
  }

  /** A componentwise unary map: `Neg`, `abs`, `Point::from` and `Point::into`. */
  function Map<T, U>(f: T -> U, p: Point<T>): Point<U>
  {
    Point(f(p.x), f(p.y))
  }

  /** The scalar form of an operator is the binary form applied to `Splat(s)`. */
  lemma ScalarIsSplat<T, U>(op: (T, T) -> U, a: Point<T>, s: T)
    ensures ZipScalar(op, a, s) == Zip(op, a, Splat(s))
  {
  }

  /**
    * Componentwise maps compose: converting with `f` and back with `g`
    * (`into` after `from`), or negating twice, is the identity whenever it
    * is on the components.
    */
  lemma MapRoundTrip<T, U>(f: T -> U, g: U -> T, p: Point<T>)
    requires forall t :: g(f(t)) == t
    ensures Map(g, Map(f, p)) == p
  {
  }

  /** A componentwise map of an idempotent function (`abs`) is idempotent. */
  lemma MapIdempotent<T>(f: T -> T, p: Point<T>)
    requires forall t :: f(f(t)) == f(t)
    ensures Map(f, Map(f, p)) == Map(f, p)
  {
  }

  /** A binary operator commutes on points when it commutes on components. */
  lemma ZipCommutes<T, U>(op: (T, T) -> U, a: Point<T>, b: Point<T>)
    requires forall s, t :: op(s, t) == op(t, s)
    ensures Zip(op, a, b) == Zip(op, b, a)
  {
  }

  /** `From<(T, T)> for Point<T>`. */
  function FromTuple<T>(t: (T, T)): Point<T>
  {
    Point(t.0, t.1)
  }

  /** `From<Point<T>> for (T, T)`. */
  function ToTuple<T>(p: Point<T>): (T, T)
  {
    (p.x, p.y)
  }

  /** `From<[T; 2]> for Point<T>`; the array type fixes the length at 2. */
  function FromArray<T>(a: seq<T>): Point<T>
    requires |a| == 2
  {
    Point(a[0], a[1])
  }

  /** `From<Point<T>> for [T; 2]`. */
  function ToArray<T>(p: Point<T>): (a: seq<T>)
    ensures |a| == 2
  {
    [p.x, p.y]
  }

  /** The tuple conversions are inverse to each other. */
  lemma TupleRoundTrip<T>(p: Point<T>, t: (T, T))
    ensures FromTuple(ToTuple(p)) == p
    ensures ToTuple(FromTuple(t)) == t
  {
  }

  /** The array conversions are inverse to each other. */
  lemma ArrayRoundTrip<T>(p: Point<T>, a: seq<T>)
    requires |a| == 2
    ensures FromArray(ToArray(p)) == p
    ensures ToArray(FromArray(a)) == a
  {
  }

  /**
    * `try_from` / `try_into`: convert `x`, then `y`, stopping at the first
    * failure with its error.
    */
  function TryConvert<T, U, E>(conv: T -> Result<U, E>, p: Point<T>): (r: Result<Point<U>, E>)
    ensures r.Ok? <==> conv(p.x).Ok? && conv(p.y).Ok?
    ensures r.Ok? ==> r.value == Point(conv(p.x).value, conv(p.y).value)
    ensures conv(p.x).Err? ==> r == Err(conv(p.x).error)
    ensures conv(p.x).Ok? && conv(p.y).Err? ==> r == Err(conv(p.y).error)
  {
    match conv(p.x)
    case Err(e) => Err(e)
    case Ok(x) =>
      match conv(p.y)
      case Err(e) => Err(e)
      case Ok(y) => Ok(Point(x, y))
  }

  /** A conversion that never fails gives the componentwise map. */
  lemma TryConvertTotal<T, U, E>(conv: T -> Result<U, E>, f: T -> U, p: Point<T>)
    requires forall t :: conv(t) == Ok(f(t))
    ensures TryConvert(conv, p) == Ok(Map(f, p))
  {
  }

  /** A point place, for the compound operators, which assign `self.x` and `self.y`. */
  class MutPoint<T> {
    var x: T
    var y: T

    function Value(): Point<T>
      reads this
    {
      Point(x, y)
    }

    constructor (p: Point<T>)
      ensures Value() == p
    {
      x, y := p.x, p.y;
    }

    /** `compound_op!` with `rhs: Self`: the binary operator's result, stored in place. */
    method Assign(op: (T, T) -> T, rhs: Point<T>)
      modifies this
      ensures Value() == Zip(op, old(Value()), rhs)
    {
      x := op(x, rhs.x);
      y := op(y, rhs.y);
    }

    /** `compound_op!` with `rhs: T`: the scalar operator's result, stored in place. */
    method AssignScalar(op: (T, T) -> T, s: T)
      modifies this
      ensures Value() == ZipScalar(op, old(Value()), s)
      ensures Value() == Zip(op, old(Value()), Splat(s))
    {
      x := op(x, s);
      y := op(y, s);
    }
  }
}
