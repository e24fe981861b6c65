/**
 * The equality comparers the tests use to compare results within a tolerance:
 * two vectors (or points) are equal when every pair of coordinates differs by at
 * most the comparer's tolerance.
 */
module TolerantComparers {
  import opened Numerics
  import Vector2
  import Point2

  /** `EqualsCore`: `|y - x|` compared with `tolerance`, i.e. `y` lies within `tolerance` of `x`. */
  function EqualsCore(tolerance: real, x: real, y: real): (r: bool)
    ensures r <==> x - tolerance <= y <= x + tolerance
  {
    var difference := Abs(y - x);
    difference <= tolerance
  }

  /** `Vector2TolerantComparer<TScalar>`, holding the tolerance given to its constructor. */
  datatype Vector2TolerantComparer = Vector2TolerantComparer(tolerance: real) {
    /** `Equals(x, y)`: every pair of components is within the tolerance; exact equality for tolerance zero. */
    function Equals(x: Vector2.Vector2<real>, y: Vector2.Vector2<real>): (r: bool)
      ensures r <==> x.x - tolerance <= y.x <= x.x + tolerance && x.y - tolerance <= y.y <= x.y + tolerance
      ensures tolerance == 0.0 ==> (r <==> x == y)
    {
      EqualsCore(tolerance, x.x, y.x) && EqualsCore(tolerance, x.y, y.y)
    }

    /** The comparer does not depend on the order of its arguments. */
    lemma EqualsSymmetric(x: Vector2.Vector2<real>, y: Vector2.Vector2<real>)
      ensures Equals(x, y) == Equals(y, x)
    {
    }

    /** With a non-negative tolerance every vector equals itself; with a negative one none does. */
    lemma EqualsReflexive(x: Vector2.Vector2<real>)
      ensures Equals(x, x) <==> 0.0 <= tolerance
    {
    }

    /** Vectors equal within this tolerance are equal within any larger one. */
    lemma EqualsMonotone(x: Vector2.Vector2<real>, y: Vector2.Vector2<real>, larger: real)
      requires tolerance <= larger && Equals(x, y)
      ensures Vector2TolerantComparer(larger).Equals(x, y)
    {
    }
  }

  /** `Point2TolerantComparer<TScalar>`, holding the tolerance given to its constructor. */
  datatype Point2TolerantComparer = Point2TolerantComparer(tolerance: real) {
    /** `Equals(x, y)`: every pair of coordinates is within the tolerance; exact equality for tolerance zero. */
    function Equals(x: Point2.Point2<real>, y: Point2.Point2<real>): (r: bool)
      ensures r <==> x.x - tolerance <= y.x <= x.x + tolerance && x.y - tolerance <= y.y <= x.y + tolerance
      ensures tolerance == 0.0 ==> (r <==> x == y)
    {
      EqualsCore(tolerance, x.x, y.x) && EqualsCore(tolerance, x.y, y.y)
    }

    /** The comparer does not depend on the order of its arguments. */
    lemma EqualsSymmetric(x: Point2.Point2<real>, y: Point2.Point2<real>)
      ensures Equals(x, y) == Equals(y, x)
    {
    }

    /** With a non-negative tolerance every point equals itself; with a negative one none does. */
    lemma EqualsReflexive(x: Point2.Point2<real>)
      ensures Equals(x, x) <==> 0.0 <= tolerance
    {
    }

    /** Points equal within this tolerance are equal within any larger one. */
    lemma EqualsMonotone(x: Point2.Point2<real>, y: Point2.Point2<real>, larger: real)
      requires tolerance <= larger && Equals(x, y)
      ensures Point2TolerantComparer(larger).Equals(x, y)
    {
    }
  }
}
