/**
 * `Point2Conversions<TTarget>`, which builds points and vectors through a checked
 * scalar conversion, and the static `Point2Conversions.Lerp`, which interpolates in
 * the weight's scalar type through the vector form.
 */
module Point2Conversions {
  import opened Results
  import opened Numerics
  import Vector2
  import Point2
  import Vector2Conversions

  /** `Create(value)`: the broadcast of the converted value. */
  function Create<S, T>(convert: S -> Option<T>, value: S): (r: Result<Point2.Point2<T>>)
    ensures r.Success? <==> convert(value).Some?
    ensures r.Success? ==> r.value == Point2.Broadcast(convert(value).value)
    ensures r.Failure? ==> r.error == Overflow
  {
    var c :- CreateChecked(convert, value);
    Success(Point2.Broadcast(c))
  }

  /** `Create(x, y)`: each coordinate converted on its own, from its own scalar type. */
  function CreateXY<X, Y, T>(convertX: X -> Option<T>, convertY: Y -> Option<T>, x: X, y: Y): (r: Result<Point2.Point2<T>>)
    ensures r.Success? <==> convertX(x).Some? && convertY(y).Some?
    ensures r.Success? ==> r.value.x == convertX(x).value && r.value.y == convertY(y).value
    ensures r.Failure? ==> r.error == Overflow
  {
    var cx :- CreateChecked(convertX, x);
    var cy :- CreateChecked(convertY, y);
    Success(Point2.Point2(cx, cy))
  }

  /** `AsPoint2(point)`: every coordinate converted; it fails exactly when one of them does. */
  function AsPoint2<S, T>(convert: S -> Option<T>, point: Point2.Point2<S>): (r: Result<Point2.Point2<T>>)
    ensures r.Success? <==> convert(point.x).Some? && convert(point.y).Some?
    ensures r.Success? ==> r.value.x == convert(point.x).value && r.value.y == convert(point.y).value
    ensures r.Failure? ==> r.error == Overflow
  {
    var cx :- CreateChecked(convert, point.x);
    var cy :- CreateChecked(convert, point.y);
    Success(Point2.Point2(cx, cy))
  }

  /** `AsPoint2(vector)`: the point of the vector's converted components. */
  function AsPoint2FromVector<S, T>(convert: S -> Option<T>, vector: Vector2.Vector2<S>): (r: Result<Point2.Point2<T>>)
    ensures r.Success? <==> convert(vector.x).Some? && convert(vector.y).Some?
    ensures r.Success? ==> r.value.x == convert(vector.x).value && r.value.y == convert(vector.y).value
    ensures r.Failure? ==> r.error == Overflow
  {
    var cx :- CreateChecked(convert, vector.x);
    var cy :- CreateChecked(convert, vector.y);
    Success(Point2.Point2(cx, cy))
  }

  /** `AsVector2(point)`: the vector of the point's converted coordinates. */
  function AsVector2<S, T>(convert: S -> Option<T>, point: Point2.Point2<S>): (r: Result<Vector2.Vector2<T>>)
    ensures r.Success? <==> convert(point.x).Some? && convert(point.y).Some?
    ensures r.Success? ==> r.value.x == convert(point.x).value && r.value.y == convert(point.y).value
    ensures r.Failure? ==> r.error == Overflow
  {
    var cx :- CreateChecked(convert, point.x);
    var cy :- CreateChecked(convert, point.y);
    Success(Vector2.Vector2(cx, cy))
  }

  /**
   * The three conversions of a point agree: converting the point, converting its
   * vector into a point, and converting it into a vector give the same coordinates,
   * and fail together.
   */
  lemma ConversionsAgree<S, T>(convert: S -> Option<T>, point: Point2.Point2<S>)
    ensures AsPoint2(convert, point) == AsPoint2FromVector(convert, Point2.AsVector2(point))
    ensures AsVector2(convert, point).Success? == AsPoint2(convert, point).Success?
    ensures AsVector2(convert, point).Success? ==>
      AsVector2(convert, point).value == Point2.AsVector2(AsPoint2(convert, point).value)
  {
  }

  /** Converting with an exact conversion and back gives the point itself. */
  lemma AsPoint2RoundTrip<S(!new), T>(to: S -> Option<T>, from: T -> Option<S>, point: Point2.Point2<S>)
    requires ExactConversion(to, from)
    ensures AsPoint2(to, point).Success?
    ensures AsPoint2(from, AsPoint2(to, point).value) == Success(point)
  {
    var b := AsPoint2(from, AsPoint2(to, point).value);
    assert b.value.x == point.x && b.value.y == point.y;
  }

  /** `Point2Conversions.Lerp`: the conversion `Lerp` of the two points' vectors, made a point again. */
  function Lerp<S>(to: S -> Option<real>, from: real -> Option<S>,
                   value1: Point2.Point2<S>, value2: Point2.Point2<S>, amount: real): (r: Result<Point2.Point2<S>>)
    ensures var c := Vector2Conversions.Lerp(to, from, Point2.AsVector2(value1), Point2.AsVector2(value2), amount);
      (r.Success? <==> c.Success?) &&
      (r.Success? ==> Point2.AsVector2(r.value) == c.value) &&
      (r.Failure? ==> r.error == Overflow)
  {
    var combination :- Vector2Conversions.Lerp(to, from, Point2.AsVector2(value1), Point2.AsVector2(value2), amount);
    Success(Point2.CreateFromVector(combination))
  }

  /** With exact conversions, amount zero gives the first point and amount one the second. */
  lemma LerpEndpoints<S(!new)>(to: S -> Option<real>, from: real -> Option<S>,
                               value1: Point2.Point2<S>, value2: Point2.Point2<S>)
    requires ExactConversion(to, from)
    ensures Lerp(to, from, value1, value2, 0.0) == Success(value1)
    ensures Lerp(to, from, value1, value2, 1.0) == Success(value2)
  {
    Vector2Conversions.LerpEndpoints(to, from, Point2.AsVector2(value1), Point2.AsVector2(value2));
  }

  /** With exact conversions, interpolating between a point and itself gives that point. */
  lemma LerpSame<S(!new)>(to: S -> Option<real>, from: real -> Option<S>, point: Point2.Point2<S>, amount: real)
    requires ExactConversion(to, from)
    ensures Lerp(to, from, point, point, amount) == Success(point)
  {
    Vector2Conversions.LerpSame(to, from, Point2.AsVector2(point), amount);
  }

  /**
   * The test's interpolation with exact reals standing for its `float` points and
   * `double` amount, so both conversions are the identity: two thirds of the way
   * from (-2, -1) to (1, 5) is (0, 3).
   */
  lemma LerpExample()
    ensures Lerp((x: real) => Some(x), (x: real) => Some(x), Point2.Point2(-2.0, -1.0), Point2.Point2(1.0, 5.0), 2.0 / 3.0)
         == Success(Point2.Point2(0.0, 3.0))
  {
    var t := 2.0 / 3.0;
    var a, b := Vector2.Vector2(-2.0, -1.0), Vector2.Vector2(1.0, 5.0);
    assert Mul(-2.0, 1.0 - t) + Mul(1.0, t) == 0.0;
    assert Mul(-1.0, 1.0 - t) + Mul(5.0, t) == 3.0;
    var l := Vector2.Lerp(a, b, t);
    assert l.x == 0.0 && l.y == 3.0;
  }
}
