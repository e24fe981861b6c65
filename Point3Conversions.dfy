/**
 * `Point3Conversions<TTarget>`, which builds points and vectors through a checked
 * scalar conversion, and the static `Point3Conversions.Lerp`, which interpolates in
 * the weight's scalar type through the vector form.
 */
module Point3Conversions {
  import opened Results
  import opened Numerics
  import Vector3
  import Point3
  import Vector3Conversions

  /** `Create(value)`: the broadcast of the converted value. */
  function Create<S, T>(convert: S -> Option<T>, value: S): (r: Result<Point3.Point3<T>>)
    ensures r.Success? <==> convert(value).Some?
    ensures r.Success? ==> r.value == Point3.Broadcast(convert(value).value)
    ensures r.Failure? ==> r.error == Overflow
  {
    var c :- CreateChecked(convert, value);
    Success(Point3.Broadcast(c))
  }

  /** `Create(x, y, z)`: each coordinate converted on its own, from its own scalar type. */
  function CreateXYZ<X, Y, Z, T>(convertX: X -> Option<T>, convertY: Y -> Option<T>, convertZ: Z -> Option<T>,
                                 x: X, y: Y, z: Z): (r: Result<Point3.Point3<T>>)
    ensures r.Success? <==> convertX(x).Some? && convertY(y).Some? && convertZ(z).Some?
    ensures r.Success? ==>
      r.value.x == convertX(x).value && r.value.y == convertY(y).value && r.value.z == convertZ(z).value
    ensures r.Failure? ==> r.error == Overflow
  {
    var cx :- CreateChecked(convertX, x);
    var cy :- CreateChecked(convertY, y);
    var cz :- CreateChecked(convertZ, z);
    Success(Point3.Point3(cx, cy, cz))
  }

  /** `AsPoint3(point)`: every coordinate converted; it fails exactly when one of them does. */
  function AsPoint3<S, T>(convert: S -> Option<T>, point: Point3.Point3<S>): (r: Result<Point3.Point3<T>>)
    ensures r.Success? <==> convert(point.x).Some? && convert(point.y).Some? && convert(point.z).Some?
    ensures r.Success? ==>
      r.value.x == convert(point.x).value && r.value.y == convert(point.y).value && r.value.z == convert(point.z).value
    ensures r.Failure? ==> r.error == Overflow
  {
    var cx :- CreateChecked(convert, point.x);
    var cy :- CreateChecked(convert, point.y);
    var cz :- CreateChecked(convert, point.z);
    Success(Point3.Point3(cx, cy, cz))
  }

  /** `AsPoint3(vector)`: the point of the vector's converted components. */
  function AsPoint3FromVector<S, T>(convert: S -> Option<T>, vector: Vector3.Vector3<S>): (r: Result<Point3.Point3<T>>)
    ensures r.Success? <==> convert(vector.x).Some? && convert(vector.y).Some? && convert(vector.z).Some?
    ensures r.Success? ==>
      r.value.x == convert(vector.x).value && r.value.y == convert(vector.y).value && r.value.z == convert(vector.z).value
    ensures r.Failure? ==> r.error == Overflow
  {
    var cx :- CreateChecked(convert, vector.x);
    var cy :- CreateChecked(convert, vector.y);
    var cz :- CreateChecked(convert, vector.z);
    Success(Point3.Point3(cx, cy, cz))
  }

  /** `AsVector3(point)`: the vector of the point's converted coordinates. */
  function AsVector3<S, T>(convert: S -> Option<T>, point: Point3.Point3<S>): (r: Result<Vector3.Vector3<T>>)
    ensures r.Success? <==> convert(point.x).Some? && convert(point.y).Some? && convert(point.z).Some?
    ensures r.Success? ==>
      r.value.x == convert(point.x).value && r.value.y == convert(point.y).value && r.value.z == convert(point.z).value
    ensures r.Failure? ==> r.error == Overflow
  {
    var cx :- CreateChecked(convert, point.x);
    var cy :- CreateChecked(convert, point.y);
    var cz :- CreateChecked(convert, point.z);
    Success(Vector3.Vector3(cx, cy, cz))
  }

  /**
   * The three conversions of a point agree: converting the point, converting its
   * vector into a point, and converting it into a vector give the same coordinates,
   * and fail together.
   */
  lemma ConversionsAgree<S, T>(convert: S -> Option<T>, point: Point3.Point3<S>)
    ensures AsPoint3(convert, point) == AsPoint3FromVector(convert, Point3.AsVector3(point))
    ensures AsVector3(convert, point).Success? == AsPoint3(convert, point).Success?
    ensures AsVector3(convert, point).Success? ==>
      AsVector3(convert, point).value == Point3.AsVector3(AsPoint3(convert, point).value)
  {
  }

  /** Converting with an exact conversion and back gives the point itself. */
  lemma AsPoint3RoundTrip<S(!new), T>(to: S -> Option<T>, from: T -> Option<S>, point: Point3.Point3<S>)
    requires ExactConversion(to, from)
    ensures AsPoint3(to, point).Success?
    ensures AsPoint3(from, AsPoint3(to, point).value) == Success(point)
  {
    var b := AsPoint3(from, AsPoint3(to, point).value);
    assert b.value.x == point.x && b.value.y == point.y && b.value.z == point.z;
  }

  /** `Point3Conversions.Lerp`: the conversion `Lerp` of the two points' vectors, made a point again. */
  function Lerp<S>(to: S -> Option<real>, from: real -> Option<S>,
                   value1: Point3.Point3<S>, value2: Point3.Point3<S>, amount: real): (r: Result<Point3.Point3<S>>)
    ensures var c := Vector3Conversions.Lerp(to, from, Point3.AsVector3(value1), Point3.AsVector3(value2), amount);
      (r.Success? <==> c.Success?) &&
      (r.Success? ==> Point3.AsVector3(r.value) == c.value) &&
      (r.Failure? ==> r.error == Overflow)
  {
    var combination :- Vector3Conversions.Lerp(to, from, Point3.AsVector3(value1), Point3.AsVector3(value2), amount);
    Success(Point3.CreateFromVector(combination))
  }

  /** With exact conversions, amount zero gives the first point and amount one the second. */
  lemma LerpEndpoints<S(!new)>(to: S -> Option<real>, from: real -> Option<S>,
                               value1: Point3.Point3<S>, value2: Point3.Point3<S>)
    requires ExactConversion(to, from)
    ensures Lerp(to, from, value1, value2, 0.0) == Success(value1)
    ensures Lerp(to, from, value1, value2, 1.0) == Success(value2)
  {
    Vector3Conversions.LerpEndpoints(to, from, Point3.AsVector3(value1), Point3.AsVector3(value2));
  }

  /** With exact conversions, interpolating between a point and itself gives that point. */
  lemma LerpSame<S(!new)>(to: S -> Option<real>, from: real -> Option<S>, point: Point3.Point3<S>, amount: real)
    requires ExactConversion(to, from)
    ensures Lerp(to, from, point, point, amount) == Success(point)
  {
    Vector3Conversions.LerpSame(to, from, Point3.AsVector3(point), amount);
  }
}
