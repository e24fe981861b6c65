/**
 * The overrides of `object.Equals(object?)`. An argument of type `object?` is
 * either null, one of the four boxed geometry structs, or something else.
 */
module Objects {
  import Vector2
  import Vector3
  import Point2
  import Point3

  datatype Object<S> =
    | Null
    | BoxedVector2(vector2: Vector2.Vector2<S>)
    | BoxedVector3(vector3: Vector3.Vector3<S>)
    | BoxedPoint2(point2: Point2.Point2<S>)
    | BoxedPoint3(point3: Point3.Point3<S>)
    | Other

  /** `Vector2<TScalar>.Equals(object?)`: true exactly for a boxed equal `Vector2`. */
  function Vector2EqualsObject<S(==)>(value: Vector2.Vector2<S>, obj: Object<S>): (r: bool)
    ensures r <==> obj == BoxedVector2(value)
  {
    obj.BoxedVector2? && Vector2.Equals(value, obj.vector2)
  }

  /** `Vector3<TScalar>.Equals(object?)`: true exactly for a boxed equal `Vector3`. */
  function Vector3EqualsObject<S(==)>(value: Vector3.Vector3<S>, obj: Object<S>): (r: bool)
    ensures r <==> obj == BoxedVector3(value)
  {
    obj.BoxedVector3? && Vector3.Equals(value, obj.vector3)
  }

  /** `Point2<TScalar>.Equals(object?)`: true exactly for a boxed equal `Point2`. */
  function Point2EqualsObject<S(==)>(value: Point2.Point2<S>, obj: Object<S>): (r: bool)
    ensures r <==> obj == BoxedPoint2(value)
  {
    obj.BoxedPoint2? && Point2.Equals(value, obj.point2)
  }

  /** `Point3<TScalar>.Equals(object?)`: true exactly for a boxed equal `Point3`. */
  function Point3EqualsObject<S(==)>(value: Point3.Point3<S>, obj: Object<S>): (r: bool)
    ensures r <==> obj == BoxedPoint3(value)
  {
    obj.BoxedPoint3? && Point3.Equals(value, obj.point3)
  }

  /**
   * For each of the four types, the object overload agrees with the typed `Equals`
   * on a boxed value of the same type, and is false for null, for anything else,
   * and for the value of the other kind (point or vector) with the same coordinates.
   */
  lemma EqualsObjectAgrees<S>(v2: Vector2.Vector2<S>, w2: Vector2.Vector2<S>, p2: Point2.Point2<S>, q2: Point2.Point2<S>,
                              v3: Vector3.Vector3<S>, w3: Vector3.Vector3<S>, p3: Point3.Point3<S>, q3: Point3.Point3<S>)
    ensures Vector2EqualsObject(v2, BoxedVector2(w2)) == Vector2.Equals(v2, w2)
    ensures Vector3EqualsObject(v3, BoxedVector3(w3)) == Vector3.Equals(v3, w3)
    ensures Point2EqualsObject(p2, BoxedPoint2(q2)) == Point2.Equals(p2, q2)
    ensures Point3EqualsObject(p3, BoxedPoint3(q3)) == Point3.Equals(p3, q3)
    ensures !Vector2EqualsObject(v2, Null) && !Vector3EqualsObject(v3, Null)
    ensures !Point2EqualsObject(p2, Null) && !Point3EqualsObject(p3, Null)
    ensures !Vector2EqualsObject(v2, Other) && !Vector3EqualsObject(v3, Other)
    ensures !Point2EqualsObject(p2, Other) && !Point3EqualsObject(p3, Other)
    ensures !Vector2EqualsObject(Point2.AsVector2(p2), BoxedPoint2(p2))
    ensures !Point2EqualsObject(p2, BoxedVector2(Point2.AsVector2(p2)))
    ensures !Vector3EqualsObject(Point3.AsVector3(p3), BoxedPoint3(p3))
    ensures !Point3EqualsObject(p3, BoxedVector3(Point3.AsVector3(p3)))
  {
  }
}
