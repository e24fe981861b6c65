/**
 * The two-dimensional affine point `Point2<TScalar>` and the static class `Point2`.
 * A point is translated by a `Vector2`, and the difference of two points is a `Vector2`.
 */
module Point2 {
  import opened Results
  import opened Numerics
  import ThrowHelpers
  import Vector2

  /** `Point2.Count`, defined as `Vector2.Count`. */
  const Count: nat := Vector2.Count

  /**
   * An immutable pair of coordinates. The xy constructor and `Point2.Create(x, y)`
   * are `Point2(x, y)`; the properties X and Y are the fields `x` and `y`.
   */
  datatype Point2<S> = Point2(x: S, y: S)

  /** The coordinates in memory order, as the unchecked accessor walks them from `_x`. */
  function Elements<S>(p: Point2<S>): (r: seq<S>)
    ensures |r| == Count
  {
    [p.x, p.y]
  }

  /** The broadcast constructor `Point2(value)`, also reached through `Point2.Create(value)`. */
  function Broadcast<S>(value: S): (r: Point2<S>)
    ensures forall i | 0 <= i < Count :: Elements(r)[i] == value
  {
    Point2(value, value)
  }

  /**
   * The span constructor `Point2(ReadOnlySpan elements)`: a span shorter than `Count`
   * is rejected; otherwise the first two elements are taken and the rest ignored.
   */
  function FromSpan<S>(elements: seq<S>): (r: Result<Point2<S>>)
    ensures r.Success? <==> |elements| >= Count
    ensures r.Success? ==> Elements(r.value) == elements[..Count]
    ensures r.Failure? ==> r.error == ArgumentOutOfRange("elements")
  {
    if |elements| < Vector2.Count then ThrowHelpers.ThrowArgumentOutOfRangeException("elements")
    else Success(Point2(elements[0], elements[1]))
  }

  /**
   * `Point2.Create(ReadOnlySpan values)`: the same guard and the same reads as the
   * span constructor, reporting the parameter `values`.
   */
  function CreateFromSpan<S>(values: seq<S>): (r: Result<Point2<S>>)
    ensures r.Success? <==> |values| >= Count
    ensures r.Success? ==> Elements(r.value) == values[..Count]
    ensures r.Failure? ==> r.error == ArgumentOutOfRange("values")
  {
    if |values| < Count then ThrowHelpers.ThrowArgumentOutOfRangeException("values")
    else Success(Point2(values[0], values[1]))
  }

  /** `AsVector2`: the vector with the same coordinates; `Create(vector)` undoes it. */
  function AsVector2<S>(point: Point2<S>): (r: Vector2.Vector2<S>)
    ensures Vector2.Elements(r) == Elements(point)
    ensures CreateFromVector(r) == point
  {
    Vector2.Vector2(point.x, point.y)
  }

  /** `Point2.Create(vector)`: the point with the vector's coordinates; `AsVector2` undoes it. */
  function CreateFromVector<S>(vector: Vector2.Vector2<S>): (r: Point2<S>)
    ensures Elements(r) == Vector2.Elements(vector)
    ensures Vector2.Vector2(r.x, r.y) == vector
  {
    Point2(vector.x, vector.y)
  }

  /** The unchecked accessor; its callers guarantee `0 <= index < Count`. */
  function GetElementUnsafe<S>(point: Point2<S>, index: nat): (r: S)
    requires index < Count
    ensures r == Elements(point)[index]
  {
    if index == 0 then point.x else point.y
  }

  /** `GetElement`, behind the indexer: one unsigned comparison, then the unchecked read. */
  function GetElement<S>(point: Point2<S>, index: int32): (r: Result<S>)
    ensures r.Success? <==> 0 <= index as int < Count
    ensures r.Success? ==> r.value == Elements(point)[index as int]
    ensures r.Failure? ==> r.error == ArgumentOutOfRange("(uint)index")
  {
    ThrowHelpers.UnsignedRangeCheck(index, Count as uint32, "(uint)index");
    match ThrowHelpers.ThrowIfGreaterThanOrEqual(AsUInt32(index), Count as uint32, "(uint)index")
    case Fail(e) => Failure(e)
    case Pass => Success(GetElementUnsafe(point, index as int))
  }

  /** `Point2.Zero`: the origin. */
  function Zero(): (r: Point2<real>)
    ensures AsVector2(r) == Vector2.Zero()
  {
    Broadcast(0.0)
  }

  /** `Point2.One`: every coordinate is one. */
  function One(): (r: Point2<real>)
    ensures forall i | 0 <= i < Count :: Elements(r)[i] == 1.0
  {
    Broadcast(1.0)
  }

  /** `Point2.UnitX`: one along X, zero along Y. */
  function UnitX(): (r: Point2<real>)
    ensures Elements(r) == [1.0, 0.0]
  {
    Point2(1.0, 0.0)
  }

  /** `Point2.UnitY`: zero along X, one along Y. */
  function UnitY(): (r: Point2<real>)
    ensures Elements(r) == [0.0, 1.0]
  {
    Point2(0.0, 1.0)
  }

  /** `Point2.Add(point, vector)`, the `+` operator: translation, the vector sum on coordinates. */
  function Add(left: Point2<real>, right: Vector2.Vector2<real>): (r: Point2<real>)
    ensures AsVector2(r) == Vector2.Add(AsVector2(left), right)
  {
    Point2(left.x + right.x, left.y + right.y)
  }

  /** `Point2.Subtract(point, point)`, the `-` operator: the vector that translates `right` to `left`. */
  function Subtract(left: Point2<real>, right: Point2<real>): (r: Vector2.Vector2<real>)
    ensures Add(right, r) == left
  {
    Vector2.Vector2(left.x - right.x, left.y - right.y)
  }

  /** `Point2.Subtract(point, vector)`, the `-` operator: the point that `right` translates to `left`. */
  function SubtractVector(left: Point2<real>, right: Vector2.Vector2<real>): (r: Point2<real>)
    ensures Add(r, right) == left
  {
    Point2(left.x - right.x, left.y - right.y)
  }

  /** `DistanceSquared`: the squared length of the difference, zero exactly for equal points. */
  function DistanceSquared(value1: Point2<real>, value2: Point2<real>): (r: real)
    ensures 0.0 <= r
    ensures r == 0.0 <==> value1 == value2
  {
    var d := Subtract(value1, value2);
    assert d == Vector2.Zero() ==> value1.x == value2.x && value1.y == value2.y;
    Vector2.LengthSquared(d)
  }

  /** `Distance`, given the scalar type's square root: the non-negative root of `DistanceSquared`. */
  function Distance(value1: Point2<real>, value2: Point2<real>, sqrt: real -> real): (r: real)
    ensures IsSqrt(sqrt) ==> 0.0 <= r && Mul(r, r) == DistanceSquared(value1, value2)
    ensures IsSqrt(sqrt) ==> (r == 0.0 <==> value1 == value2)
  {
    Vector2.Length(Subtract(value1, value2), sqrt)
  }

  /** `Point2.Lerp`: the vector `Lerp` of the two points' vectors, made a point again. */
  function Lerp(value1: Point2<real>, value2: Point2<real>, amount: real): (r: Point2<real>)
    ensures AsVector2(r) == Vector2.Lerp(AsVector2(value1), AsVector2(value2), amount)
    ensures amount == 0.0 ==> r == value1
    ensures amount == 1.0 ==> r == value2
  {
    var combination := Vector2.Lerp(AsVector2(value1), AsVector2(value2), amount);
    CreateFromVector(combination)
  }

  /** `Equals(Point2<TScalar>)`: coordinate-wise equality, which is structural equality. */
  function Equals<S(==)>(left: Point2<S>, other: Point2<S>): (r: bool)
    ensures r <==> left == other
  {
    left.x == other.x && left.y == other.y
  }

  /** `operator ==`. */
  function EqualityOperator<S(==)>(left: Point2<S>, right: Point2<S>): (r: bool)
    ensures r <==> left == right
  {
    Equals(left, right)
  }

  /** `operator !=`. */
  function InequalityOperator<S(==)>(left: Point2<S>, right: Point2<S>): (r: bool)
    ensures r <==> left != right
  {
    !Equals(left, right)
  }

  /** Equality is reflexive and symmetric. */
  lemma EqualsIsSymmetric<S>(left: Point2<S>, right: Point2<S>)
    ensures Equals(left, left)
    ensures Equals(left, right) == Equals(right, left)
  {
  }

  /** Subtracting a vector undoes adding it, and adding it undoes subtracting it. */
  lemma SubtractVectorUndoesAdd(point: Point2<real>, vector: Vector2.Vector2<real>)
    ensures SubtractVector(Add(point, vector), vector) == point
    ensures Add(SubtractVector(point, vector), vector) == point
  {
  }

  /** A point minus itself is the zero vector. */
  lemma SubtractSelf(point: Point2<real>)
    ensures Subtract(point, point) == Vector2.Zero()
  {
  }

  /** The distance does not depend on the order of the points. */
  lemma DistanceSquaredSymmetric(value1: Point2<real>, value2: Point2<real>)
    ensures DistanceSquared(value1, value2) == DistanceSquared(value2, value1)
  {
    var d, e := Subtract(value1, value2), Subtract(value2, value1);
    assert e.x == -d.x && e.y == -d.y;
    MulNegates(d.x, d.x);
    MulNegates(d.y, d.y);
  }

  /** Interpolating between a point and itself gives that point, whatever the amount. */
  lemma LerpSame(point: Point2<real>, amount: real)
    ensures Lerp(point, point, amount) == point
  {
    Vector2.LerpSame(AsVector2(point), amount);
  }

  /** `One` is `UnitX` translated by the vector of `UnitY`. */
  lemma OneIsSumOfUnits()
    ensures One() == Add(UnitX(), AsVector2(UnitY()))
  {
  }

  /** The values the tests expect: indexing, `+`, `-`, the distance and `Lerp`. */
  lemma Examples(sqrt: real -> real)
    requires IsSqrt(sqrt)
    ensures GetElement(Point2(5.0, 8.0), 0) == Success(5.0)
    ensures GetElement(Point2(5.0, 8.0), 1) == Success(8.0)
    ensures Add(Point2(3.0, 4.0), Vector2.Vector2(2.0, -5.0)) == Point2(5.0, -1.0)
    ensures Subtract(Point2(5.0, -1.0), Point2(3.0, 4.0)) == Vector2.Vector2(2.0, -5.0)
    ensures DistanceSquared(Point2(-1.0, -2.0), Point2(3.0, 1.0)) == 25.0
    ensures Distance(Point2(-1.0, -2.0), Point2(3.0, 1.0), sqrt) == 5.0
    ensures Lerp(Point2(-2.0, -1.0), Point2(1.0, 5.0), 2.0 / 3.0) == Point2(0.0, 3.0)
  {
    var d := Subtract(Point2(-1.0, -2.0), Point2(3.0, 1.0));
    assert d == Vector2.Vector2(-4.0, -3.0);
    assert Mul(-4.0, -4.0) == 16.0 && Mul(-3.0, -3.0) == 9.0 && Mul(5.0, 5.0) == 25.0;
    SqrtUnique(sqrt, 25.0, 5.0);
    var r := Lerp(Point2(-2.0, -1.0), Point2(1.0, 5.0), 2.0 / 3.0);
    assert Mul(-2.0, 1.0 - 2.0 / 3.0) + Mul(1.0, 2.0 / 3.0) == 0.0;
    assert Mul(-1.0, 1.0 - 2.0 / 3.0) + Mul(5.0, 2.0 / 3.0) == 3.0;
    assert r.x == 0.0 && r.y == 3.0;
  }
}
