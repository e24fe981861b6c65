/**
 * The three-dimensional affine point `Point3<TScalar>` and the static class `Point3`.
 * A point is translated by a `Vector3`, and the difference of two points is a `Vector3`.
 */
module Point3 {
  import opened Results
  import opened Numerics
  import ThrowHelpers
  import Vector3
  import Point2

  /** `Point3.Count`, defined as `Vector3.Count`. */
  const Count: nat := Vector3.Count

  /**
   * An immutable triple of coordinates. The xyz constructor and `Point3.Create(x, y, z)`
   * are `Point3(x, y, z)`; the properties X, Y and Z are the fields `x`, `y` and `z`.
   */
  datatype Point3<S> = Point3(x: S, y: S, z: S)

  /** The coordinates in memory order, as the unchecked accessor walks them from `_x`. */
  function Elements<S>(p: Point3<S>): (r: seq<S>)
    ensures |r| == Count
  {
    [p.x, p.y, p.z]
  }

  /** `Point3.Create(value)`: every coordinate is `value`. */
  function Broadcast<S>(value: S): (r: Point3<S>)
    ensures forall i | 0 <= i < Count :: Elements(r)[i] == value
  {
    Point3(value, value, value)
  }

  /**
   * The span constructor `Point3(ReadOnlySpan elements)` as written: the length is
   * checked against `Point2.Count`, so a two-element span passes the check and the
   * read of the third element then fails.
   */
  function FromSpanAsWritten<S>(elements: seq<S>): (r: Result<Point3<S>>)
    ensures |elements| < Point2.Count ==> r == Failure(ArgumentOutOfRange("elements"))
    ensures |elements| == Point2.Count ==> r == Failure(IndexOutOfRange)
    ensures |elements| >= Count ==> r.Success? && Elements(r.value) == elements[..Count]
  {
    if |elements| < Point2.Count then ThrowHelpers.ThrowArgumentOutOfRangeException("elements")
    else if |elements| <= 2 then Failure(IndexOutOfRange)
    else Success(Point3(elements[0], elements[1], elements[2]))
  }

  /**
   * The span constructor with the check against `Point3.Count` that its reads need:
   * a span shorter than `Count` is rejected as an argument error; otherwise the first
   * three elements are taken and the rest ignored.
   */
  function FromSpan<S>(elements: seq<S>): (r: Result<Point3<S>>)
    ensures r.Success? <==> |elements| >= Count
    ensures r.Success? ==> Elements(r.value) == elements[..Count]
    ensures r.Failure? ==> r.error == ArgumentOutOfRange("elements")
  {
    if |elements| < Count then ThrowHelpers.ThrowArgumentOutOfRangeException("elements")
    else Success(Point3(elements[0], elements[1], elements[2]))
  }

  /** The two span constructors differ only on spans of length two. */
  lemma FromSpanAsWrittenDiffersOnlyAtTwo<S>(elements: seq<S>)
    ensures FromSpanAsWritten(elements) == FromSpan(elements) <==> |elements| != Point2.Count
  {
  }

  /** A concrete span on which the constructor as written fails with the wrong error. */
  lemma FromSpanAsWrittenCounterexample()
    ensures FromSpanAsWritten([1.0, 2.0]) == Failure(IndexOutOfRange)
    ensures FromSpan([1.0, 2.0]) == Failure(ArgumentOutOfRange("elements"))
  {
  }

  /**
   * `Point3.Create(ReadOnlySpan values)`: checked against `Count`, reporting the
   * parameter `values`.
   */
  function CreateFromSpan<S>(values: seq<S>): (r: Result<Point3<S>>)
    ensures r.Success? <==> |values| >= Count
    ensures r.Success? ==> Elements(r.value) == values[..Count]
    ensures r.Failure? ==> r.error == ArgumentOutOfRange("values")
  {
    if |values| < Count then ThrowHelpers.ThrowArgumentOutOfRangeException("values")
    else Success(Point3(values[0], values[1], values[2]))
  }

  /** `AsVector3`: the vector with the same coordinates; `Create(vector)` undoes it. */
  function AsVector3<S>(point: Point3<S>): (r: Vector3.Vector3<S>)
    ensures Vector3.Elements(r) == Elements(point)
    ensures CreateFromVector(r) == point
  {
    Vector3.Vector3(point.x, point.y, point.z)
  }

  /** `Point3.Create(vector)`: the point with the vector's coordinates; `AsVector3` undoes it. */
  function CreateFromVector<S>(vector: Vector3.Vector3<S>): (r: Point3<S>)
    ensures Elements(r) == Vector3.Elements(vector)
    ensures Vector3.Vector3(r.x, r.y, r.z) == vector
  {
    Point3(vector.x, vector.y, vector.z)
  }

  /** The unchecked accessor; its callers guarantee `0 <= index < Count`. */
  function GetElementUnsafe<S>(point: Point3<S>, index: nat): (r: S)
    requires index < Count
    ensures r == Elements(point)[index]
  {
    if index == 0 then point.x else if index == 1 then point.y else point.z
  }

  /** `GetElement`, behind the indexer: one unsigned comparison, then the unchecked read. */
  function GetElement<S>(point: Point3<S>, index: int32): (r: Result<S>)
    ensures r.Success? <==> 0 <= index as int < Count
    ensures r.Success? ==> r.value == Elements(point)[index as int]
    ensures r.Failure? ==> r.error == ArgumentOutOfRange("(uint)index")
  {
    ThrowHelpers.UnsignedRangeCheck(index, Count as uint32, "(uint)index");
    match ThrowHelpers.ThrowIfGreaterThanOrEqual(AsUInt32(index), Count as uint32, "(uint)index")
    case Fail(e) => Failure(e)
    case Pass => Success(GetElementUnsafe(point, index as int))
  }

  /** `Point3.Zero`: the origin. */
  function Zero(): (r: Point3<real>)
    ensures AsVector3(r) == Vector3.AdditiveIdentity()
  {
    Broadcast(0.0)
  }

  /** `Point3.One`: every coordinate is one. */
  function One(): (r: Point3<real>)
    ensures forall i | 0 <= i < Count :: Elements(r)[i] == 1.0
  {
    Broadcast(1.0)
  }

  /** `Point3.UnitX`: one along X, zero along Y and Z. */
  function UnitX(): (r: Point3<real>)
    ensures Elements(r) == [1.0, 0.0, 0.0]
  {
    Point3(1.0, 0.0, 0.0)
  }

  /** `Point3.UnitY`: one along Y, zero along X and Z. */
  function UnitY(): (r: Point3<real>)
    ensures Elements(r) == [0.0, 1.0, 0.0]
  {
    Point3(0.0, 1.0, 0.0)
  }

  /** `Point3.UnitZ`: one along Z, zero along X and Y. */
  function UnitZ(): (r: Point3<real>)
    ensures Elements(r) == [0.0, 0.0, 1.0]
  {
    Point3(0.0, 0.0, 1.0)
  }

  /** `Point3.Add(point, vector)`, the `+` operator: translation, the vector sum on coordinates. */
  function Add(left: Point3<real>, right: Vector3.Vector3<real>): (r: Point3<real>)
    ensures AsVector3(r) == Vector3.Add(AsVector3(left), right)
  {
    Point3(left.x + right.x, left.y + right.y, left.z + right.z)
  }

  /** `Point3.Subtract(point, point)`, the `-` operator: the vector that translates `right` to `left`. */
  function Subtract(left: Point3<real>, right: Point3<real>): (r: Vector3.Vector3<real>)
    ensures Add(right, r) == left
  {
    Vector3.Vector3(left.x - right.x, left.y - right.y, left.z - right.z)
  }

  /** `Point3.Subtract(point, vector)`, the `-` operator: the point that `right` translates to `left`. */
  function SubtractVector(left: Point3<real>, right: Vector3.Vector3<real>): (r: Point3<real>)
    ensures Add(r, right) == left
  {
    Point3(left.x - right.x, left.y - right.y, left.z - right.z)
  }

  /** `DistanceSquared`: the squared length of the difference, zero exactly for equal points. */
  function DistanceSquared(value1: Point3<real>, value2: Point3<real>): (r: real)
    ensures 0.0 <= r
    ensures r == 0.0 <==> value1 == value2
  {
    var d := Subtract(value1, value2);
    assert d == Vector3.AdditiveIdentity() ==>
      value1.x == value2.x && value1.y == value2.y && value1.z == value2.z;
    Vector3.LengthSquared(d)
  }

  /** `Distance`, given the scalar type's square root: the non-negative root of `DistanceSquared`. */
  function Distance(value1: Point3<real>, value2: Point3<real>, sqrt: real -> real): (r: real)
    ensures IsSqrt(sqrt) ==> 0.0 <= r && Mul(r, r) == DistanceSquared(value1, value2)
    ensures IsSqrt(sqrt) ==> (r == 0.0 <==> value1 == value2)
  {
    Vector3.Length(Subtract(value1, value2), sqrt)
  }

  /** `Point3.Lerp`: the vector `Lerp` of the two points' vectors, made a point again. */
  function Lerp(value1: Point3<real>, value2: Point3<real>, amount: real): (r: Point3<real>)
    ensures AsVector3(r) == Vector3.Lerp(AsVector3(value1), AsVector3(value2), amount)
    ensures amount == 0.0 ==> r == value1
    ensures amount == 1.0 ==> r == value2
  {
    var combination := Vector3.Lerp(AsVector3(value1), AsVector3(value2), amount);
    CreateFromVector(combination)
  }

  /** `Equals(Point3<TScalar>)`: coordinate-wise equality, which is structural equality. */
  function Equals<S(==)>(left: Point3<S>, other: Point3<S>): (r: bool)
    ensures r <==> left == other
  {
    left.x == other.x && left.y == other.y && left.z == other.z
  }

  /** `operator ==`. */
  function EqualityOperator<S(==)>(left: Point3<S>, right: Point3<S>): (r: bool)
    ensures r <==> left == right
  {
    Equals(left, right)
  }

  /** `operator !=`. */
  function InequalityOperator<S(==)>(left: Point3<S>, right: Point3<S>): (r: bool)
    ensures r <==> left != right
  {
    !Equals(left, right)
  }

  /** Equality is reflexive and symmetric. */
  lemma EqualsIsSymmetric<S>(left: Point3<S>, right: Point3<S>)
    ensures Equals(left, left)
    ensures Equals(left, right) == Equals(right, left)
  {
  }

  /** Subtracting a vector undoes adding it, and adding it undoes subtracting it. */
  lemma SubtractVectorUndoesAdd(point: Point3<real>, vector: Vector3.Vector3<real>)
    ensures SubtractVector(Add(point, vector), vector) == point
    ensures Add(SubtractVector(point, vector), vector) == point
  {
  }

  /** A point minus itself is the zero vector. */
  lemma SubtractSelf(point: Point3<real>)
    ensures Subtract(point, point) == Vector3.AdditiveIdentity()
  {
  }

  /** The distance does not depend on the order of the points. */
  lemma DistanceSquaredSymmetric(value1: Point3<real>, value2: Point3<real>)
    ensures DistanceSquared(value1, value2) == DistanceSquared(value2, value1)
  {
    var d, e := Subtract(value1, value2), Subtract(value2, value1);
    assert e.x == -d.x && e.y == -d.y && e.z == -d.z;
    MulNegates(d.x, d.x);
    MulNegates(d.y, d.y);
    MulNegates(d.z, d.z);
  }

  /** Interpolating between a point and itself gives that point, whatever the amount. */
  lemma LerpSame(point: Point3<real>, amount: real)
    ensures Lerp(point, point, amount) == point
  {
    Vector3.LerpSame(AsVector3(point), amount);
  }

  /** `One` is `UnitX` translated by the vectors of `UnitY` and `UnitZ`. */
  lemma OneIsSumOfUnits()
    ensures One() == Add(Add(UnitX(), AsVector3(UnitY())), AsVector3(UnitZ()))
  {
  }
}
