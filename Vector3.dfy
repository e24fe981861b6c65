/**
 * The three-component vector `Vector3<TScalar>` and the static class `Vector3`.
 * Arithmetic is over exact reals.
 */
module Vector3 {
  import opened Results
  import opened Numerics
  import ThrowHelpers

  /** `Vector3.Count`: the number of components. */
  const Count: nat := 3

  /**
   * An immutable triple of components. The xyz constructor is `Vector3(x, y, z)`;
   * the properties X, Y and Z are the fields `x`, `y` and `z`.
   */
  datatype Vector3<S> = Vector3(x: S, y: S, z: S)

  /** The components in memory order, as the unchecked accessor walks them from `_x`. */
  function Elements<S>(v: Vector3<S>): (r: seq<S>)
    ensures |r| == Count
  {
    [v.x, v.y, v.z]
  }

  /** The broadcast constructor `Vector3(value)`: every component is `value`. */
  function Broadcast<S>(value: S): (r: Vector3<S>)
    ensures forall i | 0 <= i < Count :: Elements(r)[i] == value
  {
    Vector3(value, value, value)
  }

  /**
   * The span constructor `Vector3(ReadOnlySpan values)`: a span shorter than `Count`
   * is rejected; otherwise the first three elements are taken and the rest ignored.
   */
  function FromSpan<S>(values: seq<S>): (r: Result<Vector3<S>>)
    ensures r.Success? <==> |values| >= Count
    ensures r.Success? ==> Elements(r.value) == values[..Count]
    ensures r.Failure? ==> r.error == ArgumentOutOfRange("values")
  {
    if |values| < Count then ThrowHelpers.ThrowArgumentOutOfRangeException("values")
    else Success(Vector3(values[0], values[1], values[2]))
  }

  /** The unchecked accessor; its callers guarantee `0 <= index < Count`. */
  function GetElementUnsafe<S>(v: Vector3<S>, index: nat): (r: S)
    requires index < Count
    ensures r == Elements(v)[index]
  {
    if index == 0 then v.x else if index == 1 then v.y else v.z
  }

  /** `GetElement`, behind the indexer: one unsigned comparison, then the unchecked read. */
  function GetElement<S>(v: Vector3<S>, index: int32): (r: Result<S>)
    ensures r.Success? <==> 0 <= index as int < Count
    ensures r.Success? ==> r.value == Elements(v)[index as int]
    ensures r.Failure? ==> r.error == ArgumentOutOfRange("(uint)index")
  {
    ThrowHelpers.UnsignedRangeCheck(index, Count as uint32, "(uint)index");
    match ThrowHelpers.ThrowIfGreaterThanOrEqual(AsUInt32(index), Count as uint32, "(uint)index")
    case Fail(e) => Failure(e)
    case Pass => Success(GetElementUnsafe(v, index as int))
  }

  /** `AdditiveIdentity`: the broadcast of the scalar zero. */
  function AdditiveIdentity(): (r: Vector3<real>)
    ensures forall i | 0 <= i < Count :: Elements(r)[i] == 0.0
  {
    Broadcast(0.0)
  }

  /** `left + right`. */
  function Add(left: Vector3<real>, right: Vector3<real>): (r: Vector3<real>)
    ensures forall i | 0 <= i < Count :: Elements(r)[i] == Elements(left)[i] + Elements(right)[i]
  {
    Vector3(left.x + right.x, left.y + right.y, left.z + right.z)
  }

  /** `left - right`: the vector that, added to `right`, gives `left`. */
  function Subtract(left: Vector3<real>, right: Vector3<real>): (r: Vector3<real>)
    ensures Add(r, right) == left
  {
    Vector3(left.x - right.x, left.y - right.y, left.z - right.z)
  }

  /** Component-wise `left * right`. */
  function Multiply(left: Vector3<real>, right: Vector3<real>): (r: Vector3<real>)
    ensures forall i | 0 <= i < Count :: Elements(r)[i] == Mul(Elements(left)[i], Elements(right)[i])
  {
    Vector3(Mul(left.x, right.x), Mul(left.y, right.y), Mul(left.z, right.z))
  }

  /** Component-wise `left / right`: the vector that, multiplied by `right`, gives `left`. */
  function Divide(left: Vector3<real>, right: Vector3<real>): (r: Vector3<real>)
    requires right.x != 0.0 && right.y != 0.0 && right.z != 0.0
    ensures Multiply(r, right) == left
  {
    var r := Vector3(left.x / right.x, left.y / right.y, left.z / right.z);
    DivMulCancel(left.x, right.x);
    DivMulCancel(left.y, right.y);
    DivMulCancel(left.z, right.z);
    var p := Multiply(r, right);
    assert p.x == left.x && p.y == left.y && p.z == left.z;
    r
  }

  /** Unary `-value`: the additive inverse. */
  function Negate(value: Vector3<real>): (r: Vector3<real>)
    ensures Add(value, r) == AdditiveIdentity()
  {
    Vector3(-value.x, -value.y, -value.z)
  }

  /** `left * right` for a scalar `right`, computed as `left * new Vector3(right)`. */
  function Scale(left: Vector3<real>, right: real): (r: Vector3<real>)
    ensures forall i | 0 <= i < Count :: Elements(r)[i] == Mul(Elements(left)[i], right)
  {
    Multiply(left, Broadcast(right))
  }

  /** `scalar * vector`, computed as `new Vector3(scalar) * vector`: the same as `vector * scalar`. */
  function ScaleLeft(scalar: real, vector: Vector3<real>): (r: Vector3<real>)
    ensures r == Scale(vector, scalar)
  {
    MulCommutes(scalar, vector.x);
    MulCommutes(scalar, vector.y);
    MulCommutes(scalar, vector.z);
    Multiply(Broadcast(scalar), vector)
  }

  /** `left / right` for a scalar `right`, computed as `left / new Vector3(right)`: undoes `left * right`. */
  function DivideByScalar(left: Vector3<real>, right: real): (r: Vector3<real>)
    requires right != 0.0
    ensures Scale(r, right) == left
  {
    Divide(left, Broadcast(right))
  }

  /**
   * `Vector3.Dot`: the sum of the component-wise products. A vector's dot product
   * with itself is never negative and is zero only for the zero vector; the dot
   * product with the zero vector is zero.
   */
  function Dot(left: Vector3<real>, right: Vector3<real>): (r: real)
    ensures left == right ==> 0.0 <= r && (r == 0.0 <==> left == AdditiveIdentity())
    ensures right == AdditiveIdentity() ==> r == 0.0
  {
    Square(left.x);
    Square(left.y);
    Square(left.z);
    MulIdentities(left.x);
    MulIdentities(left.y);
    MulIdentities(left.z);
    Mul(left.x, right.x) + Mul(left.y, right.y) + Mul(left.z, right.z)
  }

  /** `LengthSquared`: `Dot(this, this)`, never negative, and zero only for the zero vector. */
  function LengthSquared(value: Vector3<real>): (r: real)
    ensures 0.0 <= r
    ensures r == 0.0 <==> value == AdditiveIdentity()
  {
    Square(value.x);
    Square(value.y);
    Square(value.z);
    Dot(value, value)
  }

  /** `Length`, given the scalar type's square root: the non-negative root of `LengthSquared`. */
  function Length(value: Vector3<real>, sqrt: real -> real): (r: real)
    ensures IsSqrt(sqrt) ==> 0.0 <= r && Mul(r, r) == LengthSquared(value)
    ensures IsSqrt(sqrt) ==> (r == 0.0 <==> value == AdditiveIdentity())
  {
    var r := sqrt(LengthSquared(value));
    Square(r);
    r
  }

  /** `Normalize`: `value / value.Length()`, which points the same way as `value`. */
  function Normalize(value: Vector3<real>, sqrt: real -> real): (r: Vector3<real>)
    requires Length(value, sqrt) != 0.0
    ensures Scale(r, Length(value, sqrt)) == value
  {
    DivideByScalar(value, Length(value, sqrt))
  }

  /** With a true square root, a normalized vector has length one. */
  lemma NormalizeIsUnit(value: Vector3<real>, sqrt: real -> real)
    requires IsSqrt(sqrt) && Length(value, sqrt) != 0.0
    ensures LengthSquared(Normalize(value, sqrt)) == 1.0
  {
    var length := Length(value, sqrt);
    var r := Normalize(value, sqrt);
    var m := Mul(length, length);
    assert r.x == value.x / length && r.y == value.y / length && r.z == value.z / length;
    MulQuotients(value.x, value.x, length, length);
    MulQuotients(value.y, value.y, length, length);
    MulQuotients(value.z, value.z, length, length);
    MulDistributesRight(Mul(r.x, r.x), Mul(r.y, r.y), m);
    MulDistributesRight(Mul(r.x, r.x) + Mul(r.y, r.y), Mul(r.z, r.z), m);
    Square(length);
    MulCancelOne(LengthSquared(r), m);
  }

  /** `Lerp(value1, value2, amount) = value1 * (1 - amount) + value2 * amount`. */
  function Lerp(value1: Vector3<real>, value2: Vector3<real>, amount: real): (r: Vector3<real>)
    ensures amount == 0.0 ==> r == value1
    ensures amount == 1.0 ==> r == value2
  {
    var r := Add(Scale(value1, 1.0 - amount), Scale(value2, amount));
    MulIdentities(value1.x);
    MulIdentities(value1.y);
    MulIdentities(value1.z);
    MulIdentities(value2.x);
    MulIdentities(value2.y);
    MulIdentities(value2.z);
    assert amount == 0.0 ==> r.x == value1.x && r.y == value1.y && r.z == value1.z;
    assert amount == 1.0 ==> r.x == value2.x && r.y == value2.y && r.z == value2.z;
    r
  }

  /** Interpolating between a vector and itself gives that vector, whatever the amount. */
  lemma LerpSame(value: Vector3<real>, amount: real)
    ensures Lerp(value, value, amount) == value
  {
    MulDistributesLeft(value.x, 1.0 - amount, amount);
    MulDistributesLeft(value.y, 1.0 - amount, amount);
    MulDistributesLeft(value.z, 1.0 - amount, amount);
    var r := Lerp(value, value, amount);
    assert r.x == value.x && r.y == value.y && r.z == value.z;
  }

  /** `Equals(Vector3<TScalar>)`: component-wise equality, which is structural equality. */
  function Equals<S(==)>(left: Vector3<S>, other: Vector3<S>): (r: bool)
    ensures r <==> left == other
  {
    left.x == other.x && left.y == other.y && left.z == other.z
  }

  /** `operator ==`. */
  function EqualityOperator<S(==)>(left: Vector3<S>, right: Vector3<S>): (r: bool)
    ensures r <==> left == right
  {
    Equals(left, right)
  }

  /** `operator !=`. */
  function InequalityOperator<S(==)>(left: Vector3<S>, right: Vector3<S>): (r: bool)
    ensures r <==> left != right
  {
    !Equals(left, right)
  }

  /** Equality is reflexive and symmetric. */
  lemma EqualsIsSymmetric<S>(left: Vector3<S>, right: Vector3<S>)
    ensures Equals(left, left)
    ensures Equals(left, right) == Equals(right, left)
  {
  }

  lemma DotSymmetric(left: Vector3<real>, right: Vector3<real>)
    ensures Dot(left, right) == Dot(right, left)
  {
    MulCommutes(left.x, right.x);
    MulCommutes(left.y, right.y);
    MulCommutes(left.z, right.z);
  }

  lemma DotZero(value: Vector3<real>)
    ensures Dot(value, AdditiveIdentity()) == 0.0 && Dot(AdditiveIdentity(), value) == 0.0
  {
    MulIdentities(value.x);
    MulIdentities(value.y);
    MulIdentities(value.z);
  }

  /** The zero vector is the identity of `+` on both sides. */
  lemma AddIdentity(value: Vector3<real>)
    ensures Add(value, AdditiveIdentity()) == value && Add(AdditiveIdentity(), value) == value
  {
  }

  lemma SubtractAddCancel(value: Vector3<real>, other: Vector3<real>)
    ensures Subtract(Add(value, other), other) == value
  {
  }

  lemma SubtractIsAddNegate(left: Vector3<real>, right: Vector3<real>)
    ensures Subtract(left, right) == Add(left, Negate(right))
  {
  }

  lemma ScaleDivideCancel(value: Vector3<real>, scalar: real)
    requires scalar != 0.0
    ensures DivideByScalar(Scale(value, scalar), scalar) == value
  {
    MulDivCancel(value.x, scalar);
    MulDivCancel(value.y, scalar);
    MulDivCancel(value.z, scalar);
    var r := DivideByScalar(Scale(value, scalar), scalar);
    assert r.x == value.x && r.y == value.y && r.z == value.z;
  }

  /** The values the tests expect of `-`. */
  lemma SubtractExamples(value: Vector3<real>)
    ensures Subtract(Vector3(8.0, 5.0, 3.0), Vector3(5.0, 7.0, 11.0)) == Vector3(3.0, -2.0, -8.0)
    ensures Subtract(value, AdditiveIdentity()) == value
    ensures Subtract(value, value) == AdditiveIdentity()
  {
  }
}
