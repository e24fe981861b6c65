/**
 * The two-component vector `Vector2<TScalar>` and the static class `Vector2`.
 * Arithmetic is over exact reals.
 */
module Vector2 {
  import opened Results
  import opened Numerics
  import ThrowHelpers

  /** The number of components of a `Vector2`. */
  const Count: nat := 2

  /**
   * An immutable pair of components. The xy constructor is `Vector2(x, y)`;
   * the properties X and Y are the fields `x` and `y`.
   */
  datatype Vector2<S> = Vector2(x: S, y: S)

  /** The components in memory order, as the unchecked accessor walks them from `_x`. */
  function Elements<S>(v: Vector2<S>): (r: seq<S>)
    ensures |r| == Count
  {
    [v.x, v.y]
  }

  /** The broadcast constructor `Vector2(value)`: every component is `value`. */
  function Broadcast<S>(value: S): (r: Vector2<S>)
    ensures forall i | 0 <= i < Count :: Elements(r)[i] == value
  {
    Vector2(value, value)
  }

  /** The unchecked accessor; its callers guarantee `0 <= index < Count`. */
  function GetElementUnsafe<S>(v: Vector2<S>, index: nat): (r: S)
    requires index < Count
    ensures r == Elements(v)[index]
  {
    if index == 0 then v.x else v.y
  }

  /** The checked accessor behind the indexer: one unsigned comparison, then the unchecked read. */
  function GetElement<S>(v: Vector2<S>, index: int32): (r: Result<S>)
    ensures r.Success? <==> 0 <= index as int < Count
    ensures r.Success? ==> r.value == Elements(v)[index as int]
    ensures r.Failure? ==> r.error == ArgumentOutOfRange("(uint)index")
  {
    ThrowHelpers.UnsignedRangeCheck(index, Count as uint32, "(uint)index");
    match ThrowHelpers.ThrowIfGreaterThanOrEqual(AsUInt32(index), Count as uint32, "(uint)index")
    case Fail(e) => Failure(e)
    case Pass => Success(GetElementUnsafe(v, index as int))
  }

  /** The zero vector. */
  function Zero(): (r: Vector2<real>)
    ensures forall i | 0 <= i < Count :: Elements(r)[i] == 0.0
  {
    Broadcast(0.0)
  }

  /** `left + right`. */
  function Add(left: Vector2<real>, right: Vector2<real>): (r: Vector2<real>)
    ensures forall i | 0 <= i < Count :: Elements(r)[i] == Elements(left)[i] + Elements(right)[i]
  {
    Vector2(left.x + right.x, left.y + right.y)
  }

  /** `left - right`: the vector that, added to `right`, gives `left`. */
  function Subtract(left: Vector2<real>, right: Vector2<real>): (r: Vector2<real>)
    ensures Add(r, right) == left
  {
    Vector2(left.x - right.x, left.y - right.y)
  }

  /** Component-wise `left * right`. */
  function Multiply(left: Vector2<real>, right: Vector2<real>): (r: Vector2<real>)
    ensures forall i | 0 <= i < Count :: Elements(r)[i] == Mul(Elements(left)[i], Elements(right)[i])
  {
    Vector2(Mul(left.x, right.x), Mul(left.y, right.y))
  }

  /** Component-wise `left / right`: the vector that, multiplied by `right`, gives `left`. */
  function Divide(left: Vector2<real>, right: Vector2<real>): (r: Vector2<real>)
    requires right.x != 0.0 && right.y != 0.0
    ensures Multiply(r, right) == left
  {
    var r := Vector2(left.x / right.x, left.y / right.y);
    DivMulCancel(left.x, right.x);
    DivMulCancel(left.y, right.y);
    assert Multiply(r, right).x == left.x && Multiply(r, right).y == left.y;
    r
  }

  /** Unary `-value`: the additive inverse. */
  function Negate(value: Vector2<real>): (r: Vector2<real>)
    ensures Add(value, r) == Zero()
  {
    Vector2(-value.x, -value.y)
  }

  /** `vector * scalar`, computed as `vector * new Vector2(scalar)`. */
  function Scale(vector: Vector2<real>, scalar: real): (r: Vector2<real>)
    ensures forall i | 0 <= i < Count :: Elements(r)[i] == Mul(Elements(vector)[i], scalar)
  {
    Multiply(vector, Broadcast(scalar))
  }

  /** `scalar * vector`, computed as `new Vector2(scalar) * vector`: the same as `vector * scalar`. */
  function ScaleLeft(scalar: real, vector: Vector2<real>): (r: Vector2<real>)
    ensures r == Scale(vector, scalar)
  {
    MulCommutes(scalar, vector.x);
    MulCommutes(scalar, vector.y);
    Multiply(Broadcast(scalar), vector)
  }

  /** `vector / scalar`, computed as `vector / new Vector2(scalar)`: undoes `vector * scalar`. */
  function DivideByScalar(vector: Vector2<real>, scalar: real): (r: Vector2<real>)
    requires scalar != 0.0
    ensures Scale(r, scalar) == vector
  {
    Divide(vector, Broadcast(scalar))
  }

  /**
   * `Vector2.Dot`: the sum of the component-wise products. A vector's dot product
   * with itself is never negative and is zero only for the zero vector; the dot
   * product with the zero vector is zero.
   */
  function Dot(left: Vector2<real>, right: Vector2<real>): (r: real)
    ensures left == right ==> 0.0 <= r && (r == 0.0 <==> left == Zero())
    ensures right == Zero() ==> r == 0.0
  {
    Square(left.x);
    Square(left.y);
    MulIdentities(left.x);
    MulIdentities(left.y);
    Mul(left.x, right.x) + Mul(left.y, right.y)
  }

  /** `LengthSquared`: `Dot(value, value)`, never negative, and zero only for the zero vector. */
  function LengthSquared(value: Vector2<real>): (r: real)
    ensures 0.0 <= r
    ensures r == 0.0 <==> value == Zero()
  {
    Square(value.x);
    Square(value.y);
    Dot(value, value)
  }

  /** `Length`, given the scalar type's square root: the non-negative root of `LengthSquared`. */
  function Length(value: Vector2<real>, sqrt: real -> real): (r: real)
    ensures IsSqrt(sqrt) ==> 0.0 <= r && Mul(r, r) == LengthSquared(value)
    ensures IsSqrt(sqrt) ==> (r == 0.0 <==> value == Zero())
  {
    var r := sqrt(LengthSquared(value));
    Square(r);
    r
  }

  /** `Normalize`: `value / Length(value)`, which points the same way as `value`. */
  function Normalize(value: Vector2<real>, sqrt: real -> real): (r: Vector2<real>)
    requires Length(value, sqrt) != 0.0
    ensures Scale(r, Length(value, sqrt)) == value
  {
    DivideByScalar(value, Length(value, sqrt))
  }

  /** With a true square root, a normalized vector has length one. */
  lemma NormalizeIsUnit(value: Vector2<real>, sqrt: real -> real)
    requires IsSqrt(sqrt) && Length(value, sqrt) != 0.0
    ensures LengthSquared(Normalize(value, sqrt)) == 1.0
  {
    var length := Length(value, sqrt);
    var r := Normalize(value, sqrt);
    var m := Mul(length, length);
    assert r.x == value.x / length && r.y == value.y / length;
    MulQuotients(value.x, value.x, length, length);
    MulQuotients(value.y, value.y, length, length);
    MulDistributesRight(Mul(r.x, r.x), Mul(r.y, r.y), m);
    Square(length);
    MulCancelOne(LengthSquared(r), m);
  }

  /** `Lerp(value1, value2, amount) = value1 * (1 - amount) + value2 * amount`. */
  function Lerp(value1: Vector2<real>, value2: Vector2<real>, amount: real): (r: Vector2<real>)
    ensures amount == 0.0 ==> r == value1
    ensures amount == 1.0 ==> r == value2
  {
    var r := Add(Scale(value1, 1.0 - amount), Scale(value2, amount));
    MulIdentities(value1.x);
    MulIdentities(value1.y);
    MulIdentities(value2.x);
    MulIdentities(value2.y);
    assert amount == 0.0 ==> r.x == value1.x && r.y == value1.y;
    assert amount == 1.0 ==> r.x == value2.x && r.y == value2.y;
    r
  }

  /** Interpolating between a vector and itself gives that vector, whatever the amount. */
  lemma LerpSame(value: Vector2<real>, amount: real)
    ensures Lerp(value, value, amount) == value
  {
    MulDistributesLeft(value.x, 1.0 - amount, amount);
    MulDistributesLeft(value.y, 1.0 - amount, amount);
    var r := Lerp(value, value, amount);
    assert r.x == value.x && r.y == value.y;
  }

  /** `Equals(Vector2<TScalar>)`: component-wise equality, which is structural equality. */
  function Equals<S(==)>(left: Vector2<S>, other: Vector2<S>): (r: bool)
    ensures r <==> left == other
  {
    left.x == other.x && left.y == other.y
  }

  /** `operator ==`. */
  function EqualityOperator<S(==)>(left: Vector2<S>, right: Vector2<S>): (r: bool)
    ensures r <==> left == right
  {
    Equals(left, right)
  }

  /** `operator !=`. */
  function InequalityOperator<S(==)>(left: Vector2<S>, right: Vector2<S>): (r: bool)
    ensures r <==> left != right
  {
    !Equals(left, right)
  }

  /** Equality is reflexive and symmetric. */
  lemma EqualsIsSymmetric<S>(left: Vector2<S>, right: Vector2<S>)
    ensures Equals(left, left)
    ensures Equals(left, right) == Equals(right, left)
  {
  }

  lemma DotSymmetric(left: Vector2<real>, right: Vector2<real>)
    ensures Dot(left, right) == Dot(right, left)
  {
    MulCommutes(left.x, right.x);
    MulCommutes(left.y, right.y);
  }

  lemma DotZero(value: Vector2<real>)
    ensures Dot(value, Zero()) == 0.0 && Dot(Zero(), value) == 0.0
  {
  }

  lemma AddZero(value: Vector2<real>)
    ensures Add(value, Zero()) == value && Add(Zero(), value) == value
  {
  }

  lemma SubtractAddCancel(value: Vector2<real>, other: Vector2<real>)
    ensures Subtract(Add(value, other), other) == value
  {
  }

  lemma SubtractIsAddNegate(left: Vector2<real>, right: Vector2<real>)
    ensures Subtract(left, right) == Add(left, Negate(right))
  {
  }

  lemma ScaleDivideCancel(value: Vector2<real>, scalar: real)
    requires scalar != 0.0
    ensures DivideByScalar(Scale(value, scalar), scalar) == value
  {
    MulDivCancel(value.x, scalar);
    MulDivCancel(value.y, scalar);
    var r := DivideByScalar(Scale(value, scalar), scalar);
    assert r.x == value.x && r.y == value.y;
  }

  /** The values the tests expect of `Dot`. */
  lemma DotExamples()
    ensures Dot(Vector2(2.0, 3.0), Vector2(6.0, -4.0)) == 0.0
    ensures Dot(Vector2(2.0, 3.0), Vector2(5.0, 7.0)) == 31.0
    ensures Dot(Vector2(3.0, 4.0), Vector2(3.0, 4.0)) == 25.0
  {
  }
}
