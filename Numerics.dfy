/**
 * Fixed-width integers of the host language, the helpers on scalars the geometry
 * needs, and one concrete checked conversion.
 */
module Numerics {
  import opened Results

  newtype int16 = x: int | -0x8000 <= x < 0x8000
  newtype int32 = x: int | -0x8000_0000 <= x < 0x8000_0000
  newtype uint32 = x: int | 0 <= x < 0x1_0000_0000

  /** C#'s unchecked cast `(uint)i`: the unsigned number with the same 32-bit pattern as `i`. */
  function AsUInt32(i: int32): (r: uint32)
    ensures (r as int - i as int) % 0x1_0000_0000 == 0
    ensures 0 <= i ==> r as int == i as int
    ensures i < 0 ==> r as int >= 0x8000_0000
  {
    if i < 0 then (i as int + 0x1_0000_0000) as uint32 else i as int as uint32
  }

  /** `TScalar.Abs`. */
  function Abs(x: real): (r: real)
    ensures 0.0 <= r && (r == x || r == -x)
  {
    if x < 0.0 then -x else x
  }

  /** Rounding toward zero, as a checked cast from a fractional scalar to an integer does. */
  function Truncate(x: real): (r: int)
    ensures 0.0 <= x ==> r as real <= x < r as real + 1.0
    ensures x < 0.0 ==> r as real - 1.0 < x <= r as real
  {
    if 0.0 <= x then x.Floor else -((-x).Floor)
  }

  /** `short.CreateChecked(x)` for a real-valued `x`: truncates, and overflows outside the range of `short`. */
  function CheckedInt16(x: real): (r: Option<int16>)
    ensures r.Some? <==> -0x8000 <= Truncate(x) < 0x8000
    ensures r.Some? ==> r.value as int == Truncate(x) && Abs(r.value as real - x) < 1.0
  {
    var t := Truncate(x);
    if -0x8000 <= t < 0x8000 then Some(t as int16) else None
  }

  /** `TAmount.CreateChecked(x)` for a `short` `x` and a real-valued amount type: never fails. */
  function Int16ToReal(x: int16): (r: Option<real>)
    ensures r == Some(x as real)
    ensures r.value.Floor == x as int
  {
    Some(x as real)
  }

  /**
   * `TTarget.CreateChecked(value)` for a conversion `convert` from `S` to `T`:
   * the converted value, or an `OverflowException` when `convert` has none.
   */
  function CreateChecked<S, T>(convert: S -> Option<T>, value: S): (r: Result<T>)
    ensures r.Success? <==> convert(value).Some?
    ensures r.Success? ==> r.value == convert(value).value
    ensures r.Failure? ==> r.error == Overflow
  {
    match convert(value)
    case None => Failure(Overflow)
    case Some(t) => Success(t)
  }

  /**
   * A pair of checked conversions that lose nothing: every `S` converts to `T`,
   * and converts back to itself.
   */
  ghost predicate ExactConversion<S(!new), T>(to: S -> Option<T>, from: T -> Option<S>) {
    forall s :: to(s).Some? && from(to(s).value) == Some(s)
  }

  /** The int16 conversions are exact. */
  lemma Int16ConversionIsExact()
    ensures ExactConversion(Int16ToReal, CheckedInt16)
  {
    forall s: int16 ensures Int16ToReal(s).Some? && CheckedInt16(Int16ToReal(s).value) == Some(s) {
      assert Truncate(s as real) == s as int;
    }
  }

  /**
   * The scalar product `a * b` of `TScalar`. Every product in the model goes through
   * this one function, so that facts about products are stated and proved once, below.
   */
  function Mul(a: real, b: real): real {
    a * b
  }

  lemma MulIdentities(a: real)
    ensures Mul(a, 1.0) == a && Mul(1.0, a) == a
    ensures Mul(a, 0.0) == 0.0 && Mul(0.0, a) == 0.0
  {
  }

  lemma MulCommutes(a: real, b: real)
    ensures Mul(a, b) == Mul(b, a)
  {
  }

  lemma MulNegates(a: real, b: real)
    ensures Mul(-a, -b) == Mul(a, b)
  {
  }

  lemma MulDistributesLeft(a: real, b: real, c: real)
    ensures Mul(a, b) + Mul(a, c) == Mul(a, b + c)
  {
  }

  lemma MulDistributesRight(a: real, b: real, c: real)
    ensures Mul(a, c) + Mul(b, c) == Mul(a + b, c)
  {
  }

  lemma MulPositive(a: real, b: real)
    requires 0.0 < a && 0.0 < b
    ensures 0.0 < Mul(a, b)
  {
  }

  lemma MulNegatives(a: real, b: real)
    requires a < 0.0 && b < 0.0
    ensures 0.0 < Mul(a, b)
  {
  }

  lemma MulMonotone(a: real, b: real, c: real)
    requires 0.0 <= a && b <= c
    ensures Mul(a, b) <= Mul(a, c)
  {
  }

  lemma MulStrictlyMonotone(a: real, b: real, c: real)
    requires 0.0 < c && a < b
    ensures Mul(a, c) < Mul(b, c)
  {
  }

  /** Dividing a product by one factor gives back the other. */
  lemma MulDivCancel(a: real, c: real)
    requires c != 0.0
    ensures Mul(a, c) / c == a
  {
  }

  /** Multiplying a quotient by its divisor gives back the dividend. */
  lemma DivMulCancel(a: real, c: real)
    requires c != 0.0
    ensures Mul(a / c, c) == a
  {
  }

  lemma MulQuotients(a: real, b: real, c: real, d: real)
    requires c != 0.0 && d != 0.0
    ensures Mul(Mul(a / c, b / d), Mul(c, d)) == Mul(a, b)
  {
  }

  /** The only number that leaves a non-zero factor unchanged is one. */
  lemma MulCancelOne(d: real, c: real)
    requires c != 0.0 && Mul(d, c) == c
    ensures d == 1.0
  {
    MulDivCancel(d, c);
  }

  /** A square is never negative, and is zero only for zero. */
  lemma Square(a: real)
    ensures 0.0 <= Mul(a, a)
    ensures Mul(a, a) == 0.0 <==> a == 0.0
  {
    if 0.0 < a {
      MulPositive(a, a);
    } else if a < 0.0 {
      MulNegatives(a, a);
    }
  }

  /** Two non-negative numbers with the same square are equal. */
  lemma SquareInjective(a: real, b: real)
    requires 0.0 <= a && 0.0 <= b && Mul(a, a) == Mul(b, b)
    ensures a == b
  {
    if a < b {
      MulMonotone(a, a, b);
      MulStrictlyMonotone(a, b, b);
    } else if b < a {
      MulMonotone(b, b, a);
      MulStrictlyMonotone(b, a, a);
    }
  }

  /** `sqrt` is a square root on the non-negative reals (`TScalar.Sqrt` of `IRootFunctions`). */
  ghost predicate IsSqrt(sqrt: real -> real) {
    forall x :: 0.0 <= x ==> 0.0 <= sqrt(x) && Mul(sqrt(x), sqrt(x)) == x
  }

  /** A non-negative square root is unique. */
  lemma SqrtUnique(sqrt: real -> real, x: real, root: real)
    requires IsSqrt(sqrt) && 0.0 <= root && Mul(root, root) == x
    ensures sqrt(x) == root
  {
    Square(root);
    SquareInjective(sqrt(x), root);
  }
}
