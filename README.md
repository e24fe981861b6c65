# EuclideanSpace in Dafny

A model of the EuclideanSpace library. The library is a small generic geometry
package of immutable two- and three-component values:

- the vectors `Vector2<TScalar>` and `Vector3<TScalar>`;
- the affine points `Point2<TScalar>` and `Point3<TScalar>`;
- the checked scalar conversions between them (`Vector2Conversions`, `Point3Conversions`, ...);
- the tolerant equality comparers that the library's tests use.

Every operation in the library is an expression over readonly structs, so every
operation here is a Dafny `function` over a `datatype`.

How the model represents the library:

- **Scalars.** A scalar is an exact `real`. The values the tests use come out
  exactly, but integer scalars in general do not behave like reals (see
  "Left out"). Every product of two scalars goes through
  `Numerics.Mul`. The facts the proofs use about products (identities,
  distributivity, squares, monotonicity) are stated once, as lemmas next to it.
  `MulIdentities`, `MulCommutes`, `MulNegates`, `MulDistributesLeft`,
  `MulDistributesRight`, `MulPositive`, `MulNegatives`, `MulMonotone`,
  `MulStrictlyMonotone`, `MulDivCancel`, `DivMulCancel` and `MulQuotients` are
  facts of real arithmetic that the solver proves on its own. They exist so that the
  proofs about vectors can cite those facts through `Mul`. They model nothing in the
  library and have no row below; neither do `MulCancelOne`, `Square`,
  `SquareInjective` and `SqrtUnique`, which are built from them.
- **Square roots.** `Length`, `Normalize` and `Distance` need `TScalar.Sqrt`. They
  take the square root as a parameter `sqrt: real -> real`. Their properties are
  stated under `IsSqrt(sqrt)`, which says that `sqrt` is a true non-negative root.
- **Checked conversions.** `TTarget.CreateChecked` is a partial function
  `S -> Option<T>`. `None` stands for the `OverflowException` it throws.
  `Numerics.CheckedInt16` is one concrete instance: a truncating conversion into
  `short`.
- **Errors.** An operation that throws returns `Result.Failure` carrying the
  exception: `ArgumentOutOfRange(paramName)`, `IndexOutOfRange` or `Overflow`.
- **Indexes.** An index is a 32-bit `int32`. The cast `(uint)index` is
  `Numerics.AsUInt32`. The indexer checks the index with one unsigned comparison in
  `ThrowHelpers.ThrowIfGreaterThanOrEqual` and then does an unchecked read.
- **Equality.** `Equals(object?)` takes an `Objects.Object`, which is null, one of
  the four boxed structs, or anything else.

Some members that the library uses have no declaration in its files:

- `Point2_1.cs` and `Point3_1.cs` declare constructors and properties, and
  `Vector2_1.cs` only its constructors; none of them declares `+`, `-` or scalar
  operators;
- `Vector2_1.cs` declares no `X`/`Y` properties, although `Vector2.cs:14` and
  `Vector2Conversions_1.cs:47` read them. The model's datatype fields `x` and `y`
  stand for them;
- `Vector2.cs` and `Vector3.cs` declare no `Lerp`, and `Vector2_1.cs` declares no
  zero vector and no `LengthSquared`;
- `Point3_1.cs` declares no broadcast constructor, although `Point3.Create(value)`
  at `Point3.cs:31` calls one.

The model defines these component by component, with the same shape as the
operators `Vector3_1.cs` declares. `Lerp` follows the formula of the mixed-type `Lerp`,
`value1 * (1 - amount) + value2 * amount`.

`Vector2` has two copies of `GetElement`, one in `Vector2.cs` and one in
`Vector2.Extensions.cs`. They do the same thing and are modelled once.

## Model

| member | source | states |
|---|---|---|
| Numerics.AsUInt32 | src/EuclideanSpace/Vector2.cs:21 | `(uint)index` keeps the 32-bit pattern: a non-negative index is unchanged, a negative one becomes at least 2^31 |
| Numerics.CreateChecked | src/EuclideanSpace/Vector2Conversions_1.cs:22 | `TTarget.CreateChecked(value)` succeeds exactly when the conversion has a value, returns that value, and otherwise fails with an overflow |
| Numerics.Truncate | src/EuclideanSpace/Vector2Conversions.cs:29 | rounding toward zero, as the checked cast back to an integer scalar does: the result is within 1 of the input, on the side of zero |
| Numerics.Int16ToReal | src/EuclideanSpace/Vector2Conversions.cs:27 | converting a `short` into a real-valued amount type never fails and is exact |
| Numerics.CheckedInt16 | src/EuclideanSpace/Vector2Conversions_1.cs:22 | a concrete checked conversion into `short`: truncates toward zero, succeeds exactly inside the range of `short`, and lands within 1 of its input |
| Numerics.Int16ConversionIsExact | src/EuclideanSpace/Vector2Conversions_1.cs:22 | converting a `short` to a real and back gives the same `short`, so the `short` conversions lose nothing |
| Numerics.Abs | tests/Tests/Vector2TolerantComparer_1.cs:32 | `TScalar.Abs` is non-negative and is either its argument or its negation |
| ThrowHelpers.ThrowArgumentOutOfRangeException | src/EuclideanSpace/ThrowHelpers.cs:10-12 | never returns normally: always an argument-out-of-range error naming the parameter |
| ThrowHelpers.ThrowIfGreaterThanOrEqual | src/EuclideanSpace/ThrowHelpers.cs:14-20 | passes exactly when `value < other`; otherwise an argument-out-of-range error naming the parameter |
| ThrowHelpers.UnsignedRangeCheck | src/EuclideanSpace/ThrowHelpers.cs:18 | comparing `(uint)index` with `(uint)count` passes exactly for `0 <= index < count`, so one unsigned comparison rejects negative indexes too |
| Vector2.Elements | src/EuclideanSpace/Vector2.cs:9 | a vector has `Count` = 2 components, in the order the unchecked accessor reads them |
| Vector2.Broadcast | src/EuclideanSpace/Vector2_1.cs:14 | `Vector2(value)` sets every component to `value`, which is `Vector2(value, value)` |
| Vector2.GetElementUnsafe | src/EuclideanSpace/Vector2.cs:27-34 | for `0 <= index < Count`, the component at `index`: 0 gives X, 1 gives Y |
| Vector2.GetElement | src/EuclideanSpace/Vector2.cs:17-24 | succeeds exactly for `0 <= index < 2` and returns that component; every other index, negative ones included, is an argument-out-of-range error on `(uint)index` |
| Vector2.Zero | src/EuclideanSpace/Vector3_1.cs:77-81 | the zero vector has every component 0, as `AdditiveIdentity` does for `Vector3` |
| Vector2.Add | src/EuclideanSpace/Vector3_1.cs:102-103 | `+` adds component by component (the Vector2 operator has the Vector3 operator's shape, on two components) |
| Vector2.Subtract | src/EuclideanSpace/Vector3_1.cs:128-129 | `left - right` is the vector that, added to `right`, gives back `left` |
| Vector2.Multiply | src/EuclideanSpace/Vector3_1.cs:107-108 | component-wise `*`: each component is the product of the matching components |
| Vector2.Divide | src/EuclideanSpace/Vector3_1.cs:138-139 | component-wise `/` undoes component-wise `*`: multiplying the quotient by `right` gives back `left` |
| Vector2.Negate | src/EuclideanSpace/Vector3_1.cs:133-134 | unary `-` is the additive inverse: `value + (-value)` is the zero vector |
| Vector2.Scale | src/EuclideanSpace/Vector3_1.cs:115-116 | `vector * scalar` multiplies every component by the scalar |
| Vector2.ScaleLeft | src/EuclideanSpace/Vector3_1.cs:123-124 | `scalar * vector` equals `vector * scalar` |
| Vector2.DivideByScalar | src/EuclideanSpace/Vector3_1.cs:146-147 | `vector / scalar` undoes `* scalar` |
| Vector2.Dot | src/EuclideanSpace/Vector2.cs:12-14 | the dot product of a vector with itself is never negative and is zero exactly for the zero vector; with the zero vector it is zero (symmetry is `DotSymmetric`, the tested values `DotExamples`) |
| Vector2.LengthSquared | src/EuclideanSpace/Vector2.Extensions.cs:21 | `LengthSquared` (the `Dot` of a vector with itself) is never negative and is zero exactly for the zero vector |
| Vector2.Length | src/EuclideanSpace/Vector2.Extensions.cs:13-23 | with a true square root, `Length` is the non-negative root of `LengthSquared`, zero exactly for the zero vector |
| Vector2.Normalize | src/EuclideanSpace/Vector2.Extensions.cs:29-36 | `value / Length(value)` scaled back by the length gives `value`: same direction |
| Vector2.NormalizeIsUnit | src/EuclideanSpace/Vector2.Extensions.cs:25-36 | with a true square root, a normalized non-zero vector has squared length one |
| Vector2.Lerp | src/EuclideanSpace/Vector2Conversions.cs:26-29 | `value1 * (1 - amount) + value2 * amount` gives `value1` at amount 0 and `value2` at amount 1 |
| Vector2.LerpSame | src/EuclideanSpace/Vector2Conversions.cs:26-29 | interpolating between a vector and itself gives that vector for every amount |
| Vector2.Equals | src/EuclideanSpace/Vector2_1.Trivia.cs:17-21 | component-wise equality holds exactly when the vectors are equal |
| Vector2.EqualityOperator | src/EuclideanSpace/Vector2_1.Trivia.cs:27 | `==` holds exactly when the vectors are equal, as `Equals` does |
| Vector2.InequalityOperator | src/EuclideanSpace/Vector2_1.Trivia.cs:29 | `!=` holds exactly when the vectors differ |
| Vector2.EqualsIsSymmetric | src/EuclideanSpace/Vector2_1.Trivia.cs:17-21 | `Equals` is reflexive and symmetric |
| Vector2.DotSymmetric | src/EuclideanSpace/Vector2.cs:12-14 | `Dot(a, b) == Dot(b, a)` |
| Vector2.DotZero | src/EuclideanSpace/Vector2.cs:12-14 | `Dot` with the zero vector, on either side, is zero |
| Vector2.AddZero | src/EuclideanSpace/Vector3_1.cs:77-81 | the zero vector is an identity of `+` on both sides |
| Vector2.SubtractAddCancel | src/EuclideanSpace/Vector3_1.cs:128-129 | `(v + w) - w == v` |
| Vector2.SubtractIsAddNegate | src/EuclideanSpace/Vector3_1.cs:128-134 | `v - w == v + (-w)` |
| Vector2.ScaleDivideCancel | src/EuclideanSpace/Vector3_1.cs:146-147 | `(v * s) / s == v` for non-zero `s` |
| Vector2.DotExamples | tests/Tests.EuclideanSpace/Vector2_Tests.cs:19-21 | (2,3)·(6,-4) = 0, (2,3)·(5,7) = 31, (3,4)·(3,4) = 25 |
| Vector3.Elements | src/EuclideanSpace/Vector3.cs:8 | a vector has `Count` = 3 components, in the order X, Y, Z |
| Vector3.Broadcast | src/EuclideanSpace/Vector3_1.cs:38 | `Vector3(value)` sets X, Y and Z to `value` |
| Vector3.FromSpan | src/EuclideanSpace/Vector3_1.cs:57-65 | the span constructor fails with an argument-out-of-range error on `values` exactly when the span has fewer than 3 elements; otherwise the components are its first three elements and the rest are ignored |
| Vector3.GetElementUnsafe | src/EuclideanSpace/Vector3.Extensions.cs:33-43 | for `0 <= index < Count`, the component at `index`: 0, 1, 2 give X, Y, Z |
| Vector3.GetElement | src/EuclideanSpace/Vector3.Extensions.cs:46-56 | succeeds exactly for `0 <= index < 3` and returns that component; every other index is an argument-out-of-range error on `(uint)index` |
| Vector3.AdditiveIdentity | src/EuclideanSpace/Vector3_1.cs:77-81 | `AdditiveIdentity` is the all-zero vector |
| Vector3.Add | src/EuclideanSpace/Vector3_1.cs:102-103 | `+` adds component by component |
| Vector3.Subtract | src/EuclideanSpace/Vector3_1.cs:128-129 | `left - right` is the vector that, added to `right`, gives back `left` |
| Vector3.Multiply | src/EuclideanSpace/Vector3_1.cs:107-108 | component-wise `*` |
| Vector3.Divide | src/EuclideanSpace/Vector3_1.cs:138-139 | component-wise `/` undoes component-wise `*` |
| Vector3.Negate | src/EuclideanSpace/Vector3_1.cs:133-134 | unary `-` is the additive inverse |
| Vector3.Scale | src/EuclideanSpace/Vector3_1.cs:115-116 | `vector * scalar` multiplies every component by the scalar |
| Vector3.ScaleLeft | src/EuclideanSpace/Vector3_1.cs:123-124 | `scalar * vector` equals `vector * scalar` |
| Vector3.DivideByScalar | src/EuclideanSpace/Vector3_1.cs:146-147 | `vector / scalar` undoes `* scalar` |
| Vector3.Dot | src/EuclideanSpace/Vector3.cs:11-17 | the dot product of a vector with itself is never negative and is zero exactly for the zero vector; with the zero vector it is zero (symmetry is `DotSymmetric`) |
| Vector3.LengthSquared | src/EuclideanSpace/Vector3_1.cs:98 | `LengthSquared` = `Dot(this, this)` is never negative and is zero exactly for the zero vector |
| Vector3.Length | src/EuclideanSpace/Vector3.Extensions.cs:10-20 | with a true square root, `Length` is the non-negative root of `LengthSquared`, zero exactly for the zero vector |
| Vector3.Normalize | src/EuclideanSpace/Vector3.Extensions.cs:23-30 | `value / Length(value)` scaled back by the length gives `value` |
| Vector3.NormalizeIsUnit | src/EuclideanSpace/Vector3.Extensions.cs:23-30 | with a true square root, a normalized non-zero vector has squared length one |
| Vector3.Lerp | src/EuclideanSpace/Vector3Conversions.cs:26-29 | `value1 * (1 - amount) + value2 * amount` gives `value1` at amount 0 and `value2` at amount 1 |
| Vector3.LerpSame | src/EuclideanSpace/Vector3Conversions.cs:26-29 | interpolating between a vector and itself gives that vector |
| Vector3.Equals | src/EuclideanSpace/Vector3_1.Trivia.cs:23-27 | component-wise equality holds exactly when the vectors are equal |
| Vector3.EqualityOperator | src/EuclideanSpace/Vector3_1.Trivia.cs:37 | `==` holds exactly when the vectors are equal |
| Vector3.InequalityOperator | src/EuclideanSpace/Vector3_1.Trivia.cs:41 | `!=` holds exactly when the vectors differ |
| Vector3.EqualsIsSymmetric | src/EuclideanSpace/Vector3_1.Trivia.cs:23-27 | `Equals` is reflexive and symmetric |
| Vector3.DotSymmetric | src/EuclideanSpace/Vector3.cs:11-17 | `Dot(a, b) == Dot(b, a)` |
| Vector3.DotZero | src/EuclideanSpace/Vector3.cs:11-17 | `Dot` with the zero vector, on either side, is zero |
| Vector3.AddIdentity | src/EuclideanSpace/Vector3_1.cs:77-81 | `v + AdditiveIdentity == v` and `AdditiveIdentity + v == v` |
| Vector3.SubtractAddCancel | src/EuclideanSpace/Vector3_1.cs:102-129 | `(v + w) - w == v` |
| Vector3.SubtractIsAddNegate | src/EuclideanSpace/Vector3_1.cs:128-134 | `v - w == v + (-w)` |
| Vector3.ScaleDivideCancel | src/EuclideanSpace/Vector3_1.cs:146-147 | `(v * s) / s == v` for non-zero `s` |
| Vector3.SubtractExamples | tests/Tests/Vector3_Tests.cs:20-22 | (8,5,3) - (5,7,11) = (3,-2,-8), v - 0 = v, v - v = 0 |
| Point2.Elements | src/EuclideanSpace/Point2.cs:15 | a point has `Point2.Count` = `Vector2.Count` = 2 coordinates |
| Point2.Broadcast | src/EuclideanSpace/Point2_1.cs:14 | `Point2(value)` sets both coordinates to `value`; also `Point2.Create(value)` |
| Point2.FromSpan | src/EuclideanSpace/Point2_1.cs:22-29 | the span constructor fails with an argument-out-of-range error on `elements` exactly when the span has fewer than 2 elements; otherwise the coordinates are its first two elements |
| Point2.CreateFromSpan | src/EuclideanSpace/Point2.cs:58-70 | `Create(values)` fails with an argument-out-of-range error on `values` exactly when the span has fewer than `Count` elements; otherwise it takes elements 0 and 1 |
| Point2.AsVector2 | src/EuclideanSpace/Point2.Extensions.cs:14-21 | `AsVector2` keeps X and Y, and `Create` of it gives the point back |
| Point2.CreateFromVector | src/EuclideanSpace/Point2.cs:79-86 | `Create(vector)` copies X and Y, so the point's vector form is `vector` again |
| Point2.GetElementUnsafe | src/EuclideanSpace/Point2.Extensions.cs:24-35 | for `0 <= index < Count`, the coordinate at `index` |
| Point2.GetElement | src/EuclideanSpace/Point2.Extensions.cs:38-49 | succeeds exactly for `0 <= index < 2` and returns that coordinate; every other index is an argument-out-of-range error on `(uint)index` |
| Point2.Zero | src/EuclideanSpace/Point2.cs:92-99 | `Zero` is the origin: its vector form is the zero vector |
| Point2.One | src/EuclideanSpace/Point2.cs:105-113 | `One` has every coordinate 1 |
| Point2.UnitX | src/EuclideanSpace/Point2.cs:119-127 | `UnitX` is (1, 0) |
| Point2.UnitY | src/EuclideanSpace/Point2.cs:133-141 | `UnitY` is (0, 1) |
| Point2.Add | src/EuclideanSpace/Point2.cs:149-156 | translating a point by a vector adds the vector to the point's vector form |
| Point2.Subtract | src/EuclideanSpace/Point2.cs:159-166 | `p - q` is the vector that translates `q` onto `p` |
| Point2.SubtractVector | src/EuclideanSpace/Point2.cs:169-176 | `p - v` is the point that `v` translates onto `p` |
| Point2.DistanceSquared | src/EuclideanSpace/Point2.cs:179-186 | `LengthSquared(p - q)` is never negative and is zero exactly when the points are equal |
| Point2.Distance | src/EuclideanSpace/Point2.cs:189-196 | with a true square root, the non-negative root of `DistanceSquared`, zero exactly for equal points |
| Point2.Lerp | src/EuclideanSpace/Point2.cs:199-210 | `Create` of the vector lerp of the two points' vector forms; amount 0 gives `value1`, amount 1 gives `value2` |
| Point2.Equals | src/EuclideanSpace/Point2_1.Trivia.cs:17-21 | coordinate-wise equality holds exactly when the points are equal |
| Point2.EqualityOperator | src/EuclideanSpace/Point2_1.Trivia.cs:27 | `==` holds exactly when the points are equal |
| Point2.InequalityOperator | src/EuclideanSpace/Point2_1.Trivia.cs:29 | `!=` holds exactly when the points differ |
| Point2.EqualsIsSymmetric | src/EuclideanSpace/Point2_1.Trivia.cs:17-21 | `Equals` is reflexive and symmetric |
| Point2.SubtractVectorUndoesAdd | src/EuclideanSpace/Point2.cs:149-176 | `(p + v) - v == p` and `(p - v) + v == p` |
| Point2.SubtractSelf | src/EuclideanSpace/Point2.cs:159-166 | `p - p` is the zero vector |
| Point2.DistanceSquaredSymmetric | src/EuclideanSpace/Point2.cs:179-186 | `DistanceSquared(p, q) == DistanceSquared(q, p)` |
| Point2.LerpSame | src/EuclideanSpace/Point2.cs:199-210 | interpolating between a point and itself gives that point |
| Point2.OneIsSumOfUnits | src/EuclideanSpace/Point2.cs:105-141 | `One` is `UnitX` translated by the vector form of `UnitY` |
| Point2.Examples | tests/Tests/Point2_Tests.cs:9-66 | the indexer reads 5 and 8 from (5,8); (3,4) + (2,-5) = (5,-1); (5,-1) - (3,4) = (2,-5); the squared distance of (-1,-2) and (3,1) is 25 and their distance is 5; the lerp of (-2,-1) and (1,5) at 2/3 is (0,3) |
| Point3.Elements | src/EuclideanSpace/Point3.cs:15 | a point has `Point3.Count` = `Vector3.Count` = 3 coordinates |
| Point3.Broadcast | src/EuclideanSpace/Point3.cs:24-31 | `Create(value)` sets all three coordinates to `value` |
| Point3.FromSpanAsWritten | src/EuclideanSpace/Point3_1.cs:24-32 | the span constructor as written: fewer than 2 elements is an argument-out-of-range error on `elements`, exactly 2 passes the guard and fails reading `elements[2]`, 3 or more gives the first three elements |
| Point3.FromSpan | src/EuclideanSpace/Point3_1.cs:24-32 | the span constructor with the guard against 3: an argument-out-of-range error on `elements` exactly when the span has fewer than 3 elements; otherwise the first three elements |
| Point3.FromSpanAsWrittenDiffersOnlyAtTwo | src/EuclideanSpace/Point3_1.cs:26 | the constructor as written and the corrected one agree exactly on spans whose length is not 2 |
| Point3.FromSpanAsWrittenCounterexample | src/EuclideanSpace/Point3_1.cs:26-31 | on a 2-element span the constructor as written fails with an index error where the corrected one reports an argument-out-of-range error |
| Point3.CreateFromSpan | src/EuclideanSpace/Point3.cs:59-71 | `Create(values)` fails with an argument-out-of-range error on `values` exactly when the span has fewer than 3 elements; otherwise it takes elements 0..2 |
| Point3.AsVector3 | src/EuclideanSpace/Point3.Extensions.cs:14-21 | `AsVector3` keeps X, Y and Z, and `Create` of it gives the point back |
| Point3.CreateFromVector | src/EuclideanSpace/Point3.cs:80-87 | `Create(vector)` copies X, Y and Z |
| Point3.GetElementUnsafe | src/EuclideanSpace/Point3.Extensions.cs:24-35 | for `0 <= index < Count`, the coordinate at `index` |
| Point3.GetElement | src/EuclideanSpace/Point3.Extensions.cs:38-49 | succeeds exactly for `0 <= index < 3` and returns that coordinate; every other index is an argument-out-of-range error on `(uint)index` |
| Point3.Zero | src/EuclideanSpace/Point3.cs:93-100 | `Zero` is the origin: its vector form is `AdditiveIdentity` |
| Point3.One | src/EuclideanSpace/Point3.cs:106-114 | `One` has every coordinate 1 |
| Point3.UnitX | src/EuclideanSpace/Point3.cs:120-128 | `UnitX` is (1, 0, 0) |
| Point3.UnitY | src/EuclideanSpace/Point3.cs:134-142 | `UnitY` is (0, 1, 0) |
| Point3.UnitZ | src/EuclideanSpace/Point3.cs:148-156 | `UnitZ` is (0, 0, 1) |
| Point3.Add | src/EuclideanSpace/Point3.cs:164-171 | translating a point by a vector adds the vector to the point's vector form |
| Point3.Subtract | src/EuclideanSpace/Point3.cs:179-186 | `p - q` is the vector that translates `q` onto `p` |
| Point3.SubtractVector | src/EuclideanSpace/Point3.cs:194-201 | `p - v` is the point that `v` translates onto `p` |
| Point3.DistanceSquared | src/EuclideanSpace/Point3.cs:204-211 | `LengthSquared(p - q)` is never negative and is zero exactly when the points are equal |
| Point3.Distance | src/EuclideanSpace/Point3.cs:214-221 | with a true square root, the non-negative root of `DistanceSquared`, zero exactly for equal points |
| Point3.Lerp | src/EuclideanSpace/Point3.cs:224-235 | `Create` of the vector lerp of the two points' vector forms; amount 0 gives `value1`, amount 1 gives `value2` |
| Point3.Equals | src/EuclideanSpace/Point3_1.Trivia.cs:22-26 | coordinate-wise equality holds exactly when the points are equal |
| Point3.EqualityOperator | src/EuclideanSpace/Point3_1.Trivia.cs:36 | `==` holds exactly when the points are equal |
| Point3.InequalityOperator | src/EuclideanSpace/Point3_1.Trivia.cs:40 | `!=` holds exactly when the points differ |
| Point3.EqualsIsSymmetric | src/EuclideanSpace/Point3_1.Trivia.cs:22-26 | `Equals` is reflexive and symmetric |
| Point3.SubtractVectorUndoesAdd | src/EuclideanSpace/Point3.cs:164-201 | `(p + v) - v == p` and `(p - v) + v == p` |
| Point3.SubtractSelf | src/EuclideanSpace/Point3.cs:179-186 | `p - p` is `AdditiveIdentity` |
| Point3.DistanceSquaredSymmetric | src/EuclideanSpace/Point3.cs:204-211 | `DistanceSquared(p, q) == DistanceSquared(q, p)` |
| Point3.LerpSame | src/EuclideanSpace/Point3.cs:224-235 | interpolating between a point and itself gives that point |
| Point3.OneIsSumOfUnits | src/EuclideanSpace/Point3.cs:106-156 | `One` is `UnitX` translated by the vector forms of `UnitY` and `UnitZ` |
| Vector2Conversions.Create | src/EuclideanSpace/Vector2Conversions_1.cs:20-22 | `Create(value)` broadcasts the converted value; it fails with an overflow exactly when the conversion does |
| Vector2Conversions.CreateXY | src/EuclideanSpace/Vector2Conversions_1.cs:33-36 | each component is converted on its own; the call fails with an overflow exactly when some component's conversion does |
| Vector2Conversions.AsVector2 | src/EuclideanSpace/Vector2Conversions_1.cs:45-47 | `AsVector2` converts component by component and fails with an overflow exactly when some component's conversion does |
| Vector2Conversions.AsVector2RoundTrip | src/EuclideanSpace/Vector2Conversions_1.cs:45-47 | with a conversion that loses nothing, converting there and back gives the original vector |
| Vector2Conversions.Lerp | src/EuclideanSpace/Vector2Conversions.cs:21-30 | a failed conversion of either input is an overflow; otherwise the result is the back-conversion of `Vector2.Lerp` of the converted inputs; every failure is an overflow |
| Vector2Conversions.LerpEndpoints | src/EuclideanSpace/Vector2Conversions.cs:26-29 | with exact conversions, amount 0 gives `value1` and amount 1 gives `value2` |
| Vector2Conversions.LerpSame | src/EuclideanSpace/Vector2Conversions.cs:26-29 | with exact conversions, interpolating between a vector and itself gives that vector |
| Vector3Conversions.Create | src/EuclideanSpace/Vector3Conversions_1.cs:20-22 | `Create(value)` broadcasts the converted value; it fails with an overflow exactly when the conversion does |
| Vector3Conversions.CreateXYZ | src/EuclideanSpace/Vector3Conversions_1.cs:35-39 | each component is converted on its own; the call fails with an overflow exactly when some component's conversion does |
| Vector3Conversions.AsVector3 | src/EuclideanSpace/Vector3Conversions_1.cs:42-44 | `AsVector3` converts component by component and fails with an overflow exactly when some component's conversion does |
| Vector3Conversions.AsVector3RoundTrip | src/EuclideanSpace/Vector3Conversions_1.cs:42-44 | with a conversion that loses nothing, converting there and back gives the original vector |
| Vector3Conversions.Lerp | src/EuclideanSpace/Vector3Conversions.cs:21-30 | a failed conversion of either input is an overflow; otherwise the result is the back-conversion of `Vector3.Lerp` of the converted inputs; every failure is an overflow |
| Vector3Conversions.LerpEndpoints | src/EuclideanSpace/Vector3Conversions.cs:26-29 | with exact conversions, amount 0 gives `value1` and amount 1 gives `value2` |
| Vector3Conversions.LerpSame | src/EuclideanSpace/Vector3Conversions.cs:26-29 | with exact conversions, interpolating between a vector and itself gives that vector |
| Point2Conversions.Create | src/EuclideanSpace/Point2Conversions_1.cs:20-22 | `Create(value)` broadcasts the converted value; it fails with an overflow exactly when the conversion does |
| Point2Conversions.CreateXY | src/EuclideanSpace/Point2Conversions_1.cs:33-36 | each coordinate is converted on its own; the call fails with an overflow exactly when some coordinate's conversion does |
| Point2Conversions.AsPoint2 | src/EuclideanSpace/Point2Conversions_1.cs:45-47 | `AsPoint2(point)` converts coordinate by coordinate and fails with an overflow exactly when some conversion does |
| Point2Conversions.AsPoint2FromVector | src/EuclideanSpace/Point2Conversions_1.cs:56-58 | `AsPoint2(vector)` converts component by component and fails with an overflow exactly when some conversion does |
| Point2Conversions.AsVector2 | src/EuclideanSpace/Point2Conversions_1.cs:67-69 | `AsVector2(point)` converts coordinate by coordinate into a vector and fails with an overflow exactly when some conversion does |
| Point2Conversions.ConversionsAgree | src/EuclideanSpace/Point2Conversions_1.cs:45-69 | `AsPoint2(point)` equals `AsPoint2(vector)` on the point's vector form, and `AsVector2(point)` succeeds exactly when `AsPoint2(point)` does, with the same components |
| Point2Conversions.AsPoint2RoundTrip | src/EuclideanSpace/Point2Conversions_1.cs:45-47 | with a conversion that loses nothing, converting there and back gives the original point |
| Point2Conversions.Lerp | src/EuclideanSpace/Point2Conversions.cs:21-28 | succeeds exactly when `Vector2Conversions.Lerp` of the two points' vector forms does, and is then the point with that vector form; every failure is an overflow |
| Point2Conversions.LerpEndpoints | src/EuclideanSpace/Point2Conversions.cs:26-27 | with exact conversions, amount 0 gives `value1` and amount 1 gives `value2` |
| Point2Conversions.LerpSame | src/EuclideanSpace/Point2Conversions.cs:26-27 | with exact conversions, interpolating between a point and itself gives that point |
| Point3Conversions.Create | src/EuclideanSpace/Point3Conversions_1.cs:20-22 | `Create(value)` broadcasts the converted value; it fails with an overflow exactly when the conversion does |
| Point3Conversions.CreateXYZ | src/EuclideanSpace/Point3Conversions_1.cs:35-39 | each coordinate is converted on its own; the call fails with an overflow exactly when some coordinate's conversion does |
| Point3Conversions.AsPoint3 | src/EuclideanSpace/Point3Conversions_1.cs:42-44 | `AsPoint3(point)` converts coordinate by coordinate and fails with an overflow exactly when some conversion does |
| Point3Conversions.AsPoint3FromVector | src/EuclideanSpace/Point3Conversions_1.cs:47-49 | `AsPoint3(vector)` converts component by component and fails with an overflow exactly when some conversion does |
| Point3Conversions.AsVector3 | src/EuclideanSpace/Point3Conversions_1.cs:52-54 | `AsVector3(point)` converts coordinate by coordinate into a vector and fails with an overflow exactly when some conversion does |
| Point3Conversions.ConversionsAgree | src/EuclideanSpace/Point3Conversions_1.cs:42-54 | `AsPoint3(point)` equals `AsPoint3(vector)` on the point's vector form, and `AsVector3(point)` succeeds exactly when `AsPoint3(point)` does, with the same components |
| Point3Conversions.AsPoint3RoundTrip | src/EuclideanSpace/Point3Conversions_1.cs:42-44 | with a conversion that loses nothing, converting there and back gives the original point |
| Point3Conversions.Lerp | src/EuclideanSpace/Point3Conversions.cs:21-28 | succeeds exactly when `Vector3Conversions.Lerp` of the two points' vector forms does, and is then the point with that vector form; every failure is an overflow |
| Point3Conversions.LerpEndpoints | src/EuclideanSpace/Point3Conversions.cs:26-27 | with exact conversions, amount 0 gives `value1` and amount 1 gives `value2` |
| Point3Conversions.LerpSame | src/EuclideanSpace/Point3Conversions.cs:26-27 | with exact conversions, interpolating between a point and itself gives that point |
| Point2Conversions.LerpExample | tests/Tests/Point2_Tests.cs:47-55 | with exact reals standing for the test's `float` points and `double` amount (so both conversions are the identity), the lerp of (-2,-1) and (1,5) at 2/3 is (0,3) |
| Objects.Vector2EqualsObject | src/EuclideanSpace/Vector2_1.Trivia.cs:23 | `Equals(object?)` is true exactly for a boxed `Vector2` equal to the receiver; never for null or another type |
| Objects.Vector3EqualsObject | src/EuclideanSpace/Vector3_1.Trivia.cs:30 | `Equals(object?)` is true exactly for a boxed `Vector3` equal to the receiver; never for null or another type |
| Objects.Point2EqualsObject | src/EuclideanSpace/Point2_1.Trivia.cs:23 | `Equals(object?)` is true exactly for a boxed `Point2` equal to the receiver; never for null or another type |
| Objects.Point3EqualsObject | src/EuclideanSpace/Point3_1.Trivia.cs:29 | `Equals(object?)` is true exactly for a boxed `Point3` equal to the receiver; never for null or another type |
| Objects.EqualsObjectAgrees | src/EuclideanSpace/Point2_1.Trivia.cs:23 | for each of the four types: on a boxed value of its own type the object overload agrees with the typed `Equals`; it is false for null and for any other object; a point never equals the boxed vector with the same coordinates, nor a vector the boxed point |
| TolerantComparers.EqualsCore | tests/Tests/Vector2TolerantComparer_1.cs:30-34 | `|y - x| <= tolerance` holds exactly when `y` lies in `[x - tolerance, x + tolerance]` |
| TolerantComparers.Vector2TolerantComparer.Equals | tests/Tests/Vector2TolerantComparer_1.cs:26 | equal exactly when both coordinate pairs lie within the tolerance of each other; with tolerance 0 exactly structural equality |
| TolerantComparers.Vector2TolerantComparer.EqualsSymmetric | tests/Tests/Vector2TolerantComparer_1.cs:30-34 | the comparison does not depend on argument order |
| TolerantComparers.Vector2TolerantComparer.EqualsReflexive | tests/Tests/Vector2TolerantComparer_1.cs:30-34 | every value equals itself exactly when the tolerance is non-negative |
| TolerantComparers.Vector2TolerantComparer.EqualsMonotone | tests/Tests/Vector2TolerantComparer_1.cs:30-34 | values equal within a tolerance are equal within any larger one |
| TolerantComparers.Point2TolerantComparer.Equals | tests/Tests.EuclideanSpace/Point2TolerantComparer_1.cs:26 | equal exactly when both coordinate pairs lie within the tolerance of each other; with tolerance 0 exactly structural equality |
| TolerantComparers.Point2TolerantComparer.EqualsSymmetric | tests/Tests.EuclideanSpace/Point2TolerantComparer_1.cs:30-34 | the comparison does not depend on argument order |
| TolerantComparers.Point2TolerantComparer.EqualsReflexive | tests/Tests.EuclideanSpace/Point2TolerantComparer_1.cs:30-34 | every value equals itself exactly when the tolerance is non-negative |
| TolerantComparers.Point2TolerantComparer.EqualsMonotone | tests/Tests.EuclideanSpace/Point2TolerantComparer_1.cs:30-34 | values equal within a tolerance are equal within any larger one |

## Left out

- `ToString` and `IFormattable` are left out: their output depends on the culture and the format provider.
- `GetHashCode`, on the structs and on the comparers, is left out: `HashCode.Combine` is seeded per process.
- Integer scalars are not modelled as such. For `int`, `short` and the other integer types the library's `/` truncates toward zero, and `+`, `-`, `*` and `Dot` wrap around on overflow. The model computes in reals, so `Vector2.Divide`, `Vector3.Divide`, `Vector2.DivideByScalar`, `Vector3.DivideByScalar`, `Vector2.Normalize`, `Vector3.Normalize`, `Add`, `Multiply`, `Scale` and `Dot` state what they do over exact scalars. Over `int`, for example, (7,7) / (2,2) is (3,3), and multiplying back gives (6,6).
- Point2Conversions.LerpExample: covers the tested interpolation only with exact reals. With a `short` scalar and a `double` amount, the source's weight `1 - 2/3` rounds to 0.33333333333333337. The y coordinate then comes to 2.9999999999999996, and the truncating conversion back to `short` gives (0, 2), not (0, 3).
- Floating-point behaviour (`float`, `double`, `Half`, `decimal` rounding, NaN and infinities) is left out. The model computes in exact reals, so the test that compares a `float` lerp within a tolerance is modelled as an exact equality.
- The generic numeric-interface constraints and the `MethodImpl` attributes are left out. The scalar is `real`; the conversions stay generic in their source and target types.
- The internals of `CreateChecked` are left out: a conversion is an arbitrary partial function, with `short` as the one concrete instance.
- The `Unsafe.AsRef`/`Unsafe.Add` reads and the `Debug.Assert` of the unchecked accessors are left out. Each accessor is a choice on the index, and its `requires` states the asserted range.
- Vector2.Divide: requires non-zero components. Real division by zero has no value; the source would give infinities, NaN or a `DivideByZeroException`, depending on the scalar.
- Vector3.Divide: requires non-zero components, for the same reason.
- Vector2.DivideByScalar: requires a non-zero scalar, for the same reason.
- Vector3.DivideByScalar: requires a non-zero scalar, for the same reason.
- Vector2.Normalize: requires a non-zero length, for the same reason; normalizing the zero vector gives NaN in the source.
- Vector3.Normalize: requires a non-zero length, for the same reason.
- Vector2.Length: what it states holds only under `IsSqrt(sqrt)`. `TScalar.Sqrt` of a floating-point type is only an approximate root.
- Vector3.Length: the same condition applies.
- Point2.Distance: the same condition applies.
- Point3.Distance: the same condition applies.
- Vector2.Lerp: the contract states only the two endpoints; `LerpSame` covers equal inputs. The formula itself is the function's definition, and `Point2.Lerp` and `Vector2Conversions.Lerp` are stated in terms of it.
- Vector3.Lerp: the same as `Vector2.Lerp`.
- The comparers' null check on the tolerance is left out: a `real` tolerance is never null.
- The `Half.Epsilon` default tolerance of the comparers is left out: it is a floating-point constant.
- `Vector2_1.cs` declares no span constructor, so none is modelled for `Vector2`.
- None of the library's files declares a `Cross` product, so none is modelled.
- The xUnit harness is left out. The tests appear only as example lemmas.

## Findings

| source | as written | input that shows it | evidently intended | confidence | as-written member | corrected member |
|---|---|---|---|---|---|---|
| src/EuclideanSpace/Point3_1.cs:26 | the span constructor of `Point3` guards with `elements.Length < Point2.Count`, that is `< 2`, and then reads `elements[2]` | a 2-element span such as `[1.0, 2.0]` passes the guard and fails at the read with an index error, not an argument-out-of-range error on `elements` | a guard against `Point3.Count` (3), as `Point3.Create(values)` and the `Vector3` span constructor use | high, not executed | Point3.FromSpanAsWritten, Point3.FromSpanAsWrittenCounterexample | Point3.FromSpan |
