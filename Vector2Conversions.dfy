/**
 * `Vector2Conversions<TTarget>`, which builds vectors through a checked scalar
 * conversion, and the static `Vector2Conversions.Lerp`, which interpolates in the
 * weight's scalar type. A conversion is a partial function `S -> Option<T>`;
 * a missing result is the `OverflowException` of `TTarget.CreateChecked`.
 */
module Vector2Conversions {
  import opened Results
  import opened Numerics
  import Vector2

  /** `Create(value)`: the broadcast of the converted value. */
  function Create<S, T>(convert: S -> Option<T>, value: S): (r: Result<Vector2.Vector2<T>>)
    ensures r.Success? <==> convert(value).Some?
    ensures r.Success? ==> r.value == Vector2.Broadcast(convert(value).value)
    ensures r.Failure? ==> r.error == Overflow
  {
    var c :- CreateChecked(convert, value);
    Success(Vector2.Broadcast(c))
  }

  /** `Create(x, y)`: each coordinate converted on its own, from its own scalar type. */
  function CreateXY<X, Y, T>(convertX: X -> Option<T>, convertY: Y -> Option<T>, x: X, y: Y): (r: Result<Vector2.Vector2<T>>)
    ensures r.Success? <==> convertX(x).Some? && convertY(y).Some?
    ensures r.Success? ==> r.value.x == convertX(x).value && r.value.y == convertY(y).value
    ensures r.Failure? ==> r.error == Overflow
  {
    var cx :- CreateChecked(convertX, x);
    var cy :- CreateChecked(convertY, y);
    Success(Vector2.Vector2(cx, cy))
  }

  /** `AsVector2(vector)`: every component converted; it fails exactly when one of them does. */
  function AsVector2<S, T>(convert: S -> Option<T>, vector: Vector2.Vector2<S>): (r: Result<Vector2.Vector2<T>>)
    ensures r.Success? <==> convert(vector.x).Some? && convert(vector.y).Some?
    ensures r.Success? ==> r.value.x == convert(vector.x).value && r.value.y == convert(vector.y).value
    ensures r.Failure? ==> r.error == Overflow
  {
    var cx :- CreateChecked(convert, vector.x);
    var cy :- CreateChecked(convert, vector.y);
    Success(Vector2.Vector2(cx, cy))
  }

  /** Converting with an exact conversion and back gives the vector itself. */
  lemma AsVector2RoundTrip<S(!new), T>(to: S -> Option<T>, from: T -> Option<S>, vector: Vector2.Vector2<S>)
    requires ExactConversion(to, from)
    ensures AsVector2(to, vector).Success?
    ensures AsVector2(from, AsVector2(to, vector).value) == Success(vector)
  {
    var b := AsVector2(from, AsVector2(to, vector).value);
    assert b.value.x == vector.x && b.value.y == vector.y;
  }

  /**
   * `Vector2Conversions.Lerp`: both vectors converted to the weight's type, combined
   * as `first * (1 - amount) + second * amount`, and the sum converted back.
   */
  function Lerp<S>(to: S -> Option<real>, from: real -> Option<S>,
                   value1: Vector2.Vector2<S>, value2: Vector2.Vector2<S>, amount: real): (r: Result<Vector2.Vector2<S>>)
    ensures AsVector2(to, value1).Failure? || AsVector2(to, value2).Failure? ==> r == Failure(Overflow)
    ensures AsVector2(to, value1).Success? && AsVector2(to, value2).Success? ==>
      r == AsVector2(from, Vector2.Lerp(AsVector2(to, value1).value, AsVector2(to, value2).value, amount))
    ensures r.Failure? ==> r.error == Overflow
  {
    var weight1 := 1.0 - amount;
    var converted1 :- AsVector2(to, value1);
    var first := Vector2.Scale(converted1, weight1);
    var converted2 :- AsVector2(to, value2);
    var second := Vector2.Scale(converted2, amount);
    AsVector2(from, Vector2.Add(first, second))
  }

  /** With exact conversions, amount zero gives the first vector and amount one the second. */
  lemma LerpEndpoints<S(!new)>(to: S -> Option<real>, from: real -> Option<S>,
                               value1: Vector2.Vector2<S>, value2: Vector2.Vector2<S>)
    requires ExactConversion(to, from)
    ensures Lerp(to, from, value1, value2, 0.0) == Success(value1)
    ensures Lerp(to, from, value1, value2, 1.0) == Success(value2)
  {
    AsVector2RoundTrip(to, from, value1);
    AsVector2RoundTrip(to, from, value2);
  }

  /** With exact conversions, interpolating between a vector and itself gives that vector. */
  lemma LerpSame<S(!new)>(to: S -> Option<real>, from: real -> Option<S>, value: Vector2.Vector2<S>, amount: real)
    requires ExactConversion(to, from)
    ensures Lerp(to, from, value, value, amount) == Success(value)
  {
    AsVector2RoundTrip(to, from, value);
    Vector2.LerpSame(AsVector2(to, value).value, amount);
  }
}
