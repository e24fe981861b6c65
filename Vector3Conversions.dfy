/**
 * `Vector3Conversions<TTarget>`, which builds vectors through a checked scalar
 * conversion, and the static `Vector3Conversions.Lerp`, which interpolates in the
 * weight's scalar type. A conversion is a partial function `S -> Option<T>`;
 * a missing result is the `OverflowException` of `TTarget.CreateChecked`.
 */
module Vector3Conversions {
  import opened Results
  import opened Numerics
  import Vector3

  /** `Create(value)`: the broadcast of the converted value. */
  function Create<S, T>(convert: S -> Option<T>, value: S): (r: Result<Vector3.Vector3<T>>)
    ensures r.Success? <==> convert(value).Some?
    ensures r.Success? ==> r.value == Vector3.Broadcast(convert(value).value)
    ensures r.Failure? ==> r.error == Overflow
  {
    var c :- CreateChecked(convert, value);
    Success(Vector3.Broadcast(c))
  }

  /** `Create(x, y, z)`: each coordinate converted on its own, from its own scalar type. */
  function CreateXYZ<X, Y, Z, T>(convertX: X -> Option<T>, convertY: Y -> Option<T>, convertZ: Z -> Option<T>,
                                 x: X, y: Y, z: Z): (r: Result<Vector3.Vector3<T>>)
    ensures r.Success? <==> convertX(x).Some? && convertY(y).Some? && convertZ(z).Some?
    ensures r.Success? ==>
      r.value.x == convertX(x).value && r.value.y == convertY(y).value && r.value.z == convertZ(z).value
    ensures r.Failure? ==> r.error == Overflow
  {
    var cx :- CreateChecked(convertX, x);
    var cy :- CreateChecked(convertY, y);
    var cz :- CreateChecked(convertZ, z);
    Success(Vector3.Vector3(cx, cy, cz))
  }

  /** `AsVector3(vector)`: every component converted; it fails exactly when one of them does. */
  function AsVector3<S, T>(convert: S -> Option<T>, vector: Vector3.Vector3<S>): (r: Result<Vector3.Vector3<T>>)
    ensures r.Success? <==> convert(vector.x).Some? && convert(vector.y).Some? && convert(vector.z).Some?
    ensures r.Success? ==>
      r.value.x == convert(vector.x).value && r.value.y == convert(vector.y).value && r.value.z == convert(vector.z).value
    ensures r.Failure? ==> r.error == Overflow
  {
    var cx :- CreateChecked(convert, vector.x);
    var cy :- CreateChecked(convert, vector.y);
    var cz :- CreateChecked(convert, vector.z);
    Success(Vector3.Vector3(cx, cy, cz))
  }

  /** Converting with an exact conversion and back gives the vector itself. */
  lemma AsVector3RoundTrip<S(!new), T>(to: S -> Option<T>, from: T -> Option<S>, vector: Vector3.Vector3<S>)
    requires ExactConversion(to, from)
    ensures AsVector3(to, vector).Success?
    ensures AsVector3(from, AsVector3(to, vector).value) == Success(vector)
  {
    var b := AsVector3(from, AsVector3(to, vector).value);
    assert b.value.x == vector.x && b.value.y == vector.y && b.value.z == vector.z;
  }

  /**
   * `Vector3Conversions.Lerp`: both vectors converted to the weight's type, combined
   * as `first * (1 - amount) + second * amount`, and the sum converted back.
   */
  function Lerp<S>(to: S -> Option<real>, from: real -> Option<S>,
                   value1: Vector3.Vector3<S>, value2: Vector3.Vector3<S>, amount: real): (r: Result<Vector3.Vector3<S>>)
    ensures AsVector3(to, value1).Failure? || AsVector3(to, value2).Failure? ==> r == Failure(Overflow)
    ensures AsVector3(to, value1).Success? && AsVector3(to, value2).Success? ==>
      r == AsVector3(from, Vector3.Lerp(AsVector3(to, value1).value, AsVector3(to, value2).value, amount))
    ensures r.Failure? ==> r.error == Overflow
  {
    var weight1 := 1.0 - amount;
    var converted1 :- AsVector3(to, value1);
    var first := Vector3.Scale(converted1, weight1);
    var converted2 :- AsVector3(to, value2);
    var second := Vector3.Scale(converted2, amount);
    AsVector3(from, Vector3.Add(first, second))
  }

  /** With exact conversions, amount zero gives the first vector and amount one the second. */
  lemma LerpEndpoints<S(!new)>(to: S -> Option<real>, from: real -> Option<S>,
                               value1: Vector3.Vector3<S>, value2: Vector3.Vector3<S>)
    requires ExactConversion(to, from)
    ensures Lerp(to, from, value1, value2, 0.0) == Success(value1)
    ensures Lerp(to, from, value1, value2, 1.0) == Success(value2)
  {
    AsVector3RoundTrip(to, from, value1);
    AsVector3RoundTrip(to, from, value2);
  }

  /** With exact conversions, interpolating between a vector and itself gives that vector. */
  lemma LerpSame<S(!new)>(to: S -> Option<real>, from: real -> Option<S>, value: Vector3.Vector3<S>, amount: real)
    requires ExactConversion(to, from)
    ensures Lerp(to, from, value, value, amount) == Success(value)
  {
    AsVector3RoundTrip(to, from, value);
    Vector3.LerpSame(AsVector3(to, value).value, amount);
  }
}
