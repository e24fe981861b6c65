/**
 * The exceptions the library raises, and the result of a call that may raise one.
 * A call that throws in the library returns `Failure(e)` here.
 */
module Results {

  /** The .NET exceptions raised by the modelled members. */
  datatype Exception =
    | ArgumentOutOfRange(paramName: string)  // System.ArgumentOutOfRangeException
    | IndexOutOfRange                        // System.IndexOutOfRangeException, from reading past a span's end
    | Overflow                               // System.OverflowException, from a checked scalar conversion

  datatype Option<+T> = None | Some(value: T)

  /** Either the value a call returns or the exception it raises. */
  datatype Result<+T> = Success(value: T) | Failure(error: Exception) {
    predicate IsFailure() { Failure? }

    function PropagateFailure<U>(): Result<U>
      requires Failure?
    {
      Failure(error)
    }

    function Extract(): T
      requires Success?
    {
      value
    }
  }

  /** The outcome of a `void` call: it returns normally or raises. */
  datatype Outcome = Pass | Fail(error: Exception)
}
