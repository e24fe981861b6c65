/** The guard clauses the library uses before reading a component. */
module ThrowHelpers {
  import opened Results
  import opened Numerics

  /** `ThrowArgumentOutOfRangeException`: never returns normally. */
  function ThrowArgumentOutOfRangeException<T>(paramName: string): (r: Result<T>)
    ensures r.Failure? && r.error == ArgumentOutOfRange(paramName)
  {
    Failure(ArgumentOutOfRange(paramName))
  }

  /** `ThrowIfGreaterThanOrEqual` on unsigned values: raises iff `value.CompareTo(other) >= 0`. */
  function ThrowIfGreaterThanOrEqual(value: uint32, other: uint32, paramName: string): (r: Outcome)
    ensures r == Pass <==> value < other
    ensures r.Fail? ==> r.error == ArgumentOutOfRange(paramName)
  {
    if value >= other then Fail(ArgumentOutOfRange(paramName)) else Pass
  }

  /**
   * Comparing `(uint)index` against `(uint)count` checks both bounds at once:
   * the guard passes exactly for `0 <= index < count`, since every negative index
   * becomes at least 2^31.
   */
  lemma UnsignedRangeCheck(index: int32, count: uint32, paramName: string)
    requires count as int <= 0x8000_0000
    ensures ThrowIfGreaterThanOrEqual(AsUInt32(index), count, paramName) == Pass
            <==> 0 <= index as int < count as int
  {
  }
}
