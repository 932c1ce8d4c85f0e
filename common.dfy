/** Shared vocabulary: optional values, results with an error, and Java's
    fixed-width two's-complement integer arithmetic. */
module Common {

  datatype Option<+T> = None | Some(value: T)

  /** A value or the error that stopped its computation (a Java exception). */
  datatype Result<+T, +E> = Success(value: T) | Failure(error: E) {
    predicate IsFailure() { Failure? }
    function PropagateFailure<U>(): Result<U, E>
      requires Failure?
    {
      Failure(error)
    }
    function Extract(): T
      requires Success?
    {
      value
    }
  }

  const INT32_MIN: int := -0x8000_0000
  const INT32_MAX: int := 0x7FFF_FFFF
  const INT64_MIN: int := -0x8000_0000_0000_0000
  const INT64_MAX: int := 0x7FFF_FFFF_FFFF_FFFF

  predicate IsInt32(x: int) { INT32_MIN <= x <= INT32_MAX }
  predicate IsInt64(x: int) { INT64_MIN <= x <= INT64_MAX }

  /** Java `int`. */
  type int32 = x: int | -0x8000_0000 <= x <= 0x7FFF_FFFF

  /** The Java `int` that an exact result wraps around to. */
  function Wrap32(x: int): (r: int32)
    ensures IsInt32(x) ==> r == x
    ensures (x - r) % 0x1_0000_0000 == 0
  {
    (x + 0x8000_0000) % 0x1_0000_0000 - 0x8000_0000
  }

  /** The Java `long` that an exact result wraps around to. */
  function Wrap64(x: int): (r: int)
    ensures IsInt64(r)
    ensures IsInt64(x) ==> r == x
    ensures (x - r) % 0x1_0000_0000_0000_0000 == 0
  {
    (x + 0x8000_0000_0000_0000) % 0x1_0000_0000_0000_0000 - 0x8000_0000_0000_0000
  }

  /** `Math.abs` on an `int`: the negation of `Integer.MIN_VALUE` stays negative. */
  function Abs32(x: int32): (r: int32)
    ensures x != INT32_MIN ==> r >= 0 && (r == x || r == -x)
    ensures x == INT32_MIN ==> r == x
  {
    if x >= 0 then x else Wrap32(-(x as int))
  }

  /** A non-empty set has an element (the witness `:|` needs). */
  lemma NonEmptyHasElement(s: set<int>)
    requires s != {}
    ensures exists x :: x in s
  {
    assert (forall x :: x !in s) ==> s == {};
  }

  /** Concatenation regroups (stated once, so that long proofs need not rediscover it). */
  lemma ConcatAssociates<T>(a: seq<T>, b: seq<T>, c: seq<T>)
    ensures (a + b) + c == a + (b + c)
  {
  }
}
