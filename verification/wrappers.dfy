/** Option/Result datatypes shared by every module, plus the Java integer
    semantics (32-bit wrap-around, saturating double-to-int casts and
    truncating division) that several operations depend on. */
module Wrappers {

  datatype Option<+T> = None | Some(value: T) {
    function GetOr(default: T): T {
      match this
      case Some(v) => v
      case None => default
    }
  }

  /** The exceptions the modelled code can raise, named after the Java
      exception that would be thrown. */
  datatype Error =
    | NullPointer          // unboxing or dereferencing null
    | ClassCast            // a cast of a configuration value to the wrong type
    | IndexOutOfBounds     // an array or string index outside its bounds
    | IllegalArgument(msg: string)
    | IO(msg: string)
    | Unchecked(msg: string)  // any other runtime exception

  datatype Result<+T> = Ok(value: T) | Err(error: Error) {
    predicate IsFailure() { Err? }

    function PropagateFailure<U>(): Result<U>
      requires Err?
    {
      Err(error)
    }

    function Extract(): T
      requires Ok?
    {
      value
    }
  }
}

/** Java primitive integer types and their arithmetic. */
module JavaInt {

  const TWO_32: int := 0x1_0000_0000
  const TWO_64: int := 0x1_0000_0000_0000_0000
  const INT_MIN: int := -0x8000_0000
  const INT_MAX: int := 0x7FFF_FFFF

  type int32 = x: int | -0x8000_0000 <= x < 0x8000_0000
  type int64 = x: int | -0x8000_0000_0000_0000 <= x < 0x8000_0000_0000_0000
  /** A byte as its unsigned value (`b & 0xFF` in Java). */
  type byte = x: int | 0 <= x < 256

  /** Two's-complement wrap-around of Java `int` arithmetic. */
  function Wrap32(x: int): (r: int32)
    ensures (r - x) % TWO_32 == 0
    ensures INT_MIN <= x <= INT_MAX ==> r == x
    ensures INT_MAX < x <= INT_MAX + TWO_32 ==> r == x - TWO_32
  {
    var m := x % TWO_32;
    if m < 0x8000_0000 then m else m - TWO_32
  }

  /** Java's `(int)` cast of a double holding an integral value: values
      outside the `int` range saturate. */
  function Saturate32(x: int): (r: int32)
    ensures INT_MIN <= x <= INT_MAX ==> r == x
    ensures x > INT_MAX ==> r == INT_MAX
    ensures x < INT_MIN ==> r == INT_MIN
  {
    if x > INT_MAX then INT_MAX else if x < INT_MIN then INT_MIN else x
  }

  /** Java's integer division, which truncates toward zero (Dafny's `/`
      is Euclidean). */
  function TruncDiv(a: int, b: int): (q: int)
    requires b > 0
    ensures a >= 0 ==> q == a / b
    ensures a < 0 ==> q == -((-a) / b)
  {
    if a >= 0 then a / b else -((-a) / b)
  }

  /** `Math.abs` on an `int`: the absolute value of INT_MIN is INT_MIN. */
  function Abs32(x: int32): (r: int32)
    ensures x != INT_MIN ==> r >= 0 && (r == x || r == -x)
    ensures x == INT_MIN ==> r == INT_MIN
  {
    Wrap32(if x < 0 then 0 - x as int else x as int)
  }
}
