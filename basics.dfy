/** Small value types shared by the three scripts' models. */
module Basics {

  /** An optional value: a declared no-data value, a parsed number. */
  datatype Option<+T> = None | Some(value: T)

  /** The outcome of a step that can raise: a value, or the error it raises. */
  datatype Result<+T, +E> = Ok(value: T) | Err(error: E)

  /** Absolute value on exact reals (Python's `abs`). */
  function Abs(x: real): (r: real)
    ensures r >= 0.0
    ensures r == x || r == -x
  {
    if x < 0.0 then -x else x
  }

  /** Larger of two integers (numpy's elementwise `maximum` on one cell). */
  function Max(a: int, b: int): (m: int)
    ensures a <= m && b <= m
    ensures m == a || m == b
  {
    if a < b then b else a
  }
}
