/** Value-or-nothing and value-or-error types shared by every module.
    `Option` stands for Python's `X | None`; `Result` stands for a call that
    either returns or raises one of the Python exceptions in `PyError`. */
module Wrappers {

  datatype Option<+T> = None | Some(value: T)

  datatype Result<+T> = Success(value: T) | Failure(error: PyError)

  /** The exceptions the modelled Python code can raise on its own inputs. */
  datatype PyError =
    | ZeroDivisionError   // `1.0 / 0`, `n % 0`
    | IndexError          // indexing an empty numpy axis
    | ValueError          // argmin of an empty array

  /** A floating-point value as seen by `np.isfinite`: a real number, or NaN/inf. */
  datatype Num = Finite(v: real) | NonFinite

  function Abs(x: real): (r: real)
    ensures r >= 0.0 && (r == x || r == -x)
  {
    if x < 0.0 then -x else x
  }

  function Min(a: real, b: real): (r: real)
    ensures r <= a && r <= b && (r == a || r == b)
  {
    if b < a then b else a
  }

  function Max(a: real, b: real): (r: real)
    ensures r >= a && r >= b && (r == a || r == b)
  {
    if b > a then b else a
  }
}
