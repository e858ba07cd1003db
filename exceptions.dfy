/** Python's exception kinds as they surface from the toolkit, and the
    result of an operation that either returns a value or raises. */
module Exceptions {

  datatype Exception =
    | ValueError(message: string)
    | RuntimeError(message: string)
    | KeyError(key: string)
    | TypeError(message: string)

  /** Either a returned value or a raised exception. */
  datatype Result<+T> = Ok(value: T) | Raise(exc: Exception)

  datatype Option<+T> = None | Some(value: T)

  /** Decimal rendering of a natural number, as Python's f-string prints an int. */
  function NatToString(n: nat): (s: string)
    ensures |s| >= 1
    decreases n
  {
    if n < 10 then [DigitChar(n)] else NatToString(n / 10) + [DigitChar(n % 10)]
  }

  function DigitChar(d: nat): char
    requires d < 10
  {
    "0123456789"[d]
  }

  /** Decimal rendering of an integer, with a leading '-' when negative. */
  function IntToString(i: int): (s: string)
    ensures |s| >= 1
  {
    if i < 0 then "-" + NatToString(-i) else NatToString(i)
  }
}
