/** Integer division as Go defines it: truncated towards zero. */
module GoIntegers {

  /** Go divides durations towards zero. */
  function TruncDiv(a: int, b: int): int
    requires b > 0
  {
    if a >= 0 then a / b else -(-a / b)
  }

  /** The remainder that goes with it; it has the sign of a. */
  function TruncMod(a: int, b: int): int
    requires b > 0
  {
    a - TruncDiv(a, b) * b
  }
}
