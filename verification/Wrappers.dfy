/** Shared value types: optional values and the widths of the machine integers the daemon uses. */
module Wrappers {

  datatype Option<+T> = None | Some(value: T)

  /** A Go `error` return beside a value. */
  datatype Result<+T> = Ok(value: T) | Err

  const TWO_TO_THE_32: nat := 0x1_0000_0000

  function Max(a: int, b: int): int {
    if a < b then b else a
  }

  /** The nearest whole number, halves to even. */
  function NearestEven(r: real): int {
    var f := r.Floor;
    var excess := r - f as real;
    if excess < 0.5 || (excess == 0.5 && f % 2 == 0) then f else f + 1
  }

  /** It is never more than a half away, and even if it is just that. */
  lemma NearestIsHalfAway(r: real)
    ensures -0.5 <= NearestEven(r) as real - r <= 0.5
    ensures NearestEven(r) as real - r == 0.5 || NearestEven(r) as real - r == -0.5 ==> NearestEven(r) % 2 == 0
  {
  }
}
