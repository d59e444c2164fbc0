/** Durations are 64-bit counts of nanoseconds; instants are counted from some fixed origin. */
module GoTime {
  const SECOND := 1_000_000_000
  const MINUTE := 60 * SECOND
  const HOUR := 60 * MINUTE

  const TWO63 := 0x8000_0000_0000_0000
  const TWO64 := 0x1_0000_0000_0000_0000

  type int64 = x: int | -TWO63 <= x < TWO63

  /** Reduces an integer to 64-bit two's complement. */
  function Wrap64(x: int): (r: int)
    ensures -TWO63 <= r < TWO63 && (r - x) % TWO64 == 0
    ensures -TWO63 <= x < TWO63 ==> r == x
  {
    (x + TWO63) % TWO64 - TWO63
  }

  /** t.Sub(u): the difference, saturated at the ends of the 64-bit range. */
  function Sub(t: int, u: int): (d: int)
    ensures -TWO63 <= d < TWO63
  {
    if t - u < -TWO63 then -TWO63 else if t - u >= TWO63 then TWO63 - 1 else t - u
  }
}
