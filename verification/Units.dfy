/** Constants of the source's number types: durations count nanoseconds, sizes are 64-bit unsigned. */
module Units {
  const SECOND: int := 1_000_000_000
  const TWO64: int := 0x1_0000_0000_0000_0000
}
