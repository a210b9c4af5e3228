/** Machine integers. */
module Ints {
  const MIN64: int := -0x8000_0000_0000_0000
  const MAX64: int := 0x7FFF_FFFF_FFFF_FFFF
  const MIN32: int := -0x8000_0000
  const MAX32: int := 0x7FFF_FFFF

  /** Two's complement truncation to 32 bits. */
  function Wrap32(x: int): (w: int)
    ensures MIN32 <= w <= MAX32
    ensures MIN32 <= x <= MAX32 ==> w == x
  {
    (x - MIN32) % 0x1_0000_0000 + MIN32
  }

  /** Two's complement truncation to 64 bits. */
  function Wrap64(x: int): (w: int)
    ensures MIN64 <= w <= MAX64
    ensures MIN64 <= x <= MAX64 ==> w == x
  {
    (x - MIN64) % 0x1_0000_0000_0000_0000 + MIN64
  }

  /** A configured number of seconds in milliseconds, computed in 32-bit arithmetic. */
  function Millis(seconds: int): (ms: int)
    ensures 1 <= seconds <= 2147483 ==> ms == 1000 * seconds
  {
    Wrap32(seconds * 1000)
  }
}
