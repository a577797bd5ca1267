/** Go's byte, and the limits of its int, int64 and uint64, and its integer division. */
module GoInts {
  type byte = b: int | 0 <= b < 256

  const MAX63 := 0x8000_0000_0000_0000
  const MAX64 := 0x1_0000_0000_0000_0000

  /** Go's integer division, which rounds toward zero. */
  function Quot(a: int, b: int): int
    requires b != 0
  {
    if (a >= 0) == (b > 0) then (if b > 0 then a / b else -a / -b)
    else -(if b > 0 then -a / b else a / -b)
  }
}
