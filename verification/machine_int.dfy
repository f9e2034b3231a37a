/** Go's 64-bit integers. */
module MachineInt {
  const MIN_INT64 := -0x8000_0000_0000_0000
  const MAX_INT64 := 0x7FFF_FFFF_FFFF_FFFF

  const TWO_TO_64 := 0x1_0000_0000_0000_0000

  predicate IsInt64(x: int) {
    MIN_INT64 <= x <= MAX_INT64
  }

  /** The result of an int64 operation whose exact result is `x`. */
  function WrapInt64(x: int): (r: int)
    ensures IsInt64(r)
    ensures IsInt64(x) ==> r == x
  {
    (x - MIN_INT64) % TWO_TO_64 + MIN_INT64
  }

  /** The conversion uint64(x). */
  function ToUint64(x: int): nat {
    x % TWO_TO_64
  }
}
