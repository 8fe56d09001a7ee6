/** Ticks, on which requests are timed. */
module Clock {
  import opened Bits

  /** Ticks between two collections of late requests. */
  const GC_TICK: nat := 2

  /** `a - b` on uint64. */
  function Sub64(a: int, b: int): nat { (a - b) % TWO_64 }
}
