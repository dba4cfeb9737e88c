/** Unsigned 64-bit machine arithmetic, with the wrap-around of Go's uint64 written out. */
module Words {

  const LIMIT: int := 0x1_0000_0000_0000_0000

  type u64 = x: int | 0 <= x < LIMIT

  const MAX: u64 := LIMIT - 1

  function WrapAdd(a: u64, b: u64): u64 {
    if a + b < LIMIT then a + b else a + b - LIMIT
  }

  function WrapSub(a: u64, b: u64): u64 {
    if a >= b then a - b else a - b + LIMIT
  }
}
