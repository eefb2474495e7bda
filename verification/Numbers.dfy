/** Units of time, in nanoseconds, and a little arithmetic. */
module Numbers {
  const SECOND: int := 1_000_000_000
  const MINUTE: int := 60_000_000_000

  function Min(a: int, b: int): int {
    if a < b then a else b
  }

  lemma {:induction false} MulMono(a: int, x: int, y: int)
    ensures a >= 0 && x <= y ==> a * x <= a * y && x * a <= y * a
  {
  }
}
