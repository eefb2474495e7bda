/** Go's 64-bit integers: the value range and what overflow does. */
module Int64 {
  const TWO_63: int := 0x8000_0000_0000_0000
  const TWO_64: int := 0x1_0000_0000_0000_0000

  predicate IsInt64(n: int) {
    -TWO_63 <= n < TWO_63
  }

  /** The int64 that two's-complement arithmetic leaves in place of the mathematical value `n`. */
  function Wrap64(n: int): (r: int)
    ensures IsInt64(r)
    ensures IsInt64(n) ==> r == n
    ensures exists k: int :: r == n + k * TWO_64
  {
    var r := (n + TWO_63) % TWO_64 - TWO_63;
    assert r == n + (-((n + TWO_63) / TWO_64)) * TWO_64;
    r
  }

  function Pow2(e: nat): (r: nat)
    ensures r >= 1
  {
    if e == 0 then 1 else 2 * Pow2(e - 1)
  }

  /** `b << e` on an int64: a count of 64 or more shifts every bit out. */
  function ShiftLeft64(b: int, e: nat): (r: int)
    ensures IsInt64(r)
  {
    if e >= 64 then 0 else Wrap64(b * Pow2(e))
  }

  lemma {:induction false} Pow2Add(a: nat, b: nat)
    ensures Pow2(a + b) == Pow2(a) * Pow2(b)
  {
    if b > 0 {
      Pow2Add(a, b - 1);
      calc {
        Pow2(a + b);
        2 * Pow2(a + (b - 1));
        2 * (Pow2(a) * Pow2(b - 1));
        Pow2(a) * (2 * Pow2(b - 1));
      }
    }
  }

  lemma {:induction false} Pow2Mono(a: nat, b: nat)
    requires a <= b
    ensures Pow2(a) <= Pow2(b)
  {
    if a < b {
      Pow2Mono(a, b - 1);
    }
  }

  lemma {:induction false} Pow2Cubed(e: nat, x: nat)
    requires Pow2(e) == x
    ensures Pow2(3 * e) == x * x * x
  {
    Pow2Add(e, e);
    Pow2Add(2 * e, e);
  }

  lemma {:induction false} Pow2Of57()
    ensures Pow2(57) == 0x200_0000_0000_0000
  {
    assert Pow2(6) == 64;
    Pow2Cubed(6, 64);
    assert Pow2(19) == 2 * Pow2(18);
    Pow2Cubed(19, 0x8_0000);
  }
}
