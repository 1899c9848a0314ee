/** `Math.round` and the two-decimal rounding built on it, in exact arithmetic. */
module Rounding {

  function Round(x: real): int { (x + 0.5).Floor }

  function Round2(x: real): real { Round(x * 100.0) as real / 100.0 }

  /** Rounding to cents moves an amount by half a cent at most, and up from half, and a whole number of cents not at all. */
  lemma HalfCent(x: real, cents: int)
    ensures -0.005 < Round2(x) - x <= 0.005
    ensures Round2(cents as real / 100.0) == cents as real / 100.0
  {
    var k := Round(x * 100.0);
    Quotients(k, x * 100.0);
    assert cents as real / 100.0 * 100.0 == cents as real;
    assert Round(cents as real) == cents;
  }

  lemma Quotients(k: int, y: real)
    requires k == Round(y)
    ensures -0.005 < k as real / 100.0 - y / 100.0 <= 0.005
  {
    var d := k as real - y;
    assert -0.5 < d <= 0.5;
    assert k as real / 100.0 - y / 100.0 == d / 100.0;
  }
}
