/**
 Four-decimal rounding (packages/types/src/canonical.ts, round4) over the reals:
 Math.round rounds halves up, so it is the floor of x + 1/2.
 */
module Rounding {
  function Round(x: real): int { (x + 0.5).Floor }

  function Round4(x: real): real { Round(x * 10000.0) as real / 10000.0 }

  /** The rounded price is the one count of ten-thousandths within half of one of it, the upper one on a tie. */
  lemma Round4Exactly(x: real, n: int)
    ensures Round4(x) == n as real / 10000.0 <==> -0.00005 < n as real / 10000.0 - x <= 0.00005
  {
    var m := Round(x * 10000.0);
    assert m as real <= x * 10000.0 + 0.5 < m as real + 1.0;
    if m != n { assert m + 1 <= n || n + 1 <= m; }
  }

  /** Rounding moves a price by at most half a unit of the fourth decimal. */
  lemma Round4Error(x: real)
    ensures -0.00005 <= Round4(x) - x <= 0.00005
  {
  }

  lemma Round4Monotone(x: real, y: real)
    requires x <= y
    ensures Round4(x) <= Round4(y)
  {
    assert Round(x * 10000.0) <= Round(y * 10000.0);
  }

  lemma RoundInteger(n: int)
    ensures Round(n as real) == n
  {
  }

  /** A rounded price is on the grid, so rounding it again changes nothing. */
  lemma Round4Idempotent(x: real)
    ensures Round4(Round4(x)) == Round4(x)
  {
    var n := Round(x * 10000.0);
    RoundInteger(n);
    assert Round4(x) * 10000.0 == n as real;
  }
}
