/**
 Integer products and quotients, named so that a proof can hide them and reason
 from the few laws it needs. `Floor` and `Ceil` are the two roundings of the
 source's mulDiv on non-negative operands.
 */
module IntegerArithmetic {
  function Mul(a: int, b: int): int { a * b }

  function Floor(n: int, d: int): int
    requires d > 0
  {
    n / d
  }

  function Ceil(n: int, d: int): int
    requires d > 0
  {
    if n % d == 0 then n / d else n / d + 1
  }

  lemma MulAdd(a: int, b: int, c: int)
    ensures Mul(a, b + c) == Mul(a, b) + Mul(a, c)
    ensures Mul(b + c, a) == Mul(b, a) + Mul(c, a)
  {
  }

  lemma MulSub(a: int, b: int, c: int)
    ensures Mul(a, b - c) == Mul(a, b) - Mul(a, c)
    ensures Mul(b - c, a) == Mul(b, a) - Mul(c, a)
  {
  }

  lemma MulUnit(a: int)
    ensures Mul(a, 0) == 0 == Mul(0, a)
    ensures Mul(a, 1) == a == Mul(1, a)
  {
  }

  lemma MulCommutes(a: int, b: int)
    ensures Mul(a, b) == Mul(b, a)
  {
  }

  lemma MulAssociates(a: int, b: int, c: int)
    ensures Mul(a, Mul(b, c)) == Mul(Mul(a, b), c)
  {
    assert a * (b * c) == (a * b) * c;
  }

  lemma MulOrder(a: int, b: int, c: int)
    requires a >= 0 && b <= c
    ensures Mul(a, b) <= Mul(a, c) && Mul(b, a) <= Mul(c, a)
  {
  }

  lemma MulStrict(a: int, b: int, c: int)
    requires a > 0 && b < c
    ensures Mul(a, b) < Mul(a, c) && Mul(b, a) < Mul(c, a)
  {
  }

  /** The floor is the largest multiple at or below, the ceiling the smallest at or above. */
  lemma DivisionBounds(n: int, d: int)
    requires d > 0
    ensures Mul(d, Floor(n, d)) <= n < Mul(d, Floor(n, d)) + d
    ensures n <= Mul(d, Ceil(n, d)) < n + d
  {
    var q, r := n / d, n % d;
    assert n == d * q + r;
    assert d * (q + 1) == d * q + d;
  }

  /** The exact quotient the two roundings bracket. */
  function Ratio(n: int, d: int): real
    requires d > 0
  {
    n as real / d as real
  }

  lemma RatioRounds(n: int, d: int)
    requires d > 0
    ensures Floor(n, d) as real <= Ratio(n, d) < Floor(n, d) as real + 1.0
    ensures Ratio(n, d) <= Ceil(n, d) as real < Ratio(n, d) + 1.0
  {
    DivisionBounds(n, d);
    var f, c := Floor(n, d), Ceil(n, d);
    ScaledOrder(d, f, n);
    ScaledOrder(d, c, n);
    MulAdd(d, f, 1);
    ScaledOrder(d, f + 1, n);
    MulSub(d, c, 1);
    ScaledOrder(d, c - 1, n);
  }

  /** Comparing a quotient with a whole number is comparing the dividend with its multiple. */
  lemma ScaledOrder(d: int, q: int, n: int)
    requires d > 0
    ensures Mul(d, q) <= n <==> q as real <= Ratio(n, d)
    ensures Mul(d, q) >= n <==> q as real >= Ratio(n, d)
  {
    var x := Ratio(n, d);
    assert x * d as real == n as real;
    assert q as real * d as real == (q * d) as real;
    if q as real <= x { assert q as real * d as real <= x * d as real; }
    if q as real >= x { assert q as real * d as real >= x * d as real; }
    if q as real < x { assert q as real * d as real < x * d as real; }
    if q as real > x { assert q as real * d as real > x * d as real; }
  }

  /** Any quotient bracketed like the floor is the floor. */
  lemma FloorUnique(n: int, d: int, q: int)
    requires d > 0 && Mul(d, q) <= n < Mul(d, q) + d
    ensures Floor(n, d) == q
  {
    hide Mul, Floor;
    DivisionBounds(n, d);
    var f := Floor(n, d);
    if f < q {
      MulOrder(d, f + 1, q);
      MulAdd(d, f, 1);
      MulUnit(d);
    }
    if f > q {
      MulOrder(d, q + 1, f);
      MulAdd(d, q, 1);
      MulUnit(d);
    }
  }

  lemma CeilUnique(n: int, d: int, q: int)
    requires d > 0 && n <= Mul(d, q) < n + d
    ensures Ceil(n, d) == q
  {
    hide Mul, Ceil;
    DivisionBounds(n, d);
    var c := Ceil(n, d);
    if c < q {
      MulOrder(d, c + 1, q);
      MulAdd(d, c, 1);
      MulUnit(d);
    }
    if c > q {
      MulOrder(d, q + 1, c);
      MulAdd(d, q, 1);
      MulUnit(d);
    }
  }

  lemma FloorOrder(m: int, n: int, d: int)
    requires d > 0 && m <= n
    ensures Floor(m, d) <= Floor(n, d) && Ceil(m, d) <= Ceil(n, d)
  {
    hide Mul, Floor, Ceil;
    DivisionBounds(m, d);
    DivisionBounds(n, d);
    if Floor(m, d) > Floor(n, d) {
      MulOrder(d, Floor(n, d) + 1, Floor(m, d));
      MulAdd(d, Floor(n, d), 1);
      MulUnit(d);
    }
    if Ceil(m, d) > Ceil(n, d) {
      MulOrder(d, Ceil(n, d) + 1, Ceil(m, d));
      MulAdd(d, Ceil(n, d), 1);
      MulUnit(d);
    }
  }

  /** Splitting a floored amount in two loses at most one unit, and never gains. */
  lemma FloorSplits(m: int, n: int, d: int)
    requires d > 0
    ensures Floor(m, d) + Floor(n, d) <= Floor(m + n, d) <= Floor(m, d) + Floor(n, d) + 1
  {
    hide Mul, Floor, Ceil;
    DivisionBounds(m, d);
    DivisionBounds(n, d);
    var q := Floor(m, d) + Floor(n, d);
    MulAdd(d, Floor(m, d), Floor(n, d));
    if m + n < Mul(d, q) + d {
      FloorUnique(m + n, d, q);
    } else {
      MulAdd(d, q, 1);
      MulUnit(d);
      FloorUnique(m + n, d, q + 1);
    }
  }

  /** Rounding up is rounding the negation down. */
  lemma CeilIsNegatedFloor(n: int, d: int)
    requires d > 0
    ensures Ceil(n, d) == -Floor(-n, d)
  {
    hide Mul, Floor, Ceil;
    DivisionBounds(-n, d);
    MulSub(d, 0, Floor(-n, d));
    MulUnit(d);
    CeilUnique(n, d, -Floor(-n, d));
  }

  lemma ExactDivision(q: int, d: int)
    requires d > 0
    ensures Floor(Mul(d, q), d) == q == Ceil(Mul(d, q), d)
  {
    hide Mul, Floor, Ceil;
    FloorUnique(Mul(d, q), d, q);
    CeilUnique(Mul(d, q), d, q);
  }
}
