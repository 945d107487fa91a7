/**
 Products of reals, named so that a proof can hide the multiplication and
 reason from the few laws it needs.
 */
module RealArithmetic {
  function Times(a: real, b: real): real { a * b }

  function Min(a: real, b: real): real { if a <= b then a else b }

  function Max(a: real, b: real): real { if a <= b then b else a }

  lemma TimesAdd(a: real, b: real, c: real)
    ensures Times(a, b + c) == Times(a, b) + Times(a, c)
    ensures Times(b + c, a) == Times(b, a) + Times(c, a)
  {
  }

  lemma TimesSub(a: real, b: real, c: real)
    ensures Times(a, b - c) == Times(a, b) - Times(a, c)
    ensures Times(b - c, a) == Times(b, a) - Times(c, a)
  {
  }

  lemma TimesUnit(a: real)
    ensures Times(a, 0.0) == 0.0 == Times(0.0, a)
    ensures Times(a, 1.0) == a == Times(1.0, a)
  {
  }

  lemma TimesOrder(a: real, b: real, c: real)
    requires a >= 0.0 && b <= c
    ensures Times(a, b) <= Times(a, c) && Times(b, a) <= Times(c, a)
  {
  }

  lemma TimesStrict(a: real, b: real, c: real)
    requires a > 0.0 && b < c
    ensures Times(a, b) < Times(a, c) && Times(b, a) < Times(c, a)
  {
  }

  lemma TimesAssociates(a: real, b: real, c: real)
    ensures Times(a, Times(b, c)) == Times(Times(a, b), c)
    ensures Times(a, b) == Times(b, a)
  {
    assert a * (b * c) == (a * b) * c;
  }

  lemma TimesCancel(a: real, b: real, c: real)
    requires c > 0.0 && Times(a, c) == Times(b, c)
    ensures a == b
  {
  }

  /** A quotient is the number that multiplies back. */
  lemma Quotient(a: real, b: real)
    requires b != 0.0
    ensures Times(a / b, b) == a
  {
  }

  lemma QuotientOrder(a: real, b: real, c: real)
    requires b > 0.0
    ensures a / b <= c <==> a <= Times(c, b)
    ensures a / b >= c <==> a >= Times(c, b)
  {
    var q := a / b;
    assert q * b == a;
    if q <= c { assert q * b <= c * b; }
    if q >= c { assert q * b >= c * b; }
    if q > c { assert q * b > c * b; }
    if q < c { assert q * b < c * b; }
  }

  lemma QuotientPositive(a: real, b: real)
    requires a > 0.0 && b > 0.0
    ensures a / b > 0.0
  {
  }
}
