/**
 How a finite number prints (packages/types/src/canonical.ts, formatNumber):
 Number::toString of ECMAScript on the shortest round-trip digits, with -0
 printed as 0. A non-zero double is its sign, its shortest digits and the
 position of the decimal point; decoding recovers all three.
 */
module JsonNumbers {
  /** A UTF-16 code unit. */
  type CodeUnit = u: int | 0 <= u < 0x1_0000
  type Text = seq<CodeUnit>
  type Digit = d: int | 0 <= d < 10

  const MINUS: CodeUnit := '-' as int
  const PLUS: CodeUnit := '+' as int
  const DOT: CodeUnit := '.' as int
  const ZERO: CodeUnit := '0' as int
  const EXP: CodeUnit := 'e' as int

  /** Zero of either sign, or 0.d1 d2 ... dk * 10^point with d1 and dk non-zero. */
  datatype Decimal = Zero(negativeZero: bool) | NonZero(negative: bool, digits: seq<Digit>, point: int)

  predicate Shortest(d: Decimal) {
    d.NonZero? ==> d.digits != [] && d.digits[0] != 0 && d.digits[|d.digits| - 1] != 0
  }

  // ---------------------------------------------------------------- printing

  function DigitText(ds: seq<Digit>): (t: Text)
    ensures |t| == |ds|
  {
    seq(|ds|, i requires 0 <= i < |ds| => ZERO + ds[i])
  }

  function Zeros(n: nat): (ds: seq<Digit>)
    ensures |ds| == n
  {
    seq(n, _ => 0)
  }

  /** Decimal digits of a natural number. */
  function NatDigits(n: nat): (ds: seq<Digit>)
    ensures ds != []
  {
    if n < 10 then [n] else NatDigits(n / 10) + [n % 10]
  }

  function Exponent(e: int): Text {
    [EXP] + (if e < 0 then [MINUS] + DigitText(NatDigits(-e)) else [PLUS] + DigitText(NatDigits(e)))
  }

  /** Number::toString of a positive value with digits `ds` and point `n`. */
  function PositiveText(ds: seq<Digit>, n: int): Text
    requires ds != []
  {
    var k := |ds|;
    if k <= n <= 21 then DigitText(ds + Zeros(n - k))
    else if 0 < n <= 21 then DigitText(ds[..n]) + [DOT] + DigitText(ds[n..])
    else if -6 < n <= 0 then DigitText([0]) + [DOT] + DigitText(Zeros(-n) + ds)
    else if k == 1 then DigitText(ds) + Exponent(n - 1)
    else DigitText(ds[..1]) + [DOT] + DigitText(ds[1..]) + Exponent(n - 1)
  }

  function NumberText(d: Decimal): Text
    requires Shortest(d)
  {
    if d.Zero? then [ZERO]
    else (if d.negative then [MINUS] else []) + PositiveText(d.digits, d.point)
  }

  // ---------------------------------------------------------------- decoding

  function IndexOf(t: Text, c: CodeUnit): (i: nat)
    ensures i <= |t|
    ensures i < |t| ==> t[i] == c
  {
    if t == [] || t[0] == c then 0 else 1 + IndexOf(t[1..], c)
  }

  function TextDigits(t: Text): (ds: seq<Digit>)
    ensures |ds| == |t|
  {
    seq(|t|, i requires 0 <= i < |t| => if 48 <= t[i] < 58 then t[i] - 48 else 0)
  }

  function Value(ds: seq<Digit>): nat {
    if ds == [] then 0 else 10 * Value(ds[..|ds| - 1]) + ds[|ds| - 1]
  }

  function DecodeExponent(t: Text): int {
    var i := IndexOf(t, EXP);
    if i + 1 >= |t| then 0
    else if t[i + 1] == MINUS then -(Value(TextDigits(t[i + 2..])) as int) else Value(TextDigits(t[i + 2..]))
  }

  function LeadingZeros(ds: seq<Digit>): (n: nat)
    ensures n <= |ds|
  {
    if ds == [] || ds[0] != 0 then 0 else 1 + LeadingZeros(ds[1..])
  }

  function StripTrailing(ds: seq<Digit>): seq<Digit> {
    if ds == [] || ds[|ds| - 1] != 0 then ds else StripTrailing(ds[..|ds| - 1])
  }

  /** The digits before and after the point of a mantissa. */
  function IntegerPart(m: Text): Text { m[..IndexOf(m, DOT)] }

  function FractionPart(m: Text): Text {
    var i := IndexOf(m, DOT);
    if i == |m| then [] else m[i + 1..]
  }

  function DecodePositive(t: Text): (seq<Digit>, int) {
    var mantissa := t[..IndexOf(t, EXP)];
    var all := TextDigits(IntegerPart(mantissa) + FractionPart(mantissa));
    var lead := LeadingZeros(all);
    (StripTrailing(all[lead..]), |IntegerPart(mantissa)| + DecodeExponent(t) - lead)
  }

  // -------------------------------------------------------------- round trip

  lemma {:induction false} IndexOfSplit(a: Text, c: CodeUnit, b: Text)
    requires c !in a
    ensures IndexOf(a + [c] + b, c) == |a|
    ensures IndexOf(a, c) == |a|
  {
    if a != [] {
      assert (a + [c] + b)[1..] == a[1..] + [c] + b;
      IndexOfSplit(a[1..], c, b);
    }
  }

  lemma DigitTextDecodes(ds: seq<Digit>)
    ensures TextDigits(DigitText(ds)) == ds
    ensures forall c :: c in DigitText(ds) ==> 48 <= c < 58
  {
  }

  lemma DigitTextConcat(a: seq<Digit>, b: seq<Digit>)
    ensures DigitText(a + b) == DigitText(a) + DigitText(b)
    ensures TextDigits(DigitText(a) + DigitText(b)) == a + b
  {
  }

  lemma {:induction false} NatDigitsDecode(n: nat)
    ensures Value(NatDigits(n)) == n
  {
    if n < 10 {
      assert Value([n]) == 10 * Value([]) + n;
    } else {
      NatDigitsDecode(n / 10);
      assert NatDigits(n)[..|NatDigits(n)| - 1] == NatDigits(n / 10);
    }
  }

  lemma {:induction false} StripLeading(n: nat, ds: seq<Digit>)
    requires ds != [] && ds[0] != 0
    ensures LeadingZeros(Zeros(n) + ds) == n && (Zeros(n) + ds)[n..] == ds
  {
    if n != 0 {
      assert (Zeros(n) + ds)[1..] == Zeros(n - 1) + ds;
      StripLeading(n - 1, ds);
    }
  }

  lemma {:induction false} StripZeros(ds: seq<Digit>, n: nat)
    requires ds != [] && ds[|ds| - 1] != 0
    ensures StripTrailing(ds + Zeros(n)) == ds
  {
    if n == 0 {
      assert ds + Zeros(0) == ds;
    } else {
      assert (ds + Zeros(n))[..|ds| + n - 1] == ds + Zeros(n - 1);
      StripZeros(ds, n - 1);
    }
  }

  /** An exponent suffix decodes to its value, and its mantissa is what precedes it. */
  lemma ExponentDecodes(m: Text, e: int)
    requires EXP !in m
    ensures var t := m + Exponent(e); t[..IndexOf(t, EXP)] == m && DecodeExponent(t) == e
  {
    var sign := if e < 0 then MINUS else PLUS;
    var ds := NatDigits(if e < 0 then -e else e);
    var t := m + Exponent(e);
    hide NatDigits, Value, IndexOf;
    assert t == m + [EXP] + ([sign] + DigitText(ds));
    IndexOfSplit(m, EXP, [sign] + DigitText(ds));
    assert t[|m| + 1] == sign && t[|m| + 2..] == DigitText(ds);
    DigitTextDecodes(ds);
    NatDigitsDecode(if e < 0 then -e else e);
  }

  lemma NoExponentDecodes(t: Text)
    requires EXP !in t
    ensures t[..IndexOf(t, EXP)] == t && DecodeExponent(t) == 0
  {
    IndexOfSplit(t, EXP, []);
  }

  lemma PointDecodes(ip: seq<Digit>, fp: seq<Digit>)
    ensures var m := DigitText(ip) + [DOT] + DigitText(fp);
      IntegerPart(m) == DigitText(ip) && FractionPart(m) == DigitText(fp) && EXP !in m
  {
    DigitTextDecodes(ip);
    DigitTextDecodes(fp);
    hide IndexOf, DigitText;
    IndexOfSplit(DigitText(ip), DOT, DigitText(fp));
  }

  lemma NoPointDecodes(ds: seq<Digit>)
    ensures var m := DigitText(ds); IntegerPart(m) == m && FractionPart(m) == [] && EXP !in m
  {
    DigitTextDecodes(ds);
    IndexOfSplit(DigitText(ds), DOT, []);
  }

  /** Decoding a mantissa `ip.fp` with `lead` zeros in front of the digits. */
  lemma MantissaDecodes(t: Text, m: Text, ip: seq<Digit>, fp: seq<Digit>, e: int, ds: seq<Digit>, lead: nat, trail: nat)
    requires ds != [] && ds[0] != 0 && ds[|ds| - 1] != 0
    requires t[..IndexOf(t, EXP)] == m && DecodeExponent(t) == e
    requires IntegerPart(m) == DigitText(ip) && FractionPart(m) == DigitText(fp)
    requires ip + fp == Zeros(lead) + ds + Zeros(trail)
    ensures DecodePositive(t) == (ds, |ip| + e - lead)
  {
    hide IndexOf, LeadingZeros, StripTrailing, DecodeExponent;
    DigitTextConcat(ip, fp);
    var core := ds + Zeros(trail);
    assert Zeros(lead) + ds + Zeros(trail) == Zeros(lead) + core;
    StripLeading(lead, core);
    StripZeros(ds, trail);
  }

  lemma DecodeInteger(ds: seq<Digit>, n: int)
    requires ds != [] && ds[0] != 0 && ds[|ds| - 1] != 0 && |ds| <= n
    ensures DecodePositive(DigitText(ds + Zeros(n - |ds|))) == (ds, n)
  {
    var ip := ds + Zeros(n - |ds|);
    NoPointDecodes(ip);
    NoExponentDecodes(DigitText(ip));
    assert ip + [] == Zeros(0) + ds + Zeros(n - |ds|);
    MantissaDecodes(DigitText(ip), DigitText(ip), ip, [], 0, ds, 0, n - |ds|);
  }

  lemma DecodeFraction(ds: seq<Digit>, n: int)
    requires ds != [] && ds[0] != 0 && ds[|ds| - 1] != 0 && 0 < n < |ds|
    ensures DecodePositive(DigitText(ds[..n]) + [DOT] + DigitText(ds[n..])) == (ds, n)
  {
    var t := DigitText(ds[..n]) + [DOT] + DigitText(ds[n..]);
    PointDecodes(ds[..n], ds[n..]);
    NoExponentDecodes(t);
    assert ds[..n] + ds[n..] == Zeros(0) + ds + Zeros(0);
    MantissaDecodes(t, t, ds[..n], ds[n..], 0, ds, 0, 0);
  }

  lemma DecodeSmall(ds: seq<Digit>, n: int)
    requires ds != [] && ds[0] != 0 && ds[|ds| - 1] != 0 && n <= 0
    ensures DecodePositive(DigitText([0]) + [DOT] + DigitText(Zeros(-n) + ds)) == (ds, n)
  {
    var fp := Zeros(-n) + ds;
    var t := DigitText([0]) + [DOT] + DigitText(fp);
    PointDecodes([0], fp);
    NoExponentDecodes(t);
    hide DigitText;
    OneMoreZero(n, ds);
    MantissaDecodes(t, t, [0], fp, 0, ds, 1 - n, 0);
  }

  lemma OneMoreZero(n: int, ds: seq<Digit>)
    requires n <= 0
    ensures [0] + (Zeros(-n) + ds) == Zeros(1 - n) + ds + Zeros(0)
  {
  }

  lemma DecodeScientific(ds: seq<Digit>, n: int)
    requires ds != [] && ds[0] != 0 && ds[|ds| - 1] != 0
    ensures DecodePositive((if |ds| == 1 then DigitText(ds) else DigitText(ds[..1]) + [DOT] + DigitText(ds[1..])) + Exponent(n - 1)) == (ds, n)
  {
    hide Exponent, DigitText;
    if |ds| == 1 {
      NoPointDecodes(ds);
      ExponentDecodes(DigitText(ds), n - 1);
      assert ds + [] == Zeros(0) + ds + Zeros(0);
      EmptyDigits();
      MantissaDecodes(DigitText(ds) + Exponent(n - 1), DigitText(ds), ds, [], n - 1, ds, 0, 0);
    } else {
      var m := DigitText(ds[..1]) + [DOT] + DigitText(ds[1..]);
      PointDecodes(ds[..1], ds[1..]);
      ExponentDecodes(m, n - 1);
      assert ds[..1] + ds[1..] == Zeros(0) + ds + Zeros(0);
      MantissaDecodes(m + Exponent(n - 1), m, ds[..1], ds[1..], n - 1, ds, 0, 0);
    }
  }

  lemma EmptyDigits()
    ensures DigitText([]) == []
  {
  }

  /** Every one of the four layouts decodes back to its digits and point. */
  lemma PositiveRoundTrip(ds: seq<Digit>, n: int)
    requires ds != [] && ds[0] != 0 && ds[|ds| - 1] != 0
    ensures DecodePositive(PositiveText(ds, n)) == (ds, n)
  {
    hide DecodePositive, DigitText, Exponent;
    if |ds| <= n <= 21 {
      DecodeInteger(ds, n);
    } else if 0 < n <= 21 {
      DecodeFraction(ds, n);
    } else if -6 < n <= 0 {
      DecodeSmall(ds, n);
    } else {
      DecodeScientific(ds, n);
    }
  }

  /** Number characters: digits, sign, point and exponent mark. */
  predicate NumberChar(c: CodeUnit) { 48 <= c < 58 || c == MINUS || c == PLUS || c == DOT || c == EXP }

  ghost predicate AllNumber(t: Text) { forall i :: 0 <= i < |t| ==> NumberChar(t[i]) }

  lemma AllNumberConcat(a: Text, b: Text)
    requires AllNumber(a) && AllNumber(b)
    ensures AllNumber(a + b)
  {
  }

  lemma DigitsAreNumber(ds: seq<Digit>)
    ensures AllNumber(DigitText(ds))
    ensures ds != [] ==> 48 <= DigitText(ds)[0] < 58
  {
  }

  lemma ExponentIsNumber(e: int)
    ensures AllNumber(Exponent(e))
  {
    hide NatDigits;
    DigitsAreNumber(NatDigits(if e < 0 then -e else e));
  }

  lemma PointIsNumber(a: seq<Digit>, b: seq<Digit>)
    requires a != []
    ensures var t := DigitText(a) + [DOT] + DigitText(b); AllNumber(t) && 48 <= t[0] < 58
  {
    DigitsAreNumber(a);
    DigitsAreNumber(b);
    hide DigitText;
    AllNumberConcat(DigitText(a), [DOT]);
    AllNumberConcat(DigitText(a) + [DOT], DigitText(b));
  }

  /** A positive number's text starts with a digit and uses only number characters. */
  lemma PositiveTextShape(ds: seq<Digit>, n: int)
    requires ds != []
    ensures var t := PositiveText(ds, n); t != [] && 48 <= t[0] < 58 && AllNumber(t)
  {
    hide DigitText, Exponent, AllNumber;
    if |ds| <= n <= 21 {
      DigitsAreNumber(ds + Zeros(n - |ds|));
    } else if 0 < n <= 21 {
      PointIsNumber(ds[..n], ds[n..]);
    } else if -6 < n <= 0 {
      PointIsNumber([0], Zeros(-n) + ds);
    } else {
      ExponentIsNumber(n - 1);
      if |ds| == 1 {
        DigitsAreNumber(ds);
        AllNumberConcat(DigitText(ds), Exponent(n - 1));
      } else {
        PointIsNumber(ds[..1], ds[1..]);
        AllNumberConcat(DigitText(ds[..1]) + [DOT] + DigitText(ds[1..]), Exponent(n - 1));
      }
    }
  }

  lemma NumberTextShape(d: Decimal)
    requires Shortest(d)
    ensures var t := NumberText(d);
      t != [] && (48 <= t[0] < 58 || t[0] == MINUS) && AllNumber(t)
  {
    hide PositiveText;
    if d.NonZero? { PositiveTextShape(d.digits, d.point); }
  }

  /** A positive number never prints as the text of zero. */
  lemma PositiveNotZero(ds: seq<Digit>, n: int)
    requires ds != [] && ds[0] != 0 && ds[|ds| - 1] != 0
    ensures PositiveText(ds, n) != [ZERO]
  {
    PositiveRoundTrip(ds, n);
    hide PositiveText;
    if PositiveText(ds, n) == [ZERO] { ZeroDecodes(); }
  }

  lemma ZeroDecodes()
    ensures DecodePositive([ZERO]).0 == []
  {
    IndexOfSplit([ZERO], EXP, []);
    IndexOfSplit([ZERO], DOT, []);
    assert [ZERO][..1] == [ZERO] && [ZERO] + [] == [ZERO];
    var all := TextDigits([ZERO]);
    assert all == [0] && LeadingZeros(all) == 1;
  }

  /** The value a text stands for: zeros of both signs are the same. */
  predicate SameNumber(a: Decimal, b: Decimal) { a == b || (a.Zero? && b.Zero?) }

  /** Two numbers print alike exactly when they are equal, zeros of both signs included. */
  lemma NumberTextInjective(a: Decimal, b: Decimal)
    requires Shortest(a) && Shortest(b)
    ensures NumberText(a) == NumberText(b) <==> SameNumber(a, b)
  {
    hide PositiveText, DecodePositive;
    if a.NonZero? {
      PositiveTextShape(a.digits, a.point);
      PositiveRoundTrip(a.digits, a.point);
      PositiveNotZero(a.digits, a.point);
    }
    if b.NonZero? {
      PositiveTextShape(b.digits, b.point);
      PositiveRoundTrip(b.digits, b.point);
      PositiveNotZero(b.digits, b.point);
    }
    if NumberText(a) == NumberText(b) && a.NonZero? && b.NonZero? {
      var ta, tb := PositiveText(a.digits, a.point), PositiveText(b.digits, b.point);
      assert NumberText(a)[0] == MINUS <==> a.negative;
      assert NumberText(b)[0] == MINUS <==> b.negative;
      assert ta == NumberText(a)[if a.negative then 1 else 0..];
      assert tb == NumberText(b)[if b.negative then 1 else 0..];
    }
  }
}
