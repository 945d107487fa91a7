/**
 String literals as JSON.stringify writes them (section 7 of RFC 8259, with lone
 surrogates escaped) and the code-unit order of object keys (section 3.2.3 of
 RFC 8785), over UTF-16 code units.
 */
module JsonStrings {
  import opened JsonNumbers

  const QUOTE: CodeUnit := '"' as int
  const BACKSLASH: CodeUnit := '\\' as int
  const LOWER_U: CodeUnit := 'u' as int

  predicate High(c: CodeUnit) { 0xD800 <= c < 0xDC00 }

  predicate Low(c: CodeUnit) { 0xDC00 <= c < 0xE000 }

  function HexDigit(d: int): CodeUnit
    requires 0 <= d < 16
  {
    if d < 10 then 48 + d else 87 + d
  }

  function Hex4(c: CodeUnit): (t: Text)
    ensures |t| == 4
  {
    var q := c / 16;
    var r := q / 16;
    [HexDigit(r / 16), HexDigit(r % 16), HexDigit(q % 16), HexDigit(c % 16)]
  }

  /** The letter of a two-unit escape, or 0 when the unit has none. */
  function ShortEscape(c: CodeUnit): CodeUnit {
    if c == QUOTE then QUOTE
    else if c == BACKSLASH then BACKSLASH
    else if c == 8 then 98
    else if c == 9 then 116
    else if c == 10 then 110
    else if c == 12 then 102
    else if c == 13 then 114
    else 0
  }

  /** One code unit outside a surrogate pair. */
  function EscapeUnit(c: CodeUnit): (t: Text)
    ensures t != []
  {
    if ShortEscape(c) != 0 then [BACKSLASH, ShortEscape(c)]
    else if c < 32 || High(c) || Low(c) then [BACKSLASH, LOWER_U] + Hex4(c)
    else [c]
  }

  predicate StartsWithPair(s: Text) { |s| >= 2 && High(s[0]) && Low(s[1]) }

  function Escape(s: Text): Text {
    if s == [] then []
    else if StartsWithPair(s) then s[..2] + Escape(s[2..])
    else EscapeUnit(s[0]) + Escape(s[1..])
  }

  function Quoted(s: Text): Text { [QUOTE] + Escape(s) + [QUOTE] }

  // ------------------------------------------------------- unique readability

  lemma HexDigitInjective(a: int, b: int)
    requires 0 <= a < 16 && 0 <= b < 16 && HexDigit(a) == HexDigit(b)
    ensures a == b
  {
  }

  lemma Hex4Injective(a: CodeUnit, b: CodeUnit)
    requires Hex4(a) == Hex4(b)
    ensures a == b
  {
    var qa, qb := a / 16, b / 16;
    var ra, rb := qa / 16, qb / 16;
    assert forall k :: 0 <= k < 4 ==> Hex4(a)[k] == Hex4(b)[k];
    HexDigitInjective(ra / 16, rb / 16);
    HexDigitInjective(ra % 16, rb % 16);
    HexDigitInjective(qa % 16, qb % 16);
    HexDigitInjective(a % 16, b % 16);
    assert ra == rb;
    assert qa == qb;
  }

  lemma ShortEscapeInjective(a: CodeUnit, b: CodeUnit)
    requires ShortEscape(a) != 0 && ShortEscape(a) == ShortEscape(b)
    ensures a == b
    ensures ShortEscape(a) != LOWER_U
  {
  }

  lemma ShortNotHex(a: CodeUnit)
    ensures ShortEscape(a) != LOWER_U
  {
  }

  /** An escaped unit can be read off the front of any text. */
  lemma EscapeUnitReads(a: CodeUnit, b: CodeUnit, x: Text, y: Text)
    requires EscapeUnit(a) + x == EscapeUnit(b) + y
    ensures a == b && x == y
  {
    var ta, tb := EscapeUnit(a) + x, EscapeUnit(b) + y;
    ShortNotHex(a);
    ShortNotHex(b);
    assert ta[0] == tb[0];
    if ta[0] == BACKSLASH {
      assert EscapeUnit(a)[1] == ta[1] == tb[1] == EscapeUnit(b)[1];
      if ta[1] == LOWER_U {
        assert Hex4(a) == ta[2..6] == tb[2..6] == Hex4(b);
        Hex4Injective(a, b);
      } else {
        ShortEscapeInjective(a, b);
      }
    }
    assert x == ta[|EscapeUnit(a)|..] && y == tb[|EscapeUnit(b)|..];
  }

  lemma EscapeUnitHead(c: CodeUnit)
    ensures EscapeUnit(c)[0] != QUOTE && !High(EscapeUnit(c)[0])
  {
  }

  lemma Regroup(a: Text, b: Text, c: Text)
    ensures a + b + c == a + (b + c)
    ensures a != [] ==> (a + b + c)[0] == a[0]
  {
  }

  /** How an escaped string begins, followed by any text. */
  lemma EscapeBegins(s: Text, z: Text)
    ensures s == [] ==> Escape(s) + z == z
    ensures StartsWithPair(s) ==> Escape(s) + z == s[..2] + (Escape(s[2..]) + z)
    ensures s != [] && !StartsWithPair(s) ==>
      Escape(s) + z == EscapeUnit(s[0]) + (Escape(s[1..]) + z) && (Escape(s) + z)[0] != QUOTE && !High((Escape(s) + z)[0])
  {
    if s == [] {
      assert Escape(s) == [];
    } else if StartsWithPair(s) {
      Regroup(s[..2], Escape(s[2..]), z);
    } else {
      EscapeUnitHead(s[0]);
      hide EscapeUnit;
      Regroup(EscapeUnit(s[0]), Escape(s[1..]), z);
    }
  }

  lemma PairReads(s: Text, t: Text, x: Text, y: Text)
    requires |s| >= 2 && |t| >= 2 && s[..2] + x == t[..2] + y
    ensures s[..2] == t[..2] && x == y
  {
    assert (s[..2] + x)[..2] == s[..2] && (t[..2] + y)[..2] == t[..2];
    assert (s[..2] + x)[2..] == x && (t[..2] + y)[2..] == y;
  }

  /** An escaped string ends at its closing quote and nowhere else. */
  lemma {:induction false} EscapeReads(s: Text, t: Text, x: Text, y: Text)
    requires Escape(s) + ([QUOTE] + x) == Escape(t) + ([QUOTE] + y)
    ensures s == t && x == y
  {
    var zx, zy := [QUOTE] + x, [QUOTE] + y;
    EscapeBegins(s, zx);
    EscapeBegins(t, zy);
    hide EscapeUnit, Escape;
    assert (Escape(s) + zx)[0] == (Escape(t) + zy)[0];
    if s == [] || t == [] {
      assert zx[1..] == x && zy[1..] == y;
    } else if StartsWithPair(s) {
      PairReads(s, t, Escape(s[2..]) + zx, Escape(t[2..]) + zy);
      EscapeReads(s[2..], t[2..], x, y);
      assert s == s[..2] + s[2..] && t == t[..2] + t[2..];
    } else {
      EscapeUnitReads(s[0], t[0], Escape(s[1..]) + zx, Escape(t[1..]) + zy);
      EscapeReads(s[1..], t[1..], x, y);
      assert s == [s[0]] + s[1..] && t == [t[0]] + t[1..];
    }
  }

  /** A quoted string can be read off the front of any text. */
  lemma QuotedReads(s: Text, t: Text, x: Text, y: Text)
    requires Quoted(s) + x == Quoted(t) + y
    ensures s == t && x == y
  {
    hide Escape;
    assert (Quoted(s) + x)[1..] == Escape(s) + ([QUOTE] + x);
    assert (Quoted(t) + y)[1..] == Escape(t) + ([QUOTE] + y);
    EscapeReads(s, t, x, y);
  }

  // ---------------------------------------------------------------- key order

  predicate Less(a: Text, b: Text) {
    b != [] && (a == [] || a[0] < b[0] || (a[0] == b[0] && Less(a[1..], b[1..])))
  }

  lemma {:induction false} LessTotal(a: Text, b: Text)
    ensures a == b || Less(a, b) || Less(b, a)
    ensures !(Less(a, b) && Less(b, a)) && !Less(a, a)
  {
    if a != [] && b != [] && a[0] == b[0] {
      LessTotal(a[1..], b[1..]);
      assert a == [a[0]] + a[1..] && b == [b[0]] + b[1..];
    }
    if a != [] { LessIrreflexive(a); }
  }

  lemma {:induction false} LessIrreflexive(a: Text)
    ensures !Less(a, a)
  {
    if a != [] { LessIrreflexive(a[1..]); }
  }

  lemma {:induction false} LessTransitive(a: Text, b: Text, c: Text)
    requires Less(a, b) && Less(b, c)
    ensures Less(a, c)
  {
    if a != [] && a[0] == b[0] && b[0] == c[0] { LessTransitive(a[1..], b[1..], c[1..]); }
  }

  /** The texts agree up to unit `k`, where `a` has the smaller one. */
  ghost predicate DiffersAt(a: Text, b: Text, k: int) {
    0 <= k < |a| && k < |b| && a[..k] == b[..k] && a[k] < b[k]
  }

  lemma DiffersLater(a: Text, b: Text, k: int)
    requires a != [] && b != [] && a[0] == b[0] && k > 0
    ensures DiffersAt(a, b, k) <==> DiffersAt(a[1..], b[1..], k - 1)
  {
    if k <= |a| && k <= |b| {
      assert a[..k] == [a[0]] + a[1..][..k - 1] && b[..k] == [b[0]] + b[1..][..k - 1];
      assert a[1..][..k - 1] == a[..k][1..] && b[1..][..k - 1] == b[..k][1..];
    }
  }

  lemma DiffersFirst(a: Text, b: Text, k: int)
    requires a != [] && b != [] && a[0] != b[0] && k > 0
    ensures !DiffersAt(a, b, k)
  {
    if k <= |a| && k <= |b| { assert a[..k][0] == a[0] && b[..k][0] == b[0]; }
  }

  /** One key comes before another exactly at their first differing code unit, or by being its beginning. */
  lemma {:induction false} LessExactly(a: Text, b: Text)
    ensures Less(a, b) <==> a < b || exists k :: DiffersAt(a, b, k)
  {
    if a != [] && b != [] && a[0] == b[0] {
      LessExactly(a[1..], b[1..]);
      forall k | k > 0 ensures DiffersAt(a, b, k) <==> DiffersAt(a[1..], b[1..], k - 1) { DiffersLater(a, b, k); }
      assert a < b <==> a[1..] < b[1..];
      if k :| DiffersAt(a[1..], b[1..], k) { assert DiffersAt(a, b, k + 1); }
      if k :| DiffersAt(a, b, k) { assert DiffersAt(a[1..], b[1..], k - 1); }
    } else if a != [] && b != [] {
      if a[0] < b[0] { assert DiffersAt(a, b, 0); }
      forall k | k > 0 ensures !DiffersAt(a, b, k) { DiffersFirst(a, b, k); }
    }
  }

  // ------------------------------------------------------------------ decoding

  function HexValue(c: CodeUnit): (d: int)
    ensures 0 <= d < 16
  {
    if 48 <= c < 58 then c - 48 else if 97 <= c < 103 then c - 87 else if 65 <= c < 71 then c - 55 else 0
  }

  /** The code unit an escape letter stands for (section 7 of RFC 8259); the others stand for themselves. */
  function Unescaped(letter: CodeUnit): CodeUnit {
    match letter
    case 98 => 8
    case 102 => 12
    case 110 => 10
    case 114 => 13
    case 116 => 9
    case _ => letter
  }

  /** The code unit four hexadecimal digits name. */
  function HexUnit(a: CodeUnit, b: CodeUnit, c: CodeUnit, d: CodeUnit): CodeUnit {
    4096 * HexValue(a) + 256 * HexValue(b) + 16 * HexValue(c) + HexValue(d)
  }

  /** What a JSON reader makes of a string literal's inside. */
  function Decode(t: Text): Text
    decreases |t|
  {
    if t == [] then []
    else if t[0] != BACKSLASH || |t| < 2 then [t[0]] + Decode(t[1..])
    else if t[1] == LOWER_U && |t| >= 6 then [HexUnit(t[2], t[3], t[4], t[5])] + Decode(t[6..])
    else [Unescaped(t[1])] + Decode(t[2..])
  }

  lemma HexDigitValue(d: int)
    requires 0 <= d < 16
    ensures HexValue(HexDigit(d)) == d
  {
  }

  lemma Hex4Value(c: CodeUnit)
    ensures var t := Hex4(c); HexUnit(t[0], t[1], t[2], t[3]) == c
  {
    var q := c / 16;
    var r := q / 16;
    HexDigitValue(r / 16);
    HexDigitValue(r % 16);
    HexDigitValue(q % 16);
    HexDigitValue(c % 16);
  }

  lemma UnitDecodes(c: CodeUnit, rest: Text)
    ensures Decode(EscapeUnit(c) + rest) == [c] + Decode(rest)
  {
    var t := EscapeUnit(c) + rest;
    if ShortEscape(c) != 0 {
      assert t[0] == BACKSLASH && t[1] == ShortEscape(c) && t[2..] == rest;
    } else if c < 32 || High(c) || Low(c) {
      Hex4Value(c);
      hide Hex4, HexValue, HexUnit;
      assert t[0] == BACKSLASH && t[1] == LOWER_U && t[2..6] == Hex4(c) && t[6..] == rest;
      assert t[2] == t[2..6][0] && t[3] == t[2..6][1] && t[4] == t[2..6][2] && t[5] == t[2..6][3];
    } else {
      assert t[0] == c && t[1..] == rest;
    }
  }

  /** Any JSON reader gets the string back, whatever its code units. */
  lemma {:induction false} StringRoundTrip(s: Text)
    ensures Decode(Escape(s)) == s
  {
    if StartsWithPair(s) {
      StringRoundTrip(s[2..]);
      assert Escape(s) == s[..2] + Escape(s[2..]);
      assert (s[..2] + Escape(s[2..]))[1..] == [s[1]] + Escape(s[2..]);
      assert ([s[1]] + Escape(s[2..]))[1..] == Escape(s[2..]);
      assert s == [s[0]] + ([s[1]] + s[2..]);
    } else if s != [] {
      StringRoundTrip(s[1..]);
      UnitDecodes(s[0], Escape(s[1..]));
      assert s == [s[0]] + s[1..];
    }
  }
}
