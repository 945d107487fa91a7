/**
 From label to catalogue SKU (packages/gpu-catalog/src/normalize.ts): the
 first-match loop over the catalogue, and the VRAM figure the label itself may
 state, read off by a regular expression and stated here on the token list.
 */
module GpuNormalization {
  import opened RealArithmetic
  import opened Wrappers
  import opened GpuLabel

  // ------------------------------------------------------ the VRAM expression

  predicate WordChar(c: char) { Lower(c) || AlphaNum(c) || c == '_' }

  /** An optional whitespace character; the expression never needs to give it back. */
  function SkipSpace(s: string): string { if s != "" && s[0] in SPACES then s[1..] else s }

  /** `\s?G\s?B\b` at the start of the text. */
  predicate GbHere(s: string) {
    var g := SkipSpace(s);
    g != "" && g[0] == 'G' &&
    var b := SkipSpace(g[1..]);
    b != "" && b[0] == 'B' && (|b| == 1 || !WordChar(b[1]))
  }

  predicate DigitsHere(s: string, d: nat) { d <= |s| && forall k :: 0 <= k < d ==> Digit(s[k]) }

  /** How many digits the greedy `\d{2,4}` settles for at the start of the text; zero for no match. */
  function VramDigits(s: string): (d: nat)
    ensures d <= |s| && (d == 0 || 2 <= d <= 4)
  {
    if DigitsHere(s, 4) && GbHere(s[4..]) then 4
    else if DigitsHere(s, 3) && GbHere(s[3..]) then 3
    else if DigitsHere(s, 2) && GbHere(s[2..]) then 2
    else 0
  }

  /** The digits the leftmost match captures. */
  function VramText(s: string): Option<string> {
    if s == "" then None
    else if VramDigits(s) > 0 then Some(s[..VramDigits(s)])
    else VramText(s[1..])
  }

  // -------------------------------------------------------------- on the tokens

  ghost predicate Alphabetic(w: string) { w != "" && forall c :: c in w ==> Letter(c) }

  ghost predicate Numeric(w: string) { w != "" && forall c :: c in w ==> Digit(c) }

  ghost predicate Runs(tokens: seq<string>) { forall w :: w in tokens ==> Alphabetic(w) || Numeric(w) }

  /** The tokens begin with the unit, written in one word or in two. */
  predicate UnitFirst(tokens: seq<string>) {
    tokens != [] && (tokens[0] == "GB" || (tokens[0] == "G" && |tokens| > 1 && tokens[1] == "B"))
  }

  function LastFour(w: string): string { if |w| <= 4 then w else w[|w| - 4..] }

  /** The first number of at least two digits before the unit; its last four digits count. */
  ghost function StatedVram(tokens: seq<string>): Option<string> {
    if tokens == [] then None
    else if Numeric(tokens[0]) && |tokens[0]| >= 2 && UnitFirst(tokens[1..]) then Some(LastFour(tokens[0]))
    else StatedVram(tokens[1..])
  }

  /** Text that a token may be followed by. */
  ghost predicate AfterWord(t: string) { t == "" || t[0] == ' ' }

  lemma RunExtends(c: char, w: string)
    requires (Alphabetic(w) || Numeric(w)) && KindOf(c) == KindOf(w[0]) && KindOf(c) != Gap && !Lower(c)
    ensures Alphabetic([c] + w) || Numeric([c] + w)
  {
    assert w[0] in w;
  }

  lemma {:induction false} TokensAreRuns(s: string)
    ensures Runs(Tokens(s))
    ensures s != "" && KindOf(s[0]) != Gap ==> Tokens(s)[0] != "" && Tokens(s)[0][0] == UpperChar(s[0])
  {
    if s != "" {
      TokensAreRuns(s[1..]);
      var rest := Tokens(s[1..]);
      if KindOf(s[0]) != Gap {
        assert Alphabetic([UpperChar(s[0])]) || Numeric([UpperChar(s[0])]);
        if |s| > 1 && KindOf(s[1]) == KindOf(s[0]) {
          UpperKeepsKind(s[0]);
          UpperKeepsKind(s[1]);
          RunExtends(UpperChar(s[0]), rest[0]);
        }
      }
    }
  }

  /** A word of letters holds no figure. */
  lemma {:induction false} LettersSkipped(w: string, t: string)
    requires forall c :: c in w ==> Letter(c)
    ensures VramText(w + t) == VramText(t)
  {
    if w == "" {
      assert w + t == t;
    } else {
      assert (w + t)[0] == w[0] && w[0] in w;
      assert (w + t)[1..] == w[1..] + t;
      LettersSkipped(w[1..], t);
    }
  }

  lemma SpaceSkipped(t: string)
    ensures VramText([' '] + t) == VramText(t)
  {
    var s := [' '] + t;
    assert s[1..] == t;
    assert s[0] == ' ' && !Digit(s[0]);
    assert !DigitsHere(s, 2) && !DigitsHere(s, 3) && !DigitsHere(s, 4);
  }

  /** Where a number is, the expression takes all its digits or its last four. */
  lemma DigitsTaken(w: string, t: string)
    requires Numeric(w) && AfterWord(t)
    ensures VramDigits(w + t) == if 2 <= |w| <= 4 && GbHere(t) then |w| else 0
  {
    var s := w + t;
    forall d | 2 <= d <= 4 ensures DigitsHere(s, d) && GbHere(s[d..]) <==> d == |w| && GbHere(t) {
      assert forall k :: 0 <= k < |w| ==> s[k] == w[k] && w[k] in w;
      if d < |w| {
        assert s[d..][0] == w[d] && w[d] in w;
      } else if d == |w| {
        assert s[d..] == t;
      } else if t != "" && d <= |s| {
        assert s[|w|] == ' ';
      }
    }
  }

  lemma {:induction false} NumberRead(w: string, t: string)
    requires Numeric(w) && AfterWord(t)
    ensures VramText(w + t) == if |w| >= 2 && GbHere(t) then Some(LastFour(w)) else VramText(t)
  {
    DigitsTaken(w, t);
    hide GbHere, VramDigits;
    var s := w + t;
    assert s[1..] == w[1..] + t;
    if VramDigits(s) > 0 {
      assert s[..|w|] == w;
    } else if |w| == 1 {
      assert s[1..] == t;
    } else {
      NumberRead(w[1..], t);
      assert |w| > 4 ==> LastFour(w[1..]) == LastFour(w);
    }
  }

  /** The unit in the text is the unit in the tokens. */
  lemma UnitReads(tokens: seq<string>)
    requires Runs(tokens) && tokens != []
    ensures GbHere([' '] + Join(tokens)) <==> UnitFirst(tokens)
  {
    TokensJoin(tokens);
    var w, text := tokens[0], Join(tokens);
    assert w in tokens;
    assert SkipSpace([' '] + text) == text;
    if |w| == 1 && w[0] == 'G' && |tokens| > 1 {
      var v := tokens[1];
      assert v in tokens;
      TokensJoin(tokens[1..]);
      assert text[1..] == [' '] + Join(tokens[1..]);
      assert SkipSpace(text[1..]) == Join(tokens[1..]);
      UnitLetter(Join(tokens[1..]), v);
      assert w == "G" && w != "GB";
    } else {
      OneWordUnit(text, w);
    }
  }

  /** A joined list starts with its first token, and a space follows it if there are more. */
  lemma TokensJoin(tokens: seq<string>)
    requires tokens != []
    ensures tokens[0] <= Join(tokens) && AfterWord(Join(tokens)[|tokens[0]|..])
    ensures |tokens| > 1 ==> Join(tokens)[|tokens[0]|..] == [' '] + Join(tokens[1..])
  {
  }

  /** The second half of a split unit. */
  lemma UnitLetter(text: string, v: string)
    requires (Alphabetic(v) || Numeric(v)) && v <= text && AfterWord(text[|v|..])
    ensures (text != "" && text[0] == 'B' && (|text| == 1 || !WordChar(text[1]))) <==> v == "B"
  {
    assert text[0] == v[0] && v[0] in v;
    if |v| > 1 { assert text[1] == v[1] && v[1] in v; }
    if |v| == 1 && |text| > 1 { assert text[|v|..][0] == text[1]; }
  }

  lemma OneWordUnit(text: string, w: string)
    requires (Alphabetic(w) || Numeric(w)) && w <= text && AfterWord(text[|w|..])
    requires |w| == 1 && w[0] == 'G' ==> text == w
    ensures (text != "" && text[0] == 'G' &&
      var b := SkipSpace(text[1..]); b != "" && b[0] == 'B' && (|b| == 1 || !WordChar(b[1]))) <==> w == "GB"
  {
    assert text[0] == w[0] && w[0] in w;
    if |w| > 1 { assert text[1] == w[1] && w[1] in w; }
    if |w| > 2 { assert text[2] == w[2] && w[2] in w; }
    if |w| == 2 && |text| > 2 { assert text[|w|..][0] == text[2]; }
  }

  /** The figure the expression captures is the one the tokens state. */
  lemma {:induction false} VramIsTokens(tokens: seq<string>)
    requires Runs(tokens)
    ensures VramText(Join(tokens)) == StatedVram(tokens)
  {
    if tokens != [] {
      TokensJoin(tokens);
      VramIsTokens(tokens[1..]);
      var w, t := tokens[0], Join(tokens)[|tokens[0]|..];
      assert w in tokens;
      hide Join, GbHere, VramDigits;
      assert Join(tokens) == w + t;
      if |tokens| == 1 {
        LastTokenText(tokens);
      } else {
        SpaceSkipped(Join(tokens[1..]));
        UnitReads(tokens[1..]);
      }
      if Numeric(w) {
        assert w[0] in w;
        NumberRead(w, t);
      } else {
        LettersSkipped(w, t);
      }
    }
  }

  lemma LastTokenText(tokens: seq<string>)
    requires |tokens| == 1
    ensures Join(tokens)[|tokens[0]|..] == "" && Join(tokens[1..]) == "" && !GbHere("")
  {
  }

  // -------------------------------------------------------------- first match

  datatype Sku = Sku(gpuId: string, vramGb: nat)

  datatype Compiled = Compiled(sku: Sku, pattern: string)

  datatype RejectReason = Unmapped | VramDeviation

  datatype Normalization = Normalization(
    gpuId: Option<string>, normalizedLabel: string, matchedPattern: Option<string>, rejectReason: Option<RejectReason>)

  const VRAM_TOLERANCE := 0.25

  /** The decimal number a string of digits writes. */
  function NumberOf(digits: string): nat
    requires forall c :: c in digits ==> Digit(c)
  {
    if digits == "" then 0
    else
      var last := digits[|digits| - 1];
      assert Digit(last);
      10 * NumberOf(digits[..|digits| - 1]) + (last - '0') as int
  }

  lemma {:induction false} VramTextIsDigits(s: string)
    ensures VramText(s).Some? ==> forall c :: c in VramText(s).value ==> Digit(c)
  {
    hide GbHere;
    if s != "" { VramTextIsDigits(s[1..]); }
  }

  lemma {:induction false} StatedIsDigits(tokens: seq<string>)
    ensures StatedVram(tokens).Some? ==> forall c :: c in StatedVram(tokens).value ==> Digit(c)
  {
    if tokens != [] { StatedIsDigits(tokens[1..]); }
  }

  /** The first catalogue pattern, in file order, whose tokens match. */
  ghost predicate IsFirstMatch(raw: string, compiled: seq<Compiled>, k: int) {
    && 0 <= k < |compiled|
    && TokenMatch(raw, compiled[k].pattern)
    && forall i :: 0 <= i < k ==> !TokenMatch(raw, compiled[i].pattern)
  }

  /** The label states a VRAM figure more than a quarter off the SKU's. */
  ghost predicate Deviates(raw: string, vramGb: nat) {
    StatedIsDigits(Tokens(raw));
    var stated := StatedVram(Tokens(raw));
    stated.Some? && (4 * NumberOf(stated.value) > 5 * vramGb || 4 * NumberOf(stated.value) < 3 * vramGb)
  }

  method NormalizeGpuLabel(raw: string, compiled: seq<Compiled>) returns (r: Normalization)
    requires InAlphabet(raw)
    requires forall c :: c in compiled ==> InAlphabet(c.pattern) && c.sku.vramGb > 0
    ensures r.normalizedLabel == Join(Tokens(raw))
    ensures r.rejectReason == Some(Unmapped) <==> forall k :: 0 <= k < |compiled| ==> !TokenMatch(raw, compiled[k].pattern)
    ensures r.rejectReason == Some(Unmapped) ==> r.gpuId == None && r.matchedPattern == None
    ensures forall k :: IsFirstMatch(raw, compiled, k) ==>
      r.matchedPattern == Some(compiled[k].pattern) &&
      if Deviates(raw, compiled[k].sku.vramGb) then r.gpuId == None && r.rejectReason == Some(VramDeviation)
      else r.gpuId == Some(compiled[k].sku.gpuId) && r.rejectReason == None
  {
    hide TextMatch, TokenMatch, NormalizeLabelText, Tokens, Join, VramText, StatedVram;
    var normalizedLabel := NormalizeLabelText(raw);
    NormalizePrintsTokens(raw);
    TokensAreRuns(raw);
    VramIsTokens(Tokens(raw));
    var matched: Option<Compiled> := None;
    ghost var at := -1;
    for k := 0 to |compiled|
      invariant matched == None
      invariant forall i :: 0 <= i < k ==> !TokenMatch(raw, compiled[i].pattern)
    {
      var hit := TextMatch(raw, compiled[k].pattern);
      TextMatchIsTokenMatch(raw, compiled[k].pattern);
      if hit {
        matched, at := Some(compiled[k]), k;
        break;
      }
    }
    if matched.None? { return Normalization(None, normalizedLabel, None, Some(Unmapped)); }
    assert IsFirstMatch(raw, compiled, at);
    var sku := matched.value.sku;
    var vramMatch := VramText(normalizedLabel);
    if vramMatch.Some? {
      VramTextIsDigits(normalizedLabel);
      var stated := NumberOf(vramMatch.value);
      var gap := if stated >= sku.vramGb then stated - sku.vramGb else sku.vramGb - stated;
      QuarterOff(stated, sku.vramGb, gap);
      if gap as real / sku.vramGb as real > VRAM_TOLERANCE {
        return Normalization(None, normalizedLabel, Some(matched.value.pattern), Some(VramDeviation));
      }
    }
    r := Normalization(Some(sku.gpuId), normalizedLabel, Some(matched.value.pattern), None);
  }

  lemma QuarterOff(stated: nat, vramGb: nat, gap: nat)
    requires vramGb > 0 && gap == if stated >= vramGb then stated - vramGb else vramGb - stated
    ensures gap as real / vramGb as real > VRAM_TOLERANCE <==> 4 * stated > 5 * vramGb || 4 * stated < 3 * vramGb
  {
    QuotientOrder(gap as real, vramGb as real, VRAM_TOLERANCE);
    assert 4.0 * gap as real == (4 * gap) as real;
  }
}
