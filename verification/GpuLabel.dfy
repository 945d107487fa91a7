/**
 GPU label matching (packages/gpu-catalog/src/normalize.ts), on ASCII letters,
 digits, separators and whitespace: the text passes and the two guarded pattern
 tests, against plain equality of token lists.
 */
module GpuLabel {

  const SEPARATORS := {'-', '_', '.', '+', ',', '/', ';', ':', '(', ')', '[', ']'}
  const SPACES := {' ', '\t', '\n', '\U{0B}', '\U{0C}', '\r'}

  predicate Lower(c: char) { 'a' <= c <= 'z' }
  predicate Letter(c: char) { 'A' <= c <= 'Z' }
  predicate Digit(c: char) { '0' <= c <= '9' }
  predicate AlphaNum(c: char) { Letter(c) || Digit(c) }

  ghost predicate InAlphabet(s: string) {
    forall c :: c in s ==> Lower(c) || AlphaNum(c) || c in SEPARATORS || c in SPACES
  }

  /** The three character classes, written out. */
  lemma ClassesExactly(c: char)
    ensures Lower(c) <==> c in "abcdefghijklmnopqrstuvwxyz"
    ensures Letter(c) <==> c in "ABCDEFGHIJKLMNOPQRSTUVWXYZ"
    ensures Digit(c) <==> c in "0123456789"
    ensures Lower(c) ==> Letter(UpperChar(c)) && UpperChar(c) - 'A' == c - 'a'
    ensures !Lower(c) ==> UpperChar(c) == c
  {
    var lower, upper, digits := "abcdefghijklmnopqrstuvwxyz", "ABCDEFGHIJKLMNOPQRSTUVWXYZ", "0123456789";
    assert forall i :: 0 <= i < 26 ==> lower[i] as int == 97 + i && upper[i] as int == 65 + i;
    assert forall i :: 0 <= i < 10 ==> digits[i] as int == 48 + i;
    if Lower(c) { assert lower[c as int - 97] == c; }
    if Letter(c) { assert upper[c as int - 65] == c; }
    if Digit(c) { assert digits[c as int - 48] == c; }
  }

  function UpperChar(c: char): char { if Lower(c) then c - 'a' + 'A' else c }

  // ------------------------------------------------------------------- passes

  function ToUpper(s: string): string {
    if s == "" then "" else [UpperChar(s[0])] + ToUpper(s[1..])
  }

  function SeparatorsToSpace(s: string): string {
    if s == "" then "" else [if s[0] in SEPARATORS then ' ' else s[0]] + SeparatorsToSpace(s[1..])
  }

  /** Each run of whitespace becomes one space. */
  function Collapse(s: string): string {
    if s == "" then ""
    else if s[0] !in SPACES then [s[0]] + Collapse(s[1..])
    else if |s| > 1 && s[1] in SPACES then Collapse(s[1..])
    else [' '] + Collapse(s[1..])
  }

  function TrimStart(s: string): string {
    if s != "" && s[0] in SPACES then TrimStart(s[1..]) else s
  }

  function TrimEnd(s: string): string {
    if s != "" && s[|s| - 1] in SPACES then TrimEnd(s[..|s| - 1]) else s
  }

  predicate Boundary(a: char, b: char) { (Letter(a) && Digit(b)) || (Digit(a) && Letter(b)) }

  /** A space goes in wherever a letter meets a digit. */
  function AlphaDigitSplit(s: string): string {
    if |s| < 2 then s
    else if Boundary(s[0], s[1]) then [s[0], ' '] + AlphaDigitSplit(s[1..])
    else [s[0]] + AlphaDigitSplit(s[1..])
  }

  function NormalizeLabelText(raw: string): string {
    AlphaDigitSplit(TrimEnd(TrimStart(Collapse(SeparatorsToSpace(ToUpper(raw))))))
  }

  // ------------------------------------------------------------------- tokens

  datatype Kind = Gap | Alpha | Numeric

  function KindOf(c: char): Kind {
    if Lower(c) || Letter(c) then Alpha else if Digit(c) then Numeric else Gap
  }

  /** The maximal runs of letters and of digits, in upper case. */
  function Tokens(s: string): (r: seq<string>)
    ensures s != "" && KindOf(s[0]) != Gap ==> r != []
  {
    if s == "" then []
    else
      var rest := Tokens(s[1..]);
      if KindOf(s[0]) == Gap then rest
      else if |s| > 1 && KindOf(s[1]) == KindOf(s[0]) then [[UpperChar(s[0])] + rest[0]] + rest[1..]
      else [[UpperChar(s[0])]] + rest
  }

  function Join(tokens: seq<string>): string {
    if tokens == [] then ""
    else if |tokens| == 1 then tokens[0]
    else tokens[0] + [' '] + Join(tokens[1..])
  }

  // ------------------------------------------------- each pass keeps the tokens

  lemma {:induction false} ToUpperMaps(s: string)
    ensures |ToUpper(s)| == |s| && forall i :: 0 <= i < |s| ==> ToUpper(s)[i] == UpperChar(s[i])
  {
    if s != "" {
      ToUpperMaps(s[1..]);
      hide UpperChar;
      assert ToUpper(s)[1..] == ToUpper(s[1..]);
      assert forall i :: 1 <= i < |s| ==> s[i] == s[1..][i - 1] && ToUpper(s)[i] == ToUpper(s[1..])[i - 1];
    }
  }

  lemma UpperKeepsKind(c: char)
    ensures KindOf(UpperChar(c)) == KindOf(c) && UpperChar(UpperChar(c)) == UpperChar(c) && !Lower(UpperChar(c))
    ensures Lower(c) || AlphaNum(c) ==> AlphaNum(UpperChar(c))
    ensures !Lower(c) ==> UpperChar(c) == c
  {
  }

  lemma {:induction false} ToUpperKeepsTokens(s: string)
    ensures Tokens(ToUpper(s)) == Tokens(s)
  {
    if s != "" {
      ToUpperKeepsTokens(s[1..]);
      UpperKeepsKind(s[0]);
      if |s| > 1 { UpperKeepsKind(s[1]); }
      ToUpperMaps(s);
      hide KindOf, UpperChar;
      assert ToUpper(s)[1..] == ToUpper(s[1..]);
    }
  }

  lemma ToUpperKeeps(s: string)
    ensures Tokens(ToUpper(s)) == Tokens(s)
    ensures InAlphabet(s) ==> InAlphabet(ToUpper(s)) && forall c :: c in ToUpper(s) ==> !Lower(c)
  {
    ToUpperKeepsTokens(s);
    ToUpperMaps(s);
    hide ToUpper, UpperChar, Tokens;
    forall c | c in ToUpper(s) ensures !Lower(c) && (InAlphabet(s) ==> AlphaNum(c) || c in SEPARATORS || c in SPACES) {
      var i :| 0 <= i < |s| && ToUpper(s)[i] == c;
      assert s[i] in s;
      UpperKeepsKind(s[i]);
    }
  }

  lemma {:induction false} SeparatorsKeep(s: string)
    ensures Tokens(SeparatorsToSpace(s)) == Tokens(s)
    ensures InAlphabet(s) && (forall c :: c in s ==> !Lower(c)) ==> Spaced(SeparatorsToSpace(s))
    ensures |SeparatorsToSpace(s)| == |s| && (s != "" ==> KindOf(SeparatorsToSpace(s)[0]) == KindOf(s[0]))
  {
    if s != "" {
      SeparatorsKeep(s[1..]);
      assert SeparatorsToSpace(s)[1..] == SeparatorsToSpace(s[1..]);
      if |s| > 1 { assert SeparatorsToSpace(s)[1] == SeparatorsToSpace(s[1..])[0]; }
    }
  }

  ghost predicate Spaced(s: string) { forall c :: c in s ==> AlphaNum(c) || c in SPACES }

  ghost predicate Plain(s: string) { forall c :: c in s ==> AlphaNum(c) || c == ' ' }

  ghost predicate SingleSpaced(s: string) {
    forall i :: 0 <= i < |s| - 1 ==> s[i] != ' ' || s[i + 1] != ' '
  }

  lemma {:induction false} CollapseKeeps(s: string)
    ensures Tokens(Collapse(s)) == Tokens(s)
    ensures s != "" ==> Collapse(s) != "" && KindOf(Collapse(s)[0]) == KindOf(s[0])
  {
    if s != "" {
      CollapseKeeps(s[1..]);
      if s[0] !in SPACES || |s| == 1 || s[1] !in SPACES {
        CollapseHead(s);
        assert Collapse(s)[1..] == Collapse(s[1..]);
      }
    }
  }

  /** Outside a run of whitespace, one character is kept, as a plain space if it was whitespace. */
  lemma CollapseHead(s: string)
    requires s != "" && (s[0] !in SPACES || |s| == 1 || s[1] !in SPACES)
    ensures Collapse(s) == [if s[0] in SPACES then ' ' else s[0]] + Collapse(s[1..])
  {
  }

  lemma {:induction false} CollapseIsSingleSpaced(s: string)
    requires Spaced(s)
    ensures Plain(Collapse(s)) && SingleSpaced(Collapse(s))
    ensures s != "" ==> Collapse(s) != "" && (Collapse(s)[0] == ' ' <==> s[0] in SPACES)
  {
    if s != "" {
      var t := Collapse(s[1..]);
      CollapseIsSingleSpaced(s[1..]);
      if s[0] !in SPACES || |s| == 1 || s[1] !in SPACES {
        CollapseHead(s);
        hide Collapse;
        var c := if s[0] in SPACES then ' ' else s[0];
        var r := [c] + t;
        forall i | 0 <= i < |r| - 1 ensures r[i] != ' ' || r[i + 1] != ' ' {
          if i > 0 { assert r[i] == t[i - 1] && r[i + 1] == t[i]; }
        }
      }
    }
  }

  lemma {:induction false} TrimStartKeeps(s: string)
    ensures Tokens(TrimStart(s)) == Tokens(s)
    ensures Plain(s) && SingleSpaced(s) ==> Plain(TrimStart(s)) && SingleSpaced(TrimStart(s))
    ensures TrimStart(s) != "" ==> TrimStart(s)[0] !in SPACES
  {
    if s != "" && s[0] in SPACES { TrimStartKeeps(s[1..]); }
  }

  lemma {:induction false} TrailingGap(s: string, c: char)
    requires KindOf(c) == Gap
    ensures Tokens(s + [c]) == Tokens(s)
  {
    if s != "" {
      TrailingGap(s[1..], c);
      assert (s + [c])[1..] == s[1..] + [c];
    } else {
      assert (s + [c])[1..] == "";
    }
  }

  lemma {:induction false} TrimEndKeeps(s: string)
    ensures Tokens(TrimEnd(s)) == Tokens(s)
    ensures Plain(s) && SingleSpaced(s) ==> Plain(TrimEnd(s)) && SingleSpaced(TrimEnd(s))
    ensures TrimEnd(s) <= s && (TrimEnd(s) != "" ==> TrimEnd(s)[|TrimEnd(s)| - 1] !in SPACES)
  {
    if s != "" && s[|s| - 1] in SPACES {
      var front := s[..|s| - 1];
      TrimEndKeeps(front);
      TrailingGap(front, s[|s| - 1]);
      assert s == front + [s[|s| - 1]];
    }
  }

  lemma LeadingGap(s: string)
    ensures Tokens([' '] + s) == Tokens(s)
  {
    assert ([' '] + s)[1..] == s;
  }

  lemma {:induction false} SplitKeeps(s: string)
    ensures Tokens(AlphaDigitSplit(s)) == Tokens(s)
    ensures s != "" ==> AlphaDigitSplit(s) != "" && AlphaDigitSplit(s)[0] == s[0]
  {
    if |s| >= 2 {
      var t := AlphaDigitSplit(s[1..]);
      SplitKeeps(s[1..]);
      if Boundary(s[0], s[1]) {
        LeadingGap(t);
        assert AlphaDigitSplit(s)[1..] == [' '] + t;
      } else {
        assert AlphaDigitSplit(s)[1..] == t;
      }
    }
  }

  // -------------------------------------------------------------- normal form

  ghost predicate PairsApart(s: string) {
    forall i :: 0 <= i < |s| - 1 ==> !Boundary(s[i], s[i + 1])
  }

  ghost predicate Trimmed(s: string) {
    s != "" ==> s[0] != ' ' && s[|s| - 1] != ' '
  }

  /** What the passes leave: letters, digits and single inner spaces, no letter beside a digit. */
  ghost predicate Normal(s: string) {
    Plain(s) && SingleSpaced(s) && Trimmed(s) && PairsApart(s)
  }

  lemma {:induction false} SplitIsNormal(s: string)
    requires Plain(s) && SingleSpaced(s) && (s != "" ==> s[|s| - 1] != ' ')
    ensures var r := AlphaDigitSplit(s);
      Plain(r) && SingleSpaced(r) && PairsApart(r) && (s != "" ==> r != "" && r[0] == s[0] && r[|r| - 1] != ' ')
    ensures s == "" ==> AlphaDigitSplit(s) == ""
  {
    if |s| >= 2 {
      var t := AlphaDigitSplit(s[1..]);
      SplitIsNormal(s[1..]);
      assert t[0] == s[1];
      var r := AlphaDigitSplit(s);
      if Boundary(s[0], s[1]) {
        assert r == [s[0], ' '] + t;
        PrependSpaced(s[0], t);
      } else {
        assert r == [s[0]] + t;
        PrependNormal(s[0], t);
      }
    }
  }

  lemma PrependNormal(c: char, t: string)
    requires (AlphaNum(c) || c == ' ') && t != "" && !Boundary(c, t[0]) && (c == ' ' ==> t[0] != ' ')
    requires Plain(t) && SingleSpaced(t) && PairsApart(t)
    ensures Plain([c] + t) && SingleSpaced([c] + t) && PairsApart([c] + t)
  {
    var r := [c] + t;
    forall i | 0 <= i < |r| - 1 ensures (r[i] != ' ' || r[i + 1] != ' ') && !Boundary(r[i], r[i + 1]) {
      if i > 0 { assert r[i] == t[i - 1] && r[i + 1] == t[i]; }
    }
  }

  lemma PrependSpaced(c: char, t: string)
    requires AlphaNum(c) && t != "" && t[0] != ' '
    requires Plain(t) && SingleSpaced(t) && PairsApart(t)
    ensures Plain([c, ' '] + t) && SingleSpaced([c, ' '] + t) && PairsApart([c, ' '] + t)
  {
    PrependNormal(' ', t);
    PrependNormal(c, [' '] + t);
    assert [c] + ([' '] + t) == [c, ' '] + t;
  }

  lemma PassesReachNormal(raw: string)
    requires InAlphabet(raw)
    ensures Normal(NormalizeLabelText(raw)) && Tokens(NormalizeLabelText(raw)) == Tokens(raw)
  {
    hide ToUpper, SeparatorsToSpace, Collapse, TrimStart, TrimEnd, AlphaDigitSplit, Tokens;
    var upper := ToUpper(raw);
    ToUpperKeeps(raw);
    var spaced := SeparatorsToSpace(upper);
    SeparatorsKeep(upper);
    var single := Collapse(spaced);
    CollapseKeeps(spaced);
    CollapseIsSingleSpaced(spaced);
    var left := TrimStart(single);
    TrimStartKeeps(single);
    var trimmed := TrimEnd(left);
    TrimEndKeeps(left);
    assert trimmed != "" ==> trimmed[0] == left[0];
    SplitKeeps(trimmed);
    SplitIsNormal(trimmed);
  }

  /** A lone first character is a token of its own. */
  lemma LoneHead(s: string)
    requires |s| > 2 && AlphaNum(s[0]) && s[1] == ' ' && AlphaNum(s[2])
    ensures Tokens(s) == [[s[0]]] + Tokens(s[2..]) && Tokens(s[2..]) != []
  {
    LeadingGap(s[2..]);
    assert s[1..] == [' '] + s[2..];
  }

  lemma RunHead(s: string)
    requires |s| > 1 && AlphaNum(s[0]) && AlphaNum(s[1]) && !Boundary(s[0], s[1])
    ensures Tokens(s[1..]) != []
    ensures Tokens(s) == [[s[0]] + Tokens(s[1..])[0]] + Tokens(s[1..])[1..]
  {
    assert s[1..][0] == s[1];
  }

  lemma JoinLone(c: char, rest: seq<string>)
    requires rest != []
    ensures Join([[c]] + rest) == [c, ' '] + Join(rest)
  {
    assert ([[c]] + rest)[1..] == rest;
  }

  lemma JoinRun(c: char, rest: seq<string>)
    requires rest != []
    ensures Join([[c] + rest[0]] + rest[1..]) == [c] + Join(rest)
  {
    assert ([[c] + rest[0]] + rest[1..])[1..] == rest[1..];
  }

  /** A normal text is its own tokens, joined by single spaces. */
  lemma {:induction false} NormalIsJoin(s: string)
    requires Normal(s)
    ensures s == Join(Tokens(s))
    decreases |s|
  {
    if |s| == 1 {
      assert s[0] in s && s[1..] == "" && s == [s[0]];
      assert Tokens(s) == [[s[0]]];
    } else if |s| > 1 {
      hide Tokens, Join;
      assert s[0] in s && s[1] in s && !Boundary(s[0], s[1]);
      if s[1] == ' ' {
        assert s[1] != ' ' || s[2] != ' ';
        assert s[2] in s;
        NormalTail(s, 2);
        NormalIsJoin(s[2..]);
        LoneHead(s);
        JoinLone(s[0], Tokens(s[2..]));
        assert s == [s[0], ' '] + s[2..];
      } else {
        NormalTail(s, 1);
        NormalIsJoin(s[1..]);
        RunHead(s);
        JoinRun(s[0], Tokens(s[1..]));
        assert s == [s[0]] + s[1..];
      }
    }
  }

  lemma NormalTail(s: string, n: nat)
    requires Normal(s) && 0 < n < |s| && s[n] != ' '
    ensures Normal(s[n..])
  {
    var t := s[n..];
    forall i | 0 <= i < |t| - 1 ensures (t[i] != ' ' || t[i + 1] != ' ') && !Boundary(t[i], t[i + 1]) {
      assert t[i] == s[n + i] && t[i + 1] == s[n + i + 1];
    }
  }

  /** Normalization prints the token list, so it is idempotent and equates exactly the labels with equal tokens. */
  lemma NormalizePrintsTokens(raw: string)
    requires InAlphabet(raw)
    ensures NormalizeLabelText(raw) == Join(Tokens(raw))
    ensures InAlphabet(NormalizeLabelText(raw))
    ensures NormalizeLabelText(NormalizeLabelText(raw)) == NormalizeLabelText(raw)
  {
    hide NormalizeLabelText, Tokens, Join;
    var once := NormalizeLabelText(raw);
    PassesReachNormal(raw);
    NormalIsJoin(once);
    assert InAlphabet(once);
    PassesReachNormal(once);
    NormalIsJoin(NormalizeLabelText(once));
  }

  lemma SameTextIffSameTokens(a: string, b: string)
    requires InAlphabet(a) && InAlphabet(b)
    ensures NormalizeLabelText(a) == NormalizeLabelText(b) <==> Tokens(a) == Tokens(b)
  {
    hide NormalizeLabelText, Tokens, Join;
    PassesReachNormal(a);
    PassesReachNormal(b);
    NormalizePrintsTokens(a);
    NormalizePrintsTokens(b);
  }

  // ----------------------------------------------------------------- patterns

  /** The pattern occurs at `i` with no letter or digit on either side. */
  predicate GuardedAt(text: string, pattern: string, i: int) {
    && 0 <= i <= |text| - |pattern|
    && text[i..i + |pattern|] == pattern
    && (i == 0 || !AlphaNum(text[i - 1]))
    && (i + |pattern| == |text| || !AlphaNum(text[i + |pattern|]))
  }

  predicate Test(text: string, pattern: string) {
    exists i | 0 <= i <= |text| - |pattern| :: GuardedAt(text, pattern, i)
  }

  function RemoveSpaces(s: string): string {
    if s == "" then "" else if s[0] == ' ' then RemoveSpaces(s[1..]) else [s[0]] + RemoveSpaces(s[1..])
  }

  ghost predicate Word(w: string) { w != "" && forall c :: c in w ==> AlphaNum(c) }

  ghost predicate Words(tokens: seq<string>) { forall w :: w in tokens ==> Word(w) }

  lemma {:induction false} TokensAreWords(s: string)
    ensures Words(Tokens(s))
  {
    if s != "" {
      TokensAreWords(s[1..]);
      var rest := Tokens(s[1..]);
      if KindOf(s[0]) != Gap && |s| > 1 && KindOf(s[1]) == KindOf(s[0]) {
        assert Word(rest[0]);
        assert Word([UpperChar(s[0])] + rest[0]);
      } else if KindOf(s[0]) != Gap {
        assert Word([UpperChar(s[0])]);
      }
    }
  }

  ghost predicate InfixAt(tokens: seq<string>, pattern: seq<string>, k: int) {
    0 <= k <= |tokens| - |pattern| && tokens[k..k + |pattern|] == pattern
  }

  /** The pattern's tokens occur contiguously among the label's. */
  ghost predicate Infix(tokens: seq<string>, pattern: seq<string>) {
    exists k :: InfixAt(tokens, pattern, k)
  }

  lemma JoinHead(tokens: seq<string>)
    requires Words(tokens) && tokens != []
    ensures tokens[0] <= Join(tokens)
    ensures |tokens| == 1 ==> Join(tokens) == tokens[0]
    ensures |tokens| > 1 ==> |Join(tokens)| > |tokens[0]| + 1 && Join(tokens)[|tokens[0]|] == ' '
    ensures |tokens| > 1 ==> Join(tokens)[|tokens[0]| + 1..] == Join(tokens[1..])
  {
    if |tokens| > 1 {
      assert Word(tokens[1]);
      assert tokens[1..][0] == tokens[1];
      assert Join(tokens[1..]) != "" by {
        if |tokens| > 2 { assert Join(tokens[1..]) == tokens[1] + [' '] + Join(tokens[1..][1..]); }
      }
    }
  }

  lemma EmptyJoin()
    ensures Join([]) == ""
  {
  }

  /** Two words that start the same text and both end at a break are the same word. */
  lemma SameFirstWord(text: string, p: string, a: string, b: string)
    requires Word(a) && Word(b) && a <= text && b <= p <= text
    requires |a| == |text| || text[|a|] == ' '
    requires |b| == |p| || p[|b|] == ' '
    requires |p| == |text| || !AlphaNum(text[|p|])
    ensures a == b
  {
    assert forall k :: 0 <= k < |a| ==> text[k] == a[k] && a[k] in a;
    assert forall k :: 0 <= k < |b| ==> text[k] == p[k] == b[k] && b[k] in b;
    assert |b| < |p| ==> text[|b|] == p[|b|];
    assert |a| == |b|;
    assert text[..|a|] == a && p[..|b|] == b && text[..|p|][..|b|] == text[..|b|];
  }

  /** A guarded match at the start is a token prefix. */
  lemma {:induction false} StartIsPrefix(tokens: seq<string>, pattern: seq<string>)
    requires Words(tokens) && Words(pattern) && pattern != []
    requires GuardedAt(Join(tokens), Join(pattern), 0)
    ensures pattern <= tokens
  {
    hide Join;
    var text, p := Join(tokens), Join(pattern);
    JoinHead(pattern);
    assert Word(pattern[0]);
    EmptyJoin();
    assert tokens != [];
    JoinHead(tokens);
    assert Word(tokens[0]);
    var w := |tokens[0]|;
    assert text[..|p|] == p;
    SameFirstWord(text, p, tokens[0], pattern[0]);
    if |pattern| > 1 {
      assert p[w] == text[w];
      var text', p' := Join(tokens[1..]), Join(pattern[1..]);
      assert text' == text[w + 1..] && p' == p[w + 1..];
      assert text'[0..|p'|] == text[..|p|][w + 1..];
      StartIsPrefix(tokens[1..], pattern[1..]);
    }
  }

  /** A guarded match cannot start inside the first word; past it, it is one in the rest. */
  lemma MatchSkipsWord(text: string, w: string, p: string, i: nat)
    requires Word(w) && w <= text && GuardedAt(text, p, i) && i > 0 && p != "" && p[0] != ' '
    requires |w| == |text| || text[|w|] == ' '
    ensures |w| + 1 <= i < |text| && GuardedAt(text[|w| + 1..], p, i - |w| - 1)
  {
    assert forall k :: 0 <= k < |w| ==> text[k] == w[k] && w[k] in w;
    assert text[i] == text[i..i + |p|][0] == p[0];
    var rest := text[|w| + 1..];
    assert rest[i - |w| - 1..i - |w| - 1 + |p|] == text[i..i + |p|];
  }

  lemma FirstOfJoin(tokens: seq<string>)
    requires tokens != [] && Words(tokens)
    ensures Join(tokens) != "" && AlphaNum(Join(tokens)[0])
  {
    JoinHead(tokens);
    hide Join;
    assert Word(tokens[0]);
    assert Join(tokens)[0] == tokens[0][0] && tokens[0][0] in tokens[0];
  }

  /** A match further in starts after a whole token. */
  lemma {:induction false} MatchIsInfix(tokens: seq<string>, pattern: seq<string>, i: nat)
    requires Words(tokens) && Words(pattern) && pattern != []
    requires GuardedAt(Join(tokens), Join(pattern), i)
    ensures Infix(tokens, pattern)
  {
    hide Join;
    if i == 0 {
      StartIsPrefix(tokens, pattern);
      assert InfixAt(tokens, pattern, 0);
    } else {
      EmptyJoin();
      assert tokens != [];
      JoinHead(tokens);
      assert Word(tokens[0]) && Word(pattern[0]);
      FirstOfJoin(pattern);
      MatchSkipsWord(Join(tokens), tokens[0], Join(pattern), i);
      hide GuardedAt;
      MatchIsInfix(tokens[1..], pattern, i - |tokens[0]| - 1);
      var k :| InfixAt(tokens[1..], pattern, k);
      InfixShifts(tokens, pattern, k);
    }
  }

  lemma InfixShifts(tokens: seq<string>, pattern: seq<string>, k: nat)
    requires tokens != [] && InfixAt(tokens[1..], pattern, k)
    ensures InfixAt(tokens, pattern, k + 1)
  {
    assert tokens[1..][k..k + |pattern|] == tokens[k + 1..k + 1 + |pattern|];
  }

  /** Token lists joined one after the other. */
  lemma {:induction false} JoinAppend(a: seq<string>, b: seq<string>)
    requires a != [] && b != []
    ensures Join(a + b) == Join(a) + [' '] + Join(b)
  {
    if |a| == 1 {
      assert (a + b)[1..] == b;
    } else {
      assert (a + b)[1..] == a[1..] + b;
      JoinAppend(a[1..], b);
    }
  }

  lemma GuardedMiddle(before: string, p: string, after: string)
    requires before == "" || before[|before| - 1] == ' '
    requires after == "" || after[0] == ' '
    ensures Test(before + p + after, p)
  {
    var text, i := before + p + after, |before|;
    assert text[i..i + |p|] == p;
    assert i + |p| < |text| ==> text[i + |p|] == after[0];
    assert GuardedAt(text, p, i);
  }

  /** A token infix is a guarded match of the joined texts. */
  lemma InfixIsMatch(tokens: seq<string>, pattern: seq<string>, k: int)
    requires pattern != [] && InfixAt(tokens, pattern, k)
    ensures Test(Join(tokens), Join(pattern))
  {
    hide Join, Test;
    var before, after := tokens[..k], tokens[k + |pattern|..];
    assert tokens == before + (pattern + after);
    var left, right := "", "";
    if after == [] {
      assert pattern + after == pattern;
    } else {
      right := [' '] + Join(after);
      JoinAppend(pattern, after);
    }
    assert Join(pattern + after) == Join(pattern) + right;
    if before == [] {
      assert before + (pattern + after) == pattern + after;
    } else {
      left := Join(before) + [' '];
      JoinAppend(before, pattern + after);
    }
    assert Join(tokens) == left + Join(pattern) + right;
    GuardedMiddle(left, Join(pattern), right);
  }

  /** The direct test of a non-empty pattern finds exactly its tokens, whole and in a row. */
  lemma DirectIffInfix(raw: string, pattern: string)
    requires InAlphabet(raw) && InAlphabet(pattern) && Tokens(pattern) != []
    ensures Test(NormalizeLabelText(raw), NormalizeLabelText(pattern)) <==> Infix(Tokens(raw), Tokens(pattern))
  {
    hide NormalizeLabelText, Tokens, Join, GuardedAt, InfixAt;
    var ts, ps := Tokens(raw), Tokens(pattern);
    NormalizePrintsTokens(raw);
    NormalizePrintsTokens(pattern);
    TokensAreWords(raw);
    TokensAreWords(pattern);
    if Test(Join(ts), Join(ps)) {
      var i :| 0 <= i <= |Join(ts)| - |Join(ps)| && GuardedAt(Join(ts), Join(ps), i);
      MatchIsInfix(ts, ps, i);
    }
    if Infix(ts, ps) {
      var k :| InfixAt(ts, ps, k);
      InfixIsMatch(ts, ps, k);
    }
  }

  // ------------------------------------------------------------ compact match

  function Flat(tokens: seq<string>): string {
    if tokens == [] then "" else tokens[0] + Flat(tokens[1..])
  }

  lemma {:induction false} RemoveSpacesAppend(a: string, b: string)
    ensures RemoveSpaces(a + b) == RemoveSpaces(a) + RemoveSpaces(b)
  {
    if a == "" {
      assert a + b == b;
    } else {
      assert (a + b)[1..] == a[1..] + b;
      RemoveSpacesAppend(a[1..], b);
    }
  }

  lemma {:induction false} WordHasNoSpaces(w: string)
    requires forall c :: c in w ==> AlphaNum(c)
    ensures RemoveSpaces(w) == w
  {
    if w != "" {
      assert w[0] in w;
      WordHasNoSpaces(w[1..]);
      assert w == [w[0]] + w[1..];
    }
  }

  lemma {:induction false} FlatIsAlphaNum(tokens: seq<string>)
    requires Words(tokens)
    ensures forall c :: c in Flat(tokens) ==> AlphaNum(c)
  {
    if tokens != [] {
      assert Word(tokens[0]);
      FlatIsAlphaNum(tokens[1..]);
    }
  }

  /** A joined list is its first word, then a space and the rest if there is one. */
  lemma JoinUnfolds(tokens: seq<string>)
    requires tokens != []
    ensures |tokens| == 1 ==> Join(tokens) == tokens[0] && Flat(tokens) == tokens[0] + ""
    ensures |tokens| > 1 ==> Join(tokens) == tokens[0] + [' '] + Join(tokens[1..])
    ensures Flat(tokens) == tokens[0] + Flat(tokens[1..])
  {
  }

  lemma {:induction false} RemoveSpacesFlattens(tokens: seq<string>)
    requires Words(tokens)
    ensures RemoveSpaces(Join(tokens)) == Flat(tokens)
  {
    if tokens != [] {
      JoinUnfolds(tokens);
      assert Word(tokens[0]);
      if |tokens| > 1 { RemoveSpacesFlattens(tokens[1..]); }
      hide RemoveSpaces, Join, Flat;
      WordHasNoSpaces(tokens[0]);
      if |tokens| > 1 {
        RemoveSpacesAppend(tokens[0] + [' '], Join(tokens[1..]));
        RemoveSpacesAppend(tokens[0], [' ']);
        OneSpace();
      }
    }
  }

  lemma OneSpace()
    ensures RemoveSpaces([' ']) == ""
  {
    assert [' '][1..] == "";
  }

  /** In a text of letters and digits alone, the guards leave room for the whole text only. */
  lemma GuardedWhole(text: string, pattern: string)
    requires forall c :: c in text ==> AlphaNum(c)
    ensures Test(text, pattern) <==> text == pattern
  {
    if text == pattern { assert GuardedAt(text, pattern, 0); }
    assert forall i :: 0 <= i < |text| ==> text[i] in text;
  }

  /** The compact test holds exactly when label and pattern agree once all breaks are removed. */
  lemma CompactIffFlatEqual(raw: string, pattern: string)
    requires InAlphabet(raw) && InAlphabet(pattern)
    ensures Test(RemoveSpaces(NormalizeLabelText(raw)), RemoveSpaces(NormalizeLabelText(pattern)))
      <==> Flat(Tokens(raw)) == Flat(Tokens(pattern))
  {
    hide NormalizeLabelText, Tokens, Join, RemoveSpaces, Test;
    NormalizePrintsTokens(raw);
    NormalizePrintsTokens(pattern);
    TokensAreWords(raw);
    TokensAreWords(pattern);
    RemoveSpacesFlattens(Tokens(raw));
    RemoveSpacesFlattens(Tokens(pattern));
    FlatIsAlphaNum(Tokens(raw));
    GuardedWhole(Flat(Tokens(raw)), Flat(Tokens(pattern)));
  }

  /** A pattern with no letter or digit matches only a label with none, on either test. */
  lemma EmptyPatternMatches(raw: string, pattern: string)
    requires InAlphabet(raw) && InAlphabet(pattern) && Tokens(pattern) == []
    ensures Test(NormalizeLabelText(raw), NormalizeLabelText(pattern)) <==> Tokens(raw) == []
  {
    hide NormalizeLabelText, Tokens;
    var text := NormalizeLabelText(raw);
    NormalizePrintsTokens(raw);
    NormalizePrintsTokens(pattern);
    PassesReachNormal(raw);
    EmptyJoin();
    if Tokens(raw) == [] {
      assert GuardedAt(text, "", 0);
    } else {
      TokensAreWords(raw);
      JoinHead(Tokens(raw));
      assert Word(Tokens(raw)[0]);
      forall i | 0 <= i <= |text| ensures !GuardedAt(text, "", i) {
        if 0 < i < |text| { assert text[i - 1] in text && text[i] in text; assert text[i - 1] != ' ' || text[i] != ' '; }
        else if i == 0 { assert text[0] in text; }
        else { assert text[i - 1] in text; }
      }
    }
  }

  // ---------------------------------------------------------------- both tests

  /** The source's two tests, as token facts. */
  ghost predicate TokenMatch(raw: string, pattern: string) {
    var ts, ps := Tokens(raw), Tokens(pattern);
    (ps != [] && Infix(ts, ps)) || Flat(ts) == Flat(ps)
  }

  predicate TextMatch(raw: string, pattern: string) {
    var text, norm := NormalizeLabelText(raw), NormalizeLabelText(pattern);
    Test(text, norm) || Test(RemoveSpaces(text), RemoveSpaces(norm))
  }

  lemma FlatEmpty(tokens: seq<string>)
    requires Words(tokens)
    ensures Flat(tokens) == "" <==> tokens == []
  {
    if tokens != [] { assert Word(tokens[0]); }
  }

  lemma TextMatchIsTokenMatch(raw: string, pattern: string)
    requires InAlphabet(raw) && InAlphabet(pattern)
    ensures TextMatch(raw, pattern) <==> TokenMatch(raw, pattern)
  {
    hide NormalizeLabelText, Tokens, Flat, Test, RemoveSpaces, Infix;
    CompactIffFlatEqual(raw, pattern);
    if Tokens(pattern) != [] {
      DirectIffInfix(raw, pattern);
    } else {
      EmptyPatternMatches(raw, pattern);
      TokensAreWords(raw);
      TokensAreWords(pattern);
      FlatEmpty(Tokens(raw));
      FlatEmpty(Tokens(pattern));
    }
  }
}
