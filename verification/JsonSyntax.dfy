/**
 Canonical text as JSON (RFC 8259), character by character: what `Print` returns
 for a value is a JSON text of that value, laid out as ECMAScript lays out its
 numbers, with the members of every object in the order of the first code unit
 their keys differ in (section 3.2.3 of RFC 8785).
 */
module JsonSyntax {
  import opened Wrappers
  import opened JsonNumbers
  import opened JsonStrings
  import opened CanonicalJson

  function Ascii(s: string): (t: Text)
    ensures |t| == |s|
  {
    seq(|s|, i requires 0 <= i < |s| => if s[i] <= '~' then s[i] as int else 0)
  }

  ghost predicate OnlyOf(t: Text, alphabet: string) { forall c :: c in t ==> c in Ascii(alphabet) }

  /** A number literal: the digits, the point and the sign it decodes to, with an exponent exactly from 1e21 up and below 1e-6. */
  ghost predicate NumberLiteral(t: Text, d: Decimal) {
    match d
    case Zero(_) => t == Ascii("0")
    case NonZero(negative, digits, point) =>
      OnlyOf(t, "0123456789+-.e") && (negative ==> t != [] && t[0] == '-' as int) &&
      var positive := if negative then t[1..] else t;
      DecodePositive(positive) == (digits, point) && ('e' as int in positive <==> point > 21 || point <= -6)
  }

  /** A string literal: quoted, without control characters, and decoding to the string. */
  ghost predicate StringLiteral(t: Text, s: Text) {
    |t| >= 2 && t[0] == '"' as int && t[|t| - 1] == '"' as int &&
    Decode(t[1..|t| - 1]) == s && forall c :: c in t ==> c >= 32
  }

  function Commas(ts: seq<Text>): Text {
    if ts == [] then [] else if |ts| == 1 then ts[0] else ts[0] + Ascii(",") + Commas(ts[1..])
  }

  /** One key comes before another: at the first unit they differ in, or as its beginning. */
  ghost predicate Precedes(a: Text, b: Text) {
    a < b || exists k :: 0 <= k < |a| && k < |b| && a[..k] == b[..k] && a[k] < b[k]
  }

  /** One member of an object: its key, the key's literal and the value's text. */
  datatype Member = Member(key: Text, literal: Text, value: Text)

  function MemberTexts(ms: seq<Member>): seq<Text> {
    seq(|ms|, i requires 0 <= i < |ms| => ms[i].literal + Ascii(":") + ms[i].value)
  }

  /** The members are literals of their keys, in ascending key order. */
  ghost predicate Ordered(ms: seq<Member>) {
    (forall i :: 0 <= i < |ms| ==> StringLiteral(ms[i].literal, ms[i].key)) &&
    forall i, j :: 0 <= i < j < |ms| ==> Precedes(ms[i].key, ms[j].key)
  }

  ghost predicate Bracketed(t: Text, open: char, inside: Text, close: char) {
    t == Ascii([open]) + inside + Ascii([close])
  }

  /** The text is a JSON text of the value. */
  ghost predicate Denotes(t: Text, v: Json)
    decreases v
  {
    match v
    case Null => t == Ascii("null")
    case Bool(b) => t == Ascii(if b then "true" else "false")
    case Number(n) => NumberLiteral(t, n)
    case Str(s) => StringLiteral(t, s)
    case Date(iso) => StringLiteral(t, iso)
    case Array(items) => exists ts :: ArrayOf(t, items, ts)
    case Object(_, entries) => exists ms :: ObjectOf(t, entries, ms)
    case _ => false
  }

  /** The item texts in order, in brackets. */
  ghost predicate ArrayOf(t: Text, items: seq<Json>, ts: seq<Text>)
    decreases items
  {
    |ts| == |items| && Bracketed(t, '[', Commas(ts), ']') && forall i :: 0 <= i < |items| ==> Denotes(ts[i], items[i])
  }

  /** The members in key order, in braces: one for each entry, and no more. */
  ghost predicate ObjectOf(t: Text, entries: seq<Keyed<Json>>, ms: seq<Member>)
    decreases entries
  {
    |ms| == |entries| && Bracketed(t, '{', Commas(MemberTexts(ms)), '}') && Ordered(ms) &&
    forall i :: 0 <= i < |entries| ==> exists j :: 0 <= j < |ms| && ms[j].key == entries[i].key && Denotes(ms[j].value, entries[i].item)
  }

  // ------------------------------------------------------------------ numbers

  lemma NumberAlphabet(t: Text)
    requires AllNumber(t)
    ensures OnlyOf(t, "0123456789+-.e")
  {
    var a := Ascii("0123456789+-.e");
    assert a[10] == PLUS && a[11] == MINUS && a[12] == DOT && a[13] == EXP;
    forall c | c in t ensures c in a {
      if 48 <= c < 58 { assert a[c - 48] == c; }
    }
  }

  lemma DigitsOnly(ds: seq<Digit>)
    ensures EXP !in DigitText(ds)
  {
  }

  /** Only the exponent layout prints an e. */
  lemma ExponentExactly(ds: seq<Digit>, n: int)
    requires ds != []
    ensures EXP in PositiveText(ds, n) <==> n > 21 || n <= -6
  {
    hide DigitText, Exponent;
    var t := PositiveText(ds, n);
    if |ds| <= n <= 21 {
      DigitsOnly(ds + Zeros(n - |ds|));
    } else if 0 < n <= 21 {
      DigitsOnly(ds[..n]);
      DigitsOnly(ds[n..]);
    } else if -6 < n <= 0 {
      DigitsOnly([0]);
      DigitsOnly(Zeros(-n) + ds);
    } else {
      ExponentHasE(n - 1);
      var head := if |ds| == 1 then DigitText(ds) else DigitText(ds[..1]) + [DOT] + DigitText(ds[1..]);
      assert t == head + Exponent(n - 1);
      assert t[|head|] == Exponent(n - 1)[0];
    }
  }

  lemma ExponentHasE(e: int)
    ensures Exponent(e) != [] && Exponent(e)[0] == EXP
  {
  }

  lemma NumberIsLiteral(d: Decimal)
    requires Shortest(d)
    ensures NumberLiteral(NumberText(d), d)
  {
    if d.Zero? {
      assert NumberText(d) == Ascii("0");
    } else {
      PositiveRoundTrip(d.digits, d.point);
      ExponentExactly(d.digits, d.point);
      PositiveTextShape(d.digits, d.point);
      hide PositiveText, DecodePositive;
      var t := NumberText(d);
      assert (if d.negative then t[1..] else t) == PositiveText(d.digits, d.point);
      assert AllNumber([MINUS]);
      AllNumberConcat([MINUS], PositiveText(d.digits, d.point));
      NumberAlphabet(t);
    }
  }

  // ------------------------------------------------------------------ strings

  lemma {:induction false} NoControls(s: Text)
    ensures forall c :: c in Escape(s) ==> c >= 32
  {
    if StartsWithPair(s) {
      NoControls(s[2..]);
      assert forall c :: c in s[..2] ==> c == s[0] || c == s[1];
    } else if s != [] {
      NoControls(s[1..]);
      UnitNoControls(s[0]);
    }
  }

  lemma UnitNoControls(c: CodeUnit)
    ensures forall x :: x in EscapeUnit(c) ==> x >= 32
  {
  }

  lemma QuotedIsLiteral(s: Text)
    ensures StringLiteral(Quoted(s), s)
  {
    StringRoundTrip(s);
    NoControls(s);
    hide Escape, Decode;
    var t := Quoted(s);
    assert t[1..|t| - 1] == Escape(s);
  }

  // --------------------------------------------------------------- containers

  lemma {:induction false} JoinIsCommas(ts: seq<Text>)
    ensures Join(ts) == Commas(ts)
  {
    assert Ascii(",") == [COMMA];
    if |ts| > 1 { JoinIsCommas(ts[1..]); }
  }

  function MemberOf(p: Keyed<Text>): Member { Member(p.key, Quoted(p.key), p.item) }

  function MembersOf(ps: seq<Keyed<Text>>): (ms: seq<Member>)
    ensures |ms| == |ps|
  {
    seq(|ps|, i requires 0 <= i < |ps| => MemberOf(ps[i]))
  }

  lemma PairsAreMembers(ps: seq<Keyed<Text>>)
    ensures PairTexts(ps) == MemberTexts(MembersOf(ps))
  {
    hide Quoted;
    assert Ascii(":") == [COLON];
  }

  lemma MembersOrdered(ps: seq<Keyed<Text>>)
    requires AscendingKeys(ps)
    ensures Ordered(MembersOf(ps))
  {
    hide StringLiteral, Quoted, Less, Precedes;
    var ms := MembersOf(ps);
    forall i | 0 <= i < |ms| ensures StringLiteral(ms[i].literal, ms[i].key) { QuotedIsLiteral(ps[i].key); }
    forall i, j | 0 <= i < j < |ms| ensures Precedes(ms[i].key, ms[j].key) { LessPrecedes(ps[i].key, ps[j].key); }
  }

  lemma LessPrecedes(a: Text, b: Text)
    requires Less(a, b)
    ensures Precedes(a, b)
  {
    LessExactly(a, b);
    if !(a < b) { var k :| DiffersAt(a, b, k); }
  }

  lemma {:induction false} EntryTexts(entries: seq<Keyed<Json>>, depth: nat, i: nat)
    requires PrintEntries(entries, depth).Some? && i < |entries|
    ensures var p := PrintEntries(entries, depth).value[i]; p.key == entries[i].key && Print(entries[i].item, depth) == Some(p.item)
  {
    hide Print;
    if i > 0 { EntryTexts(entries[1..], depth, i - 1); }
  }

  lemma {:induction false} ItemTexts(items: seq<Json>, depth: nat, i: nat)
    requires PrintItems(items, depth).Some? && i < |items|
    ensures Print(items[i], depth) == Some(PrintItems(items, depth).value[i])
  {
    hide Print;
    if i > 0 { ItemTexts(items[1..], depth, i - 1); }
  }

  lemma {:induction false} ArrayDenotes(v: Json, depth: nat)
    requires v.Array? && Print(v, depth).Some? && WellFormed(v)
    ensures Denotes(Print(v, depth).value, v)
    decreases v, 0
  {
    var ts := PrintItems(v.items, depth + 1).value;
    var t := Print(v, depth).value;
    assert t == [LBRACKET] + Join(ts) + [RBRACKET];
    assert Ascii("[") == [LBRACKET] && Ascii("]") == [RBRACKET];
    JoinIsCommas(ts);
    forall i | 0 <= i < |v.items| ensures Denotes(ts[i], v.items[i]) {
      ItemTexts(v.items, depth + 1, i);
      PrintDenotes(v.items[i], depth + 1);
    }
    hide Join, Print, PrintItems;
    assert Bracketed(t, '[', Commas(ts), ']');
    assert ArrayOf(t, v.items, ts);
  }

  lemma {:induction false} EntriesDenote(entries: seq<Keyed<Json>>, depth: nat, ps: seq<Keyed<Text>>)
    requires PrintEntries(entries, depth) == Some(ps) && forall i :: 0 <= i < |entries| ==> WellFormed(entries[i].item)
    ensures forall i :: 0 <= i < |entries| ==> ps[i].key == entries[i].key && Denotes(ps[i].item, entries[i].item)
    decreases entries, 0
  {
    forall i | 0 <= i < |entries| ensures ps[i].key == entries[i].key && Denotes(ps[i].item, entries[i].item) {
      EntryTexts(entries, depth, i);
      PrintDenotes(entries[i].item, depth);
    }
  }

  /** Sorting keeps every pair, so every entry has its member. */
  lemma SortedMembers(ps: seq<Keyed<Text>>, i: nat) returns (j: nat)
    requires i < |ps|
    ensures j < |SortKeyed(ps)| == |ps| && SortKeyed(ps)[j] == ps[i]
  {
    hide SortKeyed;
    SortKeyedPermutes(ps);
    var sorted := SortKeyed(ps);
    assert |sorted| == |multiset(sorted)| == |multiset(ps)| == |ps|;
    assert ps[i] in multiset(sorted);
    j :| 0 <= j < |sorted| && sorted[j] == ps[i];
  }

  lemma SortedLength(ps: seq<Keyed<Text>>)
    ensures |SortKeyed(ps)| == |ps|
  {
    hide SortKeyed;
    SortKeyedPermutes(ps);
    assert |multiset(SortKeyed(ps))| == |multiset(ps)|;
  }

  lemma ObjectTextIsBracketed(ps: seq<Keyed<Text>>)
    ensures Bracketed([LBRACE] + Join(PairTexts(ps)) + [RBRACE], '{', Commas(MemberTexts(MembersOf(ps))), '}')
  {
    assert Ascii("{") == [LBRACE] && Ascii("}") == [RBRACE];
    hide Join, PairTexts, Commas, MemberTexts, MembersOf;
    PairsAreMembers(ps);
    JoinIsCommas(MemberTexts(MembersOf(ps)));
  }

  lemma {:induction false} ObjectDenotes(v: Json, depth: nat)
    requires v.Object? && Print(v, depth).Some? && WellFormed(v)
    ensures Denotes(Print(v, depth).value, v)
    decreases v, 0
  {
    var entries, ps := v.entries, PrintEntries(v.entries, depth + 1).value;
    var sorted, t := SortKeyed(ps), Print(v, depth).value;
    assert t == [LBRACE] + Join(PairTexts(sorted)) + [RBRACE];
    hide Print, PrintEntries, Join, SortKeyed, PairTexts, Quoted, StringLiteral, Precedes, Ordered, Bracketed, Commas, MemberTexts, Denotes;
    EntriesDenote(entries, depth + 1, ps);
    SortedLength(ps);
    SortKeyedAscends(ps);
    MembersOrdered(sorted);
    ObjectTextIsBracketed(sorted);
    var ms := MembersOf(sorted);
    forall i | 0 <= i < |entries| ensures exists j :: 0 <= j < |ms| && ms[j].key == entries[i].key && Denotes(ms[j].value, entries[i].item) {
      var j := SortedMembers(ps, i);
      assert ms[j].key == entries[i].key;
    }
    assert ObjectOf(t, entries, ms);
    ObjectHolds(t, v, ms);
  }

  lemma ObjectHolds(t: Text, v: Json, ms: seq<Member>)
    requires v.Object? && ObjectOf(t, v.entries, ms)
    ensures Denotes(t, v)
  {
    hide ObjectOf;
  }

  /** Whatever prints, prints as a JSON text of itself. */
  lemma {:induction false} PrintDenotes(v: Json, depth: nat)
    requires Print(v, depth).Some? && WellFormed(v)
    ensures Denotes(Print(v, depth).value, v)
    decreases v, 1
  {
    hide StringLiteral, NumberLiteral, NumberText, Quoted;
    match v {
      case Number(n) => NumberIsLiteral(n);
      case Str(s) => QuotedIsLiteral(s);
      case Date(iso) => QuotedIsLiteral(iso);
      case Array(items) => ArrayDenotes(v, depth);
      case Object(_, entries) => ObjectDenotes(v, depth);
      case Null => assert NULL_TEXT == Ascii("null");
      case Bool(b) => assert TRUE_TEXT == Ascii("true") && FALSE_TEXT == Ascii("false");
      case _ =>
    }
  }
}
