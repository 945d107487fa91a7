/**
 Canonical serialization as an identity (packages/types/src/canonical.ts).

 `Print` is the source's recursion. Its text is what a sort-free printer makes of
 the value's canonical form, that printer can be read back unambiguously, and two
 values share a canonical form exactly when they are the same data. So equal text
 means equal data, and nothing else does.
 */
module CanonicalJson {
  import opened Sequences
  import opened Wrappers
  import opened JsonNumbers
  import opened JsonStrings

  const COMMA: CodeUnit := ',' as int
  const COLON: CodeUnit := ':' as int
  const LBRACKET: CodeUnit := '[' as int
  const RBRACKET: CodeUnit := ']' as int
  const LBRACE: CodeUnit := '{' as int
  const RBRACE: CodeUnit := '}' as int
  const NULL_TEXT: Text := [110, 117, 108, 108]
  const TRUE_TEXT: Text := [116, 114, 117, 101]
  const FALSE_TEXT: Text := [102, 97, 108, 115, 101]

  const MAX_SAFE_DEPTH: nat := 64

  type Finite = d: Decimal | Shortest(d) witness Zero(false)

  datatype Keyed<T> = Keyed(key: Text, item: T)

  /**
   Everything that is no primitive, Date or array prints by its own enumerable
   entries: a literal object (`Record`), but also a function, a symbol, a Map or a
   class instance (`Exotic`), most of which have none and print as `{}`.
   */
  datatype Kind = Record | Exotic

  /** The values a caller may pass; an object lists its own entries in insertion order. */
  datatype Json =
    | Null
    | Bool(b: bool)
    | Number(n: Finite)
    | NotFinite
    | Str(s: Text)
    | Date(iso: Text)
    | InvalidDate
    | BigInt(i: int)
    | Undefined
    | Array(items: seq<Json>)
    | Object(kind: Kind, entries: seq<Keyed<Json>>)

  // ------------------------------------------------------------------ sorting

  function InsertKeyed<T>(x: Keyed<T>, s: seq<Keyed<T>>): seq<Keyed<T>> {
    if s == [] || !Less(s[0].key, x.key) then [x] + s else [s[0]] + InsertKeyed(x, s[1..])
  }

  function SortKeyed<T>(s: seq<Keyed<T>>): seq<Keyed<T>> {
    if s == [] then [] else InsertKeyed(s[0], SortKeyed(s[1..]))
  }

  ghost predicate DistinctKeys<T>(s: seq<Keyed<T>>) {
    forall i, j :: 0 <= i < j < |s| ==> s[i].key != s[j].key
  }

  ghost predicate AscendingKeys<T>(s: seq<Keyed<T>>) {
    forall i, j :: 0 <= i < j < |s| ==> Less(s[i].key, s[j].key)
  }

  // ----------------------------------------------------------------- printing

  function Join(ts: seq<Text>): Text {
    if ts == [] then [] else if |ts| == 1 then ts[0] else ts[0] + [COMMA] + Join(ts[1..])
  }

  function PairTexts(ps: seq<Keyed<Text>>): seq<Text> {
    seq(|ps|, i requires 0 <= i < |ps| => Quoted(ps[i].key) + [COLON] + ps[i].item)
  }

  /** canonicalJson; absent when it throws. */
  function Print(v: Json, depth: nat): Option<Text>
    decreases v, 1
  {
    if depth > MAX_SAFE_DEPTH then None
    else
      match v
      case Null => Some(NULL_TEXT)
      case Bool(b) => Some(if b then TRUE_TEXT else FALSE_TEXT)
      case Number(n) => Some(NumberText(n))
      case Str(s) => Some(Quoted(s))
      case Date(iso) => Some(Quoted(iso))
      case InvalidDate => None
      case NotFinite => None
      case BigInt(_) => None
      case Undefined => None
      case Array(items) =>
        var ts := PrintItems(items, depth + 1);
        if ts.None? then None else Some([LBRACKET] + Join(ts.value) + [RBRACKET])
      case Object(_, entries) =>
        var ps := PrintEntries(entries, depth + 1);
        if ps.None? then None else Some([LBRACE] + Join(PairTexts(SortKeyed(ps.value))) + [RBRACE])
  }

  function PrintItems(items: seq<Json>, depth: nat): (r: Option<seq<Text>>)
    ensures r.Some? ==> |r.value| == |items|
    decreases items, 0
  {
    if items == [] then Some([])
    else
      var head := Print(items[0], depth);
      var rest := PrintItems(items[1..], depth);
      if head.None? || rest.None? then None else Some([head.value] + rest.value)
  }

  function PrintEntries(entries: seq<Keyed<Json>>, depth: nat): (r: Option<seq<Keyed<Text>>>)
    ensures r.Some? ==> |r.value| == |entries|
    decreases entries, 0
  {
    if entries == [] then Some([])
    else
      var head := Print(entries[0].item, depth);
      var rest := PrintEntries(entries[1..], depth);
      if head.None? || rest.None? then None else Some([Keyed(entries[0].key, head.value)] + rest.value)
  }

  // ---------------------------------------------------------- when it throws

  predicate Supported(v: Json)
    decreases v
  {
    match v
    case Array(items) => forall i :: 0 <= i < |items| ==> Supported(items[i])
    case Object(_, entries) => forall i :: 0 <= i < |entries| ==> Supported(entries[i].item)
    case _ => !v.InvalidDate? && !v.NotFinite? && !v.BigInt? && !v.Undefined?
  }

  /** How many containers deep the value goes. */
  function Height(v: Json): nat
    decreases v, 1
  {
    match v
    case Array(items) => ItemsHeight(items)
    case Object(_, entries) => EntriesHeight(entries)
    case _ => 0
  }

  function ItemsHeight(items: seq<Json>): nat
    decreases items, 0
  {
    if items == [] then 0
    else
      var h, rest := 1 + Height(items[0]), ItemsHeight(items[1..]);
      if h > rest then h else rest
  }

  function EntriesHeight(entries: seq<Keyed<Json>>): nat
    decreases entries, 0
  {
    if entries == [] then 0
    else
      var h, rest := 1 + Height(entries[0].item), EntriesHeight(entries[1..]);
      if h > rest then h else rest
  }

  lemma EmptyHeights()
    ensures ItemsHeight([]) == 0 && EntriesHeight([]) == 0
  {
  }

  /** It prints exactly the supported values nested at most 64 deep. */
  lemma {:induction false} PrintsExactly(v: Json, depth: nat)
    ensures Print(v, depth).Some? <==> Supported(v) && depth + Height(v) <= 64
    decreases v, 1
  {
    hide Join, SortKeyed, PairTexts, Quoted, NumberText, PrintItems, PrintEntries, ItemsHeight, EntriesHeight;
    EmptyHeights();
    match v {
      case Array(items) => ItemsPrintExactly(items, depth + 1);
      case Object(_, entries) => EntriesPrintExactly(entries, depth + 1);
      case _ =>
    }
  }

  lemma {:induction false} ItemsPrintExactly(items: seq<Json>, depth: nat)
    requires depth > 0
    ensures PrintItems(items, depth).Some? <==>
      (forall i :: 0 <= i < |items| ==> Supported(items[i])) && (items != [] ==> depth - 1 + ItemsHeight(items) <= MAX_SAFE_DEPTH)
    decreases items, 0
  {
    if items != [] {
      PrintsExactly(items[0], depth);
      ItemsPrintExactly(items[1..], depth);
      hide Print, Supported, Height;
      assert forall i :: 1 <= i < |items| ==> items[i] == items[1..][i - 1];
      assert (forall i :: 0 <= i < |items| ==> Supported(items[i])) <==>
        Supported(items[0]) && forall i :: 0 <= i < |items[1..]| ==> Supported(items[1..][i]);
    }
  }

  lemma {:induction false} EntriesPrintExactly(entries: seq<Keyed<Json>>, depth: nat)
    requires depth > 0
    ensures PrintEntries(entries, depth).Some? <==>
      (forall i :: 0 <= i < |entries| ==> Supported(entries[i].item)) && (entries != [] ==> depth - 1 + EntriesHeight(entries) <= MAX_SAFE_DEPTH)
    decreases entries, 0
  {
    if entries != [] {
      PrintsExactly(entries[0].item, depth);
      EntriesPrintExactly(entries[1..], depth);
      hide Print, Supported, Height;
      assert forall i :: 1 <= i < |entries| ==> entries[i] == entries[1..][i - 1];
      assert (forall i :: 0 <= i < |entries| ==> Supported(entries[i].item)) <==>
        Supported(entries[0].item) && forall i :: 0 <= i < |entries[1..]| ==> Supported(entries[1..][i].item);
    }
  }

  // ----------------------------------------------------------- canonical form

  /** Dates become their text, -0 becomes 0, objects forget their kind, and entries are sorted by key, all the way down. */
  function Canon(v: Json): Json
    decreases v, 1
  {
    match v
    case Number(n) => if n.Zero? then Number(Zero(false)) else v
    case Date(iso) => Str(iso)
    case Array(items) => Array(CanonItems(items))
    case Object(_, entries) => Object(Record, SortKeyed(CanonEntries(entries)))
    case _ => v
  }

  function CanonItems(items: seq<Json>): (r: seq<Json>)
    ensures |r| == |items|
    ensures forall i :: 0 <= i < |items| ==> r[i] == Canon(items[i])
    decreases items, 0
  {
    if items == [] then [] else [Canon(items[0])] + CanonItems(items[1..])
  }

  function CanonEntries(entries: seq<Keyed<Json>>): (r: seq<Keyed<Json>>)
    ensures |r| == |entries|
    ensures forall i :: 0 <= i < |entries| ==> r[i] == Keyed(entries[i].key, Canon(entries[i].item))
    decreases entries, 0
  {
    if entries == [] then [] else [Keyed(entries[0].key, Canon(entries[0].item))] + CanonEntries(entries[1..])
  }

  /** The sort-free printer of canonical values. */
  function Render(c: Json): Text
    decreases c, 1
  {
    match c
    case Null => NULL_TEXT
    case Bool(b) => if b then TRUE_TEXT else FALSE_TEXT
    case Number(n) => NumberText(n)
    case Str(s) => Quoted(s)
    case Array(items) => [LBRACKET] + RenderItems(items, true)
    case Object(_, entries) => [LBRACE] + RenderEntries(entries, true)
    case _ => []
  }

  function RenderItems(items: seq<Json>, first: bool): Text
    decreases items, 0
  {
    if items == [] then [RBRACKET]
    else (if first then [] else [COMMA]) + (Render(items[0]) + RenderItems(items[1..], false))
  }

  function RenderEntries(entries: seq<Keyed<Json>>, first: bool): Text
    decreases entries, 0
  {
    if entries == [] then [RBRACE]
    else
      (if first then [] else [COMMA])
      + (Quoted(entries[0].key) + ([COLON] + (Render(entries[0].item) + RenderEntries(entries[1..], false))))
  }

  lemma JoinUnfolds(ts: seq<Text>)
    requires ts != []
    ensures |ts| == 1 ==> Join(ts) == ts[0] && Join(ts[1..]) == []
    ensures |ts| > 1 ==> Join(ts) == ts[0] + [COMMA] + Join(ts[1..])
  {
  }

  lemma Regroup(a: Text, b: Text, c: Text, d: Text)
    ensures a + b + c + d == a + (b + c + d)
  {
  }

  /** Joined texts, one bracket after them, begin with the first text. */
  lemma JoinHead(ts: seq<Text>, close: CodeUnit)
    requires ts != []
    ensures Join(ts) + [close] == ts[0] + ((if |ts| == 1 then [] else [COMMA]) + Join(ts[1..]) + [close])
  {
    JoinUnfolds(ts);
    hide Join;
    if |ts| > 1 { Regroup(ts[0], [COMMA], Join(ts[1..]), [close]); }
  }

  /** Printed texts beside the canonical items they print. */
  ghost predicate ItemsMatch(ts: seq<Text>, cs: seq<Json>) {
    |ts| == |cs| && forall i :: 0 <= i < |ts| ==> ts[i] == Render(cs[i])
  }

  lemma {:induction false} JoinIsRender(ts: seq<Text>, cs: seq<Json>, first: bool)
    requires ItemsMatch(ts, cs)
    ensures (if first || ts == [] then [] else [COMMA]) + (Join(ts) + [RBRACKET]) == RenderItems(cs, first)
  {
    if |ts| > 0 {
      JoinIsRender(ts[1..], cs[1..], false);
      JoinHead(ts, RBRACKET);
      hide Render, Join;
      ListTail(|ts| == 1, Join(ts[1..]), RBRACKET);
    }
  }

  lemma ListTail(only: bool, joined: Text, close: CodeUnit)
    ensures (if only then [] else [COMMA]) + joined + [close] == (if only then [] else [COMMA]) + (joined + [close])
  {
  }

  lemma {:induction false} JoinIsRenderEntries(ps: seq<Keyed<Text>>, es: seq<Keyed<Json>>, first: bool)
    requires Matches(ps, es)
    ensures (if first || ps == [] then [] else [COMMA]) + (Join(PairTexts(ps)) + [RBRACE]) == RenderEntries(es, first)
  {
    if |ps| > 0 {
      var ts := PairTexts(ps);
      JoinIsRenderEntries(ps[1..], es[1..], false);
      JoinHead(ts, RBRACE);
      assert ts[1..] == PairTexts(ps[1..]);
      hide Render, Join, Quoted, PairTexts;
      ListTail(|ts| == 1, Join(ts[1..]), RBRACE);
      EntryHead(Quoted(es[0].key), Render(es[0].item), RenderEntries(es[1..], false));
    }
  }

  lemma EntryHead(key: Text, item: Text, rest: Text)
    ensures (key + [COLON] + item) + rest == key + ([COLON] + (item + rest))
  {
  }

  /** Printed pairs beside the canonical entries they print. */
  ghost predicate Matches(ps: seq<Keyed<Text>>, es: seq<Keyed<Json>>) {
    |ps| == |es| && forall i :: 0 <= i < |ps| ==> ps[i].key == es[i].key && ps[i].item == Render(es[i].item)
  }

  lemma {:induction false} InsertMatches(p: Keyed<Text>, e: Keyed<Json>, ps: seq<Keyed<Text>>, es: seq<Keyed<Json>>)
    requires Matches(ps, es) && p.key == e.key && p.item == Render(e.item)
    ensures Matches(InsertKeyed(p, ps), InsertKeyed(e, es))
  {
    hide Render, Less;
    if ps != [] && Less(ps[0].key, p.key) { InsertMatches(p, e, ps[1..], es[1..]); }
  }

  lemma {:induction false} SortMatches(ps: seq<Keyed<Text>>, es: seq<Keyed<Json>>)
    requires Matches(ps, es)
    ensures Matches(SortKeyed(ps), SortKeyed(es))
  {
    hide Render;
    if ps != [] {
      SortMatches(ps[1..], es[1..]);
      InsertMatches(ps[0], es[0], SortKeyed(ps[1..]), SortKeyed(es[1..]));
    }
  }

  lemma ArrayText(ts: seq<Text>, cs: seq<Json>)
    requires ItemsMatch(ts, cs)
    ensures [LBRACKET] + Join(ts) + [RBRACKET] == Render(Array(cs))
  {
    JoinIsRender(ts, cs, true);
    assert Render(Array(cs)) == [LBRACKET] + RenderItems(cs, true);
    hide Join, Render, RenderItems, ItemsMatch;
    Regroup([LBRACKET], [], Join(ts), [RBRACKET]);
  }

  lemma ObjectText(ps: seq<Keyed<Text>>, es: seq<Keyed<Json>>)
    requires Matches(ps, es)
    ensures [LBRACE] + Join(PairTexts(ps)) + [RBRACE] == Render(Object(Record, es))
  {
    JoinIsRenderEntries(ps, es, true);
    assert Render(Object(Record, es)) == [LBRACE] + RenderEntries(es, true);
    hide Join, PairTexts, Render, RenderEntries, Matches;
    Regroup([LBRACE], [], Join(PairTexts(ps)), [RBRACE]);
  }

  /** The source's text is the sort-free text of the canonical form. */
  lemma {:induction false} PrintIsRender(v: Json, depth: nat)
    requires Print(v, depth).Some?
    ensures Print(v, depth).value == Render(Canon(v))
    decreases v, 1
  {
    hide Join, Quoted, SortKeyed, PairTexts, PrintItems, PrintEntries, RenderItems, RenderEntries, Matches, ItemsMatch;
    match v {
      case Array(items) =>
        ItemsPrintRender(items, depth + 1);
        ArrayText(PrintItems(items, depth + 1).value, CanonItems(items));
      case Object(_, entries) =>
        EntriesPrintRender(entries, depth + 1);
        SortMatches(PrintEntries(entries, depth + 1).value, CanonEntries(entries));
        ObjectText(SortKeyed(PrintEntries(entries, depth + 1).value), SortKeyed(CanonEntries(entries)));
      case _ =>
    }
  }

  lemma {:induction false} ItemsPrintRender(items: seq<Json>, depth: nat)
    requires PrintItems(items, depth).Some?
    ensures ItemsMatch(PrintItems(items, depth).value, CanonItems(items))
    decreases items, 0
  {
    if items != [] {
      PrintIsRender(items[0], depth);
      ItemsPrintRender(items[1..], depth);
      hide Print, Render, Canon;
    }
  }

  lemma {:induction false} EntriesPrintRender(entries: seq<Keyed<Json>>, depth: nat)
    requires PrintEntries(entries, depth).Some?
    ensures Matches(PrintEntries(entries, depth).value, CanonEntries(entries))
    decreases entries, 0
  {
    if entries != [] {
      PrintIsRender(entries[0].item, depth);
      EntriesPrintRender(entries[1..], depth);
      hide Print, Render, Canon;
    }
  }

  // -------------------------------------------------------- unique readability

  /** Canonical values: no dates, no unsupported kinds, one zero. */
  predicate Plain(c: Json)
    decreases c
  {
    match c
    case Number(n) => n != Zero(true)
    case Array(items) => forall i :: 0 <= i < |items| ==> Plain(items[i])
    case Object(kind, entries) => kind.Record? && forall i :: 0 <= i < |entries| ==> Plain(entries[i].item)
    case _ => c.Null? || c.Bool? || c.Str?
  }

  /** Text that may follow a value. */
  predicate Delimited(x: Text) { x == [] || x[0] == COMMA || x[0] == RBRACKET || x[0] == RBRACE }

  lemma UnitAt(a: Text, x: Text, k: int)
    ensures 0 <= k < |a| ==> (a + x)[k] == a[k]
    ensures k == |a| && x != [] ==> (a + x)[k] == x[0]
  {
  }

  lemma NumberEnds(a: Text, b: Text, x: Text, y: Text)
    requires AllNumber(a) && AllNumber(b) && Delimited(x) && Delimited(y) && a + x == b + y
    ensures a == b && x == y
  {
    assert |a| + |x| == |a + x| == |b| + |y|;
    UnitAt(a, x, |a|);
    UnitAt(b, y, |a|);
    UnitAt(a, x, |b|);
    UnitAt(b, y, |b|);
    assert |a| == |b|;
    assert (a + x)[..|a|] == a && (b + y)[..|b|] == b;
    assert (a + x)[|a|..] == x && (b + y)[|b|..] == y;
  }

  lemma NumberReads(m: Finite, n: Finite, x: Text, y: Text)
    requires m != Zero(true) && n != Zero(true) && Delimited(x) && Delimited(y)
    requires NumberText(m) + x == NumberText(n) + y
    ensures m == n && x == y
  {
    hide NumberText, AllNumber, Shortest;
    NumberTextShape(m);
    NumberTextShape(n);
    NumberEnds(NumberText(m), NumberText(n), x, y);
    NumberTextInjective(m, n);
  }

  /** The first unit of a rendered value tells its kind. */
  lemma RenderHead(c: Json)
    requires Plain(c)
    ensures Render(c) != []
    ensures var u := Render(c)[0];
      (c.Null? <==> u == 110) && (c == Bool(true) <==> u == 116) && (c == Bool(false) <==> u == 102) &&
      (c.Str? <==> u == QUOTE) && (c.Array? <==> u == LBRACKET) && (c.Object? <==> u == LBRACE) &&
      (c.Number? <==> (48 <= u < 58 || u == MINUS))
  {
    if c.Number? { NumberTextShape(c.n); }
    hide NumberText;
  }

  lemma TailsMatch(h: CodeUnit, a: Text, b: Text, x: Text, y: Text)
    requires ([h] + a) + x == ([h] + b) + y
    ensures a + x == b + y
  {
    assert (([h] + a) + x)[1..] == a + x && (([h] + b) + y)[1..] == b + y;
  }

  lemma WordEnds(w: Text, x: Text, y: Text)
    ensures w + x == w + y ==> x == y
  {
    assert (w + x)[|w|..] == x && (w + y)[|w|..] == y;
  }

  /** A rendered value can be read off the front of any text that delimits it. */
  lemma {:induction false} RenderReads(a: Json, b: Json, x: Text, y: Text)
    requires Plain(a) && Plain(b) && Delimited(x) && Delimited(y) && Render(a) + x == Render(b) + y
    ensures a == b && x == y
    decreases a, 1
  {
    RenderHead(a);
    RenderHead(b);
    assert (Render(a) + x)[0] == (Render(b) + y)[0];
    hide NumberText, Quoted;
    match a {
      case Number(m) => NumberReads(m, b.n, x, y);
      case Str(s) => QuotedReads(s, b.s, x, y);
      case Array(items) =>
        TailsMatch(LBRACKET, RenderItems(items, true), RenderItems(b.items, true), x, y);
        ItemsRead(items, b.items, true, x, y);
      case Object(_, entries) =>
        TailsMatch(LBRACE, RenderEntries(entries, true), RenderEntries(b.entries, true), x, y);
        EntriesRead(entries, b.entries, true, x, y);
      case Null => WordEnds(NULL_TEXT, x, y);
      case Bool(t) => WordEnds(if t then TRUE_TEXT else FALSE_TEXT, x, y);
      case _ =>
    }
  }

  lemma ItemsTail(items: seq<Json>, first: bool, x: Text)
    requires items != [] && Plain(items[0])
    ensures var rest := RenderItems(items[1..], false) + x;
      Delimited(rest) &&
      (if first then RenderItems(items, first) + x == Render(items[0]) + rest
       else RenderItems(items, first) + x == [COMMA] + (Render(items[0]) + rest)) &&
      (RenderItems(items, first) + x)[0] != RBRACKET
  {
    RenderHead(items[0]);
    hide Render, Plain;
    var rest := RenderItems(items[1..], false);
    assert [] + (Render(items[0]) + rest) == Render(items[0]) + rest;
    assert (Render(items[0]) + rest) + x == Render(items[0]) + (rest + x);
    assert ([COMMA] + (Render(items[0]) + rest)) + x == [COMMA] + ((Render(items[0]) + rest) + x);
  }

  lemma DropComma(a: Text, b: Text)
    requires [COMMA] + a == [COMMA] + b
    ensures a == b
  {
    assert ([COMMA] + a)[1..] == a && ([COMMA] + b)[1..] == b;
  }

  lemma CloseReads(c: CodeUnit, x: Text, y: Text)
    requires [c] + x == [c] + y
    ensures x == y
  {
    assert ([c] + x)[1..] == x && ([c] + y)[1..] == y;
  }

  lemma {:induction false} ItemsRead(a: seq<Json>, b: seq<Json>, first: bool, x: Text, y: Text)
    requires forall i :: 0 <= i < |a| ==> Plain(a[i])
    requires forall i :: 0 <= i < |b| ==> Plain(b[i])
    requires RenderItems(a, first) + x == RenderItems(b, first) + y
    ensures a == b && x == y
    decreases a, 0
  {
    if a != [] { ItemsTail(a, first, x); }
    if b != [] { ItemsTail(b, first, y); }
    if a == [] || b == [] {
      assert (RenderItems(a, first) + x)[0] == (RenderItems(b, first) + y)[0];
      CloseReads(RBRACKET, x, y);
    } else {
      hide Plain, Render, RenderItems;
      var ra, rb := RenderItems(a[1..], false) + x, RenderItems(b[1..], false) + y;
      if !first { DropComma(Render(a[0]) + ra, Render(b[0]) + rb); }
      RenderReads(a[0], b[0], ra, rb);
      ItemsRead(a[1..], b[1..], false, x, y);
      assert a == [a[0]] + a[1..] && b == [b[0]] + b[1..];
    }
  }

  lemma EntriesTail(es: seq<Keyed<Json>>, first: bool, x: Text)
    requires es != []
    ensures var rest := RenderEntries(es[1..], false) + x;
      var body := Quoted(es[0].key) + ([COLON] + (Render(es[0].item) + rest));
      Delimited(rest) &&
      RenderEntries(es, first) + x == (if first then body else [COMMA] + body) &&
      (RenderEntries(es, first) + x)[0] != RBRACE
  {
    hide Render;
    var rest := RenderEntries(es[1..], false);
    var value, key := Render(es[0].item), Quoted(es[0].key);
    assert key[0] == QUOTE;
    hide Quoted;
    assert (value + rest) + x == value + (rest + x);
    assert ([COLON] + (value + rest)) + x == [COLON] + ((value + rest) + x);
    assert (key + ([COLON] + (value + rest))) + x == key + (([COLON] + (value + rest)) + x);
    assert [] + (key + ([COLON] + (value + rest))) == key + ([COLON] + (value + rest));
    assert ([COMMA] + (key + ([COLON] + (value + rest)))) + x == [COMMA] + ((key + ([COLON] + (value + rest))) + x);
  }

  lemma {:induction false} EntriesRead(a: seq<Keyed<Json>>, b: seq<Keyed<Json>>, first: bool, x: Text, y: Text)
    requires forall i :: 0 <= i < |a| ==> Plain(a[i].item)
    requires forall i :: 0 <= i < |b| ==> Plain(b[i].item)
    requires RenderEntries(a, first) + x == RenderEntries(b, first) + y
    ensures a == b && x == y
    decreases a, 0
  {
    if a != [] { EntriesTail(a, first, x); }
    if b != [] { EntriesTail(b, first, y); }
    if a == [] || b == [] {
      assert (RenderEntries(a, first) + x)[0] == (RenderEntries(b, first) + y)[0];
      CloseReads(RBRACE, x, y);
    } else {
      hide Plain, Render, RenderEntries, Quoted;
      var ra, rb := RenderEntries(a[1..], false) + x, RenderEntries(b[1..], false) + y;
      var va, vb := [COLON] + (Render(a[0].item) + ra), [COLON] + (Render(b[0].item) + rb);
      if !first { DropComma(Quoted(a[0].key) + va, Quoted(b[0].key) + vb); }
      QuotedReads(a[0].key, b[0].key, va, vb);
      CloseReads(COLON, Render(a[0].item) + ra, Render(b[0].item) + rb);
      RenderReads(a[0].item, b[0].item, ra, rb);
      EntriesRead(a[1..], b[1..], false, x, y);
      assert a == [a[0]] + a[1..] && b == [b[0]] + b[1..];
    }
  }

  // ---------------------------------------------------------------- same data

  /** JavaScript objects never repeat a key. */
  ghost predicate WellFormed(v: Json)
    decreases v
  {
    match v
    case Array(items) => forall i :: 0 <= i < |items| ==> WellFormed(items[i])
    case Object(_, entries) => DistinctKeys(entries) && forall i :: 0 <= i < |entries| ==> WellFormed(entries[i].item)
    case _ => true
  }

  /** Equality of data: entry order, the sign of zero, Date-versus-its-text and the kind of an object do not count. */
  ghost predicate Same(v: Json, w: Json)
    decreases v
  {
    match v
    case Number(m) => w.Number? && SameNumber(m, w.n)
    case Str(s) => (w.Str? && w.s == s) || (w.Date? && w.iso == s)
    case Date(s) => (w.Str? && w.s == s) || (w.Date? && w.iso == s)
    case Array(items) => w.Array? && |w.items| == |items| && forall i :: 0 <= i < |items| ==> Same(items[i], w.items[i])
    case Object(_, entries) =>
      w.Object? && |w.entries| == |entries| && forall i :: 0 <= i < |entries| ==> HasSame(entries[i], w.entries)
    case _ => v == w
  }

  /** One of `es` has the entry's key and the same data. */
  ghost predicate HasSame(e: Keyed<Json>, es: seq<Keyed<Json>>)
    decreases e
  {
    exists j :: 0 <= j < |es| && es[j].key == e.key && Same(e.item, es[j].item)
  }

  lemma {:induction false} InsertKeyedPermutes<T>(x: Keyed<T>, s: seq<Keyed<T>>)
    ensures multiset(InsertKeyed(x, s)) == multiset(s) + multiset{x}
  {
    hide Less;
    if s != [] && Less(s[0].key, x.key) {
      InsertKeyedPermutes(x, s[1..]);
      assert s == [s[0]] + s[1..];
    }
  }

  lemma {:induction false} SortKeyedPermutes<T>(s: seq<Keyed<T>>)
    ensures multiset(SortKeyed(s)) == multiset(s)
  {
    hide InsertKeyed;
    if s != [] {
      SortKeyedPermutes(s[1..]);
      InsertKeyedPermutes(s[0], SortKeyed(s[1..]));
      assert s == [s[0]] + s[1..];
    }
  }

  lemma {:induction false} InsertKeyedAscends<T>(x: Keyed<T>, s: seq<Keyed<T>>)
    requires AscendingKeys(s) && forall i :: 0 <= i < |s| ==> s[i].key != x.key
    ensures AscendingKeys(InsertKeyed(x, s))
    ensures s != [] ==> InsertKeyed(x, s)[0] == s[0] || InsertKeyed(x, s)[0] == x
  {
    hide Less;
    if s != [] {
      LessTotal(s[0].key, x.key);
      if Less(s[0].key, x.key) {
        InsertKeyedAscends(x, s[1..]);
        PrependAscends(s[0], InsertKeyed(x, s[1..]));
      } else {
        PrependAscends(x, s);
      }
    }
  }

  lemma PrependAscends<T>(x: Keyed<T>, s: seq<Keyed<T>>)
    requires AscendingKeys(s) && (s != [] ==> Less(x.key, s[0].key))
    ensures AscendingKeys([x] + s)
  {
    hide Less;
    forall j | 0 <= j < |s| ensures Less(x.key, s[j].key) {
      if j > 0 { LessTransitive(x.key, s[0].key, s[j].key); }
    }
  }

  lemma {:induction false} SortKeyedAscends<T>(s: seq<Keyed<T>>)
    requires DistinctKeys(s)
    ensures AscendingKeys(SortKeyed(s))
  {
    hide AscendingKeys, InsertKeyed;
    if s == [] {
      NothingAscends<T>();
    } else {
      var t := SortKeyed(s[1..]);
      SortKeyedAscends(s[1..]);
      SortKeyedPermutes(s[1..]);
      forall i | 0 <= i < |t| ensures t[i].key != s[0].key {
        assert t[i] in multiset(t);
        assert t[i] in s[1..];
      }
      InsertKeyedAscends(s[0], t);
    }
  }

  lemma NothingAscends<T>()
    ensures AscendingKeys<T>([])
  {
  }

  /** A smaller key stands further left. */
  lemma KeyBefore<T>(b: seq<Keyed<T>>, k: nat, j: nat)
    requires AscendingKeys(b) && k < |b| && j < |b| && Less(b[k].key, b[j].key)
    ensures k < j
  {
    LessTotal(b[k].key, b[j].key);
  }

  /** An ascending list within another is no longer than it, and equal to it at the same length. */
  lemma {:induction false} AscendingWithin<T>(a: seq<Keyed<T>>, b: seq<Keyed<T>>)
    requires AscendingKeys(a) && AscendingKeys(b) && forall i :: 0 <= i < |a| ==> a[i] in b
    ensures |a| <= |b| && (|a| == |b| ==> a == b)
  {
    hide Less;
    if a != [] {
      var n := |a| - 1;
      var j :| 0 <= j < |b| && b[j] == a[n];
      forall i | 0 <= i < n ensures a[i] in b[..j] {
        var k :| 0 <= k < |b| && b[k] == a[i];
        KeyBefore(b, k, j);
        assert b[..j][k] == a[i];
      }
      AscendingWithin(a[..n], b[..j]);
      assert a == a[..n] + [a[n]];
      if |a| == |b| { assert b == b[..j] + [b[j]]; }
    }
  }

  /** Sorting forgets exactly the insertion order. */
  lemma SortedEqual<T>(a: seq<Keyed<T>>, b: seq<Keyed<T>>)
    requires DistinctKeys(a) && DistinctKeys(b)
    ensures SortKeyed(a) == SortKeyed(b) <==> |a| == |b| && forall i :: 0 <= i < |a| ==> a[i] in b
  {
    var sa, sb := SortKeyed(a), SortKeyed(b);
    SortKeyedPermutes(a);
    SortKeyedPermutes(b);
    assert |sa| == |multiset(sa)| == |a| && |sb| == |multiset(sb)| == |b|;
    SortKeyedAscends(a);
    SortKeyedAscends(b);
    hide SortKeyed, AscendingKeys, DistinctKeys;
    if sa == sb {
      forall i | 0 <= i < |a| ensures a[i] in b { assert a[i] in multiset(b); }
    }
    if |a| == |b| && forall i :: 0 <= i < |a| ==> a[i] in b {
      forall i | 0 <= i < |sa| ensures sa[i] in sb {
        assert sa[i] in multiset(a);
        assert sa[i] in multiset(sb);
      }
      AscendingWithin(sa, sb);
    }
  }

  lemma CanonKeysDistinct(entries: seq<Keyed<Json>>)
    requires DistinctKeys(entries)
    ensures DistinctKeys(CanonEntries(entries))
  {
    hide Canon;
  }

  lemma LeavesCanonIffSame(v: Json, w: Json)
    requires !(v.Array? && w.Array?) && !(v.Object? && w.Object?)
    ensures Canon(v) == Canon(w) <==> Same(v, w)
  {
    hide CanonItems, CanonEntries, SortKeyed;
  }

  lemma ArraysCanonIffSame(a: seq<Json>, b: seq<Json>)
    requires forall i :: 0 <= i < |a| && i < |b| ==> (Canon(a[i]) == Canon(b[i]) <==> Same(a[i], b[i]))
    ensures CanonItems(a) == CanonItems(b) <==> |a| == |b| && forall i :: 0 <= i < |a| ==> Same(a[i], b[i])
  {
    hide Canon, Same;
    var ca, cb := CanonItems(a), CanonItems(b);
    if |a| == |b| { assert ca == cb <==> forall i :: 0 <= i < |ca| ==> ca[i] == cb[i]; }
  }

  /** Two values share a canonical form exactly when they are the same data. */
  lemma {:induction false} CanonIffSame(v: Json, w: Json)
    requires WellFormed(v) && WellFormed(w)
    ensures Canon(v) == Canon(w) <==> Same(v, w)
    decreases v
  {
    hide SortKeyed, CanonItems, CanonEntries, HasSame;
    if v.Array? && w.Array? {
      forall i | 0 <= i < |v.items| && i < |w.items|
        ensures Canon(v.items[i]) == Canon(w.items[i]) <==> Same(v.items[i], w.items[i])
      {
        CanonIffSame(v.items[i], w.items[i]);
      }
      ArraysCanonIffSame(v.items, w.items);
    } else if v.Object? && w.Object? {
      forall i, j | 0 <= i < |v.entries| && 0 <= j < |w.entries|
        ensures Canon(v.entries[i].item) == Canon(w.entries[j].item) <==> Same(v.entries[i].item, w.entries[j].item)
      {
        CanonIffSame(v.entries[i].item, w.entries[j].item);
      }
      ObjectsCanonIffSame(v.entries, w.entries);
    } else {
      LeavesCanonIffSame(v, w);
    }
  }

  lemma ObjectsCanonIffSame(a: seq<Keyed<Json>>, b: seq<Keyed<Json>>)
    requires DistinctKeys(a) && DistinctKeys(b)
    requires forall i, j :: 0 <= i < |a| && 0 <= j < |b| ==> (Canon(a[i].item) == Canon(b[j].item) <==> Same(a[i].item, b[j].item))
    ensures SortKeyed(CanonEntries(a)) == SortKeyed(CanonEntries(b)) <==>
      |a| == |b| && forall i :: 0 <= i < |a| ==> HasSame(a[i], b)
  {
    hide Canon, Same, SortKeyed, DistinctKeys;
    var ca, cb := CanonEntries(a), CanonEntries(b);
    CanonKeysDistinct(a);
    CanonKeysDistinct(b);
    SortedEqual(ca, cb);
    forall i | 0 <= i < |a|
      ensures ca[i] in cb <==> HasSame(a[i], b)
    {
      if ca[i] in cb {
        var j :| 0 <= j < |cb| && cb[j] == ca[i];
        assert b[j].key == a[i].key && Same(a[i].item, b[j].item);
      }
      if j :| 0 <= j < |b| && b[j].key == a[i].key && Same(a[i].item, b[j].item) {
        assert cb[j] == ca[i];
      }
    }
  }

  lemma {:induction false} CanonIsPlain(v: Json)
    requires Supported(v)
    ensures Plain(Canon(v))
    decreases v
  {
    hide SortKeyed;
    match v {
      case Array(items) =>
        forall i | 0 <= i < |items| ensures Plain(Canon(items[i])) { CanonIsPlain(items[i]); }
      case Object(_, entries) =>
        forall i | 0 <= i < |entries| ensures Plain(Canon(entries[i].item)) { CanonIsPlain(entries[i].item); }
        var ce := CanonEntries(entries);
        SortKeyedPermutes(ce);
        var sorted := SortKeyed(ce);
        forall i | 0 <= i < |sorted| ensures Plain(sorted[i].item) {
          assert sorted[i] in multiset(ce);
          var k :| 0 <= k < |ce| && ce[k] == sorted[i];
        }
      case _ =>
    }
  }

  /**
   The canonical text is a faithful identity: two values that print have the same
   text exactly when they are the same data.
   */
  lemma SameTextIffSameData(v: Json, w: Json)
    requires WellFormed(v) && WellFormed(w) && Print(v, 0).Some? && Print(w, 0).Some?
    ensures Print(v, 0).value == Print(w, 0).value <==> Same(v, w)
  {
    PrintIsRender(v, 0);
    PrintIsRender(w, 0);
    PrintsExactly(v, 0);
    PrintsExactly(w, 0);
    CanonIsPlain(v);
    CanonIsPlain(w);
    CanonIffSame(v, w);
    hide Print, Render, Canon, Plain, Same;
    var a, b := Canon(v), Canon(w);
    if Render(a) == Render(b) {
      assert Render(a) + [] == Render(b) + [];
      RenderReads(a, b, [], []);
    }
  }

  lemma {:induction false} EntriesHeightBound(entries: seq<Keyed<Json>>, bound: nat)
    ensures EntriesHeight(entries) <= bound <==> forall i :: 0 <= i < |entries| ==> 1 + Height(entries[i].item) <= bound
  {
    hide Height;
    if entries != [] {
      EntriesHeightBound(entries[1..], bound);
      assert forall i :: 1 <= i < |entries| ==> entries[i] == entries[1..][i - 1];
      assert forall i :: 0 <= i < |entries[1..]| ==> entries[1..][i] == entries[i + 1];
    }
  }

  lemma PermutedPrints(k: Kind, l: Kind, a: seq<Keyed<Json>>, b: seq<Keyed<Json>>, depth: nat)
    requires multiset(a) == multiset(b) && Print(Object(k, a), depth).Some?
    ensures Print(Object(l, b), depth).Some?
  {
    PrintsExactly(Object(k, a), depth);
    PrintsExactly(Object(l, b), depth);
    hide Print;
    EntriesHeightBound(a, MAX_SAFE_DEPTH - depth);
    EntriesHeightBound(b, MAX_SAFE_DEPTH - depth);
    forall i | 0 <= i < |b| ensures Supported(b[i].item) && 1 + Height(b[i].item) <= MAX_SAFE_DEPTH - depth {
      assert b[i] in multiset(a);
      var j :| 0 <= j < |a| && a[j] == b[i];
    }
  }

  /**
   Neither the order of its entries nor what kind of object holds them shows:
   permuted objects print the same text, or both throw.
   */
  lemma InsertionOrderInvisible(k: Kind, l: Kind, a: seq<Keyed<Json>>, b: seq<Keyed<Json>>, depth: nat)
    requires DistinctKeys(a) && multiset(a) == multiset(b)
    ensures Print(Object(k, a), depth) == Print(Object(l, b), depth)
  {
    if Print(Object(k, a), depth).Some? {
      PermutedPrints(k, l, a, b, depth);
      PrintIsRender(Object(k, a), depth);
      PrintIsRender(Object(l, b), depth);
      hide Print, Render;
      PermutedCanon(k, l, a, b);
    } else if Print(Object(l, b), depth).Some? {
      PermutedPrints(l, k, b, a, depth);
    }
  }

  lemma PermutedCanon(k: Kind, l: Kind, a: seq<Keyed<Json>>, b: seq<Keyed<Json>>)
    requires DistinctKeys(a) && multiset(a) == multiset(b)
    ensures Canon(Object(k, a)) == Canon(Object(l, b))
  {
    var ca, cb := CanonEntries(a), CanonEntries(b);
    assert Canon(Object(k, a)) == Object(Record, SortKeyed(ca)) && Canon(Object(l, b)) == Object(Record, SortKeyed(cb));
    hide Canon, SortKeyed, DistinctKeys;
    PermutedDistinct(a, b);
    assert |a| == |multiset(a)| == |b|;
    CanonKeysDistinct(a);
    CanonKeysDistinct(b);
    forall i | 0 <= i < |a| ensures ca[i] in cb {
      assert a[i] in multiset(b);
      var j :| 0 <= j < |b| && b[j] == a[i];
      assert cb[j] == ca[i];
    }
    SortedEqual(ca, cb);
  }

  lemma PermutedDistinct(a: seq<Keyed<Json>>, b: seq<Keyed<Json>>)
    requires DistinctKeys(a) && multiset(a) == multiset(b)
    ensures DistinctKeys(b)
  {
    forall i, j | 0 <= i < j < |b| ensures b[i].key != b[j].key {
      assert b[i] in multiset(a) && b[j] in multiset(a);
      var p :| 0 <= p < |a| && a[p] == b[i];
      var q :| 0 <= q < |a| && a[q] == b[j];
      if p == q {
        TwoOccurrences(b, i, j);
        OneOccurrence(a, p);
      }
    }
  }

  lemma OneOccurrence(a: seq<Keyed<Json>>, p: nat)
    requires DistinctKeys(a) && p < |a|
    ensures multiset(a)[a[p]] == 1
  {
    assert a == a[..p] + [a[p]] + a[p + 1..];
    assert a[p] !in a[..p] && a[p] !in a[p + 1..];
  }
}
