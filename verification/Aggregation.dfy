/**
 Per-provider aggregation (packages/pricing-engine/src/aggregate.ts): many rows
 in, one price out or a holdout with its reason.

 The order-book path screens rows, keeps the cheapest row of each machine, tests
 the depth floors and takes the gpu-count-weighted median; the rate-card path
 screens rows by tier and takes the plain median.
 */
module Aggregation {
  import opened Wrappers
  import opened RealArithmetic
  import opened OrderStatistics
  import opened WeightedStatistics
  import opened Rounding
  import opened Screens

  datatype Observation = Observation(
    offerId: Option<string>, machineId: Option<string>, hostId: Option<string>,
    usdPerGpuHour: real, rawTotalUsdPerHour: Option<real>, pricingTier: Option<string>,
    gpuCount: Option<int>, isBid: bool, available: Option<bool>)

  datatype AggregationConfig = AggregationConfig(
    minMachinesForBook: nat, minHostsForBook: nat, arithmeticTolerancePerGpu: real,
    gpuCountMin: int, gpuCountMax: int, eligibleTiers: set<string>)

  /** The provider, the GPU's plausible price band and the aggregation settings. */
  datatype Terms = Terms(providerId: string, bandLo: real, bandHi: real, config: AggregationConfig)

  datatype Flags = Flags(dedupDropped: nat, bids: nat, mismatches: nat, badCounts: nat, outOfBand: nat)

  datatype PriceResult = PriceResult(
    price: Option<real>, how: string, sampleSize: nat, holdout: Option<string>,
    exclusions: seq<Exclusion>, flags: Flags)

  /** The configuration ranges the methodology validator enforces. */
  predicate ValidAggregation(cfg: AggregationConfig) {
    cfg.minMachinesForBook >= 1 && cfg.minHostsForBook >= 1 && 1 <= cfg.gpuCountMin <= cfg.gpuCountMax
  }

  /** Rows with machine or host identity make an order book. */
  predicate IsBook(obs: seq<Observation>) {
    exists i :: 0 <= i < |obs| && (obs[i].machineId.Some? || obs[i].hostId.Some?)
  }

  // ----------------------------------------------------------- row screening

  /** Why a row must not be priced; absent when it may be. */
  function RowReason(o: Observation, book: bool, terms: Terms): Option<string> {
    var cfg := terms.config;
    if o.available == Some(false) then Some("unavailable")
    else if book && o.isBid then Some("bid_offer")
    else if book && (o.gpuCount.None? || o.gpuCount.value < cfg.gpuCountMin || o.gpuCount.value > cfg.gpuCountMax) then
      Some("gpu_count_out_of_range")
    else if o.usdPerGpuHour < terms.bandLo || o.usdPerGpuHour > terms.bandHi then Some("out_of_band")
    else if book && o.rawTotalUsdPerHour.Some? && o.gpuCount.Some? && o.gpuCount.value > 0
      && Abs(Times(Round4(o.usdPerGpuHour), o.gpuCount.value as real) - o.rawTotalUsdPerHour.value)
         > Times(cfg.arithmeticTolerancePerGpu, o.gpuCount.value as real) then Some("arithmetic_mismatch")
    else if !book && (o.pricingTier.None? || o.pricingTier.value !in cfg.eligibleTiers) then Some("tier_not_eligible")
    else None
  }

  /** The listed total is the rounded price times the gpu count, within the tolerance per gpu. */
  predicate TotalAgrees(o: Observation, terms: Terms) {
    o.rawTotalUsdPerHour.Some? && o.gpuCount.Some? && o.gpuCount.value > 0 ==>
      var n := o.gpuCount.value as real;
      var off := Times(terms.config.arithmeticTolerancePerGpu, n);
      o.rawTotalUsdPerHour.value - off <= Times(Round4(o.usdPerGpuHour), n) <= o.rawTotalUsdPerHour.value + off
  }

  /** A row fit to be priced, by its own fields: available, plausible, and on an order book an offer of a known count whose total adds up. */
  predicate Priceable(o: Observation, book: bool, terms: Terms) {
    var cfg := terms.config;
    o.available != Some(false) && terms.bandLo <= o.usdPerGpuHour <= terms.bandHi &&
    if book then
      !o.isBid && o.gpuCount.Some? && cfg.gpuCountMin <= o.gpuCount.value <= cfg.gpuCountMax && TotalAgrees(o, terms)
    else o.pricingTier.Some? && o.pricingTier.value in cfg.eligibleTiers
  }

  /** What a receipt's reason accuses the row of. */
  predicate Accused(o: Observation, book: bool, terms: Terms, reason: string) {
    var cfg := terms.config;
    match reason
    case "unavailable" => o.available == Some(false)
    case "bid_offer" => book && o.isBid
    case "gpu_count_out_of_range" => book && (o.gpuCount.None? || !(cfg.gpuCountMin <= o.gpuCount.value <= cfg.gpuCountMax))
    case "out_of_band" => !(terms.bandLo <= o.usdPerGpuHour <= terms.bandHi)
    case "arithmetic_mismatch" => book && !TotalAgrees(o, terms)
    case "tier_not_eligible" => !book && (o.pricingTier.None? || o.pricingTier.value !in cfg.eligibleTiers)
    case _ => false
  }

  /** A row is priced exactly when it is fit to be, and a refusal names something that is true of it. */
  lemma RowReasonExactly(o: Observation, book: bool, terms: Terms)
    ensures RowReason(o, book, terms).None? <==> Priceable(o, book, terms)
    ensures RowReason(o, book, terms).Some? ==> Accused(o, book, terms, RowReason(o, book, terms).value)
  {
    hide Times, Round4;
  }

  function RowExclusion(o: Observation, reason: string, terms: Terms): Exclusion {
    Exclusion(terms.providerId, reason, Some(o.usdPerGpuHour))
  }

  datatype Entry = Entry(obs: Observation, index: nat)

  function Screened(obs: seq<Observation>, book: bool, terms: Terms): seq<Entry> {
    if obs == [] then []
    else
      var i := |obs| - 1;
      Screened(obs[..i], book, terms) + (if RowReason(obs[i], book, terms).None? then [Entry(obs[i], i)] else [])
  }

  function RowExclusions(obs: seq<Observation>, book: bool, terms: Terms): seq<Exclusion> {
    if obs == [] then []
    else
      var i := |obs| - 1;
      var reason := RowReason(obs[i], book, terms);
      RowExclusions(obs[..i], book, terms) + (if reason.Some? then [RowExclusion(obs[i], reason.value, terms)] else [])
  }

  function CountReason(es: seq<Exclusion>, reason: string): nat {
    if es == [] then 0 else CountReason(es[..|es| - 1], reason) + (if es[|es| - 1].reason == reason then 1 else 0)
  }

  /** The receipt flags a set of exclusions implies. */
  function FlagsFor(es: seq<Exclusion>, dropped: nat): Flags {
    Flags(dropped, CountReason(es, "bid_offer"), CountReason(es, "arithmetic_mismatch"),
      CountReason(es, "gpu_count_out_of_range"), CountReason(es, "out_of_band"))
  }

  function Bump(flags: Flags, reason: string): Flags {
    if reason == "bid_offer" then flags.(bids := flags.bids + 1)
    else if reason == "arithmetic_mismatch" then flags.(mismatches := flags.mismatches + 1)
    else if reason == "gpu_count_out_of_range" then flags.(badCounts := flags.badCounts + 1)
    else if reason == "out_of_band" then flags.(outOfBand := flags.outOfBand + 1)
    else flags
  }

  lemma CountReasonAppend(es: seq<Exclusion>, e: Exclusion, reason: string)
    ensures CountReason(es + [e], reason) == CountReason(es, reason) + (if e.reason == reason then 1 else 0)
  {
    assert (es + [e])[..|es|] == es;
  }

  lemma FlagsAppend(es: seq<Exclusion>, e: Exclusion, dropped: nat)
    ensures FlagsFor(es + [e], dropped) == Bump(FlagsFor(es, dropped), e.reason)
  {
    hide CountReason;
    CountReasonAppend(es, e, "bid_offer");
    CountReasonAppend(es, e, "arithmetic_mismatch");
    CountReasonAppend(es, e, "gpu_count_out_of_range");
    CountReasonAppend(es, e, "out_of_band");
  }

  method ScreenRows(obs: seq<Observation>, book: bool, terms: Terms)
    returns (screened: seq<Entry>, exclusions: seq<Exclusion>, flags: Flags)
    ensures screened == Screened(obs, book, terms)
    ensures exclusions == RowExclusions(obs, book, terms)
    ensures flags == FlagsFor(exclusions, 0)
  {
    hide RowReason, FlagsFor, Bump;
    screened, exclusions := [], [];
    flags := FlagsFor(exclusions, 0);
    for i := 0 to |obs|
      invariant screened == Screened(obs[..i], book, terms)
      invariant exclusions == RowExclusions(obs[..i], book, terms)
      invariant flags == FlagsFor(exclusions, 0)
    {
      assert obs[..i + 1][..i] == obs[..i];
      var reason := RowReason(obs[i], book, terms);
      if reason.Some? {
        var e := RowExclusion(obs[i], reason.value, terms);
        FlagsAppend(exclusions, e, 0);
        flags := Bump(flags, reason.value);
        exclusions := exclusions + [e];
      } else {
        screened := screened + [Entry(obs[i], i)];
      }
    }
    assert obs[..|obs|] == obs;
  }

  // ------------------------------------------------------------------- dedup

  function Digits(n: nat): string {
    var d := ["0", "1", "2", "3", "4", "5", "6", "7", "8", "9"][n % 10];
    if n < 10 then d else Digits(n / 10) + d
  }

  /** Machine, else host, else offer, else the row itself. */
  function Key(e: Entry): string {
    if e.obs.machineId.Some? then e.obs.machineId.value
    else if e.obs.hostId.Some? then e.obs.hostId.value
    else if e.obs.offerId.Some? then e.obs.offerId.value
    else "row:" + Digits(e.index)
  }

  /** The dedup map in insertion order, and how many rows it dropped. */
  datatype Booking = Booking(order: seq<string>, byKey: map<string, Entry>, dropped: nat)

  function BookRow(b: Booking, e: Entry): Booking {
    if Key(e) !in b.byKey then Booking(b.order + [Key(e)], b.byKey[Key(e) := e], b.dropped)
    else if e.obs.usdPerGpuHour < b.byKey[Key(e)].obs.usdPerGpuHour then
      Booking(b.order, b.byKey[Key(e) := e], b.dropped + 1)
    else Booking(b.order, b.byKey, b.dropped + 1)
  }

  function BookAll(entries: seq<Entry>): Booking {
    if entries == [] then Booking([], map[], 0) else BookRow(BookAll(entries[..|entries| - 1]), entries[|entries| - 1])
  }

  ghost predicate ValidBooking(b: Booking) {
    (forall k :: k in b.order <==> k in b.byKey) &&
    (forall i, j :: 0 <= i < j < |b.order| ==> b.order[i] != b.order[j])
  }

  /** Each key holds the cheapest of its rows, and only its own rows. */
  ghost predicate HoldsCheapest(b: Booking, entries: seq<Entry>) {
    (forall e :: e in entries ==> Key(e) in b.byKey && b.byKey[Key(e)].obs.usdPerGpuHour <= e.obs.usdPerGpuHour) &&
    (forall k :: k in b.byKey ==> b.byKey[k] in entries && Key(b.byKey[k]) == k)
  }

  lemma BookStep(b: Booking, entries: seq<Entry>, e: Entry)
    requires ValidBooking(b) && HoldsCheapest(b, entries)
    ensures ValidBooking(BookRow(b, e))
    ensures HoldsCheapest(BookRow(b, e), entries + [e])
  {
    hide Key;
    var b' := BookRow(b, e);
    forall x | x in entries + [e]
      ensures Key(x) in b'.byKey && b'.byKey[Key(x)].obs.usdPerGpuHour <= x.obs.usdPerGpuHour
    {
      assert x in entries || x == e;
    }
    forall k | k in b'.byKey ensures b'.byKey[k] in entries + [e] && Key(b'.byKey[k]) == k {
      assert b'.byKey[k] == e || (k in b.byKey && b'.byKey[k] == b.byKey[k]);
    }
  }

  lemma EmptyBooking()
    ensures ValidBooking(Booking([], map[], 0)) && HoldsCheapest(Booking([], map[], 0), [])
  {
  }

  /** Every row is booked or dropped, and each machine keeps its cheapest row. */
  lemma {:induction false} BookKeepsCheapest(entries: seq<Entry>)
    ensures ValidBooking(BookAll(entries)) && HoldsCheapest(BookAll(entries), entries)
    ensures |BookAll(entries).order| + BookAll(entries).dropped == |entries|
  {
    EmptyBooking();
    hide ValidBooking, HoldsCheapest, Key;
    if entries != [] {
      var front, last := entries[..|entries| - 1], entries[|entries| - 1];
      BookKeepsCheapest(front);
      BookStep(BookAll(front), front, last);
      assert entries == front + [last];
    }
  }

  /** The surviving rows in insertion order. */
  function BookRows(b: Booking): (r: seq<Entry>)
    requires forall k :: k in b.order ==> k in b.byKey
    ensures |r| == |b.order|
  {
    seq(|b.order|, i requires 0 <= i < |b.order| => b.byKey[b.order[i]])
  }

  function BookOf(entries: seq<Entry>): (r: seq<Entry>)
  {
    BookKeepsCheapest(entries);
    BookRows(BookAll(entries))
  }

  /** The rows name the same unit: the same machine, or without machine ids the same host, or without either the same offer. */
  predicate SameUnit(a: Observation, b: Observation) {
    if a.machineId.Some? then b.machineId == a.machineId
    else if a.hostId.Some? then b.machineId.None? && b.hostId == a.hostId
    else a.offerId.Some? && b.machineId.None? && b.hostId.None? && b.offerId == a.offerId
  }

  /** Two different booked rows never name the same unit: one machine is booked once, under however many offers it is listed. */
  lemma UnitsBookedOnce(entries: seq<Entry>, i: nat, j: nat)
    requires i < j < |BookOf(entries)|
    ensures !SameUnit(BookOf(entries)[i].obs, BookOf(entries)[j].obs)
  {
    hide BookAll;
    BookKeepsCheapest(entries);
    var b := BookAll(entries);
    assert Key(b.byKey[b.order[i]]) == b.order[i] && Key(b.byKey[b.order[j]]) == b.order[j];
  }

  /** Every row is represented: a booked row of its own key costs no more. */
  lemma UnitsBookedCheapest(entries: seq<Entry>, e: Entry) returns (k: nat)
    requires e in entries
    ensures k < |BookOf(entries)| && BookOf(entries)[k] in entries && Key(BookOf(entries)[k]) == Key(e)
    ensures BookOf(entries)[k].obs.usdPerGpuHour <= e.obs.usdPerGpuHour
  {
    hide BookAll, Key;
    BookKeepsCheapest(entries);
    var b := BookAll(entries);
    k :| 0 <= k < |b.order| && b.order[k] == Key(e);
    assert BookOf(entries)[k] == b.byKey[Key(e)];
  }

  lemma {:induction false} DigitsInjective(m: nat, n: nat)
    requires Digits(m) == Digits(n)
    ensures m == n
    decreases m
  {
    DigitsLength(m);
    DigitsLength(n);
    assert Digits(m)[|Digits(m)| - 1] == Digits(n)[|Digits(n)| - 1];
    assert m % 10 == n % 10;
    if m >= 10 && n >= 10 {
      assert Digits(m / 10) == Digits(m)[..|Digits(m)| - 1] && Digits(n / 10) == Digits(n)[..|Digits(n)| - 1];
      DigitsInjective(m / 10, n / 10);
    } else if m >= 10 {
      DigitsLength(m / 10);
    } else if n >= 10 {
      DigitsLength(n / 10);
    }
  }

  lemma DigitsLength(n: nat)
    ensures |Digits(n)| >= 1
    ensures n < 10 ==> |Digits(n)| == 1
  {
  }

  /** Rows without any id are never merged with one another. */
  lemma UnidentifiedApart(a: Entry, b: Entry)
    requires a.obs.machineId.None? && a.obs.hostId.None? && a.obs.offerId.None?
    requires b.obs.machineId.None? && b.obs.hostId.None? && b.obs.offerId.None?
    ensures Key(a) == Key(b) <==> a.index == b.index
  {
    if Key(a) == Key(b) {
      assert Key(a)[4..] == Digits(a.index) && Key(b)[4..] == Digits(b.index);
      DigitsInjective(a.index, b.index);
    }
  }

  method Dedup(screened: seq<Entry>) returns (book: seq<Entry>, dropped: nat)
    ensures book == BookOf(screened)
    ensures dropped == BookAll(screened).dropped == |screened| - |book|
    ensures forall i, j :: 0 <= i < j < |book| ==> !SameUnit(book[i].obs, book[j].obs)
  {
    hide Key, SameUnit;
    var order: seq<string> := [];
    var byKey: map<string, Entry> := map[];
    dropped := 0;
    for i := 0 to |screened|
      invariant Booking(order, byKey, dropped) == BookAll(screened[..i])
    {
      assert screened[..i + 1][..i] == screened[..i];
      var entry := screened[i];
      var key := Key(entry);
      if key !in byKey {
        order := order + [key];
        byKey := byKey[key := entry];
      } else {
        if entry.obs.usdPerGpuHour < byKey[key].obs.usdPerGpuHour { byKey := byKey[key := entry]; }
        dropped := dropped + 1;
      }
    }
    assert screened[..|screened|] == screened;
    BookKeepsCheapest(screened);
    book := BookRows(Booking(order, byKey, dropped));
    forall i, j | 0 <= i < j < |book| ensures !SameUnit(book[i].obs, book[j].obs) { UnitsBookedOnce(screened, i, j); }
  }

  // ------------------------------------------------------------------- depth

  function MachineId(e: Entry): string {
    if e.obs.machineId.Some? then e.obs.machineId.value else "dedup:" + Digits(e.index)
  }

  function Machines(book: seq<Entry>): set<string> {
    set e | e in book :: MachineId(e)
  }

  function Hosts(book: seq<Entry>): set<string> {
    set e | e in book && e.obs.hostId.Some? :: e.obs.hostId.value
  }

  /** A source without host ids counts each machine as its own host. */
  predicate DepthOk(book: seq<Entry>, cfg: AggregationConfig) {
    var hosts := if Hosts(book) == {} then Machines(book) else Hosts(book);
    |Machines(book)| >= cfg.minMachinesForBook && |hosts| >= cfg.minHostsForBook
  }

  /** A row weighs its gpu count, clamped to [1, min(gpuCountMax, 16)]. */
  function RowWeight(o: Observation, cfg: AggregationConfig): int {
    var n := if o.gpuCount.Some? then o.gpuCount.value else 1;
    var floor := if n > 1 then n else 1;
    var cap := if cfg.gpuCountMax < 16 then cfg.gpuCountMax else 16;
    if floor < cap then floor else cap
  }

  function BookWeights(book: seq<Entry>, cfg: AggregationConfig): (r: seq<Weighted>)
    ensures |r| == |book|
  {
    seq(|book|, i requires 0 <= i < |book| => Weighted(book[i].obs.usdPerGpuHour, RowWeight(book[i].obs, cfg) as real))
  }

  function EmptyReason(obs: seq<Observation>): string {
    if obs == [] then "no_usd_observations" else "all_filtered"
  }

  // ---------------------------------------------------------------- the paths

  /** What the order-book path answers once the book is settled. */
  function PriceBook(obs: seq<Observation>, book: seq<Entry>, exclusions: seq<Exclusion>, flags: Flags, cfg: AggregationConfig): PriceResult {
    if book == [] then PriceResult(None, "volume_weighted_median", 0, Some(EmptyReason(obs)), exclusions, flags)
    else if !DepthOk(book, cfg) then PriceResult(None, "thin_book_holdout", |book|, Some("thin_book"), exclusions, flags)
    else
      var price := MedianOf(BookWeights(book, cfg));
      PriceResult(if price.None? then None else Some(Round4(price.value)), "volume_weighted_median", |book|, None, exclusions, flags)
  }

  function RateCardPrices(screened: seq<Entry>): (r: seq<real>)
    ensures |r| == |screened|
  {
    seq(|screened|, i requires 0 <= i < |screened| => screened[i].obs.usdPerGpuHour)
  }

  function AggregateOf(obs: seq<Observation>, terms: Terms): PriceResult {
    var book := IsBook(obs);
    var entries, exclusions := Screened(obs, book, terms), RowExclusions(obs, book, terms);
    if book then
      PriceBook(obs, BookOf(entries), exclusions, FlagsFor(exclusions, BookAll(entries).dropped), terms.config)
    else
      var med := Median(RateCardPrices(entries));
      if med.None? then PriceResult(None, "median", 0, Some(EmptyReason(obs)), exclusions, FlagsFor(exclusions, 0))
      else PriceResult(Some(Round4(med.value)), "median", |entries|, None, exclusions, FlagsFor(exclusions, 0))
  }

  method AggregateProviderPrice(obs: seq<Observation>, terms: Terms) returns (r: PriceResult)
    ensures r == AggregateOf(obs, terms)
  {
    hide Screened, RowExclusions, BookAll, BookOf, FlagsFor, Median, SortBy, FirstReaching, TotalWeight, Round4, DepthOk;
    var book := IsBook(obs);
    var screened, exclusions, flags := ScreenRows(obs, book, terms);
    if book {
      var rows, dropped := Dedup(screened);
      FlagsDropped(exclusions, dropped);
      flags := flags.(dedupDropped := dropped);
      if |rows| == 0 {
        return PriceResult(None, "volume_weighted_median", 0, Some(EmptyReason(obs)), exclusions, flags);
      }
      if !DepthOk(rows, terms.config) {
        return PriceResult(None, "thin_book_holdout", |rows|, Some("thin_book"), exclusions, flags);
      }
      var price := WeightedMedian(BookWeights(rows, terms.config));
      return PriceResult(if price.None? then None else Some(Round4(price.value)), "volume_weighted_median", |rows|, None, exclusions, flags);
    }
    var med := Median(RateCardPrices(screened));
    if med.None? {
      return PriceResult(None, "median", 0, Some(EmptyReason(obs)), exclusions, flags);
    }
    r := PriceResult(Some(Round4(med.value)), "median", |screened|, None, exclusions, flags);
  }

  lemma FlagsDropped(es: seq<Exclusion>, dropped: nat)
    ensures FlagsFor(es, 0).(dedupDropped := dropped) == FlagsFor(es, dropped)
  {
  }

  // ------------------------------------------------------------ conservation

  lemma {:induction false} RowsConserved(obs: seq<Observation>, book: bool, terms: Terms)
    ensures |Screened(obs, book, terms)| + |RowExclusions(obs, book, terms)| == |obs|
  {
    hide RowReason;
    if obs != [] { RowsConserved(obs[..|obs| - 1], book, terms); }
  }

  /** Every row is accounted for: excluded, dropped as a duplicate, or sampled. */
  lemma ObservationsConserved(obs: seq<Observation>, terms: Terms)
    ensures var r := AggregateOf(obs, terms);
      |obs| == |r.exclusions| + r.flags.dedupDropped + r.sampleSize
  {
    hide Screened, RowExclusions, BookAll, Median, SortBy, FirstReaching, TotalWeight, Round4, DepthOk, CountReason;
    var book := IsBook(obs);
    RowsConserved(obs, book, terms);
    BookKeepsCheapest(Screened(obs, book, terms));
    MedianExists(RateCardPrices(Screened(obs, book, terms)));
  }

  // -------------------------------------------------------------- the median

  /** A machine's gpus, of which at most sixteen count. */
  function Gpus(o: Observation): nat {
    if o.gpuCount.None? || o.gpuCount.value < 1 then 1 else if o.gpuCount.value > 16 then 16 else o.gpuCount.value
  }

  /** The surviving machines' prices, each written out once per gpu, at most sixteen times. */
  function BookRepeats(book: seq<Entry>): (r: seq<Repeated>)
    ensures |r| == |book|
  {
    seq(|book|, i requires 0 <= i < |book| => Repeated(book[i].obs.usdPerGpuHour, Gpus(book[i].obs)))
  }

  lemma BookRowsPriceable(obs: seq<Observation>, terms: Terms)
    ensures forall e :: e in BookOf(Screened(obs, true, terms)) ==> e.index < |obs| && e.obs == obs[e.index] && Priceable(e.obs, true, terms)
  {
    hide Screened, BookOf, Priceable, RowReason;
    var entries := Screened(obs, true, terms);
    ScreenedRowsPassed(obs, true, terms);
    BookRowsScreened(entries);
    forall e | e in BookOf(entries) ensures e.index < |obs| && e.obs == obs[e.index] && Priceable(e.obs, true, terms) {
      RowReasonExactly(e.obs, true, terms);
    }
  }

  /** An order-book price is the rounded lower median of the machines' cheapest prices, each repeated once per gpu and at most 16 times. */
  lemma BookPriceIsLowerMedian(obs: seq<Observation>, terms: Terms)
    requires ValidAggregation(terms.config) && IsBook(obs) && AggregateOf(obs, terms).price.Some?
    ensures var book := BookOf(Screened(obs, true, terms));
      var m := LowerMedian(Expand(BookRepeats(book)));
      m.Some? && AggregateOf(obs, terms).price.value == Round4(m.value)
  {
    hide Screened, RowExclusions, BookAll, BookOf, MedianOf, Round4, DepthOk, CountReason, LowerMedian, Expand;
    var book := BookOf(Screened(obs, true, terms));
    var rs := BookRepeats(book);
    WeightedMedianIsLowerMedian(rs);
    BookRowsPriceable(obs, terms);
    forall i | 0 <= i < |book| ensures RowWeight(book[i].obs, terms.config) == Gpus(book[i].obs) { assert book[i] in book; }
    assert AsWeighted(rs) == BookWeights(book, terms.config);
  }

  // ------------------------------------------------------------- containment

  /** Every screened row is one of the observations, at its own place, and passed every screen. */
  lemma {:induction false} ScreenedRowsPassed(obs: seq<Observation>, book: bool, terms: Terms)
    ensures forall e :: e in Screened(obs, book, terms) ==>
      e.index < |obs| && e.obs == obs[e.index] && RowReason(e.obs, book, terms).None?
  {
    hide RowReason;
    if obs != [] {
      var i := |obs| - 1;
      ScreenedRowsPassed(obs[..i], book, terms);
    }
  }

  lemma InBand(o: Observation, book: bool, terms: Terms)
    requires RowReason(o, book, terms).None?
    ensures terms.bandLo <= o.usdPerGpuHour <= terms.bandHi
  {
    RowReasonExactly(o, book, terms);
  }

  lemma WeightsPositive(book: seq<Entry>, cfg: AggregationConfig)
    requires ValidAggregation(cfg)
    ensures NonNegative(BookWeights(book, cfg))
    ensures book != [] ==> TotalWeight(BookWeights(book, cfg)) > 0.0
  {
    var ws := BookWeights(book, cfg);
    if book != [] {
      assert ws[0].weight >= 1.0;
      assert NonNegative(ws[1..]);
      TotalNonNegative(ws[1..]);
    }
  }

  lemma {:induction false} ReachingIsMember(ps: seq<Weighted>, cum: real, target: real)
    requires ps != []
    ensures exists p :: p in ps && p.value == FirstReaching(ps, cum, target)
  {
    if cum + ps[0].weight < target && |ps| > 1 { ReachingIsMember(ps[1..], cum + ps[0].weight, target); }
    else { assert ps[0] in ps; }
  }

  /** The weighted median is one of the values. */
  lemma MedianIsMember(ps: seq<Weighted>)
    requires MedianOf(ps).Some?
    ensures exists p :: p in ps && p.value == MedianOf(ps).value
  {
    hide SortBy, FirstReaching, TotalWeight;
    var sorted := SortBy(ps, ValueOf);
    SortBySorts(ps, ValueOf);
    ReachingIsMember(sorted, 0.0, TotalWeight(sorted) / 2.0);
    var p :| p in sorted && p.value == MedianOf(ps).value;
    assert p in multiset(ps);
  }

  lemma MedianInside(values: seq<real>, lo: real, hi: real)
    requires values != [] && forall v :: v in values ==> lo <= v <= hi
    ensures Median(values).Some? && lo <= Median(values).value <= hi
  {
    hide Median, Count;
    assert forall i :: 0 <= i < |values| ==> In(values[i], Inside(lo, hi)) by {
      forall i | 0 <= i < |values| ensures In(values[i], Inside(lo, hi)) { assert values[i] in values; }
    }
    CountEvery(values, Inside(lo, hi));
    MedianBreakdown(values, lo, hi);
  }

  /** A provider has a price exactly when it is not held out, and the price lies in the plausible band. */
  lemma PricedInsideBand(obs: seq<Observation>, terms: Terms)
    requires ValidAggregation(terms.config)
    ensures var r := AggregateOf(obs, terms);
      (r.price.Some? <==> r.holdout.None?) &&
      (r.price.Some? ==> Round4(terms.bandLo) <= r.price.value <= Round4(terms.bandHi))
  {
    hide Screened, RowExclusions, BookAll, BookOf, FlagsFor, MedianOf, Median, Round4, DepthOk, RowReason;
    var book := IsBook(obs);
    var entries := Screened(obs, book, terms);
    ScreenedRowsPassed(obs, book, terms);
    forall e | e in entries ensures terms.bandLo <= e.obs.usdPerGpuHour <= terms.bandHi { InBand(e.obs, book, terms); }
    if book {
      BookRowsScreened(entries);
      BookPriceInside(BookOf(entries), terms);
    } else if entries == [] {
      MedianExists(RateCardPrices(entries));
    } else {
      MedianInside(RateCardPrices(entries), terms.bandLo, terms.bandHi);
      RoundedInside(Median(RateCardPrices(entries)).value, terms.bandLo, terms.bandHi);
    }
  }

  lemma HoldoutsDiffer()
    ensures "no_usd_observations" != "all_filtered" && "no_usd_observations" != "thin_book" && "all_filtered" != "thin_book"
  {
    assert |"no_usd_observations"| == 19 && |"all_filtered"| == 12 && |"thin_book"| == 9;
  }

  /** A provider is held out for having no rows exactly when it has none, and for losing them all exactly when no row is fit to be priced. */
  lemma HeldOutExactly(obs: seq<Observation>, terms: Terms)
    ensures AggregateOf(obs, terms).holdout == Some("no_usd_observations") <==> obs == []
    ensures AggregateOf(obs, terms).holdout == Some("all_filtered") <==>
      obs != [] && forall i :: 0 <= i < |obs| ==> !Priceable(obs[i], IsBook(obs), terms)
  {
    hide Screened, RowExclusions, BookAll, BookOf, FlagsFor, MedianOf, Median, Round4, DepthOk, RowReason, Priceable, IsBook;
    HoldoutsDiffer();
    var entries := Screened(obs, IsBook(obs), terms);
    NothingScreened(obs, IsBook(obs), terms);
    MedianExists(RateCardPrices(entries));
    BookSize(entries);
    if obs == [] { NotABook(); }
  }

  lemma NotABook()
    ensures !IsBook([])
  {
  }

  lemma BookSize(entries: seq<Entry>)
    ensures BookOf(entries) == [] <==> entries == []
  {
    hide BookAll;
    if entries == [] {
      BookKeepsCheapest(entries);
    } else {
      var k := UnitsBookedCheapest(entries, entries[0]);
    }
  }

  lemma {:induction false} NothingScreened(obs: seq<Observation>, book: bool, terms: Terms)
    ensures Screened(obs, book, terms) == [] <==> forall i :: 0 <= i < |obs| ==> !Priceable(obs[i], book, terms)
  {
    hide Priceable, RowReason;
    if obs != [] {
      var k := |obs| - 1;
      NothingScreened(obs[..k], book, terms);
      RowReasonExactly(obs[k], book, terms);
      assert forall i :: 0 <= i < k ==> obs[..k][i] == obs[i];
    }
  }

  /** A rate-card price cannot leave the range of a majority of the rows fit to be priced. */
  lemma RateCardBreakdown(obs: seq<Observation>, terms: Terms, lo: real, hi: real)
    requires !IsBook(obs)
    requires var entries := Screened(obs, false, terms); 2 * Count(RateCardPrices(entries), Inside(lo, hi)) > |entries|
    ensures AggregateOf(obs, terms).price.Some? && Round4(lo) <= AggregateOf(obs, terms).price.value <= Round4(hi)
  {
    hide Screened, RowExclusions, FlagsFor, Median, Count, Round4;
    var prices := RateCardPrices(Screened(obs, false, terms));
    MedianBreakdown(prices, lo, hi);
    RoundedInside(Median(prices).value, lo, hi);
  }

  lemma RoundedInside(x: real, lo: real, hi: real)
    requires lo <= x <= hi
    ensures Round4(lo) <= Round4(x) <= Round4(hi)
  {
    Round4Monotone(lo, x);
    Round4Monotone(x, hi);
  }

  lemma BookRowsScreened(entries: seq<Entry>)
    ensures forall e :: e in BookOf(entries) ==> e in entries
  {
    hide BookAll;
    BookKeepsCheapest(entries);
  }

  lemma BookPriceInside(book: seq<Entry>, terms: Terms)
    requires ValidAggregation(terms.config) && forall e :: e in book ==> terms.bandLo <= e.obs.usdPerGpuHour <= terms.bandHi
    ensures book != [] ==> MedianOf(BookWeights(book, terms.config)).Some?
    ensures book != [] ==>
      Round4(terms.bandLo) <= Round4(MedianOf(BookWeights(book, terms.config)).value) <= Round4(terms.bandHi)
  {
    if book != [] {
      var ws := BookWeights(book, terms.config);
      WeightsPositive(book, terms.config);
      MedianHasValue(ws);
      MedianIsMember(ws);
      hide MedianOf, Round4;
      var p :| p in ws && p.value == MedianOf(ws).value;
      var i :| 0 <= i < |ws| && ws[i] == p;
      assert book[i] in book;
      RoundedInside(p.value, terms.bandLo, terms.bandHi);
    }
  }

  lemma MedianHasValue(ws: seq<Weighted>)
    requires NonNegative(ws) && TotalWeight(ws) > 0.0
    ensures MedianOf(ws).Some?
  {
    hide SortBy, FirstReaching;
    SortKeepsWeights(ws);
    TotalEmpty();
  }

  // -------------------------------------------------------------------- depth

  /** The machine ids of the booked rows, and the host ids. */
  ghost function MachineIds(book: seq<Entry>): set<string> { set e | e in book && e.obs.machineId.Some? :: e.obs.machineId.value }

  ghost function HostIds(book: seq<Entry>): set<string> { set e | e in book && e.obs.hostId.Some? :: e.obs.hostId.value }

  /**
   Where every booked row names its machine, a book is priced exactly when it has
   enough rows, which are as many machines, and enough distinct hosts; without any
   host id each machine counts as its own host.
   */
  lemma BookedDeepExactly(obs: seq<Observation>, terms: Terms)
    requires ValidAggregation(terms.config) && IsBook(obs)
    requires forall e :: e in BookOf(Screened(obs, true, terms)) ==> e.obs.machineId.Some?
    ensures var book, r := BookOf(Screened(obs, true, terms)), AggregateOf(obs, terms);
      r.sampleSize == |book| == |MachineIds(book)| &&
      (r.price.Some? <==>
        (|book| >= terms.config.minMachinesForBook &&
         (if HostIds(book) == {} then |book| else |HostIds(book)|) >= terms.config.minHostsForBook))
  {
    hide Screened, RowExclusions, BookAll, MedianOf, Round4, FlagsFor;
    var entries := Screened(obs, true, terms);
    var book := BookOf(entries);
    forall i, j | 0 <= i < j < |book| ensures book[i].obs.machineId != book[j].obs.machineId {
      UnitsBookedOnce(entries, i, j);
      assert book[i] in book;
    }
    hide BookOf;
    NamedMachines(book);
    assert Machines(book) == MachineIds(book) && Hosts(book) == HostIds(book);
    BookRowsPriceable(obs, terms);
    forall e | e in book ensures terms.bandLo <= e.obs.usdPerGpuHour <= terms.bandHi {}
    BookPriceInside(book, terms);
  }

  lemma {:induction false} NamedMachines(book: seq<Entry>)
    requires forall e :: e in book ==> e.obs.machineId.Some?
    requires forall i, j :: 0 <= i < j < |book| ==> book[i].obs.machineId != book[j].obs.machineId
    ensures |MachineIds(book)| == |book|
  {
    if book == [] {
      assert MachineIds(book) == {};
    } else {
      var front, last := book[..|book| - 1], book[|book| - 1];
      assert last in book;
      forall e | e in front ensures e.obs.machineId != last.obs.machineId {
        var i :| 0 <= i < |front| && front[i] == e;
        assert book[i] == e;
      }
      NamedMachines(front);
      assert book == front + [last];
      assert MachineIds(book) == MachineIds(front) + {last.obs.machineId.value};
    }
  }

  // ----------------------------------------------------- flooding resistance

  /** A row that is not fit to be priced, or names the unit of a booked row at no lower price, whatever its other ids. */
  ghost predicate Redundant(o: Observation, book: seq<Entry>, terms: Terms) {
    !Priceable(o, true, terms) ||
    exists k :: 0 <= k < |book| && SameUnit(o, book[k].obs) && book[k].obs.usdPerGpuHour <= o.usdPerGpuHour
  }

  /** Such a row's key is booked already, at no higher price. */
  predicate Covered(o: Observation, index: nat, b: Booking, terms: Terms) {
    RowReason(o, true, terms).Some? ||
    (Key(Entry(o, index)) in b.byKey && b.byKey[Key(Entry(o, index))].obs.usdPerGpuHour <= o.usdPerGpuHour)
  }

  lemma RedundantIsCovered(o: Observation, index: nat, entries: seq<Entry>, terms: Terms)
    requires Redundant(o, BookOf(entries), terms)
    ensures Covered(o, index, BookAll(entries), terms)
  {
    hide BookAll, RowReason, Priceable;
    RowReasonExactly(o, true, terms);
    BookKeepsCheapest(entries);
    if Priceable(o, true, terms) {
      var book, b := BookOf(entries), BookAll(entries);
      var k :| 0 <= k < |book| && SameUnit(o, book[k].obs) && book[k].obs.usdPerGpuHour <= o.usdPerGpuHour;
      assert book[k] == b.byKey[b.order[k]] && Key(book[k]) == b.order[k];
      assert Key(Entry(o, index)) == Key(book[k]);
    }
  }

  lemma AppendRow(obs: seq<Observation>, o: Observation, terms: Terms)
    requires Covered(o, |obs|, BookAll(Screened(obs, true, terms)), terms)
    ensures var before, after := BookAll(Screened(obs, true, terms)), BookAll(Screened(obs + [o], true, terms));
      after.order == before.order && after.byKey == before.byKey
  {
    hide RowReason, Key;
    assert (obs + [o])[..|obs|] == obs;
    var screened, entry := Screened(obs, true, terms), Entry(o, |obs|);
    if RowReason(o, true, terms).None? {
      assert Screened(obs + [o], true, terms) == screened + [entry];
      assert (screened + [entry])[..|screened|] == screened;
    } else {
      assert Screened(obs + [o], true, terms) == screened;
    }
  }

  lemma {:induction false} AppendRows(obs: seq<Observation>, extra: seq<Observation>, terms: Terms)
    requires var b := BookAll(Screened(obs, true, terms));
      forall i :: 0 <= i < |extra| ==> Covered(extra[i], |obs| + i, b, terms)
    ensures var before, after := BookAll(Screened(obs, true, terms)), BookAll(Screened(obs + extra, true, terms));
      after.order == before.order && after.byKey == before.byKey
  {
    hide Screened, BookAll, RowReason, Key;
    if extra == [] {
      assert obs + extra == obs;
    } else {
      var k := |extra| - 1;
      AppendRows(obs, extra[..k], terms);
      assert |obs + extra[..k]| == |obs| + k;
      AppendRow(obs + extra[..k], extra[k], terms);
      assert obs + extra == obs + extra[..k] + [extra[k]];
    }
  }

  /**
   Flooding a book with rows that name a booked machine at no lower price, under any
   offer and host ids, or with rows that are not fit to be priced, changes neither
   its price nor its sample; the same for hosts and offers without machine ids.
   */
  lemma FloodingHarmless(obs: seq<Observation>, extra: seq<Observation>, terms: Terms)
    requires IsBook(obs)
    requires forall i :: 0 <= i < |extra| ==> Redundant(extra[i], BookOf(Screened(obs, true, terms)), terms)
    ensures AggregateOf(obs + extra, terms).price == AggregateOf(obs, terms).price
    ensures AggregateOf(obs + extra, terms).sampleSize == AggregateOf(obs, terms).sampleSize
    ensures AggregateOf(obs + extra, terms).how == AggregateOf(obs, terms).how
    ensures AggregateOf(obs + extra, terms).holdout == AggregateOf(obs, terms).holdout
  {
    hide Screened, RowExclusions, BookAll, Covered, Redundant, MedianOf, Round4, DepthOk, CountReason;
    var entries := Screened(obs, true, terms);
    forall i | 0 <= i < |extra| ensures Covered(extra[i], |obs| + i, BookAll(entries), terms) {
      RedundantIsCovered(extra[i], |obs| + i, entries, terms);
    }
    AppendRows(obs, extra, terms);
    var k :| 0 <= k < |obs| && (obs[k].machineId.Some? || obs[k].hostId.Some?);
    assert (obs + extra)[k] == obs[k];
    assert IsBook(obs + extra);
    assert BookOf(Screened(obs + extra, true, terms)) == BookOf(entries);
  }
}
