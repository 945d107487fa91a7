/**
 The two provider screens (packages/pricing-engine/src/screen.ts).

 `MadScreen` and `JumpScreen` are the source's loops. Each is proved against a
 specification that says which candidates survive, and the specification is
 proved to have the properties the screens exist for: a minority of prices
 cannot drag a survivor away from the majority, and no panel is starved.
 */
module Screens {
  import opened Wrappers
  import opened RealArithmetic
  import opened OrderStatistics

  datatype Candidate = Candidate(providerId: string, price: real)
  datatype Exclusion = Exclusion(providerId: string, reason: string, value: Option<real>)
  datatype ScreeningConfig = ScreeningConfig(minProvidersForScreen: nat, madScale: real, sigmaLimit: real, madZeroRatioBand: real)
  datatype MadScreenResult = MadScreenResult(kept: seq<Candidate>, exclusions: seq<Exclusion>, median: Option<real>, dispersion: real)

  /** The configuration ranges the methodology validator enforces. */
  predicate ValidScreening(cfg: ScreeningConfig) {
    cfg.minProvidersForScreen >= 1 && cfg.madScale > 0.0 && cfg.sigmaLimit > 0.0 && cfg.madZeroRatioBand > 1.0
  }

  function Prices(cs: seq<Candidate>): (r: seq<real>)
    ensures |r| == |cs|
  {
    seq(|cs|, i requires 0 <= i < |cs| => cs[i].price)
  }

  // ------------------------------------------------------------- MAD screen

  /** Which test applies: none, the MAD = 0 ratio band, or the sigma limit. */
  datatype Mode = Silent | RatioBand(med: real, band: real) | Sigma(med: real, limit: real)

  function ScreenMode(prices: seq<real>, cfg: ScreeningConfig): Mode {
    var med := Median(prices);
    if med.None? || med.value <= 0.0 || |prices| < cfg.minProvidersForScreen then Silent
    else
      var spread := Mad(prices, med.value);
      if spread.None? || spread.value == 0.0 then RatioBand(med.value, cfg.madZeroRatioBand)
      else Sigma(med.value, Times(cfg.sigmaLimit, Times(cfg.madScale, spread.value)))
  }

  predicate Keeps(mode: Mode, price: real) {
    match mode
    case Silent => true
    case RatioBand(med, band) => med != 0.0 && band != 0.0 && 1.0 / band <= price / med <= band
    case Sigma(med, limit) => Abs(price - med) <= limit
  }

  function ReasonFor(mode: Mode): string {
    if mode.RatioBand? then "mad_zero_ratio_band" else "mad_outlier"
  }

  function Kept(cs: seq<Candidate>, mode: Mode): seq<Candidate> {
    if cs == [] then []
    else if Keeps(mode, cs[|cs| - 1].price) then Kept(cs[..|cs| - 1], mode) + [cs[|cs| - 1]]
    else Kept(cs[..|cs| - 1], mode)
  }

  function Rejected(cs: seq<Candidate>, mode: Mode): seq<Exclusion> {
    if cs == [] then []
    else if Keeps(mode, cs[|cs| - 1].price) then Rejected(cs[..|cs| - 1], mode)
    else Rejected(cs[..|cs| - 1], mode) + [Exclusion(cs[|cs| - 1].providerId, ReasonFor(mode), Some(cs[|cs| - 1].price))]
  }

  function Dispersion(prices: seq<real>, madScale: real): real {
    var med := Median(prices);
    if med.None? || med.value <= 0.0 then 0.0
    else
      var spread := Mad(prices, med.value);
      if spread.None? then 0.0 else Times(madScale, spread.value) / med.value
  }

  method Partition(candidates: seq<Candidate>, mode: Mode) returns (kept: seq<Candidate>, exclusions: seq<Exclusion>)
    ensures kept == Kept(candidates, mode)
    ensures exclusions == Rejected(candidates, mode)
  {
    kept, exclusions := [], [];
    for i := 0 to |candidates|
      invariant kept == Kept(candidates[..i], mode)
      invariant exclusions == Rejected(candidates[..i], mode)
    {
      var c := candidates[i];
      assert candidates[..i + 1][..i] == candidates[..i];
      if Keeps(mode, c.price) {
        kept := kept + [c];
      } else {
        exclusions := exclusions + [Exclusion(c.providerId, ReasonFor(mode), Some(c.price))];
      }
    }
    assert candidates[..|candidates|] == candidates;
  }

  method MadScreen(candidates: seq<Candidate>, cfg: ScreeningConfig) returns (r: MadScreenResult)
    ensures r.kept == Kept(candidates, ScreenMode(Prices(candidates), cfg))
    ensures r.exclusions == Rejected(candidates, ScreenMode(Prices(candidates), cfg))
    ensures r.median == Median(Prices(r.kept))
    ensures r.dispersion == if ScreenMode(Prices(candidates), cfg).RatioBand? then 0.0 else Dispersion(Prices(r.kept), cfg.madScale)
  {
    hide Median, Mad, Kept, Rejected, Times;
    var prices := Prices(candidates);
    SilentKeepsAll(candidates);
    MedianExists(prices);
    if |candidates| == 0 { return MadScreenResult([], [], None, 0.0); }
    var med := Median(prices).value;
    if med <= 0.0 { return MadScreenResult(candidates, [], Some(med), 0.0); }
    var spread := Mad(prices, med);
    if |candidates| < cfg.minProvidersForScreen {
      var dispersion := if spread.None? then 0.0 else Times(cfg.madScale, spread.value) / med;
      return MadScreenResult(candidates, [], Some(med), dispersion);
    }
    if spread.None? || spread.value == 0.0 {
      var kept, exclusions := Partition(candidates, RatioBand(med, cfg.madZeroRatioBand));
      return MadScreenResult(kept, exclusions, Median(Prices(kept)), 0.0);
    }
    var sigma := Times(cfg.madScale, spread.value);
    var limit := Times(cfg.sigmaLimit, sigma);
    var kept, exclusions := Partition(candidates, Sigma(med, limit));
    r := MadScreenResult(kept, exclusions, Median(Prices(kept)), Dispersion(Prices(kept), cfg.madScale));
  }

  lemma {:induction false} SilentKeepsAll(cs: seq<Candidate>)
    ensures Kept(cs, Silent) == cs && Rejected(cs, Silent) == []
  {
    if cs != [] {
      SilentKeepsAll(cs[..|cs| - 1]);
      assert cs == cs[..|cs| - 1] + [cs[|cs| - 1]];
    }
  }

  lemma {:induction false} KeptAreKept(cs: seq<Candidate>, mode: Mode)
    ensures forall c :: c in Kept(cs, mode) <==> c in cs && Keeps(mode, c.price)
  {
    if cs != [] {
      KeptAreKept(cs[..|cs| - 1], mode);
      assert cs == cs[..|cs| - 1] + [cs[|cs| - 1]];
    }
  }

  /**
   Who the armed screen keeps, multiplied out: without spread those within the ratio
   band of the median, otherwise those within sigmaLimit * madScale spreads of it.
   */
  lemma KeptExactly(cs: seq<Candidate>, cfg: ScreeningConfig, c: Candidate)
    requires ValidScreening(cfg) && cs != []
    ensures Median(Prices(cs)).Some? && Mad(Prices(cs), Median(Prices(cs)).value).Some?
    ensures var med := Median(Prices(cs)).value;
      var spread := Mad(Prices(cs), med).value;
      c in Kept(cs, ScreenMode(Prices(cs), cfg)) <==>
        (c in cs && (med > 0.0 && |cs| >= cfg.minProvidersForScreen ==>
          if spread == 0.0 then med <= Times(cfg.madZeroRatioBand, c.price) && c.price <= Times(cfg.madZeroRatioBand, med)
          else Abs(c.price - med) <= Times(Times(cfg.sigmaLimit, cfg.madScale), spread)))
  {
    hide Median, Mad, Kept, Times;
    var prices := Prices(cs);
    MedianExists(prices);
    var med := Median(prices).value;
    MadExists(prices, med);
    var spread := Mad(prices, med).value;
    KeptAreKept(cs, ScreenMode(prices, cfg));
    TimesAssociates(cfg.sigmaLimit, cfg.madScale, spread);
    if med > 0.0 { RatioBandExactly(med, cfg.madZeroRatioBand, c.price); }
  }

  /** Every rejection names a candidate, its price and the test it failed: the ratio band exactly when there is no spread. */
  lemma RejectionsExactly(cs: seq<Candidate>, cfg: ScreeningConfig, e: Exclusion)
    requires ValidScreening(cfg) && cs != [] && e in Rejected(cs, ScreenMode(Prices(cs), cfg))
    ensures Median(Prices(cs)).Some? && Mad(Prices(cs), Median(Prices(cs)).value).Some?
    ensures exists c :: c in cs && e.providerId == c.providerId && e.value == Some(c.price)
    ensures e.reason == if Mad(Prices(cs), Median(Prices(cs)).value).value == 0.0 then "mad_zero_ratio_band" else "mad_outlier"
  {
    hide Median, Mad, Rejected, Times, Keeps;
    MedianExists(Prices(cs));
    MadExists(Prices(cs), Median(Prices(cs)).value);
    RejectedNames(cs, ScreenMode(Prices(cs), cfg), e);
  }

  lemma {:induction false} RejectedNames(cs: seq<Candidate>, mode: Mode, e: Exclusion)
    requires e in Rejected(cs, mode)
    ensures exists c :: c in cs && e.providerId == c.providerId && e.value == Some(c.price)
    ensures e.reason == (if mode.RatioBand? then "mad_zero_ratio_band" else "mad_outlier") && !mode.Silent?
  {
    var front, last := cs[..|cs| - 1], cs[|cs| - 1];
    assert cs == front + [last];
    if e in Rejected(front, mode) {
      RejectedNames(front, mode, e);
      var c :| c in front && e.providerId == c.providerId && e.value == Some(c.price);
      assert c in cs;
    } else {
      assert last in cs;
    }
  }

  lemma RatioBandExactly(med: real, band: real, price: real)
    requires med > 0.0 && band > 1.0
    ensures Keeps(RatioBand(med, band), price) <==> med <= Times(band, price) && price <= Times(band, med)
  {
    hide Times;
    QuotientOrder(price, med, band);
    QuotientOrder(price, med, 1.0 / band);
    QuotientOrder(med, band, price);
    TimesAssociates(1.0 / band, med, 0.0);
    TimesAssociates(price, band, 0.0);
    Quotient(1.0, band);
    TimesAssociates(med, 1.0 / band, band);
    TimesUnit(med);
    TimesCancelOrder(Times(1.0 / band, med), price, band);
    TimesAssociates(Times(1.0 / band, med), band, 0.0);
  }

  lemma TimesCancelOrder(a: real, b: real, c: real)
    requires c > 0.0
    ensures a <= b <==> Times(a, c) <= Times(b, c)
  {
    hide Times;
    if a <= b { TimesOrder(c, a, b); } else { TimesStrict(c, b, a); }
  }

  /**
   The dispersion is madScale spreads over the median: at most half of the prices
   lie strictly nearer to the median than the spread it stands for, and at most
   half strictly farther.
   */
  lemma DispersionIsSpread(prices: seq<real>, madScale: real, med: real)
    requires madScale > 0.0 && med > 0.0 && Median(prices) == Some(med)
    ensures var spread := Times(Dispersion(prices, madScale), med) / madScale;
      2 * Count(Deviations(prices, med), Below(spread)) <= |prices| &&
      2 * Count(Deviations(prices, med), Above(spread)) <= |prices|
  {
    hide Median, Mad, Deviations, Count, Times;
    MadExists(prices, med);
    var spread := Mad(prices, med).value;
    MadIsMedian(prices, med, spread);
    Quotient(Times(madScale, spread), med);
    Quotient(Times(madScale, spread), madScale);
    TimesAssociates(madScale, spread, 0.0);
    TimesCancel(spread, Times(madScale, spread) / madScale, madScale);
  }

  lemma MadIsMedian(prices: seq<real>, center: real, spread: real)
    requires Mad(prices, center) == Some(spread)
    ensures 2 * Count(Deviations(prices, center), Below(spread)) <= |prices|
    ensures 2 * Count(Deviations(prices, center), Above(spread)) <= |prices|
  {
    hide Median, Count;
    MedianRank(Deviations(prices, center), spread);
    assert |Deviations(prices, center)| == |prices|;
  }

  /** The interval no survivor leaves when a majority of prices lie in [lo, hi]. */
  function Floor(cfg: ScreeningConfig, lo: real, hi: real): real
    requires cfg.madZeroRatioBand > 1.0
  {
    Min(lo / cfg.madZeroRatioBand, lo - Times(Times(cfg.sigmaLimit, cfg.madScale), hi - lo))
  }

  function Ceiling(cfg: ScreeningConfig, lo: real, hi: real): real {
    Max(Times(cfg.madZeroRatioBand, hi), hi + Times(Times(cfg.sigmaLimit, cfg.madScale), hi - lo))
  }

  lemma RatioBounds(med: real, band: real, price: real, lo: real, hi: real)
    requires 0.0 < lo <= med <= hi && band > 1.0 && Keeps(RatioBand(med, band), price)
    ensures lo / band <= price <= Times(band, hi)
  {
    hide Times;
    QuotientOrder(price, med, band);
    QuotientOrder(price, med, 1.0 / band);
    TimesOrder(band, med, hi);
    var inverse := 1.0 / band;
    Quotient(1.0, band);
    assert inverse >= 0.0;
    TimesOrder(inverse, lo, med);
    QuotientOrder(lo, band, Times(inverse, lo));
    TimesAssociates(lo, inverse, band);
    TimesAssociates(inverse, lo, 0.0);
    TimesUnit(lo);
  }

  lemma SigmaBounds(cfg: ScreeningConfig, med: real, spread: real, price: real, lo: real, hi: real)
    requires ValidScreening(cfg) && lo <= med <= hi && 0.0 <= spread <= hi - lo
    requires Abs(price - med) <= Times(cfg.sigmaLimit, Times(cfg.madScale, spread))
    ensures var k := Times(cfg.sigmaLimit, cfg.madScale);
      lo - Times(k, hi - lo) <= price <= hi + Times(k, hi - lo)
  {
    hide Times;
    var k := Times(cfg.sigmaLimit, cfg.madScale);
    TimesAssociates(cfg.sigmaLimit, cfg.madScale, spread);
    TimesOrder(cfg.sigmaLimit, 0.0, cfg.madScale);
    TimesUnit(cfg.sigmaLimit);
    TimesOrder(k, spread, hi - lo);
  }

  /**
   Breakdown bound: when the screen is armed and more than half of the prices
   lie in [lo, hi], every survivor lies in [Floor, Ceiling], whatever the other
   providers print.
   */
  lemma MadScreenBreakdown(cs: seq<Candidate>, cfg: ScreeningConfig, lo: real, hi: real)
    requires ValidScreening(cfg) && |cs| >= cfg.minProvidersForScreen
    requires 0.0 < lo <= hi && 2 * Count(Prices(cs), Inside(lo, hi)) > |cs|
    ensures forall c :: c in Kept(cs, ScreenMode(Prices(cs), cfg)) ==> Floor(cfg, lo, hi) <= c.price <= Ceiling(cfg, lo, hi)
  {
    hide Count, Median, Mad, Kept, Times, Deviations;
    var prices := Prices(cs);
    var mode := ScreenMode(prices, cfg);
    MedianBreakdown(prices, lo, hi);
    var med := Median(prices).value;
    MadBreakdown(prices, med, lo, hi);
    KeptAreKept(cs, mode);
    forall c | c in Kept(cs, mode) ensures Floor(cfg, lo, hi) <= c.price <= Ceiling(cfg, lo, hi) {
      if mode.RatioBand? {
        RatioBounds(med, cfg.madZeroRatioBand, c.price, lo, hi);
      } else {
        SigmaBounds(cfg, med, Mad(prices, med).value, c.price, lo, hi);
      }
    }
  }

  lemma {:induction false} KeptAtLeast(cs: seq<Candidate>, mode: Mode, region: Region)
    requires forall p :: In(p, region) ==> Keeps(mode, p)
    ensures |Kept(cs, mode)| >= Count(Prices(cs), region)
  {
    if cs != [] {
      var front, last := cs[..|cs| - 1], cs[|cs| - 1];
      KeptAtLeast(front, mode, region);
      assert Prices(cs) == Prices(front) + [last.price];
      CountConcat(Prices(front), [last.price], region);
      assert Count([last.price], region) == if In(last.price, region) then 1 else 0;
    }
  }

  lemma MadNonNegative(prices: seq<real>, center: real, spread: real)
    requires Mad(prices, center) == Some(spread)
    ensures spread >= 0.0
  {
    hide Count, Median, Deviations;
    var ds := Deviations(prices, center);
    MedianExists(ds);
    MedianRank(ds, spread);
    if spread < 0.0 {
      AllDistancesPositive(prices, center, spread);
    }
  }

  lemma {:induction false} AllDistancesPositive(prices: seq<real>, center: real, x: real)
    requires x < 0.0
    ensures Count(Deviations(prices, center), Above(x)) == |prices| && |Deviations(prices, center)| == |prices|
  {
    if prices != [] {
      AllDistancesPositive(prices[1..], center, x);
      assert Deviations(prices, center)[1..] == Deviations(prices[1..], center);
    }
  }

  lemma LimitCoversSpread(cfg: ScreeningConfig, spread: real)
    requires Times(cfg.sigmaLimit, cfg.madScale) >= 1.0 && spread >= 0.0
    ensures Times(cfg.sigmaLimit, Times(cfg.madScale, spread)) >= spread
  {
    hide Times;
    TimesAssociates(cfg.sigmaLimit, cfg.madScale, spread);
    TimesOrder(spread, 1.0, Times(cfg.sigmaLimit, cfg.madScale));
    TimesUnit(spread);
  }

  /** With sigmaLimit * madScale at least one, the screen keeps at least half of any panel. */
  lemma MadScreenKeepsHalf(cs: seq<Candidate>, cfg: ScreeningConfig)
    requires ValidScreening(cfg) && Times(cfg.sigmaLimit, cfg.madScale) >= 1.0
    ensures 2 * |Kept(cs, ScreenMode(Prices(cs), cfg))| >= |cs|
  {
    hide Count, Median, Mad, Kept, Times, Deviations;
    var prices := Prices(cs);
    var mode := ScreenMode(prices, cfg);
    if mode.Silent? {
      SilentKeepsAll(cs);
    } else {
      var med := Median(prices).value;
      MadExists(prices, med);
      var spread := Mad(prices, med).value;
      MadCoversHalf(prices, med, spread);
      MadNonNegative(prices, med, spread);
      LimitCoversSpread(cfg, spread);
      if mode.RatioBand? { MedianKept(med, cfg.madZeroRatioBand); }
      forall p | In(p, Near(med, spread)) ensures Keeps(mode, p) {}
      KeptAtLeast(cs, mode, Near(med, spread));
    }
  }

  lemma MadExists(prices: seq<real>, center: real)
    requires Median(prices).Some?
    ensures Mad(prices, center).Some?
  {
    MedianExists(prices);
    MedianExists(Deviations(prices, center));
    assert |Deviations(prices, center)| == |prices|;
  }

  lemma MedianKept(med: real, band: real)
    requires med > 0.0 && band > 1.0
    ensures Keeps(RatioBand(med, band), med)
  {
    QuotientOrder(1.0, band, band);
    assert med / med == 1.0;
    assert 1.0 / band <= 1.0;
  }

  /** Every candidate is kept or rejected, never both. */
  lemma {:induction false} MadScreenPartitions(cs: seq<Candidate>, mode: Mode)
    ensures multiset(CandidateIds(Kept(cs, mode))) + multiset(ExclusionIds(Rejected(cs, mode))) == multiset(CandidateIds(cs))
  {
    if cs != [] {
      var front, last := cs[..|cs| - 1], cs[|cs| - 1];
      MadScreenPartitions(front, mode);
      hide CandidateIds, ExclusionIds, Keeps;
      assert cs == front + [last];
      CandidateIdsAppend(front, last);
      CandidateIdsAppend(Kept(front, mode), last);
      ExclusionIdsAppend(Rejected(front, mode), Exclusion(last.providerId, ReasonFor(mode), Some(last.price)));
    }
  }

  lemma CandidateIdsAppend(cs: seq<Candidate>, c: Candidate)
    ensures CandidateIds(cs + [c]) == CandidateIds(cs) + [c.providerId]
  {
  }

  lemma ExclusionIdsAppend(es: seq<Exclusion>, e: Exclusion)
    ensures ExclusionIds(es + [e]) == ExclusionIds(es) + [e.providerId]
  {
  }

  function CandidateIds(cs: seq<Candidate>): seq<string> {
    seq(|cs|, i requires 0 <= i < |cs| => cs[i].providerId)
  }

  function ExclusionIds(es: seq<Exclusion>): seq<string> {
    seq(|es|, i requires 0 <= i < |es| => es[i].providerId)
  }

  // ------------------------------------------------------------ jump screen

  datatype JumpCandidate = JumpCandidate(providerId: string, price: real, trailingMedian: Option<real>)
  datatype JumpConfig = JumpConfig(maxProviderJumpPct: real, minCorroborators: nat, minCorroboratorMovePct: real)

  predicate ValidJump(cfg: JumpConfig) {
    cfg.minCorroborators >= 1 && 0.0 < cfg.minCorroboratorMovePct <= cfg.maxProviderJumpPct
  }

  predicate Comparable(c: JumpCandidate) {
    c.trailingMedian.Some? && c.trailingMedian.value > 0.0 && c.price > 0.0
  }

  /** How far the price moved against the provider's own trailing median. */
  function Move(c: JumpCandidate): real {
    if Comparable(c) then Abs(c.price / c.trailingMedian.value - 1.0) else 0.0
  }

  function Comparables(cs: seq<JumpCandidate>): seq<JumpCandidate> {
    if cs == [] then []
    else if Comparable(cs[|cs| - 1]) then Comparables(cs[..|cs| - 1]) + [cs[|cs| - 1]]
    else Comparables(cs[..|cs| - 1])
  }

  /** Comparable providers, other than `id`, that moved at least `pct`. */
  function Movers(cs: seq<JumpCandidate>, pct: real, id: string): nat {
    if cs == [] then 0
    else Movers(cs[..|cs| - 1], pct, id) + (if cs[|cs| - 1].providerId != id && Move(cs[|cs| - 1]) >= pct then 1 else 0)
  }

  /** All comparable providers that moved at least `pct`. */
  function AllMovers(cs: seq<JumpCandidate>, pct: real): nat {
    if cs == [] then 0 else AllMovers(cs[..|cs| - 1], pct) + (if Move(cs[|cs| - 1]) >= pct then 1 else 0)
  }

  predicate Excluded(comparable: seq<JumpCandidate>, c: JumpCandidate, cfg: JumpConfig) {
    Move(c) >= cfg.maxProviderJumpPct && Movers(comparable, cfg.minCorroboratorMovePct, c.providerId) < cfg.minCorroborators
  }

  function JumpExclusions(cs: seq<JumpCandidate>, comparable: seq<JumpCandidate>, cfg: JumpConfig): seq<Exclusion> {
    if cs == [] then []
    else
      var c := cs[|cs| - 1];
      var rest := JumpExclusions(cs[..|cs| - 1], comparable, cfg);
      if Excluded(comparable, c, cfg) then rest + [Exclusion(c.providerId, "jump_screen", Some(c.price))] else rest
  }

  function JumpResult(candidates: seq<JumpCandidate>, cfg: JumpConfig): seq<Exclusion> {
    var comparable := Comparables(candidates);
    if |comparable| < cfg.minCorroborators + 1 then [] else JumpExclusions(comparable, comparable, cfg)
  }

  method JumpScreen(candidates: seq<JumpCandidate>, cfg: JumpConfig) returns (exclusions: seq<Exclusion>)
    ensures exclusions == JumpResult(candidates, cfg)
  {
    hide Move;
    var comparable: seq<JumpCandidate> := [];
    for i := 0 to |candidates|
      invariant comparable == Comparables(candidates[..i])
    {
      assert candidates[..i + 1][..i] == candidates[..i];
      if Comparable(candidates[i]) { comparable := comparable + [candidates[i]]; }
    }
    assert candidates[..|candidates|] == candidates;
    exclusions := [];
    if |comparable| < cfg.minCorroborators + 1 { return; }
    for i := 0 to |comparable|
      invariant exclusions == JumpExclusions(comparable[..i], comparable, cfg)
    {
      assert comparable[..i + 1][..i] == comparable[..i];
      var c := comparable[i];
      if Move(c) < cfg.maxProviderJumpPct { continue; }
      var corroborators := CountMovers(comparable, cfg.minCorroboratorMovePct, c.providerId);
      if corroborators < cfg.minCorroborators {
        exclusions := exclusions + [Exclusion(c.providerId, "jump_screen", Some(c.price))];
      }
    }
    assert comparable[..|comparable|] == comparable;
  }

  method CountMovers(comparable: seq<JumpCandidate>, pct: real, id: string) returns (n: nat)
    ensures n == Movers(comparable, pct, id)
  {
    n := 0;
    for j := 0 to |comparable|
      invariant n == Movers(comparable[..j], pct, id)
    {
      assert comparable[..j + 1][..j] == comparable[..j];
      if comparable[j].providerId != id && Move(comparable[j]) >= pct { n := n + 1; }
    }
    assert comparable[..|comparable|] == comparable;
  }

  ghost predicate DistinctIds(cs: seq<JumpCandidate>) {
    forall i, j :: 0 <= i < j < |cs| ==> cs[i].providerId != cs[j].providerId
  }

  /** A provider that moved is corroborated by every mover but itself. */
  lemma {:induction false} MoversOthers(cs: seq<JumpCandidate>, pct: real, id: string)
    requires DistinctIds(cs)
    ensures (forall c :: c in cs ==> c.providerId != id) ==> Movers(cs, pct, id) == AllMovers(cs, pct)
    ensures forall c :: c in cs && c.providerId == id ==>
      AllMovers(cs, pct) == Movers(cs, pct, id) + (if Move(c) >= pct then 1 else 0)
  {
    if cs != [] {
      var front, last := cs[..|cs| - 1], cs[|cs| - 1];
      MoversOthers(front, pct, id);
      hide Move;
      assert cs == front + [last];
      assert forall c :: c in front ==> c.providerId != last.providerId;
      if last.providerId == id {
        assert Movers(front, pct, id) == AllMovers(front, pct);
        forall c | c in cs && c.providerId == id ensures c == last {}
      }
    }
  }

  /** What moving means, multiplied out: off the trailing median by at least that share of it. */
  lemma MoveExactly(c: JumpCandidate, pct: real)
    requires Comparable(c)
    ensures Move(c) >= pct <==> c.price >= Times(1.0 + pct, c.trailingMedian.value) || c.price <= Times(1.0 - pct, c.trailingMedian.value)
  {
    hide Times;
    QuotientOrder(c.price, c.trailingMedian.value, 1.0 + pct);
    QuotientOrder(c.price, c.trailingMedian.value, 1.0 - pct);
  }

  /** The screen judges every jumper alike: the panel moved enough, or it did not. */
  lemma ExcludedIffFewMovers(comparable: seq<JumpCandidate>, c: JumpCandidate, cfg: JumpConfig)
    requires ValidJump(cfg) && DistinctIds(comparable) && c in comparable && Move(c) >= cfg.maxProviderJumpPct
    ensures Excluded(comparable, c, cfg) <==> AllMovers(comparable, cfg.minCorroboratorMovePct) <= cfg.minCorroborators
  {
    hide Move, Movers, AllMovers;
    MoversOthers(comparable, cfg.minCorroboratorMovePct, c.providerId);
  }

  /** The exclusions of every jumper in `cs`. */
  function JumperExclusions(cs: seq<JumpCandidate>, pct: real): seq<Exclusion> {
    if cs == [] then []
    else
      var c := cs[|cs| - 1];
      var rest := JumperExclusions(cs[..|cs| - 1], pct);
      if Move(c) >= pct then rest + [Exclusion(c.providerId, "jump_screen", Some(c.price))] else rest
  }

  lemma {:induction false} JumpersAllOrNone(cs: seq<JumpCandidate>, comparable: seq<JumpCandidate>, cfg: JumpConfig)
    requires ValidJump(cfg) && DistinctIds(comparable) && forall c :: c in cs ==> c in comparable
    ensures JumpExclusions(cs, comparable, cfg) ==
      if AllMovers(comparable, cfg.minCorroboratorMovePct) <= cfg.minCorroborators
      then JumperExclusions(cs, cfg.maxProviderJumpPct) else []
  {
    hide Move, Movers, AllMovers;
    if cs != [] {
      var c := cs[|cs| - 1];
      JumpersAllOrNone(cs[..|cs| - 1], comparable, cfg);
      if Move(c) >= cfg.maxProviderJumpPct { ExcludedIffFewMovers(comparable, c, cfg); }
    }
  }

  lemma {:induction false} JumpersAreMovers(cs: seq<JumpCandidate>, jump: real, pct: real)
    requires pct <= jump
    ensures |JumperExclusions(cs, jump)| <= AllMovers(cs, pct)
  {
    hide Move;
    if cs != [] { JumpersAreMovers(cs[..|cs| - 1], jump, pct); }
  }

  lemma {:induction false} ComparablesWithin(cs: seq<JumpCandidate>)
    requires DistinctIds(cs)
    ensures DistinctIds(Comparables(cs))
    ensures forall c :: c in Comparables(cs) <==> c in cs && Comparable(c)
    ensures |Comparables(cs)| <= |cs|
  {
    if cs != [] {
      var front, last := cs[..|cs| - 1], cs[|cs| - 1];
      ComparablesWithin(front);
      assert cs == front + [last];
      var r := Comparables(front);
      forall i | 0 <= i < |r| ensures r[i].providerId != last.providerId {
        assert r[i] in front;
      }
    }
  }

  /**
   The jump screen removes every jumper or none, at most minCorroborators of
   them, and always leaves a comparable provider standing.
   */
  lemma JumpScreenSpares(candidates: seq<JumpCandidate>, cfg: JumpConfig)
    requires ValidJump(cfg) && DistinctIds(candidates)
    ensures var r := JumpResult(candidates, cfg);
      (r == [] || r == JumperExclusions(Comparables(candidates), cfg.maxProviderJumpPct)) &&
      |r| <= cfg.minCorroborators &&
      (r != [] ==> |r| < |Comparables(candidates)| <= |candidates|)
  {
    hide Comparables, JumpExclusions, JumperExclusions, AllMovers;
    var comparable := Comparables(candidates);
    ComparablesWithin(candidates);
    JumpersAllOrNone(comparable, comparable, cfg);
    JumpersAreMovers(comparable, cfg.maxProviderJumpPct, cfg.minCorroboratorMovePct);
  }
}
