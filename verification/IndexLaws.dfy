/**
 What an index is made of, stated on the providers and the result alone
 (packages/pricing-engine/src/engine.ts): who contributes and with which weight,
 what the figure is when the cap leaves the panel alone, how far one provider can
 move it, and how wide its band must be.
 */
module IndexLaws {
  import opened Wrappers
  import opened RealArithmetic
  import opened OrderStatistics
  import opened Rounding
  import opened Screens
  import opened Gates
  import opened Publication
  import opened Engine
  import Weights
  import WaterFilling
  import Band

  // ------------------------------------------------------------ contributors

  /** The contribution is this provider's own: eligible, priced, and weighed by its kind. */
  ghost predicate StandsFor(c: Contribution, p: ProviderPrice, input: IndexInput) {
    c.providerId == p.providerId && p.providerId in input.roles && input.roles[p.providerId] == SettlementEligible &&
    p.price == Some(c.price) && c.executable == p.executable && c.sampleSize == p.sampleSize &&
    c.weightBeforeCap == (if p.executable then input.config.executableWeight else input.config.rateCardWeight) &&
    c.sigma == (if p.providerId in input.stats then input.stats[p.providerId].sigma else None)
  }

  lemma {:induction false} StagesSelect(ps: seq<ProviderPrice>, roles: map<string, Role>, ids: set<string>)
    ensures forall p :: p in Eligible(ps, roles) ==> p in ps && IsEligible(p, roles)
    ensures forall p :: p in Observed(ps) ==> p in ps && p.price.Some?
    ensures forall p :: p in Without(ps, ids) ==> p in ps
    ensures forall p :: p in Within(ps, ids) ==> p in ps
  {
    hide IsEligible;
    if ps != [] { StagesSelect(ps[..|ps| - 1], roles, ids); }
  }

  lemma KeptAreProviders(input: IndexInput)
    ensures forall p :: p in PanelOf(input).kept ==> p in input.prices && IsEligible(p, input.roles) && p.price.Some?
  {
    hide Eligible, Observed, Without, Within, RoleExclusions, HeldOut, JumpResult, JumpedIds, KeptIds, Kept, Rejected, ScreenMode, Dispersion;
    var panel, eligible := PanelOf(input), Eligible(input.prices, input.roles);
    var early := RoleExclusions(input.prices, input.roles) + HeldOut(eligible)
      + JumpResult(JumpCandidates(panel.observed, input.stats), input.config.jump);
    var mode := ScreenMode(Prices(Candidates(panel.postJump)), input.config.screening);
    StagesSelect(input.prices, input.roles, {});
    StagesSelect(eligible, input.roles, {});
    StagesSelect(panel.observed, input.roles, JumpedIds(early));
    StagesSelect(panel.postJump, input.roles, KeptIds(Kept(Candidates(panel.postJump), mode)));
  }

  /** Every contributor is an eligible, priced provider of the panel, with its own price, kind, samples and sigma, weighed by its kind. */
  lemma ContributorsAreProviders(input: IndexInput, wobble: real)
    requires input.config.weightCap < 1.0
    ensures var cs := IndexOf(input, wobble).contributors;
      forall i :: 0 <= i < |cs| ==> exists p :: p in input.prices && StandsFor(cs[i], p, input)
  {
    ContributorsOf(input, wobble);
    KeptAreProviders(input);
    hide PanelOf, IndexOf, CappedFor;
    var kept, cs := PanelOf(input).kept, IndexOf(input, wobble).contributors;
    forall i | 0 <= i < |cs| ensures exists p :: p in input.prices && StandsFor(cs[i], p, input) {
      assert kept[i] in kept;
      assert StandsFor(cs[i], kept[i], input);
    }
  }

  // ---------------------------------------------------------- the plain mean

  /** How many contributors are of one kind, and the sum of their prices. */
  function CountOf(cs: seq<Contribution>, executable: bool): nat {
    if cs == [] then 0
    else CountOf(cs[..|cs| - 1], executable) + (if cs[|cs| - 1].executable == executable then 1 else 0)
  }

  function PriceSumOf(cs: seq<Contribution>, executable: bool): real {
    if cs == [] then 0.0
    else PriceSumOf(cs[..|cs| - 1], executable) + (if cs[|cs| - 1].executable == executable then cs[|cs| - 1].price else 0.0)
  }

  /** The panel's weight before the cap, by kind. */
  function NamedTotal(cs: seq<Contribution>, c: EngineConfig): real {
    Times(c.executableWeight, CountOf(cs, true) as real) + Times(c.rateCardWeight, CountOf(cs, false) as real)
  }

  ghost predicate WeighedByKind(cs: seq<Contribution>, c: EngineConfig) {
    forall i :: 0 <= i < |cs| ==> cs[i].weightBeforeCap == if cs[i].executable then c.executableWeight else c.rateCardWeight
  }

  lemma {:induction false} KindSums(cs: seq<Contribution>, c: EngineConfig, w: seq<real>)
    requires WeighedByKind(cs, c) && |w| == |cs| && forall i :: 0 <= i < |cs| ==> w[i] == cs[i].weightBeforeCap
    ensures Weights.Sum(w) == NamedTotal(cs, c)
    ensures (forall i :: 0 <= i < |cs| ==> cs[i].weightAfterCap == cs[i].weightBeforeCap) ==>
      PriceDotWeight(cs) == Times(c.executableWeight, PriceSumOf(cs, true)) + Times(c.rateCardWeight, PriceSumOf(cs, false))
  {
    hide Times;
    TimesUnit(c.executableWeight);
    TimesUnit(c.rateCardWeight);
    if cs != [] {
      var front, last := cs[..|cs| - 1], cs[|cs| - 1];
      KindSums(front, c, w[..|w| - 1]);
      SumFromBack(w);
      var weight := if last.executable then c.executableWeight else c.rateCardWeight;
      TimesAdd(weight, CountOf(front, last.executable) as real, 1.0);
      TimesUnit(weight);
      TimesAdd(weight, PriceSumOf(front, last.executable), last.price);
      TimesAssociates(weight, last.price, 0.0);
    }
  }

  lemma {:induction false} CountsMember(cs: seq<Contribution>, i: nat)
    requires i < |cs|
    ensures CountOf(cs, cs[i].executable) > 0
  {
    if i < |cs| - 1 { CountsMember(cs[..|cs| - 1], i); }
  }

  lemma UncappedWeights(ps: seq<ProviderPrice>, c: EngineConfig, stats: map<string, Stat>)
    requires ValidConfig(c) && ps != []
    requires var cs := Contributors(ps, c, stats);
      (CountOf(cs, true) > 0 ==> c.executableWeight <= Times(c.weightCap, NamedTotal(cs, c))) &&
      (CountOf(cs, false) > 0 ==> c.rateCardWeight <= Times(c.weightCap, NamedTotal(cs, c)))
    ensures var cs := Contributors(ps, c, stats);
      WeighedByKind(cs, c) && (forall i :: 0 <= i < |cs| ==> cs[i].weightAfterCap == cs[i].weightBeforeCap) &&
      NamedTotal(cs, c) > 0.0 && TotalAfter(cs) == NamedTotal(cs, c) &&
      PriceDotWeight(cs) == Times(c.executableWeight, PriceSumOf(cs, true)) + Times(c.rateCardWeight, PriceSumOf(cs, false))
  {
    hide NamedTotal, Times, TotalAfter, PriceDotWeight, PriceSumOf, CountOf, Weights.Sum, Weights.CappedWeights, Weights.Top;
    var cs, base := Contributors(ps, c, stats), Weights.BaseWeights(Items(ps, c));
    BaseWeightsPositive(ps, c);
    Weights.PositiveTotal(base);
    KindSums(cs, c, base);
    forall i | 0 <= i < |base| ensures base[i] <= Times(c.weightCap, Weights.Sum(base)) { CountsMember(cs, i); }
    Weights.WithinCapUntouched(base, c.weightCap, c.eps, c.guard);
    TotalAfterIsSum(cs, base);
  }

  /**
   When no kind's weight exceeds the cap, the cap changes nothing: every executable
   contributor counts with the executable weight and every other with the rate-card
   weight, which is never more, and the index is the mean in those two weights.
   */
  lemma UncappedMean(input: IndexInput, wobble: real)
    requires ValidConfig(input.config) && IndexOf(input, wobble).contributors != []
    requires var cs, c := IndexOf(input, wobble).contributors, input.config;
      (CountOf(cs, true) > 0 ==> c.executableWeight <= Times(c.weightCap, NamedTotal(cs, c))) &&
      (CountOf(cs, false) > 0 ==> c.rateCardWeight <= Times(c.weightCap, NamedTotal(cs, c)))
    ensures var cs, c := IndexOf(input, wobble).contributors, input.config;
      (forall i :: 0 <= i < |cs| ==> cs[i].weightAfterCap == if cs[i].executable then c.executableWeight else c.rateCardWeight) &&
      c.rateCardWeight <= c.executableWeight && NamedTotal(cs, c) > 0.0 &&
      WeightedPrice(cs) == Some((Times(c.executableWeight, PriceSumOf(cs, true)) + Times(c.rateCardWeight, PriceSumOf(cs, false))) / NamedTotal(cs, c))
  {
    hide IndexOf, PanelOf, Contributors, NamedTotal, Times, PriceDotWeight, TotalAfter, PriceSumOf, CountOf;
    ContributorsOf(input, wobble);
    UncappedWeights(PanelOf(input).kept, input.config, input.stats);
  }

  // ---------------------------------------------------------- one's influence

  lemma {:induction false} DotMoves(cs: seq<Contribution>, i: nat, q: real)
    requires i < |cs|
    ensures TotalAfter(cs[i := cs[i].(price := q)]) == TotalAfter(cs)
    ensures PriceDotWeight(cs[i := cs[i].(price := q)]) == PriceDotWeight(cs) + Times(q - cs[i].price, cs[i].weightAfterCap)
  {
    hide Times;
    var moved, k := cs[i := cs[i].(price := q)], |cs| - 1;
    TimesSub(cs[i].weightAfterCap, q, cs[i].price);
    if i == k {
      assert moved[..k] == cs[..k];
    } else {
      assert moved[..k] == cs[..k][i := cs[i].(price := q)];
      DotMoves(cs[..k], i, q);
    }
  }

  /** A provider moves the mean by its own move times its share of the capped weight, and by nothing else. */
  lemma InfluenceIsShare(cs: seq<Contribution>, i: nat, q: real)
    requires i < |cs| && WeightedPrice(cs).Some?
    ensures WeightedPrice(cs[i := cs[i].(price := q)]).Some?
    ensures Times(WeightedPrice(cs[i := cs[i].(price := q)]).value - WeightedPrice(cs).value, TotalAfter(cs))
      == Times(q - cs[i].price, cs[i].weightAfterCap)
  {
    hide Times, TotalAfter, PriceDotWeight;
    DotMoves(cs, i, q);
    Quotient(PriceDotWeight(cs), TotalAfter(cs));
    Quotient(PriceDotWeight(cs[i := cs[i].(price := q)]), TotalAfter(cs));
    TimesSub(TotalAfter(cs), WeightedPrice(cs[i := cs[i].(price := q)]).value, WeightedPrice(cs).value);
  }

  /**
   What the cap is for: on a panel it can be met on, a contributor's misprint moves
   the index by no more than the cap, the loop's gap and the guard let through.
   */
  lemma InfluenceCapped(ps: seq<ProviderPrice>, c: EngineConfig, stats: map<string, Stat>, i: nat, q: real, total: real)
    requires ValidConfig(c) && i < |ps|
    requires var base := Weights.BaseWeights(Items(ps, c));
      WaterFilling.Feasible(base, c.weightCap) && WaterFilling.Solves(base, c.weightCap, total)
    ensures var base, cs := Weights.BaseWeights(Items(ps, c)), Contributors(ps, c, stats);
      Times(WaterFilling.CutCount(base, Times(c.weightCap, total)) as real, c.weightCap) < 1.0 &&
      WeightedPrice(cs).Some? && WeightedPrice(cs[i := cs[i].(price := q)]).Some? &&
      var share := c.weightCap + WaterFilling.LoopGap(base, c.weightCap, c.eps, Weights.MAX_PASSES, total) / total + c.guard;
      Abs(WeightedPrice(cs[i := cs[i].(price := q)]).value - WeightedPrice(cs).value) <= Times(Abs(q - cs[i].price), share)
  {
    ContributorWeights(ps, c, stats);
    var base, cs := Weights.BaseWeights(Items(ps, c)), Contributors(ps, c, stats);
    WaterFilling.CapHonoured(base, c.weightCap, c.eps, c.guard, total);
    TotalAfterIsSum(cs, CappedFor(ps, c));
    Weights.MaxIndexIsFirstMax(CappedFor(ps, c));
    hide Times, TotalAfter, PriceDotWeight, Weights.CappedWeights, Weights.Sum, Weights.MaxIndex, WaterFilling.LoopGap, WaterFilling.CutCount, WaterFilling.Solves;
    InfluenceIsShare(cs, i, q);
    var share := c.weightCap + WaterFilling.LoopGap(base, c.weightCap, c.eps, Weights.MAX_PASSES, total) / total + c.guard;
    QuotientOrder(Weights.Top(CappedFor(ps, c)), TotalAfter(cs), share);
    ShareBoundsMove(WeightedPrice(cs[i := cs[i].(price := q)]).value - WeightedPrice(cs).value, TotalAfter(cs), q - cs[i].price, cs[i].weightAfterCap, share);
  }

  lemma ShareBoundsMove(moved: real, total: real, move: real, weight: real, share: real)
    requires total > 0.0 && weight >= 0.0 && Times(moved, total) == Times(move, weight) && weight <= Times(share, total)
    ensures Abs(moved) <= Times(Abs(move), share)
  {
    hide Times;
    var bound := Times(Abs(move), share);
    TimesOrder(weight, move, Abs(move));
    TimesOrder(weight, 0.0 - Abs(move), move);
    TimesSub(weight, 0.0, Abs(move));
    TimesUnit(weight);
    TimesOrder(Abs(move), weight, Times(share, total));
    TimesAssociates(Abs(move), share, total);
    TimesSub(total, 0.0, bound);
    TimesUnit(total);
    if moved > bound { TimesStrict(total, bound, moved); }
    if moved < 0.0 - bound { TimesStrict(total, moved, 0.0 - bound); }
  }

  // --------------------------------------------------------- the jump screen

  /** The provider has a positive price and a positive trailing median to compare it with. */
  ghost predicate HasTrail(p: ProviderPrice, stats: map<string, Stat>) {
    p.price.Some? && p.price.value > 0.0 && p.providerId in stats &&
    stats[p.providerId].trailingMedian.Some? && stats[p.providerId].trailingMedian.value > 0.0
  }

  /** Its price is off its own trailing median by at least `pct` of it. */
  ghost predicate Jumped(p: ProviderPrice, stats: map<string, Stat>, pct: real) {
    HasTrail(p, stats) &&
    (p.price.value >= Times(1.0 + pct, stats[p.providerId].trailingMedian.value) ||
     p.price.value <= Times(1.0 - pct, stats[p.providerId].trailingMedian.value))
  }

  ghost function TrailCount(ps: seq<ProviderPrice>, stats: map<string, Stat>): nat {
    if ps == [] then 0 else TrailCount(ps[..|ps| - 1], stats) + (if HasTrail(ps[|ps| - 1], stats) then 1 else 0)
  }

  ghost function JumpedCount(ps: seq<ProviderPrice>, stats: map<string, Stat>, pct: real): nat {
    if ps == [] then 0 else JumpedCount(ps[..|ps| - 1], stats, pct) + (if Jumped(ps[|ps| - 1], stats, pct) then 1 else 0)
  }

  function AsCandidate(p: ProviderPrice, stats: map<string, Stat>): JumpCandidate {
    JumpCandidates([p], stats)[0]
  }

  lemma CandidateJumps(p: ProviderPrice, stats: map<string, Stat>, pct: real)
    ensures AsCandidate(p, stats).providerId == p.providerId
    ensures Comparable(AsCandidate(p, stats)) <==> HasTrail(p, stats)
    ensures HasTrail(p, stats) ==> (Move(AsCandidate(p, stats)) >= pct <==> Jumped(p, stats, pct))
  {
    hide Times, Move;
    if HasTrail(p, stats) { MoveExactly(AsCandidate(p, stats), pct); }
  }

  lemma CandidatesAppend(ps: seq<ProviderPrice>, p: ProviderPrice, stats: map<string, Stat>)
    ensures JumpCandidates(ps + [p], stats) == JumpCandidates(ps, stats) + [AsCandidate(p, stats)]
  {
  }

  lemma {:induction false} PanelMovers(ps: seq<ProviderPrice>, stats: map<string, Stat>, pct: real)
    ensures |Comparables(JumpCandidates(ps, stats))| == TrailCount(ps, stats)
    ensures AllMovers(Comparables(JumpCandidates(ps, stats)), pct) == JumpedCount(ps, stats, pct)
  {
    hide JumpCandidates, Comparable, Move, HasTrail, Jumped, AsCandidate;
    if ps == [] {
      assert JumpCandidates(ps, stats) == [];
    } else {
      var front, p := ps[..|ps| - 1], ps[|ps| - 1];
      PanelMovers(front, stats, pct);
      assert ps == front + [p];
      CandidatesAppend(front, p, stats);
      CandidateJumps(p, stats, pct);
      OnlyTrailedJump(p, stats, pct);
      var cs, c := JumpCandidates(front, stats), AsCandidate(p, stats);
      assert (cs + [c])[..|cs|] == cs;
      assert Comparable(c) ==> (Comparables(cs) + [c])[..|Comparables(cs)|] == Comparables(cs);
    }
  }

  lemma OnlyTrailedJump(p: ProviderPrice, stats: map<string, Stat>, pct: real)
    ensures Jumped(p, stats, pct) ==> HasTrail(p, stats)
  {
  }

  lemma {:induction false} JumperMembers(cs: seq<JumpCandidate>, pct: real, id: string)
    ensures (exists e :: e in JumperExclusions(cs, pct) && e.providerId == id) <==>
      exists c :: c in cs && c.providerId == id && Move(c) >= pct
  {
    hide Move;
    if cs != [] {
      JumperMembers(cs[..|cs| - 1], pct, id);
      assert cs == cs[..|cs| - 1] + [cs[|cs| - 1]];
    }
  }

  lemma {:induction false} WithoutMembers(ps: seq<ProviderPrice>, ids: set<string>, p: ProviderPrice)
    ensures p in Without(ps, ids) <==> p in ps && p.providerId !in ids
  {
    if ps != [] {
      WithoutMembers(ps[..|ps| - 1], ids, p);
      assert ps == ps[..|ps| - 1] + [ps[|ps| - 1]];
    }
  }

  /** Who jumped, among the candidates the screen builds, is who jumped among the providers. */
  lemma JumperIsProvider(ps: seq<ProviderPrice>, stats: map<string, Stat>, pct: real, p: ProviderPrice)
    requires Distinct(Ids(ps)) && p in ps
    ensures (exists c :: c in Comparables(JumpCandidates(ps, stats)) && c.providerId == p.providerId && Move(c) >= pct)
      <==> Jumped(p, stats, pct)
  {
    var cs := JumpCandidates(ps, stats);
    DistinctJumpIds(ps, stats);
    ComparablesWithin(cs);
    CandidateJumps(p, stats, pct);
    hide Comparable, Move, Jumped, HasTrail, Comparables, Times;
    OnlyTrailedJump(p, stats, pct);
    var i :| 0 <= i < |ps| && ps[i] == p;
    assert cs[i] == AsCandidate(p, stats) && cs[i] in cs;
    forall c | c in cs && c.providerId == p.providerId ensures c == cs[i] {
      var j :| 0 <= j < |cs| && cs[j] == c;
      assert j == i;
    }
  }

  /**
   The jump screen on the providers themselves: an observed provider is screened out
   exactly when it jumped against its own trailing median, more providers than
   minCorroborators can be compared at all, and no more than that many moved along.
   */
  lemma JumpScreenedExactly(input: IndexInput, p: ProviderPrice)
    requires ValidConfig(input.config) && Distinct(Ids(input.prices)) && p in PanelOf(input).observed
    ensures var observed, jump := PanelOf(input).observed, input.config.jump;
      p !in PanelOf(input).postJump <==>
        Jumped(p, input.stats, jump.maxProviderJumpPct) && TrailCount(observed, input.stats) > jump.minCorroborators &&
        JumpedCount(observed, input.stats, jump.minCorroboratorMovePct) <= jump.minCorroborators
  {
    hide Eligible, Observed, RoleExclusions, HeldOut, Without, Within, Kept, Rejected, ScreenMode, Dispersion, JumpedIds, KeptIds;
    hide Comparables, JumpExclusions, JumperExclusions, AllMovers, JumpCandidates, Jumped, TrailCount, JumpedCount, Ids, Distinct, Move;
    var jump := input.config.jump;
    var eligible := Eligible(input.prices, input.roles);
    var observed := Observed(eligible);
    var candidates := JumpCandidates(observed, input.stats);
    var comparable := Comparables(candidates);
    var other, jumped := RoleExclusions(input.prices, input.roles) + HeldOut(eligible), JumpResult(candidates, jump);
    ObservedDistinct(input.prices, input.roles);
    DistinctJumpIds(observed, input.stats);
    ComparablesWithin(candidates);
    JumpersAllOrNone(comparable, comparable, jump);
    PanelMovers(observed, input.stats, jump.minCorroboratorMovePct);
    JumperMembers(comparable, jump.maxProviderJumpPct, p.providerId);
    JumperIsProvider(observed, input.stats, jump.maxProviderJumpPct, p);
    JumpResultIds(candidates, jump);
    OtherReasons(input.prices, input.roles);
    OtherReasons(eligible, input.roles);
    JumpedById(other, jumped, p.providerId);
    WithoutMembers(observed, JumpedIds(other + jumped), p);
  }

  lemma JumpedById(other: seq<Exclusion>, jumped: seq<Exclusion>, id: string)
    requires forall e :: e in other ==> e.reason != "jump_screen"
    requires forall e :: e in jumped ==> e.reason == "jump_screen"
    ensures id in JumpedIds(other + jumped) <==> exists e :: e in jumped && e.providerId == id
  {
    JumpedAreExcluded(other, jumped);
    ExclusionIdMembers(jumped);
  }

  // ---------------------------------------------------------- the MAD screen

  /**
   The MAD screen on the providers themselves: of the panel the jump screen leaves,
   those are kept whose price lies within sigmaLimit * madScale spreads of the
   median, or within the ratio band of it when there is no spread.
   */
  lemma MadScreenedExactly(input: IndexInput, p: ProviderPrice)
    requires ValidConfig(input.config) && Distinct(Ids(input.prices)) && p in PanelOf(input).postJump
    ensures var prices, cfg := PanelPrices(PanelOf(input).postJump), input.config.screening;
      Median(prices).Some? && Mad(prices, Median(prices).value).Some? &&
      var med := Median(prices).value;
      var spread := Mad(prices, med).value;
      p in PanelOf(input).kept <==>
        (med > 0.0 && |prices| >= cfg.minProvidersForScreen ==>
          if spread == 0.0 then med <= Times(cfg.madZeroRatioBand, PriceOf(p)) && PriceOf(p) <= Times(cfg.madZeroRatioBand, med)
          else Abs(PriceOf(p) - med) <= Times(Times(cfg.sigmaLimit, cfg.madScale), spread))
  {
    JumpStageSpares(input);
    hide Eligible, Observed, RoleExclusions, HeldOut, JumpResult, JumpedIds, Without, Within, Kept, Rejected, Dispersion, ScreenMode;
    hide Median, Mad, Times, Distinct, Ids;
    var post, cfg := PanelOf(input).postJump, input.config.screening;
    var cs := Candidates(post);
    var mode := ScreenMode(Prices(cs), cfg);
    var c := Candidate(p.providerId, PriceOf(p));
    var i :| 0 <= i < |post| && post[i] == p;
    assert cs[i] == c && c in cs;
    KeptExactly(cs, cfg, c);
    WithinIds(post, KeptIds(Kept(cs, mode)), p);
    if p in PanelOf(input).kept { KeptPricesSurvive(post, mode, p); }
  }

  lemma WithinIds(ps: seq<ProviderPrice>, ids: set<string>, p: ProviderPrice)
    requires p in ps
    ensures p in Within(ps, ids) <==> p.providerId in ids
  {
    WithinMembers(ps, ids);
    if p.providerId in ids { WithinHolds(ps, ids, p); }
  }

  lemma {:induction false} WithinHolds(ps: seq<ProviderPrice>, ids: set<string>, p: ProviderPrice)
    requires p in ps && p.providerId in ids
    ensures p in Within(ps, ids)
  {
    var last := ps[|ps| - 1];
    assert ps == ps[..|ps| - 1] + [last];
    if p != last { WithinHolds(ps[..|ps| - 1], ids, p); }
  }

  // ------------------------------------------------------------------ the band

  lemma VotesOf(cs: seq<Contribution>, floor: real, v: Band.Vote)
    requires v in Votes(cs, floor)
    ensures exists i :: 0 <= i < |cs| && v.price == cs[i].price && v.weight == cs[i].weightAfterCap && v.sigma >= floor
  {
    var i :| 0 <= i < |cs| && Votes(cs, floor)[i] == v;
  }

  /**
   A published band is never narrower than the sigma floor makes it: with every
   contributor's price in [lo, hi] it reaches down to hi * (1 - floor) and up to
   lo * (1 + floor).
   */
  lemma BandSpansSigmaFloor(input: IndexInput, wobble: real, lo: real, hi: real)
    requires ValidConfig(input.config) && 0.0 <= input.config.voteSigmaFloor <= 1.0 && 0.0 <= lo
    requires var cs := IndexOf(input, wobble).contributors; forall i :: 0 <= i < |cs| ==> lo <= cs[i].price <= hi
    requires IndexOf(input, wobble).confidenceLow.Some?
    ensures IndexOf(input, wobble).confidenceLow.value <= Round4(Times(hi, 1.0 - input.config.voteSigmaFloor))
    ensures IndexOf(input, wobble).confidenceHigh.Some?
    ensures IndexOf(input, wobble).confidenceHigh.value >= Round4(Times(lo, 1.0 + input.config.voteSigmaFloor))
  {
    hide PanelOf, Contributors, Anchor, Band.BandOf, GatesOf, AllPassed, PublishOf, Round4, Times;
    ContributorWeights(PanelOf(input).kept, input.config, input.stats);
    var cs, floor := IndexOf(input, wobble).contributors, input.config.voteSigmaFloor;
    var votes := Votes(cs, floor);
    forall v | v in votes ensures v.weight >= 0.0 && v.sigma >= floor && lo <= v.price <= hi { VotesOf(cs, floor, v); }
    hide Votes;
    Band.BandSpansFloor(votes, floor, lo, hi);
  }

  lemma SoleVotes(cs: seq<Contribution>, floor: real)
    requires |cs| == 1
    ensures Votes(cs, floor) == [Band.Vote(cs[0].providerId, cs[0].price,
      if cs[0].sigma.Some? && cs[0].sigma.value > floor then cs[0].sigma.value else if cs[0].sigma.None? && floor < 0.0 then 0.0 else floor,
      cs[0].weightAfterCap)]
  {
  }

  /** One contributor alone: the band is its price less and plus its own sigma, or the floor if that is larger or unknown. */
  lemma SoleContributorBand(input: IndexInput, wobble: real)
    requires ValidConfig(input.config) && input.config.voteSigmaFloor >= 0.0
    requires |IndexOf(input, wobble).contributors| == 1 && IndexOf(input, wobble).contributors[0].price >= 0.0
    requires IndexOf(input, wobble).confidenceLow.Some?
    ensures var r := IndexOf(input, wobble);
      var p, s := r.contributors[0].price, r.contributors[0].sigma;
      var spread := Times(p, if s.Some? && s.value > input.config.voteSigmaFloor then s.value else input.config.voteSigmaFloor);
      r.confidenceLow == Some(Round4(p - spread)) && r.confidenceHigh == Some(Round4(p + spread))
  {
    hide PanelOf, Contributors, Anchor, Band.BandOf, GatesOf, AllPassed, PublishOf, Round4, Times, TotalAfter;
    ContributorWeights(PanelOf(input).kept, input.config, input.stats);
    var cs := IndexOf(input, wobble).contributors;
    SoleTotal(cs);
    SoleVotes(cs, input.config.voteSigmaFloor);
    var v := Votes(cs, input.config.voteSigmaFloor)[0];
    hide Votes;
    Band.SoleVoteBand(v);
  }

  lemma SoleTotal(cs: seq<Contribution>)
    requires |cs| == 1
    ensures TotalAfter(cs) == cs[0].weightAfterCap
  {
    assert cs[..0] == [];
  }

  lemma {:induction false} VotesWeigh(cs: seq<Contribution>, floor: real)
    ensures Band.VoteWeight(Votes(cs, floor)) == TotalAfter(cs)
  {
    if cs != [] {
      VotesWeigh(cs[..|cs| - 1], floor);
      assert Votes(cs, floor)[..|cs| - 1] == Votes(cs[..|cs| - 1], floor);
    }
  }

  // ------------------------------------------------------------- the receipt

  /** With a figure comes a band, and without one no band: both need weight. */
  lemma BandWithFigure(ps: seq<ProviderPrice>, c: EngineConfig, stats: map<string, Stat>)
    requires ValidConfig(c)
    ensures var cs := Contributors(ps, c, stats);
      Anchor(cs).Some? ==> Band.BandOf(Votes(cs, c.voteSigmaFloor)).Some?
  {
    ContributorWeights(ps, c, stats);
    hide Contributors, Band.BandOf, Round4, TotalAfter, PriceDotWeight, Votes, Band.VoteWeight;
    var cs := Contributors(ps, c, stats);
    VotesWeigh(cs, c.voteSigmaFloor);
    NonNegativeWeights(cs, c.voteSigmaFloor);
    Band.BandExists(Votes(cs, c.voteSigmaFloor));
  }

  /**
   A band is published exactly with a fresh figure, and where the figure came from:
   the prior exactly when one is carried, which keeps the rejected figure beside it,
   and nowhere exactly when there is no price.
   */
  lemma ProvenanceExactly(input: IndexInput, wobble: real)
    requires ValidConfig(input.config)
    ensures var r := IndexOf(input, wobble);
      (r.confidenceLow.Some? <==> r.published.status.Healthy? || r.published.status.Degraded?) &&
      (r.confidenceHigh.Some? <==> r.confidenceLow.Some?) &&
      (r.priceSource == FromPrior <==> r.published.carriedPrior) &&
      (r.priceSource == NoSource <==> r.published.price.None?) &&
      r.carriedAnchor == (if r.published.carriedPrior then Anchor(r.contributors) else None)
  {
    hide PanelOf, Contributors, Band.BandOf, GatesOf, AllPassed, Anchor, Votes, PublishOf;
    var cs := Contributors(PanelOf(input).kept, input.config, input.stats);
    BandWithFigure(PanelOf(input).kept, input.config, input.stats);
    var gates := GatesOf(cs, input.stats, input.now, input.config.gates, PanelOf(input).dispersion, input.config.dispersionMax);
    PublishedSource(Computed(Anchor(cs), AllPassed(gates), PanelOf(input).dispersion, |cs|), input.prior, input.now, input.config.publish, wobble);
  }

  /** How the published status, price and prior go together. */
  lemma PublishedSource(c: Computed, prior: Option<Prior>, now: int, cfg: PublishConfig, wobble: real)
    ensures var p := PublishOf(c, prior, now, cfg, wobble);
      (p.priorCandidateId.Some? <==> p.carriedPrior) && (p.price.None? <==> !p.carriedPrior && c.anchor.None?) &&
      (p.status.Healthy? || p.status.Degraded? <==> !p.status.Withheld? && !p.carriedPrior) &&
      (p.status.Healthy? || p.status.Degraded? ==> c.anchor.Some?)
  {
    hide Times, Round4, Offset;
  }

  lemma NonNegativeWeights(cs: seq<Contribution>, floor: real)
    requires forall i :: 0 <= i < |cs| ==> cs[i].weightAfterCap >= 0.0
    ensures Band.NonNegativeVotes(Votes(cs, floor))
  {
  }

  // --------------------------------------------------------- the dispersion

  lemma {:induction false} SameSurvivors(ps: seq<ProviderPrice>, ids: set<string>, mode: Mode)
    requires forall p :: p in ps ==> (p.providerId in ids <==> Keeps(mode, PriceOf(p)))
    ensures PanelPrices(Within(ps, ids)) == Prices(Kept(Candidates(ps), mode))
  {
    hide Keeps, PriceOf;
    if ps != [] {
      var front, p := ps[..|ps| - 1], ps[|ps| - 1];
      assert p in ps && forall q :: q in front ==> q in ps;
      SameSurvivors(front, ids, mode);
      PanelPricesAppend(Within(front, ids), p);
      var cs := Candidates(ps);
      assert cs[..|cs| - 1] == Candidates(front);
      PricesAppend(Kept(Candidates(front), mode), cs[|cs| - 1]);
    }
  }

  lemma PricesAppend(cs: seq<Candidate>, c: Candidate)
    ensures Prices(cs + [c]) == Prices(cs) + [c.price]
  {
  }

  /** The index's dispersion is that of the prices it keeps, except that a panel without spread, or without survivors, has none. */
  lemma IndexDispersion(input: IndexInput, wobble: real)
    requires ValidConfig(input.config) && Distinct(Ids(input.prices))
    ensures var post, kept, cfg := PanelPrices(PanelOf(input).postJump), PanelPrices(PanelOf(input).kept), input.config.screening;
      var med := Median(post);
      IndexOf(input, wobble).dispersion ==
        if kept == [] || (med.value > 0.0 && |post| >= cfg.minProvidersForScreen && Mad(post, med.value) == Some(0.0)) then 0.0
        else Dispersion(kept, cfg.madScale)
  {
    JumpStageSpares(input);
    hide Eligible, Observed, RoleExclusions, HeldOut, JumpResult, JumpedIds, Without, Dispersion, ScreenMode, Median, Mad, Distinct, Ids;
    var post, cfg := PanelOf(input).postJump, input.config.screening;
    var cs := Candidates(post);
    var mode := ScreenMode(Prices(cs), cfg);
    var ids := KeptIds(Kept(cs, mode));
    forall p | p in post ensures p.providerId in ids <==> Keeps(mode, PriceOf(p)) {
      var i :| 0 <= i < |post| && post[i] == p;
      assert cs[i] == Candidate(p.providerId, PriceOf(p)) && cs[i] in cs;
      KeptAreKept(cs, mode);
      if p.providerId in ids {
        var c :| c in Kept(cs, mode) && c.providerId == p.providerId;
        var j :| 0 <= j < |cs| && cs[j] == c;
        UniqueById(post, post[j], p);
      }
    }
    SameSurvivors(post, ids, mode);
    hide Kept, Within, Keeps, KeptIds, PriceOf;
    BandModeExactly(Prices(cs), cfg);
  }

  /** The ratio band applies exactly to an armed panel without spread. */
  lemma BandModeExactly(prices: seq<real>, cfg: ScreeningConfig)
    ensures ScreenMode(prices, cfg).RatioBand? <==>
      Median(prices).Some? && Median(prices).value > 0.0 && |prices| >= cfg.minProvidersForScreen && Mad(prices, Median(prices).value) == Some(0.0)
  {
    hide Median, Mad;
    if Median(prices).Some? { MadExists(prices, Median(prices).value); }
  }
}
