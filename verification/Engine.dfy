/**
 The index pipeline (packages/pricing-engine/src/engine.ts, computeIndex):
 eligibility, jump screen, MAD screen, capped weights, weighted mean, band, gates
 and publication, composed from the other pricing modules.
 */
module Engine {
  import opened Wrappers
  import opened RealArithmetic
  import opened OrderStatistics
  import opened Rounding
  import opened Screens
  import opened Sequences
  import opened Publication
  import opened Gates
  import Weights
  import Band

  datatype Role = Collected | SettlementEligible | WatchdogOnly | NotUsed
  datatype ProviderPrice = ProviderPrice(providerId: string, price: Option<real>, executable: bool, sampleSize: nat)

  /** The panel's effective configuration; `publish.fullQuorum` is the global min_providers. */
  datatype EngineConfig = EngineConfig(
    screening: ScreeningConfig, jump: JumpConfig, executableWeight: real, rateCardWeight: real,
    weightCap: real, eps: real, guard: real, voteSigmaFloor: real, dispersionMax: real,
    gates: GatesConfig, publish: PublishConfig)

  datatype IndexInput = IndexInput(
    prices: seq<ProviderPrice>, roles: map<string, Role>, stats: map<string, Stat>,
    prior: Option<Prior>, now: int, config: EngineConfig)

  datatype PriceSource = FromPrior | FromComputation | NoSource

  datatype IndexResult = IndexResult(
    published: Published, confidenceLow: Option<real>, confidenceHigh: Option<real>, dispersion: real, gates: seq<Gate>,
    contributors: seq<Contribution>, exclusions: seq<Exclusion>, providersObserved: nat,
    priceSource: PriceSource, carriedAnchor: Option<real>)

  /** The configuration ranges the methodology validator enforces. */
  predicate ValidConfig(c: EngineConfig) {
    ValidScreening(c.screening) && ValidJump(c.jump) && 0.0 < c.rateCardWeight <= c.executableWeight &&
    0.0 < c.weightCap < 1.0 && c.eps >= 0.0 && c.guard >= 0.0
  }

  // ------------------------------------------------------------- eligibility

  predicate IsEligible(p: ProviderPrice, roles: map<string, Role>) {
    p.providerId in roles && roles[p.providerId] == SettlementEligible
  }

  function Eligible(ps: seq<ProviderPrice>, roles: map<string, Role>): seq<ProviderPrice> {
    if ps == [] then []
    else if IsEligible(ps[|ps| - 1], roles) then Eligible(ps[..|ps| - 1], roles) + [ps[|ps| - 1]]
    else Eligible(ps[..|ps| - 1], roles)
  }

  function RoleExclusions(ps: seq<ProviderPrice>, roles: map<string, Role>): seq<Exclusion> {
    if ps == [] then []
    else
      var p := ps[|ps| - 1];
      var rest := RoleExclusions(ps[..|ps| - 1], roles);
      if !IsEligible(p, roles) && p.price.Some? then rest + [Exclusion(p.providerId, "role_not_settlement_eligible", p.price)] else rest
  }

  function Observed(ps: seq<ProviderPrice>): seq<ProviderPrice> {
    if ps == [] then []
    else if ps[|ps| - 1].price.Some? then Observed(ps[..|ps| - 1]) + [ps[|ps| - 1]]
    else Observed(ps[..|ps| - 1])
  }

  function HeldOut(ps: seq<ProviderPrice>): seq<Exclusion> {
    if ps == [] then []
    else
      var p := ps[|ps| - 1];
      if p.price.None? then HeldOut(ps[..|ps| - 1]) + [Exclusion(p.providerId, "provider_held_out", None)]
      else HeldOut(ps[..|ps| - 1])
  }

  method ExcludeIneligible(ps: seq<ProviderPrice>, roles: map<string, Role>)
    returns (eligible: seq<ProviderPrice>, exclusions: seq<Exclusion>)
    ensures eligible == Eligible(ps, roles) && exclusions == RoleExclusions(ps, roles)
  {
    eligible, exclusions := [], [];
    for i := 0 to |ps|
      invariant eligible == Eligible(ps[..i], roles) && exclusions == RoleExclusions(ps[..i], roles)
    {
      assert ps[..i + 1][..i] == ps[..i];
      var p := ps[i];
      if IsEligible(p, roles) {
        eligible := eligible + [p];
      } else if p.price.Some? {
        exclusions := exclusions + [Exclusion(p.providerId, "role_not_settlement_eligible", p.price)];
      }
    }
    assert ps[..|ps|] == ps;
  }

  method ExcludeHeldOut(ps: seq<ProviderPrice>) returns (observed: seq<ProviderPrice>, exclusions: seq<Exclusion>)
    ensures observed == Observed(ps) && exclusions == HeldOut(ps)
  {
    observed, exclusions := [], [];
    for i := 0 to |ps|
      invariant observed == Observed(ps[..i]) && exclusions == HeldOut(ps[..i])
    {
      assert ps[..i + 1][..i] == ps[..i];
      var p := ps[i];
      if p.price.Some? {
        observed := observed + [p];
      } else {
        exclusions := exclusions + [Exclusion(p.providerId, "provider_held_out", None)];
      }
    }
    assert ps[..|ps|] == ps;
  }

  // ----------------------------------------------------------------- screens

  function PriceOf(p: ProviderPrice): real { if p.price.Some? then p.price.value else 0.0 }

  function JumpCandidates(ps: seq<ProviderPrice>, stats: map<string, Stat>): (r: seq<JumpCandidate>)
    ensures |r| == |ps|
  {
    seq(|ps|, i requires 0 <= i < |ps| => JumpCandidate(ps[i].providerId, PriceOf(ps[i]),
      if ps[i].providerId in stats then stats[ps[i].providerId].trailingMedian else None))
  }

  function Candidates(ps: seq<ProviderPrice>): (r: seq<Candidate>)
    ensures |r| == |ps|
  {
    seq(|ps|, i requires 0 <= i < |ps| => Candidate(ps[i].providerId, PriceOf(ps[i])))
  }

  function JumpedIds(es: seq<Exclusion>): set<string> {
    set e | e in es && e.reason == "jump_screen" :: e.providerId
  }

  function KeptIds(cs: seq<Candidate>): set<string> { set c | c in cs :: c.providerId }

  function Without(ps: seq<ProviderPrice>, ids: set<string>): seq<ProviderPrice> {
    if ps == [] then []
    else if ps[|ps| - 1].providerId in ids then Without(ps[..|ps| - 1], ids)
    else Without(ps[..|ps| - 1], ids) + [ps[|ps| - 1]]
  }

  function Within(ps: seq<ProviderPrice>, ids: set<string>): seq<ProviderPrice> {
    if ps == [] then []
    else if ps[|ps| - 1].providerId in ids then Within(ps[..|ps| - 1], ids) + [ps[|ps| - 1]]
    else Within(ps[..|ps| - 1], ids)
  }

  /** The panel after each screen, and every exclusion on the way. */
  datatype Panel = Panel(
    observed: seq<ProviderPrice>, postJump: seq<ProviderPrice>, kept: seq<ProviderPrice>,
    exclusions: seq<Exclusion>, dispersion: real)

  function PanelOf(input: IndexInput): Panel {
    var eligible := Eligible(input.prices, input.roles);
    var observed := Observed(eligible);
    var early := RoleExclusions(input.prices, input.roles) + HeldOut(eligible)
      + JumpResult(JumpCandidates(observed, input.stats), input.config.jump);
    var postJump := Without(observed, JumpedIds(early));
    var mode := ScreenMode(Prices(Candidates(postJump)), input.config.screening);
    var survivors := Kept(Candidates(postJump), mode);
    var kept := Within(postJump, KeptIds(survivors));
    var dispersion := if survivors == [] || mode.RatioBand? then 0.0 else Dispersion(Prices(survivors), input.config.screening.madScale);
    Panel(observed, postJump, kept, early + Rejected(Candidates(postJump), mode), dispersion)
  }

  // --------------------------------------------------------- weights and mean

  function Items(ps: seq<ProviderPrice>, c: EngineConfig): (r: seq<Weights.WeightItem>)
    ensures |r| == |ps|
  {
    seq(|ps|, i requires 0 <= i < |ps| =>
      Weights.WeightItem(ps[i].providerId, if ps[i].executable then c.executableWeight else c.rateCardWeight))
  }

  function CappedFor(ps: seq<ProviderPrice>, c: EngineConfig): (r: seq<real>)
    requires c.weightCap < 1.0
    ensures |r| == |ps|
  {
    Weights.CappedWeights(Weights.BaseWeights(Items(ps, c)), c.weightCap, c.eps, c.guard)
  }

  function ContributionOf(p: ProviderPrice, before: real, after: real, stats: map<string, Stat>): Contribution {
    Contribution(p.providerId, PriceOf(p), before, after, p.executable, p.sampleSize,
      if p.providerId in stats then stats[p.providerId].sigma else None)
  }

  function Contributors(ps: seq<ProviderPrice>, c: EngineConfig, stats: map<string, Stat>): (r: seq<Contribution>)
    requires c.weightCap < 1.0
    ensures |r| == |ps|
  {
    var after := CappedFor(ps, c);
    var items := Items(ps, c);
    seq(|ps|, i requires 0 <= i < |ps| => ContributionOf(ps[i], items[i].weight, after[i], stats))
  }

  function TotalAfter(cs: seq<Contribution>): real {
    if cs == [] then 0.0 else TotalAfter(cs[..|cs| - 1]) + cs[|cs| - 1].weightAfterCap
  }

  function PriceDotWeight(cs: seq<Contribution>): real {
    if cs == [] then 0.0
    else PriceDotWeight(cs[..|cs| - 1]) + Times(cs[|cs| - 1].price, cs[|cs| - 1].weightAfterCap)
  }

  /** The unrounded index value; absent without weight. */
  function WeightedPrice(cs: seq<Contribution>): Option<real> {
    if cs == [] || TotalAfter(cs) <= 0.0 then None else Some(PriceDotWeight(cs) / TotalAfter(cs))
  }

  method Reduce(cs: seq<Contribution>) returns (total: real, dot: real)
    ensures total == TotalAfter(cs) && dot == PriceDotWeight(cs)
  {
    hide Times;
    total, dot := 0.0, 0.0;
    for i := 0 to |cs|
      invariant total == TotalAfter(cs[..i]) && dot == PriceDotWeight(cs[..i])
    {
      assert cs[..i + 1][..i] == cs[..i];
      total := total + cs[i].weightAfterCap;
      dot := dot + Times(cs[i].price, cs[i].weightAfterCap);
    }
    assert cs[..|cs|] == cs;
  }

  function Votes(cs: seq<Contribution>, floor: real): seq<Band.Vote> {
    seq(|cs|, i requires 0 <= i < |cs| =>
      Band.Vote(cs[i].providerId, cs[i].price, Max(floor, if cs[i].sigma.Some? then cs[i].sigma.value else 0.0), cs[i].weightAfterCap))
  }

  // ---------------------------------------------------------------- the index

  function Anchor(cs: seq<Contribution>): Option<real> {
    var price := WeightedPrice(cs);
    if price.None? then None else Some(Round4(price.value))
  }

  function SourceOf(p: Published, anchor: Option<real>): PriceSource {
    if p.priorCandidateId.Some? then FromPrior else if anchor.Some? then FromComputation else NoSource
  }

  function IndexOf(input: IndexInput, wobble: real): IndexResult
    requires input.config.weightCap < 1.0
  {
    var panel := PanelOf(input);
    var cs := Contributors(panel.kept, input.config, input.stats);
    var anchor := Anchor(cs);
    var band := if anchor.Some? then Band.BandOf(Votes(cs, input.config.voteSigmaFloor)) else None;
    var gates := GatesOf(cs, input.stats, input.now, input.config.gates, panel.dispersion, input.config.dispersionMax);
    var p := PublishOf(Computed(anchor, AllPassed(gates), panel.dispersion, |cs|), input.prior, input.now, input.config.publish, wobble);
    var silent := p.status.Withheld? || p.carriedPrior || band.None?;
    IndexResult(p, if silent then None else Some(band.value.low), if silent then None else Some(band.value.high),
      panel.dispersion, gates, cs, panel.exclusions, |panel.observed|, SourceOf(p, anchor), if p.carriedPrior then anchor else None)
  }

  method ScreenPanel(input: IndexInput) returns (panel: Panel)
    ensures panel == PanelOf(input)
  {
    hide Eligible, Observed, RoleExclusions, HeldOut, JumpResult, Kept, Rejected, ScreenMode, Within, Without, Dispersion, Median;
    var eligible, exclusions := ExcludeIneligible(input.prices, input.roles);
    var observed, heldOut := ExcludeHeldOut(eligible);
    exclusions := exclusions + heldOut;
    var jumped := JumpScreen(JumpCandidates(observed, input.stats), input.config.jump);
    exclusions := exclusions + jumped;
    var postJump := Without(observed, JumpedIds(exclusions));
    var screen := MadScreen(Candidates(postJump), input.config.screening);
    exclusions := exclusions + screen.exclusions;
    var kept := Within(postJump, KeptIds(screen.kept));
    panel := Panel(observed, postJump, kept, exclusions, if |screen.kept| > 0 then screen.dispersion else 0.0);
  }

  method ComputeIndex(input: IndexInput, seed: seq<bv16>) returns (r: IndexResult)
    requires input.config.weightCap < 1.0
    ensures r == IndexOf(input, Unit(FnvHash(seed) as int))
    ensures forall i :: 0 <= i < |r.contributors| ==>
      r.contributors[i].weightBeforeCap == if r.contributors[i].executable then input.config.executableWeight else input.config.rateCardWeight
  {
    hide PanelOf, CappedFor, TotalAfter, PriceDotWeight, GatesOf, AllPassed, PublishOf, Round4, FnvHash, Unit;
    hide Band.BandOf, Weights.CappedWeights;
    var panel := ScreenPanel(input);
    var capped := Weights.CapWeights(Items(panel.kept, input.config), input.config.weightCap, input.config.eps, input.config.guard);
    CappedMatches(panel.kept, input.config, capped);
    var contributors := seq(|panel.kept|, i requires 0 <= i < |panel.kept| && |capped| == |panel.kept| =>
      ContributionOf(panel.kept[i], capped[i].weightBeforeCap, capped[i].weightAfterCap, input.stats));
    assert contributors == Contributors(panel.kept, input.config, input.stats);
    var totalWeight, dot := Reduce(contributors);
    var hasContributors := |contributors| > 0 && totalWeight > 0.0;
    var anchor := None;
    var band: Option<Band.ConfidenceBand> := None;
    if hasContributors {
      anchor := Some(Round4(dot / totalWeight));
      band := Band.ComputeBand(Votes(contributors, input.config.voteSigmaFloor));
    }
    var gates := EvaluateGates(contributors, input.stats, input.now, input.config.gates, panel.dispersion, input.config.dispersionMax);
    var wobble := FnvUnit(seed);
    var p := Publish(Computed(anchor, AllPassed(gates), panel.dispersion, |contributors|), input.prior, input.now, input.config.publish, wobble);
    var silent := p.status.Withheld? || p.carriedPrior || band.None?;
    r := IndexResult(p, if silent then None else Some(band.value.low), if silent then None else Some(band.value.high),
      panel.dispersion, gates, contributors, panel.exclusions, |panel.observed|,
      if p.priorCandidateId.Some? then FromPrior else if hasContributors then FromComputation else NoSource,
      if p.carriedPrior then anchor else None);
  }

  lemma CappedMatches(ps: seq<ProviderPrice>, c: EngineConfig, capped: seq<Weights.CappedWeight>)
    requires c.weightCap < 1.0 && |capped| == |ps|
    requires forall i :: 0 <= i < |ps| ==> capped[i].weightBeforeCap == Items(ps, c)[i].weight
    requires forall i :: 0 <= i < |ps| ==>
      capped[i].weightAfterCap == Weights.CappedWeights(Weights.BaseWeights(Items(ps, c)), c.weightCap, c.eps, c.guard)[i]
    ensures forall i :: 0 <= i < |ps| ==> capped[i].weightAfterCap == CappedFor(ps, c)[i]
  {
  }

  // --------------------------------------------------------------- partition

  function Ids(ps: seq<ProviderPrice>): (r: seq<string>)
    ensures |r| == |ps|
  {
    seq(|ps|, i requires 0 <= i < |ps| => ps[i].providerId)
  }

  function ContributorIds(cs: seq<Contribution>): seq<string> {
    seq(|cs|, i requires 0 <= i < |cs| => cs[i].providerId)
  }

  /** The providers an index must account for: every eligible or priced one. */
  function Reported(ps: seq<ProviderPrice>, roles: map<string, Role>): seq<ProviderPrice> {
    if ps == [] then []
    else
      var p := ps[|ps| - 1];
      if IsEligible(p, roles) || p.price.Some? then Reported(ps[..|ps| - 1], roles) + [p] else Reported(ps[..|ps| - 1], roles)
  }

  ghost predicate Distinct(ids: seq<string>) { forall id :: multiset(ids)[id] <= 1 }

  lemma IdsAppend(ps: seq<ProviderPrice>, p: ProviderPrice)
    ensures Ids(ps + [p]) == Ids(ps) + [p.providerId]
  {
  }

  lemma EmptyIds()
    ensures Ids([]) == [] && ExclusionIds([]) == [] && JumpIds([]) == []
  {
  }

  lemma OneExclusion(e: Exclusion)
    ensures ExclusionIds([e]) == [e.providerId]
  {
  }

  lemma ExclusionsAppend(es: seq<Exclusion>, fs: seq<Exclusion>)
    ensures ExclusionIds(es + fs) == ExclusionIds(es) + ExclusionIds(fs)
  {
  }

  lemma {:induction false} EligibilityPartitions(ps: seq<ProviderPrice>, roles: map<string, Role>)
    ensures multiset(ExclusionIds(RoleExclusions(ps, roles))) + multiset(Ids(Eligible(ps, roles))) == multiset(Ids(Reported(ps, roles)))
  {
    EmptyIds();
    hide Ids, ExclusionIds, IsEligible;
    if ps != [] {
      var front, p := ps[..|ps| - 1], ps[|ps| - 1];
      EligibilityPartitions(front, roles);
      IdsAppend(Eligible(front, roles), p);
      IdsAppend(Reported(front, roles), p);
      var e := Exclusion(p.providerId, "role_not_settlement_eligible", p.price);
      ExclusionsAppend(RoleExclusions(front, roles), [e]);
      OneExclusion(e);
    }
  }

  lemma {:induction false} ObservationPartitions(ps: seq<ProviderPrice>)
    ensures multiset(ExclusionIds(HeldOut(ps))) + multiset(Ids(Observed(ps))) == multiset(Ids(ps))
  {
    EmptyIds();
    hide Ids, ExclusionIds;
    if ps != [] {
      var front, p := ps[..|ps| - 1], ps[|ps| - 1];
      ObservationPartitions(front);
      IdsAppend(Observed(front), p);
      IdsAppend(front, p);
      assert ps == front + [p];
      var e := Exclusion(p.providerId, "provider_held_out", None);
      ExclusionsAppend(HeldOut(front), [e]);
      OneExclusion(e);
    }
  }

  lemma {:induction false} SelectIds(ps: seq<ProviderPrice>, ids: set<string>)
    ensures forall id :: multiset(Ids(Without(ps, ids)))[id] == if id in ids then 0 else multiset(Ids(ps))[id]
    ensures forall id :: multiset(Ids(Within(ps, ids)))[id] == if id in ids then multiset(Ids(ps))[id] else 0
  {
    EmptyIds();
    hide Ids;
    if ps != [] {
      var front, p := ps[..|ps| - 1], ps[|ps| - 1];
      SelectIds(front, ids);
      IdsAppend(front, p);
      IdsAppend(Without(front, ids), p);
      IdsAppend(Within(front, ids), p);
      assert ps == front + [p];
    }
  }

  function JumpIds(cs: seq<JumpCandidate>): seq<string> {
    seq(|cs|, i requires 0 <= i < |cs| => cs[i].providerId)
  }

  lemma JumpIdsAppend(cs: seq<JumpCandidate>, c: JumpCandidate)
    ensures JumpIds(cs + [c]) == JumpIds(cs) + [c.providerId]
  {
  }

  /** The jump screen excludes each comparable provider at most once, always for the same reason. */
  lemma {:induction false} JumpExclusionIds(cs: seq<JumpCandidate>, comparable: seq<JumpCandidate>, cfg: JumpConfig)
    ensures var es := JumpExclusions(cs, comparable, cfg);
      multiset(ExclusionIds(es)) <= multiset(JumpIds(cs)) && forall e :: e in es ==> e.reason == "jump_screen"
  {
    EmptyIds();
    hide JumpIds, ExclusionIds, Excluded;
    if cs != [] {
      var front, c := cs[..|cs| - 1], cs[|cs| - 1];
      JumpExclusionIds(front, comparable, cfg);
      assert cs == front + [c];
      JumpIdsAppend(front, c);
      var e := Exclusion(c.providerId, "jump_screen", Some(c.price));
      ExclusionsAppend(JumpExclusions(front, comparable, cfg), [e]);
      OneExclusion(e);
    }
  }

  lemma {:induction false} ComparableIds(cs: seq<JumpCandidate>)
    ensures multiset(JumpIds(Comparables(cs))) <= multiset(JumpIds(cs))
  {
    EmptyIds();
    hide JumpIds, Comparable;
    if cs != [] {
      var front, c := cs[..|cs| - 1], cs[|cs| - 1];
      ComparableIds(front);
      assert cs == front + [c];
      JumpIdsAppend(front, c);
      JumpIdsAppend(Comparables(front), c);
    }
  }

  lemma JumpResultIds(cs: seq<JumpCandidate>, cfg: JumpConfig)
    ensures var es := JumpResult(cs, cfg);
      multiset(ExclusionIds(es)) <= multiset(JumpIds(cs)) && forall e :: e in es ==> e.reason == "jump_screen"
  {
    hide Comparables, JumpExclusions;
    ComparableIds(cs);
    JumpExclusionIds(Comparables(cs), Comparables(cs), cfg);
  }

  lemma {:induction false} OtherReasons(ps: seq<ProviderPrice>, roles: map<string, Role>)
    ensures forall e :: e in RoleExclusions(ps, roles) ==> e.reason == "role_not_settlement_eligible"
    ensures forall e :: e in HeldOut(ps) ==> e.reason == "provider_held_out"
  {
    if ps != [] { OtherReasons(ps[..|ps| - 1], roles); }
  }

  lemma ExclusionIdMembers(es: seq<Exclusion>)
    ensures forall id :: (exists e :: e in es && e.providerId == id) <==> multiset(ExclusionIds(es))[id] > 0
  {
    forall id ensures (exists e :: e in es && e.providerId == id) <==> multiset(ExclusionIds(es))[id] > 0 {
      assert multiset(ExclusionIds(es))[id] > 0 <==> id in ExclusionIds(es);
      if id in ExclusionIds(es) {
        var i :| 0 <= i < |es| && ExclusionIds(es)[i] == id;
        assert es[i] in es;
      }
      if e :| e in es && e.providerId == id {
        var i :| 0 <= i < |es| && es[i] == e;
        assert ExclusionIds(es)[i] == id;
      }
    }
  }

  /** The ids the pipeline reads back from its receipts are exactly the jump screen's. */
  lemma JumpedAreExcluded(other: seq<Exclusion>, jumped: seq<Exclusion>)
    requires forall e :: e in other ==> e.reason != "jump_screen"
    requires forall e :: e in jumped ==> e.reason == "jump_screen"
    ensures forall id :: id in JumpedIds(other + jumped) <==> multiset(ExclusionIds(jumped))[id] > 0
  {
    ExclusionIdMembers(jumped);
    hide ExclusionIds;
    forall id ensures id in JumpedIds(other + jumped) <==> exists e :: e in jumped && e.providerId == id {}
  }

  lemma JumpStagePartitions(observed: seq<ProviderPrice>, other: seq<Exclusion>, jumped: seq<Exclusion>)
    requires Distinct(Ids(observed)) && multiset(ExclusionIds(jumped)) <= multiset(Ids(observed))
    requires forall e :: e in other ==> e.reason != "jump_screen"
    requires forall e :: e in jumped ==> e.reason == "jump_screen"
    ensures multiset(ExclusionIds(jumped)) + multiset(Ids(Without(observed, JumpedIds(other + jumped)))) == multiset(Ids(observed))
  {
    JumpedAreExcluded(other, jumped);
    SelectIds(observed, JumpedIds(other + jumped));
    hide Ids, ExclusionIds, Without, JumpedIds;
    var post := Without(observed, JumpedIds(other + jumped));
    forall id ensures multiset(ExclusionIds(jumped))[id] + multiset(Ids(post))[id] == multiset(Ids(observed))[id] {}
  }

  lemma KeptIdMembers(cs: seq<Candidate>)
    ensures forall id :: id in KeptIds(cs) <==> multiset(CandidateIds(cs))[id] > 0
  {
    forall id ensures id in KeptIds(cs) <==> multiset(CandidateIds(cs))[id] > 0 {
      assert multiset(CandidateIds(cs))[id] > 0 <==> id in CandidateIds(cs);
      if id in CandidateIds(cs) {
        var i :| 0 <= i < |cs| && CandidateIds(cs)[i] == id;
        assert cs[i] in cs;
      }
      if c :| c in cs && c.providerId == id {
        var i :| 0 <= i < |cs| && cs[i] == c;
        assert CandidateIds(cs)[i] == id;
      }
    }
  }

  lemma SameCandidateIds(ps: seq<ProviderPrice>)
    ensures CandidateIds(Candidates(ps)) == Ids(ps)
  {
  }

  lemma MadStagePartitions(post: seq<ProviderPrice>, mode: Mode)
    requires Distinct(Ids(post))
    ensures var survivors := Kept(Candidates(post), mode);
      multiset(ExclusionIds(Rejected(Candidates(post), mode))) + multiset(Ids(Within(post, KeptIds(survivors)))) == multiset(Ids(post)) &&
      multiset(Ids(Within(post, KeptIds(survivors)))) == multiset(CandidateIds(survivors))
  {
    hide Ids, ExclusionIds, CandidateIds, Kept, Rejected, Within, KeptIds, Candidates;
    var survivors := Kept(Candidates(post), mode);
    SameCandidateIds(post);
    MadScreenPartitions(Candidates(post), mode);
    KeptIdMembers(survivors);
    SelectIds(post, KeptIds(survivors));
    var kept, rejected := multiset(CandidateIds(survivors)), multiset(ExclusionIds(Rejected(Candidates(post), mode)));
    forall id ensures multiset(Ids(Within(post, KeptIds(survivors))))[id] == kept[id] {
      assert kept[id] + rejected[id] == multiset(Ids(post))[id];
    }
  }

  lemma SubmultisetDistinct(a: seq<string>, b: seq<string>)
    requires multiset(a) <= multiset(b) && Distinct(b)
    ensures Distinct(a)
  {
  }

  lemma {:induction false} ReportedWithin(ps: seq<ProviderPrice>, roles: map<string, Role>)
    ensures multiset(Ids(Reported(ps, roles))) <= multiset(Ids(ps))
  {
    EmptyIds();
    hide Ids, IsEligible;
    if ps != [] {
      var front, p := ps[..|ps| - 1], ps[|ps| - 1];
      ReportedWithin(front, roles);
      IdsAppend(front, p);
      IdsAppend(Reported(front, roles), p);
      assert ps == front + [p];
    }
  }

  /** The three stages before the MAD screen account for every reported provider. */
  lemma EarlyStagesPartition(input: IndexInput)
    requires Distinct(Ids(input.prices))
    ensures var panel := PanelOf(input);
      var eligible := Eligible(input.prices, input.roles);
      var early := RoleExclusions(input.prices, input.roles) + HeldOut(eligible)
        + JumpResult(JumpCandidates(panel.observed, input.stats), input.config.jump);
      multiset(ExclusionIds(early)) + multiset(Ids(panel.postJump)) == multiset(Ids(Reported(input.prices, input.roles))) &&
      Distinct(Ids(panel.observed)) && Distinct(Ids(panel.postJump))
  {
    hide Eligible, Observed, RoleExclusions, HeldOut, JumpResult, Reported, Without, Kept, Rejected, ScreenMode, Dispersion, Within;
    var eligible := Eligible(input.prices, input.roles);
    var observed := Observed(eligible);
    var candidates := JumpCandidates(observed, input.stats);
    var byRole, heldOut, jumped := RoleExclusions(input.prices, input.roles), HeldOut(eligible), JumpResult(candidates, input.config.jump);
    SameJumpIds(observed, input.stats);
    hide Ids, ExclusionIds, JumpIds, JumpCandidates, JumpedIds, Distinct;
    EligibilityPartitions(input.prices, input.roles);
    ObservationPartitions(eligible);
    ObservedDistinct(input.prices, input.roles);
    JumpResultIds(candidates, input.config.jump);
    OtherReasons(input.prices, input.roles);
    OtherReasons(eligible, input.roles);
    ExclusionsAppend(byRole, heldOut);
    ExclusionsAppend(byRole + heldOut, jumped);
    JumpStagePartitions(observed, byRole + heldOut, jumped);
    SubmultisetDistinct(Ids(PanelOf(input).postJump), Ids(observed));
  }

  lemma SameJumpIds(observed: seq<ProviderPrice>, stats: map<string, Stat>)
    ensures JumpIds(JumpCandidates(observed, stats)) == Ids(observed)
  {
  }

  lemma ObservedDistinct(ps: seq<ProviderPrice>, roles: map<string, Role>)
    requires Distinct(Ids(ps))
    ensures Distinct(Ids(Observed(Eligible(ps, roles))))
  {
    hide Ids, ExclusionIds, Eligible, Observed, RoleExclusions, HeldOut, Reported, Distinct;
    EligibilityPartitions(ps, roles);
    ObservationPartitions(Eligible(ps, roles));
    ReportedWithin(ps, roles);
    var observed, eligible, reported := Observed(Eligible(ps, roles)), Eligible(ps, roles), Reported(ps, roles);
    assert multiset(Ids(observed)) <= multiset(Ids(eligible)) <= multiset(Ids(reported));
    SubmultisetDistinct(Ids(observed), Ids(ps));
  }

  /**
   Every eligible or priced provider appears exactly once, as a contributor or
   as an exclusion, and nobody else appears at all.
   */
  lemma ProvidersPartition(input: IndexInput, wobble: real)
    requires ValidConfig(input.config) && Distinct(Ids(input.prices))
    ensures var r := IndexOf(input, wobble);
      multiset(ContributorIds(r.contributors)) + multiset(ExclusionIds(r.exclusions))
        == multiset(Ids(Reported(input.prices, input.roles)))
  {
    hide Eligible, Observed, RoleExclusions, HeldOut, JumpResult, Reported, Without, Within, Kept, Rejected, ScreenMode, Dispersion;
    hide CappedFor, Anchor, PublishOf, GatesOf, Band.BandOf;
    var panel := PanelOf(input);
    EarlyStagesPartition(input);
    var mode := ScreenMode(Prices(Candidates(panel.postJump)), input.config.screening);
    MadStagePartitions(panel.postJump, mode);
    var early := RoleExclusions(input.prices, input.roles) + HeldOut(Eligible(input.prices, input.roles))
      + JumpResult(JumpCandidates(panel.observed, input.stats), input.config.jump);
    ExclusionsAppend(early, Rejected(Candidates(panel.postJump), mode));
    assert ContributorIds(IndexOf(input, wobble).contributors) == Ids(panel.kept);
  }

  // -------------------------------------------------------------- starvation

  lemma DistinctJumpIds(observed: seq<ProviderPrice>, stats: map<string, Stat>)
    requires Distinct(Ids(observed))
    ensures DistinctIds(JumpCandidates(observed, stats))
  {
    var cs, ids := JumpCandidates(observed, stats), Ids(observed);
    forall i, j | 0 <= i < j < |cs| ensures cs[i].providerId != cs[j].providerId {
      if ids[i] == ids[j] { TwoOccurrences(ids, i, j); }
    }
  }

  lemma SameSize(a: seq<string>, b: seq<string>, c: seq<string>)
    requires multiset(a) + multiset(b) == multiset(c)
    ensures |a| + |b| == |c|
  {
    assert |multiset(a) + multiset(b)| == |multiset(c)|;
  }

  /** The jump screen takes at most minCorroborators of the observed providers, and never all of them. */
  lemma JumpStageSpares(input: IndexInput)
    requires ValidConfig(input.config) && Distinct(Ids(input.prices))
    ensures var panel := PanelOf(input);
      |panel.observed| - input.config.jump.minCorroborators <= |panel.postJump| <= |panel.observed| &&
      (panel.observed != [] ==> panel.postJump != []) && Distinct(Ids(panel.postJump))
  {
    hide Eligible, Observed, RoleExclusions, HeldOut, Reported, Without, Within, Kept, Rejected, ScreenMode, Dispersion, Times, JumpResult, Comparables, JumperExclusions;
    var panel := PanelOf(input);
    var eligible := Eligible(input.prices, input.roles);
    EarlyStagesPartition(input);
    var candidates := JumpCandidates(panel.observed, input.stats);
    var jumped := JumpResult(candidates, input.config.jump);
    DistinctJumpIds(panel.observed, input.stats);
    JumpScreenSpares(candidates, input.config.jump);
    JumpResultIds(candidates, input.config.jump);
    assert JumpIds(candidates) == Ids(panel.observed);
    OtherReasons(input.prices, input.roles);
    OtherReasons(eligible, input.roles);
    var other := RoleExclusions(input.prices, input.roles) + HeldOut(eligible);
    JumpStagePartitions(panel.observed, other, jumped);
    SameSize(ExclusionIds(jumped), Ids(panel.postJump), Ids(panel.observed));
  }

  /** The screens keep at least one provider whenever one was observed. */
  lemma SomeProviderKept(input: IndexInput)
    requires ValidConfig(input.config) && Times(input.config.screening.sigmaLimit, input.config.screening.madScale) >= 1.0
    requires Distinct(Ids(input.prices))
    ensures var panel := PanelOf(input); panel.kept != [] <==> panel.observed != []
  {
    hide Eligible, Observed, RoleExclusions, HeldOut, JumpResult, Without, Within, Kept, Rejected, ScreenMode, Dispersion, Times;
    var panel := PanelOf(input);
    JumpStageSpares(input);
    var mode := ScreenMode(Prices(Candidates(panel.postJump)), input.config.screening);
    MadScreenKeepsHalf(Candidates(panel.postJump), input.config.screening);
    MadStagePartitions(panel.postJump, mode);
    SameMultisetSize(Ids(panel.kept), CandidateIds(Kept(Candidates(panel.postJump), mode)));
  }

  lemma SameMultisetSize(a: seq<string>, b: seq<string>)
    requires multiset(a) == multiset(b)
    ensures |a| == |b|
  {
    assert |multiset(a)| == |multiset(b)|;
  }

  lemma BaseWeightsPositive(ps: seq<ProviderPrice>, c: EngineConfig)
    requires ValidConfig(c)
    ensures Weights.Positive(Weights.BaseWeights(Items(ps, c)))
  {
  }

  lemma {:induction false} TotalAfterIsSum(cs: seq<Contribution>, w: seq<real>)
    requires |w| == |cs| && forall i :: 0 <= i < |cs| ==> cs[i].weightAfterCap == w[i]
    ensures TotalAfter(cs) == Weights.Sum(w)
  {
    if cs != [] {
      var k := |cs| - 1;
      TotalAfterIsSum(cs[..k], w[..k]);
      SumFromBack(w);
    }
  }

  lemma {:induction false} SumFromBack(w: seq<real>)
    requires w != []
    ensures Weights.Sum(w) == Weights.Sum(w[..|w| - 1]) + w[|w| - 1]
  {
    if |w| > 1 {
      SumFromBack(w[1..]);
      assert w[1..][..|w| - 2] == w[..|w| - 1][1..];
    }
  }

  /** The capped weights of a non-empty panel are non-negative and sum to something positive. */
  lemma ContributorWeights(ps: seq<ProviderPrice>, c: EngineConfig, stats: map<string, Stat>)
    requires ValidConfig(c)
    ensures var cs := Contributors(ps, c, stats);
      (forall i :: 0 <= i < |cs| ==> cs[i].weightAfterCap >= 0.0) && (ps != [] ==> TotalAfter(cs) > 0.0)
  {
    hide Weights.CappedWeights, Weights.Sum, TotalAfter, Weights.Top;
    BaseWeightsPositive(ps, c);
    Weights.CappedWeightsSound(Weights.BaseWeights(Items(ps, c)), c.weightCap, c.eps, c.guard);
    TotalAfterIsSum(Contributors(ps, c, stats), CappedFor(ps, c));
  }

  /** The index computes a figure exactly when some eligible provider has a price. */
  lemma AnchorExists(input: IndexInput, wobble: real)
    requires ValidConfig(input.config) && Times(input.config.screening.sigmaLimit, input.config.screening.madScale) >= 1.0
    requires Distinct(Ids(input.prices))
    ensures var r := IndexOf(input, wobble);
      (r.contributors != [] <==> Observed(Eligible(input.prices, input.roles)) != []) &&
      (Anchor(r.contributors).Some? <==> r.contributors != [])
  {
    hide CappedFor, PublishOf, GatesOf, Band.BandOf, Round4, TotalAfter, PriceDotWeight, Times, Eligible, Observed, Without, Within, Kept, Rejected;
    hide ScreenMode, Dispersion, RoleExclusions, HeldOut, JumpResult, JumpedIds, KeptIds;
    SomeProviderKept(input);
    ContributorWeights(PanelOf(input).kept, input.config, input.stats);
  }

  // --------------------------------------------------------------- breakdown

  lemma {:induction false} MeanBounds(cs: seq<Contribution>, a: real, b: real)
    requires forall i :: 0 <= i < |cs| ==> a <= cs[i].price <= b && cs[i].weightAfterCap >= 0.0
    ensures Times(a, TotalAfter(cs)) <= PriceDotWeight(cs) <= Times(b, TotalAfter(cs))
  {
    hide Times;
    if cs == [] {
      TimesUnit(a);
      TimesUnit(b);
    } else {
      var front, c := cs[..|cs| - 1], cs[|cs| - 1];
      MeanBounds(front, a, b);
      TimesAdd(a, TotalAfter(front), c.weightAfterCap);
      TimesAdd(b, TotalAfter(front), c.weightAfterCap);
      TimesOrder(c.weightAfterCap, a, c.price);
      TimesOrder(c.weightAfterCap, c.price, b);
    }
  }

  /** The weighted price lies between any bounds on its contributors' prices, before and after rounding. */
  lemma PriceContained(cs: seq<Contribution>, a: real, b: real)
    requires forall i :: 0 <= i < |cs| ==> a <= cs[i].price <= b && cs[i].weightAfterCap >= 0.0
    requires WeightedPrice(cs).Some?
    ensures a <= WeightedPrice(cs).value <= b
    ensures Anchor(cs).Some? && Round4(a) <= Anchor(cs).value <= Round4(b)
  {
    hide Times, TotalAfter, PriceDotWeight, Round4;
    MeanBounds(cs, a, b);
    QuotientOrder(PriceDotWeight(cs), TotalAfter(cs), a);
    QuotientOrder(PriceDotWeight(cs), TotalAfter(cs), b);
    Round4Monotone(a, WeightedPrice(cs).value);
    Round4Monotone(WeightedPrice(cs).value, b);
  }

  lemma {:induction false} WithinMembers(ps: seq<ProviderPrice>, ids: set<string>)
    ensures forall p :: p in Within(ps, ids) ==> p in ps && p.providerId in ids
  {
    if ps != [] { WithinMembers(ps[..|ps| - 1], ids); }
  }

  lemma UniqueById(ps: seq<ProviderPrice>, p: ProviderPrice, q: ProviderPrice)
    requires Distinct(Ids(ps)) && p in ps && q in ps && p.providerId == q.providerId
    ensures p == q
  {
    var i :| 0 <= i < |ps| && ps[i] == p;
    var j :| 0 <= j < |ps| && ps[j] == q;
    if i != j {
      var lo, hi := if i < j then i else j, if i < j then j else i;
      TwoOccurrences(Ids(ps), lo, hi);
    }
  }

  /** A provider the panel keeps is one whose own price survived the MAD screen. */
  lemma KeptPricesSurvive(post: seq<ProviderPrice>, mode: Mode, p: ProviderPrice)
    requires Distinct(Ids(post)) && p in Within(post, KeptIds(Kept(Candidates(post), mode)))
    ensures p in post && Candidate(p.providerId, PriceOf(p)) in Kept(Candidates(post), mode)
  {
    hide Kept;
    var cs := Candidates(post);
    var survivors := Kept(cs, mode);
    WithinMembers(post, KeptIds(survivors));
    var c :| c in survivors && c.providerId == p.providerId;
    KeptAreKept(cs, mode);
    var k :| 0 <= k < |cs| && cs[k] == c;
    UniqueById(post, post[k], p);
  }

  /** The prices of a panel, in order. */
  function PanelPrices(ps: seq<ProviderPrice>): seq<real> { Prices(Candidates(ps)) }

  lemma PanelPricesAppend(ps: seq<ProviderPrice>, p: ProviderPrice)
    ensures PanelPrices(ps + [p]) == PanelPrices(ps) + [PriceOf(p)]
  {
  }

  /** Taking providers out loses no more prices of a region than it takes out. */
  lemma {:induction false} WithoutCounts(ps: seq<ProviderPrice>, ids: set<string>, r: Region)
    ensures |Without(ps, ids)| <= |ps|
    ensures Count(PanelPrices(ps), r) - Count(PanelPrices(Without(ps, ids)), r) <= |ps| - |Without(ps, ids)|
  {
    hide PanelPrices, Count;
    if ps != [] {
      var front, p := ps[..|ps| - 1], ps[|ps| - 1];
      WithoutCounts(front, ids, r);
      assert ps == front + [p];
      PanelPricesAppend(front, p);
      PanelPricesAppend(Without(front, ids), p);
      CountConcat(PanelPrices(front), [PriceOf(p)], r);
      CountConcat(PanelPrices(Without(front, ids)), [PriceOf(p)], r);
      CountBound([PriceOf(p)], r);
    }
  }

  /** With the MAD screen armed and more than half of the screened prices in [lo, hi], every kept price is in bounds. */
  lemma KeptBreakdown(input: IndexInput, lo: real, hi: real)
    requires ValidConfig(input.config) && Distinct(Ids(input.prices)) && 0.0 < lo <= hi
    requires var post := PanelOf(input).postJump;
      |post| >= input.config.screening.minProvidersForScreen && 2 * Count(PanelPrices(post), Inside(lo, hi)) > |post|
    ensures var kept := PanelOf(input).kept; forall i :: 0 <= i < |kept| ==>
      Floor(input.config.screening, lo, hi) <= PriceOf(kept[i]) <= Ceiling(input.config.screening, lo, hi)
  {
    JumpStageSpares(input);
    hide Eligible, Observed, RoleExclusions, HeldOut, JumpResult, JumpedIds, Without, Within, Kept, Rejected, Dispersion, Count, ScreenMode, Floor, Ceiling;
    var panel := PanelOf(input);
    var mode := ScreenMode(Prices(Candidates(panel.postJump)), input.config.screening);
    MadScreenBreakdown(Candidates(panel.postJump), input.config.screening, lo, hi);
    forall i | 0 <= i < |panel.kept| ensures Candidate(panel.kept[i].providerId, PriceOf(panel.kept[i])) in Kept(Candidates(panel.postJump), mode) {
      KeptPricesSurvive(panel.postJump, mode, panel.kept[i]);
    }
  }

  /** A majority of the observed prices with `minCorroborators` to spare is still one after the jump screen. */
  lemma MajoritySurvivesJumps(input: IndexInput, lo: real, hi: real)
    requires ValidConfig(input.config) && Distinct(Ids(input.prices))
    requires var observed := PanelOf(input).observed; var spare := input.config.jump.minCorroborators;
      |observed| >= input.config.screening.minProvidersForScreen + spare &&
      2 * Count(PanelPrices(observed), Inside(lo, hi)) > |observed| + spare
    ensures var post := PanelOf(input).postJump;
      |post| >= input.config.screening.minProvidersForScreen && 2 * Count(PanelPrices(post), Inside(lo, hi)) > |post|
  {
    JumpStageSpares(input);
    hide Eligible, Observed, RoleExclusions, HeldOut, JumpResult, JumpedIds, Without, Within, Kept, Rejected, Dispersion, Count, ScreenMode, PanelPrices;
    var eligible := Eligible(input.prices, input.roles);
    var observed := Observed(eligible);
    var early := RoleExclusions(input.prices, input.roles) + HeldOut(eligible)
      + JumpResult(JumpCandidates(observed, input.stats), input.config.jump);
    WithoutCounts(observed, JumpedIds(early), Inside(lo, hi));
  }

  lemma ContributorsOf(input: IndexInput, wobble: real)
    requires input.config.weightCap < 1.0
    ensures IndexOf(input, wobble).contributors == Contributors(PanelOf(input).kept, input.config, input.stats)
    ensures PanelOf(input).observed == Observed(Eligible(input.prices, input.roles))
  {
    hide Contributors, Observed, Eligible, Anchor, GatesOf, PublishOf, Band.BandOf, Without, Within, Kept, Rejected, RoleExclusions, HeldOut, JumpResult, Dispersion, ScreenMode;
  }

  /**
   Breakdown bound of the index: when the priced eligible providers are enough to
   arm the MAD screen and more than half of their prices lie in [lo, hi], both
   with `minCorroborators` to spare for the jump screen, every contributor's
   price and the index itself stay in [Floor, Ceiling], whatever the others print.
   */
  lemma IndexBreakdown(input: IndexInput, lo: real, hi: real, wobble: real)
    requires ValidConfig(input.config) && Distinct(Ids(input.prices)) && 0.0 < lo <= hi
    requires var observed := Observed(Eligible(input.prices, input.roles)); var spare := input.config.jump.minCorroborators;
      |observed| >= input.config.screening.minProvidersForScreen + spare &&
      2 * Count(PanelPrices(observed), Inside(lo, hi)) > |observed| + spare
    ensures var cs := IndexOf(input, wobble).contributors;
      var a, b := Floor(input.config.screening, lo, hi), Ceiling(input.config.screening, lo, hi);
      (forall i :: 0 <= i < |cs| ==> a <= cs[i].price <= b) &&
      (WeightedPrice(cs).Some? ==>
        a <= WeightedPrice(cs).value <= b && Anchor(cs).Some? && Round4(a) <= Anchor(cs).value <= Round4(b))
  {
    hide PanelOf, IndexOf, Count, Floor, Ceiling, CappedFor, TotalAfter, PriceDotWeight, Round4, Anchor, WeightedPrice, Observed, Eligible, PanelPrices;
    ContributorsOf(input, wobble);
    var cs := IndexOf(input, wobble).contributors;
    MajoritySurvivesJumps(input, lo, hi);
    KeptBreakdown(input, lo, hi);
    ContributorWeights(PanelOf(input).kept, input.config, input.stats);
    var a, b := Floor(input.config.screening, lo, hi), Ceiling(input.config.screening, lo, hi);
    if WeightedPrice(cs).Some? { PriceContained(cs, a, b); }
  }

  /**
   The index publishes a fresh figure exactly when quorum, observations, freshness,
   an executable source where one is required, and dispersion are all met by
   contributors that carry weight.
   */
  lemma PublishesExactly(input: IndexInput, wobble: real)
    requires input.config.weightCap < 1.0
    ensures var r := IndexOf(input, wobble);
      var cs, g := r.contributors, input.config.gates;
      (r.published.status.Healthy? || r.published.status.Degraded?) <==>
        (WeightedPrice(cs).Some? && |cs| >= g.minProviders && Samples(cs) >= g.minObservations &&
         (forall i :: 0 <= i < |cs| ==> LastPrint(cs[i], input.stats).Some? && input.now - LastPrint(cs[i], input.stats).value <= g.maxObservationAgeMs) &&
         (g.requireExecutable ==> exists i :: 0 <= i < |cs| && cs[i].executable) && r.dispersion <= input.config.dispersionMax)
  {
    hide PanelOf, CappedFor, TotalAfter, PriceDotWeight, GatesOf, AllPassed, PublishOf, Round4, Samples, LastPrint, Band.BandOf;
    var r := IndexOf(input, wobble);
    var cs := r.contributors;
    GatesPassExactly(cs, input.stats, input.now, input.config.gates, r.dispersion, input.config.dispersionMax);
    OnlyGatedPricesPublish(Computed(Anchor(cs), AllPassed(r.gates), r.dispersion, |cs|), input.prior, input.now, input.config.publish, wobble);
  }
}
