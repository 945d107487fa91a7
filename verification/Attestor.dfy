/**
 The attestor protocol (apps/attestor/src/poller.ts over the insert-if-absent
 tables of packages/db/src/repos.ts).

 A tick that exceeds its budget is abandoned but keeps running, so cycles
 interleave, and the process may crash and restart. A cycle is a program counter
 over one candidate at a time; every store call is one atomic step. Signatures,
 report hashes and log lines are opaque and left out.
 */
module Attestor {
  import opened Wrappers
  import opened IntegerArithmetic
  import opened RealArithmetic
  import opened OrderStatistics
  import opened Report

  // ------------------------------------------------------------------- audit

  datatype Candidate = Candidate(
    id: string, gpuId: string, price: Option<real>, confidence: Option<(real, real)>, healthy: bool,
    providersContributing: nat, dispersion: real, methodologyVersion: string, calcHash: string,
    computedAtMs: int, contributors: seq<string>)

  /** The per-panel thresholds, already resolved. */
  datatype Thresholds = Thresholds(
    pinnedVersion: string, maxFreshnessMs: int, minContributors: nat, maxDispersion: real, maxBandWidthPct: real, maxJumpPct: real)

  /** What a candidate may be reported for; the last one is the poller's own, the rest the audit's. */
  datatype Violation =
    | NotPublishableStatus | MissingPrice | StaleCandidate | MethodologyMismatch | InsufficientContributors
    | ExcessDispersion | ExcessBandWidth | JumpRequiresManual | ContributorSourcesUnhealthy | ObservationBeyondFloor

  datatype Env = Env(thresholds: map<string, Thresholds>, epochLength: int, maxObservationAge: int)

  function OpenCount(contributors: seq<string>, open: set<string>): nat {
    if contributors == [] then 0 else (if contributors[0] in open then 1 else 0) + OpenCount(contributors[1..], open)
  }

  function Flag(violated: bool, code: Violation): seq<Violation> { if violated then [code] else [] }

  /** The jump check as the poller calls it: `previous` is the last report's scaled price, the candidate's is in USD. */
  predicate JumpFlagged(price: Option<real>, previous: Option<real>, maxJumpPct: real) {
    previous.Some? && price.Some? && previous.value > 0.0 && Abs(price.value - previous.value) / previous.value > maxJumpPct
  }

  predicate BandTooWide(c: Candidate, t: Thresholds) {
    c.price.Some? && c.price.value > 0.0 && c.confidence.Some? &&
    (c.confidence.value.1 - c.confidence.value.0) / c.price.value > t.maxBandWidthPct
  }

  /** More than half of the contributors have an open breaker. */
  predicate SourcesOpen(c: Candidate, breakers: Option<set<string>>) {
    breakers.Some? && 2 * OpenCount(c.contributors, breakers.value) > |c.contributors|
  }

  /** The audit's violations, in the source's order (apps/attestor/src/validate.ts). */
  function Violations(c: Candidate, t: Thresholds, nowMs: int, previous: Option<real>, breakers: Option<set<string>>): seq<Violation> {
    Flag(!c.healthy, NotPublishableStatus)
    + Flag(c.price.None?, MissingPrice)
    + Flag(nowMs - c.computedAtMs > t.maxFreshnessMs, StaleCandidate)
    + Flag(c.methodologyVersion != t.pinnedVersion, MethodologyMismatch)
    + Flag(c.providersContributing < t.minContributors, InsufficientContributors)
    + Flag(c.dispersion > t.maxDispersion, ExcessDispersion)
    + Flag(BandTooWide(c, t), ExcessBandWidth)
    + Flag(JumpFlagged(c.price, previous, t.maxJumpPct), JumpRequiresManual)
    + Flag(SourcesOpen(c, breakers), ContributorSourcesUnhealthy)
  }

  /**
   The baseline is in ten-thousandths of a dollar while the candidate is in
   dollars, so an unmoved price is flagged exactly when the jump limit is below
   99.99%: at any ordinary limit every re-attestation is marked for review.
   */
  lemma UnmovedPriceFlaggedExactly(price: real, scaled: int, maxJumpPct: real)
    requires price > 0.0 && scaled as real == price * 10000.0
    ensures JumpFlagged(Some(price), Some(scaled as real), maxJumpPct) <==> maxJumpPct < 0.9999
  {
    var prev := scaled as real;
    assert Abs(price - prev) == 0.9999 * prev;
    assert (0.9999 * prev) / prev == 0.9999;
  }

  /** In general the flag fires exactly when the dollar price leaves a band around the scaled one. */
  lemma JumpFlaggedExactly(price: real, scaled: int, maxJumpPct: real)
    requires scaled > 0
    ensures JumpFlagged(Some(price), Some(scaled as real), maxJumpPct) <==>
      price > scaled as real + Times(maxJumpPct, scaled as real) || price < scaled as real - Times(maxJumpPct, scaled as real)
  {
    hide Times;
    QuotientOrder(Abs(price - scaled as real), scaled as real, maxJumpPct);
  }

  /** A concrete unmoved price: 2.50 USD against its own report, at the default 25% limit. */
  lemma UnmovedPriceExample()
    ensures PriceToScaled(2.5) == Success(25000) && JumpFlagged(Some(2.5), Some(25000.0), 0.25)
  {
    UnmovedPriceFlaggedExactly(2.5, 25000, 0.25);
    assert (25000.0 + 0.5).Floor == 25000;
  }

  ghost function OpenPositions(contributors: seq<string>, open: set<string>): set<int> {
    set i | 0 <= i < |contributors| && contributors[i] in open
  }

  lemma {:induction false} OpenCountBack(contributors: seq<string>, last: string, open: set<string>)
    ensures OpenCount(contributors + [last], open) == OpenCount(contributors, open) + (if last in open then 1 else 0)
  {
    if contributors != [] {
      OpenCountBack(contributors[1..], last, open);
      assert (contributors + [last])[1..] == contributors[1..] + [last];
    }
  }

  lemma OpenPositionsGrow(front: seq<string>, last: string, open: set<string>)
    ensures |OpenPositions(front + [last], open)| == |OpenPositions(front, open)| + (if last in open then 1 else 0)
  {
    assert OpenPositions(front + [last], open) == OpenPositions(front, open) + (if last in open then {|front|} else {});
  }

  /** How many of the contributors are open, counted by position. */
  lemma {:induction false} OpenCountCounts(contributors: seq<string>, open: set<string>)
    ensures OpenCount(contributors, open) == |OpenPositions(contributors, open)|
  {
    if contributors == [] {
      assert OpenPositions(contributors, open) == {};
    } else {
      hide OpenCount, OpenPositions;
      var front, last := contributors[..|contributors| - 1], contributors[|contributors| - 1];
      assert contributors == front + [last];
      OpenCountCounts(front, open);
      OpenCountBack(front, last, open);
      OpenPositionsGrow(front, last, open);
    }
  }

  /** The jump check, multiplied out: the price leaves a band around the baseline. */
  lemma JumpOutside(price: Option<real>, previous: Option<real>, maxJumpPct: real)
    ensures JumpFlagged(price, previous, maxJumpPct) <==>
      price.Some? && previous.Some? && previous.value > 0.0 &&
      (price.value > previous.value + Times(maxJumpPct, previous.value) || price.value < previous.value - Times(maxJumpPct, previous.value))
  {
    hide Times;
    if price.Some? && previous.Some? && previous.value > 0.0 {
      QuotientOrder(Abs(price.value - previous.value), previous.value, maxJumpPct);
    }
  }

  /** The audit's checks one by one, as it computes them. */
  lemma AuditMember(c: Candidate, t: Thresholds, nowMs: int, previous: Option<real>, breakers: Option<set<string>>, code: Violation)
    ensures code in Violations(c, t, nowMs, previous, breakers) <==>
      code in Flag(!c.healthy, NotPublishableStatus)
      || code in Flag(c.price.None?, MissingPrice)
      || code in Flag(nowMs - c.computedAtMs > t.maxFreshnessMs, StaleCandidate)
      || code in Flag(c.methodologyVersion != t.pinnedVersion, MethodologyMismatch)
      || code in Flag(c.providersContributing < t.minContributors, InsufficientContributors)
      || code in Flag(c.dispersion > t.maxDispersion, ExcessDispersion)
      || code in Flag(BandTooWide(c, t), ExcessBandWidth)
      || code in Flag(JumpFlagged(c.price, previous, t.maxJumpPct), JumpRequiresManual)
      || code in Flag(SourcesOpen(c, breakers), ContributorSourcesUnhealthy)
  {
    hide JumpFlagged, BandTooWide, SourcesOpen, Flag;
  }

  /**
   What each violation accuses the candidate of, with every quotient multiplied
   out; a candidate that none of the nine fits passes the audit unflagged.
   */
  lemma AuditExactly(c: Candidate, t: Thresholds, nowMs: int, previous: Option<real>, breakers: Option<set<string>>, code: Violation)
    ensures code in Violations(c, t, nowMs, previous, breakers) <==>
      match code
      case NotPublishableStatus => !c.healthy
      case MissingPrice => c.price == None
      case StaleCandidate => c.computedAtMs < nowMs - t.maxFreshnessMs
      case MethodologyMismatch => c.methodologyVersion != t.pinnedVersion
      case InsufficientContributors => c.providersContributing < t.minContributors
      case ExcessDispersion => c.dispersion > t.maxDispersion
      case ExcessBandWidth => c.price.Some? && c.price.value > 0.0 && c.confidence.Some? &&
        c.confidence.value.1 - c.confidence.value.0 > Times(t.maxBandWidthPct, c.price.value)
      case JumpRequiresManual => c.price.Some? && previous.Some? && previous.value > 0.0 &&
        (c.price.value > previous.value + Times(t.maxJumpPct, previous.value) ||
         c.price.value < previous.value - Times(t.maxJumpPct, previous.value))
      case ContributorSourcesUnhealthy => breakers.Some? &&
        2 * |OpenPositions(c.contributors, breakers.value)| > |c.contributors|
      case ObservationBeyondFloor => false
  {
    hide Times, OpenCount, OpenPositions, Violations;
    AuditMember(c, t, nowMs, previous, breakers, code);
    assert forall violated, x :: code in Flag(violated, x) <==> violated && code == x;
    hide Flag;
    if breakers.Some? { OpenCountCounts(c.contributors, breakers.value); }
    JumpOutside(c.price, previous, t.maxJumpPct);
    if c.price.Some? && c.price.value > 0.0 && c.confidence.Some? {
      QuotientOrder(c.confidence.value.1 - c.confidence.value.0, c.price.value, t.maxBandWidthPct);
    }
  }

  // ------------------------------------------------------------------ tables

  /** A row of `reports`; `flagged` records whether its audit found anything. */
  datatype ReportRow = ReportRow(
    gpuId: string, candidateId: string, price: int, observedAt: int, epoch: int, validFrom: int, validUntil: int,
    calcHash: string, attestedAtMs: int, flagged: bool)

  /** A row of `publish_violations`; the attestor writes one target only. */
  datatype ViolationRow = ViolationRow(candidateId: string, gpuId: string, violations: seq<Violation>, recordedAtMs: int)

  datatype Tables = Tables(reports: seq<ReportRow>, violations: seq<ViolationRow>)

  predicate HasReport(rows: seq<ReportRow>, gpuId: string, epoch: int) {
    exists i :: 0 <= i < |rows| && rows[i].gpuId == gpuId && rows[i].epoch == epoch
  }

  predicate HasViolations(rows: seq<ViolationRow>, candidateId: string) {
    exists i :: 0 <= i < |rows| && rows[i].candidateId == candidateId
  }

  /** Insert, or do nothing when the unique key is taken. */
  function InsertReport(t: Tables, r: ReportRow): Tables {
    if HasReport(t.reports, r.gpuId, r.epoch) then t else t.(reports := t.reports + [r])
  }

  function InsertViolations(t: Tables, v: ViolationRow): Tables {
    if HasViolations(t.violations, v.candidateId) then t else t.(violations := t.violations + [v])
  }

  /** The newest report of a gpu: the highest epoch. */
  function Latest(rows: seq<ReportRow>, gpuId: string): Option<ReportRow> {
    if rows == [] then None
    else
      var last, rest := rows[|rows| - 1], Latest(rows[..|rows| - 1], gpuId);
      if last.gpuId == gpuId && (rest.None? || last.epoch > rest.value.epoch) then Some(last) else rest
  }

  // ------------------------------------------------------- one candidate's plan

  datatype Plan =
    | Throws
    | Refuse(row: ViolationRow)
    | Attest(flags: seq<Violation>, report: ReportRow)

  predicate HexDigit(c: char) { '0' <= c <= '9' || 'a' <= c <= 'f' || 'A' <= c <= 'F' }

  function DigestBody(h: string): string { if |h| == 66 && h[..2] == "0x" then h[2..] else h }

  /** A 32-byte hex digest, with or without its 0x. */
  predicate IsDigest(h: string) {
    |DigestBody(h)| == 64 && forall i :: 0 <= i < 64 ==> HexDigit(DigestBody(h)[i])
  }

  ghost predicate HexText(t: string) { |t| == 64 && forall c :: c in t ==> c in "0123456789abcdefABCDEF" }

  lemma HexExactly(t: string)
    requires |t| == 64
    ensures HexText(t) <==> forall i :: 0 <= i < 64 ==> HexDigit(t[i])
  {
    assert forall c :: HexDigit(c) <==> c in "0123456789abcdefABCDEF";
    hide HexDigit;
    assert forall i :: 0 <= i < 64 ==> t[i] in t;
  }

  /** A digest is exactly 64 hexadecimal digits, bare or after 0x. */
  lemma DigestExactly(h: string)
    ensures IsDigest(h) <==> HexText(h) || (|h| == 66 && h[..2] == "0x" && HexText(h[2..]))
  {
    hide HexDigit, HexText;
    if |DigestBody(h)| == 64 { HexExactly(DigestBody(h)); }
    if |h| != 64 { NotHexText(h); }
    if |h| == 66 && |h[2..]| != 64 { NotHexText(h[2..]); }
  }

  lemma NotHexText(t: string)
    requires |t| != 64
    ensures !HexText(t)
  {
  }

  /** What the poller decides for a candidate it has to attest, before it writes anything. */
  function PlanFor(env: Env, c: Candidate, nowMs: int, breakers: Option<set<string>>, latest: Option<ReportRow>): Plan {
    if c.gpuId !in env.thresholds then Throws
    else
      var previous := if latest.None? then None else Some(latest.value.price as real);
      var violations := Violations(c, env.thresholds[c.gpuId], nowMs, previous, breakers);
      var nowSec := nowMs / 1000;
      if c.price.None? then Refuse(ViolationRow(c.id, c.gpuId, violations, nowMs))
      else
        var observedAtSec := ObservationSeconds(c.computedAtMs, nowMs);
        if nowSec - observedAtSec > env.maxObservationAge then
          Refuse(ViolationRow(c.id, c.gpuId, violations + [ObservationBeyondFloor], nowMs))
        else if !IsDigest(c.calcHash) then Throws
        else
          var built := BuildReport(ReportParams(c.gpuId, c.price.value, observedAtSec, nowSec, env.epochLength, env.maxObservationAge, c.calcHash));
          if built.Failure? then Throws
          else
            var r := built.value;
            Attest(violations, ReportRow(c.gpuId, c.id, r.price, r.observedAt, r.epoch, r.validFrom, r.validUntil, r.calcHash, nowMs, violations != []))
  }

  /** A stored or planned report is honest about the second it was attested at. */
  predicate HonestRow(env: Env, r: ReportRow) {
    Honest(r.observedAt, r.epoch, r.validFrom, r.validUntil, r.attestedAtMs / 1000, env.epochLength, env.maxObservationAge)
  }

  predicate SoundPlan(env: Env, p: Plan) {
    match p
    case Throws => true
    case Refuse(row) => row.violations != []
    case Attest(flags, r) => HonestRow(env, r) && r.flagged == (flags != [])
  }

  lemma PlanIsSound(env: Env, c: Candidate, nowMs: int, breakers: Option<set<string>>, latest: Option<ReportRow>)
    ensures SoundPlan(env, PlanFor(env, c, nowMs, breakers, latest))
  {
    hide Honest, BuildReport, ObservationSeconds, IsDigest, OpenCount;
    if c.gpuId in env.thresholds && c.price.Some? {
      var p := ReportParams(c.gpuId, c.price.value, ObservationSeconds(c.computedAtMs, nowMs), nowMs / 1000, env.epochLength, env.maxObservationAge, c.calcHash);
      if BuildReport(p).Success? { ReportIsHonest(p); }
    }
  }

  /** The candidate was computed longer ago than the observation floor allows. */
  predicate TooOld(env: Env, c: Candidate, nowMs: int) {
    nowMs / 1000 - (if c.computedAtMs <= nowMs then c.computedAtMs else nowMs) / 1000 > env.maxObservationAge
  }

  /**
   A candidate is attested exactly when its gpu is watched, it has a price whose
   report builds and a digest, and its observation is within the floor; it is only
   recorded as a violation exactly when it has no price or its observation is too old.
   */
  lemma PlanExactly(env: Env, c: Candidate, nowMs: int, breakers: Option<set<string>>, latest: Option<ReportRow>)
    ensures var plan := PlanFor(env, c, nowMs, breakers, latest);
      var tooOld := TooOld(env, c, nowMs);
      (plan.Refuse? <==> c.gpuId in env.thresholds && (c.price == None || tooOld)) &&
      (plan.Attest? <==>
        (c.gpuId in env.thresholds && c.price.Some? && !tooOld && IsDigest(c.calcHash) && ValidSku(c.gpuId) &&
         0 < env.epochLength <= env.maxObservationAge && nowMs >= 0 && exists scaled :: Scales(c.price.value, scaled)))
  {
    hide IsDigest, BuildReport, Violations, Scales;
    if c.price.Some? {
      ReportBuildsExactly(ReportParams(c.gpuId, c.price.value, ObservationSeconds(c.computedAtMs, nowMs), nowMs / 1000,
        env.epochLength, env.maxObservationAge, c.calcHash));
    }
  }

  /** So re-attesting an unmoved price always carries a flag at any limit below 99.99%. */
  lemma ReattestationFlagged(env: Env, c: Candidate, nowMs: int, breakers: Option<set<string>>, latest: ReportRow)
    requires PlanFor(env, c, nowMs, breakers, Some(latest)).Attest?
    requires c.price.Some? && c.price.value > 0.0 && latest.price as real == c.price.value * 10000.0
    requires env.thresholds[c.gpuId].maxJumpPct < 0.9999
    ensures PlanFor(env, c, nowMs, breakers, Some(latest)).report.flagged
  {
    var t := env.thresholds[c.gpuId];
    hide JumpFlagged, OpenCount, BuildReport, IsDigest;
    UnmovedPriceFlaggedExactly(c.price.value, latest.price, t.maxJumpPct);
    assert |Violations(c, t, nowMs, Some(latest.price as real), breakers)| >= |Flag(true, JumpRequiresManual)|;
  }

  // --------------------------------------------------------------- the machine

  /** Where a cycle stands with the first candidate of its queue. */
  datatype Stage = Ready | Checked | Decided(plan: Plan) | Storing(report: ReportRow)

  datatype Cycle = Cycle(nowMs: int, breakers: Option<set<string>>, queue: seq<Candidate>, stage: Stage)

  /** The tables survive; the cycles and the in-flight mark live in the process. */
  datatype State = State(tables: Tables, cycles: seq<Cycle>, inFlight: Option<nat>, busyStreak: nat)

  datatype Step =
    | Tick(nowMs: int, breakers: Option<set<string>>, candidates: seq<Candidate>)
    | Budget
    | Settle
    | Advance(i: nat)
    | Reject(i: nat)
    | Crash

  /** The current candidate is done with; the cycle turns to the next. */
  function Skip(c: Cycle): Cycle
    requires c.queue != []
  {
    c.(queue := c.queue[1..], stage := Ready)
  }

  /** One store call or pure stage of one cycle. */
  function AdvanceCycle(env: Env, t: Tables, c: Cycle): (Tables, Cycle) {
    if c.queue == [] then (t, c)
    else
      var candidate := c.queue[0];
      match c.stage
      case Ready =>
        var epoch := EpochOf(c.nowMs / 1000, env.epochLength);
        if epoch.Failure? || HasReport(t.reports, candidate.gpuId, epoch.value) then (t, Skip(c))
        else (t, c.(stage := Checked))
      case Checked =>
        var plan := PlanFor(env, candidate, c.nowMs, c.breakers, Latest(t.reports, candidate.gpuId));
        if plan.Throws? then (t, Skip(c)) else (t, c.(stage := Decided(plan)))
      case Decided(plan) =>
        (match plan
         case Throws => (t, Skip(c))
         case Refuse(row) => (InsertViolations(t, row), Skip(c))
         case Attest(flags, report) =>
           if flags == [] then (t, c.(stage := Storing(report)))
           else (InsertViolations(t, ViolationRow(report.candidateId, report.gpuId, flags, c.nowMs)), c.(stage := Storing(report))))
      case Storing(report) => (InsertReport(t, report), Skip(c))
  }

  /** Any step in any order; a step that does not apply leaves the state alone. */
  function Next(env: Env, s: State, step: Step): State {
    match step
    case Tick(nowMs, breakers, candidates) =>
      if s.inFlight.Some? then s.(busyStreak := s.busyStreak + 1)
      else s.(cycles := s.cycles + [Cycle(nowMs, breakers, candidates, Ready)], inFlight := Some(|s.cycles|))
    case Budget => s.(inFlight := None, busyStreak := 0)
    case Settle =>
      if s.inFlight.Some? && s.inFlight.value < |s.cycles| && s.cycles[s.inFlight.value].queue == []
      then s.(inFlight := None, busyStreak := 0) else s
    case Advance(i) =>
      if i >= |s.cycles| then s
      else
        var (t, c) := AdvanceCycle(env, s.tables, s.cycles[i]);
        s.(tables := t, cycles := s.cycles[i := c])
    case Reject(i) =>
      if i >= |s.cycles| || s.cycles[i].queue == [] then s else s.(cycles := s.cycles[i := Skip(s.cycles[i])])
    case Crash => State(s.tables, [], None, 0)
  }

  function Run(env: Env, s: State, steps: seq<Step>): State {
    if steps == [] then s else Next(env, Run(env, s, steps[..|steps| - 1]), steps[|steps| - 1])
  }

  // -------------------------------------------------------------- the invariant

  ghost predicate UniqueReports(rows: seq<ReportRow>) {
    forall i, j :: 0 <= i < j < |rows| ==> rows[i].gpuId != rows[j].gpuId || rows[i].epoch != rows[j].epoch
  }

  ghost predicate UniqueViolations(rows: seq<ViolationRow>) {
    forall i, j :: 0 <= i < j < |rows| ==> rows[i].candidateId != rows[j].candidateId
  }

  ghost predicate Explained(t: Tables, r: ReportRow) {
    r.flagged ==> HasViolations(t.violations, r.candidateId)
  }

  ghost predicate SoundTables(env: Env, t: Tables) {
    UniqueReports(t.reports) && UniqueViolations(t.violations) &&
    (forall i :: 0 <= i < |t.reports| ==> HonestRow(env, t.reports[i]) && Explained(t, t.reports[i])) &&
    (forall i :: 0 <= i < |t.violations| ==> t.violations[i].violations != [])
  }

  /** What a cycle in mid-candidate may still write is sound. */
  ghost predicate SoundStage(env: Env, t: Tables, stage: Stage) {
    match stage
    case Ready => true
    case Checked => true
    case Decided(plan) => SoundPlan(env, plan)
    case Storing(r) => HonestRow(env, r) && Explained(t, r)
  }

  ghost predicate Sound(env: Env, s: State) {
    SoundTables(env, s.tables) && (forall i :: 0 <= i < |s.cycles| ==> SoundStage(env, s.tables, s.cycles[i].stage)) &&
    (s.inFlight.Some? ==> s.inFlight.value < |s.cycles|)
  }

  /** Rows are only ever appended: nothing stored changes or disappears. */
  ghost predicate Extends(t: Tables, u: Tables) {
    t.reports <= u.reports && t.violations <= u.violations
  }

  lemma ExplainedLater(t: Tables, u: Tables, r: ReportRow)
    requires Extends(t, u) && Explained(t, r)
    ensures Explained(u, r)
  {
    if r.flagged {
      var i :| 0 <= i < |t.violations| && t.violations[i].candidateId == r.candidateId;
      assert u.violations[i] == t.violations[i];
    }
  }

  lemma InsertReportSound(env: Env, t: Tables, r: ReportRow)
    requires SoundTables(env, t) && HonestRow(env, r) && Explained(t, r)
    ensures SoundTables(env, InsertReport(t, r)) && Extends(t, InsertReport(t, r))
  {
    hide HonestRow, HasViolations;
  }

  lemma InsertViolationsSound(env: Env, t: Tables, v: ViolationRow)
    requires SoundTables(env, t) && v.violations != []
    ensures var u := InsertViolations(t, v);
      SoundTables(env, u) && Extends(t, u) && HasViolations(u.violations, v.candidateId)
  {
    hide HonestRow;
    var u := InsertViolations(t, v);
    if !HasViolations(t.violations, v.candidateId) { assert u.violations[|t.violations|] == v; }
    forall i | 0 <= i < |u.reports| ensures Explained(u, u.reports[i]) { ExplainedLater(t, u, t.reports[i]); }
  }

  lemma AdvanceCycleSound(env: Env, t: Tables, c: Cycle)
    requires SoundTables(env, t) && SoundStage(env, t, c.stage)
    ensures var (u, d) := AdvanceCycle(env, t, c);
      SoundTables(env, u) && Extends(t, u) && SoundStage(env, u, d.stage)
  {
    hide SoundTables, HonestRow, PlanFor, HasReport, Latest;
    if c.queue != [] {
      match c.stage {
        case Ready =>
        case Checked => PlanIsSound(env, c.queue[0], c.nowMs, c.breakers, Latest(t.reports, c.queue[0].gpuId));
        case Decided(plan) =>
          if plan.Refuse? {
            InsertViolationsSound(env, t, plan.row);
          } else if plan.Attest? && plan.flags != [] {
            InsertViolationsSound(env, t, ViolationRow(plan.report.candidateId, plan.report.gpuId, plan.flags, c.nowMs));
          }
        case Storing(r) => InsertReportSound(env, t, r);
      }
    }
  }

  /** Every step keeps the tables sound and only appends to them. */
  lemma NextSound(env: Env, s: State, step: Step)
    requires Sound(env, s)
    ensures Sound(env, Next(env, s, step)) && Extends(s.tables, Next(env, s, step).tables)
  {
    hide SoundTables, AdvanceCycle, HonestRow, SoundPlan;
    var n := Next(env, s, step);
    if step.Advance? && step.i < |s.cycles| {
      AdvanceCycleSound(env, s.tables, s.cycles[step.i]);
      forall j | 0 <= j < |n.cycles| && j != step.i ensures SoundStage(env, n.tables, n.cycles[j].stage) {
        if s.cycles[j].stage.Storing? { ExplainedLater(s.tables, n.tables, s.cycles[j].stage.report); }
      }
    }
  }

  lemma ExtendsItself(t: Tables)
    ensures Extends(t, t)
  {
  }

  lemma ExtendsTransitive(a: Tables, b: Tables, c: Tables)
    requires Extends(a, b) && Extends(b, c)
    ensures Extends(a, c)
  {
  }

  lemma {:induction false} RunSound(env: Env, s: State, steps: seq<Step>)
    requires Sound(env, s)
    ensures Sound(env, Run(env, s, steps)) && Extends(s.tables, Run(env, s, steps).tables)
  {
    ExtendsItself(s.tables);
    hide Sound, Next, Extends;
    if steps != [] {
      var front := steps[..|steps| - 1];
      RunSound(env, s, front);
      NextSound(env, Run(env, s, front), steps[|steps| - 1]);
      ExtendsTransitive(s.tables, Run(env, s, front).tables, Run(env, s, steps).tables);
    }
  }

  // -------------------------------------------------------------- provenance

  /** Some tick of the run handed out this candidate, at this time and with these breakers. */
  ghost predicate Offered(steps: seq<Step>, nowMs: int, breakers: Option<set<string>>, c: Candidate) {
    exists i :: 0 <= i < |steps| && steps[i].Tick? && steps[i].nowMs == nowMs && steps[i].breakers == breakers && c in steps[i].candidates
  }

  /** The row says what the candidate says: its ids and digest, ten thousand times its price, its observation or the clock. */
  ghost predicate Restates(r: ReportRow, c: Candidate) {
    r.gpuId == c.gpuId && r.candidateId == c.id && r.calcHash == c.calcHash &&
    c.price.Some? && Scales(c.price.value, r.price) &&
    r.observedAt * 1000 <= (if c.computedAtMs <= r.attestedAtMs then c.computedAtMs else r.attestedAtMs) < r.observedAt * 1000 + 1000
  }

  function PriceOf(r: Option<ReportRow>): Option<real> { if r.None? then None else Some(r.value.price as real) }

  /** The row holds the candidate's audit against the newest report of its gpu at some moment of the run. */
  ghost predicate Audited(env: Env, rows: seq<ReportRow>, v: ViolationRow, c: Candidate, breakers: Option<set<string>>) {
    v.candidateId == c.id && v.gpuId == c.gpuId && c.gpuId in env.thresholds &&
    exists k: nat :: k <= |rows| &&
      v.violations == Violations(c, env.thresholds[c.gpuId], v.recordedAtMs, PriceOf(Latest(rows[..k], c.gpuId)), breakers)
        + Flag(c.price.Some? && TooOld(env, c, v.recordedAtMs), ObservationBeyondFloor)
  }

  /** A report row stems from a candidate, and is flagged exactly when that candidate's audit found something. */
  ghost predicate Stems(env: Env, rows: seq<ReportRow>, r: ReportRow, flags: seq<Violation>, c: Candidate, breakers: Option<set<string>>) {
    Restates(r, c) && r.flagged == (flags != []) && Audited(env, rows, ViolationRow(c.id, c.gpuId, flags, r.attestedAtMs), c, breakers)
  }

  ghost predicate ReportTraced(env: Env, steps: seq<Step>, rows: seq<ReportRow>, r: ReportRow) {
    exists c, breakers, flags :: Offered(steps, r.attestedAtMs, breakers, c) && Stems(env, rows, r, flags, c, breakers)
  }

  ghost predicate ViolationTraced(env: Env, steps: seq<Step>, rows: seq<ReportRow>, v: ViolationRow) {
    exists c, breakers :: Offered(steps, v.recordedAtMs, breakers, c) && Audited(env, rows, v, c, breakers)
  }

  ghost predicate PlanTraced(env: Env, steps: seq<Step>, rows: seq<ReportRow>, p: Plan, nowMs: int) {
    match p
    case Throws => true
    case Refuse(v) => ViolationTraced(env, steps, rows, v)
    case Attest(flags, r) =>
      ReportTraced(env, steps, rows, r) && ViolationTraced(env, steps, rows, ViolationRow(r.candidateId, r.gpuId, flags, nowMs))
  }

  /** A cycle works on candidates of its own tick, and what it may still write stems from one. */
  ghost predicate CycleTraced(env: Env, steps: seq<Step>, rows: seq<ReportRow>, c: Cycle) {
    (forall x :: x in c.queue ==> Offered(steps, c.nowMs, c.breakers, x)) &&
    match c.stage
    case Ready => true
    case Checked => true
    case Decided(plan) => PlanTraced(env, steps, rows, plan, c.nowMs)
    case Storing(r) => ReportTraced(env, steps, rows, r)
  }

  ghost predicate TablesTraced(env: Env, steps: seq<Step>, t: Tables) {
    (forall i :: 0 <= i < |t.reports| ==> ReportTraced(env, steps, t.reports, t.reports[i])) &&
    (forall i :: 0 <= i < |t.violations| ==> ViolationTraced(env, steps, t.reports, t.violations[i]))
  }

  ghost predicate Traced(env: Env, steps: seq<Step>, s: State) {
    TablesTraced(env, steps, s.tables) && forall i :: 0 <= i < |s.cycles| ==> CycleTraced(env, steps, s.tables.reports, s.cycles[i])
  }

  lemma OfferedLater(steps: seq<Step>, more: seq<Step>, nowMs: int, breakers: Option<set<string>>, c: Candidate)
    requires Offered(steps, nowMs, breakers, c) && steps <= more
    ensures Offered(more, nowMs, breakers, c)
  {
    var i :| 0 <= i < |steps| && steps[i].Tick? && steps[i].nowMs == nowMs && steps[i].breakers == breakers && c in steps[i].candidates;
    assert more[i] == steps[i];
  }

  lemma AuditedLater(env: Env, rows: seq<ReportRow>, more: seq<ReportRow>, v: ViolationRow, c: Candidate, breakers: Option<set<string>>)
    requires Audited(env, rows, v, c, breakers) && rows <= more
    ensures Audited(env, more, v, c, breakers)
  {
    hide Violations, Latest;
    var k: nat :| k <= |rows| &&
      v.violations == Violations(c, env.thresholds[c.gpuId], v.recordedAtMs, PriceOf(Latest(rows[..k], c.gpuId)), breakers)
        + Flag(c.price.Some? && TooOld(env, c, v.recordedAtMs), ObservationBeyondFloor);
    assert more[..k] == rows[..k];
  }

  lemma ReportTracedLater(env: Env, steps: seq<Step>, later: seq<Step>, rows: seq<ReportRow>, more: seq<ReportRow>, r: ReportRow)
    requires ReportTraced(env, steps, rows, r) && steps <= later && rows <= more
    ensures ReportTraced(env, later, more, r)
  {
    hide Offered, Audited, Restates;
    var c, breakers, flags :| Offered(steps, r.attestedAtMs, breakers, c) && Stems(env, rows, r, flags, c, breakers);
    OfferedLater(steps, later, r.attestedAtMs, breakers, c);
    AuditedLater(env, rows, more, ViolationRow(c.id, c.gpuId, flags, r.attestedAtMs), c, breakers);
    assert Stems(env, more, r, flags, c, breakers);
  }

  lemma ViolationTracedLater(env: Env, steps: seq<Step>, later: seq<Step>, rows: seq<ReportRow>, more: seq<ReportRow>, v: ViolationRow)
    requires ViolationTraced(env, steps, rows, v) && steps <= later && rows <= more
    ensures ViolationTraced(env, later, more, v)
  {
    hide Offered, Audited;
    var c, breakers :| Offered(steps, v.recordedAtMs, breakers, c) && Audited(env, rows, v, c, breakers);
    OfferedLater(steps, later, v.recordedAtMs, breakers, c);
    AuditedLater(env, rows, more, v, c, breakers);
  }

  lemma CycleTracedLater(env: Env, steps: seq<Step>, later: seq<Step>, rows: seq<ReportRow>, more: seq<ReportRow>, c: Cycle)
    requires CycleTraced(env, steps, rows, c) && steps <= later && rows <= more
    ensures CycleTraced(env, later, more, c)
  {
    hide Offered, ReportTraced, ViolationTraced;
    forall x | x in c.queue ensures Offered(later, c.nowMs, c.breakers, x) { OfferedLater(steps, later, c.nowMs, c.breakers, x); }
    match c.stage {
      case Decided(Refuse(v)) => ViolationTracedLater(env, steps, later, rows, more, v);
      case Decided(Attest(flags, r)) =>
        ReportTracedLater(env, steps, later, rows, more, r);
        ViolationTracedLater(env, steps, later, rows, more, ViolationRow(r.candidateId, r.gpuId, flags, c.nowMs));
      case Storing(r) => ReportTracedLater(env, steps, later, rows, more, r);
      case _ =>
    }
  }

  lemma TablesTracedLater(env: Env, steps: seq<Step>, later: seq<Step>, t: Tables)
    requires TablesTraced(env, steps, t) && steps <= later
    ensures TablesTraced(env, later, t)
  {
    hide ReportTraced, ViolationTraced;
    forall i | 0 <= i < |t.reports| ensures ReportTraced(env, later, t.reports, t.reports[i]) {
      ReportTracedLater(env, steps, later, t.reports, t.reports, t.reports[i]);
    }
    forall i | 0 <= i < |t.violations| ensures ViolationTraced(env, later, t.reports, t.violations[i]) {
      ViolationTracedLater(env, steps, later, t.reports, t.reports, t.violations[i]);
    }
  }

  /** What is planned for a candidate restates it and holds its audit. */
  lemma PlanRestates(env: Env, rows: seq<ReportRow>, c: Candidate, nowMs: int, breakers: Option<set<string>>)
    ensures var plan := PlanFor(env, c, nowMs, breakers, Latest(rows, c.gpuId));
      (plan.Refuse? ==> plan.row.recordedAtMs == nowMs && Audited(env, rows, plan.row, c, breakers)) &&
      (plan.Attest? ==> plan.report.attestedAtMs == nowMs && Stems(env, rows, plan.report, plan.flags, c, breakers))
  {
    hide BuildReport, IsDigest, Violations, Latest, Scales;
    assert rows[..|rows|] == rows;
    if c.gpuId in env.thresholds && c.price.Some? {
      var p := ReportParams(c.gpuId, c.price.value, ObservationSeconds(c.computedAtMs, nowMs), nowMs / 1000, env.epochLength, env.maxObservationAge, c.calcHash);
      if BuildReport(p).Success? { ReportIsFaithful(p); }
    }
  }

  lemma PlanIsTraced(env: Env, steps: seq<Step>, rows: seq<ReportRow>, c: Candidate, nowMs: int, breakers: Option<set<string>>)
    requires Offered(steps, nowMs, breakers, c)
    ensures PlanTraced(env, steps, rows, PlanFor(env, c, nowMs, breakers, Latest(rows, c.gpuId)), nowMs)
  {
    hide PlanFor, Latest, Offered, Audited;
    PlanRestates(env, rows, c, nowMs, breakers);
  }

  lemma AdvanceTraced(env: Env, steps: seq<Step>, t: Tables, c: Cycle)
    requires TablesTraced(env, steps, t) && CycleTraced(env, steps, t.reports, c)
    ensures var (u, d) := AdvanceCycle(env, t, c);
      Extends(t, u) && TablesTraced(env, steps, u) && CycleTraced(env, steps, u.reports, d)
  {
    hide PlanFor, HasReport, HasViolations, Latest, Offered, ReportTraced, ViolationTraced;
    var (u, d) := AdvanceCycle(env, t, c);
    if c.queue != [] && c.stage.Checked? {
      PlanIsTraced(env, steps, t.reports, c.queue[0], c.nowMs, c.breakers);
    }
    forall i | 0 <= i < |t.reports| ensures ReportTraced(env, steps, u.reports, t.reports[i]) {
      ReportTracedLater(env, steps, steps, t.reports, u.reports, t.reports[i]);
    }
    forall i | 0 <= i < |t.violations| ensures ViolationTraced(env, steps, u.reports, t.violations[i]) {
      ViolationTracedLater(env, steps, steps, t.reports, u.reports, t.violations[i]);
    }
    if c.queue != [] && c.stage.Storing? { ReportTracedLater(env, steps, steps, t.reports, u.reports, c.stage.report); }
  }

  lemma NextTraced(env: Env, steps: seq<Step>, s: State, step: Step)
    requires Traced(env, steps, s)
    ensures Traced(env, steps + [step], Next(env, s, step))
  {
    hide AdvanceCycle, TablesTraced, CycleTraced;
    var n, later := Next(env, s, step), steps + [step];
    TablesTracedLater(env, steps, later, s.tables);
    forall i | 0 <= i < |s.cycles| ensures CycleTraced(env, later, s.tables.reports, s.cycles[i]) {
      CycleTracedLater(env, steps, later, s.tables.reports, s.tables.reports, s.cycles[i]);
    }
    match step {
      case Advance(i) =>
        if i < |s.cycles| {
          AdvanceTraced(env, later, s.tables, s.cycles[i]);
          forall j | 0 <= j < |n.cycles| && j != i ensures CycleTraced(env, later, n.tables.reports, n.cycles[j]) {
            CycleTracedLater(env, later, later, s.tables.reports, n.tables.reports, s.cycles[j]);
          }
        }
      case Tick(nowMs, breakers, candidates) => NewCycleTraced(env, steps, s.tables.reports, nowMs, breakers, candidates);
      case Reject(i) => if i < |s.cycles| && s.cycles[i].queue != [] { SkipTraced(env, later, s.tables.reports, s.cycles[i]); }
      case _ =>
    }
  }

  lemma NewCycleTraced(env: Env, steps: seq<Step>, rows: seq<ReportRow>, nowMs: int, breakers: Option<set<string>>, candidates: seq<Candidate>)
    ensures CycleTraced(env, steps + [Tick(nowMs, breakers, candidates)], rows, Cycle(nowMs, breakers, candidates, Ready))
  {
    var later := steps + [Tick(nowMs, breakers, candidates)];
    assert later[|steps|] == Tick(nowMs, breakers, candidates);
  }

  lemma SkipTraced(env: Env, steps: seq<Step>, rows: seq<ReportRow>, c: Cycle)
    requires c.queue != [] && CycleTraced(env, steps, rows, c)
    ensures CycleTraced(env, steps, rows, Skip(c))
  {
    hide Offered;
  }

  lemma BootTraced(env: Env)
    ensures Traced(env, [], BOOT)
  {
  }

  lemma {:induction false} RunTraced(env: Env, steps: seq<Step>)
    ensures Traced(env, steps, Run(env, BOOT, steps))
  {
    hide Next, Traced;
    BootTraced(env);
    if steps != [] {
      var front := steps[..|steps| - 1];
      RunTraced(env, front);
      NextTraced(env, front, Run(env, BOOT, front), steps[|steps| - 1]);
      assert steps == front + [steps[|steps| - 1]];
    }
  }

  // ------------------------------------------------------------ main results

  const BOOT: State := State(Tables([], []), [], None, 0)

  lemma BootSound(env: Env)
    ensures Sound(env, BOOT)
  {
  }

  /**
   Safety over every run of ticks, abandoned cycles, failing store calls, crashes
   and restarts: one report per gpu and epoch, each honest about the second it was
   attested at and restating a candidate some tick was handed, flagged exactly when
   that candidate's audit found something, and explained by a non-empty violations
   row if so; and every violations row holds such an audit.
   */
  lemma AttestorSafety(env: Env, steps: seq<Step>)
    ensures var t := Run(env, BOOT, steps).tables;
      UniqueReports(t.reports) &&
      forall i :: 0 <= i < |t.reports| ==>
        var r := t.reports[i];
        env.epochLength > 0 && r.epoch == r.attestedAtMs / 1000 / env.epochLength &&
        r.validFrom <= r.attestedAtMs / 1000 < r.validUntil && r.validUntil == r.validFrom + env.epochLength &&
        0 <= r.attestedAtMs / 1000 - r.observedAt <= env.maxObservationAge &&
        ReportTraced(env, steps, t.reports, r) &&
        (r.flagged ==> exists k :: 0 <= k < |t.violations| && t.violations[k].candidateId == r.candidateId && t.violations[k].violations != [])
    ensures var t := Run(env, BOOT, steps).tables; forall i :: 0 <= i < |t.violations| ==> ViolationTraced(env, steps, t.reports, t.violations[i])
  {
    RunTraced(env, steps);
    hide ReportTraced, ViolationTraced;
    BootSound(env);
    RunSound(env, BOOT, steps);
    hide Run;
    var t := Run(env, BOOT, steps).tables;
    forall i | 0 <= i < |t.reports| ensures env.epochLength > 0 && t.reports[i].epoch == t.reports[i].attestedAtMs / 1000 / env.epochLength {
      var r := t.reports[i];
      assert HonestRow(env, r);
      HonestEpoch(r.observedAt, r.epoch, r.validFrom, r.validUntil, r.attestedAtMs / 1000, env.epochLength, env.maxObservationAge);
    }
  }

  lemma HonestEpoch(observedAt: int, epoch: int, validFrom: int, validUntil: int, nowSec: int, epochLength: int, maxAge: int)
    requires Honest(observedAt, epoch, validFrom, validUntil, nowSec, epochLength, maxAge)
    ensures epochLength > 0 && epoch == nowSec / epochLength
  {
    assert Mul(epochLength, epoch) == epoch * epochLength;
    FloorUnique(nowSec, epochLength, epoch);
  }

  lemma {:induction false} RunConcat(env: Env, s: State, a: seq<Step>, b: seq<Step>)
    ensures Run(env, s, a + b) == Run(env, Run(env, s, a), b)
  {
    if b == [] {
      assert a + b == a;
    } else {
      assert (a + b)[..|a + b| - 1] == a + b[..|b| - 1];
      RunConcat(env, s, a, b[..|b| - 1]);
    }
  }

  /** A stored report or violations row is never changed or removed by what happens later. */
  lemma StoredRowsPersist(env: Env, before: seq<Step>, after: seq<Step>)
    ensures Extends(Run(env, BOOT, before).tables, Run(env, BOOT, before + after).tables)
  {
    BootSound(env);
    RunSound(env, BOOT, before);
    RunSound(env, Run(env, BOOT, before), after);
    RunConcat(env, BOOT, before, after);
  }

  /** The newest report is the highest epoch among the gpu's rows. */
  lemma {:induction false} LatestIsHighest(rows: seq<ReportRow>, gpuId: string)
    ensures var l := Latest(rows, gpuId);
      (l.Some? ==> l.value in rows && l.value.gpuId == gpuId) &&
      forall i :: 0 <= i < |rows| && rows[i].gpuId == gpuId ==> l.Some? && rows[i].epoch <= l.value.epoch
  {
    if rows != [] {
      LatestIsHighest(rows[..|rows| - 1], gpuId);
      assert rows == rows[..|rows| - 1] + [rows[|rows| - 1]];
    }
  }

  /** The newest stored epoch of a gpu never goes back, whatever abandoned cycles still write. */
  lemma NewestEpochMonotone(env: Env, before: seq<Step>, after: seq<Step>, gpuId: string)
    requires Latest(Run(env, BOOT, before).tables.reports, gpuId).Some?
    ensures Latest(Run(env, BOOT, before + after).tables.reports, gpuId).Some?
    ensures Latest(Run(env, BOOT, before).tables.reports, gpuId).value.epoch
      <= Latest(Run(env, BOOT, before + after).tables.reports, gpuId).value.epoch
  {
    hide Run, Latest;
    StoredRowsPersist(env, before, after);
    var rows, later := Run(env, BOOT, before).tables.reports, Run(env, BOOT, before + after).tables.reports;
    LatestIsHighest(rows, gpuId);
    LatestIsHighest(later, gpuId);
    var i :| 0 <= i < |rows| && rows[i] == Latest(rows, gpuId).value;
    assert later[i] == rows[i];
  }

  /** A second attestation into a taken epoch changes nothing, so replays and retries are harmless. */
  lemma ReattestIsNoOp(env: Env, s: State, i: nat, r: ReportRow)
    requires i < |s.cycles| && s.cycles[i].queue != [] && s.cycles[i].stage == Storing(r)
    requires HasReport(s.tables.reports, r.gpuId, r.epoch)
    ensures Next(env, s, Advance(i)).tables == s.tables
  {
  }

  // ------------------------------------------- an undisturbed cycle is a fold

  /** What one candidate does to the tables when nothing interleaves. */
  function Handle(env: Env, t: Tables, c: Candidate, nowMs: int, breakers: Option<set<string>>): Tables {
    var epoch := EpochOf(nowMs / 1000, env.epochLength);
    if epoch.Failure? || HasReport(t.reports, c.gpuId, epoch.value) then t
    else
      match PlanFor(env, c, nowMs, breakers, Latest(t.reports, c.gpuId))
      case Throws => t
      case Refuse(row) => InsertViolations(t, row)
      case Attest(flags, report) =>
        var u := if flags == [] then t else InsertViolations(t, ViolationRow(report.candidateId, report.gpuId, flags, nowMs));
        InsertReport(u, report)
  }

  /** Handling a candidate leaves its gpu attested for the epoch exactly when it was already, or the plan attests it. */
  lemma HandleAttests(env: Env, t: Tables, c: Candidate, nowMs: int, breakers: Option<set<string>>)
    requires env.epochLength > 0 && nowMs >= 0
    ensures var epoch := nowMs / 1000 / env.epochLength;
      HasReport(Handle(env, t, c, nowMs, breakers).reports, c.gpuId, epoch) <==>
        HasReport(t.reports, c.gpuId, epoch) || PlanFor(env, c, nowMs, breakers, Latest(t.reports, c.gpuId)).Attest?
  {
    PlanRestates(env, t.reports, c, nowMs, breakers);
    PlanIsSound(env, c, nowMs, breakers, Latest(t.reports, c.gpuId));
    var plan := PlanFor(env, c, nowMs, breakers, Latest(t.reports, c.gpuId));
    hide PlanFor, Latest, Audited, Scales;
    if plan.Attest? {
      var r := plan.report;
      HonestEpoch(r.observedAt, r.epoch, r.validFrom, r.validUntil, nowMs / 1000, env.epochLength, env.maxObservationAge);
      if !HasReport(t.reports, r.gpuId, r.epoch) { assert (t.reports + [r])[|t.reports|] == r; }
    }
  }

  /** A whole cycle without interleaving. */
  function HandleAll(env: Env, t: Tables, cs: seq<Candidate>, nowMs: int, breakers: Option<set<string>>): Tables {
    if cs == [] then t else Handle(env, HandleAll(env, t, cs[..|cs| - 1], nowMs, breakers), cs[|cs| - 1], nowMs, breakers)
  }

  lemma RunOne(env: Env, s: State, step: Step)
    ensures Run(env, s, [step]) == Next(env, s, step)
  {
    assert [step][..0] == [];
  }

  lemma AdvanceTwice(env: Env, s: State, i: nat, steps: seq<Step>)
    ensures Run(env, s, steps + [Advance(i)]) == Next(env, Run(env, s, steps), Advance(i))
  {
    assert (steps + [Advance(i)])[..|steps|] == steps;
  }

  /** The machine's own steps, uninterrupted, do exactly that to the tables. */
  lemma Undisturbed(env: Env, s: State, i: nat) returns (steps: seq<Step>)
    requires i < |s.cycles| && s.cycles[i].queue != [] && s.cycles[i].stage == Ready
    ensures Run(env, s, steps) ==
      s.(tables := Handle(env, s.tables, s.cycles[i].queue[0], s.cycles[i].nowMs, s.cycles[i].breakers),
         cycles := s.cycles[i := Skip(s.cycles[i])])
  {
    hide PlanFor, HasReport, InsertReport, InsertViolations, Latest, Run;
    var c := s.cycles[i];
    steps := [Advance(i)];
    RunOne(env, s, Advance(i));
    var s1 := Run(env, s, steps);
    if s1.cycles[i].stage == Ready { return; }
    AdvanceTwice(env, s, i, steps);
    steps := steps + [Advance(i)];
    var s2 := Run(env, s, steps);
    if s2.cycles[i].stage == Ready { return; }
    AdvanceTwice(env, s, i, steps);
    steps := steps + [Advance(i)];
    var s3 := Run(env, s, steps);
    if s3.cycles[i].stage == Ready { return; }
    AdvanceTwice(env, s, i, steps);
    steps := steps + [Advance(i)];
  }

  lemma {:induction false} HandleAllCons(env: Env, t: Tables, cs: seq<Candidate>, nowMs: int, breakers: Option<set<string>>)
    requires cs != []
    ensures HandleAll(env, t, cs, nowMs, breakers) == HandleAll(env, Handle(env, t, cs[0], nowMs, breakers), cs[1..], nowMs, breakers)
  {
    hide Handle;
    var k := |cs| - 1;
    if k == 0 {
      assert cs[..0] == [] && cs[1..] == [];
    } else {
      HandleAllCons(env, t, cs[..k], nowMs, breakers);
      assert cs[..k][1..] == cs[1..][..k - 1];
    }
  }

  lemma HandleNothing(env: Env, t: Tables, nowMs: int, breakers: Option<set<string>>)
    ensures HandleAll(env, t, [], nowMs, breakers) == t
  {
  }

  /** A cycle whose queue is worked off. */
  function Finished(c: Cycle): Cycle { c.(queue := [], stage := Ready) }

  /** And so for the whole queue: the machine, uninterrupted, folds the loop body over the candidates. */
  lemma {:induction false} UndisturbedCycle(env: Env, s: State, i: nat) returns (steps: seq<Step>)
    requires i < |s.cycles| && s.cycles[i].stage == Ready
    ensures Run(env, s, steps) ==
      s.(tables := HandleAll(env, s.tables, s.cycles[i].queue, s.cycles[i].nowMs, s.cycles[i].breakers),
         cycles := s.cycles[i := Finished(s.cycles[i])])
    decreases |s.cycles[i].queue|
  {
    var c := s.cycles[i];
    if c.queue == [] {
      steps := [];
      assert s.cycles[i := Finished(c)] == s.cycles;
    } else {
      hide Run, Handle, HandleAll;
      var first := Undisturbed(env, s, i);
      var after := Run(env, s, first);
      var rest := UndisturbedCycle(env, after, i);
      HandleAllCons(env, s.tables, c.queue, c.nowMs, c.breakers);
      RunConcat(env, s, first, rest);
      steps := first + rest;
    }
  }
}
