/**
 The attestor's own objects: the store over the two insert-if-absent tables
 (packages/db/src/repos.ts) and the poller's cycle (apps/attestor/src/poller.ts).
 A poller mirrors a state of the protocol machine: its guard takes the machine's
 steps, and a tick run without interruption ends in a state the machine reaches.
 */
module Poller {
  import opened Wrappers
  import opened Report
  import opened Attestor

  class ReportStore {
    var reports: seq<ReportRow>
    var violations: seq<ViolationRow>

    constructor ()
      ensures Contents() == Tables([], [])
    {
      reports, violations := [], [];
    }

    function Contents(): Tables
      reads this
    {
      Tables(reports, violations)
    }

    method ReportForEpoch(gpuId: string, epoch: int) returns (found: bool)
      ensures found == HasReport(reports, gpuId, epoch)
    {
      for i := 0 to |reports|
        invariant !HasReport(reports[..i], gpuId, epoch)
      {
        if reports[i].gpuId == gpuId && reports[i].epoch == epoch { return true; }
      }
      assert reports[..|reports|] == reports;
      found := false;
    }

    method LatestReport(gpuId: string) returns (r: Option<ReportRow>)
      ensures r == Latest(reports, gpuId)
    {
      r := None;
      for i := 0 to |reports|
        invariant r == Latest(reports[..i], gpuId)
      {
        assert reports[..i + 1][..i] == reports[..i];
        if reports[i].gpuId == gpuId && (r.None? || reports[i].epoch > r.value.epoch) { r := Some(reports[i]); }
      }
      assert reports[..|reports|] == reports;
    }

    /** First writer of (gpu, epoch) wins; a later one inserts nothing. */
    method RecordReport(row: ReportRow) returns (inserted: bool)
      modifies this
      ensures Contents() == InsertReport(old(Contents()), row)
      ensures inserted == !HasReport(old(reports), row.gpuId, row.epoch)
    {
      var taken := ReportForEpoch(row.gpuId, row.epoch);
      if taken { return false; }
      reports := reports + [row];
      inserted := true;
    }

    /** First writer of a candidate wins; a later one inserts nothing. */
    method RecordViolations(row: ViolationRow) returns (inserted: bool)
      modifies this
      ensures Contents() == InsertViolations(old(Contents()), row)
      ensures inserted == !HasViolations(old(violations), row.candidateId)
    {
      for i := 0 to |violations|
        invariant !HasViolations(violations[..i], row.candidateId)
      {
        if violations[i].candidateId == row.candidateId { return false; }
      }
      assert violations[..|violations|] == violations;
      violations := violations + [row];
      inserted := true;
    }
  }

  datatype TickResult = TickResult(attested: nat, flagged: nat, skipped: nat)

  /** What a cycle reads before its candidate loop; a failed or missing read ends it. */
  datatype CycleInput = CycleInput(
    health: Result<Option<set<string>>>, candidates: Result<seq<Candidate>>, methodology: Result<bool>)

  predicate Proceeds(input: CycleInput) {
    input.health.Success? && input.candidates.Success? && input.methodology == Success(true)
  }

  class AttestorPoller {
    const store: ReportStore
    const env: Env
    var inFlight: bool
    var busyStreak: nat

    constructor (store: ReportStore, env: Env)
      ensures this.store == store && this.env == env && !inFlight && busyStreak == 0
    {
      this.store, this.env := store, env;
      inFlight, busyStreak := false, 0;
    }

    /** The object in a state of the protocol machine: same tables, same guard, same streak. */
    ghost predicate Mirrors(s: State)
      reads this, store
    {
      store.Contents() == s.tables && inFlight == s.inFlight.Some? && busyStreak == s.busyStreak
    }

    /** The guard's step is the machine's `Tick`: a new cycle starts exactly when none is in flight. */
    method BeginTick(ghost nowMs: int, ghost breakers: Option<set<string>>, ghost candidates: seq<Candidate>, ghost s: State) returns (started: bool)
      requires Mirrors(s)
      modifies this
      ensures Mirrors(Next(env, s, Step.Tick(nowMs, breakers, candidates)))
      ensures |Next(env, s, Step.Tick(nowMs, breakers, candidates)).cycles| == |s.cycles| + (if started then 1 else 0)
    {
      if inFlight {
        busyStreak := busyStreak + 1;
        return false;
      }
      inFlight := true;
      started := true;
    }

    /**
     The race ends: by the budget at any time, or by settling, which the machine
     only allows once the cycle in flight has worked off its queue.
     */
    method EndTick(ghost s: State)
      requires Mirrors(s)
      modifies this
      ensures Mirrors(Next(env, s, Budget))
      ensures s.inFlight.Some? && s.inFlight.value < |s.cycles| && s.cycles[s.inFlight.value].queue == [] ==> Mirrors(Next(env, s, Settle))
    {
      inFlight, busyStreak := false, 0;
    }

    /** A candidate that throws counts as nothing; the loop goes on. */
    method HandleCandidate(c: Candidate, nowMs: int, breakers: Option<set<string>>)
      returns (attested: bool, flagged: bool, skipped: bool)
      modifies store
      ensures store.Contents() == Handle(env, old(store.Contents()), c, nowMs, breakers)
      ensures |store.reports| == |old(store.reports)| + (if attested then 1 else 0)
      ensures |old(store.violations)| <= |store.violations| <= |old(store.violations)| + 1
      ensures |store.violations| > |old(store.violations)| ==> flagged || skipped
      ensures flagged ==> |store.violations| == |old(store.violations)| + 1
      ensures skipped ==> !attested && !flagged
    {
      hide PlanFor, Latest, HasReport, HasViolations;
      attested, flagged, skipped := false, false, false;
      var epoch := EpochOf(nowMs / 1000, env.epochLength);
      if epoch.Failure? { return; }
      var taken := store.ReportForEpoch(c.gpuId, epoch.value);
      if taken {
        skipped := true;
        return;
      }
      var previous := store.LatestReport(c.gpuId);
      var plan := PlanFor(env, c, nowMs, breakers, previous);
      match plan {
        case Throws =>
        case Refuse(row) =>
          var inserted := store.RecordViolations(row);
          skipped := true;
        case Attest(flags, report) =>
          if |flags| > 0 {
            flagged := store.RecordViolations(ViolationRow(report.candidateId, report.gpuId, flags, nowMs));
          }
          attested := store.RecordReport(report);
      }
    }

    /** One evaluation pass over every watched gpu. */
    method TickInner(input: CycleInput, nowMs: int) returns (r: TickResult)
      modifies store
      ensures input.health.Success? && input.candidates.Success? && input.methodology == Success(true) ==>
        store.Contents() == HandleAll(env, old(store.Contents()), input.candidates.value, nowMs, input.health.value) &&
        r.attested == |store.reports| - |old(store.reports)| && r.attested + r.skipped <= |input.candidates.value| &&
        r.flagged <= |store.violations| - |old(store.violations)| <= r.flagged + r.skipped
      ensures input.health.Failure? || input.candidates.Failure? || input.methodology != Success(true) ==>
        store.Contents() == old(store.Contents()) && r == TickResult(0, 0, 0)
    {
      hide Handle;
      if input.health.Failure? { return TickResult(0, 0, 0); }
      if input.candidates.Failure? { return TickResult(0, 0, 0); }
      if input.methodology != Success(true) { return TickResult(0, 0, 0); }
      var candidates := input.candidates.value;
      r := TickResult(0, 0, 0);
      for i := 0 to |candidates|
        invariant store.Contents() == HandleAll(env, old(store.Contents()), candidates[..i], nowMs, input.health.value)
        invariant |store.reports| == |old(store.reports)| + r.attested && r.attested + r.skipped <= i
        invariant r.flagged <= |store.violations| - |old(store.violations)| <= r.flagged + r.skipped
      {
        assert candidates[..i + 1][..i] == candidates[..i];
        var attested, flagged, skipped := HandleCandidate(candidates[i], nowMs, input.health.value);
        r := TickResult(
          r.attested + (if attested then 1 else 0), r.flagged + (if flagged then 1 else 0), r.skipped + (if skipped then 1 else 0));
      }
      assert candidates[..|candidates|] == candidates;
    }

    /**
     A tick whose cycle is neither interleaved nor abandoned: the object ends in a
     state the machine reaches, with the loop free again unless it was busy.
     */
    method Tick(input: CycleInput, nowMs: int, ghost s: State) returns (r: TickResult, ghost steps: seq<Step>)
      requires Mirrors(s)
      modifies this, store
      ensures Mirrors(Run(env, s, steps))
      ensures old(inFlight) ==>
        r == TickResult(0, 0, 0) && inFlight && busyStreak == old(busyStreak) + 1 && store.Contents() == old(store.Contents())
      ensures !old(inFlight) ==> !inFlight && busyStreak == 0
      ensures !old(inFlight) && Proceeds(input) ==>
        store.Contents() == HandleAll(env, old(store.Contents()), input.candidates.value, nowMs, input.health.value)
      ensures !old(inFlight) && !Proceeds(input) ==> store.Contents() == old(store.Contents())
    {
      hide HandleAll, Run;
      ghost var breakers := if Proceeds(input) then input.health.value else None;
      ghost var queue := if Proceeds(input) then input.candidates.value else [];
      ghost var begin := Step.Tick(nowMs, breakers, queue);
      ghost var i, s1 := |s.cycles|, Next(env, s, begin);
      RunOne(env, s, begin);
      steps := [begin];
      var started := BeginTick(nowMs, breakers, queue, s);
      if !started { return TickResult(0, 0, 0), steps; }
      r := TickInner(input, nowMs);
      HandleNothing(env, s.tables, nowMs, breakers);
      ghost var work := UndisturbedCycle(env, s1, i);
      ghost var s2 := Run(env, s1, work);
      EndTick(s2);
      RunOne(env, s2, Settle);
      RunConcat(env, s1, work, [Settle]);
      RunConcat(env, s, [begin], work + [Settle]);
      steps := [begin] + (work + [Settle]);
    }
  }
}
