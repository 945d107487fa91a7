/**
 The publication gates (packages/pricing-engine/src/gates.ts): the receipts an
 index stores, and exactly when all of them pass.
 */
module Gates {
  import opened Wrappers

  datatype Stat = Stat(sigma: Option<real>, lastPriceAt: Option<int>, trailingMedian: Option<real>)

  datatype Contribution = Contribution(
    providerId: string, price: real, weightBeforeCap: real, weightAfterCap: real,
    executable: bool, sampleSize: nat, sigma: Option<real>)

  datatype GatesConfig = GatesConfig(minProviders: nat, minObservations: nat, maxObservationAgeMs: int, requireExecutable: bool)

  datatype GateName = MinProviders | MinObservations | Freshness | RequireExecutable | MaxDispersion

  datatype Gate = Gate(name: GateName, passed: bool, observed: Option<real>, threshold: real, reason: Option<string>)

  const UNKNOWN_FRESHNESS := "contributing provider has no known last-observation time"
  const NO_EXECUTABLE := "no executable contribution"

  function Samples(cs: seq<Contribution>): nat {
    if cs == [] then 0 else Samples(cs[..|cs| - 1]) + cs[|cs| - 1].sampleSize
  }

  function Executables(cs: seq<Contribution>): nat {
    if cs == [] then 0 else Executables(cs[..|cs| - 1]) + (if cs[|cs| - 1].executable then 1 else 0)
  }

  /** When a provider last printed; absent for one that never did or is not known. */
  function LastPrint(c: Contribution, stats: map<string, Stat>): Option<int> {
    if c.providerId in stats then stats[c.providerId].lastPriceAt else None
  }

  /** The oldest known last print. */
  function Oldest(cs: seq<Contribution>, stats: map<string, Stat>): Option<int> {
    if cs == [] then None
    else
      var rest, at := Oldest(cs[..|cs| - 1], stats), LastPrint(cs[|cs| - 1], stats);
      if at.Some? && (rest.None? || at.value < rest.value) then at else rest
  }

  predicate SomeUnknown(cs: seq<Contribution>, stats: map<string, Stat>) {
    exists i :: 0 <= i < |cs| && LastPrint(cs[i], stats).None?
  }

  function FreshnessGate(cs: seq<Contribution>, stats: map<string, Stat>, now: int, maxAge: int): Gate {
    var oldest := Oldest(cs, stats);
    if SomeUnknown(cs, stats) || oldest.None? then Gate(Freshness, false, None, maxAge as real, Some(UNKNOWN_FRESHNESS))
    else Gate(Freshness, now - oldest.value <= maxAge, Some((now - oldest.value) as real), maxAge as real, None)
  }

  /** The gates on the receipt, in their order. */
  function GatesOf(cs: seq<Contribution>, stats: map<string, Stat>, now: int, g: GatesConfig, dispersion: real, dispersionMax: real): seq<Gate> {
    [Gate(MinProviders, |cs| >= g.minProviders, Some(|cs| as real), g.minProviders as real, None),
     Gate(MinObservations, Samples(cs) >= g.minObservations, Some(Samples(cs) as real), g.minObservations as real, None),
     FreshnessGate(cs, stats, now, g.maxObservationAgeMs)]
    + (if g.requireExecutable
       then [Gate(RequireExecutable, Executables(cs) >= 1, Some(Executables(cs) as real), 1.0, if Executables(cs) == 0 then Some(NO_EXECUTABLE) else None)]
       else [])
    + [Gate(MaxDispersion, dispersion <= dispersionMax, Some(dispersion), dispersionMax, None)]
  }

  predicate AllPassed(gates: seq<Gate>) { forall i :: 0 <= i < |gates| ==> gates[i].passed }

  /** The source's loop over the contributors' last prints. */
  method ScanFreshness(cs: seq<Contribution>, stats: map<string, Stat>) returns (oldestAt: Option<int>, unknownFreshness: bool)
    ensures oldestAt == Oldest(cs, stats) && unknownFreshness == SomeUnknown(cs, stats)
  {
    oldestAt, unknownFreshness := None, false;
    for i := 0 to |cs|
      invariant oldestAt == Oldest(cs[..i], stats) && unknownFreshness == SomeUnknown(cs[..i], stats)
    {
      assert cs[..i + 1][..i] == cs[..i];
      UnknownExtends(cs, i, stats);
      var at := LastPrint(cs[i], stats);
      if at.None? {
        unknownFreshness := true;
        continue;
      }
      if oldestAt.None? || at.value < oldestAt.value { oldestAt := at; }
    }
    assert cs[..|cs|] == cs;
  }

  method EvaluateGates(cs: seq<Contribution>, stats: map<string, Stat>, now: int, g: GatesConfig, dispersion: real, dispersionMax: real)
    returns (gates: seq<Gate>)
    ensures gates == GatesOf(cs, stats, now, g, dispersion, dispersionMax)
  {
    hide Samples, Executables, Oldest, SomeUnknown;
    var observationCount := Samples(cs);
    gates := [
      Gate(MinProviders, |cs| >= g.minProviders, Some(|cs| as real), g.minProviders as real, None),
      Gate(MinObservations, observationCount >= g.minObservations, Some(observationCount as real), g.minObservations as real, None)];
    var oldestAt, unknownFreshness := ScanFreshness(cs, stats);
    if unknownFreshness || oldestAt.None? {
      gates := gates + [Gate(Freshness, false, None, g.maxObservationAgeMs as real, Some(UNKNOWN_FRESHNESS))];
    } else {
      var oldestAgeMs := now - oldestAt.value;
      gates := gates + [Gate(Freshness, oldestAgeMs <= g.maxObservationAgeMs, Some(oldestAgeMs as real), g.maxObservationAgeMs as real, None)];
    }
    if g.requireExecutable {
      var executableCount := Executables(cs);
      gates := gates + [Gate(RequireExecutable, executableCount >= 1, Some(executableCount as real), 1.0,
        if executableCount == 0 then Some(NO_EXECUTABLE) else None)];
    }
    gates := gates + [Gate(MaxDispersion, dispersion <= dispersionMax, Some(dispersion), dispersionMax, None)];
  }

  lemma UnknownExtends(cs: seq<Contribution>, i: nat, stats: map<string, Stat>)
    requires i < |cs|
    ensures SomeUnknown(cs[..i + 1], stats) <==> SomeUnknown(cs[..i], stats) || LastPrint(cs[i], stats).None?
  {
    if SomeUnknown(cs[..i], stats) {
      var k :| 0 <= k < i && LastPrint(cs[..i][k], stats).None?;
      assert cs[..i + 1][k] == cs[k];
    }
    if LastPrint(cs[i], stats).None? { assert cs[..i + 1][i] == cs[i]; }
    if SomeUnknown(cs[..i + 1], stats) {
      var k :| 0 <= k < i + 1 && LastPrint(cs[..i + 1][k], stats).None?;
      if k < i { assert cs[..i][k] == cs[k]; }
    }
  }

  /** The oldest print is one of the known ones and none is older. */
  lemma {:induction false} OldestIsLeast(cs: seq<Contribution>, stats: map<string, Stat>)
    ensures Oldest(cs, stats).Some? <==> exists i :: 0 <= i < |cs| && LastPrint(cs[i], stats).Some?
    ensures Oldest(cs, stats).Some? ==> exists i :: 0 <= i < |cs| && LastPrint(cs[i], stats) == Oldest(cs, stats)
    ensures forall i :: 0 <= i < |cs| && LastPrint(cs[i], stats).Some? ==>
      Oldest(cs, stats).Some? && Oldest(cs, stats).value <= LastPrint(cs[i], stats).value
  {
    hide LastPrint;
    if cs != [] {
      var k := |cs| - 1;
      OldestIsLeast(cs[..k], stats);
      assert forall i :: 0 <= i < k ==> cs[..k][i] == cs[i];
      if Oldest(cs[..k], stats).Some? {
        var i :| 0 <= i < k && LastPrint(cs[..k][i], stats) == Oldest(cs[..k], stats);
        assert LastPrint(cs[i], stats) == Oldest(cs[..k], stats);
      }
    }
  }

  lemma {:induction false} ExecutableExists(cs: seq<Contribution>)
    ensures Executables(cs) >= 1 <==> exists i :: 0 <= i < |cs| && cs[i].executable
  {
    if cs != [] {
      var k := |cs| - 1;
      ExecutableExists(cs[..k]);
      assert forall i :: 0 <= i < k ==> cs[..k][i] == cs[i];
    }
  }

  ghost function ExecutablePositions(cs: seq<Contribution>): set<int> { set i | 0 <= i < |cs| && cs[i].executable }

  /** The executable gate reports how many contributors are executable. */
  lemma {:induction false} ExecutablesCount(cs: seq<Contribution>)
    ensures Executables(cs) == |ExecutablePositions(cs)|
  {
    if cs == [] {
      assert ExecutablePositions(cs) == {};
    } else {
      var k := |cs| - 1;
      ExecutablesCount(cs[..k]);
      assert ExecutablePositions(cs) == ExecutablePositions(cs[..k]) + (if cs[k].executable then {k} else {});
    }
  }

  /** The freshness gate passes exactly when there are contributors and each printed within the window. */
  lemma FreshExactly(cs: seq<Contribution>, stats: map<string, Stat>, now: int, maxAge: int)
    ensures FreshnessGate(cs, stats, now, maxAge).passed <==>
      cs != [] && forall i :: 0 <= i < |cs| ==> LastPrint(cs[i], stats).Some? && now - LastPrint(cs[i], stats).value <= maxAge
  {
    hide LastPrint, Oldest;
    OldestIsLeast(cs, stats);
    var oldest := Oldest(cs, stats);
    if !SomeUnknown(cs, stats) && cs != [] {
      assert LastPrint(cs[0], stats).Some?;
      var k :| 0 <= k < |cs| && LastPrint(cs[k], stats) == oldest;
    }
  }

  lemma AllPassedAppends(a: seq<Gate>, b: seq<Gate>)
    ensures AllPassed(a + b) <==> AllPassed(a) && AllPassed(b)
  {
    assert forall i :: 0 <= i < |a| ==> (a + b)[i] == a[i];
    assert forall i :: 0 <= i < |b| ==> (a + b)[|a| + i] == b[i];
  }

  lemma OnePasses(g: Gate)
    ensures AllPassed([g]) <==> g.passed
  {
    assert [g][0] == g;
  }

  /** All gates pass exactly when quorum, observations, freshness, an executable source and dispersion are all met. */
  lemma GatesPassExactly(cs: seq<Contribution>, stats: map<string, Stat>, now: int, g: GatesConfig, dispersion: real, dispersionMax: real)
    ensures AllPassed(GatesOf(cs, stats, now, g, dispersion, dispersionMax)) <==>
      |cs| >= g.minProviders && Samples(cs) >= g.minObservations && cs != [] &&
      (forall i :: 0 <= i < |cs| ==> LastPrint(cs[i], stats).Some? && now - LastPrint(cs[i], stats).value <= g.maxObservationAgeMs) &&
      (g.requireExecutable ==> exists i :: 0 <= i < |cs| && cs[i].executable) && dispersion <= dispersionMax
  {
    FreshExactly(cs, stats, now, g.maxObservationAgeMs);
    ExecutableExists(cs);
    hide FreshnessGate, Samples, Executables, LastPrint, AllPassed;
    var a := Gate(MinProviders, |cs| >= g.minProviders, Some(|cs| as real), g.minProviders as real, None);
    var b := Gate(MinObservations, Samples(cs) >= g.minObservations, Some(Samples(cs) as real), g.minObservations as real, None);
    var d := Gate(RequireExecutable, Executables(cs) >= 1, Some(Executables(cs) as real), 1.0,
      if Executables(cs) == 0 then Some(NO_EXECUTABLE) else None);
    var e := Gate(MaxDispersion, dispersion <= dispersionMax, Some(dispersion), dispersionMax, None);
    FivePass(a, b, FreshnessGate(cs, stats, now, g.maxObservationAgeMs), d, e, g.requireExecutable);
  }

  lemma FivePass(a: Gate, b: Gate, c: Gate, d: Gate, e: Gate, required: bool)
    ensures AllPassed([a, b, c] + (if required then [d] else []) + [e]) <==>
      a.passed && b.passed && c.passed && (required ==> d.passed) && e.passed
  {
    AllPassedAppends([a, b, c], if required then [d] else []);
    AllPassedAppends([a, b, c] + (if required then [d] else []), [e]);
    ThreePass(a, b, c);
    OnePasses(d);
    OnePasses(e);
  }

  lemma ThreePass(a: Gate, b: Gate, c: Gate)
    ensures AllPassed([a, b, c]) <==> a.passed && b.passed && c.passed
  {
    var gates := [a, b, c];
    assert gates[0] == a && gates[1] == b && gates[2] == c;
  }

  /** A receipt that can be checked by hand: it passes exactly when its figure meets its threshold, and fails without one. */
  ghost predicate Readable(g: Gate) {
    if g.observed.None? then !g.passed && g.reason.Some?
    else if g.name.Freshness? || g.name.MaxDispersion? then g.passed <==> g.observed.value <= g.threshold
    else g.passed <==> g.observed.value >= g.threshold
  }

  /** Every receipt is readable, each gate has one in the fixed order, and the executable gate one only where it is required. */
  lemma ReceiptsReadable(cs: seq<Contribution>, stats: map<string, Stat>, now: int, g: GatesConfig, dispersion: real, dispersionMax: real)
    ensures var gates := GatesOf(cs, stats, now, g, dispersion, dispersionMax);
      |gates| == (if g.requireExecutable then 5 else 4) && (forall i :: 0 <= i < |gates| ==> Readable(gates[i])) &&
      gates[0].name == MinProviders && gates[1].name == MinObservations && gates[2].name == Freshness &&
      (g.requireExecutable ==> gates[3].name == RequireExecutable) && gates[|gates| - 1].name == MaxDispersion
  {
    hide Samples, Executables, SomeUnknown, Oldest;
  }
}
