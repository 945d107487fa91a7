/**
 Steps 9 and 10 of computeIndex (packages/pricing-engine/src/engine.ts): the
 status of a computation, the carry-forward of a prior price, and the bounded
 movement allowance, over one computation and over whole series.
 */
module Publication {
  import opened Wrappers
  import opened RealArithmetic
  import opened OrderStatistics
  import opened Rounding

  datatype Status = Healthy | Degraded | Stale | Withheld

  datatype Prior = Prior(price: real, computedAt: int, candidateId: string)

  datatype Movement = Movement(allowancePct: real, reversion: real, stepPct: real)

  datatype PublishConfig = PublishConfig(
    carryForwardWindowMs: int, dispersionWarn: real, fullQuorum: nat, movement: Option<Movement>)

  /** What the pipeline computed before publication; `anchor` is absent exactly without contributors. */
  datatype Computed = Computed(anchor: Option<real>, gatesPassed: bool, dispersion: real, contributors: nat)

  datatype Published = Published(
    price: Option<real>, status: Status, priorCandidateId: Option<string>, carriedPrior: bool, movementOffset: Option<real>)

  predicate Carryable(prior: Option<Prior>, now: int, cfg: PublishConfig) {
    prior.Some? && now - prior.value.computedAt <= cfg.carryForwardWindowMs
  }

  predicate MovementOn(cfg: PublishConfig) { cfg.movement.Some? && cfg.movement.value.allowancePct > 0.0 }

  function Clamp(x: real, limit: real): real { Max(-limit, Min(limit, x)) }

  /** The offset the movement allowance adds to an anchor; `wobble` is the hashed unit sample. */
  function Offset(anchor: real, prior: real, m: Movement, wobble: real): real {
    var allowance := Times(anchor, m.allowancePct);
    Clamp(Times(m.reversion, prior - anchor) + Times(Times(m.stepPct, allowance), wobble), allowance)
  }

  function Carried(prior: Prior): Published {
    Published(Some(Round4(prior.price)), Stale, Some(prior.candidateId), true, None)
  }

  /** Status and price before the movement allowance. */
  function Decide(c: Computed, prior: Option<Prior>, now: int, cfg: PublishConfig): Published {
    if c.anchor.None? then
      if Carryable(prior, now, cfg) then Carried(prior.value) else Published(None, Withheld, None, false, None)
    else if !c.gatesPassed then
      if Carryable(prior, now, cfg) then Carried(prior.value) else Published(c.anchor, Withheld, None, false, None)
    else if c.dispersion > cfg.dispersionWarn || c.contributors < cfg.fullQuorum then
      Published(c.anchor, Degraded, None, false, None)
    else Published(c.anchor, Healthy, None, false, None)
  }

  function PublishOf(c: Computed, prior: Option<Prior>, now: int, cfg: PublishConfig, wobble: real): Published {
    var p := Decide(c, prior, now, cfg);
    if MovementOn(cfg) && !p.carriedPrior && c.anchor.Some? && prior.Some? then
      var offset := Offset(c.anchor.value, prior.value.price, cfg.movement.value, wobble);
      p.(price := Some(Round4(c.anchor.value + offset)), movementOffset := Some(offset))
    else p
  }

  /** The source's reassignments of `status` and `finalPrice`. */
  method Publish(c: Computed, prior: Option<Prior>, now: int, cfg: PublishConfig, wobble: real) returns (p: Published)
    ensures p == PublishOf(c, prior, now, cfg, wobble)
  {
    hide Times, Round4;
    var status := Withheld;
    var finalPrice: Option<real> := None;
    var priorCandidateId: Option<string> := None;
    var carriedPrior := false;
    var carryable := prior.Some? && now - prior.value.computedAt <= cfg.carryForwardWindowMs;
    if c.anchor.None? {
      if carryable {
        status, finalPrice := Stale, Some(Round4(prior.value.price));
        priorCandidateId, carriedPrior := Some(prior.value.candidateId), true;
      } else {
        status, finalPrice := Withheld, None;
      }
    } else if !c.gatesPassed {
      if carryable {
        status, finalPrice := Stale, Some(Round4(prior.value.price));
        priorCandidateId, carriedPrior := Some(prior.value.candidateId), true;
      } else {
        status, finalPrice := Withheld, c.anchor;
      }
    } else if c.dispersion > cfg.dispersionWarn {
      status, finalPrice := Degraded, c.anchor;
    } else if c.contributors < cfg.fullQuorum {
      status, finalPrice := Degraded, c.anchor;
    } else {
      status, finalPrice := Healthy, c.anchor;
    }
    var movementOffset: Option<real> := None;
    if MovementOn(cfg) && !carriedPrior && c.anchor.Some? && prior.Some? {
      var anchor, m := c.anchor.value, cfg.movement.value;
      var allowance := Times(anchor, m.allowancePct);
      var gap := prior.value.price - anchor;
      var raw := Times(m.reversion, gap) + Times(Times(m.stepPct, allowance), wobble);
      movementOffset := Some(Max(-allowance, Min(allowance, raw)));
      finalPrice := Some(Round4(anchor + movementOffset.value));
    }
    p := Published(finalPrice, status, priorCandidateId, carriedPrior, movementOffset);
  }

  // ------------------------------------------------------- one computation

  /** Fully-fledged figures only: healthy and degraded prices passed every gate. */
  lemma OnlyGatedPricesPublish(c: Computed, prior: Option<Prior>, now: int, cfg: PublishConfig, wobble: real)
    ensures var p := PublishOf(c, prior, now, cfg, wobble);
      (p.status.Healthy? || p.status.Degraded? <==> c.anchor.Some? && c.gatesPassed) &&
      (p.status.Healthy? <==> c.anchor.Some? && c.gatesPassed && c.dispersion <= cfg.dispersionWarn && c.contributors >= cfg.fullQuorum) &&
      (p.status.Stale? <==> p.carriedPrior) &&
      (p.carriedPrior ==> prior.Some? && p.price == Some(Round4(prior.value.price)) && p.movementOffset.None?)
  {
  }

  /** A prior is carried exactly when there is no figure or its gates failed, and the prior is inside its window; its id goes with it. */
  lemma CarriedExactly(c: Computed, prior: Option<Prior>, now: int, cfg: PublishConfig, wobble: real)
    ensures var p := PublishOf(c, prior, now, cfg, wobble);
      (p.carriedPrior <==>
        ((c.anchor.None? || !c.gatesPassed) && prior.Some? && now <= prior.value.computedAt + cfg.carryForwardWindowMs)) &&
      p.priorCandidateId == (if p.carriedPrior then Some(prior.value.candidateId) else None)
  {
    hide Times, Round4;
  }

  /** A figure moves exactly when movement is on, it was computed here and a prior exists; then it is the anchor plus the offset, on the grid. */
  lemma MovedExactly(c: Computed, prior: Option<Prior>, now: int, cfg: PublishConfig, wobble: real)
    requires c.anchor.Some? && !PublishOf(c, prior, now, cfg, wobble).carriedPrior
    ensures var p := PublishOf(c, prior, now, cfg, wobble);
      p.price.Some? &&
      (p.movementOffset.Some? <==> prior.Some? && cfg.movement.Some? && cfg.movement.value.allowancePct > 0.0) &&
      (p.movementOffset.None? ==> p.price == c.anchor) &&
      (p.movementOffset.Some? ==>
        p.movementOffset == Some(Offset(c.anchor.value, prior.value.price, cfg.movement.value, wobble)) &&
        Abs(p.price.value - (c.anchor.value + p.movementOffset.value)) <= 0.00005)
  {
    hide Times, Round4, Offset;
    var p := PublishOf(c, prior, now, cfg, wobble);
    if p.movementOffset.Some? { Round4Error(c.anchor.value + p.movementOffset.value); }
  }

  /** The published figure never leaves the allowance around its anchor, beyond half a grid step. */
  lemma MovementBounded(c: Computed, prior: Option<Prior>, now: int, cfg: PublishConfig, wobble: real)
    requires c.anchor.Some? && c.anchor.value >= 0.0 && !PublishOf(c, prior, now, cfg, wobble).carriedPrior
    requires cfg.movement.Some? ==> cfg.movement.value.allowancePct >= 0.0
    ensures var p := PublishOf(c, prior, now, cfg, wobble);
      p.price.Some? &&
      var allowance := if cfg.movement.Some? then Times(c.anchor.value, cfg.movement.value.allowancePct) else 0.0;
      Abs(p.price.value - c.anchor.value) <= allowance + 0.00005
  {
    hide Times, Round4;
    if cfg.movement.Some? {
      TimesOrder(c.anchor.value, 0.0, cfg.movement.value.allowancePct);
      TimesUnit(c.anchor.value);
    }
    var p := PublishOf(c, prior, now, cfg, wobble);
    if p.movementOffset.Some? { Round4Error(c.anchor.value + p.movementOffset.value); }
  }

  lemma ScaledWithin(a: real, x: real, limit: real)
    requires a >= 0.0 && -limit <= x <= limit
    ensures -Times(a, limit) <= Times(a, x) <= Times(a, limit)
  {
    hide Times;
    TimesOrder(a, x, limit);
    TimesOrder(a, -limit, x);
    TimesSub(a, 0.0, limit);
    TimesUnit(a);
  }

  /**
   The offset stays inside the allowance, and within one step of the reverted gap to
   the prior, itself held inside the allowance: it pulls towards the prior.
   */
  lemma OffsetReverts(anchor: real, prior: real, m: Movement, wobble: real)
    requires anchor >= 0.0 && m.allowancePct >= 0.0 && m.stepPct >= 0.0 && -1.0 < wobble < 1.0
    ensures var allowance := Times(anchor, m.allowancePct);
      var pull := Times(m.reversion, prior - anchor);
      var target := if pull > allowance then allowance else if pull < 0.0 - allowance then 0.0 - allowance else pull;
      Abs(Offset(anchor, prior, m, wobble)) <= allowance &&
      Abs(Offset(anchor, prior, m, wobble) - target) <= Times(m.stepPct, allowance)
  {
    hide Times;
    var allowance := Times(anchor, m.allowancePct);
    TimesOrder(anchor, 0.0, m.allowancePct);
    TimesUnit(anchor);
    TimesOrder(m.stepPct, 0.0, allowance);
    TimesUnit(m.stepPct);
    ScaledWithin(Times(m.stepPct, allowance), wobble, 1.0);
    TimesUnit(Times(m.stepPct, allowance));
  }

  /** Where the allowance leaves room, the sample adds its share of one step, up or down. */
  lemma OffsetSteps(anchor: real, prior: real, m: Movement, wobble: real)
    requires var allowance := Times(anchor, m.allowancePct);
      var pull, step := Times(m.reversion, prior - anchor), Times(Times(m.stepPct, allowance), wobble);
      Abs(pull) <= allowance && Abs(pull + step) <= allowance
    ensures Offset(anchor, prior, m, wobble) - Offset(anchor, prior, m, 0.0) == Times(Times(m.stepPct, Times(anchor, m.allowancePct)), wobble)
  {
    hide Times;
    TimesUnit(Times(m.stepPct, Times(anchor, m.allowancePct)));
  }

  /** A withheld row stores a price exactly when a computation failed its gates with nothing to carry. */
  lemma WithheldPriceExactly(c: Computed, prior: Option<Prior>, now: int, cfg: PublishConfig, wobble: real)
    ensures var p := PublishOf(c, prior, now, cfg, wobble);
      (p.status.Withheld? && p.price.Some? <==> c.anchor.Some? && !c.gatesPassed && !Carryable(prior, now, cfg))
  {
  }

  /** A withheld row carries a movement offset exactly when, besides, a too-old prior exists and movement is on. */
  lemma WithheldDriftExactly(c: Computed, prior: Option<Prior>, now: int, cfg: PublishConfig, wobble: real)
    ensures var p := PublishOf(c, prior, now, cfg, wobble);
      (p.status.Withheld? && p.movementOffset.Some?) <==>
      (c.anchor.Some? && !c.gatesPassed && MovementOn(cfg) && prior.Some? &&
        now - prior.value.computedAt > cfg.carryForwardWindowMs)
  {
  }

  /** So withheld figures do drift: a concrete gate failure with a prior past its window. */
  lemma WithheldCanDrift()
    ensures var cfg := PublishConfig(1000, 0.25, 4, Some(Movement(0.1, 0.5, 0.4)));
      var p := PublishOf(Computed(Some(2.0), false, 0.0, 2), Some(Prior(3.0, 0, "old")), 2000, cfg, 0.0);
      p.status.Withheld? && p.movementOffset == Some(0.2) && p.price == Some(2.2)
  {
    var m := Movement(0.1, 0.5, 0.4);
    assert Offset(2.0, 3.0, m, 0.0) == 0.2;
    assert Round(22000.0) == 22000;
  }

  // -------------------------------------------------------------- the series

  /** One stored row: when, what, and which computation its figure came from. */
  datatype Row = Row(price: Option<real>, computedAt: int, candidateId: string, status: Status, gated: bool)

  /** One computation of the series. */
  datatype Print = Print(computed: Computed, now: int, candidateId: string, wobble: real)

  /** The newest row that carries a price: the next computation's prior. */
  function LatestPriced(rows: seq<Row>): Option<Row> {
    if rows == [] then None
    else if rows[|rows| - 1].price.Some? then Some(rows[|rows| - 1])
    else LatestPriced(rows[..|rows| - 1])
  }

  function PriorOf(rows: seq<Row>): (r: Option<Prior>)
  {
    var latest := LatestPriced(rows);
    if latest.None? || latest.value.price.None? then None
    else Some(Prior(latest.value.price.value, latest.value.computedAt, latest.value.candidateId))
  }

  /** `gated` records whether the row's figure descends from a computation that passed its gates. */
  function NextRow(rows: seq<Row>, x: Print, cfg: PublishConfig): Row {
    var p := PublishOf(x.computed, PriorOf(rows), x.now, cfg, x.wobble);
    var latest := LatestPriced(rows);
    Row(p.price, x.now, x.candidateId, p.status,
      if p.carriedPrior then latest.Some? && latest.value.gated else x.computed.gatesPassed)
  }

  function Series(prints: seq<Print>, cfg: PublishConfig): seq<Row> {
    if prints == [] then []
    else
      var rows := Series(prints[..|prints| - 1], cfg);
      rows + [NextRow(rows, prints[|prints| - 1], cfg)]
  }

  /** The last row that was computed rather than carried, and stored a price. */
  function LastComputed(rows: seq<Row>): Option<Row> {
    if rows == [] then None
    else
      var last := rows[|rows| - 1];
      if last.price.Some? && !last.status.Stale? then Some(last) else LastComputed(rows[..|rows| - 1])
  }

  ghost predicate Coherent(rows: seq<Row>) {
    var latest, computed := LatestPriced(rows), LastComputed(rows);
    latest.Some? == computed.Some? &&
    (latest.Some? ==> latest.value.price.Some? && latest.value.gated == !computed.value.status.Withheld?)
  }

  /** How a publication's status, price and source go together. */
  lemma PublicationShape(c: Computed, prior: Option<Prior>, now: int, cfg: PublishConfig, wobble: real)
    ensures var p := PublishOf(c, prior, now, cfg, wobble);
      (p.status.Stale? <==> p.carriedPrior) &&
      (p.carriedPrior ==> prior.Some? && p.price.Some?) &&
      (!p.carriedPrior && p.price.Some? ==> c.gatesPassed == !p.status.Withheld?)
  {
    hide Times, Round4, Offset;
  }

  lemma {:induction false} LatestHasPrice(rows: seq<Row>)
    ensures LatestPriced(rows).Some? ==> LatestPriced(rows).value.price.Some?
  {
    if rows != [] && rows[|rows| - 1].price.None? { LatestHasPrice(rows[..|rows| - 1]); }
  }

  lemma CoherentStep(rows: seq<Row>, x: Print, cfg: PublishConfig)
    requires Coherent(rows)
    ensures Coherent(rows + [NextRow(rows, x, cfg)])
  {
    PublicationShape(x.computed, PriorOf(rows), x.now, cfg, x.wobble);
    LatestHasPrice(rows);
    var row := NextRow(rows, x, cfg);
    hide PublishOf;
    assert (rows + [row])[..|rows|] == rows;
  }

  lemma {:induction false} SeriesCoherent(prints: seq<Print>, cfg: PublishConfig)
    ensures Coherent(Series(prints, cfg))
  {
    if prints != [] {
      SeriesCoherent(prints[..|prints| - 1], cfg);
      CoherentStep(Series(prints[..|prints| - 1], cfg), prints[|prints| - 1], cfg);
    }
  }

  /**
   A stale row republishes a figure that passed its gates exactly when the last
   computed figure before it was not itself withheld. Through any pause.
   */
  lemma StaleIsGatedExactly(prints: seq<Print>, x: Print, cfg: PublishConfig)
    requires NextRow(Series(prints, cfg), x, cfg).status.Stale?
    ensures LastComputed(Series(prints, cfg)).Some?
    ensures NextRow(Series(prints, cfg), x, cfg).gated <==> !LastComputed(Series(prints, cfg)).value.status.Withheld?
  {
    hide Series, Times, Round4, Offset;
    SeriesCoherent(prints, cfg);
  }

  /** The failing family is inhabited: a gate-failed first figure is republished as stale by the next failure. */
  lemma UngatedFigureRepublished()
    ensures var cfg := PublishConfig(1000, 0.25, 4, None);
      var failed := Computed(Some(2.0), false, 0.0, 2);
      var rows := Series([Print(failed, 0, "a", 0.0), Print(failed, 500, "b", 0.0)], cfg);
      |rows| == 2 && rows[0].status.Withheld? && rows[1].status.Stale? && rows[1].price == Some(2.0) && !rows[1].gated
  {
    var cfg := PublishConfig(1000, 0.25, 4, None);
    var failed := Computed(Some(2.0), false, 0.0, 2);
    var first, second := Print(failed, 0, "a", 0.0), Print(failed, 500, "b", 0.0);
    assert [first, second][..1] == [first] && [first][..0] == [];
    var r0 := NextRow([], first, cfg);
    assert Series([first], cfg) == [r0];
    assert Round(20000.0) == 20000;
    assert Series([first, second], cfg) == [r0] + [NextRow([r0], second, cfg)];
  }

  // -------------------------------------------------------------- the sample

  /** One FNV-1a round in 32-bit wrap-around arithmetic. */
  function FnvRound(h: bv32, unit: bv16): bv32 {
    (h ^ (unit as bv32)) * 0x01000193
  }

  /** FNV-1a over the seed's UTF-16 code units. */
  function FnvHash(seed: seq<bv16>): bv32 {
    if seed == [] then 0x811c9dc5 else FnvRound(FnvHash(seed[..|seed| - 1]), seed[|seed| - 1])
  }

  /** The hash scaled to the open interval (-1, 1). */
  method FnvUnit(seed: seq<bv16>) returns (u: real)
    ensures u == Unit(FnvHash(seed) as int)
    ensures -1.0 < u < 1.0
  {
    hide FnvRound;
    var h: bv32 := 0x811c9dc5;
    for i := 0 to |seed|
      invariant h == FnvHash(seed[..i])
    {
      assert seed[..i + 1][..i] == seed[..i];
      h := FnvRound(h, seed[i]);
    }
    assert seed[..|seed|] == seed;
    u := Unit(h as int);
  }

  /** The sample a 32-bit hash stands for. */
  function Unit(h: int): (u: real)
    requires 0 <= h < 0x1_0000_0000
    ensures -1.0 < u < 1.0
  {
    ((h as real + 0.5) / 4294967296.0) * 2.0 - 1.0
  }

  /** The samples of all hashes are evenly spaced and balanced around zero. */
  lemma UnitSpreads(h: int)
    requires 0 <= h < 0x1_0000_0000
    ensures Unit(0xFFFF_FFFF - h) == -Unit(h)
    ensures h < 0xFFFF_FFFF ==> Unit(h + 1) - Unit(h) == 1.0 / 2147483648.0
  {
  }

  /** The hash is 32-bit FNV-1a: its published values for the empty text, "a" and "foobar". */
  lemma FnvVectors()
    ensures FnvHash([]) == 0x811c9dc5
    ensures FnvHash([97]) == 0xe40c292c
    ensures FnvHash([102, 111, 111, 98, 97, 114]) == 0xbf9cf968
  {
    var foobar: seq<bv16> := [102, 111, 111, 98, 97, 114];
    assert [97 as bv16][..0] == [];
    assert foobar[..0] == [];
    assert foobar[..1][..0] == [] && foobar[..2][..1] == foobar[..1] && foobar[..3][..2] == foobar[..2];
    assert foobar[..4][..3] == foobar[..3] && foobar[..5][..4] == foobar[..4] && foobar == foobar[..5] + [114];
    assert FnvHash(foobar[..1]) == FnvRound(0x811c9dc5, 102);
    assert FnvHash(foobar[..2]) == FnvRound(FnvHash(foobar[..1]), 111);
    assert FnvHash(foobar[..3]) == FnvRound(FnvHash(foobar[..2]), 111);
    assert FnvHash(foobar[..4]) == FnvRound(FnvHash(foobar[..3]), 98);
    assert FnvHash(foobar[..5]) == FnvRound(FnvHash(foobar[..4]), 97);
  }
}
