/**
 Funding solvency over whole runs of the perp math: positions open, resize and
 close, each touch accrues the market, settles the position and moves its
 checkpoints to the new cumulatives, and the owner changes the rates at any time.
 Whatever the floors and ceilings do, the funding credited never exceeds the
 funding charged.

 A rate change whose second is not after the market's last touch accrues nothing
 and only writes the rates, which is all the indexer's handler does.

 A slot of `positions` is one (wallet, gpu, side) row; a closed row keeps size 0.
 */
module PerpSolvency {
  import opened IntegerArithmetic
  import opened PerpMath

  datatype Slot = Slot(size: nat, isLong: bool, feeCheckpoint: nat, creditCheckpoint: nat)

  datatype Ledger = Ledger(market: Market, positions: seq<Slot>, charged: nat, credited: nat)

  datatype Step =
    | Accrue(nowSec: int)
    | Open(nowSec: int, isLong: bool, size: nat)
    | Touch(nowSec: int, index: nat, newSize: nat)
    | SetRates(nowSec: int, fundingRate: int, borrowRate: int)

  function SideSize(ps: seq<Slot>, isLong: bool): nat {
    if ps == [] then 0 else SideSize(ps[..|ps| - 1], isLong) + (if ps[|ps| - 1].isLong == isLong then ps[|ps| - 1].size else 0)
  }

  /** Open interest always restates the sizes of the stored positions. */
  function WithPositions(l: Ledger, ps: seq<Slot>): Ledger {
    l.(positions := ps, market := l.market.(openLong := SideSize(ps, true), openShort := SideSize(ps, false)))
  }

  function AsPosition(s: Slot): Position {
    Position(s.size, 0, 0, s.feeCheckpoint, s.creditCheckpoint, 0, 0, s.isLong)
  }

  function Checkpointed(c: Cumulatives, isLong: bool, size: nat): Slot {
    Slot(size, isLong, ChargeOf(c, isLong), CreditOf(c, isLong))
  }

  function Accrued(l: Ledger, nowSec: int): Ledger { l.(market := Store(l.market, nowSec)) }

  function Apply(l: Ledger, step: Step): Ledger {
    var a := Accrued(l, step.nowSec);
    match step
    case Accrue(_) => a
    case Open(_, isLong, size) => WithPositions(a, a.positions + [Checkpointed(a.market.cums, isLong, size)])
    case Touch(_, index, newSize) =>
      if index >= |a.positions| then a
      else
        var p := a.positions[index];
        var s := Settle(a.market.cums, AsPosition(p));
        WithPositions(a.(charged := a.charged + s.owed, credited := a.credited + s.earned),
          a.positions[index := Checkpointed(a.market.cums, p.isLong, newSize)])
    case SetRates(_, fundingRate, borrowRate) => a.(market := a.market.(fundingRate := fundingRate, borrowRate := borrowRate))
  }

  function Run(l: Ledger, steps: seq<Step>): Ledger {
    if steps == [] then l else Apply(Run(l, steps[..|steps| - 1]), steps[|steps| - 1])
  }

  /** What every position would be charged, and credited, if touched now. */
  function PendingOwed(ps: seq<Slot>, c: Cumulatives): nat {
    if ps == [] then 0 else PendingOwed(ps[..|ps| - 1], c) + Settle(c, AsPosition(ps[|ps| - 1])).owed
  }

  function PendingEarned(ps: seq<Slot>, c: Cumulatives): nat {
    if ps == [] then 0 else PendingEarned(ps[..|ps| - 1], c) + Settle(c, AsPosition(ps[|ps| - 1])).earned
  }

  // ------------------------------------------------------- exact liabilities

  /** Exact charges, in 1e-18 units, accrued since each position's checkpoint. */
  function ExactOwed(ps: seq<Slot>, long: int, short: int): int {
    if ps == [] then 0
    else
      var p := ps[|ps| - 1];
      ExactOwed(ps[..|ps| - 1], long, short) + Mul(p.size, (if p.isLong then long else short) - p.feeCheckpoint)
  }

  function ExactEarned(ps: seq<Slot>, long: int, short: int): int {
    if ps == [] then 0
    else
      var p := ps[|ps| - 1];
      ExactEarned(ps[..|ps| - 1], long, short) + Mul(p.size, (if p.isLong then long else short) - p.creditCheckpoint)
  }

  ghost predicate CheckpointsBehind(ps: seq<Slot>, c: Cumulatives) {
    forall i :: 0 <= i < |ps| ==>
      ps[i].feeCheckpoint <= ChargeOf(c, ps[i].isLong) && ps[i].creditCheckpoint <= CreditOf(c, ps[i].isLong)
  }

  /** Exact charges collected and pending, minus exact credits paid and pending. */
  function Surplus(l: Ledger): int {
    var c := l.market.cums;
    Mul(FUNDING_SCALE, l.charged) + ExactOwed(l.positions, c.chargeLong, c.chargeShort)
      - Mul(FUNDING_SCALE, l.credited) - ExactEarned(l.positions, c.creditLong, c.creditShort)
  }

  ghost predicate Solvent(l: Ledger) {
    l.market.openLong == SideSize(l.positions, true) && l.market.openShort == SideSize(l.positions, false) &&
    CheckpointsBehind(l.positions, l.market.cums) && Surplus(l) >= 0
  }

  lemma {:induction false} ExactOwedGrows(ps: seq<Slot>, long: int, short: int, dLong: int, dShort: int)
    ensures ExactOwed(ps, long + dLong, short + dShort)
      == ExactOwed(ps, long, short) + Mul(dLong, SideSize(ps, true)) + Mul(dShort, SideSize(ps, false))
  {
    hide Mul;
    if ps == [] {
      MulUnit(dLong);
      MulUnit(dShort);
    } else {
      var front, p := ps[..|ps| - 1], ps[|ps| - 1];
      ExactOwedGrows(front, long, short, dLong, dShort);
      var d := if p.isLong then dLong else dShort;
      MulAdd(p.size, (if p.isLong then long else short) - p.feeCheckpoint, d);
      MulAdd(d, SideSize(front, p.isLong), p.size);
      MulCommutes(p.size, d);
    }
  }

  lemma {:induction false} ExactEarnedGrows(ps: seq<Slot>, long: int, short: int, dLong: int, dShort: int)
    ensures ExactEarned(ps, long + dLong, short + dShort)
      == ExactEarned(ps, long, short) + Mul(dLong, SideSize(ps, true)) + Mul(dShort, SideSize(ps, false))
  {
    hide Mul;
    if ps == [] {
      MulUnit(dLong);
      MulUnit(dShort);
    } else {
      var front, p := ps[..|ps| - 1], ps[|ps| - 1];
      ExactEarnedGrows(front, long, short, dLong, dShort);
      var d := if p.isLong then dLong else dShort;
      MulAdd(p.size, (if p.isLong then long else short) - p.creditCheckpoint, d);
      MulAdd(d, SideSize(front, p.isLong), p.size);
      MulCommutes(p.size, d);
    }
  }

  /** What the credited side gains never exceeds what the charged side pays. */
  lemma DriftIsCovered(drift: nat, payers: nat, takers: nat, credit: nat)
    requires credit == if takers > 0 then MulDiv(drift, payers, takers, RoundDown) else 0
    ensures Mul(credit, takers) <= Mul(drift, payers)
  {
    hide Mul, Floor;
    if takers > 0 {
      DivisionBounds(Mul(drift, payers), takers);
      MulCommutes(takers, credit);
    } else {
      MulUnit(credit);
      MulOrder(drift, 0, payers);
      MulUnit(drift);
    }
  }

  /** Accrual keeps the surplus: it charges the paying side at least what it credits the other. */
  lemma AccrualSolvent(l: Ledger, nowSec: int)
    requires Solvent(l)
    ensures Solvent(Accrued(l, nowSec))
  {
    hide Mul, MulDiv, Drift, BorrowDrift, Window, ExactOwed, ExactEarned, SideSize;
    var m, c := l.market, l.market.cums;
    var n := Advance(m, nowSec);
    var drift := Drift(m, Window(m, nowSec));
    var longPays := m.openLong >= m.openShort;
    NoDrift(m);
    ExactOwedGrows(l.positions, c.chargeLong, c.chargeShort, n.chargeLong - c.chargeLong, n.chargeShort - c.chargeShort);
    ExactEarnedGrows(l.positions, c.creditLong, c.creditShort, n.creditLong - c.creditLong, n.creditShort - c.creditShort);
    MulUnit(m.openLong);
    MulUnit(m.openShort);
    if longPays {
      DriftIsCovered(drift, m.openLong, m.openShort, n.creditShort - c.creditShort);
    } else {
      DriftIsCovered(drift, m.openShort, m.openLong, n.creditLong - c.creditLong);
    }
  }

  lemma {:induction false} ExactUpdate(ps: seq<Slot>, i: nat, q: Slot, cl: int, cs: int, el: int, es: int)
    requires i < |ps|
    ensures ExactOwed(ps[i := q], cl, cs) == ExactOwed(ps, cl, cs)
      - Mul(ps[i].size, (if ps[i].isLong then cl else cs) - ps[i].feeCheckpoint) + Mul(q.size, (if q.isLong then cl else cs) - q.feeCheckpoint)
    ensures ExactEarned(ps[i := q], el, es) == ExactEarned(ps, el, es)
      - Mul(ps[i].size, (if ps[i].isLong then el else es) - ps[i].creditCheckpoint) + Mul(q.size, (if q.isLong then el else es) - q.creditCheckpoint)
  {
    hide Mul;
    var k := |ps| - 1;
    if i == k {
      assert ps[i := q][..k] == ps[..k];
    } else {
      assert ps[i := q][..k] == ps[..k][i := q];
      ExactUpdate(ps[..k], i, q, cl, cs, el, es);
    }
  }

  /** A settlement charges at least, and credits at most, the exact amount it clears, each within one unit of it. */
  lemma SettlementCovers(c: Cumulatives, p: Slot)
    requires p.feeCheckpoint <= ChargeOf(c, p.isLong) && p.creditCheckpoint <= CreditOf(c, p.isLong)
    ensures var s := Settle(c, AsPosition(p));
      var owed := Mul(p.size, ChargeOf(c, p.isLong) - p.feeCheckpoint);
      var earned := Mul(p.size, CreditOf(c, p.isLong) - p.creditCheckpoint);
      owed <= Mul(FUNDING_SCALE, s.owed) < owed + 1_000_000_000_000_000_000 &&
      earned - 1_000_000_000_000_000_000 < Mul(FUNDING_SCALE, s.earned) <= earned
  {
    hide Mul, Floor, Ceil;
    DivisionBounds(Mul(p.size, ChargeOf(c, p.isLong) - p.feeCheckpoint), FUNDING_SCALE);
    DivisionBounds(Mul(p.size, CreditOf(c, p.isLong) - p.creditCheckpoint), FUNDING_SCALE);
    MulUnit(p.size);
    MulUnit(FUNDING_SCALE);
  }

  lemma OpenSolvent(a: Ledger, isLong: bool, size: nat)
    requires Solvent(a)
    ensures Solvent(WithPositions(a, a.positions + [Checkpointed(a.market.cums, isLong, size)]))
  {
    hide Mul, SideSize;
    var q := Checkpointed(a.market.cums, isLong, size);
    assert (a.positions + [q])[..|a.positions|] == a.positions;
    MulUnit(q.size);
  }

  lemma TouchSolvent(a: Ledger, index: nat, newSize: nat)
    requires Solvent(a) && index < |a.positions|
    ensures var p := a.positions[index];
      var s := Settle(a.market.cums, AsPosition(p));
      Solvent(WithPositions(a.(charged := a.charged + s.owed, credited := a.credited + s.earned),
        a.positions[index := Checkpointed(a.market.cums, p.isLong, newSize)]))
  {
    hide Mul, Settle, SideSize, ExactOwed, ExactEarned;
    var c, p := a.market.cums, a.positions[index];
    var q, s := Checkpointed(c, p.isLong, newSize), Settle(c, AsPosition(p));
    SettlementCovers(c, p);
    ExactUpdate(a.positions, index, q, c.chargeLong, c.chargeShort, c.creditLong, c.creditShort);
    MulUnit(q.size);
    MulAdd(FUNDING_SCALE, a.charged, s.owed);
    MulAdd(FUNDING_SCALE, a.credited, s.earned);
  }

  lemma RatesSolvent(a: Ledger, fundingRate: int, borrowRate: int)
    requires Solvent(a)
    ensures Solvent(a.(market := a.market.(fundingRate := fundingRate, borrowRate := borrowRate)))
  {
    hide Mul, SideSize, ExactOwed, ExactEarned;
  }

  lemma ApplySolvent(l: Ledger, step: Step)
    requires Solvent(l)
    ensures Solvent(Apply(l, step))
  {
    AccrualSolvent(l, step.nowSec);
    if step.SetRates? {
      RatesSolvent(Accrued(l, step.nowSec), step.fundingRate, step.borrowRate);
    }
    hide Solvent, Settle, Store, WithPositions, Checkpointed;
    var a := Accrued(l, step.nowSec);
    if step.Open? {
      OpenSolvent(a, step.isLong, step.size);
    } else if step.Touch? && step.index < |a.positions| {
      TouchSolvent(a, step.index, step.newSize);
    }
  }

  lemma {:induction false} RunSolvent(l: Ledger, steps: seq<Step>)
    requires Solvent(l)
    ensures Solvent(Run(l, steps))
  {
    hide Solvent, Apply;
    if steps != [] {
      RunSolvent(l, steps[..|steps| - 1]);
      ApplySolvent(Run(l, steps[..|steps| - 1]), steps[|steps| - 1]);
    }
  }

  lemma {:induction false} PendingCovers(ps: seq<Slot>, c: Cumulatives)
    requires CheckpointsBehind(ps, c)
    ensures Mul(FUNDING_SCALE, PendingOwed(ps, c)) >= ExactOwed(ps, c.chargeLong, c.chargeShort)
    ensures Mul(FUNDING_SCALE, PendingEarned(ps, c)) <= ExactEarned(ps, c.creditLong, c.creditShort)
  {
    hide Mul, Settle;
    if ps == [] {
      MulUnit(FUNDING_SCALE);
    } else {
      var front, p := ps[..|ps| - 1], ps[|ps| - 1];
      PendingCovers(front, c);
      SettlementCovers(c, p);
      MulAdd(FUNDING_SCALE, PendingOwed(front, c), Settle(c, AsPosition(p)).owed);
      MulAdd(FUNDING_SCALE, PendingEarned(front, c), Settle(c, AsPosition(p)).earned);
    }
  }

  lemma {:induction false} PendingUpdate(ps: seq<Slot>, i: nat, q: Slot, c: Cumulatives)
    requires i < |ps|
    ensures PendingOwed(ps[i := q], c) == PendingOwed(ps, c) - Settle(c, AsPosition(ps[i])).owed + Settle(c, AsPosition(q)).owed
    ensures PendingEarned(ps[i := q], c) == PendingEarned(ps, c) - Settle(c, AsPosition(ps[i])).earned + Settle(c, AsPosition(q)).earned
  {
    hide Settle;
    var k := |ps| - 1;
    if i == k {
      assert ps[i := q][..k] == ps[..k];
    } else {
      assert ps[i := q][..k] == ps[..k][i := q];
      PendingUpdate(ps[..k], i, q, c);
    }
  }

  lemma {:induction false} PendingAppend(ps: seq<Slot>, q: Slot, c: Cumulatives)
    ensures PendingOwed(ps + [q], c) == PendingOwed(ps, c) + Settle(c, AsPosition(q)).owed
    ensures PendingEarned(ps + [q], c) == PendingEarned(ps, c) + Settle(c, AsPosition(q)).earned
  {
    assert (ps + [q])[..|ps|] == ps;
  }

  lemma FreshSlotOwesNothing(c: Cumulatives, isLong: bool, size: nat)
    ensures var s := Settle(c, AsPosition(Checkpointed(c, isLong, size))); s.owed == 0 && s.earned == 0
  {
  }

  /**
   Once the market is accrued, no step creates or loses funding: what was pending
   is still pending or has just been charged and credited, to the unit.
   */
  lemma StepMovesPending(l: Ledger, step: Step)
    ensures var a, r := Accrued(l, step.nowSec), Apply(l, step);
      r.market.cums == a.market.cums &&
      r.charged + PendingOwed(r.positions, r.market.cums) == a.charged + PendingOwed(a.positions, a.market.cums) &&
      r.credited + PendingEarned(r.positions, r.market.cums) == a.credited + PendingEarned(a.positions, a.market.cums)
  {
    var a := Accrued(l, step.nowSec);
    var c := a.market.cums;
    match step {
      case Open(_, isLong, size) =>
        FreshSlotOwesNothing(c, isLong, size);
        hide Settle, PendingOwed, PendingEarned, Store, Checkpointed, SideSize;
        PendingAppend(a.positions, Checkpointed(c, isLong, size), c);
      case Touch(_, index, newSize) =>
        if index < |a.positions| {
          var q := Checkpointed(c, a.positions[index].isLong, newSize);
          FreshSlotOwesNothing(c, a.positions[index].isLong, newSize);
          hide Settle, PendingOwed, PendingEarned, Store, Checkpointed, SideSize;
          PendingUpdate(a.positions, index, q, c);
        }
      case _ =>
    }
  }

  lemma ScaleOrder(a: int, b: int)
    requires Mul(FUNDING_SCALE, a) <= Mul(FUNDING_SCALE, b)
    ensures a <= b
  {
    if a > b { MulStrict(FUNDING_SCALE, b, a); }
  }

  /** A market nobody has traded yet, at any cumulatives and starting rates. */
  predicate Untouched(l: Ledger) {
    l.positions == [] && l.charged == 0 && l.credited == 0 && l.market.openLong == 0 && l.market.openShort == 0
  }

  /**
   Funding solvency: after any run from an untouched market, rate changes included, the funding credited,
   settled or still pending, never exceeds the funding charged, settled or pending.
   */
  lemma FundingSolvency(l: Ledger, steps: seq<Step>)
    requires Untouched(l)
    ensures var r := Run(l, steps);
      r.credited + PendingEarned(r.positions, r.market.cums) <= r.charged + PendingOwed(r.positions, r.market.cums)
  {
    MulUnit(FUNDING_SCALE);
    assert Solvent(l);
    RunSolvent(l, steps);
    hide Mul, ExactOwed, ExactEarned, Run, SideSize, PendingOwed, PendingEarned;
    var r := Run(l, steps);
    var owed, earned := PendingOwed(r.positions, r.market.cums), PendingEarned(r.positions, r.market.cums);
    PendingCovers(r.positions, r.market.cums);
    MulAdd(FUNDING_SCALE, r.charged, owed);
    MulAdd(FUNDING_SCALE, r.credited, earned);
    ScaleOrder(r.credited + earned, r.charged + owed);
  }

  lemma {:induction false} ClosedOweNothing(ps: seq<Slot>, c: Cumulatives)
    requires forall i :: 0 <= i < |ps| ==> ps[i].size == 0
    ensures PendingOwed(ps, c) == 0
  {
    hide Mul, Floor, Ceil;
    if ps != [] {
      var p := ps[|ps| - 1];
      ClosedOweNothing(ps[..|ps| - 1], c);
      MulUnit(ChargeOf(c, p.isLong) - p.feeCheckpoint);
      ExactDivision(0, FUNDING_SCALE);
      MulUnit(FUNDING_SCALE);
    }
  }

  /** Once every position is closed, what was actually collected covers what was actually paid out. */
  lemma ClosedBookSolvent(l: Ledger, steps: seq<Step>)
    requires Untouched(l)
    requires var r := Run(l, steps); forall i :: 0 <= i < |r.positions| ==> r.positions[i].size == 0
    ensures Run(l, steps).credited <= Run(l, steps).charged
  {
    hide Run, PendingOwed, PendingEarned;
    FundingSolvency(l, steps);
    ClosedOweNothing(Run(l, steps).positions, Run(l, steps).market.cums);
  }
}
