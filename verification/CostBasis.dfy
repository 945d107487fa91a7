/**
 Weighted-average cost basis (apps/indexer/src/projections/cost-basis.ts): pure
 steps over a snapshot, in floor-division integer arithmetic on raw units.
 */
module CostBasis {
  import opened IntegerArithmetic

  datatype BasisState = Complete | Partial

  datatype Basis = Basis(qty: nat, cost: int, realizedPnl: int, state: BasisState, acquisitions: nat, disposals: nat)

  const EMPTY: Basis := Basis(0, 0, 0, Complete, 0, 0)

  function MulDivFloor(a: int, b: int, denom: int): int
    requires denom >= 0
  {
    if denom == 0 then 0 else Floor(Mul(a, b), denom)
  }

  function Acquire(b: Basis, qty: nat, cost: int): Basis {
    b.(qty := b.qty + qty, cost := b.cost + cost, acquisitions := b.acquisitions + 1)
  }

  function Dispose(b: Basis, qty: nat, proceeds: int): Basis {
    if b.state != Complete || b.qty == 0 then b.(disposals := b.disposals + 1)
    else
      var take := if qty >= b.qty then b.qty else qty;
      var attributed := MulDivFloor(b.cost, take, b.qty);
      Basis(b.qty - take, b.cost - attributed, b.realizedPnl + proceeds - attributed, b.state, b.acquisitions, b.disposals + 1)
  }

  function Demote(b: Basis): Basis { b.(state := Partial) }

  // --------------------------------------------------------------------- runs

  datatype Step = Acquired(qty: nat, cost: nat) | Disposed(qty: nat, proceeds: int) | Transferred

  function Apply(b: Basis, s: Step): Basis {
    match s
    case Acquired(qty, cost) => Acquire(b, qty, cost)
    case Disposed(qty, proceeds) => Dispose(b, qty, proceeds)
    case Transferred => Demote(b)
  }

  function Run(b: Basis, steps: seq<Step>): Basis {
    if steps == [] then b else Apply(Run(b, steps[..|steps| - 1]), steps[|steps| - 1])
  }

  /** Everything ever paid for acquisitions. */
  function AcquiredCost(steps: seq<Step>): int {
    if steps == [] then 0
    else AcquiredCost(steps[..|steps| - 1]) + (if steps[|steps| - 1].Acquired? then steps[|steps| - 1].cost else 0)
  }

  /** The proceeds of the disposals that found something attributable to dispose of. */
  function CountedProceeds(steps: seq<Step>): int {
    if steps == [] then 0
    else
      var s, before := steps[|steps| - 1], Run(EMPTY, steps[..|steps| - 1]);
      CountedProceeds(steps[..|steps| - 1]) + (if s.Disposed? && before.state == Complete && before.qty != 0 then s.proceeds else 0)
  }

  ghost predicate PositiveBuys(steps: seq<Step>) {
    forall i :: 0 <= i < |steps| && steps[i].Acquired? ==> steps[i].qty > 0
  }

  /** A floored share of a whole takes it all, and a smaller share no more. */
  lemma ShareBounds(cost: int, take: nat, qty: nat)
    requires 0 < take <= qty && cost >= 0
    ensures 0 <= MulDivFloor(cost, take, qty) <= cost
    ensures take == qty ==> MulDivFloor(cost, take, qty) == cost
  {
    hide Mul, Floor;
    MulOrder(cost, 0, take);
    MulUnit(cost);
    MulOrder(cost, take, qty);
    MulCommutes(cost, qty);
    FloorOrder(0, Mul(cost, take), qty);
    FloorOrder(Mul(cost, take), Mul(qty, cost), qty);
    ExactDivision(cost, qty);
    ExactDivision(0, qty);
    MulUnit(qty);
  }

  /** While undemoted: costs balance, nothing is negative, and no units means no cost. */
  ghost predicate Balanced(b: Basis, acquired: int, proceeds: int) {
    b.state == Complete ==>
      b.cost >= 0 && (b.qty == 0 ==> b.cost == 0) && b.realizedPnl == proceeds - (acquired - b.cost)
  }

  lemma BalancedStep(b: Basis, s: Step, acquired: int, proceeds: int)
    requires Balanced(b, acquired, proceeds) && (s.Acquired? ==> s.qty > 0)
    ensures Balanced(Apply(b, s), acquired + (if s.Acquired? then s.cost else 0),
      proceeds + (if s.Disposed? && b.state == Complete && b.qty != 0 then s.proceeds else 0))
  {
    hide MulDivFloor;
    if s.Disposed? && b.state == Complete && b.qty != 0 {
      var take := if s.qty >= b.qty then b.qty else s.qty;
      if take > 0 { ShareBounds(b.cost, take, b.qty); } else { NothingTaken(b.cost, b.qty); }
    }
  }

  lemma NothingTaken(cost: int, qty: nat)
    requires qty > 0
    ensures MulDivFloor(cost, 0, qty) == 0
  {
  }

  lemma {:induction false} RunBalanced(steps: seq<Step>)
    requires PositiveBuys(steps)
    ensures Balanced(Run(EMPTY, steps), AcquiredCost(steps), CountedProceeds(steps))
  {
    if steps != [] {
      hide Apply, Balanced;
      var front, s := steps[..|steps| - 1], steps[|steps| - 1];
      assert forall i :: 0 <= i < |front| ==> front[i] == steps[i];
      RunBalanced(front);
      BalancedStep(Run(EMPTY, front), s, AcquiredCost(front), CountedProceeds(front));
    }
  }

  /** Whenever an undemoted wallet is flat it carries no cost, and has realized exactly its proceeds minus its costs. */
  lemma FlatIsExact(steps: seq<Step>)
    requires PositiveBuys(steps) && Run(EMPTY, steps).state == Complete && Run(EMPTY, steps).qty == 0
    ensures Run(EMPTY, steps).cost == 0
    ensures Run(EMPTY, steps).realizedPnl == CountedProceeds(steps) - AcquiredCost(steps)
  {
    hide Run, AcquiredCost, CountedProceeds;
    RunBalanced(steps);
  }

  /** Once partial, always partial, and realized PnL never moves again. */
  lemma {:induction false} DemotedFrozen(b: Basis, steps: seq<Step>)
    requires b.state == Partial
    ensures Run(b, steps).state == Partial && Run(b, steps).realizedPnl == b.realizedPnl
  {
    if steps != [] { DemotedFrozen(b, steps[..|steps| - 1]); }
  }

  /** What a wallet holds by the log alone: each disposal takes what there is, up to its quantity. */
  function Held(steps: seq<Step>): nat {
    if steps == [] then 0
    else
      var s, before := steps[|steps| - 1], Held(steps[..|steps| - 1]);
      match s
      case Acquired(qty, _) => before + qty
      case Disposed(qty, _) => if qty < before then before - qty else 0
      case Transferred => before
  }

  function Buys(steps: seq<Step>): nat {
    if steps == [] then 0 else Buys(steps[..|steps| - 1]) + (if steps[|steps| - 1].Acquired? then 1 else 0)
  }

  function Sales(steps: seq<Step>): nat {
    if steps == [] then 0 else Sales(steps[..|steps| - 1]) + (if steps[|steps| - 1].Disposed? then 1 else 0)
  }

  function Demoted(steps: seq<Step>): bool {
    steps != [] && (steps[|steps| - 1].Transferred? || Demoted(steps[..|steps| - 1]))
  }

  /** A basis is partial exactly after a transfer; until then it holds what the log leaves, and it counts every step of either kind. */
  lemma {:induction false} HoldingsMatchLog(steps: seq<Step>)
    ensures var b := Run(EMPTY, steps);
      (b.state == Partial <==> Demoted(steps)) && (b.state == Complete ==> b.qty == Held(steps)) &&
      b.acquisitions == Buys(steps) && b.disposals == Sales(steps)
  {
    hide MulDivFloor;
    if steps != [] { HoldingsMatchLog(steps[..|steps| - 1]); }
  }

  // ----------------------------------------------------------------- pro rata

  /** Selling out of a position, without buying in between. */
  function Sells(b: Basis, qtys: seq<nat>): Basis {
    if qtys == [] then b else Dispose(Sells(b, qtys[..|qtys| - 1]), qtys[|qtys| - 1], 0)
  }

  /** The cost left is at or above its exact pro-rata share, by less than `k` units; everything scaled by `q0`. */
  ghost predicate NearProRata(cost: int, qty: int, c0: int, q0: int, k: int) {
    Mul(c0, qty) <= Mul(cost, q0) && (Mul(cost, q0) < Mul(c0, qty) + Mul(k, q0) || (k == 0 && Mul(cost, q0) == Mul(c0, qty)))
  }

  lemma CancelOrder(q: int, a: int, b: int)
    requires q > 0
    ensures Mul(q, a) <= Mul(q, b) ==> a <= b
    ensures Mul(q, a) < Mul(q, b) ==> a < b
  {
    hide Mul;
    if a > b { MulStrict(q, b, a); }
    if a >= b { MulOrder(q, b, a); }
  }

  /** One floored disposal keeps the remaining cost near pro rata. */
  lemma DisposalNearProRata(cost: int, qty: int, take: int, c0: int, q0: int, k: int)
    requires 0 <= take <= qty && 0 < qty && 0 < q0 && k >= 0 && cost >= 0 && c0 >= 0
    requires NearProRata(cost, qty, c0, q0, k)
    ensures NearProRata(cost - Floor(Mul(cost, take), qty), qty - take, c0, q0, k + 1)
  {
    hide Mul, Floor;
    var a, left := Floor(Mul(cost, take), qty), qty - take;
    var cost' := cost - a;
    DivisionBounds(Mul(cost, take), qty);
    MulSub(qty, cost, a);
    MulCommutes(qty, cost);
    MulSub(cost, qty, take);
    // qty * cost' lies in [cost * left, cost * left + qty)
    assert Mul(cost, left) <= Mul(qty, cost') < Mul(cost, left) + qty;
    // scale both ends by q0 and compare with the pro-rata line
    MulOrder(q0, Mul(cost, left), Mul(qty, cost'));
    MulStrict(q0, Mul(qty, cost'), Mul(cost, left) + qty);
    MulAdd(q0, Mul(cost, left), qty);
    Shuffle(q0, qty, cost');
    Shuffle(q0, left, cost);
    MulCommutes(cost, left);
    MulOrder(k, 0, q0);
    MulUnit(k);
    // left * (cost * q0) against left * (c0 * qty)
    MulOrder(left, Mul(c0, qty), Mul(cost, q0));
    MulOrder(left, Mul(cost, q0), Mul(c0, qty) + Mul(k, q0));
    MulAdd(left, Mul(c0, qty), Mul(k, q0));
    MulAssociates(left, c0, qty);
    MulCommutes(left, c0);
    MulCommutes(Mul(c0, left), qty);
    CancelOrder(qty, Mul(c0, left), Mul(cost', q0));
    // the accumulated slack
    MulOrder(Mul(k, q0), left, qty);
    MulCommutes(Mul(k, q0), left);
    MulCommutes(Mul(k, q0), qty);
    MulAdd(q0, k, 1);
    MulUnit(q0);
    MulAdd(qty, Mul(c0, left), Mul(k, q0) + q0);
    MulAdd(qty, Mul(k, q0), q0);
    MulCommutes(q0, qty);
    CancelOrder(qty, Mul(cost', q0), Mul(c0, left) + (Mul(k, q0) + q0));
  }

  lemma Shuffle(q0: int, x: int, y: int)
    ensures Mul(q0, Mul(x, y)) == Mul(x, Mul(y, q0))
  {
    hide Mul;
    MulCommutes(q0, Mul(x, y));
    MulAssociates(x, y, q0);
  }

  /** The slack grows by less than one raw unit per disposal, and a position sold out carries no cost. */
  lemma SellsNearProRata(b: Basis, qtys: seq<nat>)
    requires b.state == Complete && b.qty > 0 && b.cost >= 0
    ensures var r := Sells(b, qtys);
      r.state == Complete && r.cost >= 0 && (r.qty == 0 ==> r.cost == 0) && r.qty <= b.qty
    ensures NearProRata(Sells(b, qtys).cost, Sells(b, qtys).qty, b.cost, b.qty, |qtys|)
  {
    hide Mul, Floor;
    if qtys == [] {
      MulUnit(b.qty);
    } else {
      var front, q := qtys[..|qtys| - 1], qtys[|qtys| - 1];
      var r := Sells(b, front);
      SellsNearProRata(b, front);
      if r.qty == 0 {
        MulAdd(b.qty, |front|, 1);
        MulUnit(b.qty);
      } else {
        var take := if q >= r.qty then r.qty else q;
        DisposalNearProRata(r.cost, r.qty, take, b.cost, b.qty, |front|);
        if take > 0 { ShareBounds(r.cost, take, r.qty); } else { MulUnit(r.cost); ExactDivision(0, r.qty); MulUnit(r.qty); }
      }
    }
  }

  /** After k disposals the cost left exceeds exact pro rata by at least 0 and less than k raw units. */
  lemma ProRataWithinK(b: Basis, qtys: seq<nat>)
    requires b.state == Complete && b.qty > 0 && b.cost >= 0 && qtys != []
    ensures var r := Sells(b, qtys);
      0 <= r.cost * b.qty - b.cost * r.qty < |qtys| * b.qty
  {
    hide Sells;
    SellsNearProRata(b, qtys);
    var r := Sells(b, qtys);
    ProductsAreMul(r.cost, b.qty, b.cost, r.qty, |qtys|);
  }

  lemma ProductsAreMul(a: int, b: int, c: int, d: int, k: int)
    ensures Mul(a, b) == a * b && Mul(c, d) == c * d && Mul(k, b) == k * b
  {
  }

  // -------------------------------------------------------------- vault twins

  datatype Vault = Vault(shares: nat, assetsCost: int, realizedPnl: int, state: BasisState, deposits: nat, withdraws: nat)

  function Deposit(v: Vault, assets: int, shares: nat): Vault {
    v.(shares := v.shares + shares, assetsCost := v.assetsCost + assets, deposits := v.deposits + 1)
  }

  function Withdraw(v: Vault, assetsOut: int, burned: nat): Vault {
    if v.state != Complete || v.shares == 0 then
      v.(shares := if v.shares >= burned then v.shares - burned else 0, withdraws := v.withdraws + 1)
    else
      var take := if burned >= v.shares then v.shares else burned;
      var costBurned := MulDivFloor(v.assetsCost, take, v.shares);
      Vault(v.shares - take, v.assetsCost - costBurned, v.realizedPnl + assetsOut - costBurned, v.state, v.deposits, v.withdraws + 1)
  }

  function DemoteVault(v: Vault): Vault { v.(state := Partial) }

  function ApplyVault(v: Vault, s: Step): Vault {
    match s
    case Acquired(shares, assets) => Deposit(v, assets, shares)
    case Disposed(burned, assetsOut) => Withdraw(v, assetsOut, burned)
    case Transferred => DemoteVault(v)
  }

  function RunVault(v: Vault, steps: seq<Step>): Vault {
    if steps == [] then v else ApplyVault(RunVault(v, steps[..|steps| - 1]), steps[|steps| - 1])
  }

  function AsBasis(v: Vault): Basis {
    Basis(v.shares, v.assetsCost, v.realizedPnl, v.state, v.deposits, v.withdraws)
  }

  /** Up to the share count of a demoted wallet, a vault runs exactly as a GPU basis does. */
  lemma {:induction false} VaultRunsAsBasis(v: Vault, steps: seq<Step>)
    ensures var x, y := AsBasis(RunVault(v, steps)), Run(AsBasis(v), steps);
      x.state == y.state && (x.state == Complete ==> x == y) && x.realizedPnl == y.realizedPnl
  {
    hide MulDivFloor;
    if steps != [] { VaultRunsAsBasis(v, steps[..|steps| - 1]); }
  }

  /** So a flat, undemoted vault wallet too has realized exactly its proceeds minus its costs. */
  lemma FlatVaultIsExact(steps: seq<Step>)
    requires PositiveBuys(steps)
    requires var v := RunVault(Vault(0, 0, 0, Complete, 0, 0), steps); v.state == Complete && v.shares == 0
    ensures var v := RunVault(Vault(0, 0, 0, Complete, 0, 0), steps);
      v.assetsCost == 0 && v.realizedPnl == CountedProceeds(steps) - AcquiredCost(steps)
  {
    hide Run, RunVault, AcquiredCost, CountedProceeds;
    VaultRunsAsBasis(Vault(0, 0, 0, Complete, 0, 0), steps);
    FlatIsExact(steps);
  }
}
