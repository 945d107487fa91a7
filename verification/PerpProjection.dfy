/**
 The perp projections of the indexer (apps/indexer/src/handlers/perp.ts):
 claimable balances, positions, orders and engine stats, derived from the event
 log through delta upserts. The event sequence itself is the append-only log.
 Addresses are already lower-cased.
 */
module PerpProjection {
  import opened Wrappers
  import opened FiniteSums

  datatype Claimable = Claimable(balance: int, totalSettled: int, totalClaimed: int, settleCount: int, claimCount: int)

  datatype Position = Position(
    sizeUsd: int, collateral: int, entryPrice: int, earnedFunding: int, increaseCount: int, decreaseCount: int, realizedPnl: int)

  datatype EngineStats = EngineStats(minOrderDelaySec: Option<int>, orderCount: int, liquidationCount: int, claimedGusd: int)

  datatype OrderStatus = Pending | Executed | Cancelled

  datatype PositionKey = PositionKey(wallet: string, gpuId: string, isLong: bool)

  datatype Event =
    | MinOrderDelaySet(delaySec: int)
    | OrderCreated(orderId: int)
    | OrderExecuted(orderId: int, position: PositionKey, isIncrease: bool, realizedPnl: int)
    | OrderCancelled(orderId: int)
    | PositionIncreased(position: PositionKey, newSizeUsd: int, newCollateral: int, newEntryPrice: int, newEarnedFunding: int)
    | PositionDecreased(position: PositionKey, remainingSizeUsd: int, remainingCollateral: int, remainingEarnedFunding: int)
    | PositionClosed(position: PositionKey)
    | PositionLiquidated(position: PositionKey)
    | ClaimableSettled(account: string, amount: nat)
    | Claimed(account: string, paid: nat)

  datatype Tables = Tables(
    claimables: map<string, Claimable>, positions: map<PositionKey, Position>, orders: map<int, OrderStatus>, stats: Option<EngineStats>)

  const ZERO_STATS: EngineStats := EngineStats(None, 0, 0, 0)
  const ZERO_CLAIMABLE: Claimable := Claimable(0, 0, 0, 0, 0)
  const ZERO_POSITION: Position := Position(0, 0, 0, 0, 0, 0, 0)

  // -------------------------------------------------------------- the handlers

  function BumpStats(t: Tables, orders: int, liquidations: int, claimed: int): Tables {
    var s := if t.stats.Some? then t.stats.value else ZERO_STATS;
    t.(stats := Some(s.(orderCount := s.orderCount + orders, liquidationCount := s.liquidationCount + liquidations,
      claimedGusd := s.claimedGusd + claimed)))
  }

  function BumpClaimable(t: Tables, wallet: string, d: Claimable): Tables {
    var c := if wallet in t.claimables then t.claimables[wallet] else ZERO_CLAIMABLE;
    t.(claimables := t.claimables[wallet := Claimable(c.balance + d.balance, c.totalSettled + d.totalSettled,
      c.totalClaimed + d.totalClaimed, c.settleCount + d.settleCount, c.claimCount + d.claimCount)])
  }

  function PositionAt(t: Tables, k: PositionKey): Position {
    if k in t.positions then t.positions[k] else ZERO_POSITION
  }

  function CreditPnl(t: Tables, k: PositionKey, pnl: int): Tables {
    var p := PositionAt(t, k);
    t.(positions := t.positions[k := p.(realizedPnl := p.realizedPnl + pnl)])
  }

  function Apply(t: Tables, e: Event): Result<Tables> {
    match e
    case MinOrderDelaySet(delay) =>
      Success(t.(stats := Some(if t.stats.Some? then t.stats.value.(minOrderDelaySec := Some(delay)) else ZERO_STATS)))
    case OrderCreated(id) => Success(BumpStats(t.(orders := t.orders[id := Pending]), 1, 0, 0))
    case OrderExecuted(id, k, isIncrease, pnl) =>
      var u := if id in t.orders then t.(orders := t.orders[id := Executed]) else t;
      Success(if isIncrease then u else CreditPnl(u, k, pnl))
    case OrderCancelled(id) =>
      if id !in t.orders then Failure("Cannot update missing PerpOrder") else Success(t.(orders := t.orders[id := Cancelled]))
    case PositionIncreased(k, size, collateral, entry, earned) =>
      var p := PositionAt(t, k);
      Success(t.(positions := t.positions[k := p.(sizeUsd := size, collateral := collateral, entryPrice := entry,
        earnedFunding := earned, increaseCount := p.increaseCount + 1)]))
    case PositionDecreased(k, size, collateral, earned) =>
      var p := PositionAt(t, k);
      Success(t.(positions := t.positions[k := p.(sizeUsd := size, collateral := collateral,
        earnedFunding := earned, decreaseCount := p.decreaseCount + 1)]))
    case PositionClosed(k) =>
      Success(if k in t.positions then t.(positions := t.positions[k := t.positions[k].(sizeUsd := 0)]) else t)
    case PositionLiquidated(k) =>
      var u := if k in t.positions then t.(positions := t.positions[k := t.positions[k].(sizeUsd := 0)]) else t;
      Success(BumpStats(u, 0, 1, 0))
    case ClaimableSettled(wallet, amount) =>
      Success(if amount > 0 then BumpClaimable(t, wallet, Claimable(amount, amount, 0, 1, 0)) else t)
    case Claimed(wallet, paid) =>
      var u := if paid > 0 then BumpClaimable(t, wallet, Claimable(-(paid as int), 0, paid, 0, 1)) else t;
      Success(BumpStats(u, 0, 0, paid))
  }

  function Index(log: seq<Event>): Result<Tables> {
    if log == [] then Success(Tables(map[], map[], map[], None))
    else
      var before := Index(log[..|log| - 1]);
      if before.Failure? then before else Apply(before.value, log[|log| - 1])
  }

  // ---------------------------------------------------------- the entity store

  class PerpStore {
    var claimables: map<string, Claimable>
    var positions: map<PositionKey, Position>
    var orders: map<int, OrderStatus>
    var stats: Option<EngineStats>

    constructor ()
      ensures Contents() == Tables(map[], map[], map[], None)
    {
      claimables, positions, orders, stats := map[], map[], map[], None;
    }

    function Contents(): Tables
      reads this
    {
      Tables(claimables, positions, orders, stats)
    }

    /** Insert the zero row plus the deltas, or add the deltas to the stored row. */
    method BumpEngineStats(orderDelta: int, liquidationDelta: int, claimedDelta: int)
      modifies this`stats
      ensures Contents() == BumpStats(old(Contents()), orderDelta, liquidationDelta, claimedDelta)
    {
      if stats.None? {
        stats := Some(EngineStats(None, orderDelta, liquidationDelta, claimedDelta));
      } else {
        var s := stats.value;
        stats := Some(EngineStats(s.minOrderDelaySec, s.orderCount + orderDelta,
          s.liquidationCount + liquidationDelta, s.claimedGusd + claimedDelta));
      }
    }

    method BumpWallet(wallet: string, d: Claimable)
      modifies this`claimables
      ensures Contents() == BumpClaimable(old(Contents()), wallet, d)
    {
      if wallet in claimables {
        var c := claimables[wallet];
        claimables := claimables[wallet := Claimable(c.balance + d.balance, c.totalSettled + d.totalSettled,
          c.totalClaimed + d.totalClaimed, c.settleCount + d.settleCount, c.claimCount + d.claimCount)];
      } else {
        claimables := claimables[wallet := d];
      }
    }

    method CreditPositionPnl(k: PositionKey, pnl: int)
      modifies this`positions
      ensures Contents() == CreditPnl(old(Contents()), k, pnl)
    {
      if k in positions {
        positions := positions[k := positions[k].(realizedPnl := positions[k].realizedPnl + pnl)];
      } else {
        positions := positions[k := Position(0, 0, 0, 0, 0, 0, pnl)];
      }
    }

    method WritePosition(k: PositionKey, p: Position)
      modifies this`positions
      ensures Contents() == old(Contents()).(positions := old(positions)[k := p])
    {
      positions := positions[k := p];
    }

    /** One event; a handler that throws commits nothing. */
    method Process(e: Event) returns (ok: bool)
      modifies this
      ensures var r := Apply(old(Contents()), e);
        ok == r.Success? && Contents() == if ok then r.value else old(Contents())
    {
      hide BumpStats, BumpClaimable, CreditPnl;
      ok := true;
      match e {
        case MinOrderDelaySet(delay) =>
          if stats.None? {
            stats := Some(ZERO_STATS);
          } else {
            stats := Some(stats.value.(minOrderDelaySec := Some(delay)));
          }
        case OrderCreated(id) =>
          orders := orders[id := Pending];
          BumpEngineStats(1, 0, 0);
        case OrderExecuted(id, k, isIncrease, pnl) =>
          if id in orders { orders := orders[id := Executed]; }
          if !isIncrease { CreditPositionPnl(k, pnl); }
        case OrderCancelled(id) =>
          if id !in orders { return false; }
          orders := orders[id := Cancelled];
        case PositionIncreased(k, size, collateral, entry, earned) =>
          if k in positions {
            var p := positions[k];
            WritePosition(k, p.(sizeUsd := size, collateral := collateral, entryPrice := entry,
              earnedFunding := earned, increaseCount := p.increaseCount + 1));
          } else {
            WritePosition(k, Position(size, collateral, entry, earned, 1, 0, 0));
          }
        case PositionDecreased(k, size, collateral, earned) =>
          if k in positions {
            var p := positions[k];
            WritePosition(k, p.(sizeUsd := size, collateral := collateral,
              earnedFunding := earned, decreaseCount := p.decreaseCount + 1));
          } else {
            WritePosition(k, Position(size, collateral, 0, earned, 0, 1, 0));
          }
        case PositionClosed(k) =>
          if k in positions { WritePosition(k, positions[k].(sizeUsd := 0)); }
        case PositionLiquidated(k) =>
          if k in positions { WritePosition(k, positions[k].(sizeUsd := 0)); }
          BumpEngineStats(0, 1, 0);
        case ClaimableSettled(wallet, amount) =>
          if amount > 0 { BumpWallet(wallet, Claimable(amount, amount, 0, 1, 0)); }
        case Claimed(wallet, paid) =>
          if paid > 0 { BumpWallet(wallet, Claimable(-(paid as int), 0, paid, 0, 1)); }
          BumpEngineStats(0, 0, paid);
      }
    }
  }

  // ------------------------------------------------------------- the log's sums

  /** What one event settles to a wallet. */
  function SettledBy(e: Event, wallet: string): nat {
    if e.ClaimableSettled? && e.account == wallet then e.amount else 0
  }

  /** What one event pays a wallet. */
  function PaidBy(e: Event, wallet: string): nat {
    if e.Claimed? && e.account == wallet then e.paid else 0
  }

  function LoggedSettled(log: seq<Event>, wallet: string): int {
    if log == [] then 0 else LoggedSettled(log[..|log| - 1], wallet) + SettledBy(log[|log| - 1], wallet)
  }

  function LoggedPaid(log: seq<Event>, wallet: string): int {
    if log == [] then 0 else LoggedPaid(log[..|log| - 1], wallet) + PaidBy(log[|log| - 1], wallet)
  }

  function LoggedSettles(log: seq<Event>, wallet: string): int {
    if log == [] then 0 else LoggedSettles(log[..|log| - 1], wallet) + (if SettledBy(log[|log| - 1], wallet) > 0 then 1 else 0)
  }

  function LoggedClaims(log: seq<Event>, wallet: string): int {
    if log == [] then 0 else LoggedClaims(log[..|log| - 1], wallet) + (if PaidBy(log[|log| - 1], wallet) > 0 then 1 else 0)
  }

  function LoggedPnl(log: seq<Event>, k: PositionKey): int {
    if log == [] then 0
    else
      var e := log[|log| - 1];
      LoggedPnl(log[..|log| - 1], k) + (if e.OrderExecuted? && !e.isIncrease && e.position == k then e.realizedPnl else 0)
  }

  function LoggedIncreases(log: seq<Event>, k: PositionKey): int {
    if log == [] then 0
    else
      var e := log[|log| - 1];
      LoggedIncreases(log[..|log| - 1], k) + (if e.PositionIncreased? && e.position == k then 1 else 0)
  }

  function LoggedDecreases(log: seq<Event>, k: PositionKey): int {
    if log == [] then 0
    else
      var e := log[|log| - 1];
      LoggedDecreases(log[..|log| - 1], k) + (if e.PositionDecreased? && e.position == k then 1 else 0)
  }

  function ClaimableAt(t: Tables, wallet: string): Claimable {
    if wallet in t.claimables then t.claimables[wallet] else ZERO_CLAIMABLE
  }

  function StatsAt(t: Tables): EngineStats { if t.stats.Some? then t.stats.value else ZERO_STATS }

  function ClaimedCells(claimables: map<string, Claimable>): map<string, int> {
    map w | w in claimables :: claimables[w].totalClaimed
  }

  // ---------------------------------------------------------------- agreement

  ghost predicate WalletAgrees(t: Tables, log: seq<Event>, wallet: string) {
    var c := ClaimableAt(t, wallet);
    c.balance == c.totalSettled - c.totalClaimed &&
    c.totalSettled == LoggedSettled(log, wallet) && c.totalClaimed == LoggedPaid(log, wallet) &&
    c.settleCount == LoggedSettles(log, wallet) && c.claimCount == LoggedClaims(log, wallet)
  }

  ghost predicate PositionAgrees(t: Tables, log: seq<Event>, k: PositionKey) {
    var p := PositionAt(t, k);
    p.realizedPnl == LoggedPnl(log, k) && p.increaseCount == LoggedIncreases(log, k) && p.decreaseCount == LoggedDecreases(log, k)
  }

  ghost predicate EngineAgrees(t: Tables) {
    StatsAt(t).claimedGusd == Total(ClaimedCells(t.claimables))
  }

  lemma ClaimedTotals(claimables: map<string, Claimable>, wallet: string, row: Claimable)
    ensures Total(ClaimedCells(claimables[wallet := row])) ==
      Total(ClaimedCells(claimables)) - (if wallet in claimables then claimables[wallet].totalClaimed else 0) + row.totalClaimed
  {
    hide Total;
    assert ClaimedCells(claimables[wallet := row]) == ClaimedCells(claimables)[wallet := row.totalClaimed];
    TotalUpdate(ClaimedCells(claimables), wallet, row.totalClaimed);
  }

  lemma EngineStep(t: Tables, e: Event)
    requires EngineAgrees(t) && Apply(t, e).Success?
    ensures EngineAgrees(Apply(t, e).value)
  {
    hide Total, ClaimedCells;
    var u := Apply(t, e).value;
    if e.ClaimableSettled? && e.amount > 0 { ClaimedTotals(t.claimables, e.account, u.claimables[e.account]); }
    if e.Claimed? && e.paid > 0 { ClaimedTotals(t.claimables, e.account, u.claimables[e.account]); }
  }

  /** One event moves a wallet's row by what it settles to it and what it pays it, and by nothing else. */
  lemma ClaimableStep(t: Tables, e: Event, wallet: string)
    requires Apply(t, e).Success?
    ensures var c, d := ClaimableAt(t, wallet), ClaimableAt(Apply(t, e).value, wallet);
      d.totalSettled == c.totalSettled + SettledBy(e, wallet) && d.totalClaimed == c.totalClaimed + PaidBy(e, wallet) &&
      d.balance == c.balance + SettledBy(e, wallet) - PaidBy(e, wallet) &&
      d.settleCount == c.settleCount + (if SettledBy(e, wallet) > 0 then 1 else 0) &&
      d.claimCount == c.claimCount + (if PaidBy(e, wallet) > 0 then 1 else 0)
  {
    hide CreditPnl, PositionAt;
    if !e.ClaimableSettled? && !e.Claimed? {
      OtherKeepsClaimables(t, e);
      hide Apply;
    }
  }

  lemma OtherKeepsClaimables(t: Tables, e: Event)
    requires Apply(t, e).Success? && !e.ClaimableSettled? && !e.Claimed?
    ensures Apply(t, e).value.claimables == t.claimables
  {
    hide PositionAt;
  }

  lemma WalletStep(t: Tables, log: seq<Event>, e: Event, wallet: string)
    requires WalletAgrees(t, log, wallet) && Apply(t, e).Success?
    ensures WalletAgrees(Apply(t, e).value, log + [e], wallet)
  {
    hide Apply, ClaimableAt, SettledBy, PaidBy;
    ClaimableStep(t, e, wallet);
    assert (log + [e])[..|log|] == log;
  }

  lemma PositionStep(t: Tables, log: seq<Event>, e: Event, k: PositionKey)
    requires PositionAgrees(t, log, k) && Apply(t, e).Success?
    ensures PositionAgrees(Apply(t, e).value, log + [e], k)
  {
    assert (log + [e])[..|log|] == log;
  }

  /** A wallet's claimable balance is what the log settled to it minus what the log paid it. */
  lemma {:induction false} BalancesMatchLog(log: seq<Event>, wallet: string)
    requires Index(log).Success?
    ensures WalletAgrees(Index(log).value, log, wallet)
  {
    if log != [] {
      hide Apply, WalletAgrees;
      var front := log[..|log| - 1];
      BalancesMatchLog(front, wallet);
      WalletStep(Index(front).value, front, log[|log| - 1], wallet);
      assert log == front + [log[|log| - 1]];
    }
  }

  /** The engine's claimed total is the sum over wallets. */
  lemma {:induction false} ClaimedMatchesWallets(log: seq<Event>)
    requires Index(log).Success?
    ensures EngineAgrees(Index(log).value)
  {
    if log == [] {
      assert ClaimedCells(map[]) == map[];
    } else {
      hide Apply, EngineAgrees;
      ClaimedMatchesWallets(log[..|log| - 1]);
      EngineStep(Index(log[..|log| - 1]).value, log[|log| - 1]);
    }
  }

  /**
   A position's realized PnL is the log's non-increase executions and its counts
   are the log's events, whether or not its opening was ever indexed.
   */
  lemma {:induction false} PositionsMatchLog(log: seq<Event>, k: PositionKey)
    requires Index(log).Success?
    ensures PositionAgrees(Index(log).value, log, k)
  {
    if log != [] {
      hide Apply, PositionAgrees;
      var front := log[..|log| - 1];
      PositionsMatchLog(front, k);
      PositionStep(Index(front).value, front, log[|log| - 1], k);
      assert log == front + [log[|log| - 1]];
    }
  }

  // --------------------------------------------------------- the entry price

  /** The entry price the log last gave a position, or zero when its opening was never indexed. */
  function LoggedEntry(log: seq<Event>, k: PositionKey): int {
    if log == [] then 0
    else
      var e := log[|log| - 1];
      if e.PositionIncreased? && e.position == k then e.newEntryPrice else LoggedEntry(log[..|log| - 1], k)
  }

  lemma EntryStep(t: Tables, e: Event, k: PositionKey)
    requires Apply(t, e).Success?
    ensures PositionAt(Apply(t, e).value, k).entryPrice ==
      if e.PositionIncreased? && e.position == k then e.newEntryPrice else PositionAt(t, k).entryPrice
  {
  }

  /** A stored position's entry price is the one of its last logged increase, zero without one. */
  lemma {:induction false} EntriesMatchLog(log: seq<Event>, k: PositionKey)
    requires Index(log).Success?
    ensures PositionAt(Index(log).value, k).entryPrice == LoggedEntry(log, k)
  {
    if log != [] {
      hide Apply;
      EntriesMatchLog(log[..|log| - 1], k);
      EntryStep(Index(log[..|log| - 1]).value, log[|log| - 1], k);
    }
  }

  // ------------------------------------------------ sizes, orders and counts

  /** The size the log last gave a position: by its increase or decrease, or zero by its close or liquidation. */
  function LoggedSize(log: seq<Event>, k: PositionKey): int {
    if log == [] then 0
    else
      var e := log[|log| - 1];
      if e.PositionIncreased? && e.position == k then e.newSizeUsd
      else if e.PositionDecreased? && e.position == k then e.remainingSizeUsd
      else if (e.PositionClosed? || e.PositionLiquidated?) && e.position == k then 0
      else LoggedSize(log[..|log| - 1], k)
  }

  /** The collateral and the earned funding of its last increase or decrease. */
  function LoggedMargin(log: seq<Event>, k: PositionKey): (int, int) {
    if log == [] then (0, 0)
    else
      var e := log[|log| - 1];
      if e.PositionIncreased? && e.position == k then (e.newCollateral, e.newEarnedFunding)
      else if e.PositionDecreased? && e.position == k then (e.remainingCollateral, e.remainingEarnedFunding)
      else LoggedMargin(log[..|log| - 1], k)
  }

  /** An order's status is that of its last event; one that was never created has none. */
  function LoggedStatus(log: seq<Event>, id: int): Option<OrderStatus> {
    if log == [] then None
    else
      var e, before := log[|log| - 1], LoggedStatus(log[..|log| - 1], id);
      if e.OrderCreated? && e.orderId == id then Some(Pending)
      else if e.OrderExecuted? && e.orderId == id && before.Some? then Some(Executed)
      else if e.OrderCancelled? && e.orderId == id && before.Some? then Some(Cancelled)
      else before
  }

  function LoggedOrders(log: seq<Event>): int {
    if log == [] then 0 else LoggedOrders(log[..|log| - 1]) + (if log[|log| - 1].OrderCreated? then 1 else 0)
  }

  function LoggedLiquidations(log: seq<Event>): int {
    if log == [] then 0 else LoggedLiquidations(log[..|log| - 1]) + (if log[|log| - 1].PositionLiquidated? then 1 else 0)
  }

  function StatusAt(t: Tables, id: int): Option<OrderStatus> { if id in t.orders then Some(t.orders[id]) else None }

  ghost predicate RowsMatch(t: Tables, log: seq<Event>, k: PositionKey, id: int) {
    PositionAt(t, k).sizeUsd == LoggedSize(log, k) &&
    (PositionAt(t, k).collateral, PositionAt(t, k).earnedFunding) == LoggedMargin(log, k) &&
    StatusAt(t, id) == LoggedStatus(log, id) &&
    StatsAt(t).orderCount == LoggedOrders(log) && StatsAt(t).liquidationCount == LoggedLiquidations(log)
  }

  lemma SizeStep(t: Tables, e: Event, k: PositionKey)
    requires Apply(t, e).Success?
    ensures var p, q := PositionAt(t, k), PositionAt(Apply(t, e).value, k);
      (q.sizeUsd == if e.PositionIncreased? && e.position == k then e.newSizeUsd
        else if e.PositionDecreased? && e.position == k then e.remainingSizeUsd
        else if (e.PositionClosed? || e.PositionLiquidated?) && e.position == k then 0 else p.sizeUsd) &&
      ((q.collateral, q.earnedFunding) == if e.PositionIncreased? && e.position == k then (e.newCollateral, e.newEarnedFunding)
        else if e.PositionDecreased? && e.position == k then (e.remainingCollateral, e.remainingEarnedFunding)
        else (p.collateral, p.earnedFunding))
  {
  }

  lemma OrderStep(t: Tables, e: Event, id: int)
    requires Apply(t, e).Success?
    ensures StatusAt(Apply(t, e).value, id) ==
      if e.OrderCreated? && e.orderId == id then Some(Pending)
      else if e.OrderExecuted? && e.orderId == id && StatusAt(t, id).Some? then Some(Executed)
      else if e.OrderCancelled? && e.orderId == id && StatusAt(t, id).Some? then Some(Cancelled)
      else StatusAt(t, id)
    ensures StatsAt(Apply(t, e).value).orderCount == StatsAt(t).orderCount + (if e.OrderCreated? then 1 else 0)
    ensures StatsAt(Apply(t, e).value).liquidationCount == StatsAt(t).liquidationCount + (if e.PositionLiquidated? then 1 else 0)
  {
    hide PositionAt;
  }

  /**
   A stored position has the size, collateral and earned funding its last logged
   event gave it, an order the status of its last one, and the engine counts every
   order and liquidation of the log.
   */
  lemma {:induction false} RowsMatchLog(log: seq<Event>, k: PositionKey, id: int)
    requires Index(log).Success?
    ensures RowsMatch(Index(log).value, log, k, id)
  {
    if log != [] {
      hide Apply, PositionAt, StatusAt, StatsAt;
      var front, e := log[..|log| - 1], log[|log| - 1];
      RowsMatchLog(front, k, id);
      SizeStep(Index(front).value, e, k);
      OrderStep(Index(front).value, e, id);
    }
  }

  // --------------------------------------------------------- the order delay

  /** An event that writes the engine stats row. */
  predicate TouchesStats(e: Event) {
    e.MinOrderDelaySet? || e.OrderCreated? || e.PositionLiquidated? || e.Claimed?
  }

  lemma {:induction false} StatsExist(log: seq<Event>)
    requires Index(log).Success?
    ensures Index(log).value.stats.Some? <==> exists i :: 0 <= i < |log| && TouchesStats(log[i])
  {
    if log != [] {
      var k := |log| - 1;
      StatsExist(log[..k]);
      if i :| 0 <= i < |log| && TouchesStats(log[i]) {
        if i < k { assert log[..k][i] == log[i]; }
      }
      if Index(log[..k]).value.stats.Some? {
        var i :| 0 <= i < k && TouchesStats(log[..k][i]);
        assert TouchesStats(log[i]);
      }
    }
  }

  /** A delay setting is stored exactly when some earlier event had written the stats row. */
  lemma DelayStoredExactly(log: seq<Event>, delay: int)
    requires Index(log).Success?
    ensures Apply(Index(log).value, MinOrderDelaySet(delay)).value.stats.value.minOrderDelaySec == Some(delay) <==>
      exists i :: 0 <= i < |log| && TouchesStats(log[i])
  {
    StatsExist(log);
  }

  /** The first delay ever set is dropped when nothing precedes it. */
  lemma FirstDelayDropped(delay: int)
    ensures Index([MinOrderDelaySet(delay)]).Success?
    ensures Index([MinOrderDelaySet(delay)]).value.stats == Some(ZERO_STATS)
  {
    assert [MinOrderDelaySet(delay)][..0] == [];
    assert Index([]) == Success(Tables(map[], map[], map[], None));
  }

  /** The delay the log leaves behind: the last setting that was not the first event to write the engine row. */
  ghost function LoggedDelay(log: seq<Event>): Option<int> {
    if log == [] then None
    else
      var front, e := log[..|log| - 1], log[|log| - 1];
      if e.MinOrderDelaySet? && (exists i :: 0 <= i < |front| && TouchesStats(front[i])) then Some(e.delaySec) else LoggedDelay(front)
  }

  /** Over any log the stored delay is the last setting that another engine event preceded. */
  lemma {:induction false} DelayMatchesLog(log: seq<Event>)
    requires Index(log).Success?
    ensures StatsAt(Index(log).value).minOrderDelaySec == LoggedDelay(log)
  {
    if log != [] {
      hide Apply;
      var front, e := log[..|log| - 1], log[|log| - 1];
      DelayMatchesLog(front);
      StatsExist(front);
      DelayStep(Index(front).value, e);
    }
  }

  lemma DelayStep(t: Tables, e: Event)
    requires Apply(t, e).Success?
    ensures StatsAt(Apply(t, e).value).minOrderDelaySec ==
      if e.MinOrderDelaySet? && t.stats.Some? then Some(e.delaySec) else StatsAt(t).minOrderDelaySec
  {
    hide PositionAt;
  }
}
