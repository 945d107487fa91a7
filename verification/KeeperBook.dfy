/**
 The keeper's book as it is loaded from the indexer's rows
 (apps/keeper/src/state.ts), joining the position projection to the tick
 evaluator: a decrease indexed before the position's opening stores an entry price
 of zero, and that row alone makes every later tick of its market throw.
 */
module KeeperBook {
  import opened IntegerArithmetic
  import opened PerpMath
  import PerpProjection
  import Strategy

  /** The columns of a position row that its projection does not fold. */
  datatype Checkpoints = Checkpoints(fee: nat, credit: nat, borrow: nat)

  predicate Loadable(row: PerpProjection.Position) {
    row.sizeUsd > 0 && row.collateral >= 0 && row.entryPrice >= 0 && row.earnedFunding >= 0
  }

  /** One row of the book: rows of size zero are not loaded. */
  function HoldingOf(k: PerpProjection.PositionKey, row: PerpProjection.Position, c: Checkpoints): Strategy.Holding
    requires Loadable(row)
  {
    Strategy.Holding(k.wallet, k.gpuId,
      Position(row.sizeUsd, row.collateral, row.entryPrice, c.fee, c.credit, c.borrow, row.earnedFunding, k.isLong))
  }

  /** A loaded position makes a tick throw exactly when no logged increase ever gave it an entry price. */
  lemma ThrowsExactlyUnopened(log: seq<PerpProjection.Event>, k: PerpProjection.PositionKey, c: Checkpoints, price: int)
    requires PerpProjection.Index(log).Success? && price != 0
    requires Loadable(PerpProjection.PositionAt(PerpProjection.Index(log).value, k))
    ensures var h := HoldingOf(k, PerpProjection.PositionAt(PerpProjection.Index(log).value, k), c);
      Strategy.Throws(h, k.gpuId, price) <==> PerpProjection.LoggedEntry(log, k) == 0
  {
    hide PerpProjection.Index, PerpProjection.LoggedEntry;
    PerpProjection.EntriesMatchLog(log, k);
  }

  /** A loaded position is due on its row's own numbers: below its exact margin always, four units above it never. */
  lemma LoadedPositionGate(k: PerpProjection.PositionKey, row: PerpProjection.Position, c: Checkpoints, m: Strategy.KeeperMarket, price: int, nowSec: int)
    requires Loadable(row) && row.entryPrice > 0
    ensures var now := Advance(m.funding, nowSec);
      var profit := Ratio(Mul(row.sizeUsd, if k.isLong then price - row.entryPrice else row.entryPrice - price), row.entryPrice);
      var earned := Ratio(Mul(row.sizeUsd, Grown(if k.isLong then now.creditLong else now.creditShort, c.credit)), 1_000_000_000_000_000_000);
      var owed := Ratio(Mul(row.sizeUsd, Grown(if k.isLong then now.chargeLong else now.chargeShort, c.fee)), 1_000_000_000_000_000_000);
      var borrow := Ratio(Mul(row.sizeUsd, Grown(now.borrow, c.borrow)), 1_000_000_000_000_000_000);
      var equity := row.collateral as real + row.earnedFunding as real + profit + earned - owed - borrow;
      var margin := Ratio(Mul(row.sizeUsd, m.maintenanceMarginBps), 10_000);
      (equity < margin ==> Strategy.Due(HoldingOf(k, row, c), k.gpuId, m, price, nowSec)) &&
      (equity >= margin + 4.0 ==> !Strategy.Due(HoldingOf(k, row, c), k.gpuId, m, price, nowSec))
  {
    hide Advance, Ratio, Mul, Strategy.Due;
    Strategy.DueByExactEquity(HoldingOf(k, row, c), k.gpuId, m, price, nowSec);
  }

  const KEY: PerpProjection.PositionKey := PerpProjection.PositionKey("0xa", "H100", true)

  const MARKET: Strategy.KeeperMarket := Strategy.KeeperMarket(true, 100, Market(0, 0, Cumulatives(0, 0, 0, 0, 0), 0, 0, 0))
  const BANKRUPT: Position := Position(100, 0, 40, 0, 0, 0, 0, true)

  /** A long without collateral whose price has halved. */
  lemma BankruptIsDue()
    ensures Strategy.MustLiquidate(Strategy.Holding("0xb", "H100", BANKRUPT), "H100", MARKET, 20, 0)
  {
    AdvanceIdempotentBefore(MARKET.funding, 0);
    hide Advance;
    PnlIsFloor(100, 40, true, 20);
    assert Pnl(100, 40, true, 20) < 0;
  }

  lemma UnseenOpen()
    ensures PerpProjection.Index([PerpProjection.PositionDecreased(KEY, 5, 1, 0)]).Success?
    ensures PerpProjection.PositionAt(PerpProjection.Index([PerpProjection.PositionDecreased(KEY, 5, 1, 0)]).value, KEY)
      == PerpProjection.Position(5, 1, 0, 0, 0, 1, 0)
    ensures PerpProjection.LoggedEntry([PerpProjection.PositionDecreased(KEY, 5, 1, 0)], KEY) == 0
  {
    var log := [PerpProjection.PositionDecreased(KEY, 5, 1, 0)];
    assert log[..0] == [];
    assert PerpProjection.Index([]).Success?;
    assert PerpProjection.LoggedEntry([], KEY) == 0;
  }

  /**
   A log of one decrease whose opening was not indexed: the book loaded from it,
   with one bankrupt position beside, owes a liquidation, and the tick throws instead.
   */
  lemma OneDecreaseLosesTheTick()
    ensures PerpProjection.Index([PerpProjection.PositionDecreased(KEY, 5, 1, 0)]).Success?
    ensures var row := PerpProjection.PositionAt(PerpProjection.Index([PerpProjection.PositionDecreased(KEY, 5, 1, 0)]).value, KEY);
      Loadable(row) &&
      var book := Strategy.Book(map["H100" := MARKET],
        [Strategy.Holding("0xb", "H100", BANKRUPT), HoldingOf(KEY, row, Checkpoints(0, 0, 0))], []);
      Strategy.Liquidate("0xb", true) in Strategy.ItemsOf(book, 0, "H100", 20, 0) && Strategy.TickThrows(book, "H100", 20)
  {
    UnseenOpen();
    var row := PerpProjection.PositionAt(PerpProjection.Index([PerpProjection.PositionDecreased(KEY, 5, 1, 0)]).value, KEY);
    hide PerpProjection.Index, PerpProjection.PositionAt, Strategy.ItemsOf, Strategy.MustLiquidate;
    var bankrupt := Strategy.Holding("0xb", "H100", BANKRUPT);
    var unopened := HoldingOf(KEY, row, Checkpoints(0, 0, 0));
    var book := Strategy.Book(map["H100" := MARKET], [bankrupt, unopened], []);
    assert Strategy.Throws(book.holdings[1], "H100", 20);
    BankruptIsDue();
    assert Strategy.Due(book.holdings[0], "H100", book.markets["H100"], 20, 0);
    Strategy.LiquidatesExactly(book, 0, "H100", 20, 0, Strategy.Liquidate("0xb", true));
  }
}
