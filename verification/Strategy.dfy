/**
 The tick evaluator (apps/keeper/src/strategy.ts): one candidate price in, an
 ordered list of work items out. Markets are keyed by SKU, which the encoded id
 stands for one to one; an id that does not encode, or a division by a zero entry
 price, fails the whole tick, as it does in the source.
 */
module Strategy {
  import opened Wrappers
  import opened IntegerArithmetic
  import opened OrderStatistics
  import opened PerpMath
  import opened Report
  import opened Rounding

  datatype Kind = MarketIncrease | MarketDecrease | StopLoss | TakeProfit | OtherKind

  datatype Order = Order(
    orderId: int, account: string, kind: Kind, isLong: bool, acceptablePrice: nat, triggerPrice: nat,
    createdAtSec: int, market: string)

  datatype Holding = Holding(wallet: string, gpuId: string, position: Position)

  datatype KeeperMarket = KeeperMarket(enabled: bool, maintenanceMarginBps: nat, funding: Market)

  datatype Book = Book(markets: map<string, KeeperMarket>, holdings: seq<Holding>, orders: seq<Order>)

  datatype Item =
    | Execute(orderId: int, account: string)
    | Liquidate(wallet: string, isLong: bool)

  // ------------------------------------------------------------------- gates

  predicate AcceptablePriceMet(isLong: bool, isIncrease: bool, price: int, bound: int) {
    if isLong == isIncrease then price <= bound else price >= bound
  }

  predicate TriggerMet(takeProfit: bool, isLong: bool, price: int, trigger: int) {
    if isLong == takeProfit then price >= trigger else price <= trigger
  }

  predicate Executable(o: Order, gpuId: string, enabled: bool, price: int, nowSec: int, delay: int) {
    o.market == gpuId && nowSec >= o.createdAtSec + delay &&
    match o.kind
    case MarketIncrease => enabled && AcceptablePriceMet(o.isLong, true, price, o.acceptablePrice)
    case MarketDecrease => AcceptablePriceMet(o.isLong, false, price, o.acceptablePrice)
    case StopLoss => TriggerMet(false, o.isLong, price, o.triggerPrice)
    case TakeProfit => TriggerMet(true, o.isLong, price, o.triggerPrice)
    case OtherKind => false
  }

  /**
   A take profit fires exactly where its side, of any size and entered at the
   trigger, would have lost nothing, and a stop loss exactly where the opposite side
   would not have: together they miss no price and share only the trigger.
   */
  lemma TriggersCover(sizeUsd: nat, isLong: bool, price: int, trigger: nat)
    requires sizeUsd > 0 && trigger > 0
    ensures TriggerMet(true, isLong, price, trigger) <==> Pnl(sizeUsd, trigger, isLong, price) >= 0
    ensures TriggerMet(false, isLong, price, trigger) <==> Pnl(sizeUsd, trigger, !isLong, price) >= 0
    ensures TriggerMet(true, isLong, price, trigger) || TriggerMet(false, isLong, price, trigger)
    ensures TriggerMet(true, isLong, price, trigger) && TriggerMet(false, isLong, price, trigger) <==> price == trigger
  {
    hide Pnl;
    PnlSign(sizeUsd, trigger, isLong, price);
    PnlSign(sizeUsd, trigger, !isLong, price);
  }

  // ------------------------------------------------------------------ sorting

  function IdOf(o: Order): real { o.orderId as real }

  function SortOrders(s: seq<Order>): seq<Order> { SortBy(s, IdOf) }

  ghost predicate Ascending(s: seq<Order>) {
    forall i, j :: 0 <= i < j < |s| ==> s[i].orderId <= s[j].orderId
  }

  /** Orders are taken in id order, each exactly once. */
  lemma SortOrdersSorts(s: seq<Order>)
    ensures Ascending(SortOrders(s)) && multiset(SortOrders(s)) == multiset(s)
  {
    hide SortBy;
    SortBySorts(s, IdOf);
    var t := SortOrders(s);
    forall i, j | 0 <= i < j < |t| ensures t[i].orderId <= t[j].orderId { assert IdOf(t[i]) <= IdOf(t[j]); }
  }

  // -------------------------------------------------------------- work items

  function Executions(orders: seq<Order>, gpuId: string, enabled: bool, price: int, nowSec: int, delay: int): seq<Item> {
    if orders == [] then []
    else
      var o := orders[|orders| - 1];
      var rest := Executions(orders[..|orders| - 1], gpuId, enabled, price, nowSec, delay);
      if Executable(o, gpuId, enabled, price, nowSec, delay) then rest + [Execute(o.orderId, o.account)] else rest
  }

  /** Evaluating this holding divides by a zero entry price. */
  predicate Throws(h: Holding, gpuId: string, price: int) {
    h.gpuId == gpuId && !PnlDefined(h.position.sizeUsd, h.position.entryPrice, price)
  }

  predicate MustLiquidate(h: Holding, gpuId: string, m: KeeperMarket, price: int, nowSec: int) {
    h.gpuId == gpuId && !Throws(h, gpuId, price) &&
    IsLiquidatable(h.position, Settle(Advance(m.funding, nowSec), h.position), price, m.maintenanceMarginBps)
  }

  function Liquidations(hs: seq<Holding>, gpuId: string, m: KeeperMarket, price: int, nowSec: int): seq<Item> {
    if hs == [] then []
    else
      var h := hs[|hs| - 1];
      var rest := Liquidations(hs[..|hs| - 1], gpuId, m, price, nowSec);
      if MustLiquidate(h, gpuId, m, price, nowSec) then rest + [Liquidate(h.wallet, h.position.isLong)] else rest
  }

  predicate TickThrows(book: Book, gpuId: string, price: int) {
    gpuId in book.markets && book.markets[gpuId].maintenanceMarginBps != 0 &&
    exists i :: 0 <= i < |book.holdings| && Throws(book.holdings[i], gpuId, price)
  }

  /** By the rows' own figures: a tick throws for any sized holding of its market without an entry price, unless the market has no margin or the price is zero too. */
  lemma TickThrowsExactly(book: Book, gpuId: string, price: int)
    ensures TickThrows(book, gpuId, price) <==>
      gpuId in book.markets && book.markets[gpuId].maintenanceMarginBps > 0 && price != 0 &&
      exists h :: h in book.holdings && h.gpuId == gpuId && h.position.sizeUsd > 0 && h.position.entryPrice == 0
  {
    if h :| h in book.holdings && h.gpuId == gpuId && h.position.sizeUsd > 0 && h.position.entryPrice == 0 {
      var i :| 0 <= i < |book.holdings| && book.holdings[i] == h;
      assert price != 0 ==> Throws(book.holdings[i], gpuId, price);
    }
    if i :| 0 <= i < |book.holdings| && Throws(book.holdings[i], gpuId, price) {
      assert book.holdings[i] in book.holdings;
    }
  }

  /** Liquidations first, then executable orders by id. */
  function ItemsOf(book: Book, delay: int, gpuId: string, price: int, nowSec: int): seq<Item> {
    if gpuId !in book.markets then []
    else
      var m := book.markets[gpuId];
      (if m.maintenanceMarginBps == 0 then [] else Liquidations(book.holdings, gpuId, m, price, nowSec))
      + Executions(SortOrders(book.orders), gpuId, m.enabled, price, nowSec, delay)
  }

  /** A stable sort by type: every liquidation, then every execution. */
  function Ranked(items: seq<Item>): seq<Item> { Only(items, true) + Only(items, false) }

  function Only(items: seq<Item>, liquidations: bool): seq<Item> {
    if items == [] then []
    else if items[|items| - 1].Liquidate? == liquidations then Only(items[..|items| - 1], liquidations) + [items[|items| - 1]]
    else Only(items[..|items| - 1], liquidations)
  }

  lemma {:induction false} OnlyConcat(a: seq<Item>, b: seq<Item>, liquidations: bool)
    ensures Only(a + b, liquidations) == Only(a, liquidations) + Only(b, liquidations)
  {
    if b == [] {
      assert a + b == a;
    } else {
      var k := |b| - 1;
      OnlyConcat(a, b[..k], liquidations);
      assert (a + b)[..|a + b| - 1] == a + b[..k];
    }
  }

  lemma {:induction false} OnlyAll(items: seq<Item>, liquidations: bool)
    requires forall i :: 0 <= i < |items| ==> items[i].Liquidate? == liquidations
    ensures Only(items, liquidations) == items && Only(items, !liquidations) == []
  {
    if items != [] {
      OnlyAll(items[..|items| - 1], liquidations);
      assert items == items[..|items| - 1] + [items[|items| - 1]];
    }
  }

  lemma {:induction false} ItemKinds(orders: seq<Order>, hs: seq<Holding>, gpuId: string, m: KeeperMarket, price: int, nowSec: int, delay: int)
    ensures forall x :: x in Executions(orders, gpuId, m.enabled, price, nowSec, delay) ==> x.Execute?
    ensures forall x :: x in Liquidations(hs, gpuId, m, price, nowSec) ==> x.Liquidate?
    decreases |orders| + |hs|
  {
    hide Executable, MustLiquidate;
    if orders != [] {
      ItemKinds(orders[..|orders| - 1], hs, gpuId, m, price, nowSec, delay);
    } else if hs != [] {
      ItemKinds(orders, hs[..|hs| - 1], gpuId, m, price, nowSec, delay);
    }
  }

  lemma RankedItems(orders: seq<Order>, hs: seq<Holding>, gpuId: string, m: KeeperMarket, price: int, nowSec: int, delay: int)
    ensures var es := Executions(orders, gpuId, m.enabled, price, nowSec, delay);
      var ls := Liquidations(hs, gpuId, m, price, nowSec);
      Ranked(es + ls) == ls + es && Ranked(es) == es
  {
    hide Executions, Liquidations, Only;
    var es := Executions(orders, gpuId, m.enabled, price, nowSec, delay);
    var ls := Liquidations(hs, gpuId, m, price, nowSec);
    ItemKinds(orders, hs, gpuId, m, price, nowSec, delay);
    assert forall i :: 0 <= i < |es| ==> es[i] in es;
    assert forall i :: 0 <= i < |ls| ==> ls[i] in ls;
    OnlyAll(es, false);
    OnlyAll(ls, true);
    OnlyConcat(es, ls, true);
    OnlyConcat(es, ls, false);
  }

  method EvaluateTick(book: Book, delay: int, gpuId: string, usdPrice: Option<real>, nowSec: int) returns (r: Result<seq<Item>>)
    ensures usdPrice.None? ==> r == Success([])
    ensures usdPrice.Some? ==>
      var price := Round(usdPrice.value * 10000.0);
      (r.Failure? <==> !ValidSku(gpuId) || TickThrows(book, gpuId, price)) &&
      (r.Success? ==> r.value == ItemsOf(book, delay, gpuId, price, nowSec))
  {
    hide Advance, Settle, IsLiquidatable, Executable, SortOrders;
    if usdPrice.None? { return Success([]); }
    if !ValidSku(gpuId) { return Failure("gpuId does not encode"); }
    var price: int := Round(usdPrice.value * 10000.0);
    if gpuId !in book.markets { return Success([]); }
    var market := book.markets[gpuId];
    var items: seq<Item> := [];
    var orders := SortOrders(book.orders);
    for i := 0 to |orders|
      invariant items == Executions(orders[..i], gpuId, market.enabled, price, nowSec, delay)
    {
      assert orders[..i + 1][..i] == orders[..i];
      if Executable(orders[i], gpuId, market.enabled, price, nowSec, delay) {
        items := items + [Execute(orders[i].orderId, orders[i].account)];
      }
    }
    assert orders[..|orders|] == orders;
    ghost var es := items;
    RankedItems(orders, book.holdings, gpuId, market, price, nowSec, delay);
    if market.maintenanceMarginBps == 0 { return Success(items); }
    var adv, window := AdvanceFunding(market.funding, nowSec);
    var hs := book.holdings;
    for i := 0 to |hs|
      invariant items == es + Liquidations(hs[..i], gpuId, market, price, nowSec)
      invariant forall k :: 0 <= k < i ==> !Throws(hs[k], gpuId, price)
    {
      assert hs[..i + 1][..i] == hs[..i];
      var h := hs[i];
      if h.gpuId != gpuId { continue; }
      var s := Settle(adv, h.position);
      if !PnlDefined(h.position.sizeUsd, h.position.entryPrice, price) { return Failure("Division by zero"); }
      if IsLiquidatable(h.position, s, price, market.maintenanceMarginBps) {
        items := items + [Liquidate(h.wallet, h.position.isLong)];
      }
    }
    assert hs[..|hs|] == hs;
    r := Success(Ranked(items));
  }

  // -------------------------------------------------------------- properties

  lemma {:induction false} LiquidationMember(hs: seq<Holding>, gpuId: string, m: KeeperMarket, price: int, nowSec: int, x: Item)
    ensures x in Liquidations(hs, gpuId, m, price, nowSec) <==>
      exists i :: 0 <= i < |hs| && MustLiquidate(hs[i], gpuId, m, price, nowSec) && x == Liquidate(hs[i].wallet, hs[i].position.isLong)
  {
    hide MustLiquidate;
    if hs != [] {
      var k := |hs| - 1;
      LiquidationMember(hs[..k], gpuId, m, price, nowSec, x);
      var rest := Liquidations(hs[..k], gpuId, m, price, nowSec);
      if x in Liquidations(hs, gpuId, m, price, nowSec) {
        if x in rest {
          var i :| 0 <= i < k && MustLiquidate(hs[..k][i], gpuId, m, price, nowSec) && x == Liquidate(hs[..k][i].wallet, hs[..k][i].position.isLong);
          assert hs[i] == hs[..k][i];
        } else {
          assert x == Liquidate(hs[k].wallet, hs[k].position.isLong);
        }
      }
      if i :| 0 <= i < |hs| && MustLiquidate(hs[i], gpuId, m, price, nowSec) && x == Liquidate(hs[i].wallet, hs[i].position.isLong) {
        if i < k { assert hs[..k][i] == hs[i]; }
      }
    }
  }

  /** The holding is in this market and its gate holds against the market advanced to the second. */
  ghost predicate Due(h: Holding, gpuId: string, m: KeeperMarket, price: int, nowSec: int) {
    h.gpuId == gpuId && PnlDefined(h.position.sizeUsd, h.position.entryPrice, price) &&
    IsLiquidatable(h.position, Settle(Advance(m.funding, nowSec), h.position), price, m.maintenanceMarginBps)
  }

  /** So a holding of this market is due whenever its exact equity is below its exact margin, and never at four units above. */
  lemma DueByExactEquity(h: Holding, gpuId: string, m: KeeperMarket, price: int, nowSec: int)
    requires h.gpuId == gpuId && h.position.sizeUsd > 0 && h.position.entryPrice > 0
    ensures var p := h.position;
      var spare := ExactEquity(p, Advance(m.funding, nowSec), price) - Ratio(Mul(p.sizeUsd, m.maintenanceMarginBps), 10_000);
      (spare < 0.0 ==> Due(h, gpuId, m, price, nowSec)) && (spare >= 4.0 ==> !Due(h, gpuId, m, price, nowSec))
  {
    hide IsLiquidatable, Settle, Advance, ExactEquity, Ratio, Mul;
    GateWithinUnits(h.position, Advance(m.funding, nowSec), price, m.maintenanceMarginBps);
  }

  /** A liquidation is emitted exactly for the holdings whose gate holds. */
  lemma LiquidatesExactly(book: Book, delay: int, gpuId: string, price: int, nowSec: int, x: Item)
    requires x.Liquidate? && gpuId in book.markets
    ensures x in ItemsOf(book, delay, gpuId, price, nowSec) <==>
      book.markets[gpuId].maintenanceMarginBps != 0 &&
      exists i :: 0 <= i < |book.holdings| && Due(book.holdings[i], gpuId, book.markets[gpuId], price, nowSec)
        && x == Liquidate(book.holdings[i].wallet, book.holdings[i].position.isLong)
  {
    var m := book.markets[gpuId];
    hide Executions, Liquidations, SortOrders, IsLiquidatable, Settle, Advance;
    ItemKinds(SortOrders(book.orders), book.holdings, gpuId, m, price, nowSec, delay);
    LiquidationMember(book.holdings, gpuId, m, price, nowSec, x);
    forall i | 0 <= i < |book.holdings| ensures MustLiquidate(book.holdings[i], gpuId, m, price, nowSec) <==> Due(book.holdings[i], gpuId, m, price, nowSec) {}
  }

  lemma {:induction false} ExecutionMember(orders: seq<Order>, gpuId: string, enabled: bool, price: int, nowSec: int, delay: int, x: Item)
    ensures x in Executions(orders, gpuId, enabled, price, nowSec, delay) <==>
      exists o :: o in orders && Executable(o, gpuId, enabled, price, nowSec, delay) && x == Execute(o.orderId, o.account)
  {
    hide Executable;
    if orders != [] {
      var k := |orders| - 1;
      assert orders == orders[..k] + [orders[k]];
      ExecutionMember(orders[..k], gpuId, enabled, price, nowSec, delay, x);
    }
  }

  /**
   What an order asks for, in terms of what its side gains: an increase fills where
   it gains no less than from the bound wherever it is closed, a decrease where it
   gains no less than at the bound wherever it was entered, a take profit where the
   move from the trigger loses nothing, a stop loss where it gains nothing.
   */
  ghost predicate Wanted(o: Order, enabled: bool, price: int) {
    match o.kind
    case MarketIncrease => enabled && forall exit :: Move(o.isLong, o.acceptablePrice, exit) <= Move(o.isLong, price, exit)
    case MarketDecrease => forall entry :: Move(o.isLong, entry, o.acceptablePrice) <= Move(o.isLong, entry, price)
    case TakeProfit => Move(o.isLong, o.triggerPrice, price) >= 0
    case StopLoss => Move(o.isLong, o.triggerPrice, price) <= 0
    case OtherKind => false
  }

  lemma WantedExactly(o: Order, gpuId: string, enabled: bool, price: int, nowSec: int, delay: int)
    ensures Executable(o, gpuId, enabled, price, nowSec, delay) <==>
      o.market == gpuId && o.createdAtSec + delay <= nowSec && Wanted(o, enabled, price)
  {
    assert Move(o.isLong, price, price) == 0;
    if o.kind.MarketIncrease? && (forall exit :: Move(o.isLong, o.acceptablePrice, exit) <= Move(o.isLong, price, exit)) {
      assert Move(o.isLong, o.acceptablePrice, price) <= Move(o.isLong, price, price);
    }
    if o.kind.MarketDecrease? && (forall entry :: Move(o.isLong, entry, o.acceptablePrice) <= Move(o.isLong, entry, price)) {
      assert Move(o.isLong, price, o.acceptablePrice) <= Move(o.isLong, price, price);
    }
  }

  /** An execution is emitted exactly for the orders of this market that are past their delay and get what they ask for. */
  lemma ExecutesExactly(book: Book, delay: int, gpuId: string, price: int, nowSec: int, x: Item)
    requires x.Execute? && gpuId in book.markets
    ensures x in ItemsOf(book, delay, gpuId, price, nowSec) <==>
      exists o :: o in book.orders && o.market == gpuId && o.createdAtSec + delay <= nowSec &&
        Wanted(o, book.markets[gpuId].enabled, price) && x == Execute(o.orderId, o.account)
  {
    hide MustLiquidate, Executions, Liquidations, SortOrders, Executable, Wanted;
    var m := book.markets[gpuId];
    var orders := SortOrders(book.orders);
    ItemKinds(orders, book.holdings, gpuId, m, price, nowSec, delay);
    ExecutionMember(orders, gpuId, m.enabled, price, nowSec, delay, x);
    SortOrdersSorts(book.orders);
    forall o ensures o in orders <==> o in book.orders {
      assert o in multiset(orders) <==> o in multiset(book.orders);
    }
    forall o: Order { WantedExactly(o, gpuId, m.enabled, price, nowSec, delay); }
  }

  ghost predicate IdsUpTo(items: seq<Item>, bound: int) {
    forall i :: 0 <= i < |items| ==> items[i].Execute? && items[i].orderId <= bound
  }

  ghost predicate IdsAscend(items: seq<Item>) {
    forall i, j :: 0 <= i < j < |items| ==> items[i].Execute? && items[j].Execute? && items[i].orderId <= items[j].orderId
  }

  lemma AppendAscends(items: seq<Item>, x: Item, before: int)
    requires IdsAscend(items) && IdsUpTo(items, before) && x.Execute? && before <= x.orderId
    ensures IdsAscend(items + [x]) && IdsUpTo(items + [x], x.orderId)
  {
  }

  lemma {:induction false} ExecutionsAscend(orders: seq<Order>, gpuId: string, enabled: bool, price: int, nowSec: int, delay: int)
    requires Ascending(orders)
    ensures var es := Executions(orders, gpuId, enabled, price, nowSec, delay);
      IdsAscend(es) && if orders == [] then es == [] else IdsUpTo(es, orders[|orders| - 1].orderId)
  {
    if orders != [] {
      hide Executable;
      var front, last := orders[..|orders| - 1], orders[|orders| - 1];
      ExecutionsAscend(front, gpuId, enabled, price, nowSec, delay);
      var rest := Executions(front, gpuId, enabled, price, nowSec, delay);
      var before := if front == [] then last.orderId else front[|front| - 1].orderId;
      assert IdsUpTo(rest, before) && before <= last.orderId;
      AppendAscends(rest, Execute(last.orderId, last.account), before);
    }
  }

  /** Work runs risk reduction first, then orders by id: no execution precedes a liquidation or a smaller order id. */
  lemma WorkIsOrdered(book: Book, delay: int, gpuId: string, price: int, nowSec: int, i: nat, j: nat)
    requires i < j < |ItemsOf(book, delay, gpuId, price, nowSec)| && ItemsOf(book, delay, gpuId, price, nowSec)[i].Execute?
    ensures var y := ItemsOf(book, delay, gpuId, price, nowSec)[j];
      y.Execute? && ItemsOf(book, delay, gpuId, price, nowSec)[i].orderId <= y.orderId
  {
    hide Executions, Liquidations, SortOrders;
    var m, orders := book.markets[gpuId], SortOrders(book.orders);
    ItemKinds(orders, book.holdings, gpuId, m, price, nowSec, delay);
    SortOrdersSorts(book.orders);
    ExecutionsAscend(orders, gpuId, m.enabled, price, nowSec, delay);
    var ls := if m.maintenanceMarginBps == 0 then [] else Liquidations(book.holdings, gpuId, m, price, nowSec);
    var es := Executions(orders, gpuId, m.enabled, price, nowSec, delay);
    assert ItemsOf(book, delay, gpuId, price, nowSec) == ls + es;
    forall k | 0 <= k < |ls| ensures ls[k].Liquidate? { assert ls[k] in ls; }
  }

  /** On an unchanged book a due liquidation of a non-earning position stays due, later and at no better price. */
  lemma LiquidationKeepsFiring(book: Book, delay: int, gpuId: string, price: int, worse: int, t1: int, t2: int, i: nat)
    requires gpuId in book.markets && book.markets[gpuId].maintenanceMarginBps != 0 && t1 <= t2 && i < |book.holdings|
    requires var h := book.holdings[i];
      h.position.entryPrice > 0 && EarnsNothing(book.markets[gpuId].funding, h.position.isLong) &&
      (if h.position.isLong then worse <= price else worse >= price) &&
      MustLiquidate(h, gpuId, book.markets[gpuId], price, t1)
    ensures Liquidate(book.holdings[i].wallet, book.holdings[i].position.isLong) in ItemsOf(book, delay, gpuId, worse, t2)
  {
    hide Advance, Settle, IsLiquidatable, EarnsNothing, ItemsOf;
    var h, m := book.holdings[i], book.markets[gpuId];
    LiquidationPersists(m.funding, h.position, t1, t2, price, worse, m.maintenanceMarginBps);
    assert Due(h, gpuId, m, worse, t2);
    LiquidatesExactly(book, delay, gpuId, worse, t2, Liquidate(h.wallet, h.position.isLong));
  }
}
