/**
 The pool projections against the log itself: what each pool, hour, day and asset
 row holds is summed from the logged events, with buys told from sells by the
 currency the pool was initialized with, not by what the rows say of it.
 */
module PoolLog {
  import opened Wrappers
  import opened PoolProjection

  // ------------------------------------------------------- the currency order

  /** One event registers the pool for the asset the other one creates. */
  predicate RegistersAsset(e: Event, poolId: string, created: Event) {
    e.PoolRegistered? && e.poolId == poolId && created.GpuCreated? && created.gpuId == e.gpuId
  }

  /**
   The log names the pool's first currency consistently: every initialization of the
   pool gives `currency0`, it is gUSD or the token of each asset the pool is
   registered for, and those two addresses differ.
   */
  ghost predicate NamesCurrency(gusd: string, log: seq<Event>, poolId: string, currency0: string, token: string) {
    token != gusd && (currency0 == gusd || currency0 == token) &&
    (forall i :: 0 <= i < |log| && log[i].Initialize? && log[i].poolId == poolId ==> log[i].currency0 == currency0) &&
    (forall i, j :: 0 <= i < |log| && 0 <= j < |log| && RegistersAsset(log[i], poolId, log[j]) ==> log[j].token == token)
  }

  lemma NamesFront(gusd: string, log: seq<Event>, poolId: string, currency0: string, token: string)
    requires log != [] && NamesCurrency(gusd, log, poolId, currency0, token)
    ensures NamesCurrency(gusd, log[..|log| - 1], poolId, currency0, token)
  {
    var front := log[..|log| - 1];
    assert forall i :: 0 <= i < |front| ==> front[i] == log[i];
  }

  /** Only a creation writes an asset's token, and nothing writes the gUSD address. */
  lemma AddressesKept(t: Tables, e: Event)
    requires Apply(t, e).Success?
    ensures Apply(t, e).value.gusd == t.gusd
    ensures forall g :: g in Apply(t, e).value.assets ==>
      if e.GpuCreated? && e.gpuId == g then Apply(t, e).value.assets[g].token == e.token
      else g in t.assets && Apply(t, e).value.assets[g].token == t.assets[g].token
  {
    hide SwapPool, FillPool, LpFee, GusdDelta, HourStart, DayStart;
  }

  /** Every asset row holds the token of a logged creation. */
  lemma {:induction false} TokensAreLogged(gusd: string, log: seq<Event>)
    requires Index(gusd, log).Success?
    ensures Index(gusd, log).value.gusd == gusd
    ensures forall g :: g in Index(gusd, log).value.assets ==>
      exists i :: 0 <= i < |log| && log[i].GpuCreated? && log[i].gpuId == g && log[i].token == Index(gusd, log).value.assets[g].token
  {
    if log != [] {
      hide Apply;
      var front, e := log[..|log| - 1], log[|log| - 1];
      var t, u := Index(gusd, front).value, Index(gusd, log).value;
      AddressesKept(t, e);
      TokensAreLogged(gusd, front);
      hide Index;
      forall g | g in u.assets ensures exists i :: 0 <= i < |log| && log[i].GpuCreated? && log[i].gpuId == g && log[i].token == u.assets[g].token {
        if e.GpuCreated? && e.gpuId == g {
          assert log[|log| - 1] == e;
        } else {
          var i :| 0 <= i < |front| && front[i].GpuCreated? && front[i].gpuId == g && front[i].token == t.assets[g].token;
          assert log[i] == front[i];
        }
      }
    }
  }

  /** Whatever the row says of the currency order is what the log says. */
  ghost predicate OrderAgrees(t: Tables, poolId: string, currency0: string) {
    poolId in t.pools ==>
      (t.pools[poolId].currency0.Some? ==> t.pools[poolId].currency0.value == currency0) &&
      (t.pools[poolId].gusdIsCurrency0.Some? ==> t.pools[poolId].gusdIsCurrency0.value == (currency0 == t.gusd))
  }

  lemma OrderStep(t: Tables, e: Event, poolId: string, currency0: string, token: string)
    requires OrderAgrees(t, poolId, currency0) && token != t.gusd && (currency0 == t.gusd || currency0 == token)
    requires e.Initialize? && e.poolId == poolId ==> e.currency0 == currency0
    requires e.PoolRegistered? && e.poolId == poolId && e.gpuId in t.assets ==> t.assets[e.gpuId].token == token
    requires Apply(t, e).Success?
    ensures OrderAgrees(Apply(t, e).value, poolId, currency0)
  {
    hide LpFee, GusdDelta, HourStart, DayStart, AddHour;
  }

  /** A row that knows the order, or the first currency, goes on knowing it; registering an initialized pool makes it known. */
  lemma OrderKept(t: Tables, e: Event, poolId: string)
    requires Apply(t, e).Success? && poolId in t.pools
    ensures poolId in Apply(t, e).value.pools
    ensures t.pools[poolId].currency0.Some? ==> Apply(t, e).value.pools[poolId].currency0.Some?
    ensures t.pools[poolId].gusdIsCurrency0.Some? ==> Apply(t, e).value.pools[poolId].gusdIsCurrency0.Some?
    ensures e.PoolRegistered? && e.poolId == poolId && t.pools[poolId].currency0.Some? ==> Apply(t, e).value.pools[poolId].gusdIsCurrency0.Some?
  {
    hide LpFee, GusdDelta, HourStart, DayStart, AddHour;
  }

  lemma {:induction false} InitializedIsStored(gusd: string, log: seq<Event>, poolId: string, i: nat)
    requires Index(gusd, log).Success? && i < |log| && log[i].Initialize? && log[i].poolId == poolId
    ensures poolId in Index(gusd, log).value.pools && Index(gusd, log).value.pools[poolId].currency0.Some?
  {
    var k := |log| - 1;
    if i < k {
      InitializedIsStored(gusd, log[..k], poolId, i);
      OrderKept(Index(gusd, log[..k]).value, log[k], poolId);
    }
  }

  lemma {:induction false} RegisteredIsKnown(gusd: string, log: seq<Event>, poolId: string, i: nat, j: nat)
    requires Index(gusd, log).Success? && i < j < |log|
    requires log[i].Initialize? && log[i].poolId == poolId && log[j].PoolRegistered? && log[j].poolId == poolId
    ensures poolId in Index(gusd, log).value.pools && Index(gusd, log).value.pools[poolId].gusdIsCurrency0.Some?
  {
    hide Apply;
    var k := |log| - 1;
    if j < k { RegisteredIsKnown(gusd, log[..k], poolId, i, j); } else { InitializedIsStored(gusd, log[..k], poolId, i); }
    OrderKept(Index(gusd, log[..k]).value, log[k], poolId);
  }

  lemma {:induction false} OrderIsLogged(gusd: string, log: seq<Event>, poolId: string, currency0: string, token: string)
    requires Index(gusd, log).Success? && NamesCurrency(gusd, log, poolId, currency0, token)
    ensures OrderAgrees(Index(gusd, log).value, poolId, currency0)
  {
    if log != [] {
      hide Apply, OrderAgrees;
      var front, e := log[..|log| - 1], log[|log| - 1];
      NamesFront(gusd, log, poolId, currency0, token);
      OrderIsLogged(gusd, front, poolId, currency0, token);
      TokensAreLogged(gusd, front);
      var t := Index(gusd, front).value;
      if e.PoolRegistered? && e.poolId == poolId && e.gpuId in t.assets {
        var j :| 0 <= j < |front| && front[j].GpuCreated? && front[j].gpuId == e.gpuId && front[j].token == t.assets[e.gpuId].token;
        assert log[j] == front[j] && RegistersAsset(e, poolId, log[j]);
      }
      OrderStep(t, e, poolId, currency0, token);
    }
  }

  /** Once a pool has been initialized and then registered, its row knows the order, and knows it right. */
  lemma OrderIsRight(gusd: string, log: seq<Event>, poolId: string, currency0: string, token: string, i: nat, j: nat)
    requires Index(gusd, log).Success? && NamesCurrency(gusd, log, poolId, currency0, token)
    requires i < j < |log| && log[i].Initialize? && log[i].poolId == poolId && log[j].PoolRegistered? && log[j].poolId == poolId
    ensures poolId in Index(gusd, log).value.pools
    ensures Index(gusd, log).value.pools[poolId].gusdIsCurrency0 == Some(currency0 == gusd)
  {
    RegisteredIsKnown(gusd, log, poolId, i, j);
    OrderIsLogged(gusd, log, poolId, currency0, token);
    TokensAreLogged(gusd, log);
  }

  // ------------------------------------------------------------ the log's sums

  /** What one event moves in a pool's column; `gusdFirst` says which of a swap's two deltas is gUSD. */
  function Moves(e: Event, poolId: string, gusdFirst: bool, c: Column): int {
    if e.Swap? && e.poolId == poolId then
      var gusd := if gusdFirst then e.amount0 else e.amount1;
      var paidIn, paidOut := if gusd < 0 then -gusd else 0, if gusd > 0 then gusd else 0;
      match c
      case Volume => paidIn + paidOut
      case BuyVolume => paidIn
      case SellVolume => paidOut
      case HookFees => 0
      case LpFees => paidIn * e.fee / 1_000_000
    else if e.GpuFill? && e.poolId == poolId then
      match c
      case Volume => e.gusdAmount
      case BuyVolume => if e.isBuy then e.gusdAmount else 0
      case SellVolume => if e.isBuy then 0 else e.gusdAmount
      case HookFees => e.protocolFee
      case LpFees => 0
    else 0
  }

  function Logged(log: seq<Event>, poolId: string, gusdFirst: bool, c: Column): int {
    if log == [] then 0 else Logged(log[..|log| - 1], poolId, gusdFirst, c) + Moves(log[|log| - 1], poolId, gusdFirst, c)
  }

  /** The event trades, and does so in [from, to). */
  predicate Within(e: Event, from: int, to: int) { (e.Swap? || e.GpuFill?) && from <= e.at < to }

  function LoggedWithin(log: seq<Event>, poolId: string, gusdFirst: bool, c: Column, from: int, to: int): int {
    if log == [] then 0
    else
      LoggedWithin(log[..|log| - 1], poolId, gusdFirst, c, from, to)
      + (if Within(log[|log| - 1], from, to) then Moves(log[|log| - 1], poolId, gusdFirst, c) else 0)
  }

  function LoggedSwaps(log: seq<Event>, poolId: string): int {
    if log == [] then 0
    else LoggedSwaps(log[..|log| - 1], poolId) + (if log[|log| - 1].Swap? && log[|log| - 1].poolId == poolId then 1 else 0)
  }

  /** Hook fees of all pools in [from, to). */
  function LoggedFees(log: seq<Event>, from: int, to: int): int {
    if log == [] then 0
    else
      var e := log[|log| - 1];
      LoggedFees(log[..|log| - 1], from, to) + (if e.GpuFill? && from <= e.at < to then e.protocolFee else 0)
  }

  /** An asset's fees since it was last created. */
  function LoggedPolFees(log: seq<Event>, gpuId: string): int {
    if log == [] then 0
    else
      var e, before := log[|log| - 1], LoggedPolFees(log[..|log| - 1], gpuId);
      if e.GpuCreated? && e.gpuId == gpuId then 0
      else if e.GpuFill? && e.gpuId == gpuId then before + e.protocolFee
      else before
  }

  function CellAt(t: Tables, poolId: string, start: int): HourBucket {
    if (poolId, start) in t.hours then t.hours[(poolId, start)] else ZERO_HOUR
  }

  function RowColumn(t: Tables, poolId: string, c: Column): int {
    if poolId in t.pools then PoolColumn(t.pools[poolId], c) else 0
  }

  /** A row that knows its order reads gUSD off the right side of a swap. */
  lemma DeltaIsRight(t: Tables, poolId: string, currency0: string, amount0: int, amount1: int)
    requires OrderAgrees(t, poolId, currency0) && poolId in t.pools && t.pools[poolId].gusdIsCurrency0.Some?
    ensures GusdDelta(t.pools[poolId], amount0, amount1) == if currency0 == t.gusd then amount0 else amount1
  {
  }

  /** The rows one event writes: a swap's or a fill's own pool, and otherwise none that changes a sum. */
  lemma RowWritten(t: Tables, e: Event, poolId: string, c: Column)
    requires Apply(t, e).Success?
    ensures e.Swap? ==> e.poolId in t.pools && t.pools[e.poolId].gusdIsCurrency0.Some?
    ensures RowColumn(Apply(t, e).value, poolId, c) ==
      if e.Swap? && e.poolId == poolId then
        var delta := GusdDelta(t.pools[poolId], e.amount0, e.amount1);
        PoolColumn(SwapPool(t.pools[poolId], delta, LpFee(delta, e.fee)), c)
      else if e.GpuFill? && e.poolId == poolId && poolId in t.pools then
        PoolColumn(FillPool(t.pools[poolId], e.isBuy, e.gusdAmount, e.protocolFee), c)
      else RowColumn(t, poolId, c)
    ensures e.GpuFill? ==> e.poolId in t.pools
  {
    hide HourStart, DayStart, AddHour, GusdDelta, LpFee, SwapPool, FillPool;
  }

  /** A pool whose order the row has right takes exactly the event's moves. */
  lemma RowMoves(t: Tables, e: Event, poolId: string, currency0: string, c: Column)
    requires Apply(t, e).Success? && OrderAgrees(t, poolId, currency0)
    ensures RowColumn(Apply(t, e).value, poolId, c) == RowColumn(t, poolId, c) + Moves(e, poolId, currency0 == t.gusd, c)
  {
    RowWritten(t, e, poolId, c);
    hide Apply;
    if e.Swap? && e.poolId == poolId {
      DeltaIsRight(t, poolId, currency0, e.amount0, e.amount1);
      hide GusdDelta, OrderAgrees;
    }
  }

  lemma HourHolds(at: nat, start: int)
    requires start % 3600 == 0
    ensures HourStart(at) == start <==> start <= at < start + 3600
    ensures HourStart(at) % 3600 == 0
  {
  }

  lemma DayHolds(at: nat, start: int)
    requires start % 86400 == 0
    ensures DayStart(at) == start <==> start <= at < start + 86400
    ensures DayStart(at) % 86400 == 0
  {
  }

  /** The buckets one event writes: its own pool's, at its own hour, by one delta. */
  lemma BucketWritten(t: Tables, e: Event)
    requires Apply(t, e).Success?
    ensures Apply(t, e).value.hours ==
      if e.Swap? && !(e.amount0 == 0 && e.amount1 == 0) then
        var delta := GusdDelta(t.pools[e.poolId], e.amount0, e.amount1);
        BumpHour(t, e.poolId, e.at, SwapDelta(delta, LpFee(delta, e.fee))).hours
      else if e.GpuFill? then BumpHour(t, e.poolId, e.at, FillDelta(e.isBuy, e.gusdAmount, e.protocolFee)).hours
      else t.hours
  {
    hide HourStart, DayStart, AddHour, LpFee, GusdDelta, SwapDelta, FillDelta, SwapPool, FillPool;
  }

  lemma BumpedCell(t: Tables, u: Tables, poolId: string, at: nat, delta: HourBucket, p: string, start: int)
    requires u.hours == BumpHour(t, poolId, at, delta).hours
    ensures CellAt(u, p, start) == if p == poolId && start == HourStart(at) then AddHour(CellAt(t, p, start), delta) else CellAt(t, p, start)
  {
    hide AddHour, HourStart;
  }

  /** A swap's delta is what it moves. */
  lemma SwapDeltaMoves(e: Event, gusdFirst: bool, delta: int, c: Column)
    requires e.Swap? && delta == if gusdFirst then e.amount0 else e.amount1
    ensures var d := SwapDelta(delta, LpFee(delta, e.fee));
      HourColumn(d, c) == Moves(e, e.poolId, gusdFirst, c) && d.swaps == 1 && d.buys == (if Buys(e, gusdFirst) then 1 else 0) && d.sells == 1 - d.buys
  {
  }

  lemma AddHourColumns(a: HourBucket, d: HourBucket, c: Column)
    ensures HourColumn(AddHour(a, d), c) == HourColumn(a, c) + HourColumn(d, c)
    ensures AddHour(a, d).swaps == a.swaps + d.swaps && AddHour(a, d).buys == a.buys + d.buys && AddHour(a, d).sells == a.sells + d.sells
  {
  }

  /** The bucket of a pool's hour takes exactly the event's moves and counts its uncovered swaps. */
  lemma CellMoves(t: Tables, e: Event, poolId: string, currency0: string, c: Column, start: int)
    requires Apply(t, e).Success? && OrderAgrees(t, poolId, currency0) && start % 3600 == 0
    ensures HourColumn(CellAt(Apply(t, e).value, poolId, start), c) == HourColumn(CellAt(t, poolId, start), c)
      + (if Within(e, start, start + 3600) then Moves(e, poolId, currency0 == t.gusd, c) else 0)
    ensures CellAt(Apply(t, e).value, poolId, start).swaps == CellAt(t, poolId, start).swaps
      + (if Within(e, start, start + 3600) && Uncovered(e, poolId) then 1 else 0)
    ensures CellAt(Apply(t, e).value, poolId, start).buys == CellAt(t, poolId, start).buys
      + (if Within(e, start, start + 3600) && Uncovered(e, poolId) && Buys(e, currency0 == t.gusd) then 1 else 0)
    ensures var u := CellAt(Apply(t, e).value, poolId, start);
      u.sells - CellAt(t, poolId, start).sells == u.swaps - CellAt(t, poolId, start).swaps - (u.buys - CellAt(t, poolId, start).buys)
  {
    BucketWritten(t, e);
    var u := Apply(t, e).value;
    if e.Swap? || e.GpuFill? { HourHolds(e.at, start); }
    if e.Swap? { SwapKnown(t, e); }
    hide Apply, BumpHour, HourStart, CellAt, HourColumn, AddHour, Moves;
    if e.Swap? && Uncovered(e, e.poolId) {
      var delta := GusdDelta(t.pools[e.poolId], e.amount0, e.amount1);
      var d := SwapDelta(delta, LpFee(delta, e.fee));
      hide GusdDelta, SwapDelta, LpFee;
      BumpedCell(t, u, e.poolId, e.at, d, poolId, start);
      AddHourColumns(CellAt(t, poolId, start), d, c);
      if e.poolId == poolId {
        DeltaIsRight(t, poolId, currency0, e.amount0, e.amount1);
        SwapDeltaMoves(e, currency0 == t.gusd, delta, c);
      } else {
        OthersUnmoved(e, poolId, currency0 == t.gusd, c);
      }
    } else if e.GpuFill? {
      var d := FillDelta(e.isBuy, e.gusdAmount, e.protocolFee);
      BumpedCell(t, u, e.poolId, e.at, d, poolId, start);
      AddHourColumns(CellAt(t, poolId, start), d, c);
      FillDeltaMoves(e, currency0 == t.gusd, c);
      if e.poolId != poolId { OthersUnmoved(e, poolId, currency0 == t.gusd, c); }
    } else {
      SameCell(t, u, poolId, start);
      OthersUnmoved(e, poolId, currency0 == t.gusd, c);
    }
  }

  lemma FillDeltaMoves(e: Event, gusdFirst: bool, c: Column)
    requires e.GpuFill?
    ensures HourColumn(FillDelta(e.isBuy, e.gusdAmount, e.protocolFee), c) == Moves(e, e.poolId, gusdFirst, c)
  {
  }

  lemma OthersUnmoved(e: Event, poolId: string, gusdFirst: bool, c: Column)
    requires !(e.GpuFill? && e.poolId == poolId) && !Uncovered(e, poolId)
    ensures Moves(e, poolId, gusdFirst, c) == 0
  {
  }

  lemma SameCell(t: Tables, u: Tables, poolId: string, start: int)
    requires u.hours == t.hours
    ensures CellAt(u, poolId, start) == CellAt(t, poolId, start)
  {
  }

  lemma SwapKnown(t: Tables, e: Event)
    requires Apply(t, e).Success? && e.Swap?
    ensures e.poolId in t.pools && t.pools[e.poolId].gusdIsCurrency0.Some?
  {
    hide SwapPool, BumpHour, BumpStats, LpFee, GusdDelta;
  }

  /** A swap of the pool that the hook did not cover entirely. */
  predicate Uncovered(e: Event, poolId: string) { e.Swap? && e.poolId == poolId && !(e.amount0 == 0 && e.amount1 == 0) }

  /** The swapper pays gUSD in. */
  predicate Buys(e: Event, gusdFirst: bool) { e.Swap? && (if gusdFirst then e.amount0 else e.amount1) < 0 }

  function LoggedTrades(log: seq<Event>, poolId: string, from: int, to: int): int {
    if log == [] then 0
    else
      var e := log[|log| - 1];
      LoggedTrades(log[..|log| - 1], poolId, from, to) + (if Within(e, from, to) && Uncovered(e, poolId) then 1 else 0)
  }

  function LoggedBuys(log: seq<Event>, poolId: string, gusdFirst: bool, from: int, to: int): int {
    if log == [] then 0
    else
      var e := log[|log| - 1];
      LoggedBuys(log[..|log| - 1], poolId, gusdFirst, from, to)
      + (if Within(e, from, to) && Uncovered(e, poolId) && Buys(e, gusdFirst) then 1 else 0)
  }

  /**
   After any accepted log that names the pool's currencies consistently, the pool's
   bought, sold and total volume and its fees are the gUSD paid in, the gUSD paid
   out, both, and the fees of its logged swaps and fills; and each of its hour
   buckets holds the same sums, and the counts of its buys and sells, over its own hour.
   */
  lemma {:induction false} PoolMatchesLog(gusd: string, log: seq<Event>, poolId: string, currency0: string, token: string, c: Column, start: int)
    requires Index(gusd, log).Success? && NamesCurrency(gusd, log, poolId, currency0, token) && start % 3600 == 0
    ensures RowColumn(Index(gusd, log).value, poolId, c) == Logged(log, poolId, currency0 == gusd, c)
    ensures var cell := CellAt(Index(gusd, log).value, poolId, start);
      HourColumn(cell, c) == LoggedWithin(log, poolId, currency0 == gusd, c, start, start + 3600) &&
      cell.swaps == LoggedTrades(log, poolId, start, start + 3600) &&
      cell.buys == LoggedBuys(log, poolId, currency0 == gusd, start, start + 3600) && cell.sells == cell.swaps - cell.buys
  {
    if log != [] {
      hide Apply, Moves, OrderAgrees, CellAt, Uncovered, Buys;
      var front, e := log[..|log| - 1], log[|log| - 1];
      NamesFront(gusd, log, poolId, currency0, token);
      PoolMatchesLog(gusd, front, poolId, currency0, token, c, start);
      OrderIsLogged(gusd, front, poolId, currency0, token);
      TokensAreLogged(gusd, front);
      RowMoves(Index(gusd, front).value, e, poolId, currency0, c);
      CellMoves(Index(gusd, front).value, e, poolId, currency0, c, start);
    }
  }

  /** Buckets start on the hour and on the day, so those sums cover every stored one. */
  lemma {:induction false} BucketsAligned(gusd: string, log: seq<Event>)
    requires Index(gusd, log).Success?
    ensures forall k :: k in Index(gusd, log).value.hours ==> k.1 % 3600 == 0
    ensures forall d :: d in Index(gusd, log).value.days ==> d % 86400 == 0
  {
    if log != [] {
      hide Apply;
      BucketsAligned(gusd, log[..|log| - 1]);
      AlignedStep(Index(gusd, log[..|log| - 1]).value, log[|log| - 1]);
    }
  }

  lemma AlignedStep(t: Tables, e: Event)
    requires Apply(t, e).Success?
    ensures forall k :: k in Apply(t, e).value.hours ==> k in t.hours || k.1 % 3600 == 0
    ensures forall d :: d in Apply(t, e).value.days ==> d in t.days || d % 86400 == 0
  {
    if e.Swap? || e.GpuFill? {
      HourHolds(e.at, 0);
      DayHolds(e.at, 0);
    }
    hide HourStart, DayStart, AddHour, LpFee, GusdDelta, SwapPool, FillPool, SwapDelta;
  }

  // ------------------------------------------------------- counts, days, assets

  lemma CountMoves(t: Tables, e: Event, poolId: string, start: int, gpuId: string)
    requires Apply(t, e).Success? && start % 86400 == 0
    ensures var u := Apply(t, e).value;
      (if poolId in u.pools then u.pools[poolId].swapCount else 0)
        == (if poolId in t.pools then t.pools[poolId].swapCount else 0) + (if e.Swap? && e.poolId == poolId then 1 else 0)
    ensures var u := Apply(t, e).value;
      (if start in u.days then u.days[start] else 0)
        == (if start in t.days then t.days[start] else 0) + (if e.GpuFill? && start <= e.at < start + 86400 then e.protocolFee else 0)
    ensures var u := Apply(t, e).value;
      (if gpuId in u.assets then u.assets[gpuId].polFees else 0) ==
        if e.GpuCreated? && e.gpuId == gpuId then 0
        else (if gpuId in t.assets then t.assets[gpuId].polFees else 0) + (if e.GpuFill? && e.gpuId == gpuId then e.protocolFee else 0)
  {
    if e.GpuFill? { DayHolds(e.at, start); }
    hide HourStart, DayStart, AddHour, LpFee;
  }

  /** Every logged swap is counted, each day holds the hook fees of its own seconds, each asset the fees since its creation. */
  lemma {:induction false} CountsMatchLog(gusd: string, log: seq<Event>, poolId: string, start: int, gpuId: string)
    requires Index(gusd, log).Success? && start % 86400 == 0
    ensures var t := Index(gusd, log).value;
      (if poolId in t.pools then t.pools[poolId].swapCount else 0) == LoggedSwaps(log, poolId) &&
      (if start in t.days then t.days[start] else 0) == LoggedFees(log, start, start + 86400) &&
      (if gpuId in t.assets then t.assets[gpuId].polFees else 0) == LoggedPolFees(log, gpuId)
  {
    if log != [] {
      hide Apply;
      CountsMatchLog(gusd, log[..|log| - 1], poolId, start, gpuId);
      CountMoves(Index(gusd, log[..|log| - 1]).value, log[|log| - 1], poolId, start, gpuId);
    }
  }
}
