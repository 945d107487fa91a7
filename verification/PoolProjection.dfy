/**
 The pool projections of the indexer (apps/indexer/src/handlers/pool-manager.ts,
 hook.ts and buckets.ts): pool cumulatives, hour and day buckets and the protocol
 singleton, folded from the same event log. Each handler writes the tables
 through upserts of the row plus a delta (apps/indexer/src/envio-compat.ts).
 */
module PoolProjection {
  import opened Wrappers
  import opened FiniteSums

  const HOUR_SECONDS: int := 3600
  const DAY_SECONDS: int := 86400
  const FEE_DENOMINATOR: int := 1_000_000

  /** A pool row; `gusdIsCurrency0` and `currency0` are null until an event sets them. */
  datatype Pool = Pool(
    canonical: bool, currency0: Option<string>, gusdIsCurrency0: Option<bool>,
    swapCount: int, volume: int, buyVolume: int, sellVolume: int, hookFees: int, lpFees: int)

  datatype HourBucket = HourBucket(
    volume: int, buyVolume: int, sellVolume: int, buys: int, sells: int, hookFees: int, lpFees: int, swaps: int)

  datatype Stats = Stats(lpFees: int, hookFees: int)

  datatype Asset = Asset(token: string, polFees: int, canonicalPool: Option<string>)

  datatype Event =
    | GpuCreated(gpuId: string, token: string)
    | Initialize(poolId: string, currency0: string)
    | PoolRegistered(poolId: string, gpuId: string)
    | Swap(poolId: string, amount0: int, amount1: int, fee: nat, at: nat)
    | GpuFill(poolId: string, gpuId: string, isBuy: bool, gusdAmount: int, protocolFee: int, at: nat)

  /** The tables the handlers share. Addresses are already lower-cased. */
  datatype Tables = Tables(
    gusd: string, pools: map<string, Pool>, hours: map<(string, int), HourBucket>, days: map<int, int>,
    stats: Option<Stats>, assets: map<string, Asset>)

  function HourStart(at: nat): int { at / HOUR_SECONDS * HOUR_SECONDS }

  function DayStart(at: nat): int { at / DAY_SECONDS * DAY_SECONDS }

  const ZERO_HOUR: HourBucket := HourBucket(0, 0, 0, 0, 0, 0, 0, 0)

  function AddHour(a: HourBucket, d: HourBucket): HourBucket {
    HourBucket(a.volume + d.volume, a.buyVolume + d.buyVolume, a.sellVolume + d.sellVolume, a.buys + d.buys,
      a.sells + d.sells, a.hookFees + d.hookFees, a.lpFees + d.lpFees, a.swaps + d.swaps)
  }

  // -------------------------------------------------------------- the handlers

  function BumpHour(t: Tables, poolId: string, at: nat, delta: HourBucket): Tables {
    var k := (poolId, HourStart(at));
    t.(hours := t.hours[k := AddHour(if k in t.hours then t.hours[k] else ZERO_HOUR, delta)])
  }

  function BumpDay(t: Tables, at: nat, hookFees: int): Tables {
    var k := DayStart(at);
    t.(days := t.days[k := (if k in t.days then t.days[k] else 0) + hookFees])
  }

  function BumpStats(t: Tables, lpFees: int, hookFees: int): Tables {
    var s := if t.stats.Some? then t.stats.value else Stats(0, 0);
    t.(stats := Some(Stats(s.lpFees + lpFees, s.hookFees + hookFees)))
  }

  function OnInitialize(t: Tables, poolId: string, currency0: string): Tables {
    var row := if poolId in t.pools then t.pools[poolId].(currency0 := Some(currency0))
               else Pool(false, Some(currency0), Some(currency0 == t.gusd), 0, 0, 0, 0, 0, 0);
    t.(pools := t.pools[poolId := row])
  }

  function OnPoolRegistered(t: Tables, poolId: string, gpuId: string): Result<Tables> {
    if gpuId !in t.assets then Failure("PoolRegistered before GpuCreated")
    else
      var row := if poolId in t.pools then t.pools[poolId].(canonical := true) else Pool(true, None, None, 0, 0, 0, 0, 0, 0);
      var asset := t.assets[gpuId];
      var ordered := if row.currency0.Some? then row.(gusdIsCurrency0 := Some(row.currency0.value != asset.token)) else row;
      Success(t.(pools := t.pools[poolId := ordered], assets := t.assets[gpuId := asset.(canonicalPool := Some(poolId))]))
  }

  /** The swapper's gUSD delta, given the pool's currency order. */
  function GusdDelta(pool: Pool, amount0: int, amount1: int): int {
    if pool.gusdIsCurrency0 == Some(true) then amount0 else amount1
  }

  function Moved(delta: int): int { if delta < 0 then -delta else delta }

  /** LP fees, estimated on the gUSD a buyer pays in. */
  function LpFee(delta: int, fee: nat): int {
    if delta >= 0 then 0 else -delta * fee / FEE_DENOMINATOR
  }

  function SwapPool(pool: Pool, delta: int, lpFee: int): Pool {
    var buy := if delta < 0 then Moved(delta) else 0;
    pool.(swapCount := pool.swapCount + 1, volume := pool.volume + Moved(delta), buyVolume := pool.buyVolume + buy,
      sellVolume := pool.sellVolume + Moved(delta) - buy, lpFees := pool.lpFees + lpFee)
  }

  function SwapDelta(delta: int, lpFee: int): HourBucket {
    if delta < 0 then HourBucket(Moved(delta), Moved(delta), 0, 1, 0, 0, lpFee, 1)
    else HourBucket(Moved(delta), 0, Moved(delta), 0, 1, 0, lpFee, 1)
  }

  function OnSwap(t: Tables, poolId: string, amount0: int, amount1: int, fee: nat, at: nat): Result<Tables> {
    if poolId !in t.pools then Failure("Swap for untracked pool")
    else if t.pools[poolId].gusdIsCurrency0.None? then Failure("Swap before its currency ordering was known")
    else
      var delta := GusdDelta(t.pools[poolId], amount0, amount1);
      var lpFee := LpFee(delta, fee);
      var u := t.(pools := t.pools[poolId := SwapPool(t.pools[poolId], delta, lpFee)]);
      if amount0 == 0 && amount1 == 0 then Success(u)
      else Success(BumpHour(BumpStats(u, lpFee, 0), poolId, at, SwapDelta(delta, lpFee)))
  }

  function FillPool(pool: Pool, isBuy: bool, gusd: int, fee: int): Pool {
    pool.(volume := pool.volume + gusd, buyVolume := if isBuy then pool.buyVolume + gusd else pool.buyVolume,
      sellVolume := if isBuy then pool.sellVolume else pool.sellVolume + gusd, hookFees := pool.hookFees + fee)
  }

  function FillDelta(isBuy: bool, gusd: int, fee: int): HourBucket {
    HourBucket(gusd, if isBuy then gusd else 0, if isBuy then 0 else gusd, 0, 0, fee, 0, 0)
  }

  function FillBumps(t: Tables, poolId: string, at: nat, delta: HourBucket, fee: int): (u: Tables)
    ensures u.assets == t.assets && u.pools == t.pools
  {
    BumpDay(BumpStats(BumpHour(t, poolId, at, delta), 0, fee), at, fee)
  }

  function OnGpuFill(t: Tables, poolId: string, gpuId: string, isBuy: bool, gusd: int, fee: int, at: nat): Result<Tables> {
    if poolId !in t.pools then Failure("GpuFill for untracked pool")
    else if gpuId !in t.assets then Failure("GpuFill for untracked gpuId")
    else
      var u := t.(pools := t.pools[poolId := FillPool(t.pools[poolId], isBuy, gusd, fee)]);
      var v := FillBumps(u, poolId, at, FillDelta(isBuy, gusd, fee), fee);
      Success(v.(assets := v.assets[gpuId := v.assets[gpuId].(polFees := v.assets[gpuId].polFees + fee)]))
  }

  function Apply(t: Tables, e: Event): Result<Tables> {
    match e
    case GpuCreated(gpuId, token) => Success(t.(assets := t.assets[gpuId := Asset(token, 0, None)]))
    case Initialize(poolId, currency0) => Success(OnInitialize(t, poolId, currency0))
    case PoolRegistered(poolId, gpuId) => OnPoolRegistered(t, poolId, gpuId)
    case Swap(poolId, amount0, amount1, fee, at) => OnSwap(t, poolId, amount0, amount1, fee, at)
    case GpuFill(poolId, gpuId, isBuy, gusd, fee, at) => OnGpuFill(t, poolId, gpuId, isBuy, gusd, fee, at)
  }

  /** The whole log; a handler that throws stops the indexer. */
  function Index(gusd: string, log: seq<Event>): Result<Tables> {
    if log == [] then Success(Tables(gusd, map[], map[], map[], None, map[]))
    else
      var before := Index(gusd, log[..|log| - 1]);
      if before.Failure? then before else Apply(before.value, log[|log| - 1])
  }

  // ---------------------------------------------------------- the entity store

  /** The store the handlers write; a thrown handler leaves its batch uncommitted. */
  class Indexer {
    const gusd: string
    var pools: map<string, Pool>
    var hours: map<(string, int), HourBucket>
    var days: map<int, int>
    var stats: Option<Stats>
    var assets: map<string, Asset>

    constructor (gusd: string)
      ensures Contents() == Tables(gusd, map[], map[], map[], None, map[])
    {
      this.gusd := gusd;
      pools, hours, days, stats, assets := map[], map[], map[], None, map[];
    }

    function Contents(): Tables
      reads this
    {
      Tables(gusd, pools, hours, days, stats, assets)
    }

    method BumpPoolHourBucket(poolId: string, at: nat, delta: HourBucket)
      modifies this`hours
      ensures Contents() == BumpHour(old(Contents()), poolId, at, delta)
    {
      var k := (poolId, HourStart(at));
      if k in hours {
        hours := hours[k := AddHour(hours[k], delta)];
      } else {
        hours := hours[k := AddHour(ZERO_HOUR, delta)];
      }
    }

    method BumpDailyBucket(at: nat, hookFees: int)
      modifies this`days
      ensures Contents() == BumpDay(old(Contents()), at, hookFees)
    {
      var k := DayStart(at);
      if k in days { days := days[k := days[k] + hookFees]; } else { days := days[k := hookFees]; }
    }

    method BumpProtocolStats(lpFees: int, hookFees: int)
      modifies this`stats
      ensures Contents() == BumpStats(old(Contents()), lpFees, hookFees)
    {
      if stats.Some? {
        stats := Some(Stats(stats.value.lpFees + lpFees, stats.value.hookFees + hookFees));
      } else {
        stats := Some(Stats(lpFees, hookFees));
      }
    }

    method WritePool(poolId: string, row: Pool)
      modifies this`pools
      ensures Contents() == old(Contents()).(pools := old(pools)[poolId := row])
    {
      pools := pools[poolId := row];
    }

    method AddPolFees(gpuId: string, protocolFee: int) returns (ok: bool)
      modifies this`assets
      ensures ok == (gpuId in old(assets))
      ensures ok ==> Contents() == old(Contents()).(
        assets := old(assets)[gpuId := old(assets)[gpuId].(polFees := old(assets)[gpuId].polFees + protocolFee)])
      ensures !ok ==> Contents() == old(Contents())
    {
      if gpuId !in assets { return false; }
      assets := assets[gpuId := assets[gpuId].(polFees := assets[gpuId].polFees + protocolFee)];
      ok := true;
    }

    method HandleSwap(poolId: string, amount0: int, amount1: int, fee: nat, at: nat) returns (ok: bool)
      modifies this
      ensures var r := OnSwap(old(Contents()), poolId, amount0, amount1, fee, at);
        ok == r.Success? && Contents() == if ok then r.value else old(Contents())
    {
      hide LpFee, BumpHour, BumpStats;
      if poolId !in pools { return false; }
      var pool := pools[poolId];
      if pool.gusdIsCurrency0.None? { return false; }
      ok := true;
      var gusdDelta := if pool.gusdIsCurrency0.value then amount0 else amount1;
      var gusdMoved := if gusdDelta < 0 then -gusdDelta else gusdDelta;
      var isBuy := gusdDelta < 0;
      var lpFeeEst := LpFee(gusdDelta, fee);
      WritePool(poolId, pool.(
        swapCount := pool.swapCount + 1,
        volume := pool.volume + gusdMoved,
        buyVolume := if isBuy then pool.buyVolume + gusdMoved else pool.buyVolume,
        sellVolume := if isBuy then pool.sellVolume else pool.sellVolume + gusdMoved,
        lpFees := pool.lpFees + lpFeeEst));
      if amount0 == 0 && amount1 == 0 { return; }
      BumpProtocolStats(lpFeeEst, 0);
      BumpPoolHourBucket(poolId, at, HourBucket(
        gusdMoved, if isBuy then gusdMoved else 0, if isBuy then 0 else gusdMoved,
        if isBuy then 1 else 0, if isBuy then 0 else 1, 0, lpFeeEst, 1));
    }

    /** The hour bucket, the protocol totals and the day of one fill. */
    method BumpFill(poolId: string, at: nat, delta: HourBucket, protocolFee: int)
      modifies this`hours, this`stats, this`days
      ensures Contents() == FillBumps(old(Contents()), poolId, at, delta, protocolFee)
    {
      hide BumpHour, BumpStats, BumpDay;
      BumpPoolHourBucket(poolId, at, delta);
      BumpProtocolStats(0, protocolFee);
      BumpDailyBucket(at, protocolFee);
    }

    method HandleGpuFill(poolId: string, gpuId: string, isBuy: bool, gusdAmount: int, protocolFee: int, at: nat) returns (ok: bool)
      modifies this
      ensures var r := OnGpuFill(old(Contents()), poolId, gpuId, isBuy, gusdAmount, protocolFee, at);
        ok == r.Success? && (ok ==> Contents() == r.value)
    {
      hide FillBumps;
      if poolId !in pools { return false; }
      var pool := pools[poolId];
      WritePool(poolId, pool.(
        volume := pool.volume + gusdAmount,
        buyVolume := if isBuy then pool.buyVolume + gusdAmount else pool.buyVolume,
        sellVolume := if isBuy then pool.sellVolume else pool.sellVolume + gusdAmount,
        hookFees := pool.hookFees + protocolFee));
      BumpFill(poolId, at, HourBucket(
        gusdAmount, if isBuy then gusdAmount else 0, if isBuy then 0 else gusdAmount, 0, 0, protocolFee, 0, 0), protocolFee);
      ok := AddPolFees(gpuId, protocolFee);
    }

    method HandlePoolRegistered(poolId: string, gpuId: string) returns (ok: bool)
      modifies this
      ensures var r := OnPoolRegistered(old(Contents()), poolId, gpuId);
        ok == r.Success? && (ok ==> Contents() == r.value)
    {
      if poolId in pools {
        pools := pools[poolId := pools[poolId].(canonical := true)];
      } else {
        pools := pools[poolId := Pool(true, None, None, 0, 0, 0, 0, 0, 0)];
      }
      if gpuId !in assets { return false; }
      var asset := assets[gpuId];
      assets := assets[gpuId := asset.(canonicalPool := Some(poolId))];
      var pool := pools[poolId];
      if pool.currency0.Some? {
        pools := pools[poolId := pool.(gusdIsCurrency0 := Some(pool.currency0.value != asset.token))];
      }
      ok := true;
    }

    /** One event of the log; a handler that throws commits nothing. */
    method Process(e: Event) returns (ok: bool)
      modifies this
      ensures var r := Apply(old(Contents()), e);
        ok == r.Success? && Contents() == if ok then r.value else old(Contents())
    {
      hide OnSwap, OnGpuFill, OnPoolRegistered;
      var pools0, hours0, days0, stats0, assets0 := pools, hours, days, stats, assets;
      match e {
        case GpuCreated(gpuId, token) =>
          assets := assets[gpuId := Asset(token, 0, None)];
          ok := true;
        case Initialize(poolId, currency0) =>
          if poolId in pools {
            pools := pools[poolId := pools[poolId].(currency0 := Some(currency0))];
          } else {
            pools := pools[poolId := Pool(false, Some(currency0), Some(currency0 == gusd), 0, 0, 0, 0, 0, 0)];
          }
          ok := true;
        case PoolRegistered(poolId, gpuId) => ok := HandlePoolRegistered(poolId, gpuId);
        case Swap(poolId, amount0, amount1, fee, at) => ok := HandleSwap(poolId, amount0, amount1, fee, at);
        case GpuFill(poolId, gpuId, isBuy, gusdAmount, protocolFee, at) =>
          ok := HandleGpuFill(poolId, gpuId, isBuy, gusdAmount, protocolFee, at);
      }
      if !ok { pools, hours, days, stats, assets := pools0, hours0, days0, stats0, assets0; }
    }
  }

  // ---------------------------------------------------------------- agreement

  datatype Column = Volume | BuyVolume | SellVolume | HookFees | LpFees

  function PoolColumn(p: Pool, c: Column): int {
    match c
    case Volume => p.volume
    case BuyVolume => p.buyVolume
    case SellVolume => p.sellVolume
    case HookFees => p.hookFees
    case LpFees => p.lpFees
  }

  function HourColumn(b: HourBucket, c: Column): int {
    match c
    case Volume => b.volume
    case BuyVolume => b.buyVolume
    case SellVolume => b.sellVolume
    case HookFees => b.hookFees
    case LpFees => b.lpFees
  }

  /** One column of a pool's hour buckets. */
  function HourCells(hours: map<(string, int), HourBucket>, poolId: string, c: Column): map<(string, int), int> {
    map k | k in hours && k.0 == poolId :: HourColumn(hours[k], c)
  }

  function SwapCells(hours: map<(string, int), HourBucket>, poolId: string): map<(string, int), int> {
    map k | k in hours && k.0 == poolId :: hours[k].swaps
  }

  function PoolCells(pools: map<string, Pool>, c: Column): map<string, int> {
    map p | p in pools :: PoolColumn(pools[p], c)
  }

  /** Swaps of a pool that the hook covered entirely: both core deltas are zero. */
  function CoveredSwaps(log: seq<Event>, poolId: string): nat {
    if log == [] then 0
    else
      var e := log[|log| - 1];
      CoveredSwaps(log[..|log| - 1], poolId)
      + (if e.Swap? && e.poolId == poolId && e.amount0 == 0 && e.amount1 == 0 then 1 else 0)
  }

  /** A pool's cumulatives are the sums of its hour buckets, and buys and sells make up the volume. */
  ghost predicate PoolAgrees(t: Tables, poolId: string, covered: nat)
    requires poolId in t.pools
  {
    var p := t.pools[poolId];
    (forall c :: PoolColumn(p, c) == Total(HourCells(t.hours, poolId, c))) &&
    p.volume == p.buyVolume + p.sellVolume &&
    p.swapCount - Total(SwapCells(t.hours, poolId)) == covered
  }

  function StatsOf(t: Tables): Stats { if t.stats.Some? then t.stats.value else Stats(0, 0) }

  /** The protocol singleton is the sum over pools, and over days. */
  ghost predicate StatsAgree(t: Tables) {
    StatsOf(t).lpFees == Total(PoolCells(t.pools, LpFees)) &&
    StatsOf(t).hookFees == Total(PoolCells(t.pools, HookFees)) &&
    StatsOf(t).hookFees == Total(t.days)
  }

  ghost predicate BucketsKnown(t: Tables) { forall k :: k in t.hours ==> k.0 in t.pools }

  /** Adding a delta to a bucket adds it to each column's sum, for its own pool only. */
  lemma BumpHourTotals(t: Tables, poolId: string, at: nat, delta: HourBucket, q: string)
    ensures forall c ::
        Total(HourCells(BumpHour(t, poolId, at, delta).hours, q, c)) ==
        Total(HourCells(t.hours, q, c)) + (if q == poolId then HourColumn(delta, c) else 0)
    ensures Total(SwapCells(BumpHour(t, poolId, at, delta).hours, q))
      == Total(SwapCells(t.hours, q)) + (if q == poolId then delta.swaps else 0)
  {
    var k, u := (poolId, HourStart(at)), BumpHour(t, poolId, at, delta);
    hide Total, HourStart;
    if q == poolId {
      forall c ensures Total(HourCells(u.hours, q, c)) == Total(HourCells(t.hours, q, c)) + HourColumn(delta, c) {
        var cells := HourCells(t.hours, q, c);
        assert HourCells(u.hours, q, c) == cells[k := HourColumn(u.hours[k], c)];
        TotalUpdate(cells, k, HourColumn(u.hours[k], c));
      }
      var swaps := SwapCells(t.hours, q);
      assert SwapCells(u.hours, q) == swaps[k := u.hours[k].swaps];
      TotalUpdate(swaps, k, u.hours[k].swaps);
    } else {
      forall c ensures HourCells(u.hours, q, c) == HourCells(t.hours, q, c) {}
      assert SwapCells(u.hours, q) == SwapCells(t.hours, q);
    }
  }

  lemma WritePoolTotals(pools: map<string, Pool>, poolId: string, row: Pool)
    ensures forall c ::
        Total(PoolCells(pools[poolId := row], c)) ==
        Total(PoolCells(pools, c)) - (if poolId in pools then PoolColumn(pools[poolId], c) else 0) + PoolColumn(row, c)
  {
    hide Total;
    forall c ensures Total(PoolCells(pools[poolId := row], c)) ==
      Total(PoolCells(pools, c)) - (if poolId in pools then PoolColumn(pools[poolId], c) else 0) + PoolColumn(row, c)
    {
      assert PoolCells(pools[poolId := row], c) == PoolCells(pools, c)[poolId := PoolColumn(row, c)];
      TotalUpdate(PoolCells(pools, c), poolId, PoolColumn(row, c));
    }
  }

  lemma NoBuckets(hours: map<(string, int), HourBucket>, poolId: string)
    requires forall k :: k in hours ==> k.0 != poolId
    ensures forall c :: Total(HourCells(hours, poolId, c)) == 0
    ensures Total(SwapCells(hours, poolId)) == 0
  {
    forall c ensures HourCells(hours, poolId, c) == map[] {}
    assert SwapCells(hours, poolId) == map[];
  }

  ghost predicate Agrees(t: Tables, log: seq<Event>) {
    BucketsKnown(t) && StatsAgree(t) && forall p :: p in t.pools ==> PoolAgrees(t, p, CoveredSwaps(log, p))
  }

  /** Writing a pool row that keeps its cumulatives keeps everything in agreement. */
  lemma RowWriteAgrees(t: Tables, log: seq<Event>, poolId: string, row: Pool)
    requires Agrees(t, log)
    requires if poolId in t.pools then
        (forall c :: PoolColumn(row, c) == PoolColumn(t.pools[poolId], c)) && row.swapCount == t.pools[poolId].swapCount
      else (forall c :: PoolColumn(row, c) == 0) && row.swapCount == 0 && CoveredSwaps(log, poolId) == 0
    ensures Agrees(t.(pools := t.pools[poolId := row]), log)
  {
    hide Total, HourCells, SwapCells, PoolCells, CoveredSwaps;
    WritePoolTotals(t.pools, poolId, row);
    assert row.volume == PoolColumn(row, Volume) && row.buyVolume == PoolColumn(row, BuyVolume) && row.sellVolume == PoolColumn(row, SellVolume);
    if poolId !in t.pools {
      NoBuckets(t.hours, poolId);
    } else {
      var p := t.pools[poolId];
      assert p.volume == PoolColumn(p, Volume) && p.buyVolume == PoolColumn(p, BuyVolume) && p.sellVolume == PoolColumn(p, SellVolume);
    }
  }

  /** A trade writes the same delta to the pool row, its hour bucket and the protocol totals. */
  ghost predicate Trade(t: Tables, u: Tables, poolId: string, at: nat, delta: HourBucket) {
    poolId in t.pools && poolId in u.pools && u.pools == t.pools[poolId := u.pools[poolId]] &&
    u.hours == BumpHour(t, poolId, at, delta).hours &&
    (forall c :: PoolColumn(u.pools[poolId], c) == PoolColumn(t.pools[poolId], c) + HourColumn(delta, c)) &&
    u.pools[poolId].swapCount == t.pools[poolId].swapCount + delta.swaps &&
    delta.volume == delta.buyVolume + delta.sellVolume &&
    StatsOf(u) == Stats(StatsOf(t).lpFees + delta.lpFees, StatsOf(t).hookFees + delta.hookFees) &&
    Total(u.days) == Total(t.days) + delta.hookFees
  }

  lemma TradePoolAgrees(t: Tables, u: Tables, log: seq<Event>, poolId: string, at: nat, delta: HourBucket, q: string)
    requires Agrees(t, log) && Trade(t, u, poolId, at, delta) && q in u.pools
    ensures PoolAgrees(u, q, CoveredSwaps(log, q))
  {
    hide Total, HourCells, SwapCells, PoolCells, CoveredSwaps, HourStart, StatsAgree, BumpHour;
    BumpHourTotals(t, poolId, at, delta, q);
    assert u.pools[q].volume == PoolColumn(u.pools[q], Volume);
    assert u.pools[q].buyVolume == PoolColumn(u.pools[q], BuyVolume);
    assert u.pools[q].sellVolume == PoolColumn(u.pools[q], SellVolume);
    assert HourColumn(delta, Volume) == HourColumn(delta, BuyVolume) + HourColumn(delta, SellVolume);
  }

  lemma TradeStatsAgree(t: Tables, u: Tables, poolId: string, at: nat, delta: HourBucket)
    requires StatsAgree(t) && Trade(t, u, poolId, at, delta)
    ensures StatsAgree(u)
  {
    hide Total, PoolCells, HourStart, BumpHour;
    WritePoolTotals(t.pools, poolId, u.pools[poolId]);
    assert HourColumn(delta, LpFees) == delta.lpFees && HourColumn(delta, HookFees) == delta.hookFees;
  }

  lemma TradeAgrees(t: Tables, u: Tables, log: seq<Event>, poolId: string, at: nat, delta: HourBucket)
    requires Agrees(t, log) && Trade(t, u, poolId, at, delta)
    ensures Agrees(u, log)
  {
    TradeStatsAgree(t, u, poolId, at, delta);
    hide Total, CoveredSwaps, HourStart, PoolAgrees, StatsAgree, PoolColumn, HourColumn, StatsOf;
    forall q | q in u.pools ensures PoolAgrees(u, q, CoveredSwaps(log, q)) {
      TradePoolAgrees(t, u, log, poolId, at, delta, q);
    }
  }

  lemma BucketedSwapAgrees(t: Tables, log: seq<Event>, poolId: string, amount0: int, amount1: int, fee: nat, at: nat)
    requires Agrees(t, log) && OnSwap(t, poolId, amount0, amount1, fee, at).Success? && !(amount0 == 0 && amount1 == 0)
    ensures Agrees(OnSwap(t, poolId, amount0, amount1, fee, at).value, log)
  {
    hide Total, HourCells, SwapCells, PoolCells, CoveredSwaps, HourStart, LpFee, Agrees;
    var delta := GusdDelta(t.pools[poolId], amount0, amount1);
    TradeAgrees(t, OnSwap(t, poolId, amount0, amount1, fee, at).value, log, poolId, at, SwapDelta(delta, LpFee(delta, fee)));
  }

  lemma CoveredSwapAgrees(t: Tables, log: seq<Event>, poolId: string, fee: nat, at: nat)
    requires Agrees(t, log) && OnSwap(t, poolId, 0, 0, fee, at).Success?
    ensures Agrees(OnSwap(t, poolId, 0, 0, fee, at).value, log + [Swap(poolId, 0, 0, fee, at)])
  {
    hide Total, HourCells, SwapCells, PoolCells;
    assert (log + [Swap(poolId, 0, 0, fee, at)])[..|log|] == log;
    WritePoolTotals(t.pools, poolId, SwapPool(t.pools[poolId], 0, 0));
  }

  lemma FillAgrees(t: Tables, log: seq<Event>, poolId: string, gpuId: string, isBuy: bool, gusd: int, fee: int, at: nat)
    requires Agrees(t, log) && OnGpuFill(t, poolId, gpuId, isBuy, gusd, fee, at).Success?
    ensures Agrees(OnGpuFill(t, poolId, gpuId, isBuy, gusd, fee, at).value, log)
  {
    hide Total, HourCells, SwapCells, PoolCells, CoveredSwaps, HourStart, DayStart, Agrees;
    var day := DayStart(at);
    TotalUpdate(t.days, day, (if day in t.days then t.days[day] else 0) + fee);
    TradeAgrees(t, OnGpuFill(t, poolId, gpuId, isBuy, gusd, fee, at).value, log, poolId, at, FillDelta(isBuy, gusd, fee));
  }

  /** An event that is not a fully covered swap leaves those counts alone. */
  lemma LogExtends(t: Tables, log: seq<Event>, e: Event)
    requires Agrees(t, log) && !(e.Swap? && e.amount0 == 0 && e.amount1 == 0)
    ensures Agrees(t, log + [e])
  {
    hide Total, HourCells, SwapCells, PoolCells;
    assert (log + [e])[..|log|] == log;
  }

  /** An accepted event never removes a pool row, and swaps only in a pool that has one. */
  lemma UnknownPoolUntouched(t: Tables, e: Event, poolId: string)
    requires Apply(t, e).Success? && poolId !in Apply(t, e).value.pools
    ensures poolId !in t.pools && !(e.Swap? && e.poolId == poolId)
  {
    hide LpFee, HourStart, DayStart, BumpHour, BumpStats, FillBumps, SwapPool, FillPool, GusdDelta;
    if e.Swap? { SwapKeepsPools(t, e.poolId, e.amount0, e.amount1, e.fee, e.at); }
  }

  lemma SwapKeepsPools(t: Tables, poolId: string, amount0: int, amount1: int, fee: nat, at: nat)
    requires OnSwap(t, poolId, amount0, amount1, fee, at).Success?
    ensures OnSwap(t, poolId, amount0, amount1, fee, at).value.pools.Keys == t.pools.Keys && poolId in t.pools
  {
    hide LpFee, HourStart, SwapPool, GusdDelta;
  }

  /** Covered swaps are only ever counted for pools the log has created. */
  lemma {:induction false} CoveredSwapsKnown(gusd: string, log: seq<Event>, poolId: string)
    requires Index(gusd, log).Success? && poolId !in Index(gusd, log).value.pools
    ensures CoveredSwaps(log, poolId) == 0
  {
    hide Apply;
    if log != [] {
      var front, e := log[..|log| - 1], log[|log| - 1];
      UnknownPoolUntouched(Index(gusd, front).value, e, poolId);
      CoveredSwapsKnown(gusd, front, poolId);
      hide Index;
      assert CoveredSwaps(log, poolId) == CoveredSwaps(front, poolId);
    }
  }

  lemma ApplyAgrees(gusd: string, log: seq<Event>, e: Event)
    requires Index(gusd, log).Success? && Agrees(Index(gusd, log).value, log)
    requires Apply(Index(gusd, log).value, e).Success?
    ensures Agrees(Apply(Index(gusd, log).value, e).value, log + [e])
  {
    hide Index, Agrees, CoveredSwaps, OnSwap, OnGpuFill;
    var t := Index(gusd, log).value;
    var u := Apply(t, e).value;
    match e {
      case GpuCreated(gpuId, token) =>
        SameRowsAgree(t, u, log);
        LogExtends(u, log, e);
      case Initialize(poolId, currency0) =>
        if poolId !in t.pools { CoveredSwapsKnown(gusd, log, poolId); }
        RowWriteAgrees(t, log, poolId, u.pools[poolId]);
        LogExtends(u, log, e);
      case PoolRegistered(poolId, gpuId) =>
        if poolId !in t.pools { CoveredSwapsKnown(gusd, log, poolId); }
        RowWriteAgrees(t, log, poolId, u.pools[poolId]);
        SameRowsAgree(t.(pools := u.pools), u, log);
        LogExtends(u, log, e);
      case Swap(poolId, amount0, amount1, fee, at) =>
        if amount0 == 0 && amount1 == 0 {
          CoveredSwapAgrees(t, log, poolId, fee, at);
        } else {
          BucketedSwapAgrees(t, log, poolId, amount0, amount1, fee, at);
          LogExtends(u, log, e);
        }
      case GpuFill(poolId, gpuId, isBuy, gusdAmount, protocolFee, at) =>
        FillAgrees(t, log, poolId, gpuId, isBuy, gusdAmount, protocolFee, at);
        LogExtends(u, log, e);
    }
  }

  lemma SameRowsAgree(t: Tables, u: Tables, log: seq<Event>)
    requires Agrees(t, log) && u.pools == t.pools && u.hours == t.hours && u.days == t.days && u.stats == t.stats
    ensures Agrees(u, log)
  {
    hide Total, HourCells, SwapCells, PoolCells, CoveredSwaps;
  }

  /**
   After any log the indexer accepts: each pool's cumulatives are the sums of its
   hour buckets, volume is buys plus sells, the swaps missing from the buckets are
   exactly the fully covered ones, and the protocol's fees are the sums over pools
   and, for hook fees, over days.
   */
  lemma {:induction false} ProjectionsAgree(gusd: string, log: seq<Event>)
    requires Index(gusd, log).Success?
    ensures Agrees(Index(gusd, log).value, log)
  {
    if log == [] {
      EmptyAgrees(gusd);
    } else {
      hide Agrees, Apply;
      var front := log[..|log| - 1];
      ProjectionsAgree(gusd, front);
      ApplyAgrees(gusd, front, log[|log| - 1]);
      assert log == front + [log[|log| - 1]];
    }
  }

  lemma EmptyAgrees(gusd: string)
    ensures Agrees(Tables(gusd, map[], map[], map[], None, map[]), [])
  {
    assert PoolCells(map[], LpFees) == map[] && PoolCells(map[], HookFees) == map[];
  }
}
