/**
 The keeper's offline perp math (apps/keeper/src/math.ts): funding accrual,
 settlement, PnL and the liquidation gate, with every rounding direction the
 source chooses. Amounts the chain stores unsigned are naturals.
 */
module PerpMath {
  import opened IntegerArithmetic
  import opened RealArithmetic

  const BPS: int := 10_000
  const PPM: int := 1_000_000
  const FUNDING_SCALE: int := 1_000_000_000_000_000_000
  const MAX_RATE_PPM_PER_SEC: int := 100_000
  const MAX_WINDOW_SEC: int := 3600

  datatype Rounding = RoundDown | RoundUp

  function MulDiv(a: nat, b: nat, d: int, r: Rounding): (q: nat)
    requires d > 0
  {
    MulDivNonNegative(a, b, d);
    if r.RoundDown? then Floor(Mul(a, b), d) else Ceil(Mul(a, b), d)
  }

  lemma MulDivNonNegative(a: nat, b: nat, d: int)
    requires d > 0
    ensures Floor(Mul(a, b), d) >= 0 && Ceil(Mul(a, b), d) >= 0
  {
    hide Mul, Floor, Ceil;
    MulOrder(a, 0, b);
    MulUnit(a);
    FloorOrder(0, Mul(a, b), d);
    ExactDivision(0, d);
    MulUnit(d);
  }

  function Maintenance(sizeUsd: nat, mmBps: nat): nat { MulDiv(sizeUsd, mmBps, BPS, RoundUp) }

  // --------------------------------------------------------------------- PnL

  /** The source divides by the entry price; a zero entry with size and movement throws. */
  predicate PnlDefined(sizeUsd: nat, entry: nat, price: int) {
    sizeUsd == 0 || price == entry || entry > 0
  }

  function Pnl(sizeUsd: nat, entry: nat, isLong: bool, price: int): int
    requires PnlDefined(sizeUsd, entry, price)
  {
    if sizeUsd == 0 || price == entry then 0
    else if (if isLong then price > entry else price < entry) then
      MulDiv(sizeUsd, if isLong then price - entry else entry - price, entry, RoundDown)
    else -(MulDiv(sizeUsd, if isLong then entry - price else price - entry, entry, RoundUp) as int)
  }

  /** What a side gains per unit when the price goes from one figure to another. */
  function Move(isLong: bool, from: int, to: int): int { if isLong then to - from else from - to }

  /** Both roundings favour the vault: PnL is the floor of the signed exact profit. */
  lemma PnlIsFloor(sizeUsd: nat, entry: nat, isLong: bool, price: int)
    requires entry > 0
    ensures Pnl(sizeUsd, entry, isLong, price) == Floor(Mul(sizeUsd, Move(isLong, entry, price)), entry)
  {
    hide Mul, Floor, Ceil;
    var move := Move(isLong, entry, price);
    MulUnit(move);
    MulUnit(sizeUsd);
    MulUnit(entry);
    ExactDivision(0, entry);
    MulSub(sizeUsd, 0, -move);
    if sizeUsd != 0 && move < 0 { CeilIsNegatedFloor(Mul(sizeUsd, -move), entry); }
  }

  /** A long's PnL rises with the price and a short's falls. */
  lemma PnlMonotone(sizeUsd: nat, entry: nat, isLong: bool, p1: int, p2: int)
    requires entry > 0 && (if isLong then p1 <= p2 else p2 <= p1)
    ensures Pnl(sizeUsd, entry, isLong, p1) <= Pnl(sizeUsd, entry, isLong, p2)
  {
    hide Mul, Floor, Ceil, Pnl;
    PnlIsFloor(sizeUsd, entry, isLong, p1);
    PnlIsFloor(sizeUsd, entry, isLong, p2);
    MulOrder(sizeUsd, Move(isLong, entry, p1), Move(isLong, entry, p2));
    FloorOrder(Mul(sizeUsd, Move(isLong, entry, p1)), Mul(sizeUsd, Move(isLong, entry, p2)), entry);
  }

  /** A side of any size loses nothing exactly when the price moved its way or not at all. */
  lemma PnlSign(sizeUsd: nat, entry: nat, isLong: bool, price: int)
    requires entry > 0 && sizeUsd > 0
    ensures Pnl(sizeUsd, entry, isLong, price) >= 0 <==> (if isLong then price >= entry else price <= entry)
  {
    hide Mul, Floor, Ceil, Pnl;
    PnlIsFloor(sizeUsd, entry, isLong, price);
    var move := Move(isLong, entry, price);
    DivisionBounds(Mul(sizeUsd, move), entry);
    MulUnit(sizeUsd);
    MulUnit(entry);
    var f := Floor(Mul(sizeUsd, move), entry);
    if move >= 0 {
      MulOrder(sizeUsd, 0, move);
      FloorOrder(0, Mul(sizeUsd, move), entry);
      ExactDivision(0, entry);
    } else {
      MulStrict(sizeUsd, move, 0);
      if f >= 0 { MulOrder(entry, 0, f); }
    }
  }

  /** Equal long and short positions sum to zero or to one lost unit, zero exactly on an exact division. */
  lemma PnlZeroSum(sizeUsd: nat, entry: nat, price: int)
    requires entry > 0
    ensures var both := Pnl(sizeUsd, entry, true, price) + Pnl(sizeUsd, entry, false, price);
      -1 <= both <= 0 &&
      (both == 0 <==> Mul(entry, Floor(Mul(sizeUsd, price - entry), entry)) == Mul(sizeUsd, price - entry))
  {
    hide Mul, Floor, Ceil, Pnl;
    PnlIsFloor(sizeUsd, entry, true, price);
    PnlIsFloor(sizeUsd, entry, false, price);
    var n := Mul(sizeUsd, price - entry);
    MulSub(sizeUsd, 0, price - entry);
    MulUnit(sizeUsd);
    var f, g := Floor(n, entry), Floor(-n, entry);
    DivisionBounds(n, entry);
    FloorSplits(n, -n, entry);
    ExactDivision(0, entry);
    MulUnit(entry);
    MulSub(entry, 0, f);
    if Mul(entry, f) == n {
      FloorUnique(-n, entry, -f);
    } else if g == -f {
      DivisionBounds(-n, entry);
    }
  }

  // ----------------------------------------------------------------- accrual

  datatype Cumulatives = Cumulatives(chargeLong: nat, chargeShort: nat, creditLong: nat, creditShort: nat, borrow: nat)

  /** A market's open interest, cumulatives and owner-set rates. */
  datatype Market = Market(
    openLong: nat, openShort: nat, cums: Cumulatives, updatedAt: int, fundingRate: int, borrowRate: int)

  function Owed(sizeUsd: nat, cum: nat, checkpoint: nat): nat {
    if cum <= checkpoint then 0 else MulDiv(sizeUsd, cum - checkpoint, FUNDING_SCALE, RoundUp)
  }

  function Earned(sizeUsd: nat, cum: nat, checkpoint: nat): nat {
    if cum <= checkpoint then 0 else MulDiv(sizeUsd, cum - checkpoint, FUNDING_SCALE, RoundDown)
  }

  function SkewFraction(long: nat, short: nat): nat {
    if long + short == 0 then 0
    else MulDiv(if long >= short then long - short else short - long, FUNDING_SCALE, long + short, RoundDown)
  }

  lemma MulNonNegative(a: nat, b: nat)
    ensures Mul(a, b) >= 0
  {
  }

  function FundingDrift(ratePpm: nat, windowSec: nat, skewFrac: nat): nat {
    MulNonNegative(windowSec, skewFrac);
    MulDiv(ratePpm, Mul(windowSec, skewFrac), PPM, RoundDown)
  }

  function BorrowDrift(ratePpm: nat, windowSec: nat): nat {
    MulNonNegative(windowSec, FUNDING_SCALE);
    MulDiv(ratePpm, Mul(windowSec, FUNDING_SCALE), PPM, RoundUp)
  }

  /** The window one accrual applies: the elapsed time clamped to an hour. */
  function Window(m: Market, nowSec: int): nat {
    if nowSec <= m.updatedAt then 0
    else if nowSec - m.updatedAt > MAX_WINDOW_SEC then MAX_WINDOW_SEC
    else nowSec - m.updatedAt
  }

  function ClampedRate(rate: int): nat {
    if rate <= 0 then 0 else if rate > MAX_RATE_PPM_PER_SEC then MAX_RATE_PPM_PER_SEC else rate
  }

  /** The skew drift of one window; zero when the market is balanced or the rate is off. */
  function Drift(m: Market, window: nat): nat {
    var skew := SkewFraction(m.openLong, m.openShort);
    if skew > 0 && m.fundingRate > 0 then FundingDrift(ClampedRate(m.fundingRate), window, skew) else 0
  }

  function AfterWindow(m: Market, window: nat): Cumulatives {
    var c, drift := m.cums, Drift(m, window);
    var longPays := m.openLong >= m.openShort;
    Cumulatives(
      c.chargeLong + (if longPays then drift else 0),
      c.chargeShort + (if longPays then 0 else drift),
      c.creditLong + (if !longPays && m.openLong > 0 then MulDiv(drift, m.openShort, m.openLong, RoundDown) else 0),
      c.creditShort + (if longPays && m.openShort > 0 then MulDiv(drift, m.openLong, m.openShort, RoundDown) else 0),
      c.borrow + (if m.borrowRate > 0 then BorrowDrift(m.borrowRate, window) else 0))
  }

  function Advance(m: Market, nowSec: int): Cumulatives {
    AfterWindow(m, Window(m, nowSec))
  }

  /** The source's step-by-step advance: at or before the last touch it changes nothing. */
  method AdvanceFunding(m: Market, nowSec: int) returns (out: Cumulatives, windowSec: nat)
    ensures out == Advance(m, nowSec) && windowSec == Window(m, nowSec)
  {
    out := m.cums;
    windowSec := 0;
    if nowSec <= m.updatedAt {
      NoWindow(m);
      return;
    }
    hide Mul, MulDiv, BorrowDrift, FundingDrift, SkewFraction;
    var dt := nowSec - m.updatedAt;
    windowSec := if dt > MAX_WINDOW_SEC then MAX_WINDOW_SEC else dt;
    assert windowSec == Window(m, nowSec);
    hide Window;
    var skewFrac := SkewFraction(m.openLong, m.openShort);
    NoDrift(m);
    if skewFrac > 0 && m.fundingRate > 0 {
      var rate := if m.fundingRate > MAX_RATE_PPM_PER_SEC then MAX_RATE_PPM_PER_SEC else m.fundingRate;
      var drift := FundingDrift(rate, windowSec, skewFrac);
      assert drift == Drift(m, windowSec);
      if m.openLong >= m.openShort {
        out := out.(chargeLong := out.chargeLong + drift);
        if m.openShort > 0 {
          out := out.(creditShort := out.creditShort + MulDiv(drift, m.openLong, m.openShort, RoundDown));
        }
      } else {
        out := out.(chargeShort := out.chargeShort + drift);
        if m.openLong > 0 {
          out := out.(creditLong := out.creditLong + MulDiv(drift, m.openShort, m.openLong, RoundDown));
        }
      }
    }
    if m.borrowRate > 0 {
      out := out.(borrow := out.borrow + BorrowDrift(m.borrowRate, windowSec));
    }
  }

  /** A zero drift credits nothing. */
  lemma NoDrift(m: Market)
    ensures m.openLong > 0 ==> MulDiv(0, m.openShort, m.openLong, RoundDown) == 0
    ensures m.openShort > 0 ==> MulDiv(0, m.openLong, m.openShort, RoundDown) == 0
  {
  }

  /** An empty window changes nothing. */
  lemma NoWindow(m: Market)
    ensures AfterWindow(m, 0) == m.cums
  {
    hide Mul, Floor, Ceil;
    NoDrift(m);
    MulUnit(SkewFraction(m.openLong, m.openShort));
    MulUnit(ClampedRate(m.fundingRate));
    MulUnit(FUNDING_SCALE);
    MulUnit(m.borrowRate);
    ExactDivision(0, PPM);
    MulUnit(PPM);
  }

  lemma AdvanceIdempotentBefore(m: Market, nowSec: int)
    requires nowSec <= m.updatedAt
    ensures Advance(m, nowSec) == m.cums
  {
    NoWindow(m);
  }

  /** Past the window, one accrual is worth exactly an hour. */
  lemma AdvanceClamped(m: Market, nowSec: int)
    requires nowSec >= m.updatedAt + MAX_WINDOW_SEC
    ensures Advance(m, nowSec) == Advance(m, m.updatedAt + MAX_WINDOW_SEC)
  {
  }

  /** The drift is the exact skew funding, rounded down by less than a unit and a rate's worth of skew. */
  lemma DriftWithin(m: Market, window: nat)
    requires m.openLong + m.openShort > 0 && m.fundingRate > 0
    ensures var long, short := m.openLong, m.openShort;
      var paid := Mul(if m.fundingRate > 100_000 then 100_000 else m.fundingRate, window) as real / 1000000.0;
      var exact := Times(paid, Ratio(Mul(if long >= short then long - short else short - long, 1_000_000_000_000_000_000), long + short));
      Drift(m, window) as real <= exact < Drift(m, window) as real + 1.0 + paid
  {
    hide Mul, Floor, Ceil, Times, Ratio;
    var gap, total := if m.openLong >= m.openShort then m.openLong - m.openShort else m.openShort - m.openLong, m.openLong + m.openShort;
    var rate, skew := ClampedRate(m.fundingRate), SkewFraction(m.openLong, m.openShort);
    RatioRounds(Mul(gap, FUNDING_SCALE), total);
    var exact := Ratio(Mul(gap, FUNDING_SCALE), total);
    MulAssociates(rate, window, skew);
    MulNonNegative(rate, window);
    DriftScales(Mul(rate, window), skew, exact);
    MulUnit(Mul(rate, window));
    ExactDivision(0, PPM);
    MulUnit(PPM);
  }

  lemma DriftScales(ratesum: nat, skew: nat, exact: real)
    requires skew as real <= exact < skew as real + 1.0
    ensures var paid := ratesum as real / 1000000.0;
      Floor(Mul(ratesum, skew), PPM) as real <= Times(paid, exact) < Floor(Mul(ratesum, skew), PPM) as real + 1.0 + paid
  {
    hide Floor;
    var paid := ratesum as real / 1000000.0;
    RatioRounds(Mul(ratesum, skew), PPM);
    assert Ratio(Mul(ratesum, skew), PPM) == Times(paid, skew as real);
    hide Times, Ratio;
    TimesOrder(paid, skew as real, exact);
    TimesOrder(paid, exact, skew as real + 1.0);
    TimesAdd(paid, skew as real, 1.0);
    TimesUnit(paid);
  }

  /**
   One accrual charges the larger side alone, longs on a tie, at its drift; hands the
   other side what that collects, short of one unit per unit of open interest; and
   grows the borrow index of both by its exact rate. At most an hour counts.
   */
  lemma AccrualDirections(m: Market, nowSec: int)
    ensures var c, d := m.cums, Advance(m, nowSec);
      var elapsed := if nowSec <= m.updatedAt then 0 else if nowSec - m.updatedAt <= 3600 then nowSec - m.updatedAt else 3600;
      var drift := Drift(m, elapsed);
      (m.openLong >= m.openShort ==>
        d.chargeLong == c.chargeLong + drift && d.chargeShort == c.chargeShort && d.creditLong == c.creditLong &&
        PaidOut(drift, m.openLong, m.openShort, d.creditShort - c.creditShort)) &&
      (m.openLong < m.openShort ==>
        d.chargeShort == c.chargeShort + drift && d.chargeLong == c.chargeLong && d.creditShort == c.creditShort &&
        PaidOut(drift, m.openShort, m.openLong, d.creditLong - c.creditLong)) &&
      d.borrow == c.borrow + (if m.borrowRate > 0 then Mul(m.borrowRate, Mul(elapsed, 1_000_000_000_000)) else 0)
  {
    hide Mul, Floor, Drift, BorrowDrift;
    var drift := Drift(m, Window(m, nowSec));
    if m.borrowRate > 0 { BorrowDriftExact(m.borrowRate, Window(m, nowSec)); }
    if m.openLong > 0 { DivisionBounds(Mul(drift, m.openShort), m.openLong); }
    if m.openShort > 0 { DivisionBounds(Mul(drift, m.openLong), m.openShort); }
  }

  /** A credit hands the takers what the payers' charge collects, short of one unit per taken unit. */
  ghost predicate PaidOut(drift: nat, payers: nat, takers: nat, credit: int) {
    if takers == 0 then credit == 0 else Mul(takers, credit) <= Mul(drift, payers) < Mul(takers, credit) + takers
  }

  /** The market after an accrual is stored. */
  function Store(m: Market, nowSec: int): Market {
    m.(cums := Advance(m, nowSec), updatedAt := if nowSec > m.updatedAt then nowSec else m.updatedAt)
  }

  /** Borrow drift is exactly linear in the window: 1e18 is a multiple of 1e6. */
  lemma BorrowDriftExact(ratePpm: nat, window: nat)
    ensures BorrowDrift(ratePpm, window) == Mul(ratePpm, Mul(window, 1_000_000_000_000))
  {
    hide Mul, Floor, Ceil;
    var unit := 1_000_000_000_000;
    ScaleIsMultiple();
    MulAssociates(window, unit, PPM);
    MulAssociates(ratePpm, Mul(window, unit), PPM);
    MulCommutes(Mul(ratePpm, Mul(window, unit)), PPM);
    ExactDivision(Mul(ratePpm, Mul(window, unit)), PPM);
  }

  lemma ScaleIsMultiple()
    ensures Mul(1_000_000_000_000, PPM) == FUNDING_SCALE
  {
  }

  lemma BorrowSplits(rate: nat, w1: nat, w2: nat)
    ensures BorrowDrift(rate, w1 + w2) == BorrowDrift(rate, w1) + BorrowDrift(rate, w2)
  {
    hide Mul, BorrowDrift;
    var unit := 1_000_000_000_000;
    BorrowDriftExact(rate, w1);
    BorrowDriftExact(rate, w2);
    BorrowDriftExact(rate, w1 + w2);
    MulAdd(unit, w1, w2);
    MulAdd(rate, Mul(w1, unit), Mul(w2, unit));
  }

  /** Splitting a window loses at most one unit of skew drift. */
  lemma DriftSplits(m: Market, w1: nat, w2: nat)
    ensures Drift(m, w1) + Drift(m, w2) <= Drift(m, w1 + w2) <= Drift(m, w1) + Drift(m, w2) + 1
  {
    hide Mul, Floor, Ceil, SkewFraction;
    var skew, rate := SkewFraction(m.openLong, m.openShort), ClampedRate(m.fundingRate);
    MulAdd(skew, w1, w2);
    MulAdd(rate, Mul(w1, skew), Mul(w2, skew));
    FloorSplits(Mul(rate, Mul(w1, skew)), Mul(rate, Mul(w2, skew)), PPM);
  }

  /** The drift's share paid out to the other side never grows by splitting. */
  lemma CreditSplits(d1: nat, d2: nat, d: nat, payers: nat, takers: nat)
    requires takers > 0 && d1 + d2 <= d
    ensures MulDiv(d1, payers, takers, RoundDown) + MulDiv(d2, payers, takers, RoundDown) <= MulDiv(d, payers, takers, RoundDown)
  {
    hide Mul, Floor, Ceil;
    FloorSplits(Mul(d1, payers), Mul(d2, payers), takers);
    MulAdd(payers, d1, d2);
    MulOrder(payers, d1 + d2, d);
    FloorOrder(Mul(d1 + d2, payers), Mul(d, payers), takers);
  }

  /**
   Accruing twice inside one window instead of once leaves borrow exactly equal,
   lowers each charge by at most one unit, and never raises a credit.
   */
  lemma AccrualSplits(m: Market, t1: int, t2: int)
    requires m.updatedAt <= t1 <= t2 <= m.updatedAt + MAX_WINDOW_SEC
    ensures var once, twice := Advance(m, t2), Advance(Store(m, t1), t2);
      twice.borrow == once.borrow &&
      twice.chargeLong <= once.chargeLong <= twice.chargeLong + 1 &&
      twice.chargeShort <= once.chargeShort <= twice.chargeShort + 1 &&
      twice.creditLong <= once.creditLong && twice.creditShort <= once.creditShort
  {
    hide Mul, MulDiv, Drift, BorrowDrift;
    var w1, w2 := Window(m, t1), Window(Store(m, t1), t2);
    assert Window(m, t2) == w1 + w2;
    SameDrift(m, Store(m, t1), w2);
    DriftSplits(m, w1, w2);
    if m.borrowRate > 0 { BorrowSplits(m.borrowRate, w1, w2); }
    if m.openLong > 0 { CreditSplits(Drift(m, w1), Drift(m, w2), Drift(m, w1 + w2), m.openShort, m.openLong); }
    if m.openShort > 0 { CreditSplits(Drift(m, w1), Drift(m, w2), Drift(m, w1 + w2), m.openLong, m.openShort); }
  }

  lemma SameDrift(m: Market, n: Market, window: nat)
    requires n.openLong == m.openLong && n.openShort == m.openShort && n.fundingRate == m.fundingRate
    ensures Drift(n, window) == Drift(m, window)
  {
  }

  // -------------------------------------------------------------- settlement

  datatype Position = Position(
    sizeUsd: nat, collateral: int, entryPrice: nat, feeCheckpoint: nat, creditCheckpoint: nat,
    borrowCheckpoint: nat, earnedFunding: int, isLong: bool)

  datatype Settlement = Settlement(owed: nat, earned: nat, borrow: nat)

  function ChargeOf(c: Cumulatives, isLong: bool): nat { if isLong then c.chargeLong else c.chargeShort }

  function CreditOf(c: Cumulatives, isLong: bool): nat { if isLong then c.creditLong else c.creditShort }

  function Settle(c: Cumulatives, p: Position): Settlement {
    Settlement(
      Owed(p.sizeUsd, ChargeOf(c, p.isLong), p.feeCheckpoint),
      Earned(p.sizeUsd, CreditOf(c, p.isLong), p.creditCheckpoint),
      Owed(p.sizeUsd, c.borrow, p.borrowCheckpoint))
  }

  function Equity(p: Position, s: Settlement, price: int): int
    requires PnlDefined(p.sizeUsd, p.entryPrice, price)
  {
    p.collateral + Pnl(p.sizeUsd, p.entryPrice, p.isLong, price) + p.earnedFunding + s.earned - (s.owed + s.borrow)
  }

  predicate IsLiquidatable(p: Position, s: Settlement, price: int, mmBps: nat)
    requires PnlDefined(p.sizeUsd, p.entryPrice, price)
  {
    p.sizeUsd != 0 && Equity(p, s, price) < Maintenance(p.sizeUsd, mmBps)
  }

  function Grown(cum: nat, checkpoint: nat): nat { if cum <= checkpoint then 0 else cum - checkpoint }

  /** Exact equity: collateral, profit and funding, with no rounding anywhere. */
  ghost function ExactEquity(p: Position, c: Cumulatives, price: int): real
    requires p.entryPrice > 0
  {
    p.collateral as real + Ratio(Mul(p.sizeUsd, Move(p.isLong, p.entryPrice, price)), p.entryPrice) + p.earnedFunding as real
    + Ratio(Mul(p.sizeUsd, Grown(if p.isLong then c.creditLong else c.creditShort, p.creditCheckpoint)), 1_000_000_000_000_000_000)
    - Ratio(Mul(p.sizeUsd, Grown(if p.isLong then c.chargeLong else c.chargeShort, p.feeCheckpoint)), 1_000_000_000_000_000_000)
    - Ratio(Mul(p.sizeUsd, Grown(c.borrow, p.borrowCheckpoint)), 1_000_000_000_000_000_000)
  }

  lemma SettlementRounds(c: Cumulatives, p: Position)
    ensures var s := Settle(c, p);
      var owed := Ratio(Mul(p.sizeUsd, Grown(if p.isLong then c.chargeLong else c.chargeShort, p.feeCheckpoint)), 1_000_000_000_000_000_000);
      var earned := Ratio(Mul(p.sizeUsd, Grown(if p.isLong then c.creditLong else c.creditShort, p.creditCheckpoint)), 1_000_000_000_000_000_000);
      var borrow := Ratio(Mul(p.sizeUsd, Grown(c.borrow, p.borrowCheckpoint)), 1_000_000_000_000_000_000);
      owed <= s.owed as real < owed + 1.0 && earned - 1.0 < s.earned as real <= earned && borrow <= s.borrow as real < borrow + 1.0
  {
    hide Mul, Floor, Ceil, Ratio;
    RatioRounds(Mul(p.sizeUsd, Grown(ChargeOf(c, p.isLong), p.feeCheckpoint)), FUNDING_SCALE);
    RatioRounds(Mul(p.sizeUsd, Grown(CreditOf(c, p.isLong), p.creditCheckpoint)), FUNDING_SCALE);
    RatioRounds(Mul(p.sizeUsd, Grown(c.borrow, p.borrowCheckpoint)), FUNDING_SCALE);
    MulUnit(p.sizeUsd);
    MulUnit(FUNDING_SCALE);
    ExactDivision(0, FUNDING_SCALE);
  }

  /**
   The gate in exact figures: a position whose exact equity is below its exact
   maintenance is always liquidatable, and one at four raw units or more above it never is.
   */
  lemma GateWithinUnits(p: Position, c: Cumulatives, price: int, mmBps: nat)
    requires p.sizeUsd > 0 && p.entryPrice > 0
    ensures var needed := Ratio(Mul(p.sizeUsd, mmBps), 10_000);
      (ExactEquity(p, c, price) < needed ==> IsLiquidatable(p, Settle(c, p), price, mmBps)) &&
      (ExactEquity(p, c, price) >= needed + 4.0 ==> !IsLiquidatable(p, Settle(c, p), price, mmBps))
  {
    hide Mul, Floor, Ceil, Ratio, Pnl, Settle;
    SettlementRounds(c, p);
    PnlIsFloor(p.sizeUsd, p.entryPrice, p.isLong, price);
    RatioRounds(Mul(p.sizeUsd, Move(p.isLong, p.entryPrice, price)), p.entryPrice);
    RatioRounds(Mul(p.sizeUsd, mmBps), BPS);
  }

  // ------------------------------------------------------------- liquidation

  /** For a long the gate is a price ceiling: it holds at every lower price. A short mirrors it. */
  lemma LiquidationPriceThreshold(p: Position, s: Settlement, price: int, worse: int, mmBps: nat)
    requires p.entryPrice > 0 && IsLiquidatable(p, s, price, mmBps)
    requires if p.isLong then worse <= price else worse >= price
    ensures IsLiquidatable(p, s, worse, mmBps)
  {
    hide Pnl, Maintenance;
    PnlMonotone(p.sizeUsd, p.entryPrice, p.isLong, worse, price);
  }

  lemma OwedGrows(sizeUsd: nat, c1: nat, c2: nat, checkpoint: nat)
    requires c1 <= c2
    ensures Owed(sizeUsd, c1, checkpoint) <= Owed(sizeUsd, c2, checkpoint)
  {
    hide Mul, Floor, Ceil;
    if c1 > checkpoint {
      MulOrder(sizeUsd, c1 - checkpoint, c2 - checkpoint);
      FloorOrder(Mul(sizeUsd, c1 - checkpoint), Mul(sizeUsd, c2 - checkpoint), FUNDING_SCALE);
    }
  }

  lemma DriftGrows(m: Market, w1: nat, w2: nat)
    requires w1 <= w2
    ensures Drift(m, w1) <= Drift(m, w2)
  {
    hide Drift;
    DriftSplits(m, w1, w2 - w1);
  }

  /** A side earns nothing when it is the paying side, or nobody pays. */
  predicate EarnsNothing(m: Market, isLong: bool) {
    SkewFraction(m.openLong, m.openShort) == 0 || m.fundingRate <= 0 ||
    (if isLong then m.openLong >= m.openShort else m.openLong < m.openShort)
  }

  /** Later on an unchanged market, a non-earning position owes at least as much and earns the same. */
  lemma SettlementWorsens(m: Market, p: Position, t1: int, t2: int)
    requires t1 <= t2 && EarnsNothing(m, p.isLong)
    ensures var s1, s2 := Settle(Advance(m, t1), p), Settle(Advance(m, t2), p);
      s1.owed <= s2.owed && s1.borrow <= s2.borrow && s1.earned == s2.earned
  {
    hide Owed, Earned, MulDiv, BorrowDrift, SkewFraction, FundingDrift;
    var w1, w2 := Window(m, t1), Window(m, t2);
    NoDrift(m);
    DriftGrows(m, w1, w2);
    if m.borrowRate > 0 { BorrowSplits(m.borrowRate, w1, w2 - w1); }
    var c1, c2 := Advance(m, t1), Advance(m, t2);
    assert CreditOf(c1, p.isLong) == CreditOf(c2, p.isLong);
    assert ChargeOf(c1, p.isLong) <= ChargeOf(c2, p.isLong) && c1.borrow <= c2.borrow;
    OwedGrows(p.sizeUsd, ChargeOf(c1, p.isLong), ChargeOf(c2, p.isLong), p.feeCheckpoint);
    OwedGrows(p.sizeUsd, c1.borrow, c2.borrow, p.borrowCheckpoint);
  }

  /** Once liquidatable, a non-earning position stays so at every later time and every no-better price. */
  lemma LiquidationPersists(m: Market, p: Position, t1: int, t2: int, price: int, worse: int, mmBps: nat)
    requires t1 <= t2 && EarnsNothing(m, p.isLong) && p.entryPrice > 0
    requires if p.isLong then worse <= price else worse >= price
    requires IsLiquidatable(p, Settle(Advance(m, t1), p), price, mmBps)
    ensures IsLiquidatable(p, Settle(Advance(m, t2), p), worse, mmBps)
  {
    hide Pnl, Maintenance, Settle, Advance;
    SettlementWorsens(m, p, t1, t2);
    LiquidationPriceThreshold(p, Settle(Advance(m, t1), p), price, worse, mmBps);
  }
}
