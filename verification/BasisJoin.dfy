/**
 The basis chart's join of market candles with Index publications
 (apps/web/src/components/charts/basis-chart.tsx): one forward walk over both
 series, against the brute-force nearest search it stands for.
 */
module BasisJoin {
  /** A percentage; dividing by an Index value of zero yields no finite one. */
  datatype Percent = Finite(pct: real) | PlusInfinity | MinusInfinity | NotANumber

  /** Times are Unix milliseconds. */
  datatype Candle = Candle(t: int, close: real)
  datatype IndexPoint = IndexPoint(t: int, value: real)
  datatype BasisPoint = BasisPoint(t: int, pct: Percent)

  /** The premium of a close over an Index value. */
  function Premium(close: real, value: real): Percent {
    if value != 0.0 then Finite((close / value - 1.0) * 100.0)
    else if close > 0.0 then PlusInfinity
    else if close < 0.0 then MinusInfinity
    else NotANumber
  }

  /**
   A finite premium is the percentage by which the value has to grow to be the close:
   over a positive value it is positive exactly when the close is above it, and
   without a finite one the value is zero and the close gives the sign.
   */
  lemma PremiumExactly(close: real, value: real)
    ensures Premium(close, value).Finite? <==> value != 0.0
    ensures value != 0.0 ==> value * (1.0 + Premium(close, value).pct / 100.0) == close
    ensures value > 0.0 ==> (Premium(close, value).pct > 0.0 <==> close > value) && (Premium(close, value).pct == 0.0 <==> close == value)
    ensures value == 0.0 ==>
      (Premium(close, value).PlusInfinity? <==> close > 0.0) && (Premium(close, value).MinusInfinity? <==> close < 0.0)
  {
    if value != 0.0 {
      var q := close / value;
      assert q * value == close;
      var pct := Premium(close, value).pct;
      assert pct / 100.0 == q - 1.0;
      if value > 0.0 {
        if q > 1.0 { assert q * value > value; }
        if q < 1.0 { assert q * value < value; }
      }
    }
  }

  const TOLERANCE_MS := 3_600_000

  function Distance(a: int, b: int): nat { if a >= b then a - b else b - a }

  ghost predicate CandlesAscend(candles: seq<Candle>) {
    forall a, b :: 0 <= a < b < |candles| ==> candles[a].t <= candles[b].t
  }

  ghost predicate IndexAscends(index: seq<IndexPoint>) {
    forall a, b :: 0 <= a < b < |index| ==> index[a].t <= index[b].t
  }

  /** No two neighbours share a stamp, except possibly a run at the very end. */
  ghost predicate StrictBeforeLast(index: seq<IndexPoint>) {
    forall k :: 0 <= k < |index| - 1 && index[k].t == index[k + 1].t ==> index[k + 1].t == index[|index| - 1].t
  }

  // ------------------------------------------------------------- brute force

  /** The earliest Index point at minimum distance from `t`. */
  ghost predicate IsNearest(index: seq<IndexPoint>, t: int, k: int) {
    && 0 <= k < |index|
    && (forall i :: 0 <= i < |index| ==> Distance(index[k].t, t) <= Distance(index[i].t, t))
    && (forall i :: 0 <= i < k ==> Distance(index[k].t, t) < Distance(index[i].t, t))
  }

  function Nearest(index: seq<IndexPoint>, t: int): (k: int)
    requires index != []
    ensures IsNearest(index, t, k)
  {
    if |index| == 1 then 0
    else
      var n := |index| - 1;
      var best := Nearest(index[..n], t);
      assert forall i :: 0 <= i < n ==> index[i] == index[..n][i];
      if Distance(index[n].t, t) < Distance(index[best].t, t) then n else best
  }

  lemma NearestIsUnique(index: seq<IndexPoint>, t: int, a: int, b: int)
    requires IsNearest(index, t, a) && IsNearest(index, t, b)
    ensures a == b
  {
    assert Distance(index[a].t, t) == Distance(index[b].t, t);
  }

  /** The output position of one candle: its point, if the pair lies within the tolerance. */
  function Paired(candle: Candle, index: seq<IndexPoint>, k: int): seq<BasisPoint>
    requires 0 <= k < |index|
  {
    if Distance(index[k].t, candle.t) > TOLERANCE_MS then []
    else [BasisPoint(candle.t, Premium(candle.close, index[k].value))]
  }

  /** Each candle against its nearest Index point, when that is within an hour; in candle order. */
  function Joined(candles: seq<Candle>, index: seq<IndexPoint>): seq<BasisPoint>
    requires index != []
  {
    if candles == [] then []
    else
      var last := candles[|candles| - 1];
      Joined(candles[..|candles| - 1], index) + Paired(last, index, Nearest(index, last.t))
  }

  /**
   A point stands in the join exactly for the candles whose nearest Index point, the
   earlier one on a tie, is at most an hour away; it is stamped with the candle's time.
   */
  lemma {:induction false} JoinedExactly(candles: seq<Candle>, index: seq<IndexPoint>, p: BasisPoint)
    requires index != []
    ensures p in Joined(candles, index) <==>
      exists c, k :: c in candles && IsNearest(index, c.t, k) && c.t - 3_600_000 <= index[k].t <= c.t + 3_600_000 &&
        p == BasisPoint(c.t, Premium(c.close, index[k].value))
  {
    hide Premium, Nearest;
    if candles != [] {
      var front, last := candles[..|candles| - 1], candles[|candles| - 1];
      assert candles == front + [last];
      JoinedExactly(front, index, p);
      var n := Nearest(index, last.t);
      forall k | IsNearest(index, last.t, k) ensures k == n { NearestIsUnique(index, last.t, k, n); }
    }
  }

  // ---------------------------------------------------------------- the walk

  predicate Nearer(index: seq<IndexPoint>, j: nat, t: int)
    requires j + 1 < |index|
  {
    Distance(index[j].t, t) > Distance(index[j + 1].t, t)
  }

  /** Where the pointer stops for a candle at `t`. */
  function Advance(index: seq<IndexPoint>, j: nat, t: int): (r: nat)
    requires j < |index|
    ensures j <= r < |index|
    decreases |index| - j
  {
    if j < |index| - 1 && Nearer(index, j, t) then Advance(index, j + 1, t) else j
  }

  /** The pointer after the walk over all these candles. */
  function Pointer(candles: seq<Candle>, index: seq<IndexPoint>): (r: nat)
    requires index != []
    ensures r < |index|
  {
    if candles == [] then 0
    else Advance(index, Pointer(candles[..|candles| - 1], index), candles[|candles| - 1].t)
  }

  function Walked(candles: seq<Candle>, index: seq<IndexPoint>): seq<BasisPoint>
    requires index != []
  {
    if candles == [] then []
    else Walked(candles[..|candles| - 1], index) + Paired(candles[|candles| - 1], index, Pointer(candles, index))
  }

  /** On ascending stamps the comparison is a threshold in time. */
  lemma NearerIsMidpoint(x: int, y: int, t: int)
    requires x <= y
    ensures Distance(x, t) > Distance(y, t) <==> x < y && x + y < 2 * t
  {
  }

  /** Every step taken so far was one towards `t`. */
  ghost predicate Passed(index: seq<IndexPoint>, j: nat, t: int)
    requires j < |index|
  {
    forall k :: 0 <= k < j ==> Nearer(index, k, t)
  }

  lemma {:induction false} AdvancePasses(index: seq<IndexPoint>, j: nat, t: int)
    requires j < |index| && Passed(index, j, t)
    ensures Passed(index, Advance(index, j, t), t)
    ensures var r := Advance(index, j, t); r < |index| - 1 ==> !Nearer(index, r, t)
    decreases |index| - j
  {
    if j < |index| - 1 && Nearer(index, j, t) { AdvancePasses(index, j + 1, t); }
  }

  /** A later candle would have taken the same steps. */
  lemma PassedLater(index: seq<IndexPoint>, j: nat, t: int, later: int)
    requires IndexAscends(index) && j < |index| && Passed(index, j, t) && t <= later
    ensures Passed(index, j, later)
  {
    forall k | 0 <= k < j ensures Nearer(index, k, later) {
      assert Nearer(index, k, t);
      NearerIsMidpoint(index[k].t, index[k + 1].t, t);
      NearerIsMidpoint(index[k].t, index[k + 1].t, later);
    }
  }

  lemma {:induction false} PassedIsFarther(index: seq<IndexPoint>, i: nat, j: nat, t: int)
    requires i < j < |index| && Passed(index, j, t)
    ensures Distance(index[i].t, t) > Distance(index[j].t, t)
    decreases j - i
  {
    assert Nearer(index, i, t);
    if i + 1 < j { PassedIsFarther(index, i + 1, j, t); }
  }

  /** Where no further step is taken, nothing ahead is nearer. */
  lemma StoppedIsNearest(index: seq<IndexPoint>, j: nat, t: int)
    requires IndexAscends(index) && StrictBeforeLast(index) && j < |index|
    requires Passed(index, j, t) && (j < |index| - 1 ==> !Nearer(index, j, t))
    ensures IsNearest(index, t, j)
  {
    forall i | 0 <= i < j ensures Distance(index[j].t, t) < Distance(index[i].t, t) {
      PassedIsFarther(index, i, j, t);
    }
    forall i | j < i < |index| ensures Distance(index[j].t, t) <= Distance(index[i].t, t) {
      NearerIsMidpoint(index[j].t, index[j + 1].t, t);
      assert index[j].t <= index[j + 1].t <= index[i].t <= index[|index| - 1].t;
      NearerIsMidpoint(index[j].t, index[i].t, t);
    }
  }

  lemma {:induction false} PointerPasses(candles: seq<Candle>, index: seq<IndexPoint>)
    requires IndexAscends(index) && CandlesAscend(candles) && index != [] && candles != []
    ensures var j, t := Pointer(candles, index), candles[|candles| - 1].t;
      Passed(index, j, t) && (j < |index| - 1 ==> !Nearer(index, j, t))
  {
    var front, t := candles[..|candles| - 1], candles[|candles| - 1].t;
    if front != [] {
      PointerPasses(front, index);
      PassedLater(index, Pointer(front, index), front[|front| - 1].t, t);
    }
    AdvancePasses(index, Pointer(front, index), t);
  }

  /** The pointer ends on the last candle's nearest Index point. */
  lemma PointerIsNearest(candles: seq<Candle>, index: seq<IndexPoint>)
    requires IndexAscends(index) && StrictBeforeLast(index) && CandlesAscend(candles) && index != [] && candles != []
    ensures Pointer(candles, index) == Nearest(index, candles[|candles| - 1].t)
  {
    hide Nearest, Pointer;
    var t := candles[|candles| - 1].t;
    PointerPasses(candles, index);
    StoppedIsNearest(index, Pointer(candles, index), t);
    NearestIsUnique(index, t, Pointer(candles, index), Nearest(index, t));
  }

  /** The linear walk is the brute-force join. */
  lemma {:induction false} WalkIsJoin(candles: seq<Candle>, index: seq<IndexPoint>)
    requires IndexAscends(index) && StrictBeforeLast(index) && CandlesAscend(candles) && index != []
    ensures Walked(candles, index) == Joined(candles, index)
  {
    if candles != [] {
      hide Pointer, Nearest;
      PointerIsNearest(candles, index);
      WalkIsJoin(candles[..|candles| - 1], index);
    }
  }

  // ------------------------------------------------------------ equal stamps

  /** Two equal neighbouring stamps hold the pointer for good. */
  lemma {:induction false} EqualStampsBlock(index: seq<IndexPoint>, j: nat, k: nat, t: int)
    requires j <= k < |index| - 1 && index[k].t == index[k + 1].t
    ensures Advance(index, j, t) <= k
    decreases k - j
  {
    if j < k { EqualStampsBlock(index, j + 1, k, t); }
  }

  lemma FirstCandle(candles: seq<Candle>, index: seq<IndexPoint>)
    requires |candles| == 1 && index != []
    ensures Pointer(candles, index) == Advance(index, 0, candles[0].t)
  {
    assert candles[..|candles| - 1] == [];
    assert Pointer(candles[..|candles| - 1], index) == 0;
  }

  /** Equal stamps before the last one: a candle at the last stamp is left with an earlier point. */
  lemma BlockedCandle(index: seq<IndexPoint>, candle: Candle)
    requires IndexAscends(index) && index != [] && !StrictBeforeLast(index) && candle.t == index[|index| - 1].t
    ensures Pointer([candle], index) != Nearest(index, candle.t)
  {
    var k :| 0 <= k < |index| - 1 && index[k].t == index[k + 1].t && index[k + 1].t != candle.t;
    EqualStampsBlock(index, 0, k, candle.t);
    FirstCandle([candle], index);
    hide Nearest, Pointer;
    var j := Pointer([candle], index);
    assert j <= k;
    assert index[j].t <= index[k].t < candle.t;
    assert Distance(index[|index| - 1].t, candle.t) == 0;
    assert j != Nearest(index, candle.t);
  }

  lemma OneCandleAscends(candle: Candle)
    ensures CandlesAscend([candle])
  {
  }

  /**
   Over ascending series, the walk pairs every candle of every candle list with
   its nearest Index point exactly when the stamps are strict up to a final run.
   */
  lemma NearestExactlyWhenStrict(index: seq<IndexPoint>)
    requires IndexAscends(index) && index != []
    ensures StrictBeforeLast(index) <==>
      (forall candles: seq<Candle> :: candles != [] && CandlesAscend(candles) ==>
        Pointer(candles, index) == Nearest(index, candles[|candles| - 1].t))
  {
    hide IndexAscends, CandlesAscend, Pointer, Nearest;
    if StrictBeforeLast(index) {
      forall candles: seq<Candle> | candles != [] && CandlesAscend(candles)
        ensures Pointer(candles, index) == Nearest(index, candles[|candles| - 1].t)
      {
        PointerIsNearest(candles, index);
      }
    } else {
      var candle := Candle(index[|index| - 1].t, 0.0);
      BlockedCandle(index, candle);
      OneCandleAscends(candle);
      assert [candle] != [] && [candle][|[candle]| - 1].t == candle.t;
    }
  }

  // ----------------------------------------------------------------- the code

  /** `moves` counts the pointer's steps over the whole call: the walk is linear in the Index. */
  method BuildBasisPoints(candles: seq<Candle>, index: seq<IndexPoint>) returns (pts: seq<BasisPoint>, ghost moves: nat)
    ensures index == [] ==> pts == []
    ensures index != [] ==> pts == Walked(candles, index)
    ensures (index != [] && IndexAscends(index) && StrictBeforeLast(index) && CandlesAscend(candles)
      ==> pts == Joined(candles, index))
    ensures moves <= |index|
  {
    pts, moves := [], 0;
    var j := 0;
    for c := 0 to |candles|
      invariant index == [] ==> j == 0 && pts == []
      invariant index != [] ==> j == Pointer(candles[..c], index) && pts == Walked(candles[..c], index)
      invariant moves == j <= |index|
    {
      ghost var start := j;
      assert candles[..c + 1][..c] == candles[..c];
      while j < |index| - 1 && Distance(index[j].t, candles[c].t) > Distance(index[j + 1].t, candles[c].t)
        invariant index == [] ==> j == 0
        invariant index != [] ==> start <= j < |index| && Advance(index, start, candles[c].t) == Advance(index, j, candles[c].t)
        invariant moves == j <= |index|
      {
        j, moves := j + 1, moves + 1;
      }
      if j >= |index| || Distance(index[j].t, candles[c].t) > TOLERANCE_MS { continue; }
      pts := pts + [BasisPoint(candles[c].t, Premium(candles[c].close, index[j].value))];
    }
    assert candles[..|candles|] == candles;
    if index != [] && IndexAscends(index) && StrictBeforeLast(index) && CandlesAscend(candles) {
      WalkIsJoin(candles, index);
    }
  }
}
