/**
 The confidence band (packages/pricing-engine/src/band.ts): three votes per
 provider, the weighted mean of the central third of all votes, and a
 half-width reaching the outer quartiles.
 */
module Band {
  import opened Wrappers
  import opened RealArithmetic
  import opened OrderStatistics
  import opened WeightedStatistics
  import opened Rounding

  datatype Vote = Vote(providerId: string, price: real, sigma: real, weight: real)
  datatype ConfidenceBand = ConfidenceBand(value: real, low: real, high: real)

  function VotePoints(v: Vote): seq<Weighted> {
    var s := Max(0.0, v.sigma);
    [Weighted(Times(v.price, 1.0 - s), v.weight), Weighted(v.price, v.weight), Weighted(Times(v.price, 1.0 + s), v.weight)]
  }

  function Points(votes: seq<Vote>): seq<Weighted> {
    if votes == [] then [] else Points(votes[..|votes| - 1]) + VotePoints(votes[|votes| - 1])
  }

  /** How much of the slot [cum, cum + weight] lies in the window [lo, hi]. */
  function Overlap(cum: real, weight: real, lo: real, hi: real): real {
    Max(0.0, Min(cum + weight, hi) - Max(cum, lo))
  }

  function WindowWeight(ps: seq<Weighted>, cum: real, lo: real, hi: real): real {
    if ps == [] then 0.0
    else Overlap(cum, ps[0].weight, lo, hi) + WindowWeight(ps[1..], cum + ps[0].weight, lo, hi)
  }

  function WindowSum(ps: seq<Weighted>, cum: real, lo: real, hi: real): real {
    if ps == [] then 0.0
    else Times(ps[0].value, Overlap(cum, ps[0].weight, lo, hi)) + WindowSum(ps[1..], cum + ps[0].weight, lo, hi)
  }

  /** The sorted vote points. */
  function Sorted(votes: seq<Vote>): seq<Weighted> { SortBy(Points(votes), ValueOf) }

  function HalfWidth(value: real, q25: real, q75: real): real {
    Max(Max(value - q25, q75 - value), 0.0)
  }

  function BandOf(votes: seq<Vote>): Option<ConfidenceBand> {
    var ps := Sorted(votes);
    var total := TotalWeight(ps);
    var lo, hi := total / 3.0, 2.0 * total / 3.0;
    if ps == [] || total <= 0.0 || WindowWeight(ps, 0.0, lo, hi) <= 0.0 then None
    else
      var value := WindowSum(ps, 0.0, lo, hi) / WindowWeight(ps, 0.0, lo, hi);
      var h := HalfWidth(value, FirstReaching(ps, 0.0, 0.25 * total), FirstReaching(ps, 0.0, 0.75 * total));
      Some(ConfidenceBand(Round4(value), Round4(value - h), Round4(value + h)))
  }

  // --------------------------------------------------------------- the loops

  method CentralThird(ps: seq<Weighted>, lo: real, hi: real) returns (weightedSum: real, windowWeight: real)
    ensures weightedSum == WindowSum(ps, 0.0, lo, hi)
    ensures windowWeight == WindowWeight(ps, 0.0, lo, hi)
  {
    hide Times;
    var cum := 0.0;
    weightedSum, windowWeight := 0.0, 0.0;
    for i := 0 to |ps|
      invariant weightedSum + WindowSum(ps[i..], cum, lo, hi) == WindowSum(ps, 0.0, lo, hi)
      invariant windowWeight + WindowWeight(ps[i..], cum, lo, hi) == WindowWeight(ps, 0.0, lo, hi)
    {
      assert ps[i..][0] == ps[i] && ps[i..][1..] == ps[i + 1..];
      var slotLo := cum;
      cum := cum + ps[i].weight;
      var overlap := Min(cum, hi) - Max(slotLo, lo);
      TimesUnit(ps[i].value);
      if overlap > 0.0 {
        weightedSum := weightedSum + Times(ps[i].value, overlap);
        windowWeight := windowWeight + overlap;
      }
    }
  }

  method CastVotes(votes: seq<Vote>) returns (points: seq<Weighted>)
    ensures points == Points(votes)
  {
    hide VotePoints;
    points := [];
    for i := 0 to |votes|
      invariant points == Points(votes[..i])
    {
      assert votes[..i + 1][..i] == votes[..i];
      points := points + VotePoints(votes[i]);
    }
    assert votes[..|votes|] == votes;
  }

  method ComputeBand(votes: seq<Vote>) returns (band: Option<ConfidenceBand>)
    ensures band == BandOf(votes)
  {
    hide Times, WindowSum, WindowWeight, FirstReaching, TotalWeight, Round4, SortBy, SortedBy, HalfWidth, Points;
    PointsNonEmpty(votes);
    if |votes| == 0 { return None; }
    var points := CastVotes(votes);
    SortBySorts(points, ValueOf);
    points := SortBy(points, ValueOf);
    var total := SumWeights(points);
    if total <= 0.0 { return None; }
    var windowLo, windowHi := total / 3.0, 2.0 * total / 3.0;
    var weightedSum, windowWeight := CentralThird(points, windowLo, windowHi);
    if windowWeight <= 0.0 { return None; }
    var value := weightedSum / windowWeight;
    var q25 := ScanTo(points, 0.25 * total);
    var q75 := ScanTo(points, 0.75 * total);
    var halfWidth := HalfWidth(value, q25, q75);
    band := Some(ConfidenceBand(Round4(value), Round4(value - halfWidth), Round4(value + halfWidth)));
  }

  lemma PointsNonEmpty(votes: seq<Vote>)
    ensures Points(votes) == [] <==> votes == []
    ensures Sorted(votes) == [] <==> votes == []
  {
    SortBySorts(Points(votes), ValueOf);
  }

  // ------------------------------------------------------------ the geometry

  function Clip(x: real, lo: real, hi: real): real { Min(Max(x, lo), hi) }

  /** The overlaps add up to the part of the window the slots cover. */
  lemma {:induction false} OverlapsTile(ps: seq<Weighted>, cum: real, lo: real, hi: real)
    requires NonNegative(ps) && lo <= hi
    ensures WindowWeight(ps, cum, lo, hi) == Clip(cum + TotalWeight(ps), lo, hi) - Clip(cum, lo, hi)
    ensures WindowWeight(ps, cum, lo, hi) >= 0.0
  {
    if ps != [] { OverlapsTile(ps[1..], cum + ps[0].weight, lo, hi); }
  }

  /** The central window holds exactly one third of the total vote weight. */
  lemma WindowIsOneThird(ps: seq<Weighted>)
    requires NonNegative(ps)
    ensures var total := TotalWeight(ps); WindowWeight(ps, 0.0, total / 3.0, 2.0 * total / 3.0) == total / 3.0
  {
    TotalNonNegative(ps);
    OverlapsTile(ps, 0.0, TotalWeight(ps) / 3.0, 2.0 * TotalWeight(ps) / 3.0);
  }

  /** Points at or above `b` average at least `b`. */
  lemma {:induction false} MeanAtLeast(ps: seq<Weighted>, cum: real, lo: real, hi: real, b: real)
    requires forall i :: 0 <= i < |ps| ==> ps[i].value >= b
    ensures WindowSum(ps, cum, lo, hi) >= Times(b, WindowWeight(ps, cum, lo, hi))
  {
    hide Times;
    if ps == [] {
      TimesUnit(b);
    } else {
      var o := Overlap(cum, ps[0].weight, lo, hi);
      MeanAtLeast(ps[1..], cum + ps[0].weight, lo, hi, b);
      TimesAdd(b, o, WindowWeight(ps[1..], cum + ps[0].weight, lo, hi));
      TimesOrder(o, b, ps[0].value);
    }
  }

  /** Slots that begin beyond the window contribute nothing. */
  lemma {:induction false} BeyondWindow(ps: seq<Weighted>, cum: real, lo: real, hi: real)
    requires NonNegative(ps) && lo <= hi <= cum
    ensures WindowWeight(ps, cum, lo, hi) == 0.0 && WindowSum(ps, cum, lo, hi) == 0.0
  {
    hide Times;
    if ps != [] {
      BeyondWindow(ps[1..], cum + ps[0].weight, lo, hi);
      TimesUnit(ps[0].value);
    }
  }

  /** When the points below `a` end before the window, the window's mean is at least `a`. */
  lemma {:induction false} LowMassHarmless(ps: seq<Weighted>, cum: real, lo: real, hi: real, a: real)
    requires NonNegative(ps) && SortedBy(ps, ValueOf) && cum + WeightBelow(ps, a) <= lo <= hi
    ensures WindowSum(ps, cum, lo, hi) >= Times(a, WindowWeight(ps, cum, lo, hi))
  {
    hide Times;
    if ps == [] {
      TimesUnit(a);
    } else {
      SortedTail(ps);
      if ps[0].value >= a {
        MeanAtLeast(ps, cum, lo, hi, a);
      } else {
        WeightBelowBounds(ps[1..], a);
        assert Overlap(cum, ps[0].weight, lo, hi) == 0.0;
        TimesUnit(ps[0].value);
        LowMassHarmless(ps[1..], cum + ps[0].weight, lo, hi, a);
      }
    }
  }

  /** When the points above `b` start after the window, the window's mean is at most `b`. */
  lemma {:induction false} HighMassHarmless(ps: seq<Weighted>, cum: real, lo: real, hi: real, b: real)
    requires NonNegative(ps) && SortedBy(ps, ValueOf) && lo <= hi <= cum + TotalWeight(ps) - WeightAbove(ps, b)
    ensures WindowSum(ps, cum, lo, hi) <= Times(b, WindowWeight(ps, cum, lo, hi))
  {
    hide Times;
    if ps == [] {
      TimesUnit(b);
    } else {
      SortedTail(ps);
      if ps[0].value > b {
        AllAbove(ps, b);
        BeyondWindow(ps, cum, lo, hi);
        TimesUnit(b);
      } else {
        var o := Overlap(cum, ps[0].weight, lo, hi);
        HighMassHarmless(ps[1..], cum + ps[0].weight, lo, hi, b);
        TimesAdd(b, o, WindowWeight(ps[1..], cum + ps[0].weight, lo, hi));
        TimesOrder(o, ps[0].value, b);
      }
    }
  }

  // ------------------------------------------------------------ main results

  ghost predicate NonNegativeVotes(votes: seq<Vote>) { forall i :: 0 <= i < |votes| ==> votes[i].weight >= 0.0 }

  function VoteWeight(votes: seq<Vote>): real {
    if votes == [] then 0.0 else VoteWeight(votes[..|votes| - 1]) + votes[|votes| - 1].weight
  }

  lemma {:induction false} PointsWeight(votes: seq<Vote>)
    requires NonNegativeVotes(votes)
    ensures NonNegative(Points(votes)) && TotalWeight(Points(votes)) == 3.0 * VoteWeight(votes)
  {
    hide Times;
    if votes != [] {
      var front, last := votes[..|votes| - 1], VotePoints(votes[|votes| - 1]);
      PointsWeight(front);
      TotalSplit(Points(front), last);
      TotalOfThree(last);
    }
  }

  lemma TotalOfThree(ps: seq<Weighted>)
    requires |ps| == 3
    ensures TotalWeight(ps) == ps[0].weight + ps[1].weight + ps[2].weight
  {
    var one, two, three := ps[1..], ps[1..][1..], ps[1..][1..][1..];
    assert TotalWeight(three) == 0.0;
    assert TotalWeight(two) == ps[2].weight + TotalWeight(three);
    assert TotalWeight(one) == ps[1].weight + TotalWeight(two);
    assert TotalWeight(ps) == ps[0].weight + TotalWeight(one);
  }

  /** The unrounded value: the mean of the central third. */
  function CentralMean(votes: seq<Vote>): real
    requires BandOf(votes).Some?
  {
    var ps := Sorted(votes);
    var total := TotalWeight(ps);
    WindowSum(ps, 0.0, total / 3.0, 2.0 * total / 3.0) / WindowWeight(ps, 0.0, total / 3.0, 2.0 * total / 3.0)
  }

  lemma SortedFacts(votes: seq<Vote>)
    requires NonNegativeVotes(votes)
    ensures var ps := Sorted(votes);
      NonNegative(ps) && SortedBy(ps, ValueOf) && TotalWeight(ps) == 3.0 * VoteWeight(votes) &&
      forall a :: WeightBelow(ps, a) == WeightBelow(Points(votes), a) && WeightAbove(ps, a) == WeightAbove(Points(votes), a)
  {
    hide TotalWeight, WeightBelow, WeightAbove, Points;
    PointsWeight(votes);
    SortKeepsWeights(Points(votes));
    SortBySorts(Points(votes), ValueOf);
  }

  /** A band exists exactly when the votes carry weight. */
  lemma BandExists(votes: seq<Vote>)
    requires NonNegativeVotes(votes)
    ensures BandOf(votes).Some? <==> VoteWeight(votes) > 0.0
  {
    hide TotalWeight, WindowWeight, WindowSum, FirstReaching, Round4, Sorted;
    SortedFacts(votes);
    TotalEmpty();
    WindowIsOneThird(Sorted(votes));
  }

  /** The value lies between the quartiles; the published band is symmetric around it, covers both and reaches the farther one. */
  lemma BandCoversQuartiles(votes: seq<Vote>)
    requires NonNegativeVotes(votes) && BandOf(votes).Some?
    ensures var ps := Sorted(votes); var total := TotalWeight(ps);
      ps != [] &&
      var q25, q75 := FirstReaching(ps, 0.0, 0.25 * total), FirstReaching(ps, 0.0, 0.75 * total);
      var band := BandOf(votes).value;
      q25 <= CentralMean(votes) <= q75 &&
      band.value == Round4(CentralMean(votes)) &&
      band.low <= Round4(q25) <= band.value <= Round4(q75) <= band.high &&
      (if CentralMean(votes) - q25 >= q75 - CentralMean(votes)
       then band.low == Round4(q25) && band.high == Round4(2.0 * CentralMean(votes) - q25)
       else band.high == Round4(q75) && band.low == Round4(2.0 * CentralMean(votes) - q75))
  {
    hide TotalWeight, WindowWeight, WindowSum, FirstReaching, Round4, Times, Sorted, WeightBelow, WeightAbove;
    var ps := Sorted(votes);
    var total := TotalWeight(ps);
    var lo, hi := total / 3.0, 2.0 * total / 3.0;
    SortedFacts(votes);
    WindowIsOneThird(ps);
    QuantileMass(ps, 0.0, 0.25 * total);
    QuantileMass(ps, 0.0, 0.75 * total);
    var q25, q75 := FirstReaching(ps, 0.0, 0.25 * total), FirstReaching(ps, 0.0, 0.75 * total);
    LowMassHarmless(ps, 0.0, lo, hi, q25);
    HighMassHarmless(ps, 0.0, lo, hi, q75);
    QuotientOrder(WindowSum(ps, 0.0, lo, hi), WindowWeight(ps, 0.0, lo, hi), q25);
    QuotientOrder(WindowSum(ps, 0.0, lo, hi), WindowWeight(ps, 0.0, lo, hi), q75);
    var value := CentralMean(votes);
    var h := HalfWidth(value, q25, q75);
    Round4Monotone(value - h, q25);
    Round4Monotone(q25, value);
    Round4Monotone(value, q75);
    Round4Monotone(q75, value + h);
  }

  /** Weight carried by a set of providers. */
  function WeightOf(votes: seq<Vote>, ids: set<string>): real {
    if votes == [] then 0.0
    else WeightOf(votes[..|votes| - 1], ids) + (if votes[|votes| - 1].providerId in ids then votes[|votes| - 1].weight else 0.0)
  }

  /** The vote's price, and the price sigma below and above it, lie in [a, b]; a negative sigma counts as none. */
  ghost predicate VoteInside(v: Vote, a: real, b: real) {
    a <= v.price <= b &&
    (v.sigma > 0.0 ==> a <= v.price - Times(v.price, v.sigma) <= b && a <= v.price + Times(v.price, v.sigma) <= b)
  }

  lemma PointsInside(v: Vote, a: real, b: real)
    requires VoteInside(v, a, b)
    ensures forall p :: p in VotePoints(v) ==> a <= p.value <= b
  {
    hide Times;
    TimesUnit(v.price);
    TimesSub(v.price, 1.0, v.sigma);
    TimesAdd(v.price, 1.0, v.sigma);
  }

  lemma ThreePoints(ps: seq<Weighted>, a: real, b: real, w: real)
    requires |ps| == 3 && ps[0].weight == w && ps[1].weight == w && ps[2].weight == w && w >= 0.0
    ensures WeightBelow(ps, a) <= 3.0 * w && WeightAbove(ps, b) <= 3.0 * w
    ensures (forall p :: p in ps ==> a <= p.value <= b) ==> WeightBelow(ps, a) == 0.0 == WeightAbove(ps, b)
  {
    var tail := ps[1..];
    assert tail[0] == ps[1] && tail[1..][0] == ps[2] && tail[1..][1..] == [];
    assert WeightBelow(tail[1..], a) == if ps[2].value < a then w else 0.0;
    assert WeightAbove(tail[1..], b) == if ps[2].value > b then w else 0.0;
    assert ps[0] in ps && ps[1] in ps && ps[2] in ps;
  }

  lemma VoteMass(v: Vote, a: real, b: real)
    requires v.weight >= 0.0
    ensures WeightBelow(VotePoints(v), a) <= 3.0 * v.weight && WeightAbove(VotePoints(v), b) <= 3.0 * v.weight
    ensures VoteInside(v, a, b) ==> WeightBelow(VotePoints(v), a) == 0.0 == WeightAbove(VotePoints(v), b)
  {
    if VoteInside(v, a, b) { PointsInside(v, a, b); }
    ThreePoints(VotePoints(v), a, b, v.weight);
  }

  /** Only the rogue providers can cast points outside the others' range. */
  lemma {:induction false} RogueMass(votes: seq<Vote>, rogue: set<string>, a: real, b: real)
    requires NonNegativeVotes(votes)
    requires forall v :: v in votes && v.providerId !in rogue ==> VoteInside(v, a, b)
    ensures WeightBelow(Points(votes), a) <= 3.0 * WeightOf(votes, rogue)
    ensures WeightAbove(Points(votes), b) <= 3.0 * WeightOf(votes, rogue)
  {
    EmptyMass(a);
    EmptyMass(b);
    hide WeightBelow, WeightAbove, VotePoints;
    if votes != [] {
      var front, last := votes[..|votes| - 1], votes[|votes| - 1];
      assert votes == front + [last];
      RogueMass(front, rogue, a, b);
      BelowSplit(Points(front), VotePoints(last), a);
      BelowSplit(Points(front), VotePoints(last), b);
      VoteMass(last, a, b);
    }
  }

  /**
   Providers holding under one third of the weight cannot move the value outside
   the range of everyone else's votes, before or after rounding.
   */
  lemma BandBreakdown(votes: seq<Vote>, rogue: set<string>, a: real, b: real)
    requires NonNegativeVotes(votes) && BandOf(votes).Some?
    requires 3.0 * WeightOf(votes, rogue) < VoteWeight(votes)
    requires forall v :: v in votes && v.providerId !in rogue ==> VoteInside(v, a, b)
    ensures a <= CentralMean(votes) <= b
    ensures Round4(a) <= BandOf(votes).value.value <= Round4(b)
  {
    hide TotalWeight, WindowWeight, WindowSum, FirstReaching, Round4, Times, Sorted, WeightBelow, WeightAbove;
    var ps := Sorted(votes);
    var total := TotalWeight(ps);
    var lo, hi := total / 3.0, 2.0 * total / 3.0;
    SortedFacts(votes);
    WindowIsOneThird(ps);
    RogueMass(votes, rogue, a, b);
    LowMassHarmless(ps, 0.0, lo, hi, a);
    HighMassHarmless(ps, 0.0, lo, hi, b);
    QuotientOrder(WindowSum(ps, 0.0, lo, hi), WindowWeight(ps, 0.0, lo, hi), a);
    QuotientOrder(WindowSum(ps, 0.0, lo, hi), WindowWeight(ps, 0.0, lo, hi), b);
    Round4Monotone(a, CentralMean(votes));
    Round4Monotone(CentralMean(votes), b);
  }

  // ---------------------------------------------------------- the three thirds

  function Dot(ps: seq<Weighted>): real {
    if ps == [] then 0.0 else Times(ps[0].value, ps[0].weight) + Dot(ps[1..])
  }

  function VoteDot(votes: seq<Vote>): real {
    if votes == [] then 0.0 else VoteDot(votes[..|votes| - 1]) + Times(votes[|votes| - 1].price, votes[|votes| - 1].weight)
  }

  lemma {:induction false} DotSplit(a: seq<Weighted>, b: seq<Weighted>)
    ensures Dot(a + b) == Dot(a) + Dot(b)
  {
    hide Times;
    if a == [] {
      assert a + b == b;
    } else {
      assert (a + b)[1..] == a[1..] + b;
      DotSplit(a[1..], b);
    }
  }

  lemma {:induction false} DotInsert(x: Weighted, s: seq<Weighted>)
    ensures Dot(Insert(x, s, ValueOf)) == Times(x.value, x.weight) + Dot(s)
  {
    hide Times;
    if s == [] || x.value <= s[0].value {
      assert ([x] + s)[1..] == s;
    } else {
      DotInsert(x, s[1..]);
      assert ([s[0]] + Insert(x, s[1..], ValueOf))[1..] == Insert(x, s[1..], ValueOf);
    }
  }

  lemma {:induction false} DotSort(s: seq<Weighted>)
    ensures Dot(SortBy(s, ValueOf)) == Dot(s)
  {
    hide Times;
    if s != [] {
      DotSort(s[1..]);
      DotInsert(s[0], SortBy(s[1..], ValueOf));
    }
  }

  /** The two outer points of a vote balance around its price. */
  lemma VoteBalances(v: Vote)
    ensures Dot(VotePoints(v)) == 3.0 * Times(v.price, v.weight)
  {
    hide Times;
    var s, ps := Max(0.0, v.sigma), VotePoints(v);
    DotOfThree(ps);
    TimesSub(v.price, 1.0, s);
    TimesAdd(v.price, 1.0, s);
    TimesUnit(v.price);
    TimesSub(v.weight, v.price, Times(v.price, s));
    TimesAdd(v.weight, v.price, Times(v.price, s));
  }

  lemma DotOfThree(ps: seq<Weighted>)
    requires |ps| == 3
    ensures Dot(ps) == Times(ps[0].value, ps[0].weight) + Times(ps[1].value, ps[1].weight) + Times(ps[2].value, ps[2].weight)
  {
    hide Times;
    var one, two, three := ps[1..], ps[1..][1..], ps[1..][1..][1..];
    assert Dot(three) == 0.0;
    assert Dot(two) == Times(ps[2].value, ps[2].weight) + Dot(three);
    assert Dot(one) == Times(ps[1].value, ps[1].weight) + Dot(two);
    assert Dot(ps) == Times(ps[0].value, ps[0].weight) + Dot(one);
  }

  lemma {:induction false} PointsBalance(votes: seq<Vote>)
    ensures Dot(Points(votes)) == 3.0 * VoteDot(votes)
  {
    hide Times, VotePoints;
    if votes != [] {
      PointsBalance(votes[..|votes| - 1]);
      DotSplit(Points(votes[..|votes| - 1]), VotePoints(votes[|votes| - 1]));
      VoteBalances(votes[|votes| - 1]);
    }
  }

  /** Neighbouring windows add up to the window over both. */
  lemma {:induction false} WindowsAdd(ps: seq<Weighted>, cum: real, lo: real, mid: real, hi: real)
    requires NonNegative(ps) && lo <= mid <= hi
    ensures WindowSum(ps, cum, lo, mid) + WindowSum(ps, cum, mid, hi) == WindowSum(ps, cum, lo, hi)
  {
    hide Times;
    if ps != [] {
      var w := ps[0].weight;
      WindowsAdd(ps[1..], cum + w, lo, mid, hi);
      TimesAdd(ps[0].value, Overlap(cum, w, lo, mid), Overlap(cum, w, mid, hi));
    }
  }

  /** The window over all the weight holds every point in full. */
  lemma {:induction false} WholeWindow(ps: seq<Weighted>, cum: real, lo: real, hi: real)
    requires NonNegative(ps) && lo <= cum && cum + TotalWeight(ps) <= hi
    ensures WindowSum(ps, cum, lo, hi) == Dot(ps)
  {
    hide Times;
    if ps != [] {
      TotalNonNegative(ps[1..]);
      WholeWindow(ps[1..], cum + ps[0].weight, lo, hi);
    }
  }

  /**
   The three thirds of the votes average to the weighted mean of the voted prices,
   and the value is the middle one: no less than the mean of the lowest third, no
   more than that of the highest.
   */
  lemma ThirdsAverageToMean(votes: seq<Vote>)
    requires NonNegativeVotes(votes) && BandOf(votes).Some?
    ensures var ps, weight := Sorted(votes), VoteWeight(votes);
      var low, high := WindowSum(ps, 0.0, 0.0, weight), WindowSum(ps, 0.0, 2.0 * weight, 3.0 * weight);
      low + Times(CentralMean(votes), weight) + high == 3.0 * VoteDot(votes) && low <= Times(CentralMean(votes), weight) <= high
  {
    hide TotalWeight, WindowWeight, WindowSum, FirstReaching, Round4, Times, Sorted, WeightBelow, WeightAbove, Points, Dot, VoteDot;
    var ps := Sorted(votes);
    SortedFacts(votes);
    BandExists(votes);
    WindowIsOneThird(ps);
    var total, third := TotalWeight(ps), TotalWeight(ps) / 3.0;
    var lo, hi := third, 2.0 * total / 3.0;
    WindowsAdd(ps, 0.0, 0.0, lo, hi);
    WindowsAdd(ps, 0.0, 0.0, hi, total);
    WholeWindow(ps, 0.0, 0.0, total);
    SortedDot(votes);
    PointsBalance(votes);
    Quotient(WindowSum(ps, 0.0, lo, hi), WindowWeight(ps, 0.0, lo, hi));
    PointsNonEmpty(votes);
    LowestThird(ps, third, lo, hi);
    HighestThird(ps, third, lo, hi, total);
  }

  lemma SortedDot(votes: seq<Vote>)
    ensures Dot(Sorted(votes)) == Dot(Points(votes))
  {
    DotSort(Points(votes));
  }

  lemma LowestThird(ps: seq<Weighted>, third: real, lo: real, hi: real)
    requires ps != [] && NonNegative(ps) && SortedBy(ps, ValueOf) && third == TotalWeight(ps) / 3.0 && lo == third && hi == 2.0 * third
    ensures WindowSum(ps, 0.0, 0.0, lo) <= WindowSum(ps, 0.0, lo, hi)
  {
    hide WindowSum, WindowWeight, FirstReaching, Times, WeightBelow, WeightAbove, TotalWeight;
    TotalNonNegative(ps);
    QuantileMass(ps, 0.0, lo);
    var a := FirstReaching(ps, 0.0, lo);
    LowMassHarmless(ps, 0.0, lo, hi, a);
    HighMassHarmless(ps, 0.0, 0.0, lo, a);
    OverlapsTile(ps, 0.0, lo, hi);
    OverlapsTile(ps, 0.0, 0.0, lo);
  }

  lemma HighestThird(ps: seq<Weighted>, third: real, lo: real, hi: real, total: real)
    requires ps != [] && NonNegative(ps) && SortedBy(ps, ValueOf) && third == TotalWeight(ps) / 3.0 && lo == third && hi == 2.0 * third && total == 3.0 * third
    ensures WindowSum(ps, 0.0, lo, hi) <= WindowSum(ps, 0.0, hi, total)
  {
    hide WindowSum, WindowWeight, FirstReaching, Times, WeightBelow, WeightAbove, TotalWeight;
    TotalNonNegative(ps);
    QuantileMass(ps, 0.0, hi);
    var a := FirstReaching(ps, 0.0, hi);
    LowMassHarmless(ps, 0.0, hi, total, a);
    HighMassHarmless(ps, 0.0, lo, hi, a);
    OverlapsTile(ps, 0.0, lo, hi);
    OverlapsTile(ps, 0.0, hi, total);
  }

  // ---------------------------------------------------------------- the width

  /** Each vote puts its own weight on the point sigma below its price, and on the one sigma above. */
  lemma VoteReaches(v: Vote, floor: real, lo: real, hi: real)
    requires v.weight >= 0.0 && v.price >= 0.0 && 0.0 <= floor <= 1.0 && v.sigma >= floor && lo <= v.price <= hi
    ensures forall x :: x > Times(hi, 1.0 - floor) ==> WeightBelow(VotePoints(v), x) >= v.weight
    ensures 0.0 <= lo ==> forall x :: x < Times(lo, 1.0 + floor) ==> WeightAbove(VotePoints(v), x) >= v.weight
  {
    hide Times;
    var ps := VotePoints(v);
    var tail := ps[1..];
    assert tail[0] == ps[1] && tail[1..][0] == ps[2] && tail[1..][1..] == [];
    TimesOrder(1.0 - floor, v.price, hi);
    TimesOrder(v.price, 1.0 - v.sigma, 1.0 - floor);
    TimesOrder(v.price, 1.0 + floor, 1.0 + v.sigma);
    TimesOrder(1.0 + floor, lo, v.price);
    forall x | x > Times(hi, 1.0 - floor) ensures WeightBelow(ps, x) >= v.weight {
      assert WeightBelow(tail, x) >= 0.0 by { WeightBelowBounds(tail, x); }
    }
    forall x | 0.0 <= lo && x < Times(lo, 1.0 + floor) ensures WeightAbove(ps, x) >= v.weight {
      assert WeightAbove(tail[1..], x) == v.weight;
    }
  }

  lemma {:induction false} VotesReach(votes: seq<Vote>, floor: real, lo: real, hi: real, x: real)
    requires 0.0 <= floor <= 1.0 && 0.0 <= lo
    requires forall v :: v in votes ==> v.weight >= 0.0 && v.sigma >= floor && lo <= v.price <= hi
    ensures x > Times(hi, 1.0 - floor) ==> WeightBelow(Points(votes), x) >= VoteWeight(votes)
    ensures x < Times(lo, 1.0 + floor) ==> WeightAbove(Points(votes), x) >= VoteWeight(votes)
  {
    EmptyMass(x);
    hide WeightBelow, WeightAbove, VotePoints, Times;
    if votes != [] {
      var front, last := votes[..|votes| - 1], votes[|votes| - 1];
      assert votes == front + [last];
      VotesReach(front, floor, lo, hi, x);
      BelowSplit(Points(front), VotePoints(last), x);
      VoteReaches(last, floor, lo, hi);
    }
  }

  /**
   A band is never narrower than the votes' own spread: when every vote spreads by
   at least `floor` and every price lies in [lo, hi], the band reaches down to
   hi * (1 - floor) and up to lo * (1 + floor).
   */
  lemma BandSpansFloor(votes: seq<Vote>, floor: real, lo: real, hi: real)
    requires BandOf(votes).Some? && 0.0 <= floor <= 1.0 && 0.0 <= lo
    requires forall v :: v in votes ==> v.weight >= 0.0 && v.sigma >= floor && lo <= v.price <= hi
    ensures BandOf(votes).value.low <= Round4(Times(hi, 1.0 - floor))
    ensures BandOf(votes).value.high >= Round4(Times(lo, 1.0 + floor))
  {
    hide BandOf, TotalWeight, FirstReaching, Round4, Times, Sorted, WeightBelow, WeightAbove, Points, VoteWeight;
    assert NonNegativeVotes(votes);
    BandCoversQuartiles(votes);
    BandExists(votes);
    SortedFacts(votes);
    var ps := Sorted(votes);
    var total := TotalWeight(ps);
    var q25, q75 := FirstReaching(ps, 0.0, 0.25 * total), FirstReaching(ps, 0.0, 0.75 * total);
    QuantileMass(ps, 0.0, 0.25 * total);
    QuantileMass(ps, 0.0, 0.75 * total);
    VotesReach(votes, floor, lo, hi, q25);
    VotesReach(votes, floor, lo, hi, q75);
    Round4Monotone(q25, Max(q25, Times(hi, 1.0 - floor)));
    Round4Monotone(Min(q75, Times(lo, 1.0 + floor)), q75);
  }

  // ---------------------------------------------------------------- one voter

  lemma SortedThree(a: Weighted, b: Weighted, c: Weighted)
    requires a.value <= b.value <= c.value
    ensures SortBy([a, b, c], ValueOf) == [a, b, c]
  {
    assert [a, b, c][1..] == [b, c] && [b, c][1..] == [c] && [c][1..] == [];
    assert SortBy([c], ValueOf) == [c];
    assert SortBy([b, c], ValueOf) == [b, c];
  }

  lemma ThreeScan(ps: seq<Weighted>, w: real)
    requires |ps| == 3 && w > 0.0 && forall i :: 0 <= i < 3 ==> ps[i].weight == w
    ensures TotalWeight(ps) == 3.0 * w
    ensures FirstReaching(ps, 0.0, 0.25 * (3.0 * w)) == ps[0].value && FirstReaching(ps, 0.0, 0.75 * (3.0 * w)) == ps[2].value
    ensures WindowSum(ps, 0.0, w, 2.0 * w) == Times(ps[1].value, w) && WindowWeight(ps, 0.0, w, 2.0 * w) == w
  {
    hide Times;
    TotalOfThree(ps);
    var one, two := ps[1..], ps[1..][1..];
    assert one[0] == ps[1] && two[0] == ps[2] && two[1..] == [];
    assert FirstReaching(two, 2.0 * w, 0.75 * (3.0 * w)) == ps[2].value;
    assert FirstReaching(one, w, 0.75 * (3.0 * w)) == ps[2].value;
    TimesUnit(ps[0].value);
    TimesUnit(ps[2].value);
    assert WindowSum(two, 2.0 * w, w, 2.0 * w) == 0.0 && WindowWeight(two, 2.0 * w, w, 2.0 * w) == 0.0;
    assert WindowSum(one, w, w, 2.0 * w) == Times(ps[1].value, w) && WindowWeight(one, w, w, 2.0 * w) == w;
  }

  /** A single voter's band is its price, and its price less and plus sigma of it. */
  lemma SoleVoteBand(v: Vote)
    requires v.weight > 0.0 && v.price >= 0.0 && v.sigma >= 0.0
    ensures BandOf([v]) == Some(ConfidenceBand(
      Round4(v.price), Round4(v.price - Times(v.price, v.sigma)), Round4(v.price + Times(v.price, v.sigma))))
  {
    hide Round4, Times;
    TimesUnit(v.price);
    TimesSub(v.price, 1.0, v.sigma);
    TimesAdd(v.price, 1.0, v.sigma);
    TimesOrder(v.price, 0.0, v.sigma);
    assert [v][..0] == [];
    var ps := VotePoints(v);
    assert Points([v]) == ps;
    SortedThree(ps[0], ps[1], ps[2]);
    assert Sorted([v]) == ps;
    ThreeScan(ps, v.weight);
    TimesCancel(Times(v.price, v.weight) / v.weight, v.price, v.weight) by { Quotient(Times(v.price, v.weight), v.weight); }
  }
}
