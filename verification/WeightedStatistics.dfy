/**
 Statistics of weighted values (packages/pricing-engine/src/median.ts,
 weightedMedian): cumulative weight along the sorted values, and the mass on
 either side of the value where it reaches a target.
 */
module WeightedStatistics {
  import opened Wrappers
  import opened RealArithmetic
  import opened OrderStatistics

  function TotalWeight(ps: seq<Weighted>): real {
    if ps == [] then 0.0 else ps[0].weight + TotalWeight(ps[1..])
  }

  /** The first value whose cumulative weight reaches `target`, or the last value. */
  function FirstReaching(ps: seq<Weighted>, cum: real, target: real): real
    requires ps != []
  {
    if |ps| == 1 || cum + ps[0].weight >= target then ps[0].value
    else FirstReaching(ps[1..], cum + ps[0].weight, target)
  }

  // --------------------------------------------------------------- the loops

  method SumWeights(ps: seq<Weighted>) returns (total: real)
    ensures total == TotalWeight(ps)
  {
    total := 0.0;
    for i := 0 to |ps|
      invariant total + TotalWeight(ps[i..]) == TotalWeight(ps)
    {
      assert ps[i..] == [ps[i]] + ps[i + 1..];
      total := total + ps[i].weight;
    }
  }

  /** The smallest value where the cumulative weight reaches half of the total. */
  function MedianOf(values: seq<Weighted>): Option<real> {
    var sorted := SortBy(values, ValueOf);
    var total := TotalWeight(sorted);
    if sorted == [] || total <= 0.0 then None else Some(FirstReaching(sorted, 0.0, total / 2.0))
  }

  method WeightedMedian(values: seq<Weighted>) returns (r: Option<real>)
    ensures r == MedianOf(values)
  {
    hide FirstReaching, TotalWeight, SortBy, SortedBy;
    SortBySorts(values, ValueOf);
    if |values| == 0 { return None; }
    var sorted := SortBy(values, ValueOf);
    var total := SumWeights(sorted);
    if total <= 0.0 { return None; }
    var value := ScanTo(sorted, total / 2.0);
    r := Some(value);
  }

  /** The scan shared by the weighted median and the band's quantiles. */
  method ScanTo(ps: seq<Weighted>, target: real) returns (q: real)
    requires ps != []
    ensures q == FirstReaching(ps, 0.0, target)
  {
    var cum := 0.0;
    for i := 0 to |ps|
      invariant i < |ps| ==> FirstReaching(ps[i..], cum, target) == FirstReaching(ps, 0.0, target)
      invariant i == |ps| ==> FirstReaching(ps, 0.0, target) == ps[|ps| - 1].value
    {
      assert ps[i..][0] == ps[i] && ps[i..][1..] == ps[i + 1..];
      cum := cum + ps[i].weight;
      if cum >= target { return ps[i].value; }
    }
    q := ps[|ps| - 1].value;
  }

  // -------------------------------------------------------------------- mass

  ghost predicate NonNegative(ps: seq<Weighted>) { forall i :: 0 <= i < |ps| ==> ps[i].weight >= 0.0 }

  lemma {:induction false} TotalNonNegative(ps: seq<Weighted>)
    requires NonNegative(ps)
    ensures TotalWeight(ps) >= 0.0
  {
    if ps != [] { TotalNonNegative(ps[1..]); }
  }

  lemma TotalEmpty()
    ensures TotalWeight([]) == 0.0
  {
  }

  lemma {:induction false} TotalSplit(a: seq<Weighted>, b: seq<Weighted>)
    ensures TotalWeight(a + b) == TotalWeight(a) + TotalWeight(b)
  {
    if a == [] {
      assert a + b == b;
    } else {
      assert (a + b)[1..] == a[1..] + b;
      TotalSplit(a[1..], b);
    }
  }

  lemma SortedTail(ps: seq<Weighted>)
    requires ps != [] && SortedBy(ps, ValueOf)
    ensures SortedBy(ps[1..], ValueOf)
    ensures forall i :: 0 <= i < |ps| ==> ps[0].value <= ps[i].value
  {
    forall i | 0 < i < |ps| ensures ps[0].value <= ps[i].value {
      assert ValueOf(ps[0]) <= ValueOf(ps[i]);
    }
  }

  function WeightBelow(ps: seq<Weighted>, a: real): real {
    if ps == [] then 0.0 else (if ps[0].value < a then ps[0].weight else 0.0) + WeightBelow(ps[1..], a)
  }

  function WeightAbove(ps: seq<Weighted>, b: real): real {
    if ps == [] then 0.0 else (if ps[0].value > b then ps[0].weight else 0.0) + WeightAbove(ps[1..], b)
  }

  lemma {:induction false} WeightBelowBounds(ps: seq<Weighted>, a: real)
    requires NonNegative(ps)
    ensures 0.0 <= WeightBelow(ps, a)
  {
    if ps != [] { WeightBelowBounds(ps[1..], a); }
  }

  lemma {:induction false} AllAbove(ps: seq<Weighted>, b: real)
    requires forall i :: 0 <= i < |ps| ==> ps[i].value > b
    ensures WeightAbove(ps, b) == TotalWeight(ps)
  {
    if ps != [] { AllAbove(ps[1..], b); }
  }

  lemma {:induction false} BelowSplit(x: seq<Weighted>, y: seq<Weighted>, a: real)
    ensures WeightBelow(x + y, a) == WeightBelow(x, a) + WeightBelow(y, a)
    ensures WeightAbove(x + y, a) == WeightAbove(x, a) + WeightAbove(y, a)
  {
    if x == [] {
      assert x + y == y;
    } else {
      assert (x + y)[1..] == x[1..] + y;
      BelowSplit(x[1..], y, a);
    }
  }

  lemma EmptyMass(a: real)
    ensures WeightBelow([], a) == 0.0 == WeightAbove([], a)
  {
  }

  // --------------------------------------------------- sorting and quantiles

  lemma {:induction false} SortKeepsWeights(s: seq<Weighted>)
    requires NonNegative(s)
    ensures var t := SortBy(s, ValueOf);
      NonNegative(t) && TotalWeight(t) == TotalWeight(s) &&
      forall a :: WeightBelow(t, a) == WeightBelow(s, a) && WeightAbove(t, a) == WeightAbove(s, a)
  {
    if s != [] {
      SortKeepsWeights(s[1..]);
      InsertKeepsWeights(s[0], SortBy(s[1..], ValueOf));
    }
  }

  lemma {:induction false} InsertKeepsWeights(x: Weighted, s: seq<Weighted>)
    requires x.weight >= 0.0 && NonNegative(s)
    ensures var t := Insert(x, s, ValueOf);
      NonNegative(t) && TotalWeight(t) == TotalWeight(s) + x.weight &&
      forall a ::
        WeightBelow(t, a) == WeightBelow(s, a) + (if x.value < a then x.weight else 0.0) &&
        WeightAbove(t, a) == WeightAbove(s, a) + (if x.value > a then x.weight else 0.0)
  {
    var t := Insert(x, s, ValueOf);
    if s == [] || x.value <= s[0].value {
      assert t == [x] + s && t[1..] == s;
    } else {
      InsertKeepsWeights(x, s[1..]);
      assert t == [s[0]] + Insert(x, s[1..], ValueOf) && t[1..] == Insert(x, s[1..], ValueOf);
    }
  }

  /** Less than `target` lies strictly below the quantile; at least `target` lies at or below it. */
  lemma {:induction false} QuantileMass(ps: seq<Weighted>, cum: real, target: real)
    requires ps != [] && NonNegative(ps) && SortedBy(ps, ValueOf) && cum <= target <= cum + TotalWeight(ps)
    ensures var q := FirstReaching(ps, cum, target);
      q >= ps[0].value && cum + WeightBelow(ps, q) <= target <= cum + TotalWeight(ps) - WeightAbove(ps, q) &&
      (cum < target ==> cum + WeightBelow(ps, q) < target)
  {
    SortedTail(ps);
    var q := FirstReaching(ps, cum, target);
    if |ps| == 1 || cum + ps[0].weight >= target {
      NothingBelow(ps, q);
      WeightAboveBounds(ps[1..], q);
    } else {
      QuantileMass(ps[1..], cum + ps[0].weight, target);
    }
  }

  lemma {:induction false} NothingBelow(ps: seq<Weighted>, a: real)
    requires forall i :: 0 <= i < |ps| ==> ps[i].value >= a
    ensures WeightBelow(ps, a) == 0.0
  {
    if ps != [] { NothingBelow(ps[1..], a); }
  }

  lemma {:induction false} WeightAboveBounds(ps: seq<Weighted>, b: real)
    requires NonNegative(ps)
    ensures WeightAbove(ps, b) <= TotalWeight(ps)
  {
    if ps != [] { WeightAboveBounds(ps[1..], b); }
  }

  // ------------------------------------------- the weighted median, unweighted

  /** A value and how many times it is counted. */
  datatype Repeated = Repeated(value: real, times: nat)

  function AsWeighted(rs: seq<Repeated>): (r: seq<Weighted>)
    ensures |r| == |rs|
  {
    seq(|rs|, i requires 0 <= i < |rs| => Weighted(rs[i].value, rs[i].times as real))
  }

  function Copies(x: real, n: nat): seq<real> { if n == 0 then [] else [x] + Copies(x, n - 1) }

  /** Each value written out as many times as it weighs. */
  function Expand(rs: seq<Repeated>): seq<real> {
    if rs == [] then [] else Copies(rs[0].value, rs[0].times) + Expand(rs[1..])
  }

  /** The middle element, or the lower of the two middle elements. */
  function LowerMedian(s: seq<real>): Option<real> {
    if s == [] then None
    else
      SortBySorts(s, Identity);
      Some(SortBy(s, Identity)[(|s| - 1) / 2])
  }

  lemma {:induction false} CopiesCount(x: real, n: nat, r: Region)
    ensures Count(Copies(x, n), r) == if In(x, r) then n else 0
    ensures |Copies(x, n)| == n
  {
    if n != 0 {
      CopiesCount(x, n - 1, r);
      assert Copies(x, n)[1..] == Copies(x, n - 1);
    }
  }

  /** Counting copies is weighing values. */
  lemma {:induction false} ExpandCounts(rs: seq<Repeated>, a: real)
    ensures Count(Expand(rs), Below(a)) as real == WeightBelow(AsWeighted(rs), a)
    ensures Count(Expand(rs), Above(a)) as real == WeightAbove(AsWeighted(rs), a)
    ensures |Expand(rs)| as real == TotalWeight(AsWeighted(rs))
  {
    if rs != [] {
      ExpandCounts(rs[1..], a);
      assert AsWeighted(rs)[1..] == AsWeighted(rs[1..]);
      var head := Copies(rs[0].value, rs[0].times);
      CopiesCount(rs[0].value, rs[0].times, Below(a));
      CopiesCount(rs[0].value, rs[0].times, Above(a));
      CountConcat(head, Expand(rs[1..]), Below(a));
      CountConcat(head, Expand(rs[1..]), Above(a));
    }
  }

  lemma WholeWeights(rs: seq<Repeated>)
    ensures NonNegative(AsWeighted(rs))
  {
  }

  /** The weighted median is the lower median of the list with each value repeated weight times. */
  lemma WeightedMedianIsLowerMedian(rs: seq<Repeated>)
    ensures MedianOf(AsWeighted(rs)) == LowerMedian(Expand(rs))
  {
    hide SortBy, SortedBy, TotalWeight, FirstReaching, WeightBelow, WeightAbove, Count, Expand;
    var ws := AsWeighted(rs);
    var sorted, all := SortBy(ws, ValueOf), Expand(rs);
    WholeWeights(rs);
    SortBySorts(ws, ValueOf);
    SortKeepsWeights(ws);
    TotalNonNegative(sorted);
    TotalEmpty();
    ExpandCounts(rs, 0.0);
    if all != [] {
      var total := TotalWeight(sorted);
      QuantileMass(sorted, 0.0, total / 2.0);
      var v := FirstReaching(sorted, 0.0, total / 2.0);
      ExpandCounts(rs, v);
      RankDetermines(all, (|all| - 1) / 2, v);
    }
  }
}
