/**
 Order statistics (packages/pricing-engine/src/median.ts) over the reals.

 `SortBy` is the stable ascending sort every caller relies on. The statistics
 are defined on the sorted sequence, as the source does, and characterised by
 counting: how many inputs lie on either side of the result.
 */
module OrderStatistics {
  import opened Wrappers

  datatype Weighted = Weighted(value: real, weight: real)

  function Identity(x: real): real { x }

  function ValueOf(p: Weighted): real { p.value }

  function Abs(x: real): real { if x < 0.0 then -x else x }

  // ---------------------------------------------------------------- sorting

  ghost predicate SortedBy<T>(s: seq<T>, key: T -> real) {
    forall i, j :: 0 <= i < j < |s| ==> key(s[i]) <= key(s[j])
  }

  function Insert<T>(x: T, s: seq<T>, key: T -> real): seq<T> {
    if s == [] || key(x) <= key(s[0]) then [x] + s else [s[0]] + Insert(x, s[1..], key)
  }

  function SortBy<T>(s: seq<T>, key: T -> real): seq<T> {
    if s == [] then [] else Insert(s[0], SortBy(s[1..], key), key)
  }

  lemma {:induction false} InsertPermutes<T>(x: T, s: seq<T>, key: T -> real)
    ensures multiset(Insert(x, s, key)) == multiset(s) + multiset{x}
    ensures |Insert(x, s, key)| == |s| + 1
  {
    if s != [] && key(x) > key(s[0]) {
      InsertPermutes(x, s[1..], key);
      assert s == [s[0]] + s[1..];
    }
  }

  lemma {:induction false} InsertSorted<T>(x: T, s: seq<T>, key: T -> real)
    requires SortedBy(s, key)
    ensures SortedBy(Insert(x, s, key), key)
    ensures s != [] ==> key(Insert(x, s, key)[0]) == key(s[0]) || key(Insert(x, s, key)[0]) == key(x)
  {
    if s != [] && key(x) > key(s[0]) {
      var t := Insert(x, s[1..], key);
      InsertSorted(x, s[1..], key);
      PrependSorted(s[0], t, key);
    }
  }

  lemma PrependSorted<T>(x: T, t: seq<T>, key: T -> real)
    requires SortedBy(t, key)
    requires t != [] ==> key(x) <= key(t[0])
    ensures SortedBy([x] + t, key)
  {
    forall j | 0 <= j < |t| ensures key(x) <= key(t[j]) {
      assert key(t[0]) <= key(t[j]);
    }
  }

  /** Sorting permutes its input and orders it. */
  lemma {:induction false} SortBySorts<T>(s: seq<T>, key: T -> real)
    ensures SortedBy(SortBy(s, key), key)
    ensures multiset(SortBy(s, key)) == multiset(s)
    ensures |SortBy(s, key)| == |s|
  {
    if s != [] {
      var t := SortBy(s[1..], key);
      SortBySorts(s[1..], key);
      InsertSorted(s[0], t, key);
      InsertPermutes(s[0], t, key);
      hide Insert, SortedBy;
      assert s == [s[0]] + s[1..];
    }
  }

  // --------------------------------------------------------------- counting

  /** The parts of the line the proofs count in. */
  datatype Region = Below(x: real) | Above(x: real) | AtMost(x: real) | Inside(lo: real, hi: real) | Near(center: real, r: real)

  predicate In(v: real, region: Region) {
    match region
    case Below(x) => v < x
    case Above(x) => v > x
    case AtMost(x) => v <= x
    case Inside(lo, hi) => lo <= v <= hi
    case Near(center, r) => Abs(v - center) <= r
  }

  function Count(s: seq<real>, region: Region): nat {
    if s == [] then 0 else (if In(s[0], region) then 1 else 0) + Count(s[1..], region)
  }

  lemma {:induction false} CountBound(s: seq<real>, r: Region)
    ensures Count(s, r) <= |s|
  {
    if s != [] { CountBound(s[1..], r); }
  }

  lemma {:induction false} CountConcat(a: seq<real>, b: seq<real>, r: Region)
    ensures Count(a + b, r) == Count(a, r) + Count(b, r)
  {
    if a == [] {
      assert a + b == b;
    } else {
      assert (a + b)[1..] == a[1..] + b;
      CountConcat(a[1..], b, r);
    }
  }

  lemma {:induction false} CountInsert(x: real, s: seq<real>, r: Region)
    ensures Count(Insert(x, s, Identity), r) == Count(s, r) + (if In(x, r) then 1 else 0)
  {
    if s == [] || x <= s[0] {
      assert ([x] + s)[1..] == s;
    } else {
      CountInsert(x, s[1..], r);
      assert ([s[0]] + Insert(x, s[1..], Identity))[1..] == Insert(x, s[1..], Identity);
    }
  }

  lemma {:induction false} CountSort(s: seq<real>, r: Region)
    ensures Count(SortBy(s, Identity), r) == Count(s, r)
  {
    if s != [] {
      CountSort(s[1..], r);
      CountInsert(s[0], SortBy(s[1..], Identity), r);
    }
  }

  /** A region that holds every element another holds counts at least as many. */
  lemma {:induction false} CountImplied(s: seq<real>, p: Region, q: Region)
    requires forall x :: In(x, p) ==> In(x, q)
    ensures Count(s, p) <= Count(s, q)
  {
    if s != [] { CountImplied(s[1..], p, q); }
  }

  /** Complementary regions account for every element. */
  lemma {:induction false} CountSplit(s: seq<real>, x: real)
    ensures Count(s, AtMost(x)) + Count(s, Above(x)) == |s|
  {
    if s != [] { CountSplit(s[1..], x); }
  }

  lemma {:induction false} CountNone(s: seq<real>, r: Region)
    requires forall x :: x in s ==> !In(x, r)
    ensures Count(s, r) == 0
  {
    if s != [] {
      assert s[0] in s;
      forall x | x in s[1..] ensures !In(x, r) { assert x in s; }
      CountNone(s[1..], r);
    }
  }

  /** In sorted order at most `k` elements lie below the one at index `k`, and at most the rest above it. */
  lemma SortedRank(s: seq<real>, k: nat)
    requires k < |s| && SortedBy(s, Identity)
    ensures Count(s, Below(s[k])) <= k
    ensures Count(s, Above(s[k])) <= |s| - 1 - k
  {
    var below, above := Below(s[k]), Above(s[k]);
    assert s == s[..k] + s[k..] && s == s[..k + 1] + s[k + 1..];
    CountConcat(s[..k], s[k..], below);
    CountConcat(s[..k + 1], s[k + 1..], above);
    CountBound(s[..k], below);
    CountBound(s[k + 1..], above);
    hide Count;
    forall i | 0 <= i < |s| ensures (i >= k ==> s[k] <= s[i]) && (i <= k ==> s[i] <= s[k]) {
      assert forall a, b :: 0 <= a < b < |s| ==> Identity(s[a]) <= Identity(s[b]);
    }
    CountNone(s[k..], below);
    CountNone(s[..k + 1], above);
  }

  /** Rank pins the value: at most k elements below v and more than k at most v. */
  lemma RankDetermines(s: seq<real>, k: nat, v: real)
    requires k < |s| && Count(s, Below(v)) <= k && Count(s, Above(v)) <= |s| - 1 - k
    ensures |SortBy(s, Identity)| == |s| && SortBy(s, Identity)[k] == v
  {
    hide Count, SortBy;
    var sorted := SortBy(s, Identity);
    SortBySorts(s, Identity);
    CountSort(s, Below(v));
    CountSort(s, Above(v));
    if sorted[k] < v { PrefixBelow(sorted, k, v); }
    if sorted[k] > v { SuffixAbove(sorted, k, v); }
  }

  lemma PrefixBelow(s: seq<real>, k: nat, v: real)
    requires k < |s| && SortedBy(s, Identity) && s[k] < v
    ensures Count(s, Below(v)) >= k + 1
  {
    assert s == s[..k + 1] + s[k + 1..];
    CountConcat(s[..k + 1], s[k + 1..], Below(v));
    forall i | 0 <= i <= k ensures s[i] < v { assert i == k || Identity(s[i]) <= Identity(s[k]); }
    CountEvery(s[..k + 1], Below(v));
  }

  lemma SuffixAbove(s: seq<real>, k: nat, v: real)
    requires k < |s| && SortedBy(s, Identity) && s[k] > v
    ensures Count(s, Above(v)) >= |s| - k
  {
    assert s == s[..k] + s[k..];
    CountConcat(s[..k], s[k..], Above(v));
    forall i | k <= i < |s| ensures s[i] > v { assert i == k || Identity(s[k]) <= Identity(s[i]); }
    CountEvery(s[k..], Above(v));
  }

  lemma {:induction false} CountEvery(s: seq<real>, r: Region)
    requires forall i :: 0 <= i < |s| ==> In(s[i], r)
    ensures Count(s, r) == |s|
  {
    if s != [] { CountEvery(s[1..], r); }
  }

  // ----------------------------------------------------------------- median

  /** Arithmetic median; absent for an empty list. */
  function Median(values: seq<real>): Option<real> {
    if values == [] then None
    else
      SortBySorts(values, Identity);
      var sorted := SortBy(values, Identity);
      var mid := |sorted| / 2;
      Some(if |sorted| % 2 == 1 then sorted[mid] else (sorted[mid - 1] + sorted[mid]) / 2.0)
  }

  /** Absolute deviations from a centre. */
  function Deviations(values: seq<real>, center: real): seq<real> {
    seq(|values|, i requires 0 <= i < |values| => Abs(values[i] - center))
  }

  /** Median absolute deviation from a given centre. */
  function Mad(values: seq<real>, center: real): Option<real> {
    Median(Deviations(values, center))
  }

  lemma Midpoint(a: real, b: real)
    requires a <= b
    ensures a <= (a + b) / 2.0 <= b
  {
  }

  /** The median lies between the two middle elements of the sorted list. */
  lemma MedianBetween(values: seq<real>, s: seq<real>, m: real, lo: nat, hi: nat)
    requires s == SortBy(values, Identity) && Median(values) == Some(m)
    requires hi == |values| / 2 && lo == (if |values| % 2 == 1 then hi else hi - 1)
    ensures SortedBy(s, Identity) && |s| == |values| && lo <= hi < |s|
    ensures s[lo] <= m <= s[hi]
  {
    SortBySorts(values, Identity);
    hide SortBy;
    assert Identity(s[lo]) <= Identity(s[hi]);
    Midpoint(s[lo], s[hi]);
  }

  lemma MedianExists(values: seq<real>)
    ensures Median(values).Some? <==> values != []
  {
  }

  /** The median splits its input: at most half lies strictly on either side. */
  lemma MedianRank(values: seq<real>, m: real)
    requires Median(values) == Some(m)
    ensures 2 * Count(values, Below(m)) <= |values|
    ensures 2 * Count(values, Above(m)) <= |values|
  {
    var s := SortBy(values, Identity);
    var hi := |values| / 2;
    var lo := if |values| % 2 == 1 then hi else hi - 1;
    MedianExists(values);
    MedianBetween(values, s, m, lo, hi);
    hide Count, SortBy, Median;
    CountSort(values, Below(m));
    CountSort(values, Above(m));
    SortedRank(s, hi);
    SortedRank(s, lo);
    CountImplied(s, Below(m), Below(s[hi]));
    CountImplied(s, Above(m), Above(s[lo]));
  }

  /**
   The median is the midpoint of the two middle values, which coincide in a list of
   odd length: whatever has the rank of the lower and of the upper one, by counting.
   */
  lemma MedianIsMidpoint(values: seq<real>, a: real, b: real)
    requires values != []
    requires 2 * Count(values, Below(a)) < |values| && 2 * Count(values, Above(a)) <= |values|
    requires 2 * Count(values, Below(b)) <= |values| && 2 * Count(values, Above(b)) < |values|
    ensures Median(values) == Some((a + b) / 2.0)
  {
    hide Count, SortBy;
    RankDetermines(values, (|values| - 1) / 2, a);
    RankDetermines(values, |values| / 2, b);
  }

  /** And such values exist in every list. */
  lemma MiddleValues(values: seq<real>) returns (a: real, b: real)
    requires values != []
    ensures a in values && 2 * Count(values, Below(a)) < |values| && 2 * Count(values, Above(a)) <= |values|
    ensures b in values && 2 * Count(values, Below(b)) <= |values| && 2 * Count(values, Above(b)) < |values|
  {
    hide Count, SortBy;
    SortBySorts(values, Identity);
    var s := SortBy(values, Identity);
    a, b := s[(|s| - 1) / 2], s[|s| / 2];
    SortedRank(s, (|s| - 1) / 2);
    SortedRank(s, |s| / 2);
    CountSort(values, Below(a));
    CountSort(values, Above(a));
    CountSort(values, Below(b));
    CountSort(values, Above(b));
    assert a in multiset(s) && b in multiset(s);
  }

  /** Breakdown: when more than half of the values lie in `[lo, hi]`, so does the median. */
  lemma MedianBreakdown(values: seq<real>, lo: real, hi: real)
    requires 2 * Count(values, Inside(lo, hi)) > |values|
    ensures Median(values).Some? && lo <= Median(values).value <= hi
  {
    CountBound(values, Inside(lo, hi));
    MedianExists(values);
    hide Count, SortBy, Median;
    var m := Median(values).value;
    MedianRank(values, m);
    if m < lo { CountImplied(values, Inside(lo, hi), Above(m)); }
    if m > hi { CountImplied(values, Inside(lo, hi), Below(m)); }
  }

  /** Counting deviations is counting the values themselves. */
  lemma {:induction false} CountDeviations(values: seq<real>, center: real, p: Region, q: Region)
    requires forall v :: In(v, q) <==> In(Abs(v - center), p)
    ensures Count(Deviations(values, center), p) == Count(values, q)
  {
    if values != [] {
      CountDeviations(values[1..], center, p, q);
      assert Deviations(values, center)[1..] == Deviations(values[1..], center);
    }
  }

  lemma DeviationsCount(values: seq<real>, center: real, m: real)
    ensures Count(Deviations(values, center), AtMost(m)) == Count(values, Near(center, m))
    ensures Count(Deviations(values, center), Inside(0.0, m)) == Count(values, Near(center, m))
    ensures |Deviations(values, center)| == |values|
  {
    CountDeviations(values, center, AtMost(m), Near(center, m));
    CountDeviations(values, center, Inside(0.0, m), Near(center, m));
  }

  /** Breakdown of the MAD: a majority inside an interval bounds the spread by its width. */
  lemma MadBreakdown(values: seq<real>, center: real, lo: real, hi: real)
    requires 2 * Count(values, Inside(lo, hi)) > |values|
    requires lo <= center <= hi
    ensures Mad(values, center).Some? && 0.0 <= Mad(values, center).value <= hi - lo
  {
    hide Count, Deviations, Median;
    DeviationsCount(values, center, hi - lo);
    CountImplied(values, Inside(lo, hi), Near(center, hi - lo));
    MedianBreakdown(Deviations(values, center), 0.0, hi - lo);
  }

  /** At least half of the values lie within one MAD of the centre. */
  lemma MadCoversHalf(values: seq<real>, center: real, m: real)
    requires Mad(values, center) == Some(m)
    ensures 2 * Count(values, Near(center, m)) >= |values|
  {
    hide Count, Deviations, Median;
    var ds := Deviations(values, center);
    MedianRank(ds, m);
    CountSplit(ds, m);
    DeviationsCount(values, center, m);
  }
}
