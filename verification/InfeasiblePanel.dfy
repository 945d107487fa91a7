/**
 Panels of fewer than 1/cap providers, on which the cap cannot be met
 (packages/pricing-engine/src/weights.ts:35-46). The loop then drives the weights
 towards zero, and the guard decides whether the result is handed out.
 */
module InfeasiblePanel {
  import opened RealArithmetic
  import opened Weights
  import opened WaterFilling

  /** Below 1/cap providers no total satisfies the cap. */
  lemma InfeasibleUnsolvable(base: seq<real>, cap: real, total: real)
    requires 0.0 < cap < 1.0 && Times(|base| as real, cap) < 1.0
    ensures !Solves(base, cap, total)
  {
    hide Times, WaterSum;
    if Solves(base, cap, total) {
      WaterSumBound(base, Times(cap, total));
      TimesAssociates(|base| as real, cap, total);
      TimesStrict(total, Times(|base| as real, cap), 1.0);
      TimesUnit(total);
    }
  }

  /**
   The loop can still leave by its cap test, but only through the test's slack:
   the total has then collapsed to the order of the slack itself.
   */
  lemma InfeasibleExitCollapses(base: seq<real>, cap: real, eps: real, passes: nat, w: seq<real>, total: real)
    requires 0.0 < cap < 1.0 && eps >= 0.0 && Positive(base) && Exits(base, cap, eps, passes, w, total)
    requires Times(|base| as real, cap) < 1.0
    ensures Top(w) > Times(cap, total) && eps > 0.0
    ensures total - Times(Times(|base| as real, cap), total) <= Times(|base| as real, Slack(total, eps))
    ensures Times(|base| as real, eps) < 1.0 - Times(|base| as real, cap) ==>
      total < 1.0 && total <= Times(|base| as real, eps) / (1.0 - Times(|base| as real, cap))
  {
    hide Times, WaterSum, Sum, MaxIndex, CapLoop;
    var n := |base| as real;
    if Top(w) <= Times(cap, total) {
      ExactExitSolves(base, cap, eps, passes, w, total);
      InfeasibleUnsolvable(base, cap, total);
    }
    ExitIsWaterFilling(base, cap, eps, passes, w, total);
    SlackNonNegative(total, eps);
    SumBelow(base, w, Times(cap, total), Slack(total, eps));
    WaterSumBound(base, Times(cap, total));
    TimesAssociates(n, cap, total);
    TimesUnit(n);
    if Times(n, eps) < 1.0 - Times(n, cap) { CollapsedTotal(n, cap, eps, total); }
    TimesUnit(Max(1.0, total));
    if eps == 0.0 { NoSlackNoExit(Times(n, cap), total); }
  }

  lemma NoSlackNoExit(share: real, total: real)
    requires total > 0.0 && share < 1.0
    ensures total - Times(share, total) > 0.0
  {
    TimesStrict(total, share, 1.0);
    TimesUnit(total);
  }

  lemma CollapsedTotal(n: real, cap: real, eps: real, total: real)
    requires total > 0.0 && Times(n, eps) < 1.0 - Times(n, cap) && Times(n, cap) < 1.0
    requires total - Times(Times(n, cap), total) <= Times(n, Slack(total, eps))
    ensures total < 1.0 && total <= Times(n, eps) / (1.0 - Times(n, cap))
  {
    hide Times;
    TimesSub(total, 1.0, Times(n, cap));
    TimesUnit(total);
    TimesUnit(eps);
    TimesAssociates(n, eps, total);
    TimesAssociates(total, 1.0 - Times(n, cap), 0.0);
    if total >= 1.0 { TimesStrict(total, Times(n, eps), 1.0 - Times(n, cap)); }
    QuotientOrder(Times(n, eps), 1.0 - Times(n, cap), total);
  }

  // ------------------------------------------------------------- two providers

  /** Two weights, the one at `m` holding `v` and the other exactly `cap` of the total. */
  function PairOf(v: real, m: nat, cap: real): seq<real>
    requires cap < 1.0
  {
    if m == 0 then [v, Share(v, cap)] else [Share(v, cap), v]
  }

  lemma TwoWeights(w: seq<real>)
    requires |w| == 2
    ensures Sum(w) == w[0] + w[1] && MaxIndex(w) == if w[0] >= w[1] then 0 else 1
  {
    assert w[1..] == [w[1]] && w[1..][1..] == [];
    assert Sum(w[1..]) == w[1] + Sum(w[1..][1..]);
    assert MaxIndex(w[1..]) == 0;
  }

  lemma ShareOfPair(v: real, cap: real)
    requires 0.0 < cap < 0.5 && v > 0.0
    ensures 0.0 < Share(v, cap) < v && Times(1.0 - cap, v + Share(v, cap)) == v
  {
    hide Times, Share;
    var total := v + Share(v, cap);
    ShareIsCapOfTotal(v, cap, total);
    TimesUnit(cap);
    TimesUnit(total);
    TimesSub(total, 1.0, cap);
    GapOrder(cap, total, 0.0);
    TimesStrict(cap, 0.0, total);
    TimesStrict(total, cap, 1.0 - cap);
  }

  /** Its larger share is exactly 1 - cap, and the next pass only exchanges the roles. */
  lemma PairPass(v: real, m: nat, cap: real)
    requires 0.0 < cap < 0.5 && v > 0.0 && m < 2
    ensures var w := PairOf(v, m, cap);
      MaxIndex(w) == m && Top(w) == v && Sum(w) == v + Share(v, cap) && Top(w) / Sum(w) == 1.0 - cap &&
      Recap(w, cap) == PairOf(Share(v, cap), 1 - m, cap)
  {
    hide Times, Share, Sum, MaxIndex;
    ShareOfPair(v, cap);
    TwoWeights(PairOf(v, m, cap));
    QuotientOrder(v, v + Share(v, cap), 1.0 - cap);
  }

  lemma {:induction false} PairLoop(v: real, m: nat, cap: real, eps: real, passes: nat) returns (u: real, k: nat)
    requires 0.0 < cap < 0.5 && v > 0.0 && m < 2
    ensures u > 0.0 && k < 2 && CapLoop(PairOf(v, m, cap), cap, eps, passes) == PairOf(u, k, cap)
    decreases passes
  {
    u, k := v, m;
    hide Stops, Recap, PairOf, Share;
    if passes != 0 && !Stops(PairOf(v, m, cap), cap, eps) {
      PairPass(v, m, cap);
      ShareOfPair(v, cap);
      u, k := PairLoop(Share(v, cap), 1 - m, cap, eps, passes - 1);
    }
  }

  lemma FirstPassPairs(base: seq<real>, cap: real)
    requires 0.0 < cap < 0.5 && Positive(base) && |base| == 2
    ensures Recap(base, cap) == PairOf(base[1 - MaxIndex(base)], 1 - MaxIndex(base), cap)
  {
    hide Share, Sum, MaxIndex;
    TwoWeights(base);
  }

  /**
   What two providers are handed: their own weights, undistorted, unless one of
   them holds more than 1 - cap; then it and the other are handed shares of
   exactly 1 - cap and cap.
   */
  lemma TwoProvidersHanded(base: seq<real>, cap: real, eps: real, guard: real)
    requires 0.0 < cap < 0.5 && eps >= 0.0 && guard >= 0.0 && Positive(base) && |base| == 2
    ensures var out := CappedWeights(base, cap, eps, guard);
      (out != base <==> !Stops(base, cap, eps) && Top(base) / Sum(base) > 1.0 - cap + guard) &&
      (out != base ==> Top(out) / Sum(out) == 1.0 - cap)
  {
    hide Sum, MaxIndex, Stops, Recap, PairOf, Share;
    PositiveTotal(base);
    if Stops(base, cap, eps) {
      CapLoopDone(base, cap, eps, MAX_PASSES);
    } else {
      CapLoopUnfold(base, cap, eps, MAX_PASSES);
      FirstPassPairs(base, cap);
      var m := 1 - MaxIndex(base);
      var u, k := PairLoop(base[m], m, cap, eps, MAX_PASSES - 1);
      PairPass(u, k, cap);
      ShareOfPair(u, cap);
    }
  }

  // ---------------------------------------------------------------- rank swaps

  /** The larger weight of the pair after `j` more passes. */
  function Descend(v: real, cap: real, j: nat): real
    requires cap < 1.0
    decreases j
  {
    if j == 0 then v else Descend(Share(v, cap), cap, j - 1)
  }

  /** A pair's loop that runs `j` passes leaves the larger weight on the original side exactly when `j` is even. */
  lemma {:induction false} PairRunsTo(v: real, m: nat, cap: real, eps: real, passes: nat, j: nat)
    requires 0.0 < cap < 0.5 && v > 0.0 && m < 2 && j <= passes
    requires forall i, k :: 0 <= i < j && 0 <= k < 2 ==> !Stops(PairOf(Descend(v, cap, i), k, cap), cap, eps)
    requires j == passes || forall k :: 0 <= k < 2 ==> Stops(PairOf(Descend(v, cap, j), k, cap), cap, eps)
    ensures CapLoop(PairOf(v, m, cap), cap, eps, passes) == PairOf(Descend(v, cap, j), (m + j) % 2, cap)
    decreases j
  {
    hide Stops, Recap, PairOf, Share;
    if j != 0 {
      assert !Stops(PairOf(Descend(v, cap, 0), m, cap), cap, eps);
      PairPass(v, m, cap);
      ShareOfPair(v, cap);
      forall i, k | 0 <= i < j - 1 && 0 <= k < 2 ensures !Stops(PairOf(Descend(Share(v, cap), cap, i), k, cap), cap, eps) {
        assert !Stops(PairOf(Descend(v, cap, i + 1), k, cap), cap, eps);
      }
      var rest := Descend(Share(v, cap), cap, j - 1);
      assert Descend(v, cap, j) == rest;
      if j != passes {
        forall k | 0 <= k < 2 ensures Stops(PairOf(rest, k, cap), cap, eps) { assert Stops(PairOf(Descend(v, cap, j), k, cap), cap, eps); }
      }
      PairRunsTo(Share(v, cap), 1 - m, cap, eps, passes - 1, j - 1);
    }
  }

  function PowerOfThree(n: nat): (r: nat)
    ensures r >= 1
  {
    if n == 0 then 1 else 3 * PowerOfThree(n - 1)
  }

  lemma {:induction false} PowersOfThreeRise(m: nat, n: nat)
    requires m <= n
    ensures PowerOfThree(m) <= PowerOfThree(n)
  {
    if m < n { PowersOfThreeRise(m, n - 1); }
  }

  /** At a cap of a quarter each pass divides the pair by three. */
  lemma {:induction false} QuarterDescends(v: real, j: nat)
    ensures Descend(v, 0.25, j) == v / PowerOfThree(j) as real
    decreases j
  {
    if j != 0 {
      QuarterDescends(v / 3.0, j - 1);
      QuarterShare(v);
      ThirdOf(v, PowerOfThree(j - 1) as real);
    }
  }

  lemma QuarterShare(v: real)
    ensures Share(v, 0.25) == v / 3.0
  {
  }

  lemma ThirdOf(v: real, p: real)
    requires p > 0.0
    ensures v / 3.0 / p == v / (3.0 * p)
  {
    var q := v / (3.0 * p);
    assert q * (3.0 * p) == v;
    assert (q * p) * 3.0 == v;
    assert q * p == v / 3.0;
  }

  /** When a pair at a cap of a quarter stops: its total is within the slack. */
  lemma QuarterStops(v: real, k: nat, eps: real)
    requires 0.0 < v <= 0.5 && k < 2
    ensures Stops(PairOf(v, k, 0.25), 0.25, eps) <==> v <= 1.5 * eps
  {
    hide Share, MaxIndex, Sum;
    PairPass(v, k, 0.25);
    QuarterShare(v);
    TimesUnit(eps);
  }

  lemma {:induction false} DescendPositive(v: real, cap: real, j: nat)
    requires 0.0 < cap < 0.5 && v > 0.0
    ensures Descend(v, cap, j) > 0.0
    decreases j
  {
    hide Share;
    if j != 0 {
      ShareOfPair(v, cap);
      DescendPositive(Share(v, cap), cap, j - 1);
    }
  }

  /** Without slack no pair ever meets an infeasible cap. */
  lemma ExactPairNeverStops(v: real, m: nat, cap: real)
    requires 0.0 < cap < 0.5 && v > 0.0 && m < 2
    ensures !Stops(PairOf(v, m, cap), cap, 0.0)
  {
    PairPass(v, m, cap);
    ShareOfPair(v, cap);
    hide Times, Share, Sum, MaxIndex, PairOf;
    var total := v + Share(v, cap);
    TimesStrict(total, cap, 1.0 - cap);
    TimesUnit(Max(1.0, total));
    assert Slack(total, 0.0) == 0.0;
  }

  /** With an exact cap test, though, two providers never swap ranks, because the loop's 60 passes are an even number. */
  lemma ExactPairKeepsRanks(base: seq<real>, cap: real, guard: real)
    requires 0.0 < cap < 0.5 && Positive(base) && |base| == 2 && base[0] != base[1]
    ensures var out := CappedWeights(base, cap, 0.0, guard); out[0] > out[1] <==> base[0] > base[1]
  {
    TwoWeights(base);
    var m := 1 - MaxIndex(base);
    hide Stops, Recap, Share, CapLoop, Descend, Sum, MaxIndex, PairOf;
    if Stops(base, cap, 0.0) {
      CapLoopDone(base, cap, 0.0, MAX_PASSES);
    } else {
      CapLoopUnfold(base, cap, 0.0, MAX_PASSES);
      FirstPassPairs(base, cap);
      ExactPairRuns(base[m], m, cap);
      DescendPositive(base[m], cap, 59);
      PairOnTop(Descend(base[m], cap, 59), (m + 59) % 2, cap);
    }
  }

  lemma ExactPairRuns(v: real, m: nat, cap: real)
    requires 0.0 < cap < 0.5 && v > 0.0 && m < 2
    ensures CapLoop(PairOf(v, m, cap), cap, 0.0, 59) == PairOf(Descend(v, cap, 59), (m + 59) % 2, cap)
  {
    hide Stops, CapLoop, Descend, PairOf, Share;
    forall i, k | 0 <= i < 59 && 0 <= k < 2 ensures !Stops(PairOf(Descend(v, cap, i), k, cap), cap, 0.0) {
      DescendPositive(v, cap, i);
      ExactPairNeverStops(Descend(v, cap, i), k, cap);
    }
    PairRunsTo(v, m, cap, 0.0, 59, 59);
  }

  lemma PairOnTop(v: real, m: nat, cap: real)
    requires 0.0 < cap < 0.5 && v > 0.0 && m < 2
    ensures |PairOf(v, m, cap)| == 2 && (PairOf(v, m, cap)[0] > PairOf(v, m, cap)[1] <==> m == 0)
  {
    ShareOfPair(v, cap);
  }

  const EPSILON: real := 1.0 / 4503599627370496.0

  /**
   With weights 2 and 0.5, a cap of a quarter, Number.EPSILON and the source's
   guard, the loop leaves after an odd number of passes: the provider with the
   smaller weight is handed three quarters of the index.
   */
  lemma RanksCanSwap()
    ensures var out := CappedWeights([2.0, 0.5], 0.25, EPSILON, 0.000000001);
      |out| == 2 && out[0] < out[1] && out[1] / Sum(out) == 0.75
  {
    var base := [2.0, 0.5];
    hide Stops, Recap, PairOf, Share, CapLoop, Descend, PowerOfThree;
    TwoWeights(base);
    SecondPassOnward();
    PairPass(Descend(0.5, 0.25, 32), 1, 0.25);
    ShareOfPair(Descend(0.5, 0.25, 32), 0.25);
  }

  /** The first pass overwrites the weight of 2. */
  lemma FirstPassOfExample()
    ensures CapLoop([2.0, 0.5], 0.25, EPSILON, MAX_PASSES) == CapLoop(PairOf(0.5, 1, 0.25), 0.25, EPSILON, MAX_PASSES - 1)
  {
    var base := [2.0, 0.5];
    hide PairOf, Share, CapLoop;
    TwoWeights(base);
    assert !Stops(base, 0.25, EPSILON);
    hide Stops;
    CapLoopUnfold(base, 0.25, EPSILON, MAX_PASSES);
    FirstPassPairs(base, 0.25);
  }

  lemma ExampleStops(i: nat, k: nat)
    requires i <= 32 && k < 2
    ensures Stops(PairOf(Descend(0.5, 0.25, i), k, 0.25), 0.25, EPSILON) <==> i == 32
    ensures Descend(0.5, 0.25, i) > 0.0
  {
    hide Stops, PairOf, Descend;
    QuarterDescends(0.5, i);
    DescentReachesEpsilon(i);
    QuarterStops(Descend(0.5, 0.25, i), k, EPSILON);
  }

  lemma SecondPassOnward()
    ensures Descend(0.5, 0.25, 32) > 0.0
    ensures CapLoop([2.0, 0.5], 0.25, EPSILON, MAX_PASSES) == PairOf(Descend(0.5, 0.25, 32), 1, 0.25)
  {
    hide PairOf, CapLoop, Descend, Stops;
    FirstPassOfExample();
    forall i, k | 0 <= i < 32 && 0 <= k < 2 ensures !Stops(PairOf(Descend(0.5, 0.25, i), k, 0.25), 0.25, EPSILON) {
      ExampleStops(i, k);
    }
    forall k | 0 <= k < 2 ensures Stops(PairOf(Descend(0.5, 0.25, 32), k, 0.25), 0.25, EPSILON) {
      ExampleStops(32, k);
    }
    ExampleStops(32, 0);
    PairRunsTo(0.5, 1, 0.25, EPSILON, MAX_PASSES - 1, 32);
  }

  lemma PowerOfThreeAdds(m: nat, n: nat)
    ensures PowerOfThree(m + n) == PowerOfThree(m) * PowerOfThree(n)
  {
    if m != 0 {
      PowerOfThreeAdds(m - 1, n);
      assert 3 * (PowerOfThree(m - 1) * PowerOfThree(n)) == (3 * PowerOfThree(m - 1)) * PowerOfThree(n);
    }
  }

  lemma ThirtyOnePasses()
    ensures PowerOfThree(31) == 617673396283947 && PowerOfThree(32) == 1853020188851841
  {
    assert PowerOfThree(4) == 81;
    PowerOfThreeAdds(4, 4);
    PowerOfThreeAdds(8, 8);
    PowerOfThreeAdds(16, 16);
  }

  lemma DescentReachesEpsilon(i: nat)
    requires i <= 32
    ensures 0.0 < 0.5 / PowerOfThree(i) as real <= 0.5
    ensures 0.5 / PowerOfThree(i) as real <= 1.5 * EPSILON <==> i == 32
  {
    ThirtyOnePasses();
    if i < 32 { PowersOfThreeRise(i, 31); }
    hide PowerOfThree;
    HalfOver(PowerOfThree(i) as real);
  }

  lemma HalfOver(p: real)
    requires p >= 1.0
    ensures 0.0 < 0.5 / p <= 0.5
    ensures p <= 617673396283947.0 ==> 0.5 / p > 1.5 * EPSILON
    ensures p == 1853020188851841.0 ==> 0.5 / p <= 1.5 * EPSILON
  {
    QuotientPositive(0.5, p);
    QuotientOrder(0.5, p, 0.5);
    QuotientOrder(0.5, p, 1.5 * EPSILON);
  }
}
