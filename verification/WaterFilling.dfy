/**
 Water-filling: the exact fixed point of the provider-weight cap
 (packages/pricing-engine/src/weights.ts), and how near the loop comes to it.

 One level `cap * total` cuts every base weight, and what is left sums to
 `total`. A panel of more than 1/cap providers has exactly one such total; the
 loop approaches it from above, so whatever order the providers come in and
 whether or not the loop leaves by its cap test, its weights are within one
 explicit gap of the solution.
 */
module WaterFilling {
  import opened RealArithmetic
  import opened Weights

  /** The total left when every base weight is cut at `level`. */
  function WaterSum(base: seq<real>, level: real): real {
    if base == [] then 0.0 else Min(base[0], level) + WaterSum(base[1..], level)
  }

  /** `total` is the total of an exact solution of the cap constraint. */
  predicate Solves(base: seq<real>, cap: real, total: real) {
    total > 0.0 && WaterSum(base, Times(cap, total)) == total
  }

  lemma {:induction false} WaterSumIsSum(base: seq<real>, w: seq<real>, level: real)
    requires |w| == |base| && forall i :: 0 <= i < |w| ==> w[i] == Min(base[i], level)
    ensures WaterSum(base, level) == Sum(w)
  {
    if base != [] { WaterSumIsSum(base[1..], w[1..], level); }
  }

  /** An exit that did not need the test's slack is an exact solution of the cap constraint. */
  lemma ExactExitSolves(base: seq<real>, cap: real, eps: real, passes: nat, w: seq<real>, total: real)
    requires 0.0 < cap < 1.0 && eps >= 0.0 && Positive(base) && Exits(base, cap, eps, passes, w, total)
    requires Top(w) <= Times(cap, total)
    ensures Solves(base, cap, total)
    ensures |w| == |base| && forall i :: 0 <= i < |w| ==> w[i] == Min(base[i], Times(cap, total))
  {
    hide Sum, MaxIndex, Times, CapLoop, WaterSum;
    CapLoopCaps(base, base, cap, eps, passes);
    MaxIndexIsFirstMax(w);
    WaterSumIsSum(base, w, Times(cap, total));
  }

  /** Every touched weight but the last one overwritten is strictly above the cap. */
  ghost predicate AllButOne(base: seq<real>, w: seq<real>, m: nat, level: real) {
    |w| == |base| && forall i :: 0 <= i < |w| && i != m ==> w[i] == base[i] || w[i] > level
  }

  lemma {:induction false} CapLoopLeavesOne(base: seq<real>, w: seq<real>, cap: real, eps: real, passes: nat, m: nat) returns (last: nat)
    requires 0.0 < cap < 1.0 && eps >= 0.0 && Capping(base, w, Times(cap, Sum(w))) && AllButOne(base, w, m, Times(cap, Sum(w)))
    ensures var r := CapLoop(w, cap, eps, passes); AllButOne(base, r, last, Times(cap, Sum(r)))
    decreases passes
  {
    hide Sum, MaxIndex, Times, Capping, Stops, AllButOne, Share;
    if passes != 0 && !Stops(w, cap, eps) {
      OverCap(w, cap, eps);
      var was, now := Sum(w), Sum(Recap(w, cap));
      CappingStep(base, w, cap, eps, was, now);
      RecapTotal(w, cap, eps, was, now);
      TimesStrict(cap, now, was);
      RecapLeavesOne(base, w, cap, was, now);
      last := CapLoopLeavesOne(base, Recap(w, cap), cap, eps, passes - 1, MaxIndex(w));
    } else {
      last := m;
    }
  }

  lemma RecapLeavesOne(base: seq<real>, w: seq<real>, cap: real, was: real, now: real)
    requires w != [] && cap < 1.0 && Capping(base, w, Times(cap, was)) && Times(cap, now) < Times(cap, was)
    ensures AllButOne(base, Recap(w, cap), MaxIndex(w), Times(cap, now))
  {
    hide Sum, MaxIndex, Times, Share;
  }

  /** Without its slack the test could only be met with at most one provider cut. */
  lemma ExactExitCutsOne(base: seq<real>, cap: real, eps: real, passes: nat, w: seq<real>, total: real, i: nat, j: nat)
    requires 0.0 < cap < 1.0 && eps >= 0.0 && Positive(base) && Exits(base, cap, eps, passes, w, total)
    requires Top(w) <= Times(cap, total) && i < j < |base|
    ensures base[i] <= Times(cap, total) || base[j] <= Times(cap, total)
  {
    hide Sum, MaxIndex, Times, CapLoop;
    CapLoopCaps(base, base, cap, eps, passes);
    var last := CapLoopLeavesOne(base, base, cap, eps, passes, 0);
    MaxIndexIsFirstMax(w);
  }

  /** The others keep something when one of several positive weights is set aside. */
  lemma RestPositive(base: seq<real>, m: nat)
    requires Positive(base) && |base| >= 2 && m < |base|
    ensures Sum(base) - base[m] > 0.0
  {
    hide Sum;
    var others, k := base[m := 0.0], if m == 0 then 1 else 0;
    SumUpdate(base, m, 0.0);
    SumNonNegative(others);
    assert others[k] > 0.0;
  }

  /** Exact exits do happen: one dominant provider beside others below its new cap is settled in a single pass. */
  lemma OnePassSettlesOneDominant(base: seq<real>, cap: real, eps: real, passes: nat)
    requires 0.0 < cap < 1.0 && eps >= 0.0 && Positive(base) && |base| >= 2 && passes > 0 && !Stops(base, cap, eps)
    requires forall i :: 0 <= i < |base| && i != MaxIndex(base) ==> base[i] <= Share(Sum(base) - Top(base), cap)
    ensures Exits(base, cap, eps, passes, Recap(base, cap), Sum(Recap(base, cap)))
    ensures Top(Recap(base, cap)) <= Times(cap, Sum(Recap(base, cap)))
  {
    var w, total := Recap(base, cap), Sum(Recap(base, cap));
    hide Sum, MaxIndex, Times, Share, CapLoop, Slack;
    SlackNonNegative(total, eps);
    RecapTotal(base, cap, eps, Sum(base), total);
    RestPositive(base, MaxIndex(base));
    TimesUnit(cap);
    GapOrder(cap, total, 0.0);
    assert Top(w) <= Times(cap, total);
    CapLoopUnfold(base, cap, eps, passes);
    CapLoopDone(w, cap, eps, passes - 1);
  }

  lemma {:induction false} WaterSumBound(base: seq<real>, level: real)
    ensures WaterSum(base, level) <= Times(|base| as real, level)
  {
    hide Times;
    if base == [] {
      TimesUnit(level);
    } else {
      WaterSumBound(base[1..], level);
      TimesAdd(level, |base[1..]| as real, 1.0);
      TimesUnit(level);
    }
  }

  /** One weight's contribution to the concavity of water-filling. */
  lemma CutScales(b: real, l1: real, l2: real, t1: real, t2: real)
    requires b > 0.0 && Times(l1, t2) == Times(l2, t1) && 0.0 < l1 < l2 && 0.0 < t1 < t2
    ensures Times(Min(b, l1), t2) >= Times(Min(b, l2), t1)
    ensures Times(Min(b, l1), t2) == Times(Min(b, l2), t1) ==> Min(b, l1) == l1
  {
    hide Times;
    if b < l2 {
      TimesStrict(b, t1, t2);
      TimesStrict(t1, b, l2);
    }
  }

  /** Concavity of water-filling in its level, with equality only when every weight is cut. */
  lemma {:induction false} WaterSumScales(base: seq<real>, l1: real, l2: real, t1: real, t2: real)
    requires Positive(base) && Times(l1, t2) == Times(l2, t1) && 0.0 < l1 < l2 && 0.0 < t1 < t2
    ensures Times(WaterSum(base, l1), t2) >= Times(WaterSum(base, l2), t1)
    ensures Times(WaterSum(base, l1), t2) == Times(WaterSum(base, l2), t1) ==> WaterSum(base, l1) == Times(|base| as real, l1)
  {
    hide Times;
    if base == [] {
      TimesUnit(t1);
      TimesUnit(t2);
      TimesUnit(l1);
    } else {
      var rest := base[1..];
      WaterSumScales(rest, l1, l2, t1, t2);
      CutScales(base[0], l1, l2, t1, t2);
      TimesAdd(t2, Min(base[0], l1), WaterSum(rest, l1));
      TimesAdd(t1, Min(base[0], l2), WaterSum(rest, l2));
      TimesAdd(l1, |rest| as real, 1.0);
      TimesUnit(l1);
    }
  }

  lemma SolutionOrder(base: seq<real>, cap: real, t1: real, t2: real)
    requires 0.0 < cap < 1.0 && Positive(base) && Solves(base, cap, t1) && Solves(base, cap, t2) && t1 < t2
    ensures Times(|base| as real, cap) == 1.0
  {
    hide Times, WaterSum;
    TimesStrict(cap, 0.0, t1);
    TimesStrict(cap, t1, t2);
    TimesUnit(cap);
    TimesAssociates(cap, t1, t2);
    TimesAssociates(cap, t2, t1);
    TimesAssociates(t1, t2, 0.0);
    WaterSumScales(base, Times(cap, t1), Times(cap, t2), t1, t2);
    TimesAssociates(|base| as real, cap, t1);
    TimesUnit(t1);
    TimesCancel(Times(|base| as real, cap), 1.0, t1);
  }

  /** Unless exactly 1/cap providers exist, at most one total solves the cap constraint. */
  lemma SolutionUnique(base: seq<real>, cap: real, t1: real, t2: real)
    requires 0.0 < cap < 1.0 && Positive(base) && Times(|base| as real, cap) != 1.0
    requires Solves(base, cap, t1) && Solves(base, cap, t2)
    ensures t1 == t2
  {
    hide Times, Solves;
    if t1 < t2 {
      SolutionOrder(base, cap, t1, t2);
    } else if t2 < t1 {
      SolutionOrder(base, cap, t2, t1);
    }
  }

  lemma {:induction false} WaterSumRemove(base: seq<real>, k: nat, level: real)
    requires k < |base|
    ensures WaterSum(base, level) == Min(base[k], level) + WaterSum(base[..k] + base[k + 1..], level)
  {
    if k == 0 {
      assert base[..0] + base[1..] == base[1..];
    } else {
      WaterSumRemove(base[1..], k - 1, level);
      var removed := base[..k] + base[k + 1..];
      assert removed[0] == base[0] && removed[1..] == base[1..][..k - 1] + base[1..][k..];
    }
  }

  /** Taking one element out of both keeps two sequences permutations of each other. */
  lemma RemoveCommon(a: seq<real>, b: seq<real>, k: nat)
    requires a != [] && multiset(a) == multiset(b) && k < |b| && b[k] == a[0]
    ensures multiset(a[1..]) == multiset(b[..k] + b[k + 1..])
  {
    assert a == [a[0]] + a[1..];
    assert b == b[..k] + [b[k]] + b[k + 1..];
    assert multiset(a[1..]) == multiset(a) - multiset{a[0]};
    assert multiset(b[..k] + b[k + 1..]) == multiset(b) - multiset{a[0]};
  }

  /** Provider order does not matter to the cut total. */
  lemma {:induction false} WaterSumPermutes(a: seq<real>, b: seq<real>, level: real)
    requires multiset(a) == multiset(b)
    ensures WaterSum(a, level) == WaterSum(b, level)
  {
    if a == [] {
      assert |b| == |multiset(b)| == 0;
    } else {
      assert a[0] in multiset(b);
      var k :| 0 <= k < |b| && b[k] == a[0];
      RemoveCommon(a, b, k);
      WaterSumRemove(b, k, level);
      WaterSumPermutes(a[1..], b[..k] + b[k + 1..], level);
    }
  }

  lemma PositivePermutes(a: seq<real>, b: seq<real>)
    requires Positive(a) && multiset(a) == multiset(b)
    ensures Positive(b)
  {
    forall i | 0 <= i < |b| ensures b[i] > 0.0 {
      assert b[i] in multiset(a);
    }
  }

  // -------------------------------------------------- distance to the solution

  /** Every weight is at or above its water-filling value. */
  ghost predicate AtLeastCut(base: seq<real>, w: seq<real>, level: real) {
    |w| == |base| && forall i :: 0 <= i < |w| ==> Min(base[i], level) <= w[i]
  }

  /** How many base weights the solution actually cuts. */
  function CutCount(base: seq<real>, level: real): nat {
    if base == [] then 0 else (if base[0] > level then 1 else 0) + CutCount(base[1..], level)
  }

  lemma {:induction false} CutTotal(base: seq<real>, w: seq<real>, level: real)
    requires AtLeastCut(base, w, level)
    ensures Sum(w) >= WaterSum(base, level)
  {
    if base != [] { CutTotal(base[1..], w[1..], level); }
  }

  lemma {:induction false} CutTotalOthers(base: seq<real>, w: seq<real>, level: real, m: nat)
    requires AtLeastCut(base, w, level) && m < |w|
    ensures Sum(w) - w[m] >= WaterSum(base, level) - Min(base[m], level)
  {
    if m != 0 {
      CutTotalOthers(base[1..], w[1..], level, m - 1);
    } else {
      CutTotal(base[1..], w[1..], level);
    }
  }

  /** The excess over the solution is spread over the cut weights only. */
  lemma {:induction false} ExcessSpread(base: seq<real>, w: seq<real>, level: real, top: real)
    requires AtLeastCut(base, w, level) && forall i :: 0 <= i < |w| ==> w[i] <= base[i] && w[i] <= top
    ensures Sum(w) - WaterSum(base, level) <= Times(CutCount(base, level) as real, top - level)
  {
    hide Times;
    if base == [] {
      TimesUnit(top - level);
    } else {
      ExcessSpread(base[1..], w[1..], level, top);
      TimesAdd(top - level, CutCount(base[1..], level) as real, 1.0);
      TimesUnit(top - level);
    }
  }

  /** A pass never undershoots the solution. */
  lemma RecapStaysAbove(base: seq<real>, w: seq<real>, cap: real, eps: real, total: real, was: real, now: real)
    requires 0.0 < cap < 1.0 && eps >= 0.0 && w != [] && !Stops(w, cap, eps)
    requires Solves(base, cap, total) && AtLeastCut(base, w, Times(cap, total))
    requires was == Sum(w) && now == Sum(Recap(w, cap))
    ensures now >= total && AtLeastCut(base, Recap(w, cap), Times(cap, total))
  {
    hide Times, Sum, MaxIndex, WaterSum, Share, Stops;
    RecapTotal(w, cap, eps, was, now);
    CutTotalOthers(base, w, Times(cap, total), MaxIndex(w));
    GapOrder(cap, total, now);
    TimesOrder(cap, total, now);
  }

  /** And it contracts the excess over the solution: (1 - cap) k (now - total) <= (k - 1) (was - total). */
  lemma RecapContracts(base: seq<real>, w: seq<real>, cap: real, eps: real, total: real, was: real, now: real)
    requires 0.0 < cap < 1.0 && eps >= 0.0 && w != [] && !Stops(w, cap, eps)
    requires Solves(base, cap, total) && Capping(base, w, Times(cap, was)) && AtLeastCut(base, w, Times(cap, total))
    requires was == Sum(w) && now == Sum(Recap(w, cap))
    ensures var k := CutCount(base, Times(cap, total)) as real;
      Times(k, Times(1.0 - cap, now - total)) <= Times(k, was - total) - (was - total)
  {
    hide Times, Sum, MaxIndex, WaterSum, Share, Stops, CutCount;
    var level, top, k := Times(cap, total), Top(w), CutCount(base, Times(cap, total)) as real;
    RecapTotal(w, cap, eps, was, now);
    MaxIndexIsFirstMax(w);
    ExcessSpread(base, w, level, top);
    TimesSub(now - total, 1.0, cap);
    TimesUnit(now - total);
    TimesSub(cap, now, total);
    TimesSub(k, was - total, top - level);
    TimesAssociates(1.0 - cap, now - total, 0.0);
  }

  /** The loop approaches the solution from above and never undershoots it. */
  lemma {:induction false} CapLoopAbove(base: seq<real>, w: seq<real>, cap: real, eps: real, passes: nat, total: real)
    requires 0.0 < cap < 1.0 && eps >= 0.0
    requires Solves(base, cap, total) && AtLeastCut(base, w, Times(cap, total))
    ensures AtLeastCut(base, CapLoop(w, cap, eps, passes), Times(cap, total))
    decreases passes
  {
    hide Times, Sum, MaxIndex, WaterSum, Share, Stops, AtLeastCut, Solves;
    if passes != 0 && !Stops(w, cap, eps) {
      OverCap(w, cap, eps);
      RecapStaysAbove(base, w, cap, eps, total, Sum(w), Sum(Recap(w, cap)));
      CapLoopAbove(base, Recap(w, cap), cap, eps, passes - 1, total);
    }
  }

  lemma {:induction false} WaterSumSlope(base: seq<real>, level: real, rise: real)
    requires rise >= 0.0
    ensures WaterSum(base, level + rise) <= WaterSum(base, level) + Times(CutCount(base, level) as real, rise)
  {
    hide Times;
    if base == [] {
      TimesUnit(rise);
    } else {
      WaterSumSlope(base[1..], level, rise);
      TimesAdd(rise, CutCount(base[1..], level) as real, 1.0);
      TimesUnit(rise);
    }
  }

  lemma {:induction false} SumBelow(base: seq<real>, w: seq<real>, level: real, slack: real)
    requires |w| == |base| && slack >= 0.0
    requires forall i :: 0 <= i < |w| ==> w[i] <= Min(base[i], level + slack)
    ensures Sum(w) <= WaterSum(base, level) + Times(|w| as real, slack)
  {
    hide Times;
    if base == [] {
      TimesUnit(slack);
    } else {
      SumBelow(base[1..], w[1..], level, slack);
      TimesAdd(slack, |w[1..]| as real, 1.0);
      TimesUnit(slack);
    }
  }

  /** With the source's slack, the total at exit exceeds the solution by at most n*slack / (1 - k*cap). */
  lemma ExitDistance(base: seq<real>, cap: real, eps: real, passes: nat, w: seq<real>, t: real, total: real)
    requires 0.0 < cap < 1.0 && eps >= 0.0 && Positive(base) && Solves(base, cap, total)
    requires Exits(base, cap, eps, passes, w, t)
    ensures total <= t
    ensures var k := CutCount(base, Times(cap, total)) as real;
      (t - total) - Times(k, Times(cap, t - total)) <= Times(|base| as real, Slack(t, eps))
  {
    hide Times, Sum, MaxIndex, WaterSum, Slack, CapLoop, CutCount;
    var rise := Times(cap, t - total);
    ExitIsWaterFilling(base, cap, eps, passes, w, t);
    CapLoopAbove(base, base, cap, eps, passes, total);
    CutTotal(base, w, Times(cap, total));
    SlackNonNegative(t, eps);
    SumBelow(base, w, Times(cap, t), Slack(t, eps));
    TimesOrder(cap, 0.0, t - total);
    TimesUnit(cap);
    TimesSub(cap, t, total);
    WaterSumSlope(base, Times(cap, total), rise);
  }

  // ---------------------------------------------------------------- existence

  /** The weights at or below `level`, which cutting there leaves alone. */
  function UncutSum(base: seq<real>, level: real): real {
    if base == [] then 0.0 else (if base[0] > level then 0.0 else base[0]) + UncutSum(base[1..], level)
  }

  /** The cut sum is linear in the level as long as it cuts the same weights, and below that line otherwise. */
  lemma {:induction false} WaterSumLine(base: seq<real>, level: real, lower: real)
    requires lower <= level
    ensures CutCount(base, lower) >= CutCount(base, level)
    ensures WaterSum(base, lower) <= UncutSum(base, level) + Times(CutCount(base, level) as real, lower)
    ensures CutCount(base, lower) == CutCount(base, level) ==>
      WaterSum(base, lower) == UncutSum(base, level) + Times(CutCount(base, level) as real, lower)
  {
    hide Times;
    if base == [] {
      TimesUnit(lower);
    } else {
      WaterSumLine(base[1..], level, lower);
      TimesAdd(lower, CutCount(base[1..], level) as real, 1.0);
      TimesUnit(lower);
    }
  }

  lemma {:induction false} UncutPositive(base: seq<real>, level: real)
    requires Positive(base)
    ensures CutCount(base, level) <= |base| && UncutSum(base, level) >= 0.0
    ensures CutCount(base, level) < |base| ==> UncutSum(base, level) > 0.0
  {
    if base != [] { UncutPositive(base[1..], level); }
  }

  /** One Newton step from above: the total at which the weights cut at `cap * t` alone would be cut. */
  lemma NewtonStep(base: seq<real>, cap: real, t: real) returns (next: real)
    requires 0.0 < cap < 1.0 && Positive(base) && Times(|base| as real, cap) > 1.0
    requires t > 0.0 && WaterSum(base, Times(cap, t)) <= t
    ensures 0.0 < next <= t && WaterSum(base, Times(cap, next)) <= next
    ensures CutCount(base, Times(cap, next)) == CutCount(base, Times(cap, t)) ==> WaterSum(base, Times(cap, next)) == next
    ensures CutCount(base, Times(cap, t)) <= CutCount(base, Times(cap, next)) <= |base|
  {
    hide Times, WaterSum, CutCount, UncutSum;
    var level := Times(cap, t);
    var k, u := CutCount(base, level) as real, UncutSum(base, level);
    UncutPositive(base, level);
    WaterSumLine(base, level, level);
    TimesAssociates(k, cap, t);
    TimesSub(t, 1.0, Times(k, cap));
    TimesUnit(t);
    if CutCount(base, level) == |base| {
      TimesStrict(t, 1.0, Times(k, cap));
      assert false;
    }
    var free := 1.0 - Times(k, cap);
    assert Times(free, t) >= u;
    if free <= 0.0 {
      TimesOrder(t, free, 0.0);
      assert false;
    }
    next := u / free;
    Quotient(u, free);
    QuotientOrder(u, free, t);
    TimesAssociates(free, t, 0.0);
    QuotientPositive(u, free);
    TimesOrder(cap, next, t);
    WaterSumLine(base, level, Times(cap, next));
    UncutPositive(base, Times(cap, next));
    TimesAssociates(k, cap, next);
    TimesSub(next, 1.0, Times(k, cap));
    TimesUnit(next);
    TimesAssociates(next, free, 0.0);
  }

  lemma {:induction false} SolutionBelow(base: seq<real>, cap: real, t: real)
    requires 0.0 < cap < 1.0 && Positive(base) && Times(|base| as real, cap) > 1.0
    requires t > 0.0 && WaterSum(base, Times(cap, t)) <= t && CutCount(base, Times(cap, t)) <= |base|
    ensures exists total :: Solves(base, cap, total)
    decreases |base| - CutCount(base, Times(cap, t))
  {
    hide Times, WaterSum, CutCount;
    var next := NewtonStep(base, cap, t);
    if CutCount(base, Times(cap, next)) == CutCount(base, Times(cap, t)) {
      assert Solves(base, cap, next);
    } else {
      SolutionBelow(base, cap, next);
    }
  }

  lemma {:induction false} WaterSumAtMost(base: seq<real>, level: real)
    ensures WaterSum(base, level) <= Sum(base)
  {
    if base != [] { WaterSumAtMost(base[1..], level); }
  }

  /** Above 1/cap providers the cap can be met: exactly one total solves the constraint. */
  lemma SolutionExists(base: seq<real>, cap: real)
    requires 0.0 < cap < 1.0 && Positive(base) && Times(|base| as real, cap) > 1.0
    ensures exists total :: Solves(base, cap, total)
    ensures forall s, t :: Solves(base, cap, s) && Solves(base, cap, t) ==> s == t
  {
    hide Times, WaterSum, Sum, CutCount, Solves;
    if base == [] { TimesUnit(cap); }
    PositiveTotal(base);
    WaterSumAtMost(base, Times(cap, Sum(base)));
    UncutPositive(base, Times(cap, Sum(base)));
    SolutionBelow(base, cap, Sum(base));
    forall s, t | Solves(base, cap, s) && Solves(base, cap, t) ensures s == t { SolutionUnique(base, cap, s, t); }
  }

  // --------------------------------------------------------------- convergence

  /** A panel the cap can be met on: more than 1/cap providers, all with weight. */
  predicate Feasible(base: seq<real>, cap: real) {
    0.0 < cap < 1.0 && Positive(base) && Times(|base| as real, cap) > 1.0
  }

  function Power(c: real, n: nat): real {
    if n == 0 then 1.0 else Times(c, Power(c, n - 1))
  }

  /** What one pass leaves of the excess when the solution cuts `k` weights; cap / (1 - cap) when it cuts two. */
  function Ratio(k: nat, cap: real): real
    requires cap < 1.0
  {
    if k <= 1 then 0.0 else 1.0 / (1.0 - cap) - 1.0 / (k as real - 1.0)
  }

  /** The solution never cuts 1/cap weights or more. */
  lemma CutsBelow(base: seq<real>, cap: real, total: real)
    requires Feasible(base, cap) && Solves(base, cap, total)
    ensures Times(CutCount(base, Times(cap, total)) as real, cap) < 1.0
  {
    hide Times, WaterSum, CutCount, UncutSum;
    var level := Times(cap, total);
    var k := CutCount(base, level) as real;
    UncutPositive(base, level);
    WaterSumLine(base, level, level);
    TimesAssociates(k, cap, total);
    TimesUnit(total);
    if Times(k, cap) > 1.0 { TimesStrict(total, 1.0, Times(k, cap)); }
  }

  /** So every later pass leaves strictly less than the whole excess. */
  lemma RatioBelowOne(k: nat, cap: real)
    requires 0.0 < cap < 1.0 && Times(k as real, cap) < 1.0
    ensures 0.0 <= Ratio(k, cap) < 1.0
    ensures k == 2 ==> Ratio(k, cap) == cap / (1.0 - cap)
  {
    if k > 1 {
      var a, b := 1.0 - cap, k as real - 1.0;
      assert Ratio(k, cap) == (b - a) / (a * b);
      assert a * b == b - b * cap && b * cap < a;
      assert b - a < a * b;
      QuotientOrder(b - a, a * b, 1.0);
    }
  }

  lemma {:induction false} CutUpdate(base: seq<real>, i: nat, x: real, level: real)
    requires i < |base| && x == Min(base[i], level)
    ensures WaterSum(base[i := x], level) == WaterSum(base, level)
    ensures CutCount(base[i := x], level) == CutCount(base, level) - (if base[i] > level then 1 else 0)
  {
    if i == 0 {
      assert base[i := x][1..] == base[1..];
    } else {
      assert base[i := x][1..] == base[1..][i - 1 := x];
      CutUpdate(base[1..], i - 1, x, level);
    }
  }

  /** The excess beside one given weight is spread over the other cut ones. */
  lemma ExcessSpreadOthers(base: seq<real>, w: seq<real>, level: real, top: real, m: nat)
    requires AtLeastCut(base, w, level) && forall i :: 0 <= i < |w| ==> w[i] <= base[i] && w[i] <= top
    requires m < |w| && level < w[m]
    ensures CutCount(base, level) >= 1
    ensures Sum(w) - WaterSum(base, level) - (w[m] - level) <= Times((CutCount(base, level) - 1) as real, top - level)
  {
    hide Times, Sum, WaterSum, CutCount;
    CutUpdate(base, m, level, level);
    SumUpdate(w, m, level);
    ExcessSpread(base[m := level], w[m := level], level, top);
  }

  /** A pass over weights one of which already sits at the cap leaves at most Ratio of the excess. */
  lemma LaterPassContracts(base: seq<real>, w: seq<real>, cap: real, eps: real, total: real, was: real, now: real, m: nat)
    requires 0.0 < cap < 1.0 && eps >= 0.0 && w != [] && !Stops(w, cap, eps)
    requires Solves(base, cap, total) && Capping(base, w, Times(cap, was)) && AtLeastCut(base, w, Times(cap, total))
    requires was == Sum(w) && now == Sum(Recap(w, cap)) && m < |w| && w[m] == Times(cap, was) && total < was
    ensures now - total <= Times(Ratio(CutCount(base, Times(cap, total)), cap), was - total)
  {
    hide Times, Sum, MaxIndex, WaterSum, Share, Stops, CutCount;
    var level, top, k := Times(cap, total), Top(w), CutCount(base, Times(cap, total));
    RecapTotal(w, cap, eps, was, now);
    MaxIndexIsFirstMax(w);
    TimesStrict(cap, total, was);
    ExcessSpreadOthers(base, w, level, top, m);
    TimesSub(cap, was, total);
    TimesSub(cap, now, total);
    PassArithmetic(k, cap, was - total, now - total, top - level);
  }

  lemma PassArithmetic(k: nat, cap: real, was: real, now: real, over: real)
    requires 0.0 < cap < 1.0 && k >= 1 && was > 0.0
    requires was - Times(cap, was) <= Times((k - 1) as real, over) && now - Times(cap, now) == was - over
    ensures now <= Times(Ratio(k, cap), was)
  {
    var a, b := 1.0 - cap, k as real - 1.0;
    assert was * a <= b * over && now * a == was - over;
    if k == 1 {
      TimesStrict(was, 0.0, a);
      assert false;
    } else {
      QuotientOrder(was * a, b, over);
      assert was * a / b == was * (a / b);
      assert now * a <= was - was * (a / b);
      assert now * a <= was * (1.0 - a / b);
      QuotientOrder(was * (1.0 - a / b), a, now);
      assert was * (1.0 - a / b) / a == was * ((1.0 - a / b) / a);
      assert (1.0 - a / b) / a == 1.0 / a - 1.0 / b;
    }
  }

  /** The later passes of the loop, each keeping the weight the one before it overwrote at the cap. */
  lemma {:induction false} LaterPasses(base: seq<real>, w: seq<real>, cap: real, eps: real, passes: nat, total: real, m: nat)
    requires Feasible(base, cap) && eps >= 0.0 && Solves(base, cap, total)
    requires Capping(base, w, Times(cap, Sum(w))) && AtLeastCut(base, w, Times(cap, total)) && m < |w| && w[m] == Times(cap, Sum(w))
    ensures var r := CapLoop(w, cap, eps, passes);
      WithinCap(r, cap, eps) || Sum(r) - total <= Times(Power(Ratio(CutCount(base, Times(cap, total)), cap), passes), Sum(w) - total)
    decreases passes
  {
    hide Times, Sum, MaxIndex, Share, WithinCap, Capping, CutCount, Ratio, Positive, WaterSum;
    var c, was, now := Ratio(CutCount(base, Times(cap, total)), cap), Sum(w), Sum(Recap(w, cap));
    CutTotal(base, w, Times(cap, total));
    TimesUnit(was - total);
    if passes != 0 && !Stops(w, cap, eps) {
      OverCap(w, cap, eps);
      CappingStep(base, w, cap, eps, was, now);
      RecapTotal(w, cap, eps, was, now);
      RecapStaysAbove(base, w, cap, eps, total, was, now);
      LaterPassContracts(base, w, cap, eps, total, was, now, m);
      LaterPasses(base, Recap(w, cap), cap, eps, passes - 1, total, MaxIndex(w));
      CutsBelow(base, cap, total);
      RatioBelowOne(CutCount(base, Times(cap, total)), cap);
      PowerNonNegative(c, passes - 1);
      TimesOrder(Power(c, passes - 1), now - total, Times(c, was - total));
      TimesAssociates(Power(c, passes - 1), c, was - total);
    }
  }

  lemma {:induction false} PowerNonNegative(c: real, n: nat)
    requires c >= 0.0
    ensures Power(c, n) >= 0.0
  {
    if n != 0 {
      PowerNonNegative(c, n - 1);
      TimesOrder(c, 0.0, Power(c, n - 1));
    }
  }

  lemma {:induction false} PowerAdd(c: real, m: nat, n: nat)
    ensures Power(c, m + n) == Times(Power(c, m), Power(c, n))
  {
    hide Times;
    if m == 0 {
      TimesUnit(Power(c, n));
    } else {
      PowerAdd(c, m - 1, n);
      TimesAssociates(c, Power(c, m - 1), Power(c, n));
    }
  }

  lemma {:induction false} PowerShrinks(c: real, n: nat)
    requires 0.0 <= c <= 1.0
    ensures 0.0 <= Power(c, n) <= 1.0
  {
    PowerNonNegative(c, n);
    if n != 0 {
      PowerShrinks(c, n - 1);
      TimesOrder(c, Power(c, n - 1), 1.0);
      TimesUnit(c);
    }
  }

  lemma PowerProduct(c: real, m: nat, n: nat, a: real, b: real)
    requires c >= 0.0 && Power(c, m) <= a && Power(c, n) <= b
    ensures 0.0 <= Power(c, m + n) <= Times(a, b)
  {
    hide Power;
    PowerNonNegative(c, m);
    PowerNonNegative(c, n);
    PowerNonNegative(c, m + n);
    PowerAdd(c, m, n);
    TimesOrder(Power(c, m), Power(c, n), b);
    TimesOrder(b, Power(c, m), a);
  }

  /** At the default cap of 0.35 the 60 passes leave less than 1e-10 of the excess, as the source's comment expects. */
  lemma DefaultCapConverges(k: nat)
    requires Times(k as real, 0.35) < 1.0
    ensures 0.0 <= Power(Ratio(k, 0.35), MAX_PASSES - 1) < 0.0000000001
  {
    var c := Ratio(k, 0.35);
    RatioBelowOne(k, 0.35);
    assert k <= 2 && c <= 0.54;
    assert Power(c, 1) == c by { TimesUnit(c); }
    hide Power, Ratio;
    PowerProduct(c, 1, 1, 0.54, 0.54);
    PowerProduct(c, 2, 2, 0.3, 0.3);
    PowerProduct(c, 4, 4, 0.09, 0.09);
    PowerProduct(c, 8, 8, 0.0081, 0.0081);
    PowerProduct(c, 16, 16, 0.00007, 0.00007);
    PowerShrinks(c, 11);
    PowerProduct(c, 16, 11, 0.00007, 1.0);
    PowerProduct(c, 32, 27, 0.0000000049, 0.00007);
  }

  /**
   How far the loop can be from the solution: the slack its cap test allows, or
   the excess that is left when the passes run out.
   */
  function LoopGap(base: seq<real>, cap: real, eps: real, passes: nat, total: real): real
    requires passes > 0 && cap < 1.0 && Times(CutCount(base, Times(cap, total)) as real, cap) < 1.0
  {
    var k := CutCount(base, Times(cap, total));
    Max(Times(|base| as real, Slack(Sum(base), eps)) / (1.0 - Times(k as real, cap)),
        Times(Power(Ratio(k, cap), passes - 1), Sum(base) - total))
  }

  lemma {:induction false} SumOrder(a: seq<real>, b: seq<real>)
    requires |a| == |b| && forall i :: 0 <= i < |a| ==> a[i] <= b[i]
    ensures Sum(a) <= Sum(b)
  {
    if a != [] { SumOrder(a[1..], b[1..]); }
  }

  lemma ExitGap(base: seq<real>, cap: real, eps: real, passes: nat, total: real)
    requires Feasible(base, cap) && eps >= 0.0 && Solves(base, cap, total) && passes > 0
    requires WithinCap(CapLoop(base, cap, eps, passes), cap, eps)
    ensures Times(CutCount(base, Times(cap, total)) as real, cap) < 1.0
    ensures Sum(CapLoop(base, cap, eps, passes)) <= total + LoopGap(base, cap, eps, passes, total)
  {
    hide Times, Sum, MaxIndex, WaterSum, CapLoop, CutCount, Ratio, Power;
    var w, k := CapLoop(base, cap, eps, passes), CutCount(base, Times(cap, total)) as real;
    var t, slack := Sum(w), Slack(Sum(base), eps);
    CutsBelow(base, cap, total);
    ExitDistance(base, cap, eps, passes, w, t, total);
    CapLoopCaps(base, base, cap, eps, passes);
    SumOrder(w, base);
    TimesOrder(eps, Max(1.0, t), Max(1.0, Sum(base)));
    TimesOrder(|base| as real, Slack(t, eps), slack);
    TimesAssociates(k, cap, t - total);
    TimesSub(t - total, 1.0, Times(k, cap));
    TimesUnit(t - total);
    TimesAssociates(t - total, 1.0 - Times(k, cap), 0.0);
    QuotientOrder(Times(|base| as real, slack), 1.0 - Times(k, cap), t - total);
  }

  /**
   On a panel the cap can be met on, the loop's weights are within the gap of the
   water-filling weights, from above, whether or not it left by its cap test.
   */
  lemma LoopNearsSolution(base: seq<real>, cap: real, eps: real, passes: nat, total: real)
    requires Feasible(base, cap) && eps >= 0.0 && Solves(base, cap, total) && passes > 0
    ensures Times(CutCount(base, Times(cap, total)) as real, cap) < 1.0
    ensures var w, gap := CapLoop(base, cap, eps, passes), LoopGap(base, cap, eps, passes, total);
      total <= Sum(w) <= total + gap &&
      forall i :: 0 <= i < |base| ==> Min(base[i], Times(cap, total)) <= w[i] <= Min(base[i], Times(cap, total)) + gap
  {
    hide Times, Sum, MaxIndex, WaterSum, CapLoop, CutCount, Ratio, Power, Share, Slack;
    var w, level := CapLoop(base, cap, eps, passes), Times(cap, total);
    CutsBelow(base, cap, total);
    CapLoopAbove(base, base, cap, eps, passes, total);
    CutTotal(base, w, level);
    if WithinCap(w, cap, eps) {
      ExitGap(base, cap, eps, passes, total);
    } else {
      LastPassGap(base, cap, eps, passes, total);
    }
    forall i | 0 <= i < |base| ensures w[i] <= Min(base[i], level) + Sum(w) - total {
      CutTotalOthers(base, w, level, i);
    }
  }

  /** A loop that never meets its cap test does run its first pass. */
  lemma FirstPassRuns(base: seq<real>, cap: real, eps: real, passes: nat)
    requires Feasible(base, cap) && passes > 0 && !WithinCap(CapLoop(base, cap, eps, passes), cap, eps)
    ensures !Stops(base, cap, eps) && base != []
    ensures CapLoop(base, cap, eps, passes) == CapLoop(Recap(base, cap), cap, eps, passes - 1)
  {
    if base == [] { TimesUnit(cap); }
    PositiveTotal(base);
    hide Times, Sum, MaxIndex, Share, Slack;
  }

  lemma LastPassGap(base: seq<real>, cap: real, eps: real, passes: nat, total: real)
    requires Feasible(base, cap) && eps >= 0.0 && Solves(base, cap, total) && passes > 0
    requires !WithinCap(CapLoop(base, cap, eps, passes), cap, eps)
    ensures Times(CutCount(base, Times(cap, total)) as real, cap) < 1.0
    ensures Sum(CapLoop(base, cap, eps, passes)) <= total + LoopGap(base, cap, eps, passes, total)
  {
    FirstPassRuns(base, cap, eps, passes);
    hide Times, Stops, Sum, MaxIndex, WaterSum, CapLoop, CutCount, Ratio, Power, Share, Slack;
    var c, was, now := Ratio(CutCount(base, Times(cap, total)), cap), Sum(base), Sum(Recap(base, cap));
    CutsBelow(base, cap, total);
    RatioBelowOne(CutCount(base, Times(cap, total)), cap);
    CappingStep(base, base, cap, eps, was, now);
    RecapTotal(base, cap, eps, was, now);
    RecapStaysAbove(base, base, cap, eps, total, was, now);
    LaterPasses(base, Recap(base, cap), cap, eps, passes - 1, total, MaxIndex(base));
    PowerNonNegative(c, passes - 1);
    TimesOrder(Power(c, passes - 1), now - total, was - total);
  }

  // ------------------------------------------------------------ provider order

  lemma {:induction false} CutCountRemove(base: seq<real>, k: nat, level: real)
    requires k < |base|
    ensures CutCount(base, level) == (if base[k] > level then 1 else 0) + CutCount(base[..k] + base[k + 1..], level)
  {
    if k == 0 {
      assert base[..0] + base[1..] == base[1..];
    } else {
      CutCountRemove(base[1..], k - 1, level);
      var removed := base[..k] + base[k + 1..];
      assert removed[0] == base[0] && removed[1..] == base[1..][..k - 1] + base[1..][k..];
    }
  }

  lemma {:induction false} CutCountPermutes(a: seq<real>, b: seq<real>, level: real)
    requires multiset(a) == multiset(b)
    ensures CutCount(a, level) == CutCount(b, level)
  {
    if a == [] {
      assert |b| == |multiset(b)| == 0;
    } else {
      assert a[0] in multiset(b);
      var k :| 0 <= k < |b| && b[k] == a[0];
      RemoveCommon(a, b, k);
      CutCountRemove(b, k, level);
      CutCountPermutes(a[1..], b[..k] + b[k + 1..], level);
    }
  }

  /** A level above every weight cuts nothing. */
  lemma SumPermutes(a: seq<real>, b: seq<real>)
    requires Positive(a) && multiset(a) == multiset(b)
    ensures |a| == |b| && Sum(a) == Sum(b)
  {
    hide Sum, WaterSum;
    PositivePermutes(a, b);
    SumNonNegative(a);
    SumNonNegative(b);
    var level := Max(Sum(a), Sum(b));
    WaterSumIsSum(a, a, level);
    WaterSumIsSum(b, b, level);
    WaterSumPermutes(a, b, level);
    assert |multiset(a)| == |multiset(b)|;
  }

  /** Reordering the providers changes neither the solution nor the gap. */
  lemma GapPermutes(a: seq<real>, b: seq<real>, cap: real, eps: real, passes: nat, total: real)
    requires Feasible(a, cap) && multiset(a) == multiset(b) && passes > 0 && Solves(a, cap, total)
    ensures Feasible(b, cap) && Solves(b, cap, total) && |a| == |b|
    ensures Times(CutCount(a, Times(cap, total)) as real, cap) < 1.0 && Times(CutCount(b, Times(cap, total)) as real, cap) < 1.0
    ensures LoopGap(a, cap, eps, passes, total) == LoopGap(b, cap, eps, passes, total)
  {
    PositivePermutes(a, b);
    SumPermutes(a, b);
    CutsBelow(a, cap, total);
    hide Times, Sum, WaterSum, CutCount, Ratio, Power, Slack, Positive;
    WaterSumPermutes(a, b, Times(cap, total));
    CutCountPermutes(a, b, Times(cap, total));
  }

  /**
   Two orders of the same providers: the loop's totals, and the weights it leaves
   to equal originals, differ by at most the one gap both orders share.
   */
  lemma OrderIndependent(a: seq<real>, b: seq<real>, cap: real, eps: real, passes: nat, total: real)
    requires Feasible(a, cap) && multiset(a) == multiset(b) && eps >= 0.0 && passes > 0 && Solves(a, cap, total)
    ensures Times(CutCount(a, Times(cap, total)) as real, cap) < 1.0 && |a| == |b|
    ensures var wa, wb, gap := CapLoop(a, cap, eps, passes), CapLoop(b, cap, eps, passes), LoopGap(a, cap, eps, passes, total);
      -gap <= Sum(wa) - Sum(wb) <= gap &&
      forall i, j :: 0 <= i < |a| && 0 <= j < |b| && a[i] == b[j] ==> -gap <= wa[i] - wb[j] <= gap
  {
    hide Times, Sum, CapLoop, CutCount, LoopGap, Feasible, Solves, Min;
    GapPermutes(a, b, cap, eps, passes, total);
    LoopNearsSolution(a, cap, eps, passes, total);
    LoopNearsSolution(b, cap, eps, passes, total);
  }

  // ------------------------------------------------------------ the cap is kept

  /** When the loop leaves by its cap test, nobody is handed more than `cap` plus the test's slack and the guard. */
  lemma CapHonouredAtExit(base: seq<real>, cap: real, eps: real, guard: real, w: seq<real>, total: real)
    requires 0.0 < cap < 1.0 && eps >= 0.0 && guard >= 0.0 && Positive(base) && Exits(base, cap, eps, MAX_PASSES, w, total)
    ensures var out := CappedWeights(base, cap, eps, guard);
      out != [] && Sum(out) > 0.0 && Top(out) / Sum(out) <= cap + Times(eps, Max(1.0, total)) / total + guard
  {
    assert Slack(total, eps) == Times(eps, Max(1.0, total));
    hide Sum, MaxIndex, CapLoop, Times, Slack;
    PositiveTotal(base);
    SlackNonNegative(total, eps);
    QuotientPlus(Top(w), cap, Slack(total, eps), total);
    QuotientAtLeast(Slack(total, eps), total);
  }

  /** On every panel the cap can be met on, exit or not, nobody is handed more than `cap` plus the loop's gap and the guard. */
  lemma CapHonoured(base: seq<real>, cap: real, eps: real, guard: real, total: real)
    requires Feasible(base, cap) && eps >= 0.0 && guard >= 0.0 && Solves(base, cap, total)
    ensures Times(CutCount(base, Times(cap, total)) as real, cap) < 1.0
    ensures var out := CappedWeights(base, cap, eps, guard);
      out != [] && Sum(out) > 0.0 && Top(out) / Sum(out) <= cap + LoopGap(base, cap, eps, MAX_PASSES, total) / total + guard
  {
    if base == [] { TimesUnit(cap); }
    hide Sum, MaxIndex, CapLoop, Times, WaterSum, LoopGap, CutCount;
    var w := CapLoop(base, cap, eps, MAX_PASSES);
    PositiveTotal(base);
    LoopNearsSolution(base, cap, eps, MAX_PASSES, total);
    var gap := LoopGap(base, cap, eps, MAX_PASSES, total);
    TimesOrder(cap, total, Sum(w));
    QuotientPlus(Top(w), cap, gap, Sum(w));
    QuotientAtLeast(gap, total);
    TimesOrder(gap / total, total, Sum(w));
    Quotient(gap, total);
    QuotientOrder(gap, Sum(w), gap / total);
  }

  lemma QuotientPlus(a: real, c: real, d: real, b: real)
    requires b > 0.0 && a <= Times(c, b) + d
    ensures a / b <= c + d / b
  {
    hide Times;
    Quotient(d, b);
    TimesAdd(b, c, d / b);
    QuotientOrder(a, b, c + d / b);
  }

  lemma QuotientAtLeast(a: real, b: real)
    requires b > 0.0 && a >= 0.0
    ensures a / b >= 0.0
  {
    TimesUnit(b);
    QuotientOrder(a, b, 0.0);
  }
}
