/**
 The iterative provider-weight cap (packages/pricing-engine/src/weights.ts).

 The loop overwrites the largest weight with the value that makes it exactly
 `cap` of the new total. This module specifies the loop, proves the array code
 against that specification, and shows what every pass keeps: each weight stays
 between zero and its base, and is untouched or at least `cap` of the total.

 `eps` is the source's Number.EPSILON and `guard` its 1e-9: both enter as
 small non-negative parameters of exact real arithmetic.
 */
module Weights {
  import opened RealArithmetic

  datatype WeightItem = WeightItem(providerId: string, weight: real)
  datatype CappedWeight = CappedWeight(providerId: string, weightBeforeCap: real, weightAfterCap: real)

  const MAX_PASSES: nat := 60

  function Sum(w: seq<real>): real {
    if w == [] then 0.0 else w[0] + Sum(w[1..])
  }

  /** The position of the largest weight that indexOf(Math.max(...w)) finds. */
  function MaxIndex(w: seq<real>): (m: nat)
    requires w != []
    ensures m < |w|
  {
    if |w| == 1 then 0
    else
      var rest := MaxIndex(w[1..]);
      if w[0] >= w[1 + rest] then 0 else 1 + rest
  }

  /** It is the first of the largest weights. */
  lemma {:induction false} MaxIndexIsFirstMax(w: seq<real>)
    requires w != []
    ensures forall i :: 0 <= i < |w| ==> w[i] <= w[MaxIndex(w)]
    ensures forall i :: 0 <= i < MaxIndex(w) ==> w[i] < w[MaxIndex(w)]
  {
    if |w| > 1 {
      MaxIndexIsFirstMax(w[1..]);
      assert forall i :: 1 <= i < |w| ==> w[i] == w[1..][i - 1];
    }
  }

  function Top(w: seq<real>): real
    requires w != []
  {
    w[MaxIndex(w)]
  }

  function Slack(total: real, eps: real): real {
    Times(eps, Max(1.0, total))
  }

  /** The loop's cap test: no weight exceeds `cap` of the total. */
  predicate WithinCap(w: seq<real>, cap: real, eps: real) {
    w != [] && Sum(w) > 0.0 && Top(w) <= Times(cap, Sum(w)) + Slack(Sum(w), eps)
  }

  /** The loop's two break tests. */
  predicate Stops(w: seq<real>, cap: real, eps: real) {
    Sum(w) <= 0.0 || WithinCap(w, cap, eps)
  }

  /** `cap` of everyone else's weight, so that it is `cap` of the new total. */
  function Share(rest: real, cap: real): real
    requires cap < 1.0
  {
    Times(cap, rest) / (1.0 - cap)
  }

  /** One pass: the largest weight is overwritten. */
  function Recap(w: seq<real>, cap: real): seq<real>
    requires w != [] && cap < 1.0
  {
    w[MaxIndex(w) := Share(Sum(w) - Top(w), cap)]
  }

  lemma TotalNonEmpty(w: seq<real>)
    ensures Sum(w) != 0.0 ==> w != []
  {
  }

  function CapLoop(w: seq<real>, cap: real, eps: real, passes: nat): (r: seq<real>)
    requires cap < 1.0
    ensures |r| == |w|
    decreases passes
  {
    if passes == 0 || Stops(w, cap, eps) then w else CapLoop(Recap(w, cap), cap, eps, passes - 1)
  }

  /** The infeasibility guard: did capping improve the worst share? */
  predicate Improved(base: seq<real>, w: seq<real>, guard: real)
    requires |w| == |base|
  {
    Sum(w) > 0.0 && Sum(base) > 0.0 && Top(w) / Sum(w) < Top(base) / Sum(base) - guard
  }

  function CappedWeights(base: seq<real>, cap: real, eps: real, guard: real): (r: seq<real>)
    requires cap < 1.0
    ensures |r| == |base|
  {
    var w := CapLoop(base, cap, eps, MAX_PASSES);
    if Improved(base, w, guard) then w else base
  }

  // ---------------------------------------------------- the imperative loop

  method Total(a: array<real>) returns (total: real)
    ensures total == Sum(a[..])
  {
    total := 0.0;
    var i := a.Length;
    while i > 0
      invariant 0 <= i <= a.Length
      invariant total == Sum(a[i..])
    {
      i := i - 1;
      assert a[i..] == [a[i]] + a[i + 1..];
      total := total + a[i];
    }
    assert a[0..] == a[..];
  }

  method ArgMax(a: array<real>) returns (m: nat)
    requires a.Length > 0
    ensures m == MaxIndex(a[..])
  {
    m := 0;
    for i := 1 to a.Length
      invariant m < i
      invariant forall k :: 0 <= k < i ==> a[k] <= a[m]
      invariant forall k :: 0 <= k < m ==> a[k] < a[m]
    {
      if a[i] > a[m] { m := i; }
    }
    var r := MaxIndex(a[..]);
    MaxIndexIsFirstMax(a[..]);
    assert a[..][m] <= a[..][r] && a[..][r] <= a[..][m];
  }

  method CapPass(weights: array<real>, cap: real, eps: real) returns (stop: bool)
    requires cap < 1.0
    modifies weights
    ensures stop == Stops(old(weights[..]), cap, eps)
    ensures stop ==> weights[..] == old(weights[..])
    ensures !stop ==> old(weights[..]) != [] && weights[..] == Recap(old(weights[..]), cap)
  {
    hide Sum, MaxIndex, Share, Slack;
    var total := Total(weights);
    if total <= 0.0 { return true; }
    TotalNonEmpty(weights[..]);
    var idx := ArgMax(weights);
    var maxW := weights[idx];
    if maxW <= Times(cap, total) + Slack(total, eps) { return true; }
    weights[idx] := Share(total - maxW, cap);
    stop := false;
  }

  /** `maxShare(weights) < maxShare(base) - guard`, read off the two arrays. */
  method CheckImproved(base: array<real>, weights: array<real>, guard: real) returns (better: bool)
    requires base.Length == weights.Length
    ensures better == Improved(base[..], weights[..], guard)
  {
    hide Sum, MaxIndex;
    var finalTotal := Total(weights);
    var baseTotal := Total(base);
    if finalTotal <= 0.0 || baseTotal <= 0.0 { return false; }
    TotalNonEmpty(weights[..]);
    var top := ArgMax(weights);
    var baseTop := ArgMax(base);
    better := weights[top] / finalTotal < base[baseTop] / baseTotal - guard;
  }

  method CapWeights(items: seq<WeightItem>, cap: real, eps: real, guard: real) returns (out: seq<CappedWeight>)
    requires cap < 1.0
    ensures |out| == |items|
    ensures forall i :: 0 <= i < |items| ==>
      out[i].providerId == items[i].providerId && out[i].weightBeforeCap == items[i].weight
    ensures forall i :: 0 <= i < |items| ==> out[i].weightAfterCap == CappedWeights(BaseWeights(items), cap, eps, guard)[i]
  {
    hide CapLoop, Improved;
    var base := new real[|items|](i requires 0 <= i < |items| => items[i].weight);
    var weights := new real[|items|](i requires 0 <= i < |items| => items[i].weight);
    ghost var b := BaseWeights(items);
    assert base[..] == b && weights[..] == b;
    var iter := 0;
    var stop := false;
    while iter < MAX_PASSES && !stop
      invariant 0 <= iter <= MAX_PASSES
      invariant base[..] == b
      invariant CapLoop(b, cap, eps, MAX_PASSES) == CapLoop(weights[..], cap, eps, MAX_PASSES - iter)
      invariant stop ==> Stops(weights[..], cap, eps)
      decreases MAX_PASSES - iter, !stop
    {
      ghost var before := weights[..];
      stop := CapPass(weights, cap, eps);
      CapLoopUnfold(before, cap, eps, MAX_PASSES - iter);
      if !stop { iter := iter + 1; }
    }
    CapLoopDone(weights[..], cap, eps, MAX_PASSES - iter);
    var better := CheckImproved(base, weights, guard);
    var chosen := if better then weights else base;
    out := seq(|items|, i requires 0 <= i < |items| && chosen.Length == |items| reads chosen =>
      CappedWeight(items[i].providerId, items[i].weight, chosen[i]));
    assert chosen[..] == CappedWeights(b, cap, eps, guard);
    assert forall i :: 0 <= i < |items| ==> chosen[i] == chosen[..][i];
  }

  function BaseWeights(items: seq<WeightItem>): (r: seq<real>)
    ensures |r| == |items|
  {
    seq(|items|, i requires 0 <= i < |items| => items[i].weight)
  }

  lemma CapLoopUnfold(w: seq<real>, cap: real, eps: real, passes: nat)
    requires cap < 1.0 && passes > 0
    ensures !Stops(w, cap, eps) ==> w != [] && CapLoop(w, cap, eps, passes) == CapLoop(Recap(w, cap), cap, eps, passes - 1)
  {
    TotalNonEmpty(w);
  }

  lemma CapLoopDone(w: seq<real>, cap: real, eps: real, passes: nat)
    requires cap < 1.0 && (passes == 0 || Stops(w, cap, eps))
    ensures CapLoop(w, cap, eps, passes) == w
  {
  }

  // ------------------------------------------------------ what the loop keeps

  predicate Positive(base: seq<real>) { forall i :: 0 <= i < |base| ==> base[i] > 0.0 }

  /** Every weight stays within [0, base], and is untouched or at least at `level`. */
  ghost predicate Capping(base: seq<real>, w: seq<real>, level: real) {
    |w| == |base| &&
    forall i :: 0 <= i < |w| ==> 0.0 <= w[i] <= base[i] && (w[i] == base[i] || w[i] >= level)
  }

  lemma {:induction false} SumUpdate(w: seq<real>, i: nat, x: real)
    requires i < |w|
    ensures Sum(w[i := x]) == Sum(w) - w[i] + x
  {
    if i == 0 {
      assert w[i := x][1..] == w[1..];
    } else {
      assert w[i := x][1..] == w[1..][i - 1 := x];
      SumUpdate(w[1..], i - 1, x);
    }
  }

  lemma {:induction false} SumNonNegative(w: seq<real>)
    requires forall i :: 0 <= i < |w| ==> w[i] >= 0.0
    ensures forall i :: 0 <= i < |w| ==> w[i] <= Sum(w)
    ensures Sum(w) >= 0.0
  {
    if w != [] {
      SumNonNegative(w[1..]);
      assert forall i :: 1 <= i < |w| ==> w[i] == w[1..][i - 1];
    }
  }

  /** The overwritten weight is exactly `cap` of the new total. */
  lemma ShareIsCapOfTotal(rest: real, cap: real, next: real)
    requires cap < 1.0 && next == rest + Share(rest, cap)
    ensures Share(rest, cap) == Times(cap, next)
    ensures next - Times(cap, next) == rest
  {
    hide Times;
    var x := Share(rest, cap);
    Quotient(Times(cap, rest), 1.0 - cap);
    TimesSub(x, 1.0, cap);
    TimesUnit(x);
    TimesAssociates(x, cap, 0.0);
    TimesAdd(cap, rest, x);
  }

  /** What a total leaves beside its cap share grows with the total. */
  lemma GapOrder(cap: real, a: real, b: real)
    requires cap < 1.0
    ensures a - Times(cap, a) <= b - Times(cap, b) <==> a <= b
  {
    hide Times;
    TimesSub(a, 1.0, cap);
    TimesSub(b, 1.0, cap);
    TimesUnit(a);
    TimesUnit(b);
    if a <= b { TimesOrder(1.0 - cap, a, b); } else { TimesStrict(1.0 - cap, b, a); }
  }

  lemma SlackNonNegative(total: real, eps: real)
    requires eps >= 0.0
    ensures Slack(total, eps) >= 0.0
  {
    TimesOrder(eps, 0.0, Max(1.0, total));
  }

  lemma OverCap(w: seq<real>, cap: real, eps: real)
    requires eps >= 0.0 && !Stops(w, cap, eps)
    ensures w != [] && Sum(w) > 0.0 && Top(w) > Times(cap, Sum(w))
  {
    TotalNonEmpty(w);
    hide Sum, MaxIndex, Slack;
    SlackNonNegative(Sum(w), eps);
  }

  /** The new total after a pass, and its order against the old one. */
  lemma RecapTotal(w: seq<real>, cap: real, eps: real, total: real, next: real)
    requires 0.0 < cap < 1.0 && eps >= 0.0 && !Stops(w, cap, eps) && w != []
    requires total == Sum(w) && next == Sum(Recap(w, cap))
    ensures next - Times(cap, next) == total - Top(w)
    ensures Recap(w, cap)[MaxIndex(w)] == Times(cap, next)
    ensures next < total && Top(w) > Times(cap, total)
  {
    hide Sum, MaxIndex, Times, Share;
    OverCap(w, cap, eps);
    SumUpdate(w, MaxIndex(w), Share(total - Top(w), cap));
    ShareIsCapOfTotal(total - Top(w), cap, next);
    GapOrder(cap, total, next);
  }

  /** One pass keeps every weight between zero and its base, touched ones at the new cap. */
  lemma CappingStep(base: seq<real>, w: seq<real>, cap: real, eps: real, total: real, next: real)
    requires 0.0 < cap < 1.0 && eps >= 0.0 && !Stops(w, cap, eps) && w != []
    requires total == Sum(w) && next == Sum(Recap(w, cap)) && Capping(base, w, Times(cap, total))
    ensures Capping(base, Recap(w, cap), Times(cap, next))
  {
    hide Sum, MaxIndex, Times, Share, Stops;
    RecapTotal(w, cap, eps, total, next);
    SumNonNegative(w);
    TimesUnit(cap);
    GapOrder(cap, 0.0, next);
    TimesOrder(cap, next, total);
    TimesOrder(cap, 0.0, next);
  }

  /** The whole loop keeps every weight between zero and its base, touched ones at the cap. */
  lemma {:induction false} CapLoopCaps(base: seq<real>, w: seq<real>, cap: real, eps: real, passes: nat)
    requires 0.0 < cap < 1.0 && eps >= 0.0 && Capping(base, w, Times(cap, Sum(w)))
    ensures var r := CapLoop(w, cap, eps, passes); Capping(base, r, Times(cap, Sum(r)))
    decreases passes
  {
    hide Sum, MaxIndex, Times, Capping, Stops;
    if passes != 0 && !Stops(w, cap, eps) {
      OverCap(w, cap, eps);
      CappingStep(base, w, cap, eps, Sum(w), Sum(Recap(w, cap)));
      CapLoopCaps(base, Recap(w, cap), cap, eps, passes - 1);
    }
  }

  /** The loop from `base` leaves by its cap test, holding weights `w` of total `total`. */
  ghost predicate Exits(base: seq<real>, cap: real, eps: real, passes: nat, w: seq<real>, total: real)
    requires cap < 1.0
  {
    w == CapLoop(base, cap, eps, passes) && total == Sum(w) && WithinCap(w, cap, eps)
  }

  /** A loop that leaves by its cap test holds the water-filling weights, up to the test's slack. */
  lemma ExitIsWaterFilling(base: seq<real>, cap: real, eps: real, passes: nat, w: seq<real>, total: real)
    requires 0.0 < cap < 1.0 && eps >= 0.0 && Positive(base) && Exits(base, cap, eps, passes, w, total)
    ensures |w| == |base|
    ensures forall i :: 0 <= i < |base| ==>
      Min(base[i], Times(cap, total)) <= w[i] <= Min(base[i], Times(cap, total) + Slack(total, eps))
  {
    hide Sum, MaxIndex, Times, CapLoop, Slack;
    SlackNonNegative(total, eps);
    CapLoopCaps(base, base, cap, eps, passes);
    MaxIndexIsFirstMax(w);
  }

  // -------------------------------------------------------------- the output

  lemma PositiveTotal(base: seq<real>)
    requires Positive(base) && base != []
    ensures Sum(base) > 0.0
  {
    SumNonNegative(base);
    assert base[0] <= Sum(base);
  }

  /** A panel in which nobody exceeds the cap is handed out as it is. */
  lemma WithinCapUntouched(base: seq<real>, cap: real, eps: real, guard: real)
    requires cap < 1.0 && eps >= 0.0 && Positive(base) && base != []
    requires forall i :: 0 <= i < |base| ==> base[i] <= Times(cap, Sum(base))
    ensures CappedWeights(base, cap, eps, guard) == base
  {
    PositiveTotal(base);
    hide Sum, MaxIndex, CapLoop, Times, Slack;
    SlackNonNegative(Sum(base), eps);
    CapLoopDone(base, cap, eps, MAX_PASSES);
  }

  /** The weights handed to the index: non-negative, never above base, and no worse at the top. */
  lemma CappedWeightsSound(base: seq<real>, cap: real, eps: real, guard: real)
    requires 0.0 < cap < 1.0 && eps >= 0.0 && guard >= 0.0 && Positive(base)
    ensures var out := CappedWeights(base, cap, eps, guard);
      (forall i :: 0 <= i < |base| ==> 0.0 <= out[i] <= base[i]) &&
      (base != [] ==> Sum(out) > 0.0 && Top(out) / Sum(out) <= Top(base) / Sum(base))
  {
    if base != [] { PositiveTotal(base); }
    hide Sum, MaxIndex, CapLoop, Times;
    CapLoopCaps(base, base, cap, eps, MAX_PASSES);
  }
}
