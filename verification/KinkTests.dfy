/** The tests of a kink candidate, said without medians: by counting the values around it. */
module KinkTests {
  import opened Prelude
  import opened KinkDetector

  /** How many of the values, times the factor, stay below the bound. */
  function Below(values: seq<real>, factor: real, bound: real): nat {
    if values == [] then 0 else (if factor * values[0] < bound then 1 else 0) + Below(values[1..], factor, bound)
  }

  lemma {:induction false} BelowInsert(v: real, sorted: seq<real>, factor: real, bound: real)
    ensures Below(Insert(v, sorted), factor, bound) == Below([v] + sorted, factor, bound)
  {
    if sorted != [] && v > sorted[0] {
      BelowInsert(v, sorted[1..], factor, bound);
      assert Insert(v, sorted)[1..] == Insert(v, sorted[1..]);
      assert ([v] + sorted)[1..] == sorted && ([v] + sorted[1..])[1..] == sorted[1..];
    }
  }

  lemma {:induction false} BelowSort(values: seq<real>, factor: real, bound: real)
    ensures Below(Sort(values), factor, bound) == Below(values, factor, bound)
  {
    hide Insert;
    if values != [] {
      var rest := Sort(values[1..]);
      BelowSort(values[1..], factor, bound);
      BelowInsert(values[0], rest, factor, bound);
      assert ([values[0]] + rest)[1..] == rest;
    }
  }

  lemma LargerStays(factor: real, a: real, b: real, bound: real)
    requires factor >= 0.0 && a <= b && factor * a >= bound
    ensures factor * b >= bound
  {
  }

  /** Of sorted values, those below the bound come first. */
  lemma {:induction false} BelowSorted(sorted: seq<real>, factor: real, bound: real, m: nat)
    requires Sorted(sorted) && factor >= 0.0 && m < |sorted|
    ensures factor * sorted[m] < bound <==> Below(sorted, factor, bound) > m
  {
    if factor * sorted[0] >= bound {
      LargerStays(factor, sorted[0], sorted[m], bound);
      NoneBelow(sorted, factor, bound);
    } else if m > 0 {
      BelowSorted(sorted[1..], factor, bound, m - 1);
    }
  }

  lemma {:induction false} NoneBelow(sorted: seq<real>, factor: real, bound: real)
    requires Sorted(sorted) && factor >= 0.0 && sorted != [] && factor * sorted[0] >= bound
    ensures Below(sorted, factor, bound) == 0
  {
    if |sorted| > 1 {
      LargerStays(factor, sorted[0], sorted[1], bound);
      NoneBelow(sorted[1..], factor, bound);
    }
  }

  /** A multiple of the median is below a bound exactly when that of more than half of the values is. */
  lemma MedianCounts(values: seq<real>, factor: real, bound: real)
    requires values != [] && factor >= 0.0
    ensures factor * Median(values) < bound <==> 2 * Below(values, factor, bound) > |values|
  {
    hide Sort, Sorted, Below;
    SortSorts(values);
    BelowSort(values, factor, bound);
    BelowSorted(Sort(values), factor, bound, |values| / 2);
  }

  /** Values first neither fall nor rise, or the other way round all the way. */
  ghost predicate OneWay(slopes: seq<real>, lo: nat, hi: nat)
    requires hi < |slopes|
  {
    || (forall k :: lo < k <= hi ==> slopes[k - 1] <= slopes[k])
    || (forall k :: lo < k <= hi ==> slopes[k - 1] >= slopes[k])
  }

  /** The slope variation is at least the net change across the zone, and no more where the slopes turn one way. */
  lemma {:induction false} VariationNet(slopes: seq<real>, lo: nat, hi: nat)
    requires lo <= hi < |slopes|
    ensures VariationOver(slopes, lo, hi) >= Abs(slopes[hi] - slopes[lo])
    ensures OneWay(slopes, lo, hi) ==> VariationOver(slopes, lo, hi) == Abs(slopes[hi] - slopes[lo])
    ensures VariationOver(slopes, lo, hi) == 0.0 ==> forall k :: lo <= k <= hi ==> slopes[k] == slopes[lo]
    decreases hi
  {
    if lo < hi {
      VariationNet(slopes, lo, hi - 1);
      if forall k :: lo < k <= hi ==> slopes[k - 1] <= slopes[k] {
        Ordered(slopes, lo, hi - 1);
      } else if forall k :: lo < k <= hi ==> slopes[k - 1] >= slopes[k] {
        Ordered(slopes, lo, hi - 1);
      }
    }
  }

  lemma {:induction false} Ordered(slopes: seq<real>, lo: nat, hi: nat)
    requires lo <= hi < |slopes|
    ensures (forall k :: lo < k <= hi ==> slopes[k - 1] <= slopes[k]) ==> slopes[lo] <= slopes[hi]
    ensures (forall k :: lo < k <= hi ==> slopes[k - 1] >= slopes[k]) ==> slopes[lo] >= slopes[hi]
    decreases hi
  {
    if lo < hi {
      Ordered(slopes, lo, hi - 1);
    }
  }

  /** The multiples of more than half of the steps lo, ..., hi - 1 are below the bound. */
  predicate MostBelow(steps: seq<real>, lo: nat, hi: nat, factor: real, bound: real)
    requires lo <= hi <= |steps|
  {
    2 * Below(steps[lo..hi], factor, bound) > hi - lo
  }

  /**
   What makes cell i a kink: room on both sides, equal cells at the far ends of its windows, a step that is the
   largest nearby and exceeds the contrast times most steps of the neighbourhood, and turning enough in between.
   */
  ghost predicate Kinked(s: seq<Entry>, p: Settings, i: nat)
    requires Grid(s)
  {
    var n, reach := |s|, p.gap + p.width;
    && n >= 2 * reach + 3 && i >= p.edgeCells + reach && i + reach < n
    && StandsOut(s, p, Slopes(s), Steps(Slopes(s), p), i)
  }

  ghost predicate StandsOut(s: seq<Entry>, p: Settings, slopes: seq<real>, steps: seq<real>, i: nat)
    requires p.gap + p.width <= i && i + p.gap + p.width < |s| && |slopes| + 1 == |s| == |steps| && |slopes| > 0
  {
    var n, reach := |s|, p.gap + p.width;
    && 0.0 < steps[i]
    && -s[i].cellWidth <= 1000000000000.0 * (s[i + reach].cellWidth - s[i - reach].cellWidth) <= s[i].cellWidth
    && (forall j :: 0 <= j < n && i - p.width <= j <= i + p.width ==> steps[j] <= steps[i])
    && MostBelow(steps, if i > p.window then i - p.window else 0, if i + p.window < n then i + p.window + 1 else n,
                 p.contrast, steps[i])
    && VariationOver(slopes, if i > p.gap then i - p.gap else 0,
                     if i + p.gap + 1 < n - 2 then i + p.gap + 1 else n - 2) > Times(p.locality, steps[i])
  }

  lemma {:induction false} AllBelow(values: seq<real>, factor: real, bound: real)
    requires factor <= 0.0 < bound && forall k :: 0 <= k < |values| ==> values[k] >= 0.0
    ensures Below(values, factor, bound) == |values|
  {
    if values != [] {
      assert factor * values[0] <= 0.0;
      AllBelow(values[1..], factor, bound);
    }
  }

  /** A factor below zero is no demand on values that are not negative. */
  lemma NoDemand(values: seq<real>, factor: real, bound: real)
    requires values != [] && factor <= 0.0 < bound && forall k :: 0 <= k < |values| ==> values[k] >= 0.0
    ensures factor * Median(values) < bound && 2 * Below(values, factor, bound) > |values|
  {
    hide Sort;
    AllBelow(values, factor, bound);
    BoundsSurviveSort(values, 0.0);
    assert factor * Median(values) <= 0.0;
  }

  lemma ContrastCounts(steps: seq<real>, p: Settings, i: nat)
    requires i < |steps| && steps[i] > 0.0 && forall k :: 0 <= k < |steps| ==> steps[k] >= 0.0
    ensures steps[i] > p.contrast * Median(steps[i - MinNat(i, p.window)..MinNat(i + p.window + 1, |steps|)]) <==>
            MostBelow(steps, if i > p.window then i - p.window else 0,
                      if i + p.window < |steps| then i + p.window + 1 else |steps|, p.contrast, steps[i])
  {
    hide Median, Below;
    var window := steps[i - MinNat(i, p.window)..MinNat(i + p.window + 1, |steps|)];
    if p.contrast >= 0.0 {
      MedianCounts(window, p.contrast, steps[i]);
    } else {
      NoDemand(window, p.contrast, steps[i]);
    }
  }

  lemma TurnsEnough(s: seq<Entry>, p: Settings, slopes: seq<real>, step: real, i: nat)
    requires |slopes| + 1 == |s| && |slopes| > 0
    ensures Variation(slopes, p, i) > p.locality * step <==>
            VariationOver(slopes, if i > p.gap then i - p.gap else 0,
                          if i + p.gap + 1 < |s| - 2 then i + p.gap + 1 else |s| - 2) > Times(p.locality, step)
  {
    hide VariationOver;
  }

  lemma PassesIs(s: seq<Entry>, p: Settings, slopes: seq<real>, steps: seq<real>, i: nat)
    requires |slopes| + 1 == |s| == |steps| && |slopes| > 0 && Scanned(p, |s|, i)
    requires forall k :: 0 <= k < |steps| ==> steps[k] >= 0.0
    ensures Passes(s, p, slopes, steps, i) <==> StandsOut(s, p, slopes, steps, i)
  {
    hide Median, VariationOver, Variation, MostBelow, Abs, Times;
    if steps[i] > 0.0 {
      ContrastCounts(steps, p, i);
    }
    TurnsEnough(s, p, slopes, steps[i], i);
    SpacingIs(s[i + Reach(p)].cellWidth - s[i - Reach(p)].cellWidth, s[i].cellWidth);
  }

  lemma StepsNotNegative(slopes: seq<real>, p: Settings)
    ensures forall k :: 0 <= k <= |slopes| ==> Steps(slopes, p)[k] >= 0.0
  {
    hide Median;
  }

  /** The detector's shocks are exactly those cells. */
  lemma ShockIsKinked(s: seq<Entry>, p: Settings, i: nat)
    requires Grid(s)
    ensures IsShock(s, p, i) <==> Kinked(s, p, i)
  {
    hide Passes, StandsOut, Steps, Slopes, Grid;
    if |s| >= 2 * Reach(p) + 3 && Scanned(p, |s|, i) {
      StepsNotNegative(Slopes(s), p);
      PassesIs(s, p, Slopes(s), Steps(Slopes(s), p), i);
    }
  }

  lemma SpacingIs(d: real, w: real)
    ensures Abs(d) <= 1e-12 * w <==> -w <= 1000000000000.0 * d <= w
  {
    assert 1000000000000.0 * (1e-12 * w) == w;
  }

  /** The two windows of a step: the slopes up to one gap below the cell and those from one gap above it. */
  lemma StepWindows(s: seq<Entry>, p: Settings, i: nat, low: real, high: real)
    requires Grid(s) && p.width > 0 && p.gap + p.width <= i && i + p.gap + p.width < |s|
    requires 2 * |Held(s, i - p.gap - p.width, i - p.gap, low)| > p.width
    requires 2 * |Held(s, i + p.gap, i + p.gap + p.width, high)| > p.width
    ensures Steps(Slopes(s), p)[i] == Abs(high - low)
  {
    hide Median, Held, Slopes, Grid, Steps;
    HeldMedian(s, i - p.gap - p.width, i - p.gap, low);
    HeldMedian(s, i + p.gap, i + p.gap + p.width, high);
    StepIs(Slopes(s), p, i);
  }

  lemma HeldMedian(s: seq<Entry>, lo: nat, hi: nat, v: real)
    requires Grid(s) && lo <= hi < |s| && 2 * |Held(s, lo, hi, v)| > hi - lo
    ensures Median(Slopes(s)[lo..hi]) == v
  {
    hide Median, Held, Slopes, Grid;
    HeldCounts(s, lo, hi, v);
    MajorityMedian(Slopes(s)[lo..hi], v);
  }

  lemma StepIs(slopes: seq<real>, p: Settings, i: nat)
    requires p.gap + p.width <= i && i + p.gap + p.width <= |slopes|
    ensures Steps(slopes, p)[i] == Abs(Median(slopes[i + p.gap..i + p.gap + p.width])
                                       - Median(slopes[i - p.gap - p.width..i - p.gap]))
  {
    hide Median;
    assert i - p.gap - p.width == i - p.width - p.gap;
  }

  /** Between cell k and the next one the profile rises with slope v. */
  predicate Rises(s: seq<Entry>, k: nat, v: real)
    requires k + 1 < |s|
  {
    s[k + 1].u - s[k].u == v * (s[k + 1].x - s[k].x)
  }

  /** The cells of [lo, hi) above which it does. */
  function Held(s: seq<Entry>, lo: nat, hi: nat, v: real): set<nat>
    requires lo <= hi < |s|
  {
    set k: nat | lo <= k < hi && Rises(s, k, v)
  }

  lemma {:induction false} HeldCounts(s: seq<Entry>, lo: nat, hi: nat, v: real)
    requires Grid(s) && lo <= hi < |s|
    ensures |Held(s, lo, hi, v)| == multiset(Slopes(s)[lo..hi])[v]
    decreases hi
  {
    hide Slopes, Rises, Grid;
    var slopes := Slopes(s);
    if lo < hi {
      HeldCounts(s, lo, hi - 1, v);
      assert slopes[lo..hi] == slopes[lo..hi - 1] + [slopes[hi - 1]];
      SlopeIs(s, hi - 1, v);
      if slopes[hi - 1] == v {
        assert Held(s, lo, hi, v) == Held(s, lo, hi - 1, v) + {hi - 1};
      } else {
        assert Held(s, lo, hi, v) == Held(s, lo, hi - 1, v);
      }
    } else {
      assert Held(s, lo, hi, v) == {};
    }
  }

  lemma SlopeIs(s: seq<Entry>, k: nat, v: real)
    requires Grid(s) && k + 1 < |s|
    ensures Slopes(s)[k] == v <==> Rises(s, k, v)
  {
    assert s[k].x != s[k + 1].x;
    QuotientIs(s[k + 1].u - s[k].u, s[k + 1].x - s[k].x, v);
  }

  lemma QuotientIs(rise: real, run: real, v: real)
    requires run != 0.0
    ensures rise / run == v <==> rise == v * run
  {
    assert rise / run * run == rise;
  }
}
