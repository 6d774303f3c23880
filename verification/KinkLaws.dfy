/** What the kink detector does not see, and what it finds on an ideal kink. */
module KinkLaws {
  import opened Prelude
  import opened KinkDetector

  // ----- scaling a profile and adding an affine function of the position -----

  function Affine(a: real, b: real, v: real): real {
    a * v + b
  }

  function Mapped(a: real, b: real, values: seq<real>): (r: seq<real>)
    ensures |r| == |values|
  {
    seq(|values|, i requires 0 <= i < |values| => Affine(a, b, values[i]))
  }

  function Transformed(s: seq<Entry>, a: real, b: real, c: real): (r: seq<Entry>)
    ensures |r| == |s|
  {
    seq(|s|, i requires 0 <= i < |s| => s[i].(u := a * s[i].u + b * s[i].x + c))
  }

  lemma AffineOrder(a: real, b: real, v: real, w: real)
    requires a > 0.0
    ensures Affine(a, b, v) <= Affine(a, b, w) <==> v <= w
  {
  }

  lemma AffineGap(a: real, b: real, v: real, w: real)
    requires a > 0.0
    ensures Abs(Affine(a, b, v) - Affine(a, b, w)) == Affine(a, 0.0, Abs(v - w))
  {
  }

  lemma {:induction false} InsertMapped(a: real, b: real, v: real, sorted: seq<real>)
    requires a > 0.0
    ensures Insert(Affine(a, b, v), Mapped(a, b, sorted)) == Mapped(a, b, Insert(v, sorted))
  {
    hide Affine;
    if sorted == [] {
    } else {
      AffineOrder(a, b, v, sorted[0]);
      if v > sorted[0] {
        InsertMapped(a, b, v, sorted[1..]);
        assert Mapped(a, b, sorted)[1..] == Mapped(a, b, sorted[1..]);
      }
    }
  }

  lemma {:induction false} SortMapped(a: real, b: real, values: seq<real>)
    requires a > 0.0
    ensures Sort(Mapped(a, b, values)) == Mapped(a, b, Sort(values))
  {
    hide Affine, Insert;
    if values != [] {
      SortMapped(a, b, values[1..]);
      assert Mapped(a, b, values)[1..] == Mapped(a, b, values[1..]);
      InsertMapped(a, b, values[0], Sort(values[1..]));
    }
  }

  lemma MedianMapped(a: real, b: real, values: seq<real>)
    requires a > 0.0
    ensures Median(Mapped(a, b, values)) == if values == [] then 0.0 else Affine(a, b, Median(values))
  {
    hide Affine, Insert, Sort;
    SortMapped(a, b, values);
  }

  lemma SliceMapped(a: real, b: real, values: seq<real>, lo: nat, hi: nat)
    requires lo <= hi <= |values|
    ensures Mapped(a, b, values)[lo..hi] == Mapped(a, b, values[lo..hi])
  {
  }

  lemma QuotientTransforms(a: real, b: real, rise: real, run: real)
    requires run != 0.0
    ensures (a * rise + b * run) / run == a * (rise / run) + b
  {
  }

  lemma SlopesTransform(s: seq<Entry>, a: real, b: real, c: real)
    requires |s| >= 1 && Grid(s)
    ensures Grid(Transformed(s, a, b, c))
    ensures Slopes(Transformed(s, a, b, c)) == Mapped(a, b, Slopes(s))
  {
    var t := Transformed(s, a, b, c);
    forall i | 0 <= i && i + 1 < |s|
      ensures t[i].x != t[i + 1].x && Slope(t, i) == Affine(a, b, Slope(s, i))
    {
      var rise, run := s[i + 1].u - s[i].u, s[i + 1].x - s[i].x;
      QuotientTransforms(a, b, rise, run);
      assert t[i + 1].u - t[i].u == a * rise + b * run;
      assert t[i + 1].x - t[i].x == run;
    }
  }

  lemma StepsTransform(slopes: seq<real>, p: Settings, a: real, b: real)
    requires a > 0.0
    ensures Steps(Mapped(a, b, slopes), p) == Mapped(a, 0.0, Steps(slopes, p))
  {
    hide Median, Mapped, Affine;
    forall i: nat | Reach(p) <= i && i + Reach(p) <= |slopes|
      ensures StepAt(Mapped(a, b, slopes), p, i) == Affine(a, 0.0, StepAt(slopes, p, i))
    {
      StepTransforms(slopes, p, a, b, i);
    }
    assert Affine(a, 0.0, 0.0) == 0.0 by {
      AffineZero(a);
    }
    MappedSteps(slopes, p, a, b);
  }

  lemma AffineZero(a: real)
    ensures Affine(a, 0.0, 0.0) == 0.0
  {
  }

  lemma MappedSteps(slopes: seq<real>, p: Settings, a: real, b: real)
    requires Affine(a, 0.0, 0.0) == 0.0
    requires forall i: nat :: Reach(p) <= i && i + Reach(p) <= |slopes|
                              ==> StepAt(Mapped(a, b, slopes), p, i) == Affine(a, 0.0, StepAt(slopes, p, i))
    ensures Steps(Mapped(a, b, slopes), p) == Mapped(a, 0.0, Steps(slopes, p))
  {
  }

  lemma StepTransforms(slopes: seq<real>, p: Settings, a: real, b: real, i: nat)
    requires a > 0.0 && Reach(p) <= i && i + Reach(p) <= |slopes|
    ensures StepAt(Mapped(a, b, slopes), p, i) == Affine(a, 0.0, StepAt(slopes, p, i))
  {
    hide Median, Mapped, Affine, Abs;
    var right, left := slopes[i + p.gap..i + p.gap + p.width], slopes[i - p.width - p.gap..i - p.gap];
    SliceMapped(a, b, slopes, i + p.gap, i + p.gap + p.width);
    SliceMapped(a, b, slopes, i - p.width - p.gap, i - p.gap);
    MedianMapped(a, b, right);
    MedianMapped(a, b, left);
    AffineGap(a, b, Median(right), Median(left));
    AffineZero(a);
    if p.width == 0 {
      NoMedian(right);
      NoMedian(left);
    }
  }

  lemma NoMedian(values: seq<real>)
    requires values == []
    ensures Median(values) == 0.0 && Abs(0.0 - 0.0) == 0.0
  {
  }

  lemma {:induction false} VariationTransforms(slopes: seq<real>, a: real, b: real, lo: nat, hi: nat)
    requires a > 0.0 && (hi < |slopes| || hi <= lo)
    ensures VariationOver(Mapped(a, b, slopes), lo, hi) == Affine(a, 0.0, VariationOver(slopes, lo, hi))
    decreases hi
  {
    if hi > lo {
      VariationTransforms(slopes, a, b, lo, hi - 1);
      AffineGap(a, b, slopes[hi], slopes[hi - 1]);
      AffineAdds(a, VariationOver(slopes, lo, hi - 1), Abs(slopes[hi] - slopes[hi - 1]));
      hide Affine, Abs;
    }
  }

  lemma AffineAdds(a: real, v: real, w: real)
    ensures Affine(a, 0.0, v) + Affine(a, 0.0, w) == Affine(a, 0.0, v + w)
  {
  }

  lemma FactorTransforms(a: real, factor: real, v: real, w: real)
    requires a > 0.0
    ensures Affine(a, 0.0, v) > factor * Affine(a, 0.0, w) <==> v > factor * w
  {
  }

  lemma MappedAt(a: real, b: real, values: seq<real>, i: nat)
    requires i < |values|
    ensures Mapped(a, b, values)[i] == Affine(a, b, values[i])
  {
  }

  lemma MedianScales(a: real, values: seq<real>)
    requires a > 0.0
    ensures Median(Mapped(a, 0.0, values)) == Affine(a, 0.0, Median(values))
  {
    hide Affine, Sort;
    MedianMapped(a, 0.0, values);
    AffineZero(a);
  }

  lemma PeaksTransform(steps: seq<real>, a: real, i: nat, j: nat)
    requires a > 0.0 && i < |steps| && j < |steps|
    ensures Mapped(a, 0.0, steps)[j] <= Mapped(a, 0.0, steps)[i] <==> steps[j] <= steps[i]
    ensures Mapped(a, 0.0, steps)[i] > 0.0 <==> steps[i] > 0.0
  {
  }

  /** A step exceeds its multiple of the median in the transformed profile just when it does in the original. */
  lemma ContrastTransforms(steps: seq<real>, factor: real, a: real, i: nat, lo: nat, hi: nat)
    requires a > 0.0 && i < |steps| && lo <= hi <= |steps|
    ensures Mapped(a, 0.0, steps)[i] > factor * Median(Mapped(a, 0.0, steps)[lo..hi])
            <==> steps[i] > factor * Median(steps[lo..hi])
  {
    hide *;
    SliceMapped(a, 0.0, steps, lo, hi);
    MedianScales(a, steps[lo..hi]);
    MappedAt(a, 0.0, steps, i);
    FactorTransforms(a, factor, steps[i], Median(steps[lo..hi]));
  }

  lemma LocalityTransforms(slopes: seq<real>, p: Settings, steps: seq<real>, a: real, b: real, i: nat)
    requires a > 0.0 && slopes != [] && i < |steps|
    ensures Variation(Mapped(a, b, slopes), p, i) > p.locality * Mapped(a, 0.0, steps)[i]
            <==> Variation(slopes, p, i) > p.locality * steps[i]
  {
    hide Affine, VariationOver, Mapped;
    VariationTransforms(slopes, a, b, i - MinNat(i, p.gap), MinNat(i + p.gap + 1, |slopes| - 1));
    MappedAt(a, 0.0, steps, i);
    FactorTransforms(a, p.locality, Variation(slopes, p, i), steps[i]);
  }

  lemma PassesTransforms(s: seq<Entry>, p: Settings, slopes: seq<real>, steps: seq<real>, i: nat,
                         a: real, b: real, c: real)
    requires a > 0.0 && slopes != [] && |steps| == |s| == |slopes| + 1 && Scanned(p, |s|, i)
    ensures Passes(Transformed(s, a, b, c), p, Mapped(a, b, slopes), Mapped(a, 0.0, steps), i)
            <==> Passes(s, p, slopes, steps, i)
  {
    hide Affine, Median, Variation, Mapped;
    ContrastTransforms(steps, p.contrast, a, i, i - MinNat(i, p.window), MinNat(i + p.window + 1, |s|));
    LocalityTransforms(slopes, p, steps, a, b, i);
    PeaksTransform(steps, a, i, i);
    forall j | 0 <= j < |s|
      ensures Mapped(a, 0.0, steps)[j] <= Mapped(a, 0.0, steps)[i] <==> steps[j] <= steps[i]
    {
      PeaksTransform(steps, a, i, j);
    }
  }

  lemma GridTransforms(s: seq<Entry>, a: real, b: real, c: real)
    requires Grid(s)
    ensures Grid(Transformed(s, a, b, c))
  {
  }

  lemma ShocksTransform(s: seq<Entry>, p: Settings, i: nat, a: real, b: real, c: real)
    requires a > 0.0 && Grid(s)
    ensures Grid(Transformed(s, a, b, c))
    ensures IsShock(Transformed(s, a, b, c), p, i) <==> IsShock(s, p, i)
  {
    GridTransforms(s, a, b, c);
    if |s| >= 2 * Reach(p) + 3 && Scanned(p, |s|, i) {
      SlopesTransform(s, a, b, c);
      StepsTransform(Slopes(s), p, a, b);
      PassesTransforms(s, p, Slopes(s), Steps(Slopes(s), p), i, a, b, c);
    }
  }

  /** Adding an affine function of the position, or scaling by a positive factor, never moves the shock. */
  lemma AffineInvariant(s: seq<Entry>, p: Settings, r: Option<nat>, a: real, b: real, c: real)
    requires a > 0.0 && Grid(s)
    ensures Grid(Transformed(s, a, b, c))
    ensures IsLowest(Transformed(s, a, b, c), p, r) <==> IsLowest(s, p, r)
  {
    hide IsShock, Transformed, Grid;
    ShocksTransform(s, p, 0, a, b, c);
    forall i: nat
      ensures IsShock(Transformed(s, a, b, c), p, i) <==> IsShock(s, p, i)
    {
      ShocksTransform(s, p, i, a, b, c);
    }
  }

  // ----- smooth profiles -----

  lemma MedianOfConstant(values: seq<real>, v: real)
    requires values != [] && forall k :: 0 <= k < |values| ==> values[k] == v
    ensures Median(values) == v
  {
    CountSame(values, v);
    MajorityMedian(values, v);
  }

  lemma LinearSlope(b: real, rise: real, run: real)
    requires run != 0.0 && rise == b * run
    ensures rise / run == b
  {
  }

  ghost predicate AffineProfile(s: seq<Entry>, b: real, c: real) {
    forall i :: 0 <= i < |s| ==> s[i].u == b * s[i].x + c
  }

  /** An affine profile has no shock, whatever the settings; neither has any profile when the medians are empty. */
  lemma SmoothHasNoShock(s: seq<Entry>, p: Settings, b: real, c: real)
    requires Grid(s) && (AffineProfile(s, b, c) || p.width == 0)
    ensures IsLowest(s, p, None)
  {
    forall i: nat
      ensures !IsShock(s, p, i)
    {
      if |s| >= 2 * Reach(p) + 3 && Scanned(p, |s|, i) {
        SmoothStep(s, p, b, c, i);
      }
    }
  }

  lemma AffineSlopes(s: seq<Entry>, b: real, c: real, k: nat)
    requires Grid(s) && AffineProfile(s, b, c) && k + 1 < |s|
    ensures Slope(s, k) == b
  {
  }

  lemma SmoothStep(s: seq<Entry>, p: Settings, b: real, c: real, i: nat)
    requires Grid(s) && (AffineProfile(s, b, c) || p.width == 0)
    requires |s| >= 1 && Reach(p) <= i && i + Reach(p) < |s|
    ensures Steps(Slopes(s), p)[i] == 0.0
  {
    hide Median, Slope, Grid, AffineProfile;
    var slopes := Slopes(s);
    var right, left := slopes[i + p.gap..i + p.gap + p.width], slopes[i - p.width - p.gap..i - p.gap];
    if p.width > 0 {
      forall k: nat | k + 1 < |s|
        ensures Slope(s, k) == b
      {
        AffineSlopes(s, b, c, k);
      }
      MedianOfConstant(right, b);
      MedianOfConstant(left, b);
    } else {
      NoMedian(right);
      NoMedian(left);
    }
  }

  // ----- an ideal kink -----

  /** A profile with slope `low` up to sample `m` and slope `high` from there on, on equal cells. */
  ghost predicate IdealKink(s: seq<Entry>, m: nat, low: real, high: real, cellWidth: real) {
    && low != high && cellWidth >= 0.0 && 1 <= m && m + 1 < |s|
    && (forall i :: 0 <= i < |s| ==> s[i].cellWidth == cellWidth)
    && (forall i :: 0 <= i && i + 1 < |s|
                    ==> s[i + 1].u - s[i].u == (if i < m then low else high) * (s[i + 1].x - s[i].x))
  }

  ghost predicate TwoSlopes(slopes: seq<real>, m: nat, low: real, high: real) {
    1 <= m < |slopes| && forall i :: 0 <= i < |slopes| ==> slopes[i] == if i < m then low else high
  }

  lemma KinkSlopes(s: seq<Entry>, m: nat, low: real, high: real, cellWidth: real)
    requires Grid(s) && IdealKink(s, m, low, high, cellWidth)
    ensures TwoSlopes(Slopes(s), m, low, high)
  {
    forall i | 0 <= i && i + 1 < |s|
      ensures Slope(s, i) == if i < m then low else high
    {
      assert s[i].x != s[i + 1].x;
      LinearSlope(if i < m then low else high, s[i + 1].u - s[i].u, s[i + 1].x - s[i].x);
    }
  }

  lemma {:induction false} KinkVariation(slopes: seq<real>, m: nat, low: real, high: real, lo: nat, hi: nat)
    requires TwoSlopes(slopes, m, low, high) && hi < |slopes|
    ensures VariationOver(slopes, lo, hi) == if lo < m <= hi then Abs(high - low) else 0.0
    decreases hi
  {
    if hi > lo {
      KinkVariation(slopes, m, low, high, lo, hi - 1);
    }
  }

  lemma MedianMember(values: seq<real>)
    requires values != []
    ensures exists k :: 0 <= k < |values| && values[k] == Median(values)
  {
    SortSorts(values);
    assert Median(values) in multiset(Sort(values));
    assert Median(values) in values;
  }

  /** A window's median is one of the two slopes, and clear once it has two thirds or more on one side. */
  lemma WindowMedian(slopes: seq<real>, m: nat, low: real, high: real, from: nat, to: nat)
    requires TwoSlopes(slopes, m, low, high) && from < to <= |slopes|
    ensures Median(slopes[from..to]) == low || Median(slopes[from..to]) == high
    ensures to <= m ==> Median(slopes[from..to]) == low
    ensures m <= from || (from + 1 == m && from + 3 <= to) ==> Median(slopes[from..to]) == high
  {
    hide Median;
    var window := slopes[from..to];
    MedianMember(window);
    if to <= m {
      MedianOfConstant(window, low);
    } else if m <= from {
      MedianOfConstant(window, high);
    } else if from + 1 == m && from + 3 <= to {
      CountSame(window[1..], high);
      assert window == [window[0]] + window[1..];
      MajorityMedian(window, high);
    }
  }

  /** Every step is zero or the whole jump, and zero once both windows lie on one side of the kink. */
  lemma KinkStep(slopes: seq<real>, p: Settings, m: nat, low: real, high: real, i: nat)
    requires TwoSlopes(slopes, m, low, high) && i <= |slopes| && p.width > 0
    ensures Steps(slopes, p)[i] == 0.0 || Steps(slopes, p)[i] == Abs(high - low)
    ensures i + Reach(p) <= m || m + Reach(p) <= i ==> Steps(slopes, p)[i] == 0.0
  {
    hide Median, TwoSlopes;
    if Reach(p) <= i && i + Reach(p) <= |slopes| {
      WindowMedian(slopes, m, low, high, i + p.gap, i + p.gap + p.width);
      WindowMedian(slopes, m, low, high, i - p.width - p.gap, i - p.gap);
    }
  }

  /** One cell more than the gap below the kink the right window holds a single slope of the left branch. */
  lemma KinkStepHere(slopes: seq<real>, p: Settings, m: nat, low: real, high: real)
    requires TwoSlopes(slopes, m, low, high) && p.width >= 3
    requires Reach(p) + p.gap + 1 <= m && m - p.gap - 1 + Reach(p) <= |slopes|
    ensures Steps(slopes, p)[m - p.gap - 1] == Abs(high - low)
  {
    hide Median, TwoSlopes;
    var i := m - p.gap - 1;
    WindowMedian(slopes, m, low, high, i + p.gap, i + p.gap + p.width);
    WindowMedian(slopes, m, low, high, i - p.width - p.gap, i - p.gap);
  }

  /** Around the kink most steps are zero, provided the neighbourhood is wide enough. */
  lemma KinkNeighbourhood(steps: seq<real>, lo: nat, hi: nat, from: nat, to: nat)
    requires lo <= hi <= |steps|
    requires forall j :: lo <= j < hi && !(from <= j < to) ==> steps[j] == 0.0
    requires from <= to && hi - lo > 2 * (to - from)
    ensures Median(steps[lo..hi]) == 0.0
  {
    hide Median;
    var a := if from <= lo then lo else if from <= hi then from else hi;
    var b := if to <= a then a else if to <= hi then to else hi;
    ZeroSlice(steps, lo, a);
    ZeroSlice(steps, b, hi);
    ThreeSlices(steps, lo, a, b, hi);
    MajorityMedian(steps[lo..hi], 0.0);
  }

  lemma ZeroSlice(steps: seq<real>, lo: nat, hi: nat)
    requires lo <= hi <= |steps| && forall j :: lo <= j < hi ==> steps[j] == 0.0
    ensures multiset(steps[lo..hi])[0.0] == hi - lo
  {
    CountSame(steps[lo..hi], 0.0);
  }

  lemma ThreeSlices(steps: seq<real>, lo: nat, a: nat, b: nat, hi: nat)
    requires lo <= a <= b <= hi <= |steps|
    ensures multiset(steps[lo..hi])[0.0] >= multiset(steps[lo..a])[0.0] + multiset(steps[b..hi])[0.0]
  {
    assert steps[lo..hi] == steps[lo..a] + steps[a..b] + steps[b..hi];
  }

  ghost predicate WideNeighbourhood(p: Settings, n: nat, i: nat)
    requires i < n
  {
    MinNat(i + p.window + 1, n) - (i - MinNat(i, p.window)) > 2 * (2 * Reach(p) - 1)
  }

  lemma NoShockBelow(s: seq<Entry>, p: Settings, m: nat, low: real, high: real, cellWidth: real, i: nat)
    requires Grid(s) && IdealKink(s, m, low, high, cellWidth) && p.width > 0 && p.locality >= 0.0
    requires i + p.gap + 1 < m || p.locality >= 1.0
    ensures !IsShock(s, p, i)
  {
    hide Median, VariationOver;
    if |s| >= 2 * Reach(p) + 3 && Scanned(p, |s|, i) {
      var slopes := Slopes(s);
      KinkSlopes(s, m, low, high, cellWidth);
      KinkStep(slopes, p, m, low, high, i);
      KinkVariation(slopes, m, low, high, i - MinNat(i, p.gap), MinNat(i + p.gap + 1, |slopes| - 1));
      LocalityFails(p.locality, Steps(slopes, p)[i], Variation(slopes, p, i), Abs(high - low));
    }
  }

  lemma LocalityFails(locality: real, step: real, variation: real, jump: real)
    requires locality >= 0.0 && jump >= 0.0 && (step == 0.0 || step == jump)
    requires variation == 0.0 || (variation == jump && locality >= 1.0)
    ensures step > 0.0 ==> !(variation > locality * step)
  {
  }

  /** Around the found cell: the step is the whole jump, the largest one, and most of its neighbours are zero. */
  lemma StepsAround(slopes: seq<real>, p: Settings, m: nat, low: real, high: real)
    requires TwoSlopes(slopes, m, low, high) && p.width >= 3 && p.gap + 1 <= m
    requires Scanned(p, |slopes| + 1, m - p.gap - 1) && WideNeighbourhood(p, |slopes| + 1, m - p.gap - 1)
    ensures var i, n, steps := m - p.gap - 1, |slopes| + 1, Steps(slopes, p);
            && steps[i] == Abs(high - low)
            && (forall j :: 0 <= j < n ==> steps[j] <= steps[i])
            && Median(steps[i - MinNat(i, p.window)..MinNat(i + p.window + 1, n)]) == 0.0
  {
    hide Median, TwoSlopes, Steps;
    var i, n := m - p.gap - 1, |slopes| + 1;
    KinkStepHere(slopes, p, m, low, high);
    forall j: nat | j <= |slopes|
      ensures Steps(slopes, p)[j] == 0.0 || Steps(slopes, p)[j] == Abs(high - low)
      ensures j + Reach(p) <= m || m + Reach(p) <= j ==> Steps(slopes, p)[j] == 0.0
    {
      KinkStep(slopes, p, m, low, high, j);
    }
    KinkNeighbourhood(Steps(slopes, p), i - MinNat(i, p.window), MinNat(i + p.window + 1, n),
                      m - Reach(p) + 1, m + Reach(p));
  }

  lemma AboveFactor(factor: real, level: real, v: real)
    requires level == 0.0 && v > 0.0
    ensures v > factor * level
  {
  }

  lemma AboveShare(share: real, level: real, v: real)
    requires share < 1.0 && v >= level > 0.0
    ensures v > share * level
  {
    var rest := 1.0 - share;
    assert rest * level > 0.0;
    assert share * level + rest * level == level;
  }

  lemma NoSpacing(left: real, right: real, cellWidth: real)
    requires left == right && cellWidth >= 0.0
    ensures Abs(right - left) <= 1e-12 * cellWidth
  {
  }

  lemma KinkCells(s: seq<Entry>, m: nat, low: real, high: real, cellWidth: real)
    requires IdealKink(s, m, low, high, cellWidth)
    ensures Abs(high - low) > 0.0 && cellWidth >= 0.0 && m + 1 < |s|
    ensures forall i :: 0 <= i < |s| ==> s[i].cellWidth == cellWidth
  {
  }

  lemma PassesHere(s: seq<Entry>, p: Settings, slopes: seq<real>, steps: seq<real>, i: nat, cellWidth: real)
    requires slopes != [] && |steps| == |s| == |slopes| + 1 && Scanned(p, |s|, i)
    requires steps[i] > 0.0 && p.locality < 1.0 && cellWidth >= 0.0
    requires forall j :: 0 <= j < |s| ==> s[j].cellWidth == cellWidth
    requires forall j :: 0 <= j < |s| ==> steps[j] <= steps[i]
    requires Median(steps[i - MinNat(i, p.window)..MinNat(i + p.window + 1, |s|)]) == 0.0
    requires Variation(slopes, p, i) == steps[i]
    ensures Passes(s, p, slopes, steps, i)
  {
    hide Median, VariationOver, Variation;
    var m := Median(steps[i - MinNat(i, p.window)..MinNat(i + p.window + 1, |s|)]);
    AboveFactor(p.contrast, m, steps[i]);
    AboveShare(p.locality, steps[i], Variation(slopes, p, i));
    NoSpacing(s[i - Reach(p)].cellWidth, s[i + Reach(p)].cellWidth, s[i].cellWidth);
    hide Abs;
  }

  lemma ShockHere(s: seq<Entry>, p: Settings, m: nat, low: real, high: real, cellWidth: real)
    requires Grid(s) && IdealKink(s, m, low, high, cellWidth) && p.width >= 3 && p.locality < 1.0
    requires |s| >= 2 * Reach(p) + 3
    requires p.gap + 1 <= m && Scanned(p, |s|, m - p.gap - 1) && WideNeighbourhood(p, |s|, m - p.gap - 1)
    ensures IsShock(s, p, m - p.gap - 1)
  {
    hide Median, VariationOver, WideNeighbourhood, Slope, TwoSlopes, Slopes, Steps, IdealKink, Grid, Abs, Passes;
    var i := m - p.gap - 1;
    var slopes := Slopes(s);
    KinkCells(s, m, low, high, cellWidth);
    KinkSlopes(s, m, low, high, cellWidth);
    assert |s| == |slopes| + 1;
    StepsAround(slopes, p, m, low, high);
    KinkVariation(slopes, m, low, high, i - MinNat(i, p.gap), MinNat(i + p.gap + 1, |slopes| - 1));
    PassesHere(s, p, slopes, Steps(slopes, p), i, cellWidth);
  }

  /** An ideal kink is reported one cell more than the gap below it, exactly when the locality demand is below 1. */
  lemma IdealKinkFound(s: seq<Entry>, p: Settings, m: nat, low: real, high: real, cellWidth: real)
    requires Grid(s) && IdealKink(s, m, low, high, cellWidth) && p.width >= 3 && p.locality >= 0.0
    requires |s| >= 2 * Reach(p) + 3
    requires p.gap + 1 <= m && Scanned(p, |s|, m - p.gap - 1) && WideNeighbourhood(p, |s|, m - p.gap - 1)
    ensures IsLowest(s, p, if p.locality < 1.0 then Some(m - p.gap - 1) else None)
  {
    hide IsShock, IdealKink, Scanned, WideNeighbourhood, Grid;
    forall i: nat | i + p.gap + 1 < m || p.locality >= 1.0
      ensures !IsShock(s, p, i)
    {
      NoShockBelow(s, p, m, low, high, cellWidth, i);
    }
    if p.locality < 1.0 {
      ShockHere(s, p, m, low, high, cellWidth);
    }
  }

  /** So the sample the extractors use lies at or above the kink exactly when the offset exceeds the gap. */
  lemma ExtractorsAboveKink(s: seq<Entry>, p: Settings, m: nat)
    requires p.gap + 1 <= m < |s| && forall i, j :: 0 <= i < j < |s| ==> s[i].x < s[j].x
    ensures s[MinNat(m - p.gap - 1 + p.offsetCells, |s| - 1)].x >= s[m].x <==> p.offsetCells > p.gap
  {
  }
}
