/**
 * Finding the lowest kink of a sampled profile: the slopes left and right of every cell are compared through their
 * medians, and the first cell whose step passes four tests is reported. Arithmetic is exact.
 */
module KinkDetector {
  import opened Prelude

  datatype Entry = Entry(x: real, u: real, cellWidth: real)

  datatype Settings = Settings(contrast: real, locality: real, gap: nat, width: nat, window: nat, edgeCells: nat,
                               offsetCells: nat)

  /** Neighbouring cell centres differ. */
  ghost predicate Grid(s: seq<Entry>) {
    forall i :: 0 <= i && i + 1 < |s| ==> s[i].x != s[i + 1].x
  }

  // ----- medians -----

  function Insert(v: real, sorted: seq<real>): (r: seq<real>)
    ensures |r| == |sorted| + 1
  {
    if sorted == [] || v <= sorted[0] then [v] + sorted else [sorted[0]] + Insert(v, sorted[1..])
  }

  function Sort(values: seq<real>): (r: seq<real>)
    ensures |r| == |values|
  {
    if values == [] then [] else Insert(values[0], Sort(values[1..]))
  }

  /** The entry in the middle of the sorted values, the upper one of an even number, 0 of none. */
  function Median(values: seq<real>): real {
    if values == [] then 0.0 else Sort(values)[|values| / 2]
  }

  ghost predicate Sorted(s: seq<real>) {
    forall i, j :: 0 <= i <= j < |s| ==> s[i] <= s[j]
  }

  lemma {:induction false} InsertAdds(v: real, sorted: seq<real>)
    ensures multiset(Insert(v, sorted)) == multiset(sorted) + multiset{v}
  {
    if !(sorted == [] || v <= sorted[0]) {
      InsertAdds(v, sorted[1..]);
      assert sorted == [sorted[0]] + sorted[1..];
    }
  }

  lemma {:induction false} InsertSorts(v: real, sorted: seq<real>)
    requires Sorted(sorted)
    ensures Sorted(Insert(v, sorted))
    ensures sorted != [] ==> Insert(v, sorted)[0] == Min(sorted[0], v)
  {
    if !(sorted == [] || v <= sorted[0]) {
      InsertSorts(v, sorted[1..]);
    }
  }

  lemma {:induction false} SortSorts(values: seq<real>)
    ensures Sorted(Sort(values)) && multiset(Sort(values)) == multiset(values)
  {
    if values != [] {
      SortSorts(values[1..]);
      InsertSorts(values[0], Sort(values[1..]));
      InsertAdds(values[0], Sort(values[1..]));
      assert values == [values[0]] + values[1..];
    }
  }

  lemma LeastFirst(a: seq<real>, b: seq<real>)
    requires Sorted(a) && a != [] && b != [] && multiset(a) == multiset(b)
    ensures a[0] <= b[0]
  {
    assert b[0] in multiset(b);
    assert b[0] in a;
  }

  lemma TailBag(a: seq<real>)
    requires a != []
    ensures multiset(a[1..]) == multiset(a) - multiset{a[0]}
  {
    assert a == [a[0]] + a[1..];
  }

  lemma {:induction false} SortedUnique(a: seq<real>, b: seq<real>)
    requires Sorted(a) && Sorted(b) && multiset(a) == multiset(b)
    ensures a == b
  {
    assert |multiset(a)| == |a| && |multiset(b)| == |b|;
    if a != [] {
      LeastFirst(a, b);
      LeastFirst(b, a);
      TailBag(a);
      TailBag(b);
      SortedUnique(a[1..], b[1..]);
      assert a == [a[0]] + a[1..] && b == [b[0]] + b[1..];
    }
  }

  /** A rearrangement with nothing larger before position `middle` and nothing smaller after it. */
  ghost predicate PartitionedAt(values: seq<real>, arranged: seq<real>, middle: nat) {
    && multiset(arranged) == multiset(values)
    && middle < |arranged|
    && (forall k :: 0 <= k < middle ==> arranged[k] <= arranged[middle])
    && (forall k :: middle < k < |arranged| ==> arranged[middle] <= arranged[k])
  }

  lemma JoinSorted(low: seq<real>, pivot: real, high: seq<real>)
    requires Sorted(low) && Sorted(high)
    requires forall k :: 0 <= k < |low| ==> low[k] <= pivot
    requires forall k :: 0 <= k < |high| ==> pivot <= high[k]
    ensures Sorted(low + [pivot] + high)
  {
  }

  /** Whatever order a selection algorithm leaves its argument in, the middle entry is the median. */
  lemma MedianOfPartition(values: seq<real>, arranged: seq<real>)
    requires values != [] && PartitionedAt(values, arranged, |values| / 2)
    ensures arranged[|values| / 2] == Median(values)
  {
    hide Sort, Sorted;
    var middle := |values| / 2;
    var low, high := arranged[..middle], arranged[middle + 1..];
    var pivot := arranged[middle];
    assert arranged == low + [pivot] + high;
    SortSorts(low);
    SortSorts(high);
    SortSorts(values);
    BoundsSurviveSort(low, pivot);
    BoundsSurviveSort(high, pivot);
    JoinSorted(Sort(low), pivot, Sort(high));
    var whole := Sort(low) + [pivot] + Sort(high);
    assert multiset(whole) == multiset(values);
    SortedUnique(whole, Sort(values));
    assert whole[middle] == pivot;
  }

  lemma BoundsSurviveSort(values: seq<real>, bound: real)
    ensures (forall k :: 0 <= k < |values| ==> values[k] <= bound)
            ==> forall k :: 0 <= k < |values| ==> Sort(values)[k] <= bound
    ensures (forall k :: 0 <= k < |values| ==> bound <= values[k])
            ==> forall k :: 0 <= k < |values| ==> bound <= Sort(values)[k]
  {
    SortSorts(values);
    forall k | 0 <= k < |values|
      ensures Sort(values)[k] in values
    {
      assert Sort(values)[k] in multiset(Sort(values));
      assert Sort(values)[k] in multiset(values);
    }
  }

  lemma {:induction false} Absent(s: seq<real>, v: real)
    requires forall k :: 0 <= k < |s| ==> s[k] != v
    ensures multiset(s)[v] == 0
  {
  }

  lemma {:induction false} CountBound(s: seq<real>, v: real)
    ensures multiset(s)[v] <= |s|
  {
  }

  lemma CountAbove(sorted: seq<real>, v: real, m: nat)
    requires Sorted(sorted) && m < |sorted|
    ensures sorted[m] < v ==> multiset(sorted)[v] <= |sorted| - m - 1
    ensures sorted[m] > v ==> multiset(sorted)[v] <= m
  {
    if sorted[m] < v {
      var low, high := sorted[..m + 1], sorted[m + 1..];
      assert sorted == low + high;
      Absent(low, v);
      CountBound(high, v);
    } else if sorted[m] > v {
      var low, high := sorted[..m], sorted[m..];
      assert sorted == low + high;
      Absent(high, v);
      CountBound(low, v);
    }
  }

  /** A value held by more than half of the entries is the median. */
  lemma MajorityMedian(values: seq<real>, v: real)
    requires 2 * multiset(values)[v] > |values|
    ensures Median(values) == v
  {
    CountBound(values, v);
    SortSorts(values);
    CountAbove(Sort(values), v, |values| / 2);
  }

  lemma {:induction false} CountSame(s: seq<real>, v: real)
    requires forall k :: 0 <= k < |s| ==> s[k] == v
    ensures multiset(s)[v] == |s|
  {
    if s != [] {
      CountSame(s[1..], v);
      assert s == [s[0]] + s[1..];
    }
  }

  // ----- what the detector measures -----

  function Reach(p: Settings): nat {
    p.width + p.gap
  }

  function Slope(s: seq<Entry>, i: nat): real
    requires i + 1 < |s| && Grid(s)
  {
    assert s[i].x != s[i + 1].x;
    (s[i + 1].u - s[i].u) / (s[i + 1].x - s[i].x)
  }

  function Slopes(s: seq<Entry>): (r: seq<real>)
    requires |s| >= 1 && Grid(s)
    ensures |r| == |s| - 1
  {
    seq(|s| - 1, i requires 0 <= i < |s| - 1 => Slope(s, i))
  }

  function StepAt(slopes: seq<real>, p: Settings, i: nat): real
    requires Reach(p) <= i && i + Reach(p) <= |slopes|
  {
    Abs(Median(slopes[i + p.gap..i + p.gap + p.width]) - Median(slopes[i - p.width - p.gap..i - p.gap]))
  }

  /** One step per cell; zero where a window would leave the profile. */
  function Steps(slopes: seq<real>, p: Settings): (r: seq<real>)
    ensures |r| == |slopes| + 1
  {
    seq(|slopes| + 1, i requires 0 <= i <= |slopes|
                      => if Reach(p) <= i && i + Reach(p) <= |slopes| then StepAt(slopes, p, i) else 0.0)
  }

  function MinNat(a: nat, b: nat): nat {
    if a < b then a else b
  }

  /** The summed change of slope between `lo` and `hi`. */
  function VariationOver(slopes: seq<real>, lo: nat, hi: nat): real
    requires hi < |slopes| || hi <= lo
    decreases hi
  {
    if hi <= lo then 0.0 else VariationOver(slopes, lo, hi - 1) + Abs(slopes[hi] - slopes[hi - 1])
  }

  function Variation(slopes: seq<real>, p: Settings, i: nat): real
    requires slopes != []
  {
    VariationOver(slopes, i - MinNat(i, p.gap), MinNat(i + p.gap + 1, |slopes| - 1))
  }

  predicate Scanned(p: Settings, n: nat, i: nat) {
    p.edgeCells + Reach(p) <= i && i + Reach(p) < n
  }

  ghost predicate Passes(s: seq<Entry>, p: Settings, slopes: seq<real>, steps: seq<real>, i: nat)
    requires slopes != [] && |steps| == |s| == |slopes| + 1 && Scanned(p, |s|, i)
  {
    && steps[i] > 0.0
    && Abs(s[i + Reach(p)].cellWidth - s[i - Reach(p)].cellWidth) <= 1e-12 * s[i].cellWidth
    && (forall j :: i - p.width <= j < MinNat(i + p.width + 1, |s|) ==> steps[j] <= steps[i])
    && steps[i] > p.contrast * Median(steps[i - MinNat(i, p.window)..MinNat(i + p.window + 1, |s|)])
    && Variation(slopes, p, i) > p.locality * steps[i]
  }

  ghost predicate IsShock(s: seq<Entry>, p: Settings, i: nat)
    requires Grid(s)
  {
    && |s| >= 2 * Reach(p) + 3
    && Scanned(p, |s|, i)
    && Passes(s, p, Slopes(s), Steps(Slopes(s), p), i)
  }

  /** The least shock, or none. */
  ghost predicate IsLowest(s: seq<Entry>, p: Settings, r: Option<nat>)
    requires Grid(s)
  {
    match r
    case None => forall i: nat :: !IsShock(s, p, i)
    case Some(i) => IsShock(s, p, i) && forall j: nat :: j < i ==> !IsShock(s, p, j)
  }

  // ----- the detector -----

  method MedianOf(values: seq<real>) returns (m: real)
    ensures m == Median(values)
  {
    if values == [] {
      return 0.0;
    }
    var middle := |values| / 2;
    var arranged := NthElement(values, middle);
    MedianOfPartition(values, arranged);
    return arranged[middle];
  }

  /** Stands for the library's selection: any arrangement around the middle entry would do. */
  method NthElement(values: seq<real>, middle: nat) returns (arranged: seq<real>)
    requires middle < |values|
    ensures PartitionedAt(values, arranged, middle)
  {
    SortSorts(values);
    arranged := Sort(values);
  }

  method MaxElement(values: seq<real>) returns (m: real)
    requires values != []
    ensures m in values && forall k :: 0 <= k < |values| ==> values[k] <= m
  {
    m := values[0];
    for k := 1 to |values|
      invariant m in values && forall j :: 0 <= j < k ==> values[j] <= m
    {
      if values[k] > m {
        m := values[k];
      }
    }
  }

  method ComputeSlopes(s: seq<Entry>) returns (slope: array<real>)
    requires |s| >= 1 && Grid(s)
    ensures fresh(slope) && slope[..] == Slopes(s)
  {
    slope := new real[|s| - 1];
    for i := 0 to |s| - 1
      invariant forall k :: 0 <= k < i ==> slope[k] == Slope(s, k)
    {
      assert s[i].x != s[i + 1].x;
      slope[i] := (s[i + 1].u - s[i].u) / (s[i + 1].x - s[i].x);
    }
  }

  method ComputeVariation(slopes: seq<real>, p: Settings, i: nat) returns (variation: real)
    requires slopes != []
    ensures variation == Variation(slopes, p, i)
  {
    variation := 0.0;
    var lo := i - MinNat(i, p.gap);
    var hi := MinNat(i + p.gap + 1, |slopes| - 1);
    var j := lo;
    while j < hi
      invariant lo <= j && (j <= hi || j == lo)
      invariant variation == VariationOver(slopes, lo, j)
    {
      variation := variation + Abs(slopes[j + 1] - slopes[j]);
      j := j + 1;
    }
  }

  method Measure(slopes: seq<real>, p: Settings) returns (step: array<real>, variation: array<real>)
    requires slopes != []
    ensures fresh(step) && fresh(variation) && step[..] == Steps(slopes, p) && variation.Length == |slopes| + 1
    ensures forall i: nat :: i <= |slopes| ==>
              variation[i] == if Reach(p) <= i <= |slopes| - Reach(p) then Variation(slopes, p, i) else 0.0
  {
    hide Median, VariationOver;
    var n := |slopes| + 1;
    step := new real[n](_ => 0.0);
    variation := new real[n](_ => 0.0);
    var i := Reach(p);
    while i + Reach(p) < n
      invariant Reach(p) <= i
      invariant forall k :: 0 <= k < n ==> step[k] == if Reach(p) <= k < i && k + Reach(p) < n
                                                      then StepAt(slopes, p, k) else 0.0
      invariant forall k: nat :: k < n ==> variation[k] == if Reach(p) <= k < i && k + Reach(p) < n
                                                           then Variation(slopes, p, k) else 0.0
    {
      var left := MedianOf(slopes[i - p.width - p.gap..i - p.gap]);
      var right := MedianOf(slopes[i + p.gap..i + p.gap + p.width]);
      step[i] := Abs(right - left);
      variation[i] := ComputeVariation(slopes, p, i);
      i := i + 1;
    }
    assert step[..] == Steps(slopes, p);
  }

  method CheckCandidate(s: seq<Entry>, p: Settings, slopes: seq<real>, steps: seq<real>, variation: real, i: nat)
    returns (passes: bool)
    requires slopes != [] && |steps| == |s| == |slopes| + 1 && Scanned(p, |s|, i)
    requires variation == Variation(slopes, p, i)
    ensures passes <==> Passes(s, p, slopes, steps, i)
  {
    hide Median, VariationOver;
    if !(steps[i] > 0.0) {
      return false;
    }
    if Abs(s[i + Reach(p)].cellWidth - s[i - Reach(p)].cellWidth) > 1e-12 * s[i].cellWidth {
      return false;
    }
    var lo, hi := i - p.width, MinNat(i + p.width + 1, |s|);
    var largest := MaxElement(steps[lo..hi]);
    assert forall j :: lo <= j < hi ==> steps[j] == steps[lo..hi][j - lo];
    if largest > steps[i] {
      return false;
    }
    var neighbourhood := steps[i - MinNat(i, p.window)..MinNat(i + p.window + 1, |s|)];
    var m := MedianOf(neighbourhood);
    if !(steps[i] > p.contrast * m) {
      return false;
    }
    return variation > p.locality * steps[i];
  }

  method FindLowestShock(s: seq<Entry>, p: Settings) returns (r: Option<nat>)
    requires Grid(s)
    ensures IsLowest(s, p, r)
  {
    hide Passes, Slopes, Steps, Variation;
    var n := |s|;
    if n < 2 * Reach(p) + 3 {
      return None;
    }
    var slope := ComputeSlopes(s);
    var slopes := slope[..];
    var step, variation := Measure(slopes, p);
    var steps := step[..];
    var i := p.edgeCells + Reach(p);
    while i + Reach(p) < n
      invariant p.edgeCells + Reach(p) <= i
      invariant forall j: nat :: j < i ==> !IsShock(s, p, j)
      modifies {}
    {
      var passes := CheckCandidate(s, p, slopes, steps, variation[i], i);
      if passes {
        return Some(i);
      }
      i := i + 1;
    }
    return None;
  }

  /** Where the extractors are read off: a few cells above the kink, or the given point of a smooth profile. */
  method ExtractorPoint(eom: real, s: seq<Entry>, p: Settings) returns (x: real)
    requires Grid(s)
    ensures (exists i: nat :: IsShock(s, p, i))
            ==> exists i: nat :: i < |s| && IsLowest(s, p, Some(i)) && x == s[MinNat(i + p.offsetCells, |s| - 1)].x
    ensures (forall i: nat :: !IsShock(s, p, i)) ==> x == eom
  {
    hide Passes, Slopes, Steps, Variation, Grid;
    var shock := FindLowestShock(s, p);
    match shock
    case None => x := eom;
    case Some(i) => x := s[MinNat(i + p.offsetCells, |s| - 1)].x;
  }
}
