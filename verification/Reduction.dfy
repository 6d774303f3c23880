/**
 TBBReduction (DiFfRG/include/DiFfRG/common/tbb.hh): a row-major odometer over an index grid, summed serially below a
 cutoff and in a fixed midpoint-split tree above it. The addition is any function: it need not be associative.
 */
module Reduction {
  import opened Slots

  // ----- row-major indices -----

  function Size(g: seq<nat>): nat {
    if g == [] then 1 else Area(g[0], Size(g[1..]))
  }

  predicate Positive(g: seq<nat>) {
    forall d :: 0 <= d < |g| ==> g[d] > 0
  }

  predicate InGrid(g: seq<nat>, idx: seq<nat>) {
    |idx| == |g| && forall d :: 0 <= d < |g| ==> idx[d] < g[d]
  }

  function Flat(g: seq<nat>, idx: seq<nat>): nat
    requires |idx| == |g|
  {
    if g == [] then 0 else Slot(idx[0], Size(g[1..]), Flat(g[1..], idx[1..]))
  }

  lemma {:induction false} SizeZero(g: seq<nat>)
    ensures Size(g) == 0 <==> !Positive(g)
  {
    if g != [] {
      SizeZero(g[1..]);
      assert Positive(g) <==> g[0] > 0 && Positive(g[1..]);
      AreaZero(g[0], Size(g[1..]));
    }
  }

  lemma {:induction false} FlatBelowSize(g: seq<nat>, idx: seq<nat>)
    requires InGrid(g, idx)
    ensures Flat(g, idx) < Size(g)
  {
    hide Slot, Area;
    if g != [] {
      FlatBelowSize(g[1..], idx[1..]);
      SlotBound(idx[0], g[0], Size(g[1..]), Flat(g[1..], idx[1..]));
    }
  }

  /** Distinct multi-indices have distinct flat indices. */
  lemma {:induction false} FlatInjective(g: seq<nat>, a: seq<nat>, b: seq<nat>)
    requires InGrid(g, a) && InGrid(g, b) && Flat(g, a) == Flat(g, b)
    ensures a == b
  {
    hide Slot, Area;
    if g != [] {
      FlatBelowSize(g[1..], a[1..]);
      FlatBelowSize(g[1..], b[1..]);
      SlotUnique(a[0], Flat(g[1..], a[1..]), b[0], Flat(g[1..], b[1..]), Size(g[1..]));
      FlatInjective(g[1..], a[1..], b[1..]);
      assert a == [a[0]] + a[1..] && b == [b[0]] + b[1..];
    }
  }

  /** Row-major: the first differing entry decides the order. */
  lemma {:induction false} FlatOrder(g: seq<nat>, a: seq<nat>, b: seq<nat>, d: nat)
    requires InGrid(g, a) && InGrid(g, b) && d < |g| && a[..d] == b[..d] && a[d] < b[d]
    ensures Flat(g, a) < Flat(g, b)
  {
    hide Slot, Area;
    var n := Size(g[1..]);
    FlatBelowSize(g[1..], a[1..]);
    if d == 0 {
      SlotOrder(a[0], Flat(g[1..], a[1..]), b[0], Flat(g[1..], b[1..]), n);
    } else {
      assert a[0] == a[..d][0] == b[0] && a[1..][..d - 1] == a[..d][1..] == b[1..][..d - 1];
      FlatOrder(g[1..], a[1..], b[1..], d - 1);
      SlotOrder(a[0], Flat(g[1..], a[1..]), b[0], Flat(g[1..], b[1..]), n);
    }
  }

  /** The multi-index of a flat index. */
  function Unflat(g: seq<nat>, k: nat): (idx: seq<nat>)
    requires Positive(g)
    ensures |idx| == |g|
  {
    if g == [] then []
    else
      SizeZero(g[1..]);
      [SlotColumn(k, Size(g[1..]))] + Unflat(g[1..], SlotPoint(k, Size(g[1..])))
  }

  lemma {:induction false} UnflatFlat(g: seq<nat>, k: nat)
    requires Positive(g) && k < Size(g)
    ensures InGrid(g, Unflat(g, k)) && Flat(g, Unflat(g, k)) == k
  {
    hide Slot, Area, SlotColumn, SlotPoint;
    if g != [] {
      SizeZero(g[1..]);
      var n := Size(g[1..]);
      SlotSplit(k, g[0], n);
      UnflatFlat(g[1..], SlotPoint(k, n));
      assert Unflat(g, k)[1..] == Unflat(g[1..], SlotPoint(k, n));
    }
  }

  /** Flattening and unflattening undo each other. */
  lemma FlatUnflat(g: seq<nat>, idx: seq<nat>)
    requires Positive(g) && InGrid(g, idx)
    ensures Unflat(g, Flat(g, idx)) == idx
  {
    FlatBelowSize(g, idx);
    UnflatFlat(g, Flat(g, idx));
    FlatInjective(g, Unflat(g, Flat(g, idx)), idx);
  }

  /** The flat index of the leading entries selects a block, that of the others a place in it. */
  lemma {:induction false} FlatSplit(g: seq<nat>, idx: seq<nat>, d: nat)
    requires |idx| == |g| && d <= |g|
    ensures Size(g) == Area(Size(g[..d]), Size(g[d..]))
    ensures Flat(g, idx) == Slot(Flat(g[..d], idx[..d]), Size(g[d..]), Flat(g[d..], idx[d..]))
  {
    if d == 0 {
      assert g[0..] == g && idx[0..] == idx;
    } else {
      hide Slot, Area;
      FlatSplit(g[1..], idx[1..], d - 1);
      assert g[1..][..d - 1] == g[..d][1..] && g[1..][d - 1..] == g[d..];
      assert idx[1..][..d - 1] == idx[..d][1..] && idx[1..][d - 1..] == idx[d..];
      var head, rest := Size(g[..d][1..]), Size(g[d..]);
      AreaNested(g[0], head, rest);
      SlotNested(idx[0], head, Flat(g[..d][1..], idx[..d][1..]), rest, Flat(g[d..], idx[d..]));
    }
  }

  // ----- the odometer -----

  method UnflattenIndex(flat: nat, g: seq<nat>, idx: array<nat>)
    requires Positive(g) && idx.Length == |g|
    modifies idx
    ensures InGrid(g, idx[..])
    ensures exists q: nat :: Slot(q, Size(g), Flat(g, idx[..])) == flat
    ensures flat < Size(g) ==> idx[..] == Unflat(g, flat)
  {
    var rest := flat;
    var d := |g|;
    assert g[d..] == [] && idx[d..] == [];
    assert Slot(rest, 1, 0) == flat;
    while d > 0
      invariant 0 <= d <= |g|
      invariant InGrid(g[d..], idx[d..])
      invariant Slot(rest, Size(g[d..]), Flat(g[d..], idx[d..])) == flat
    {
      d := d - 1;
      DigitStep(g, idx[d + 1..], d, rest);
      ghost var tail := idx[d + 1..];
      idx[d] := rest % g[d];
      rest := rest / g[d];
      assert idx[d..] == [idx[d]] + tail;
    }
    assert g[0..] == g && idx[0..] == idx[..];
    if flat < Size(g) {
      FlatBelowSize(g, idx[..]);
      assert Slot(0, Size(g), flat) == flat;
      SlotUnique(rest, Flat(g, idx[..]), 0, flat, Size(g));
      FlatUnflat(g, idx[..]);
    }
  }

  /** Taking one digit off the front index keeps the whole index. */
  lemma DigitStep(g: seq<nat>, tail: seq<nat>, d: nat, rest: nat)
    requires d < |g| && g[d] > 0 && InGrid(g[d + 1..], tail)
    ensures InGrid(g[d..], [rest % g[d]] + tail)
    ensures Slot(rest / g[d], Size(g[d..]), Flat(g[d..], [rest % g[d]] + tail)) ==
            Slot(rest, Size(g[d + 1..]), Flat(g[d + 1..], tail))
  {
    var idx := [rest % g[d]] + tail;
    assert rest == Slot(rest / g[d], g[d], rest % g[d]);
    hide Slot, Area;
    assert g[d..][1..] == g[d + 1..] && idx[1..] == tail;
    SlotNested(rest / g[d], g[d], rest % g[d], Size(g[d + 1..]), Flat(g[d + 1..], tail));
  }

  /** One step of the odometer: the next flat index, or all zeros after the last one. */
  method AdvanceIndex(g: seq<nat>, idx: array<nat>)
    requires InGrid(g, idx[..])
    modifies idx
    ensures InGrid(g, idx[..])
    ensures Flat(g, idx[..]) == if Flat(g, old(idx[..])) + 1 < Size(g) then Flat(g, old(idx[..])) + 1 else 0
  {
    hide Flat, Size;
    ghost var before := idx[..];
    var d := |g|;
    EmptyGrid(g[d..], idx[d..]);
    while d > 0
      invariant 0 <= d <= |g| == idx.Length
      invariant idx[..d] == before[..d] && InGrid(g, idx[..])
      invariant Flat(g[d..], idx[d..]) == 0 && Flat(g[d..], before[d..]) + 1 == Size(g[d..])
    {
      d := d - 1;
      ghost var zeros := idx[d + 1..];
      Carry(g, before, zeros, d);
      idx[d] := idx[d] + 1;
      if idx[d] < g[d] {
        assert idx[..] == before[..d] + [before[d] + 1] + zeros;
        NoCarry(g, before, zeros, d);
        return;
      }
      idx[d] := 0;
      assert idx[d..] == [0] + zeros;
    }
    assert g[0..] == g && idx[0..] == idx[..] && before[0..] == before;
  }

  lemma EmptyGrid(g: seq<nat>, idx: seq<nat>)
    requires g == [] == idx
    ensures Flat(g, idx) == 0 && Size(g) == 1
  {
  }

  /** All digits after d are at their last value: digit d is next, and carries if it is, too. */
  lemma {:induction false} Carry(g: seq<nat>, before: seq<nat>, zeros: seq<nat>, d: nat)
    requires |before| == |g| && d < |g| && |zeros| == |g| - d - 1
    requires Flat(g[d + 1..], zeros) == 0 && Flat(g[d + 1..], before[d + 1..]) + 1 == Size(g[d + 1..])
    ensures Flat(g[d..], before[d..]) + 1 == Flat(g[d..], [before[d] + 1] + zeros)
    ensures before[d] + 1 == g[d] ==> Flat(g[d..], before[d..]) + 1 == Size(g[d..])
    ensures Flat(g[d..], [0] + zeros) == 0
  {
    assert g[d..][1..] == g[d + 1..] && before[d..][1..] == before[d + 1..];
    assert ([before[d] + 1] + zeros)[1..] == zeros == ([0] + zeros)[1..];
    var n := Size(g[d + 1..]);
    assert (before[d] + 1) * n == before[d] * n + n;
  }

  /** Digit d does not carry: what the array then holds is the next flat index. */
  lemma NoCarry(g: seq<nat>, before: seq<nat>, zeros: seq<nat>, d: nat)
    requires InGrid(g, before) && d < |g| && InGrid(g[d + 1..], zeros) && before[d] + 1 < g[d]
    requires Flat(g[d..], before[d..]) + 1 == Flat(g[d..], [before[d] + 1] + zeros)
    ensures InGrid(g, before[..d] + [before[d] + 1] + zeros)
    ensures Flat(g, before[..d] + [before[d] + 1] + zeros) == Flat(g, before) + 1 < Size(g)
  {
    var after := before[..d] + [before[d] + 1] + zeros;
    assert after[..d] == before[..d] && after[d..] == [before[d] + 1] + zeros;
    forall k | 0 <= k < |g|
      ensures after[k] < g[k]
    {
      if k > d {
        assert after[k] == zeros[k - d - 1] && g[k] == g[d + 1..][k - d - 1];
      }
    }
    FlatSplit(g, before, d);
    FlatSplit(g, after, d);
    FlatBelowSize(g, after);
  }

  /** From the multi-index of k the odometer steps to the multi-index of k + 1. */
  lemma StepIsSuccessor(g: seq<nat>, k: nat, idx: seq<nat>)
    requires Positive(g) && k + 1 < Size(g) && InGrid(g, idx)
    requires Flat(g, idx) == if Flat(g, Unflat(g, k)) + 1 < Size(g) then Flat(g, Unflat(g, k)) + 1 else 0
    ensures idx == Unflat(g, k + 1)
  {
    UnflatFlat(g, k);
    UnflatFlat(g, k + 1);
    FlatInjective(g, idx, Unflat(g, k + 1));
  }

  // ----- summation -----

  /** An addition, its starting value, and the summand at a multi-index. */
  datatype Summation<!V> = Summation(add: (V, V) -> V, zero: V, f: seq<nat> -> V)

  /** The strictly left-to-right sum over the flat indices from b to e. */
  function Serial<V>(s: Summation<V>, g: seq<nat>, b: nat, e: nat): V
    requires Positive(g) && b <= e
    decreases e - b
  {
    if b == e then s.zero else s.add(Serial(s, g, b, e - 1), s.f(Unflat(g, e - 1)))
  }

  method SerialSum<V>(s: Summation<V>, g: seq<nat>, b: nat, e: nat) returns (value: V)
    requires Positive(g) && b <= e <= Size(g)
    ensures value == Serial(s, g, b, e)
  {
    hide Flat, Size;
    var idx := new nat[|g|];
    UnflattenIndex(b, g, idx);
    value := s.zero;
    for flat := b to e
      invariant value == Serial(s, g, b, flat)
      invariant InGrid(g, idx[..]) && (flat < Size(g) ==> idx[..] == Unflat(g, flat))
    {
      value := s.add(value, s.f(idx[..]));
      AdvanceIndex(g, idx);
      if flat + 1 < Size(g) {
        StepIsSuccessor(g, flat, idx[..]);
      }
    }
  }

  const CUTOFF: nat := 4096
  const GRAIN: nat := 256

  function Midpoint(b: nat, e: nat): nat
    requires b <= e
  {
    b + (e - b) / 2
  }

  /** The sum over a chunk: split at the midpoint until a chunk holds at most 256 points. */
  function TreeSum<V>(s: Summation<V>, g: seq<nat>, b: nat, e: nat): V
    requires Positive(g) && b <= e
    decreases e - b
  {
    if e - b <= GRAIN then s.add(s.zero, Serial(s, g, b, e))
    else s.add(TreeSum(s, g, b, Midpoint(b, e)), TreeSum(s, g, Midpoint(b, e), e))
  }

  function Reduced<V>(s: Summation<V>, g: seq<nat>): V {
    SizeZero(g);
    if Size(g) == 0 then s.zero
    else if Size(g) <= CUTOFF then Serial(s, g, 0, Size(g))
    else TreeSum(s, g, 0, Size(g))
  }

  method ReduceTree<V>(s: Summation<V>, g: seq<nat>, b: nat, e: nat) returns (value: V)
    requires Positive(g) && b <= e <= Size(g)
    ensures value == TreeSum(s, g, b, e)
    decreases e - b
  {
    if e - b <= GRAIN {
      var leaf := SerialSum(s, g, b, e);
      return s.add(s.zero, leaf);
    }
    var left := ReduceTree(s, g, b, Midpoint(b, e));
    var right := ReduceTree(s, g, Midpoint(b, e), e);
    return s.add(left, right);
  }

  method TBBReduction<V>(s: Summation<V>, g: seq<nat>) returns (value: V)
    ensures value == Reduced(s, g)
  {
    var total := 1;
    var d := |g|;
    assert g[d..] == [];
    while d > 0
      invariant 0 <= d <= |g| && total == Size(g[d..])
    {
      d := d - 1;
      assert g[d..][1..] == g[d + 1..];
      total := Area(g[d], total);
    }
    assert g[0..] == g;
    SizeZero(g);
    if total == 0 {
      return s.zero;
    }
    if total <= CUTOFF {
      value := SerialSum(s, g, 0, total);
      return;
    }
    value := ReduceTree(s, g, 0, total);
  }

  // ----- every schedule computes the same value -----

  /** A chunk of flat indices. */
  datatype Chunk = Chunk(b: nat, e: nat)

  predicate Splits(c: Chunk) {
    c.b <= c.e && c.e - c.b > GRAIN
  }

  function LeftHalf(c: Chunk): Chunk
    requires Splits(c)
  {
    Chunk(c.b, Midpoint(c.b, c.e))
  }

  function RightHalf(c: Chunk): Chunk
    requires Splits(c)
  {
    Chunk(Midpoint(c.b, c.e), c.e)
  }

  /** The chunks that splitting the root produces. */
  ghost predicate InTree(root: Chunk, c: Chunk)
    requires root.b <= root.e
    decreases root.e - root.b
  {
    c == root || (Splits(root) && (InTree(LeftHalf(root), c) || InTree(RightHalf(root), c)))
  }

  /** The chunks whose sum is known, with that sum. */
  type Progress<V> = map<Chunk, V>

  /** Some worker finishes chunk c: a leaf at any time, a split chunk once both its halves are known. */
  ghost predicate Finish<V>(s: Summation<V>, g: seq<nat>, root: Chunk, p: Progress<V>, c: Chunk, p': Progress<V>)
    requires Positive(g) && root.b <= root.e
  {
    && c !in p && InTree(root, c) && c.b <= c.e
    && (Splits(c) ==> LeftHalf(c) in p && RightHalf(c) in p)
    && p' == p[c := if Splits(c) then s.add(p[LeftHalf(c)], p[RightHalf(c)])
                    else s.add(s.zero, Serial(s, g, c.b, c.e))]
  }

  /** A run of the reduction: who finishes what, and when, is up to the scheduler. */
  ghost predicate IsRun<V>(s: Summation<V>, g: seq<nat>, root: Chunk, order: seq<Chunk>, states: seq<Progress<V>>)
    requires Positive(g) && root.b <= root.e
  {
    && |states| == |order| + 1 && states[0] == map[]
    && forall k :: 0 <= k < |order| ==> Finish(s, g, root, states[k], order[k], states[k + 1])
  }

  ghost predicate Correct<V>(s: Summation<V>, g: seq<nat>, root: Chunk, p: Progress<V>)
    requires Positive(g) && root.b <= root.e
  {
    forall c :: c in p ==> InTree(root, c) && c.b <= c.e && p[c] == TreeSum(s, g, c.b, c.e)
  }

  lemma {:induction false} RunCorrect<V>(s: Summation<V>, g: seq<nat>, root: Chunk, order: seq<Chunk>,
                                         states: seq<Progress<V>>, k: nat)
    requires Positive(g) && root.b <= root.e && IsRun(s, g, root, order, states) && k <= |order|
    ensures Correct(s, g, root, states[k]) && |states[k]| == k
  {
    if k > 0 {
      RunCorrect(s, g, root, order, states, k - 1);
      assert Finish(s, g, root, states[k - 1], order[k - 1], states[k]);
    }
  }

  /** Reproducibility: any run that finishes the root ends with the same sum, for any addition. */
  lemma EveryScheduleAgrees<V>(s: Summation<V>, g: seq<nat>, order: seq<Chunk>, states: seq<Progress<V>>)
    requires Positive(g) && Size(g) > CUTOFF && IsRun(s, g, Chunk(0, Size(g)), order, states)
    requires Chunk(0, Size(g)) in states[|order|]
    ensures states[|order|][Chunk(0, Size(g))] == Reduced(s, g)
  {
    RunCorrect(s, g, Chunk(0, Size(g)), order, states, |order|);
  }

  lemma {:induction false} TreeTransitive(root: Chunk, c: Chunk, d: Chunk)
    requires root.b <= root.e && c.b <= c.e && InTree(root, c) && InTree(c, d)
    ensures InTree(root, d)
    decreases root.e - root.b
  {
    if c != root {
      if InTree(LeftHalf(root), c) {
        TreeTransitive(LeftHalf(root), c, d);
      } else {
        TreeTransitive(RightHalf(root), c, d);
      }
    }
  }

  /** No run gets stuck: below an unfinished chunk there is always one that can be finished now. */
  lemma {:induction false} NeverStuck<V>(s: Summation<V>, g: seq<nat>, root: Chunk, p: Progress<V>, c: Chunk)
    returns (next: Chunk, p': Progress<V>)
    requires Positive(g) && root.b <= root.e && c.b <= c.e && InTree(root, c) && c !in p
    ensures Finish(s, g, root, p, next, p')
    decreases c.e - c.b
  {
    if Splits(c) && LeftHalf(c) !in p {
      TreeTransitive(root, c, LeftHalf(c));
      next, p' := NeverStuck(s, g, root, p, LeftHalf(c));
    } else if Splits(c) && RightHalf(c) !in p {
      TreeTransitive(root, c, RightHalf(c));
      next, p' := NeverStuck(s, g, root, p, RightHalf(c));
    } else {
      next := c;
      p' := p[c := if Splits(c) then s.add(p[LeftHalf(c)], p[RightHalf(c)]) else s.add(s.zero, Serial(s, g, c.b, c.e))];
    }
  }

  /** All chunks of the tree; two fewer splits than nodes bound the length of every run. */
  ghost function Chunks(root: Chunk): set<Chunk>
    requires root.b <= root.e
    decreases root.e - root.b
  {
    {root} + if Splits(root) then Chunks(LeftHalf(root)) + Chunks(RightHalf(root)) else {}
  }

  lemma {:induction false} ChunksAreTree(root: Chunk, c: Chunk)
    requires root.b <= root.e
    ensures c in Chunks(root) <==> InTree(root, c)
    decreases root.e - root.b
  {
    if Splits(root) {
      ChunksAreTree(LeftHalf(root), c);
      ChunksAreTree(RightHalf(root), c);
    }
  }

  /** Every run ends: it finishes each chunk of the tree at most once. */
  lemma RunsEnd<V>(s: Summation<V>, g: seq<nat>, root: Chunk, order: seq<Chunk>, states: seq<Progress<V>>)
    requires Positive(g) && root.b <= root.e && IsRun(s, g, root, order, states)
    ensures |order| <= |Chunks(root)|
  {
    RunCorrect(s, g, root, order, states, |order|);
    var done := states[|order|].Keys;
    forall c | c in done
      ensures c in Chunks(root)
    {
      ChunksAreTree(root, c);
    }
    SubsetSmaller(done, Chunks(root));
  }

  lemma {:induction false} SubsetSmaller<T>(a: set<T>, b: set<T>)
    requires a <= b
    ensures |a| <= |b|
  {
    if a != {} {
      var x :| x in a;
      SubsetSmaller(a - {x}, b - {x});
    }
  }

  /** Above the cutoff every leaf holds between 128 and 256 points. */
  lemma {:induction false} LeafSizes(root: Chunk, c: Chunk)
    requires root.b <= root.e && root.e - root.b >= 128 && InTree(root, c) && !Splits(c)
    ensures c.b <= c.e && 128 <= c.e - c.b <= 256
    decreases root.e - root.b
  {
    if c != root {
      if InTree(LeftHalf(root), c) {
        LeafSizes(LeftHalf(root), c);
      } else {
        LeafSizes(RightHalf(root), c);
      }
    }
  }

  // ----- over an associative addition the tree does not matter -----

  ghost predicate Monoid<V(!new)>(s: Summation<V>) {
    && (forall x, y, z :: s.add(s.add(x, y), z) == s.add(x, s.add(y, z)))
    && (forall x :: s.add(s.zero, x) == x && s.add(x, s.zero) == x)
  }

  lemma {:induction false} SerialSplits<V(!new)>(s: Summation<V>, g: seq<nat>, b: nat, m: nat, e: nat)
    requires Positive(g) && b <= m <= e && Monoid(s)
    ensures Serial(s, g, b, e) == s.add(Serial(s, g, b, m), Serial(s, g, m, e))
    decreases e - m
  {
    if m < e {
      SerialSplits(s, g, b, m, e - 1);
    }
  }

  lemma {:induction false} TreeIsSerial<V(!new)>(s: Summation<V>, g: seq<nat>, b: nat, e: nat)
    requires Positive(g) && b <= e && Monoid(s)
    ensures TreeSum(s, g, b, e) == Serial(s, g, b, e)
    decreases e - b
  {
    if e - b > GRAIN {
      var m := Midpoint(b, e);
      TreeIsSerial(s, g, b, m);
      TreeIsSerial(s, g, m, e);
      SerialSplits(s, g, b, m, e);
    }
  }

  /** The flat sum of the summands at a list of multi-indices. */
  function ListSum<V>(s: Summation<V>, list: seq<seq<nat>>): V {
    if list == [] then s.zero else s.add(ListSum(s, list[..|list| - 1]), s.f(list[|list| - 1]))
  }

  /** All multi-indices in row-major order. */
  function AllIndices(g: seq<nat>, n: nat): (r: seq<seq<nat>>)
    requires Positive(g)
    ensures |r| == n && forall k :: 0 <= k < n ==> r[k] == Unflat(g, k)
  {
    if n == 0 then [] else AllIndices(g, n - 1) + [Unflat(g, n - 1)]
  }

  /** They are exactly the points of the grid, each once. */
  lemma AllIndicesOnce(g: seq<nat>, idx: seq<nat>)
    requires Positive(g)
    ensures idx in AllIndices(g, Size(g)) <==> InGrid(g, idx)
    ensures forall j, k :: 0 <= j < k < Size(g) ==> Unflat(g, j) != Unflat(g, k)
  {
    forall k: nat | k < Size(g)
      ensures InGrid(g, Unflat(g, k)) && Flat(g, Unflat(g, k)) == k
    {
      UnflatFlat(g, k);
    }
    if InGrid(g, idx) {
      FlatBelowSize(g, idx);
      FlatUnflat(g, idx);
      assert AllIndices(g, Size(g))[Flat(g, idx)] == idx;
    }
  }

  lemma {:induction false} SerialIsListSum<V>(s: Summation<V>, g: seq<nat>, n: nat)
    requires Positive(g)
    ensures Serial(s, g, 0, n) == ListSum(s, AllIndices(g, n))
  {
    hide Unflat, Size;
    if n > 0 {
      SerialIsListSum(s, g, n - 1);
      var all := AllIndices(g, n - 1) + [Unflat(g, n - 1)];
      assert AllIndices(g, n) == all && all[..n - 1] == AllIndices(g, n - 1) && all[n - 1] == Unflat(g, n - 1);
    }
  }

  /** Over an associative addition both paths give the sum over all points of the grid. */
  lemma ReductionIsSum<V(!new)>(s: Summation<V>, g: seq<nat>)
    requires Positive(g) && Monoid(s)
    ensures Reduced(s, g) == ListSum(s, AllIndices(g, Size(g)))
  {
    SizeZero(g);
    SerialIsListSum(s, g, Size(g));
    TreeIsSerial(s, g, 0, Size(g));
  }

  // ----- the sum written out -----

  /** A sum before anything is added up. */
  datatype Term = Zero | Summand(idx: seq<nat>) | Plus(left: Term, right: Term)

  const FORMAL: Summation<Term> := Summation((x, y) => Plus(x, y), Zero, idx => Summand(idx))

  /** ((0 + f(i)) + f(j)) + ..., in the order of the list. */
  function LeftToRight(list: seq<seq<nat>>): Term {
    if list == [] then Zero else Plus(LeftToRight(list[..|list| - 1]), Summand(list[|list| - 1]))
  }

  /** The points from b to e in the order of the grid. */
  function Points(g: seq<nat>, b: nat, e: nat): (r: seq<seq<nat>>)
    requires Positive(g) && b <= e
    ensures |r| == e - b
  {
    seq(e - b, k requires 0 <= k < e - b => Unflat(g, b + k))
  }

  lemma {:induction false} SerialWritten(g: seq<nat>, b: nat, e: nat)
    requires Positive(g) && b <= e
    ensures Serial(FORMAL, g, b, e) == LeftToRight(Points(g, b, e))
    decreases e - b
  {
    hide Unflat;
    if b < e {
      SerialWritten(g, b, e - 1);
      assert Points(g, b, e)[..e - b - 1] == Points(g, b, e - 1);
    }
  }

  /** The summands a term adds up, from left to right. */
  function Leaves(t: Term): seq<seq<nat>> {
    match t
    case Zero => []
    case Summand(idx) => [idx]
    case Plus(left, right) => Leaves(left) + Leaves(right)
  }

  lemma {:induction false} LeavesOfSerial(g: seq<nat>, b: nat, e: nat)
    requires Positive(g) && b <= e
    ensures Leaves(Serial(FORMAL, g, b, e)) == Points(g, b, e)
    decreases e - b
  {
    hide Unflat;
    if b < e {
      LeavesOfSerial(g, b, e - 1);
      assert Points(g, b, e) == Points(g, b, e - 1) + [Unflat(g, e - 1)];
    }
  }

  /** Zero plus a serial sum of at most 256 points, or two halves that differ by at most one point. */
  ghost predicate Halving(g: seq<nat>, b: nat, e: nat, t: Term)
    requires Positive(g) && b <= e
    decreases t
  {
    if e - b <= 256 then t == Plus(Zero, LeftToRight(Points(g, b, e)))
    else t.Plus? && exists m: nat :: b <= m <= e && (m - b == e - m || m - b + 1 == e - m)
                                     && Halving(g, b, m, t.left) && Halving(g, m, e, t.right)
  }

  lemma {:induction false} TreeWritten(g: seq<nat>, b: nat, e: nat)
    requires Positive(g) && b <= e
    ensures Halving(g, b, e, TreeSum(FORMAL, g, b, e))
    ensures Leaves(TreeSum(FORMAL, g, b, e)) == Points(g, b, e)
    decreases e - b
  {
    hide Unflat, Serial, LeftToRight;
    if e - b <= 256 {
      SerialWritten(g, b, e);
      LeavesOfSerial(g, b, e);
    } else {
      var m := Midpoint(b, e);
      TreeWritten(g, b, m);
      TreeWritten(g, m, e);
      assert Points(g, b, e) == Points(g, b, m) + Points(g, m, e);
    }
  }

  /** A written sum with an addition and summands put in. */
  function Evaluated<V>(s: Summation<V>, t: Term): V {
    match t
    case Zero => s.zero
    case Summand(idx) => s.f(idx)
    case Plus(left, right) => s.add(Evaluated(s, left), Evaluated(s, right))
  }

  lemma {:induction false} SerialEvaluates<V>(s: Summation<V>, g: seq<nat>, b: nat, e: nat)
    requires Positive(g) && b <= e
    ensures Evaluated(s, Serial(FORMAL, g, b, e)) == Serial(s, g, b, e)
    decreases e - b
  {
    hide Unflat;
    if b < e {
      SerialEvaluates(s, g, b, e - 1);
    }
  }

  lemma {:induction false} TreeEvaluates<V>(s: Summation<V>, g: seq<nat>, b: nat, e: nat)
    requires Positive(g) && b <= e
    ensures Evaluated(s, TreeSum(FORMAL, g, b, e)) == TreeSum(s, g, b, e)
    decreases e - b
  {
    hide Serial;
    if e - b <= GRAIN {
      SerialEvaluates(s, g, b, e);
    } else {
      TreeEvaluates(s, g, b, Midpoint(b, e));
      TreeEvaluates(s, g, Midpoint(b, e), e);
    }
  }

  /** Whatever the addition, the reduction makes the same additions. */
  lemma ReducedEvaluates<V>(s: Summation<V>, g: seq<nat>)
    ensures Reduced(s, g) == Evaluated(s, Reduced(FORMAL, g))
  {
    hide Serial, TreeSum;
    SizeZero(g);
    if Positive(g) {
      SerialEvaluates(s, g, 0, Size(g));
      TreeEvaluates(s, g, 0, Size(g));
    }
  }

  /**
   The additions the reduction makes, for any addition: none for an empty grid, from left to right for up to 4096
   points, and by halving above that. Either way each point is added once, in row-major order.
   */
  lemma ReducedWritten(g: seq<nat>)
    ensures !Positive(g) ==> Reduced(FORMAL, g) == Zero
    ensures Positive(g) && Size(g) <= 4096 ==> Reduced(FORMAL, g) == LeftToRight(Points(g, 0, Size(g)))
    ensures Positive(g) && Size(g) > 4096 ==> Halving(g, 0, Size(g), Reduced(FORMAL, g))
    ensures Positive(g) ==> Leaves(Reduced(FORMAL, g)) == Points(g, 0, Size(g))
  {
    hide Serial, TreeSum, Halving, Leaves, LeftToRight, Points;
    SizeZero(g);
    if Positive(g) {
      SerialWritten(g, 0, Size(g));
      LeavesOfSerial(g, 0, Size(g));
      TreeWritten(g, 0, Size(g));
    }
  }
}
