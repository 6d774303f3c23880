/**
 The seed-stacked forward-mode jacobian (DiFfRG/include/DiFfRG/model/batch.hh:733-919): the seed directions of a point
 are stacked along the point axis, evaluated in groups, and scattered back into one jacobian per point.
 */
module SeedStacking {
  import opened Prelude
  import opened DualNumbers
  import opened Batches
  import opened Slots
  import opened NumericalFlux

  // ----- seeds -----

  /** One direction among the inputs of one trace; a hessian entry is seeded together with its transpose. */
  datatype Seed = Seed(side: nat, key: Key)

  function Transposed(k: Key): Key {
    match k
    case Hess(c, d1, d2) => Hess(c, d2, d1)
    case _ => k
  }

  /** The representative of a key and its transpose. */
  function Ordered(k: Key): Key {
    if k.Hess? && k.d2 < k.d1 then Transposed(k) else k
  }

  predicate IsSeed(lay: Layout, nSides: nat, s: Seed) {
    s.side < nSides && lay.Has(s.key) && Ordered(s.key) == s.key
  }

  /** The seeds of one side before component c of the given kind, and before direction d1, d2 of that component. */
  predicate Listed(lay: Layout, k: Key, kind: nat, c: nat, d1: nat, d2: nat)
  {
    lay.Has(k) && Ordered(k) == k &&
    match k
    case Value(e) => kind > 0 || (kind == 0 && e < c)
    case Deriv(e, d) => kind > 1 || (kind == 1 && (e < c || (e == c && d < d1)))
    case Hess(e, i, j) => kind > 2 || (kind == 2 && (e < c || (e == c && (i < d1 || (i == d1 && j < d2)))))
  }

  ghost predicate HoldsListed(seeds: seq<Seed>, lay: Layout, side: nat, kind: nat, c: nat, d1: nat, d2: nat) {
    && (forall s: Seed ::
          s in seeds <==> IsSeed(lay, side, s) || (s.side == side && Listed(lay, s.key, kind, c, d1, d2)))
    && (forall p, q :: 0 <= p < q < |seeds| ==> seeds[p] != seeds[q])
  }

  /** The second derivatives of one side, the upper triangle only. */
  method HessianSeeds(lay: Layout, side: nat, before: seq<Seed>) returns (seeds: seq<Seed>)
    requires lay.Valid() && lay.hessians && HoldsListed(before, lay, side, 2, 0, 0, 0)
    ensures HoldsListed(seeds, lay, side, 3, 0, 0, 0)
  {
    seeds := before;
    for c := 0 to lay.nFe
      invariant HoldsListed(seeds, lay, side, 2, c, 0, 0)
    {
      for d1 := 0 to lay.dim
        invariant HoldsListed(seeds, lay, side, 2, c, d1, 0)
      {
        for d2 := d1 to lay.dim
          invariant HoldsListed(seeds, lay, side, 2, c, d1, d2)
        {
          seeds := seeds + [Seed(side, Hess(c, d1, d2))];
        }
      }
    }
  }

  /** Every independent input of every side, each exactly once. */
  method BatchSeeds(lay: Layout, nSides: nat) returns (seeds: seq<Seed>)
    requires lay.Valid()
    ensures forall s: Seed :: s in seeds <==> IsSeed(lay, nSides, s)
    ensures forall p, q :: 0 <= p < q < |seeds| ==> seeds[p] != seeds[q]
  {
    seeds := [];
    for side := 0 to nSides
      invariant HoldsListed(seeds, lay, side, 0, 0, 0, 0)
    {
      for c := 0 to lay.nFe
        invariant HoldsListed(seeds, lay, side, 0, c, 0, 0)
      {
        seeds := seeds + [Seed(side, Value(c))];
      }
      if lay.derivatives {
        for c := 0 to lay.nFe
          invariant HoldsListed(seeds, lay, side, 1, c, 0, 0)
        {
          for d := 0 to lay.dim
            invariant HoldsListed(seeds, lay, side, 1, c, d, 0)
          {
            seeds := seeds + [Seed(side, Deriv(c, d))];
          }
        }
      }
      assert HoldsListed(seeds, lay, side, 2, 0, 0, 0);
      if lay.hessians {
        seeds := HessianSeeds(lay, side, seeds);
      }
      assert HoldsListed(seeds, lay, side, 3, 0, 0, 0);
    }
  }

  // ----- seeded arguments -----

  function Mark(t: Trace<Dual>, col: nat): Trace<Dual>
    requires col < |t.cols|
  {
    t.(cols := t.cols[col := Seeded(t.cols[col])])
  }

  function SeedTrace(lay: Layout, t: Trace<Dual>, k: Key): (r: Trace<Dual>)
    requires lay.Valid() && lay.Has(k) && |t.cols| == lay.Columns()
    ensures |r.cols| == |t.cols|
  {
    lay.ColumnOfKey(k);
    lay.ColumnOfKey(Transposed(k));
    var marked := Mark(t, lay.Column(k));
    if Transposed(k) == k then marked else Mark(marked, lay.Column(Transposed(k)))
  }

  function Lifted(t: Trace<real>): Trace<Dual> {
    Converted(t, (x: real) => Plain(x))
  }

  function LiftedAll(s: seq<real>): (r: seq<Dual>)
    ensures |r| == |s| && forall k :: 0 <= k < |s| ==> r[k] == Plain(s[k])
  {
    seq(|s|, k requires 0 <= k < |s| => Plain(s[k]))
  }

  function SideTrace(lay: Layout, t: Trace<real>, side: nat, seed: Option<Seed>): Trace<Dual>
    requires lay.Valid() && |t.cols| == lay.Columns() && (seed.Some? ==> lay.Has(seed.value.key))
  {
    if seed.Some? && seed.value.side == side then SeedTrace(lay, Lifted(t), seed.value.key) else Lifted(t)
  }

  // ----- filling -----

  ghost predicate Aligned(ads: seq<PointBatch<Dual>>, srcs: seq<PointBatch<real>>, lay: Layout, n: nat, slots: nat)
    reads set b | b in ads, set b | b in srcs
  {
    && |ads| == |srcs| && lay.Valid()
    && (forall s :: 0 <= s < |ads| ==> ads[s].Valid() && ads[s].lay == lay && ads[s].n == slots)
    && (forall s :: 0 <= s < |srcs| ==> srcs[s].Valid() && srcs[s].lay == lay && srcs[s].n == n)
    && (forall s, t :: 0 <= s < t < |ads| ==> ads[s] != ads[t])
    && (forall s, t :: 0 <= s < |ads| && 0 <= t < |srcs| ==> (ads[s] as object) != srcs[t])
  }

  method SeedSlot(ad: PointBatch<Dual>, k: Key, j: nat)
    requires ad.Valid() && j < ad.n && ad.lay.Has(k)
    modifies ad`state
    ensures ad.Valid()
    ensures forall i :: 0 <= i < ad.n ==>
              ad.At(i) == if i == j then SeedTrace(ad.lay, old(ad.At(j)), k) else old(ad.At(i))
  {
    hide Slot, Area, Column;
    ad.Write(k, j, Seeded(ad.Read(k, j)));
    if Transposed(k) != k {
      ad.Write(Transposed(k), j, Seeded(ad.Read(Transposed(k), j)));
    }
  }

  method CopySlot(ads: seq<PointBatch<Dual>>, srcs: seq<PointBatch<real>>, lay: Layout, n: nat, slots: nat, j: nat,
                  i: nat)
    requires Aligned(ads, srcs, lay, n, slots) && j < slots && i < n
    modifies ads
    ensures Aligned(ads, srcs, lay, n, slots)
    ensures forall s :: 0 <= s < |ads| ==> ads[s].extractors == old(ads[s].extractors)
    ensures forall s, k :: 0 <= s < |ads| && 0 <= k < slots ==>
              ads[s].At(k) == if k == j then Lifted(srcs[s].At(i)) else old(ads[s].At(k))
  {
    hide Slot, Area, Column;
    for s := 0 to |ads|
      invariant Aligned(ads, srcs, lay, n, slots)
      invariant forall t :: 0 <= t < |ads| ==> ads[t].extractors == old(ads[t].extractors)
      invariant forall t, k :: 0 <= t < |ads| && 0 <= k < slots ==>
                  ads[t].At(k) == if k == j && t < s then Lifted(srcs[t].At(i)) else old(ads[t].At(k))
    {
      ads[s].CopyPoint(j, srcs[s], i, (x: real) => Plain(x));
    }
  }

  /** Slot j of every AD trace := point i of that trace, with one direction seeded. */
  method FillSlot(ads: seq<PointBatch<Dual>>, srcs: seq<PointBatch<real>>, lay: Layout, n: nat, slots: nat, j: nat,
                  i: nat, seed: Option<Seed>)
    requires Aligned(ads, srcs, lay, n, slots) && j < slots && i < n
    requires seed.Some? ==> seed.value.side < |ads| && lay.Has(seed.value.key)
    modifies ads
    ensures Aligned(ads, srcs, lay, n, slots)
    ensures forall s :: 0 <= s < |ads| ==> ads[s].extractors == old(ads[s].extractors)
    ensures forall s, k :: 0 <= s < |ads| && 0 <= k < slots ==>
              ads[s].At(k) == if k == j then SideTrace(lay, srcs[s].At(i), s, seed) else old(ads[s].At(k))
  {
    hide Slot, Area, Column, SeedTrace;
    CopySlot(ads, srcs, lay, n, slots, j, i);
    if seed.Some? {
      SeedSlot(ads[seed.value.side], seed.value.key, j);
    }
  }

  /** Slot b * n + i of every AD trace is point i, seeded along direction b of the group. */
  ghost predicate Filled(ads: seq<PointBatch<Dual>>, srcs: seq<PointBatch<real>>, lay: Layout, n: nat, slots: nat,
                         group: seq<Seed>, b: nat, i: nat)
    requires Aligned(ads, srcs, lay, n, slots) && b < |group| && i < n
    reads set t | t in ads, set t | t in srcs
  {
    && Slot(b, n, i) < slots && IsSeed(lay, |ads|, group[b])
    && forall s :: 0 <= s < |ads| ==>
         ads[s].At(Slot(b, n, i)) == SideTrace(lay, srcs[s].At(i), s, Some(group[b]))
  }

  method FillGroup(ads: seq<PointBatch<Dual>>, srcs: seq<PointBatch<real>>, lay: Layout, n: nat, group: seq<Seed>)
    requires Aligned(ads, srcs, lay, n, Area(|group|, n))
    requires forall b :: 0 <= b < |group| ==> IsSeed(lay, |ads|, group[b])
    modifies ads
    ensures Aligned(ads, srcs, lay, n, Area(|group|, n))
    ensures forall s :: 0 <= s < |ads| ==> ads[s].extractors == old(ads[s].extractors)
    ensures forall b: nat, i: nat :: b < |group| && i < n ==>
              Filled(ads, srcs, lay, n, Area(|group|, n), group, b, i)
  {
    SlotsDistinct(n);
    hide Slot, Area, Column, SideTrace;
    var slots := Area(|group|, n);
    for i := 0 to n
      invariant Aligned(ads, srcs, lay, n, slots)
      invariant forall s :: 0 <= s < |ads| ==> ads[s].extractors == old(ads[s].extractors)
      invariant forall b: nat, i': nat :: b < |group| && i' < i ==> Filled(ads, srcs, lay, n, slots, group, b, i')
    {
      for b := 0 to |group|
        invariant Aligned(ads, srcs, lay, n, slots)
        invariant forall s :: 0 <= s < |ads| ==> ads[s].extractors == old(ads[s].extractors)
        invariant forall b': nat, i': nat :: b' < |group| && (i' < i || (i' == i && b' < b)) ==>
                    Filled(ads, srcs, lay, n, slots, group, b', i')
      {
        SlotBound(b, |group|, n, i);
        label Before:
        FillSlot(ads, srcs, lay, n, slots, Slot(b, n, i), i, Some(group[b]));
        forall b': nat, i': nat | b' < |group| && (i' < i || (i' == i && b' < b + 1))
          ensures Filled(ads, srcs, lay, n, slots, group, b', i')
        {
          if i' == i && b' == b {
            assert IsSeed(lay, |ads|, group[b]);
          } else {
            assert old@Before(Filled(ads, srcs, lay, n, slots, group, b', i'));
            assert Slot(b', n, i') != Slot(b, n, i);
          }
        }
      }
    }
  }

  /** One copy of the normals per block. */
  method StackNormals(normals: seq<seq<real>>, blocks: nat) returns (stacked: seq<seq<real>>)
    ensures |stacked| == Area(blocks, |normals|)
    ensures forall b: nat, i: nat :: b < blocks && i < |normals| ==>
              Slot(b, |normals|, i) < |stacked| && stacked[Slot(b, |normals|, i)] == normals[i]
    ensures forall j :: 0 <= j < |stacked| ==> stacked[j] in normals
  {
    stacked := [];
    for b := 0 to blocks
      invariant |stacked| == Area(b, |normals|)
      invariant forall b': nat, i: nat :: b' < b && i < |normals| ==>
                  Slot(b', |normals|, i) < |stacked| && stacked[Slot(b', |normals|, i)] == normals[i]
      invariant forall j :: 0 <= j < |stacked| ==> stacked[j] in normals
    {
      NextArea(b, |normals|);
      hide Slot, Area;
      stacked := stacked + normals;
    }
  }

  lemma NextArea(b: nat, n: nat)
    ensures Area(b + 1, n) == Area(b, n) + n
    ensures forall i: nat :: Slot(b, n, i) == Area(b, n) + i
  {
  }

  // ----- evaluating -----

  /** The evaluations the jacobian is taken of: a per-point callback, or the batched flux through interior faces. */
  datatype Evaluation = PerPoint(f: PointFn) | FaceFlux(f: PointFn)

  /** What one point of an evaluation yields on its own. */
  function PointValue(ev: Evaluation, arg: PointArg, o: Out): Dual {
    match ev
    case PerPoint(f) => f(arg, o)
    case FaceFlux(f) =>
      if o.Flux? && |arg.sides| == 2 && o.c < |arg.sides[0].cols| && o.c < |arg.sides[1].cols| && o.d < |arg.normal|
      then LaxFriedrichs(f, Face(arg.sides[0], arg.sides[1], arg.extractors, arg.extractors, arg.normal), o.c, o.d)
      else Plain(0.0)
  }

  /** Two traces, component-wise dissipation, and normals of the right dimension. */
  ghost predicate Suits(ev: Evaluation, lay: Layout, nSides: nat, nOut: nat, terms: Terms, normals: seq<seq<real>>) {
    ev.FaceFlux? ==>
      && nSides == 2 && nOut <= lay.nFe && terms == Terms(true, false, false)
      && forall j :: 0 <= j < |normals| ==> |normals[j]| == lay.dim
  }

  method Evaluate(ev: Evaluation, out: BatchOutput, ads: seq<PointBatch<Dual>>, extractors: array<Dual>,
                  normals: seq<seq<real>>)
    requires ads != [] && Ready(ads, out.n, extractors) && |normals| == out.n && out.Valid()
    requires forall s :: 0 <= s < |ads| ==> ads[s].lay == ads[0].lay && (ads[s] as object) != out
    requires Suits(ev, ads[0].lay, |ads|, out.nOut, out.terms, normals) && out.dim == ads[0].lay.dim
    modifies out`data
    ensures out.Valid()
    ensures forall o: Out, j: nat :: out.Lay().Has(o) && j < out.n ==>
              out.At(o, j) == PointValue(ev, ArgAt(ads, extractors, normals, j), o)
  {
    hide Slot, Area, Column, LaxFriedrichs;
    match ev
    case PerPoint(f) => EvaluatePerPoint(f, out, ads, extractors, normals);
    case FaceFlux(f) => NumfluxBatch(f, out, normals, ads[0], ads[1], extractors);
  }

  // ----- the jacobian -----

  datatype JInput = State(key: Key) | Extractor(e: nat)

  /** The derivative of output `out` of a point with respect to an input of one of its traces. */
  datatype JKey = JKey(point: nat, side: nat, out: Out, input: JInput)

  /** One jacobian per point; entries that were never written are zero. */
  class Jacobian {
    var entries: map<JKey, real>

    constructor ()
      ensures forall k :: Get(k) == 0.0
    {
      entries := map[];
    }

    function Get(k: JKey): real
      reads this
    {
      if k in entries then entries[k] else 0.0
    }

    method Set(k: JKey, x: real)
      modifies this
      ensures forall k' :: Get(k') == if k' == k then x else old(Get(k'))
    {
      entries := entries[k := x];
    }
  }

  function SeedArg(lay: Layout, arg: PointArg, s: Seed): PointArg
    requires lay.Valid() && IsSeed(lay, |arg.sides|, s) && |arg.sides[s.side].cols| == lay.Columns()
  {
    arg.(sides := arg.sides[s.side := SeedTrace(lay, arg.sides[s.side], s.key)])
  }

  function SeedExtractor(arg: PointArg, e: nat): PointArg
    requires e < |arg.extractors|
  {
    arg.(extractors := arg.extractors[e := Seeded(arg.extractors[e])])
  }

  ghost predicate Shaped(lay: Layout, nSides: nat, arg: PointArg) {
    lay.Valid() && |arg.sides| == nSides && forall s :: 0 <= s < nSides ==> |arg.sides[s].cols| == lay.Columns()
  }

  /** The joint seed of an off-diagonal hessian entry yields the sum of two derivatives, stored half each. */
  function Share(k: Key, g: real): real {
    if k.Hess? && k.d1 != k.d2 then g / 2.0 else g
  }

  /** The derivative of the unstacked evaluation of one point along the seed of one input. */
  function Entry(ev: Evaluation, lay: Layout, arg: PointArg, side: nat, o: Out, key: Key): real
    requires lay.Valid() && IsSeed(lay, |arg.sides|, Seed(side, Ordered(key)))
    requires |arg.sides[side].cols| == lay.Columns()
  {
    Share(key, PointValue(ev, SeedArg(lay, arg, Seed(side, Ordered(key))), o).d)
  }

  /** Scatter the derivatives in slot j, evaluated along seed s, into the jacobian of point i. */
  method ScatterSlot(J: Jacobian, out: BatchOutput, s: Seed, i: nat, j: nat)
    requires out.Valid() && !out.terms.diffusion && j < out.n && Ordered(s.key) == s.key
    modifies J
    ensures forall k: JKey :: J.Get(k) ==
              if k.point == i && k.side == s.side && k.input.State? && Ordered(k.input.key) == s.key
                 && out.Lay().Has(k.out)
              then Share(k.input.key, out.At(k.out, j).d) else old(J.Get(k))
  {
    hide Slot, Area, Column;
    for c := 0 to out.nOut
      invariant forall k: JKey :: J.Get(k) ==
                  if k.point == i && k.side == s.side && k.input.State? && Ordered(k.input.key) == s.key &&
                     out.Lay().Has(k.out) && k.out.c < c
                  then Share(k.input.key, out.At(k.out, j).d) else old(J.Get(k))
    {
      if out.terms.source {
        ScatterOutput(J, Source(c), s, i, out.At(Source(c), j).d);
      }
      if out.terms.flux {
        for d := 0 to out.dim
          invariant forall k: JKey :: J.Get(k) ==
                      if k.point == i && k.side == s.side && k.input.State? && Ordered(k.input.key) == s.key &&
                         out.Lay().Has(k.out) && (k.out.c < c || (k.out.c == c && (k.out.Source? || k.out.d < d)))
                      then Share(k.input.key, out.At(k.out, j).d) else old(J.Get(k))
        {
          ScatterOutput(J, Flux(c, d), s, i, out.At(Flux(c, d), j).d);
        }
      }
    }
  }

  method ScatterOutput(J: Jacobian, o: Out, s: Seed, i: nat, g: real)
    requires Ordered(s.key) == s.key
    modifies J
    ensures forall k: JKey :: J.Get(k) ==
              if k.point == i && k.side == s.side && k.out == o && k.input.State? && Ordered(k.input.key) == s.key
              then Share(k.input.key, g) else old(J.Get(k))
  {
    match s.key
    case Value(_) => J.Set(JKey(i, s.side, o, State(s.key)), g);
    case Deriv(_, _) => J.Set(JKey(i, s.side, o, State(s.key)), g);
    case Hess(c, d1, d2) =>
      if d1 == d2 {
        J.Set(JKey(i, s.side, o, State(s.key)), g);
      } else {
        J.Set(JKey(i, s.side, o, State(s.key)), g / 2.0);
        J.Set(JKey(i, s.side, o, State(Hess(c, d2, d1))), g / 2.0);
      }
  }

  /** The entry of one of the listed seeds. */
  ghost predicate Covers(lay: Layout, nSides: nat, n: nat, outLay: OutLayout, seeds: seq<Seed>, k: JKey) {
    && k.point < n && k.input.State? && outLay.Has(k.out)
    && Seed(k.side, Ordered(k.input.key)) in seeds && IsSeed(lay, nSides, Seed(k.side, Ordered(k.input.key)))
  }

  lemma CoversGrows(lay: Layout, nSides: nat, n: nat, outLay: OutLayout, seeds: seq<Seed>, group: seq<Seed>)
    ensures forall k: JKey :: !Covers(lay, nSides, n, outLay, [], k)
    ensures forall k: JKey :: Covers(lay, nSides, n, outLay, seeds + group, k) <==>
                              Covers(lay, nSides, n, outLay, seeds, k) || Covers(lay, nSides, n, outLay, group, k)
  {
  }

  /** The derivatives of one point with respect to the listed seeds. */
  method ScatterPoint(J: Jacobian, out: BatchOutput, lay: Layout, group: seq<Seed>, n: nat, i: nat,
                      ghost ev: Evaluation, ghost arg: PointArg, ghost nSides: nat)
    requires out.Valid() && !out.terms.diffusion && i < n && Shaped(lay, nSides, arg)
    requires forall b :: 0 <= b < |group| ==> IsSeed(lay, nSides, group[b])
    requires forall b: nat :: b < |group| ==> Slot(b, n, i) < out.n
    requires forall b: nat, o: Out :: b < |group| && out.Lay().Has(o) ==>
               out.At(o, Slot(b, n, i)) == PointValue(ev, SeedArg(lay, arg, group[b]), o)
    modifies J
    ensures forall k: JKey :: J.Get(k) ==
              if k.point == i && Covers(lay, nSides, i + 1, out.Lay(), group, k)
              then Entry(ev, lay, arg, k.side, k.out, k.input.key) else old(J.Get(k))
  {
    hide Slot, Area, Column, PointValue, SeedArg, Share;
    for b := 0 to |group|
      invariant forall k: JKey :: J.Get(k) ==
                  if k.point == i && Covers(lay, nSides, i + 1, out.Lay(), group[..b], k)
                  then Entry(ev, lay, arg, k.side, k.out, k.input.key) else old(J.Get(k))
    {
      ScatterSlot(J, out, group[b], i, Slot(b, n, i));
      assert group[..b + 1] == group[..b] + [group[b]];
      assert IsSeed(lay, nSides, group[b]);
    }
    assert group[..|group|] == group;
  }

  method ScatterGroup(J: Jacobian, out: BatchOutput, lay: Layout, group: seq<Seed>, n: nat, ghost ev: Evaluation,
                      ghost args: seq<PointArg>, ghost nSides: nat)
    requires out.Valid() && !out.terms.diffusion && |args| == n
    requires forall b :: 0 <= b < |group| ==> IsSeed(lay, nSides, group[b])
    requires forall i :: 0 <= i < n ==> Shaped(lay, nSides, args[i])
    requires forall b: nat, i: nat :: b < |group| && i < n ==> Slot(b, n, i) < out.n
    requires forall b: nat, i: nat, o: Out :: b < |group| && i < n && out.Lay().Has(o) ==>
               Shaped(lay, nSides, args[i]) && IsSeed(lay, nSides, group[b]) &&
               out.At(o, Slot(b, n, i)) == PointValue(ev, SeedArg(lay, args[i], group[b]), o)
    modifies J
    ensures forall k: JKey :: J.Get(k) ==
              if Covers(lay, nSides, n, out.Lay(), group, k) && Shaped(lay, nSides, args[k.point])
              then Entry(ev, lay, args[k.point], k.side, k.out, k.input.key) else old(J.Get(k))
  {
    hide Slot, Area, Column, PointValue, SeedArg, Share, Entry;
    for i := 0 to n
      invariant forall k: JKey :: J.Get(k) ==
                  if Covers(lay, nSides, i, out.Lay(), group, k) && Shaped(lay, nSides, args[k.point])
                  then Entry(ev, lay, args[k.point], k.side, k.out, k.input.key) else old(J.Get(k))
    {
      ScatterPoint(J, out, lay, group, n, i, ev, args[i], nSides);
    }
  }

  // ----- the whole jacobian -----

  /** Buffers kept across calls; what an earlier call left in them does not matter. */
  class SeedStackWorkspace {
    const batches: seq<PointBatch<Dual>>
    const out: BatchOutput
    const extractors: array<Dual>

    constructor (batches: seq<PointBatch<Dual>>, out: BatchOutput, extractors: array<Dual>)
      ensures this.batches == batches && this.out == out && this.extractors == extractors
    {
      this.batches, this.out, this.extractors := batches, out, extractors;
    }

    /** The buffers are distinct objects of the shape of the traces srcs of n points. */
    ghost predicate Fits(srcs: seq<PointBatch<real>>, lay: Layout, n: nat)
      reads set b | b in srcs
    {
      && |batches| == |srcs| && |srcs| > 0 && lay.Valid() && out.dim == lay.dim
      && (forall s :: 0 <= s < |batches| ==> batches[s].lay == lay && (batches[s] as object) != out)
      && (forall s :: 0 <= s < |srcs| ==> srcs[s].Valid() && srcs[s].lay == lay && srcs[s].n == n)
      && (forall s, t :: 0 <= s < t < |batches| ==> batches[s] != batches[t])
      && (forall s, t :: 0 <= s < |batches| && 0 <= t < |srcs| ==> (batches[s] as object) != srcs[t])
      && (forall t :: 0 <= t < |srcs| ==> (out as object) != srcs[t])
    }

    /** Room for `blocks` copies of n points, pointing to the AD extractors. */
    method Prepare(srcs: seq<PointBatch<real>>, lay: Layout, n: nat, blocks: nat, terms: Terms)
      requires Fits(srcs, lay, n)
      modifies batches, out
      ensures Aligned(batches, srcs, lay, n, Area(blocks, n)) && Fits(srcs, lay, n)
      ensures forall s :: 0 <= s < |batches| ==> batches[s].extractors == extractors
      ensures out.Valid() && out.n == Area(blocks, n) && out.terms == terms
    {
      hide Slot, Area, Column;
      for s := 0 to |batches|
        invariant forall t :: 0 <= t < s ==>
                    batches[t].Valid() && batches[t].n == Area(blocks, n) && batches[t].extractors == extractors
      {
        batches[s].Reinit(Area(blocks, n), Plain(0.0));
        batches[s].SetShared(extractors);
      }
      out.Reinit(Area(blocks, n), terms);
    }
  }

  ghost function LiftedTraces(srcs: seq<PointBatch<real>>, i: nat): (r: seq<Trace<Dual>>)
    requires forall s :: 0 <= s < |srcs| ==> srcs[s].Valid() && i < srcs[s].n
    reads set b | b in srcs
    ensures |r| == |srcs| && forall s :: 0 <= s < |r| ==> r[s] == Lifted(srcs[s].At(i))
  {
    if srcs == [] then [] else [Lifted(srcs[0].At(i))] + LiftedTraces(srcs[1..], i)
  }

  /** Point i as the callback sees it, with no direction seeded. */
  ghost function BaseArg(srcs: seq<PointBatch<real>>, extractors: seq<real>, normals: seq<seq<real>>, i: nat): PointArg
    requires forall s :: 0 <= s < |srcs| ==> srcs[s].Valid() && i < srcs[s].n
    requires i < |normals|
    reads set b | b in srcs
  {
    PointArg(LiftedTraces(srcs, i), LiftedAll(extractors), normals[i])
  }

  /** A filled slot is its point, seeded. */
  lemma SlotIsSeededPoint(ads: seq<PointBatch<Dual>>, adExtractors: array<Dual>, stacked: seq<seq<real>>,
                          srcs: seq<PointBatch<real>>, extractors: seq<real>, normals: seq<seq<real>>,
                          lay: Layout, n: nat, slots: nat, group: seq<Seed>, b: nat, i: nat)
    requires Aligned(ads, srcs, lay, n, slots) && b < |group| && i < n == |normals|
    requires Filled(ads, srcs, lay, n, slots, group, b, i) && adExtractors[..] == LiftedAll(extractors)
    requires Slot(b, n, i) < |stacked| && stacked[Slot(b, n, i)] == normals[i]
    ensures Shaped(lay, |srcs|, BaseArg(srcs, extractors, normals, i))
    ensures ArgAt(ads, adExtractors, stacked, Slot(b, n, i)) ==
            SeedArg(lay, BaseArg(srcs, extractors, normals, i), group[b])
  {
    hide Slot, Column, SeedTrace;
    var j := Slot(b, n, i);
    var seeded := SeedArg(lay, BaseArg(srcs, extractors, normals, i), group[b]);
    assert forall s :: 0 <= s < |ads| ==> ads[s].At(j) == seeded.sides[s];
    assert Traces(ads, j) == seeded.sides;
  }

  ghost predicate AreBaseArgs(args: seq<PointArg>, srcs: seq<PointBatch<real>>, extractors: seq<real>,
                              normals: seq<seq<real>>, lay: Layout)
    reads set b | b in srcs
  {
    && |args| == |normals|
    && forall i :: 0 <= i < |args| ==>
         && (forall s :: 0 <= s < |srcs| ==> srcs[s].Valid() && i < srcs[s].n)
         && args[i] == BaseArg(srcs, extractors, normals, i) && Shaped(lay, |srcs|, args[i])
  }

  /** One evaluation of a group of seeds: slot b * n + i of the output is point i along direction b. */
  method EvaluateGroup(ev: Evaluation, ws: SeedStackWorkspace, srcs: seq<PointBatch<real>>, lay: Layout,
                       n: nat, normals: seq<seq<real>>, group: seq<Seed>, terms: Terms,
                       ghost extractors: seq<real>, ghost args: seq<PointArg>)
    requires ws.Fits(srcs, lay, n) && |normals| == n && AreBaseArgs(args, srcs, extractors, normals, lay)
    requires Suits(ev, lay, |srcs|, ws.out.nOut, terms, normals)
    requires ws.extractors[..] == LiftedAll(extractors)
    requires forall b :: 0 <= b < |group| ==> IsSeed(lay, |srcs|, group[b])
    modifies ws.batches, ws.out
    ensures ws.out.Valid() && ws.out.terms == terms
    ensures forall b: nat, i: nat :: b < |group| && i < n ==> Slot(b, n, i) < ws.out.n
    ensures forall b: nat, i: nat, o: Out :: b < |group| && i < n && ws.out.Lay().Has(o) ==>
              Shaped(lay, |srcs|, args[i]) && IsSeed(lay, |srcs|, group[b]) &&
              ws.out.At(o, Slot(b, n, i)) == PointValue(ev, SeedArg(lay, args[i], group[b]), o)
  {
    hide Slot, Area, Column, SeedArg, PointValue;
    var stacked := StackGroup(ws, srcs, lay, n, normals, group, terms, extractors, args);
    assert Suits(ev, lay, |srcs|, ws.out.nOut, terms, stacked);
    Evaluate(ev, ws.out, ws.batches, ws.extractors, stacked);
  }

  /** Slot j of the stacked batches holds the point with the seed set. */
  ghost predicate SlotSeeded(ads: seq<PointBatch<Dual>>, adExtractors: array<Dual>, stacked: seq<seq<real>>,
                             lay: Layout, arg: PointArg, seed: Seed, j: nat)
    reads adExtractors, set ad | ad in ads
  {
    && j < |stacked| && (forall ad :: ad in ads ==> ad.Valid() && j < ad.n)
    && Shaped(lay, |ads|, arg) && IsSeed(lay, |ads|, seed)
    && ArgAt(ads, adExtractors, stacked, j) == SeedArg(lay, arg, seed)
  }

  method StackGroup(ws: SeedStackWorkspace, srcs: seq<PointBatch<real>>, lay: Layout, n: nat,
                    normals: seq<seq<real>>, group: seq<Seed>, terms: Terms,
                    ghost extractors: seq<real>, ghost args: seq<PointArg>)
    returns (stacked: seq<seq<real>>)
    requires ws.Fits(srcs, lay, n) && |normals| == n && AreBaseArgs(args, srcs, extractors, normals, lay)
    requires ws.extractors[..] == LiftedAll(extractors)
    requires forall b :: 0 <= b < |group| ==> IsSeed(lay, |srcs|, group[b])
    modifies ws.batches, ws.out
    ensures ws.out.Valid() && ws.out.terms == terms && ws.out.n == Area(|group|, n) == |stacked|
    ensures Ready(ws.batches, ws.out.n, ws.extractors)
    ensures forall j :: 0 <= j < |stacked| ==> stacked[j] in normals
    ensures forall b: nat, i: nat :: b < |group| && i < n ==>
              SlotSeeded(ws.batches, ws.extractors, stacked, lay, args[i], group[b], Slot(b, n, i))
  {
    hide Slot, Area, Column, Filled, SeedArg, SlotSeeded;
    ws.Prepare(srcs, lay, n, |group|, terms);
    FillGroup(ws.batches, srcs, lay, n, group);
    stacked := StackNormals(normals, |group|);
    StackIsSeeded(ws.batches, ws.extractors, stacked, srcs, extractors, normals, lay, group, args);
  }

  lemma StackIsSeeded(ads: seq<PointBatch<Dual>>, adExtractors: array<Dual>, stacked: seq<seq<real>>,
                      srcs: seq<PointBatch<real>>, extractors: seq<real>, normals: seq<seq<real>>,
                      lay: Layout, group: seq<Seed>, args: seq<PointArg>)
    requires AreBaseArgs(args, srcs, extractors, normals, lay) && adExtractors[..] == LiftedAll(extractors)
    requires Aligned(ads, srcs, lay, |args|, |stacked|)
    requires forall b: nat, i: nat :: b < |group| && i < |args| ==>
               && Filled(ads, srcs, lay, |args|, |stacked|, group, b, i)
               && Slot(b, |args|, i) < |stacked| && stacked[Slot(b, |args|, i)] == normals[i]
    ensures forall b: nat, i: nat :: b < |group| && i < |args| ==>
              SlotSeeded(ads, adExtractors, stacked, lay, args[i], group[b], Slot(b, |args|, i))
  {
    hide Slot, Area, Column, SeedArg, Filled, AreBaseArgs, Aligned, SlotSeeded;
    forall b: nat, i: nat | b < |group| && i < |args|
      ensures SlotSeeded(ads, adExtractors, stacked, lay, args[i], group[b], Slot(b, |args|, i))
    {
      StackedSlot(ads, adExtractors, stacked, srcs, extractors, normals, lay, group, args, b, i);
    }
  }

  lemma StackedSlot(ads: seq<PointBatch<Dual>>, adExtractors: array<Dual>, stacked: seq<seq<real>>,
                    srcs: seq<PointBatch<real>>, extractors: seq<real>, normals: seq<seq<real>>,
                    lay: Layout, group: seq<Seed>, args: seq<PointArg>, b: nat, i: nat)
    requires AreBaseArgs(args, srcs, extractors, normals, lay) && adExtractors[..] == LiftedAll(extractors)
    requires Aligned(ads, srcs, lay, |args|, |stacked|) && b < |group| && i < |args|
    requires Filled(ads, srcs, lay, |args|, |stacked|, group, b, i)
    requires Slot(b, |args|, i) < |stacked| && stacked[Slot(b, |args|, i)] == normals[i]
    ensures SlotSeeded(ads, adExtractors, stacked, lay, args[i], group[b], Slot(b, |args|, i))
  {
    hide Slot, Area, Column, SeedArg;
    assert args[i] == BaseArg(srcs, extractors, normals, i) && Shaped(lay, |srcs|, args[i]);
    assert IsSeed(lay, |ads|, group[b]);
    SlotIsSeededPoint(ads, adExtractors, stacked, srcs, extractors, normals, lay, |args|, |stacked|, group, b, i);
  }

  /** Evaluate one group of seeds and scatter the result; no stack of more than one copy exceeds the limit. */
  method RunGroup(ev: Evaluation, J: Jacobian, ws: SeedStackWorkspace, srcs: seq<PointBatch<real>>, lay: Layout,
                  n: nat, normals: seq<seq<real>>, group: seq<Seed>, terms: Terms,
                  ghost extractors: seq<real>, ghost args: seq<PointArg>, ghost maxStacked: nat)
    requires |group| <= 1 || Area(|group|, n) <= maxStacked
    requires ws.Fits(srcs, lay, n) && |normals| == n && AreBaseArgs(args, srcs, extractors, normals, lay)
    requires !terms.diffusion && Suits(ev, lay, |srcs|, ws.out.nOut, terms, normals)
    requires ws.extractors[..] == LiftedAll(extractors)
    requires forall b :: 0 <= b < |group| ==> IsSeed(lay, |srcs|, group[b])
    modifies J, ws.batches, ws.out
    ensures ws.Fits(srcs, lay, n) && AreBaseArgs(args, srcs, extractors, normals, lay)
    ensures forall k: JKey :: J.Get(k) ==
              if Covers(lay, |srcs|, n, OutLayout(lay.dim, ws.out.nOut, terms), group, k)
              then Entry(ev, lay, args[k.point], k.side, k.out, k.input.key) else old(J.Get(k))
  {
    hide Slot, Area, Column, SeedArg, PointValue, Entry, Suits;
    EvaluateGroup(ev, ws, srcs, lay, n, normals, group, terms, extractors, args);
    ScatterGroup(J, ws.out, lay, group, n, ev, args, |srcs|);
  }

  // ----- extractor directions -----

  /** The entry of extractor e, with respect to which the total derivative is kept at side 0. */
  predicate IsExtractorEntry(n: nat, outLay: OutLayout, k: JKey, e: nat) {
    k.point < n && k.side == 0 && k.input == Extractor(e) && outLay.Has(k.out)
  }

  /** The entry of one of the first extractors. */
  predicate AnyExtractorEntry(n: nat, outLay: OutLayout, k: JKey, nExtractors: nat) {
    k.point < n && k.side == 0 && k.input.Extractor? && k.input.e < nExtractors && outLay.Has(k.out)
  }

  method ScatterExtractor(J: Jacobian, out: BatchOutput, n: nat, e: nat)
    requires out.Valid() && !out.terms.diffusion && out.n == n
    modifies J
    ensures forall k: JKey :: J.Get(k) ==
              if IsExtractorEntry(n, out.Lay(), k, e) then out.At(k.out, k.point).d else old(J.Get(k))
  {
    hide Slot, Area, Column;
    for i := 0 to n
      invariant forall k: JKey :: J.Get(k) ==
                  if IsExtractorEntry(i, out.Lay(), k, e) then out.At(k.out, k.point).d else old(J.Get(k))
    {
      for c := 0 to out.nOut
        invariant forall k: JKey :: J.Get(k) ==
                    if IsExtractorEntry(i + 1, out.Lay(), k, e) && (k.point < i || k.out.c < c)
                    then out.At(k.out, k.point).d else old(J.Get(k))
      {
        if out.terms.source {
          J.Set(JKey(i, 0, Source(c), Extractor(e)), out.At(Source(c), i).d);
        }
        if out.terms.flux {
          for d := 0 to out.dim
            invariant forall k: JKey :: J.Get(k) ==
                        if IsExtractorEntry(i + 1, out.Lay(), k, e) &&
                           (k.point < i || k.out.c < c || (k.out.c == c && (k.out.Source? || k.out.d < d)))
                        then out.At(k.out, k.point).d else old(J.Get(k))
          {
            J.Set(JKey(i, 0, Flux(c, d), Extractor(e)), out.At(Flux(c, d), i).d);
          }
        }
      }
    }
  }

  method CopyAll(ads: seq<PointBatch<Dual>>, srcs: seq<PointBatch<real>>, lay: Layout, n: nat)
    requires Aligned(ads, srcs, lay, n, n)
    modifies ads
    ensures Aligned(ads, srcs, lay, n, n)
    ensures forall s :: 0 <= s < |ads| ==> ads[s].extractors == old(ads[s].extractors)
    ensures forall s, i :: 0 <= s < |ads| && 0 <= i < n ==> ads[s].At(i) == Lifted(srcs[s].At(i))
  {
    hide Slot, Area, Column;
    for i := 0 to n
      invariant Aligned(ads, srcs, lay, n, n)
      invariant forall s :: 0 <= s < |ads| ==> ads[s].extractors == old(ads[s].extractors)
      invariant forall s, k :: 0 <= s < |ads| && 0 <= k < i ==> ads[s].At(k) == Lifted(srcs[s].At(k))
    {
      CopySlot(ads, srcs, lay, n, n, i, i);
    }
  }

  /** An evaluation of the unseeded points along extractor e. */
  method EvaluateExtractor(ev: Evaluation, ws: SeedStackWorkspace, srcs: seq<PointBatch<real>>, lay: Layout,
                           n: nat, normals: seq<seq<real>>, e: nat, terms: Terms,
                           ghost extractors: seq<real>, ghost args: seq<PointArg>)
    requires ws.Fits(srcs, lay, n) && |normals| == n && AreBaseArgs(args, srcs, extractors, normals, lay)
    requires Suits(ev, lay, |srcs|, ws.out.nOut, terms, normals)
    requires e < |extractors| && ws.extractors[..] == LiftedAll(extractors)[e := Seeded(Plain(extractors[e]))]
    modifies ws.batches, ws.out
    ensures ws.out.Valid() && ws.out.n == n && ws.out.terms == terms
    ensures forall o: Out, i: nat :: ws.out.Lay().Has(o) && i < n ==>
              e < |args[i].extractors| && ws.out.At(o, i) == PointValue(ev, SeedExtractor(args[i], e), o)
  {
    hide Slot, Area, Column, PointValue, Suits, SeedExtractor;
    StackExtractor(ws, srcs, lay, n, normals, e, terms, extractors, args);
    Evaluate(ev, ws.out, ws.batches, ws.extractors, normals);
  }

  method StackExtractor(ws: SeedStackWorkspace, srcs: seq<PointBatch<real>>, lay: Layout, n: nat,
                        ghost normals: seq<seq<real>>, ghost e: nat, terms: Terms,
                        ghost extractors: seq<real>, ghost args: seq<PointArg>)
    requires ws.Fits(srcs, lay, n) && |normals| == n && AreBaseArgs(args, srcs, extractors, normals, lay)
    requires e < |extractors| && ws.extractors[..] == LiftedAll(extractors)[e := Seeded(Plain(extractors[e]))]
    modifies ws.batches, ws.out
    ensures ws.out.Valid() && ws.out.n == n && ws.out.terms == terms && Ready(ws.batches, n, ws.extractors)
    ensures forall i: nat :: i < n ==>
              e < |args[i].extractors| && ArgAt(ws.batches, ws.extractors, normals, i) == SeedExtractor(args[i], e)
  {
    assert Area(1, n) == n;
    hide Slot, Area, Column, SeedExtractor;
    ws.Prepare(srcs, lay, n, 1, terms);
    CopyAll(ws.batches, srcs, lay, n);
    CopiesAreSeeded(ws.batches, ws.extractors, srcs, extractors, normals, lay, args, e);
  }

  /** One evaluation per extractor, as all points and traces share it. */
  method RunExtractor(ev: Evaluation, J: Jacobian, ws: SeedStackWorkspace, srcs: seq<PointBatch<real>>, lay: Layout,
                      n: nat, normals: seq<seq<real>>, e: nat, terms: Terms,
                      ghost extractors: seq<real>, ghost args: seq<PointArg>)
    requires ws.Fits(srcs, lay, n) && |normals| == n && AreBaseArgs(args, srcs, extractors, normals, lay)
    requires !terms.diffusion && Suits(ev, lay, |srcs|, ws.out.nOut, terms, normals)
    requires ws.extractors[..] == LiftedAll(extractors) && e < |extractors|
    modifies J, ws.batches, ws.out, ws.extractors
    ensures ws.Fits(srcs, lay, n) && AreBaseArgs(args, srcs, extractors, normals, lay)
    ensures ws.extractors[..] == LiftedAll(extractors)
    ensures forall k: JKey :: J.Get(k) ==
              if IsExtractorEntry(n, OutLayout(lay.dim, ws.out.nOut, terms), k, e)
              then PointValue(ev, SeedExtractor(args[k.point], e), k.out).d else old(J.Get(k))
  {
    hide Slot, Area, Column, PointValue, Suits, SeedExtractor;
    ws.extractors[e] := Seeded(ws.extractors[e]);
    EvaluateExtractor(ev, ws, srcs, lay, n, normals, e, terms, extractors, args);
    ws.extractors[e] := ws.extractors[e].(d := 0.0);
    assert ws.extractors[..] == LiftedAll(extractors);
    ScatterExtractor(J, ws.out, n, e);
  }

  lemma CopiesAreSeeded(ads: seq<PointBatch<Dual>>, adExtractors: array<Dual>, srcs: seq<PointBatch<real>>,
                        extractors: seq<real>, normals: seq<seq<real>>, lay: Layout, args: seq<PointArg>, e: nat)
    requires AreBaseArgs(args, srcs, extractors, normals, lay) && e < |extractors| && |ads| == |srcs|
    requires adExtractors[..] == LiftedAll(extractors)[e := Seeded(Plain(extractors[e]))]
    requires Aligned(ads, srcs, lay, |args|, |args|)
    requires forall s, i :: 0 <= s < |ads| && 0 <= i < |args| ==> ads[s].At(i) == Lifted(srcs[s].At(i))
    ensures forall i: nat :: i < |args| ==>
              (forall b :: b in ads ==> b.Valid() && i < b.n) && e < |args[i].extractors| &&
              ArgAt(ads, adExtractors, normals, i) == SeedExtractor(args[i], e)
  {
    hide Slot, Area, Column;
    forall i: nat | i < |args|
      ensures forall b :: b in ads ==> b.Valid() && i < b.n
      ensures ArgAt(ads, adExtractors, normals, i) == SeedExtractor(args[i], e)
    {
      assert forall b :: b in ads ==> b.Valid() && i < b.n;
      assert Traces(ads, i) == args[i].sides;
    }
  }

  // ----- the result -----

  /** Entry k of the jacobian of n points, or None if no seed reaches it. */
  ghost function Expected(ev: Evaluation, lay: Layout, outLay: OutLayout, args: seq<PointArg>, nSides: nat,
                          nExtractors: nat, k: JKey): Option<real>
    requires lay.Valid()
    requires forall i :: 0 <= i < |args| ==> Shaped(lay, nSides, args[i]) && |args[i].extractors| >= nExtractors
  {
    if k.point >= |args| || !outLay.Has(k.out) then None
    else if k.input.State? && IsSeed(lay, nSides, Seed(k.side, Ordered(k.input.key))) then
      assert Shaped(lay, nSides, args[k.point]);
      Some(Entry(ev, lay, args[k.point], k.side, k.out, k.input.key))
    else if k.input.Extractor? && k.side == 0 && k.input.e < nExtractors then
      Some(PointValue(ev, SeedExtractor(args[k.point], k.input.e), k.out).d)
    else None
  }

  /**
   The jacobian of a batch evaluation. Whatever max_stacked is, and hence however the seeds are grouped, every seeded
   entry is the derivative of the unstacked evaluation of its point, and every other entry keeps its value.
   */
  method SeedStackedJacobian(ev: Evaluation, J: Jacobian, ws: SeedStackWorkspace, srcs: seq<PointBatch<real>>,
                             lay: Layout, n: nat, normals: seq<seq<real>>, maxStacked: nat, terms: Terms,
                             extractors: array<real>, extractorSeeds: bool, ghost args: seq<PointArg>)
    requires ws.Fits(srcs, lay, n) && |normals| == n && AreBaseArgs(args, srcs, extractors[..], normals, lay)
    requires !terms.diffusion && Suits(ev, lay, |srcs|, ws.out.nOut, terms, normals)
    requires ws.extractors.Length == extractors.Length
    requires (extractors as object) != ws.extractors
    modifies J, ws.batches, ws.out, ws.extractors
    ensures forall k: JKey ::
              var x := Expected(ev, lay, OutLayout(lay.dim, ws.out.nOut, terms), args, |srcs|,
                                if extractorSeeds then extractors.Length else 0, k);
              J.Get(k) == if x.Some? then x.value else old(J.Get(k))
  {
    hide Slot, Area, Column, PointValue, SeedArg, SeedExtractor, Entry, Suits, Expected;
    if n == 0 {
      NoPoints(ev, lay, OutLayout(lay.dim, ws.out.nOut, terms), |srcs|);
      return;
    }
    LiftExtractors(ws.extractors, extractors);
    RunStateSeeds(ev, J, ws, srcs, lay, n, normals, maxStacked, terms, extractors[..], args);
    if extractorSeeds {
      RunExtractorSeeds(ev, J, ws, srcs, lay, n, normals, terms, extractors[..], args, extractors.Length);
      ExtractorsExpected(ev, lay, OutLayout(lay.dim, ws.out.nOut, terms), args, |srcs|, extractors.Length);
    }
  }

  /** The extractor entries are what the jacobian holds beyond the state entries. */
  lemma ExtractorsExpected(ev: Evaluation, lay: Layout, outLay: OutLayout, args: seq<PointArg>, nSides: nat,
                           nExtractors: nat)
    requires lay.Valid()
    requires forall i :: 0 <= i < |args| ==> Shaped(lay, nSides, args[i]) && |args[i].extractors| >= nExtractors
    ensures forall k :: Expected(ev, lay, outLay, args, nSides, nExtractors, k)
                        == if AnyExtractorEntry(|args|, outLay, k, nExtractors)
                           then Some(PointValue(ev, SeedExtractor(args[k.point], k.input.e), k.out).d)
                           else Expected(ev, lay, outLay, args, nSides, 0, k)
  {
    hide PointValue, SeedExtractor, Entry;
  }

  lemma NoPoints(ev: Evaluation, lay: Layout, outLay: OutLayout, nSides: nat)
    requires lay.Valid()
    ensures forall e: nat, k :: Expected(ev, lay, outLay, [], nSides, e, k) == None
  {
  }

  method LiftExtractors(ads: array<Dual>, extractors: array<real>)
    requires ads.Length == extractors.Length && (extractors as object) != ads
    modifies ads
    ensures ads[..] == LiftedAll(extractors[..])
  {
    for e := 0 to extractors.Length
      invariant forall k :: 0 <= k < e ==> ads[k] == Plain(extractors[k])
    {
      ads[e] := Plain(extractors[e]);
    }
  }

  /** One evaluation per extractor, on top of whatever the jacobian holds for the state seeds. */
  method RunExtractorSeeds(ev: Evaluation, J: Jacobian, ws: SeedStackWorkspace, srcs: seq<PointBatch<real>>,
                           lay: Layout, n: nat, normals: seq<seq<real>>, terms: Terms, ghost extractors: seq<real>,
                           ghost args: seq<PointArg>, nExtractors: nat)
    requires ws.Fits(srcs, lay, n) && |normals| == n && AreBaseArgs(args, srcs, extractors, normals, lay)
    requires !terms.diffusion && Suits(ev, lay, |srcs|, ws.out.nOut, terms, normals)
    requires ws.extractors[..] == LiftedAll(extractors) && nExtractors == |extractors|
    modifies J, ws.batches, ws.out, ws.extractors
    ensures forall k: JKey ::
              J.Get(k) == if AnyExtractorEntry(n, OutLayout(lay.dim, ws.out.nOut, terms), k, nExtractors)
                          then PointValue(ev, SeedExtractor(args[k.point], k.input.e), k.out).d else old(J.Get(k))
  {
    hide Slot, Area, Column, PointValue, SeedExtractor, Suits;
    for e := 0 to nExtractors
      invariant ws.Fits(srcs, lay, n) && AreBaseArgs(args, srcs, extractors, normals, lay)
      invariant ws.extractors[..] == LiftedAll(extractors)
      invariant forall k: JKey ::
                  J.Get(k) == if AnyExtractorEntry(n, OutLayout(lay.dim, ws.out.nOut, terms), k, e)
                              then PointValue(ev, SeedExtractor(args[k.point], k.input.e), k.out).d
                              else old(J.Get(k))
    {
      RunExtractor(ev, J, ws, srcs, lay, n, normals, e, terms, extractors, args);
    }
  }

  /** With every seed run, the covered entries are the expected ones. */
  lemma StatesExpected(ev: Evaluation, lay: Layout, outLay: OutLayout, args: seq<PointArg>, nSides: nat, n: nat,
                       seeds: seq<Seed>)
    requires lay.Valid() && |args| == n && forall s: Seed :: s in seeds <==> IsSeed(lay, nSides, s)
    requires forall i :: 0 <= i < n ==> Shaped(lay, nSides, args[i])
    ensures forall k: JKey ::
              Expected(ev, lay, outLay, args, nSides, 0, k) ==
              if Covers(lay, nSides, n, outLay, seeds, k)
              then Some(Entry(ev, lay, args[k.point], k.side, k.out, k.input.key)) else None
  {
    hide Entry;
  }

  lemma GroupFits(size: nat, n: nat, limit: nat)
    requires n > 0 && size <= limit / n
    ensures Area(size, n) <= limit
  {
    assert size * n <= limit / n * n <= limit;
  }

  /** All state seeds, stacked up to maxStacked points per evaluation. */
  method RunStateSeeds(ev: Evaluation, J: Jacobian, ws: SeedStackWorkspace, srcs: seq<PointBatch<real>>, lay: Layout,
                       n: nat, normals: seq<seq<real>>, maxStacked: nat, terms: Terms,
                       ghost extractors: seq<real>, ghost args: seq<PointArg>)
    requires ws.Fits(srcs, lay, n) && |normals| == n > 0 && AreBaseArgs(args, srcs, extractors, normals, lay)
    requires !terms.diffusion && Suits(ev, lay, |srcs|, ws.out.nOut, terms, normals)
    requires ws.extractors[..] == LiftedAll(extractors)
    modifies J, ws.batches, ws.out
    ensures ws.Fits(srcs, lay, n) && AreBaseArgs(args, srcs, extractors, normals, lay)
    ensures forall k: JKey ::
              var x := Expected(ev, lay, OutLayout(lay.dim, ws.out.nOut, terms), args, |srcs|, 0, k);
              J.Get(k) == if x.Some? then x.value else old(J.Get(k))
  {
    hide Slot, Area, Column, PointValue, SeedArg, Entry, Suits, Expected;
    ghost var outLay := OutLayout(lay.dim, ws.out.nOut, terms);
    var seeds := BatchSeeds(lay, |srcs|);
    var perGroup := if maxStacked / n > 1 then maxStacked / n else 1;
    var g0 := 0;
    CoversGrows(lay, |srcs|, n, outLay, [], []);
    assert seeds[..0] == [];
    while g0 < |seeds|
      invariant ws.Fits(srcs, lay, n) && AreBaseArgs(args, srcs, extractors, normals, lay)
      invariant 0 <= g0 <= |seeds|
      invariant forall k: JKey :: J.Get(k) ==
                  if Covers(lay, |srcs|, n, outLay, seeds[..g0], k)
                  then Entry(ev, lay, args[k.point], k.side, k.out, k.input.key) else old(J.Get(k))
    {
      var size := if perGroup < |seeds| - g0 then perGroup else |seeds| - g0;
      var group := seeds[g0..g0 + size];
      assert forall b :: 0 <= b < |group| ==> group[b] in seeds;
      if size > 1 {
        GroupFits(size, n, maxStacked);
      }
      RunGroup(ev, J, ws, srcs, lay, n, normals, group, terms, extractors, args, maxStacked);
      assert seeds[..g0 + size] == seeds[..g0] + group;
      CoversGrows(lay, |srcs|, n, outLay, seeds[..g0], group);
      g0 := g0 + size;
    }
    assert seeds[..g0] == seeds;
    StatesExpected(ev, lay, outLay, args, |srcs|, n, seeds);
  }
}
