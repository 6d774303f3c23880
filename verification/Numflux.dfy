/**
 Pointwise evaluation of a batch (DiFfRG/include/DiFfRG/model/batch.hh:586-686) and the local Lax-Friedrichs flux
 (DiFfRG/include/DiFfRG/model/numflux.hh), per point and batched over 2 + 2 N stacked copies of the traces.
 */
module NumericalFlux {
  import opened Prelude
  import opened DualNumbers
  import opened Batches
  import opened Slots

  /** Everything a per-point callback sees: one trace per side of the point, the shared extractors, the normal. */
  datatype PointArg = PointArg(sides: seq<Trace<Dual>>, extractors: seq<Dual>, normal: seq<real>)

  /** The per-point callbacks of a model; each output is a function of what the callback sees. */
  type PointFn = (PointArg, Out) -> Dual

  // ----- per-point evaluation of a whole batch -----

  ghost predicate Ready(batches: seq<PointBatch<Dual>>, n: nat, extractors: array<Dual>)
    reads set s | s in batches
  {
    forall b :: b in batches ==> b.Valid() && b.n == n && b.extractors == extractors
  }

  /** The traces of point j, one per side. */
  function Traces(batches: seq<PointBatch<Dual>>, j: nat): (r: seq<Trace<Dual>>)
    requires forall b :: b in batches ==> b.Valid() && j < b.n
    reads set b | b in batches
    ensures |r| == |batches| && forall s :: 0 <= s < |r| ==> r[s] == batches[s].At(j)
  {
    if batches == [] then [] else [batches[0].At(j)] + Traces(batches[1..], j)
  }

  function ArgAt(batches: seq<PointBatch<Dual>>, extractors: array<Dual>, normals: seq<seq<real>>, j: nat): PointArg
    requires forall b :: b in batches ==> b.Valid() && j < b.n
    requires j < |normals|
    reads extractors, set s | s in batches
  {
    PointArg(Traces(batches, j), extractors[..], normals[j])
  }

  /** Store every requested output of point j. */
  method StorePoint(f: PointFn, arg: PointArg, out: BatchOutput, j: nat)
    requires out.Valid() && j < out.n
    modifies out`data
    ensures out.Valid()
    ensures forall o: Out, i: nat :: out.Lay().Has(o) && i < out.n ==>
              out.At(o, i) == if i == j then f(arg, o) else old(out.At(o, i))
  {
    hide Slot, Area, Column;
    for c := 0 to out.nOut
      invariant out.Valid()
      invariant forall o: Out, i: nat :: out.Lay().Has(o) && i < out.n ==>
                  out.At(o, i) == if i == j && o.c < c then f(arg, o) else old(out.At(o, i))
    {
      if out.terms.source {
        out.Write(Source(c), j, f(arg, Source(c)));
      }
      for d := 0 to out.dim
        invariant out.Valid()
        invariant forall o: Out, i: nat :: out.Lay().Has(o) && i < out.n ==>
                    out.At(o, i) == if i == j && (o.c < c || (o.c == c && (o.Source? || o.d < d))) then f(arg, o)
                                    else old(out.At(o, i))
      {
        if out.terms.flux {
          out.Write(Flux(c, d), j, f(arg, Flux(c, d)));
        }
        if out.terms.diffusion {
          out.Write(Diffusion(c, d), j, f(arg, Diffusion(c, d)));
        }
      }
    }
  }

  method EvaluatePerPoint(f: PointFn, out: BatchOutput, batches: seq<PointBatch<Dual>>, extractors: array<Dual>,
                          normals: seq<seq<real>>)
    requires batches != [] && Ready(batches, out.n, extractors) && |normals| == out.n && out.Valid()
    requires forall b :: b in batches ==> (b as object) != out
    modifies out`data
    ensures out.Valid()
    ensures forall o: Out, j: nat :: out.Lay().Has(o) && j < out.n ==>
              out.At(o, j) == f(ArgAt(batches, extractors, normals, j), o)
  {
    hide Slot, Area, Column;
    for j := 0 to out.n
      invariant out.Valid()
      invariant forall o: Out, i: nat :: out.Lay().Has(o) && i < j ==>
                  out.At(o, i) == f(ArgAt(batches, extractors, normals, i), o)
    {
      StorePoint(f, ArgAt(batches, extractors, normals, j), out, j);
    }
  }

  /** The fluxes at all points of a single batch. */
  method EvaluateTrace(f: PointFn, b: PointBatch<Dual>, extractors: array<Dual>, dim: nat, nOut: nat)
    returns (F: BatchOutput)
    requires b.Valid() && b.extractors == extractors
    ensures fresh(F) && F.Valid() && F.dim == dim && F.nOut == nOut && F.n == b.n
    ensures F.terms == Terms(true, false, false)
    ensures forall o: Out, i: nat :: F.Lay().Has(o) && i < F.n ==> F.At(o, i) == f(One(b.At(i), extractors[..]), o)
  {
    hide Slot, Area, Column;
    F := new BatchOutput(dim, nOut);
    F.Reinit(b.n, Terms(true, false, false));
    var noNormals := seq(b.n, _ => []);
    EvaluatePerPoint(f, F, [b], extractors, noNormals);
    assert forall i: nat :: i < b.n ==> ArgAt([b], extractors, noNormals, i) == One(b.At(i), extractors[..]);
  }

  // ----- the local Lax-Friedrichs flux at one face point -----

  /** The step of the finite difference that estimates the dissipation speed. */
  function Bump(us: Dual, un: Dual): Dual {
    Mul(Plain(0.00001), Add(Mul(Plain(0.5), Add(AbsD(us), AbsD(un))), Plain(0.000000001)))
  }

  function Bumped(t: Trace<Dual>, c: nat, du: Dual): Trace<Dual>
    requires c < |t.cols|
  {
    t.(cols := t.cols[c := Add(t.cols[c], du)])
  }

  /** The solution tuple of one trace. */
  function One(t: Trace<Dual>, extractors: seq<Dual>): PointArg {
    PointArg([t], extractors, [])
  }

  /** The first k terms of F_c . n */
  function Dot(f: PointFn, arg: PointArg, c: nat, normal: seq<real>, k: nat): Dual
    requires k <= |normal|
  {
    if k == 0 then Plain(0.0)
    else Add(Dot(f, arg, c, normal, k - 1), Mul(f(arg, Flux(c, k - 1)), Plain(normal[k - 1])))
  }

  /** The traces of a face point on side s and on side n, the extractors each sees, and the normal out of side s. */
  datatype Face = Face(s: Trace<Dual>, n: Trace<Dual>, extractorsS: seq<Dual>, extractorsN: seq<Dual>,
                       normal: seq<real>)

  function Speed(f: PointFn, a: Face, c: nat): Dual
    requires c < |a.s.cols| && c < |a.n.cols|
  {
    var k := |a.normal|;
    var du := Bump(a.s.cols[c], a.n.cols[c]);
    var fs, fn := Dot(f, One(a.s, a.extractorsS), c, a.normal, k), Dot(f, One(a.n, a.extractorsN), c, a.normal, k);
    var dfs := Dot(f, One(Bumped(a.s, c, du), a.extractorsS), c, a.normal, k);
    var dfn := Dot(f, One(Bumped(a.n, c, du), a.extractorsN), c, a.normal, k);
    Div(MaxD(AbsD(Sub(dfs, fs)), AbsD(Sub(dfn, fn))), du)
  }

  function LaxFriedrichs(f: PointFn, a: Face, c: nat, d: nat): Dual
    requires c < |a.s.cols| && c < |a.n.cols| && d < |a.normal|
  {
    var mean := Mul(Plain(0.5), Add(f(One(a.s, a.extractorsS), Flux(c, d)), f(One(a.n, a.extractorsN), Flux(c, d))));
    var jump := Sub(a.n.cols[c], a.s.cols[c]);
    Sub(mean, Penalty(Speed(f, a, c), jump, a.normal[d]))
  }

  /** Both traces taken at the face point p. */
  function Placed(a: Face, p: seq<real>): Face {
    a.(s := a.s.(x := p), n := a.n.(x := p))
  }

  /**
   numflux at one face point p: both traces are taken there, perturbed one component at a time and restored. Traces
   that carry the position p themselves, as those of a face batch do, are taken as they are.
   */
  method NumfluxPoint(f: PointFn, face: Face, p: seq<real>, nFe: nat, dim: nat) returns (nf: seq<seq<Dual>>)
    requires nFe <= |face.s.cols| && nFe <= |face.n.cols| && |face.normal| == dim
    ensures |nf| == nFe && forall c :: 0 <= c < nFe ==> |nf[c]| == dim
    ensures forall c, d :: 0 <= c < nFe && 0 <= d < dim ==> nf[c][d] == LaxFriedrichs(f, Placed(face, p), c, d)
    ensures face.s.x == face.n.x == p ==> Placed(face, p) == face
  {
    hide Add, Sub, Mul, Div, AbsD, MaxD, Bump, Penalty;
    var a := Placed(face, p);
    nf := [];
    var s, n := a.s, a.n;
    for c := 0 to nFe
      invariant s == a.s && n == a.n
      invariant |nf| == c && forall c' :: 0 <= c' < c ==> |nf[c']| == dim
      invariant forall c', d :: 0 <= c' < c && 0 <= d < dim ==> nf[c'][d] == LaxFriedrichs(f, a, c', d)
    {
      var du := Bump(a.s.cols[c], a.n.cols[c]);
      s, n := Bumped(s, c, du), Bumped(n, c, du);
      var fs := Dot(f, One(a.s, a.extractorsS), c, a.normal, dim);
      var fn := Dot(f, One(a.n, a.extractorsN), c, a.normal, dim);
      var dfs, dfn := Dot(f, One(s, a.extractorsS), c, a.normal, dim), Dot(f, One(n, a.extractorsN), c, a.normal, dim);
      s := s.(cols := s.cols[c := a.s.cols[c]]);
      n := n.(cols := n.cols[c := a.n.cols[c]]);
      var alpha := Div(MaxD(AbsD(Sub(dfs, fs)), AbsD(Sub(dfn, fn))), du);
      var row := [];
      for d := 0 to dim
        invariant |row| == d
        invariant forall e :: 0 <= e < d ==> row[e] == LaxFriedrichs(f, a, c, e)
      {
        var sum := Add(f(One(a.s, a.extractorsS), Flux(c, d)), f(One(a.n, a.extractorsN), Flux(c, d)));
        var mean := Mul(Plain(0.5), sum);
        var jump := Sub(a.n.cols[c], a.s.cols[c]);
        row := row + [Sub(mean, Penalty(alpha, jump, a.normal[d]))];
      }
      nf := nf + [row];
    }
  }

  // ----- the batched form -----

  /** Block 0 is trace s, block 1 trace n, block 2 + 2c (3 + 2c) trace s (n) with component c perturbed. */
  function Block(s: Trace<Dual>, n: Trace<Dual>, b: nat): Trace<Dual>
    requires b >= 2 ==> (b - 2) / 2 < |s.cols| && (b - 2) / 2 < |n.cols|
  {
    var t := if b % 2 == 0 then s else n;
    if b < 2 then t else Bumped(t, (b - 2) / 2, Bump(s.cols[(b - 2) / 2], n.cols[(b - 2) / 2]))
  }

  method FillBlock(stacked: PointBatch<Dual>, bs: PointBatch<Dual>, bn: PointBatch<Dual>, b: nat, i: nat, j: nat)
    requires bs.Valid() && bn.Valid() && stacked.Valid() && bs.lay == bn.lay == stacked.lay
    requires i < bs.n == bn.n && j < stacked.n && stacked != bs && stacked != bn
    requires b >= 2 ==> (b - 2) / 2 < bs.lay.nFe
    modifies stacked
    ensures stacked.Valid() && stacked.n == old(stacked.n) && stacked.extractors == old(stacked.extractors)
    ensures bs.lay.nFe <= bs.lay.Columns()
    ensures forall k :: 0 <= k < stacked.n ==>
              stacked.At(k) == if k == j then Block(bs.At(i), bn.At(i), b) else old(stacked.At(k))
  {
    hide Slot, Area, Column, Bump, Add;
    stacked.CopyPoint(j, if b % 2 == 0 then bs else bn, i, (x: Dual) => x);
    assert Converted(if b % 2 == 0 then bs.At(i) else bn.At(i), (x: Dual) => x)
           == if b % 2 == 0 then bs.At(i) else bn.At(i);
    if b >= 2 {
      var c := (b - 2) / 2;
      var du := Bump(bs.Read(Value(c), i), bn.Read(Value(c), i));
      stacked.Write(Value(c), j, Add(stacked.Read(Value(c), j), du));
    }
  }

  lemma SlotsDistinct(n: nat)
    ensures forall b: nat, i: nat, b': nat, i': nat ::
              i < n && i' < n && Slot(b, n, i) == Slot(b', n, i') ==> b == b' && i == i'
  {
    forall b: nat, i: nat, b': nat, i': nat | i < n && i' < n && Slot(b, n, i) == Slot(b', n, i')
      ensures b == b' && i == i'
    {
      SlotUnique(b, i, b', i', n);
    }
  }

  method FillBlocks(stacked: PointBatch<Dual>, bs: PointBatch<Dual>, bn: PointBatch<Dual>, nFe: nat)
    requires bs.Valid() && bn.Valid() && stacked.Valid() && bs.lay == bn.lay == stacked.lay && nFe <= bs.lay.nFe
    requires bs.n == bn.n && stacked.n == Area(2 + 2 * nFe, bs.n) && stacked != bs && stacked != bn
    modifies stacked
    ensures stacked.Valid() && stacked.n == old(stacked.n) && stacked.extractors == old(stacked.extractors)
    ensures bs.lay.nFe <= bs.lay.Columns()
    ensures forall b: nat, i: nat :: b < 2 + 2 * nFe && i < bs.n ==>
              Slot(b, bs.n, i) < stacked.n && stacked.At(Slot(b, bs.n, i)) == Block(bs.At(i), bn.At(i), b)
  {
    var n, blocks := bs.n, 2 + 2 * nFe;
    SlotsDistinct(n);
    hide Slot, Area, Column, Block;
    for i := 0 to n
      invariant stacked.Valid() && stacked.n == old(stacked.n) && stacked.extractors == old(stacked.extractors)
      invariant forall b': nat, i': nat :: b' < blocks && i' < i ==>
                  Slot(b', n, i') < stacked.n && stacked.At(Slot(b', n, i')) == Block(bs.At(i'), bn.At(i'), b')
    {
      for b := 0 to blocks
        invariant stacked.Valid() && stacked.n == old(stacked.n) && stacked.extractors == old(stacked.extractors)
        invariant forall b': nat, i': nat :: b' < blocks && (i' < i || (i' == i && b' < b)) ==>
                    Slot(b', n, i') < stacked.n && stacked.At(Slot(b', n, i')) == Block(bs.At(i'), bn.At(i'), b')
      {
        SlotBound(b, blocks, n, i);
        FillBlock(stacked, bs, bn, b, i, Slot(b, n, i));
      }
    }
  }

  /** The flux of component c through the face, read from point j of an output. */
  method DotOf(F: BatchOutput, c: nat, j: nat, normal: seq<real>, ghost f: PointFn, ghost arg: PointArg)
    returns (r: Dual)
    requires F.Valid() && F.terms.flux && c < F.nOut && j < F.n && |normal| == F.dim
    requires forall d: nat :: d < F.dim ==> F.At(Flux(c, d), j) == f(arg, Flux(c, d))
    ensures r == Dot(f, arg, c, normal, |normal|)
  {
    hide Slot, Area, Column;
    r := Plain(0.0);
    for d := 0 to F.dim
      invariant r == Dot(f, arg, c, normal, d)
    {
      r := Add(r, Mul(F.At(Flux(c, d), j), Plain(normal[d])));
    }
  }

  function FaceAt(bs: PointBatch<Dual>, bn: PointBatch<Dual>, extractors: array<Dual>, normal: seq<real>, i: nat): Face
    requires bs.Valid() && bn.Valid() && i < bs.n && i < bn.n
    reads bs, bn, extractors
  {
    Face(bs.At(i), bn.At(i), extractors[..], extractors[..], normal)
  }

  /** F holds, in slot b * n + i, the flux of block b of face point i. */
  ghost predicate HoldsBlocks(F: BatchOutput, f: PointFn, a: Face, n: nat, i: nat)
    reads F
  {
    && F.Valid() && F.terms.flux && F.nOut <= |a.s.cols| && F.nOut <= |a.n.cols| && F.dim == |a.normal|
    && forall b: nat :: b < 2 + 2 * F.nOut ==>
         Slot(b, n, i) < F.n &&
         forall c: nat, d: nat :: c < F.nOut && d < F.dim ==>
           F.At(Flux(c, d), Slot(b, n, i)) == f(One(Block(a.s, a.n, b), a.extractorsS), Flux(c, d))
  }

  lemma FourBlocks(s: Trace<Dual>, n: Trace<Dual>, c: nat)
    requires c < |s.cols| && c < |n.cols|
    ensures Block(s, n, 0) == s && Block(s, n, 1) == n
    ensures Block(s, n, 2 + 2 * c) == Bumped(s, c, Bump(s.cols[c], n.cols[c]))
    ensures Block(s, n, 3 + 2 * c) == Bumped(n, c, Bump(s.cols[c], n.cols[c]))
  {
  }

  method SpeedOf(F: BatchOutput, ghost f: PointFn, a: Face, n: nat, i: nat, c: nat) returns (alpha: Dual)
    requires HoldsBlocks(F, f, a, n, i) && c < F.nOut && a.extractorsN == a.extractorsS
    ensures alpha == Speed(f, a, c)
  {
    hide Slot, Area, Column, Add, Sub, Mul, Div, AbsD, MaxD, Bump, Block;
    FourBlocks(a.s, a.n, c);
    var du := Bump(a.s.cols[c], a.n.cols[c]);
    var fs := DotOf(F, c, Slot(0, n, i), a.normal, f, One(Block(a.s, a.n, 0), a.extractorsS));
    var fn := DotOf(F, c, Slot(1, n, i), a.normal, f, One(Block(a.s, a.n, 1), a.extractorsS));
    var dfs := DotOf(F, c, Slot(2 + 2 * c, n, i), a.normal, f, One(Block(a.s, a.n, 2 + 2 * c), a.extractorsS));
    var dfn := DotOf(F, c, Slot(3 + 2 * c, n, i), a.normal, f, One(Block(a.s, a.n, 3 + 2 * c), a.extractorsS));
    alpha := Div(MaxD(AbsD(Sub(dfs, fs)), AbsD(Sub(dfn, fn))), du);
  }

  /** The flux of component c at face point i, from the fluxes F of the blocks. */
  method CombineComponent(ghost f: PointFn, out: BatchOutput, F: BatchOutput, a: Face, n: nat, i: nat, c: nat)
    requires out.Valid() && out != F && HoldsBlocks(F, f, a, n, i) && a.extractorsN == a.extractorsS
    requires i < out.n && c < out.nOut == F.nOut && out.dim == F.dim && out.terms.flux
    modifies out`data
    ensures out.Valid()
    ensures forall o: Out, j: nat :: out.Lay().Has(o) && j < out.n ==>
              out.At(o, j) == if j == i && o.Flux? && o.c == c then LaxFriedrichs(f, a, c, o.d) else old(out.At(o, j))
  {
    hide Slot, Area, Column, Add, Sub, Mul, Speed, Penalty;
    var alpha := SpeedOf(F, f, a, n, i, c);
    var jump := Sub(a.n.cols[c], a.s.cols[c]);
    for d := 0 to out.dim
      invariant out.Valid()
      invariant forall o: Out, j: nat :: out.Lay().Has(o) && j < out.n ==>
                  out.At(o, j) == if j == i && o.Flux? && o.c == c && o.d < d then LaxFriedrichs(f, a, c, o.d)
                                  else old(out.At(o, j))
    {
      var mean := Mul(Plain(0.5), Add(F.At(Flux(c, d), Slot(0, n, i)), F.At(Flux(c, d), Slot(1, n, i))));
      assert Block(a.s, a.n, 0) == a.s && Block(a.s, a.n, 1) == a.n;
      out.Write(Flux(c, d), i, Sub(mean, Penalty(alpha, jump, a.normal[d])));
    }
  }

  /** One evaluation of the model over all stacked copies of the traces. */
  method EvaluateBlocks(f: PointFn, bs: PointBatch<Dual>, bn: PointBatch<Dual>, extractors: array<Dual>, nOut: nat,
                        dim: nat, ghost normals: seq<seq<real>>)
    returns (F: BatchOutput)
    requires bs.Valid() && bn.Valid() && bs.lay == bn.lay && bs.n == bn.n == |normals| && nOut <= bs.lay.nFe
    requires forall i :: 0 <= i < |normals| ==> |normals[i]| == dim
    ensures fresh(F) && F.dim == dim && F.nOut == nOut
    ensures forall i: nat :: i < bs.n ==>
              HoldsBlocks(F, f, FaceAt(bs, bn, extractors, normals[i], i), bs.n, i)
  {
    var n, blocks := bs.n, 2 + 2 * nOut;
    var stacked := new PointBatch<Dual>(bs.lay);
    hide Slot, Area, Column, Block;
    stacked.Reinit(Area(blocks, n), Plain(0.0));
    stacked.SetShared(extractors);
    FillBlocks(stacked, bs, bn, nOut);
    F := EvaluateTrace(f, stacked, extractors, dim, nOut);
    forall i: nat, b: nat, c: nat, d: nat | i < n && b < blocks && c < nOut && d < dim
      ensures F.At(Flux(c, d), Slot(b, n, i)) == f(One(Block(bs.At(i), bn.At(i), b), extractors[..]), Flux(c, d))
    {
      assert F.Lay().Has(Flux(c, d));
    }
  }

  /**
   numflux at all points of a face batch. Point i of the result is the per-point flux of its two traces, where both
   traces see the extractors of side s: the form refines numflux exactly for traces that share them.
   */
  method NumfluxBatch(f: PointFn, out: BatchOutput, normals: seq<seq<real>>, bs: PointBatch<Dual>,
                      bn: PointBatch<Dual>, extractors: array<Dual>)
    requires bs.Valid() && bn.Valid() && out.Valid() && bs.lay == bn.lay
    requires bs.n == bn.n == out.n == |normals| && out.nOut <= bs.lay.nFe && out.terms.flux
    requires forall i :: 0 <= i < |normals| ==> |normals[i]| == out.dim
    modifies out`data
    ensures out.Valid() && bs.lay.nFe <= bs.lay.Columns()
    ensures forall o: Out, i: nat :: out.Lay().Has(o) && i < out.n ==>
              out.At(o, i) == if o.Flux? then LaxFriedrichs(f, FaceAt(bs, bn, extractors, normals[i], i), o.c, o.d)
                              else old(out.At(o, i))
  {
    hide Slot, Area, Column, LaxFriedrichs;
    var n := bs.n;
    var F := EvaluateBlocks(f, bs, bn, extractors, out.nOut, out.dim, normals);
    for i := 0 to n
      modifies out`data
      invariant out.Valid()
      invariant forall o: Out, j: nat :: out.Lay().Has(o) && j < out.n ==>
                  out.At(o, j) == if j < i && o.Flux?
                                  then LaxFriedrichs(f, FaceAt(bs, bn, extractors, normals[j], j), o.c, o.d)
                                  else old(out.At(o, j))
    {
      CombinePoint(f, out, F, FaceAt(bs, bn, extractors, normals[i], i), n, i);
    }
  }

  method CombinePoint(ghost f: PointFn, out: BatchOutput, F: BatchOutput, a: Face, n: nat, i: nat)
    requires out.Valid() && out != F && HoldsBlocks(F, f, a, n, i) && a.extractorsN == a.extractorsS
    requires i < out.n && out.nOut == F.nOut && out.dim == F.dim && out.terms.flux
    modifies out`data
    ensures out.Valid()
    ensures forall o: Out, j: nat :: out.Lay().Has(o) && j < out.n ==>
              out.At(o, j) == if j == i && o.Flux? then LaxFriedrichs(f, a, o.c, o.d) else old(out.At(o, j))
  {
    hide Slot, Area, Column, LaxFriedrichs;
    for c := 0 to out.nOut
      invariant out.Valid()
      invariant forall o: Out, j: nat :: out.Lay().Has(o) && j < out.n ==>
                  out.At(o, j) == if j == i && o.Flux? && o.c < c then LaxFriedrichs(f, a, o.c, o.d)
                                  else old(out.At(o, j))
    {
      CombineComponent(f, out, F, a, n, i, c);
    }
  }

  // ----- laws of the Lax-Friedrichs flux -----

  /** Consistency: between equal traces the numerical flux is the model's flux, derivatives included. */
  lemma FluxConsistent(f: PointFn, a: Face, c: nat, d: nat)
    requires a.s == a.n && a.extractorsS == a.extractorsN && c < |a.s.cols| && d < |a.normal|
    ensures LaxFriedrichs(f, a, c, d) == f(One(a.s, a.extractorsS), Flux(c, d))
  {
  }

  /** The same face seen from the other cell. */
  function Swapped(a: Face): Face {
    Face(a.n, a.s, a.extractorsN, a.extractorsS, Opposite(a.normal))
  }

  function Opposite(normal: seq<real>): (r: seq<real>)
    ensures |r| == |normal| && forall d :: 0 <= d < |r| ==> r[d] == -normal[d]
  {
    seq(|normal|, d requires 0 <= d < |normal| => -normal[d])
  }

  lemma MulOpposite(x: Dual, y: real)
    ensures Mul(x, Plain(-y)).v == -Mul(x, Plain(y)).v
  {
  }

  lemma {:induction false} DotOpposite(f: PointFn, arg: PointArg, c: nat, normal: seq<real>, k: nat)
    requires k <= |normal|
    ensures Dot(f, arg, c, Opposite(normal), k).v == -Dot(f, arg, c, normal, k).v
  {
    hide Mul;
    if k > 0 {
      DotOpposite(f, arg, c, normal, k - 1);
      MulOpposite(f(arg, Flux(c, k - 1)), normal[k - 1]);
    }
  }

  lemma SpeedSwapped(f: PointFn, a: Face, c: nat)
    requires c < |a.s.cols| && c < |a.n.cols|
    ensures Speed(f, Swapped(a), c).v == Speed(f, a, c).v
  {
    var k := |a.normal|;
    var du := Bump(a.s.cols[c], a.n.cols[c]);
    BumpSymmetric(a.s.cols[c], a.n.cols[c]);
    DotOpposite(f, One(a.s, a.extractorsS), c, a.normal, k);
    DotOpposite(f, One(a.n, a.extractorsN), c, a.normal, k);
    DotOpposite(f, One(Bumped(a.s, c, du), a.extractorsS), c, a.normal, k);
    DotOpposite(f, One(Bumped(a.n, c, du), a.extractorsN), c, a.normal, k);
    hide Dot, Bump, Bumped;
  }

  lemma BumpSymmetric(us: Dual, un: Dual)
    ensures Bump(us, un) == Bump(un, us)
  {
  }

  /** Seen from either cell, the flux through a face is the same vector. */
  lemma FluxSwapped(f: PointFn, a: Face, c: nat, d: nat)
    requires c < |a.s.cols| && c < |a.n.cols| && d < |a.normal|
    ensures LaxFriedrichs(f, Swapped(a), c, d).v == LaxFriedrichs(f, a, c, d).v
  {
    SpeedSwapped(f, a, c);
    PenaltySwapped(Speed(f, a, c), Speed(f, Swapped(a), c), a.n.cols[c], a.s.cols[c], a.normal[d]);
    hide Speed, Mul, Sub;
  }

  function Penalty(alpha: Dual, jump: Dual, y: real): Dual {
    Mul(Mul(Mul(Plain(0.5), alpha), jump), Plain(y))
  }

  lemma PenaltySwapped(alpha: Dual, alpha': Dual, u: Dual, w: Dual, y: real)
    requires alpha.v == alpha'.v
    ensures Penalty(alpha', Sub(w, u), -y).v == Penalty(alpha, Sub(u, w), y).v
  {
  }

  function Along(x: real, y: real): real {
    x * y
  }

  lemma AlongOpposite(x: real, y: real)
    ensures Along(x, -y) == -Along(x, y)
  {
  }

  /** What flows out of side s through the face. */
  function Outflow(f: PointFn, a: Face, c: nat, k: nat): real
    requires c < |a.s.cols| && c < |a.n.cols| && k <= |a.normal|
  {
    if k == 0 then 0.0 else Outflow(f, a, c, k - 1) + Along(LaxFriedrichs(f, a, c, k - 1).v, a.normal[k - 1])
  }

  lemma {:induction false} OutflowSwapped(f: PointFn, a: Face, c: nat, k: nat)
    requires c < |a.s.cols| && c < |a.n.cols| && k <= |a.normal|
    ensures Outflow(f, Swapped(a), c, k) == -Outflow(f, a, c, k)
  {
    hide LaxFriedrichs, Along;
    if k > 0 {
      OutflowSwapped(f, a, c, k - 1);
      FluxSwapped(f, a, c, k - 1);
      AlongOpposite(LaxFriedrichs(f, a, c, k - 1).v, a.normal[k - 1]);
    }
  }

  // ----- what the flux adds to the mean of the two traces -----

  function Squares(normal: seq<real>, k: nat): real
    requires k <= |normal|
  {
    if k == 0 then 0.0 else Squares(normal, k - 1) + Times(normal[k - 1], normal[k - 1])
  }

  /** The flux of a trace through the face. */
  function Through(f: PointFn, t: Trace<Dual>, extractors: seq<Dual>, c: nat, normal: seq<real>): real {
    Dot(f, One(t, extractors), c, normal, |normal|).v
  }

  lemma MeanAlong(x: real, y: real, p: real, n: real)
    ensures Along(0.5 * (x + y) - Times(p, n), n) == 0.5 * (Times(x, n) + Times(y, n)) - Times(p, Times(n, n))
  {
  }

  lemma FluxParts(f: PointFn, a: Face, c: nat, d: nat)
    requires c < |a.s.cols| && c < |a.n.cols| && d < |a.normal|
    ensures LaxFriedrichs(f, a, c, d).v ==
            0.5 * (f(One(a.s, a.extractorsS), Flux(c, d)).v + f(One(a.n, a.extractorsN), Flux(c, d)).v)
            - Times(Dissipation(f, a, c), a.normal[d])
  {
    hide Speed;
  }

  function Dissipation(f: PointFn, a: Face, c: nat): real
    requires c < |a.s.cols| && c < |a.n.cols|
  {
    0.5 * Times(Speed(f, a, c).v, a.n.cols[c].v - a.s.cols[c].v)
  }

  lemma DotGrows(f: PointFn, arg: PointArg, c: nat, normal: seq<real>, k: nat)
    requires 0 < k <= |normal|
    ensures Dot(f, arg, c, normal, k).v
            == Dot(f, arg, c, normal, k - 1).v + Times(f(arg, Flux(c, k - 1)).v, normal[k - 1])
  {
  }

  lemma {:induction false} OutflowSplit(f: PointFn, a: Face, c: nat, k: nat)
    requires c < |a.s.cols| && c < |a.n.cols| && k <= |a.normal|
    ensures Outflow(f, a, c, k) ==
            0.5 * (Dot(f, One(a.s, a.extractorsS), c, a.normal, k).v +
                   Dot(f, One(a.n, a.extractorsN), c, a.normal, k).v)
            - Times(Dissipation(f, a, c), Squares(a.normal, k))
  {
    hide LaxFriedrichs, Dissipation, Along, Times, Dot;
    if k > 0 {
      var p, y := Dissipation(f, a, c), a.normal[k - 1];
      var x, z := f(One(a.s, a.extractorsS), Flux(c, k - 1)).v, f(One(a.n, a.extractorsN), Flux(c, k - 1)).v;
      OutflowSplit(f, a, c, k - 1);
      FluxParts(f, a, c, k - 1);
      DotGrows(f, One(a.s, a.extractorsS), c, a.normal, k);
      DotGrows(f, One(a.n, a.extractorsN), c, a.normal, k);
      MeanAlong(x, z, p, y);
      TimesAdds(p, Squares(a.normal, k - 1), Times(y, y));
      assert Outflow(f, a, c, k) == Outflow(f, a, c, k - 1) + Along(0.5 * (x + z) - Times(p, y), y);
    } else {
      TimesNothing(Dissipation(f, a, c));
      DotNothing(f, One(a.s, a.extractorsS), c, a.normal);
      DotNothing(f, One(a.n, a.extractorsN), c, a.normal);
    }
  }

  lemma DotNothing(f: PointFn, arg: PointArg, c: nat, normal: seq<real>)
    ensures Dot(f, arg, c, normal, 0).v == 0.0
  {
  }

  lemma TimesAdds(p: real, x: real, y: real)
    ensures Times(p, x + y) == Times(p, x) + Times(p, y)
  {
  }

  lemma TimesNothing(p: real)
    ensures Times(p, 0.0) == 0.0 && Times(p, 1.0) == p
  {
  }

  /** How much the flux of a trace through the face changes when component c moves by du. */
  function Response(f: PointFn, t: Trace<Dual>, extractors: seq<Dual>, c: nat, normal: seq<real>, du: Dual): real
    requires c < |t.cols|
  {
    Through(f, t.(cols := t.cols[c := Add(t.cols[c], du)]), extractors, c, normal)
    - Through(f, t, extractors, c, normal)
  }

  /** The larger of the two difference quotients, for a step of a hundred-thousandth of the mean size of the traces. */
  function LargerQuotient(f: PointFn, a: Face, c: nat): real
    requires c < |a.s.cols| && c < |a.n.cols|
  {
    var du := Bump(a.s.cols[c], a.n.cols[c]);
    var x := Abs(Response(f, a.s, a.extractorsS, c, a.normal, du));
    var y := Abs(Response(f, a.n, a.extractorsN, c, a.normal, du));
    BumpStep(a.s.cols[c], a.n.cols[c]);
    (if x < y then y else x) / (0.00001 * (0.5 * (Abs(a.s.cols[c].v) + Abs(a.n.cols[c].v)) + 0.000000001))
  }

  lemma SpeedIsQuotient(f: PointFn, a: Face, c: nat)
    requires c < |a.s.cols| && c < |a.n.cols|
    ensures Speed(f, a, c).v == LargerQuotient(f, a, c) >= 0.0
  {
    hide Bump, Dot, Div, MaxD, AbsD, Sub;
    BumpStep(a.s.cols[c], a.n.cols[c]);
    var k := |a.normal|;
    var du := Bump(a.s.cols[c], a.n.cols[c]);
    QuotientIs(Dot(f, One(a.s, a.extractorsS), c, a.normal, k), Dot(f, One(a.n, a.extractorsN), c, a.normal, k),
               Dot(f, One(Bumped(a.s, c, du), a.extractorsS), c, a.normal, k),
               Dot(f, One(Bumped(a.n, c, du), a.extractorsN), c, a.normal, k), du);
  }

  lemma QuotientIs(fs: Dual, fn: Dual, dfs: Dual, dfn: Dual, du: Dual)
    requires du.v > 0.0
    ensures var x, y := Abs(dfs.v - fs.v), Abs(dfn.v - fn.v);
            Div(MaxD(AbsD(Sub(dfs, fs)), AbsD(Sub(dfn, fn))), du).v == (if x < y then y else x) / du.v >= 0.0
  {
    var x, y := Abs(dfs.v - fs.v), Abs(dfn.v - fn.v);
    assert (if x < y then y else x) >= 0.0;
  }

  lemma BumpStep(us: Dual, un: Dual)
    ensures Bump(us, un).v == 0.00001 * (0.5 * (Abs(us.v) + Abs(un.v)) + 0.000000001) && Bump(us, un).v > 0.0
  {
  }

  /**
   The flux dissipates: through a face with a unit normal it differs from the mean of both traces against the jump, by
   half of the larger difference quotient for each unit of the jump.
   */
  lemma FluxDissipates(f: PointFn, a: Face, c: nat)
    requires c < |a.s.cols| && c < |a.n.cols| && Squares(a.normal, |a.normal|) == 1.0
    ensures var s, n := Through(f, a.s, a.extractorsS, c, a.normal), Through(f, a.n, a.extractorsN, c, a.normal);
            var mean := 0.5 * (s + n);
            var jump := a.n.cols[c].v - a.s.cols[c].v;
            var rest := Outflow(f, a, c, |a.normal|) - mean;
            rest == -0.5 * Times(LargerQuotient(f, a, c), jump) && Times(rest, jump) <= 0.0
  {
    hide Speed, Outflow, Dot, Squares, Times, LargerQuotient;
    OutflowSplit(f, a, c, |a.normal|);
    TimesNothing(Dissipation(f, a, c));
    SpeedIsQuotient(f, a, c);
    AgainstJump(Speed(f, a, c).v, a.n.cols[c].v - a.s.cols[c].v);
  }

  lemma AgainstJump(alpha: real, jump: real)
    requires alpha >= 0.0
    ensures Times(-0.5 * Times(alpha, jump), jump) <= 0.0
  {
    assert jump * jump >= 0.0;
    assert 0.5 * alpha * (jump * jump) >= 0.0;
  }

  function Inner(q: seq<real>, normal: seq<real>, k: nat): real
    requires k <= |q| && k <= |normal|
  {
    if k == 0 then 0.0 else Inner(q, normal, k - 1) + Times(q[k - 1], normal[k - 1])
  }

  /** Component c is carried along with velocity q. */
  ghost predicate Advects(f: PointFn, c: nat, q: seq<real>) {
    forall t: Trace<Dual>, e, d: nat :: c < |t.cols| && d < |q| ==>
                                          f(One(t, e), Flux(c, d)).v == Times(q[d], t.cols[c].v)
  }

  lemma {:induction false} AdvectedThrough(f: PointFn, t: Trace<Dual>, e: seq<Dual>, c: nat, q: seq<real>,
                                           normal: seq<real>, k: nat)
    requires Advects(f, c, q) && c < |t.cols| && k <= |q| && k <= |normal|
    ensures Dot(f, One(t, e), c, normal, k).v == Times(Inner(q, normal, k), t.cols[c].v)
  {
    hide Times;
    if k > 0 {
      AdvectedThrough(f, t, e, c, q, normal, k - 1);
      DotGrows(f, One(t, e), c, normal, k);
      assert f(One(t, e), Flux(c, k - 1)).v == Times(q[k - 1], t.cols[c].v);
      Carried(q[k - 1], t.cols[c].v, normal[k - 1], Inner(q, normal, k - 1));
    } else {
      Carried(0.0, t.cols[c].v, 0.0, 0.0);
    }
  }

  lemma Carried(q: real, u: real, n: real, before: real)
    ensures Times(before, u) + Times(Times(q, u), n) == Times(before + Times(q, n), u) && Times(0.0, u) == 0.0
  {
  }

  /** The upwind law: what is carried through the face is the value on the side it comes from. */
  lemma FluxUpwinds(f: PointFn, a: Face, c: nat, q: seq<real>)
    requires c < |a.s.cols| && c < |a.n.cols| && Squares(a.normal, |a.normal|) == 1.0
    requires Advects(f, c, q) && |q| == |a.normal|
    ensures var across := Inner(q, a.normal, |q|);
            Outflow(f, a, c, |a.normal|) == Times(across, if across >= 0.0 then a.s.cols[c].v else a.n.cols[c].v)
  {
    hide Outflow, Dot, Inner, Times, LargerQuotient;
    var us, un, k := a.s.cols[c], a.n.cols[c], |a.normal|;
    var across := Inner(q, a.normal, k);
    FluxDissipates(f, a, c);
    AdvectedQuotient(f, a, c, q);
    AdvectedThrough(f, a.s, a.extractorsS, c, q, a.normal, k);
    AdvectedThrough(f, a.n, a.extractorsN, c, q, a.normal, k);
    Taken(across, us.v, un.v);
  }

  lemma AdvectedMoves(f: PointFn, t: Trace<Dual>, e: seq<Dual>, c: nat, q: seq<real>, normal: seq<real>, du: Dual)
    requires c < |t.cols| && Advects(f, c, q) && |q| == |normal|
    ensures Response(f, t, e, c, normal, du)
            == Times(Inner(q, normal, |q|), t.cols[c].v + du.v) - Times(Inner(q, normal, |q|), t.cols[c].v)
  {
    hide Dot, Inner, Advects, Times;
    AdvectedThrough(f, t, e, c, q, normal, |q|);
    AdvectedThrough(f, t.(cols := t.cols[c := Add(t.cols[c], du)]), e, c, q, normal, |q|);
  }

  lemma AdvectedQuotient(f: PointFn, a: Face, c: nat, q: seq<real>)
    requires c < |a.s.cols| && c < |a.n.cols| && Advects(f, c, q) && |q| == |a.normal|
    ensures LargerQuotient(f, a, c) == Abs(Inner(q, a.normal, |q|))
  {
    hide Response, Bump, Inner, Advects, Times;
    var us, un := a.s.cols[c], a.n.cols[c];
    BumpStep(us, un);
    AdvectedMoves(f, a.s, a.extractorsS, c, q, a.normal, Bump(us, un));
    AdvectedMoves(f, a.n, a.extractorsN, c, q, a.normal, Bump(us, un));
    AdvectedSpeed(Inner(q, a.normal, |q|), us.v, un.v, Bump(us, un).v);
  }

  lemma AdvectedSpeed(q: real, us: real, un: real, du: real)
    requires du > 0.0
    ensures Abs(Times(q, us + du) - Times(q, us)) == Abs(Times(q, un + du) - Times(q, un))
    ensures Abs(Times(q, us + du) - Times(q, us)) / du == Abs(q)
  {
    TimesAdds(q, us, du);
    TimesAdds(q, un, du);
    AbsTimes(q, du);
    hide Times;
  }

  lemma AbsTimes(q: real, du: real)
    requires du > 0.0
    ensures Abs(Times(q, du)) / du == Abs(q)
  {
    assert Abs(Times(q, du)) == Abs(q) * du;
  }

  lemma Taken(q: real, us: real, un: real)
    ensures 0.5 * (Times(q, us) + Times(q, un)) + -0.5 * Times(Abs(q), un - us)
            == Times(q, if q >= 0.0 then us else un)
  {
  }

  // ----- conservation -----

  /** The balance of both cells of every face. */
  function Balance(f: PointFn, faces: seq<Face>, c: nat): real
    requires forall a :: a in faces ==> c < |a.s.cols| && c < |a.n.cols|
  {
    if faces == [] then 0.0
    else
      var a := faces[0];
      Outflow(f, a, c, |a.normal|) + Outflow(f, Swapped(a), c, |a.normal|) + Balance(f, faces[1..], c)
  }

  /** Conservation: whatever leaves a cell through a face enters its neighbour. */
  lemma {:induction false} FluxConserved(f: PointFn, faces: seq<Face>, c: nat)
    requires forall a :: a in faces ==> c < |a.s.cols| && c < |a.n.cols|
    ensures Balance(f, faces, c) == 0.0
  {
    if faces != [] {
      OutflowSwapped(f, faces[0], c, |faces[0].normal|);
      FluxConserved(f, faces[1..], c);
    }
  }

  // ----- one-sided fluxes of the LDG levels -----

  datatype Upwind = FromRight | FromLeft

  /** Per component of an LDG level: the direction of its flux, and the side it is taken from. */
  datatype LdgChoice = LdgChoice(direction: nat, upwind: Upwind)

  function Total(normal: seq<real>, k: nat): real
    requires k <= |normal|
  {
    if k == 0 then 0.0 else Total(normal, k - 1) + -1.0 * normal[k - 1]
  }

  /** The normal points to the left: its product with (-1, ..., -1) is not negative. */
  predicate PointsLeft(normal: seq<real>) {
    Total(normal, |normal|) >= 0.0
  }

  /** The flux of the chosen trace, in the chosen direction only. */
  function UpDown(f: PointFn, a: Face, choice: LdgChoice, c: nat, d: nat): Dual {
    if d != choice.direction then Plain(0.0)
    else if PointsLeft(a.normal) == choice.upwind.FromRight? then f(One(a.s, a.extractorsS), Flux(c, d))
    else f(One(a.n, a.extractorsN), Flux(c, d))
  }

  function Components(normal: seq<real>, k: nat): real
    requires k <= |normal|
  {
    if k == 0 then 0.0 else Components(normal, k - 1) + normal[k - 1]
  }

  lemma {:induction false} TotalIs(normal: seq<real>, k: nat)
    requires k <= |normal|
    ensures Total(normal, k) == -Components(normal, k)
  {
    if k > 0 {
      TotalIs(normal, k - 1);
    }
  }

  /**
   From the right is from side n where the normal of side s points to larger coordinates, and from side s where it
   points to smaller ones; from the left is from the other side.
   */
  lemma UpDownSide(f: PointFn, a: Face, choice: LdgChoice, c: nat)
    ensures var flux := UpDown(f, a, choice, c, choice.direction);
            var s, n := f(One(a.s, a.extractorsS), Flux(c, choice.direction)),
                        f(One(a.n, a.extractorsN), Flux(c, choice.direction));
            && (Components(a.normal, |a.normal|) > 0.0 ==> flux == if choice.upwind.FromRight? then n else s)
            && (Components(a.normal, |a.normal|) <= 0.0 ==> flux == if choice.upwind.FromLeft? then n else s)
    ensures forall d: nat :: d != choice.direction ==> UpDown(f, a, choice, c, d) == Plain(0.0)
  {
    TotalIs(a.normal, |a.normal|);
  }

  /** On an axis-aligned face the side is that of the one component the normal has. */
  lemma UpDownSideOnAxes(f: PointFn, a: Face, choice: LdgChoice, axis: nat, c: nat)
    requires AxisAligned(a.normal, axis)
    ensures var flux := UpDown(f, a, choice, c, choice.direction);
            var s, n := f(One(a.s, a.extractorsS), Flux(c, choice.direction)),
                        f(One(a.n, a.extractorsN), Flux(c, choice.direction));
            flux == if choice.upwind.FromRight? == (a.normal[axis] > 0.0) then n else s
  {
    AxisTotal(a.normal, axis, |a.normal|);
    TotalIs(a.normal, |a.normal|);
    UpDownSide(f, a, choice, c);
  }

  lemma {:induction false} TotalOpposite(normal: seq<real>, k: nat)
    requires k <= |normal|
    ensures Total(Opposite(normal), k) == -Total(normal, k)
  {
    if k > 0 {
      TotalOpposite(normal, k - 1);
    }
  }

  /** The two cells of a face agree on a one-sided flux exactly if the normal's total is not zero, or nothing jumps. */
  lemma UpDownSwapped(f: PointFn, a: Face, choice: LdgChoice, c: nat)
    ensures UpDown(f, Swapped(a), choice, c, choice.direction) == UpDown(f, a, choice, c, choice.direction) <==>
            Total(a.normal, |a.normal|) != 0.0 ||
            f(One(a.s, a.extractorsS), Flux(c, choice.direction))
            == f(One(a.n, a.extractorsN), Flux(c, choice.direction))
  {
    TotalOpposite(a.normal, |a.normal|);
  }

  ghost predicate AxisAligned(normal: seq<real>, axis: nat) {
    axis < |normal| && normal[axis] != 0.0 && forall d :: 0 <= d < |normal| && d != axis ==> normal[d] == 0.0
  }

  lemma {:induction false} AxisTotal(normal: seq<real>, axis: nat, k: nat)
    requires AxisAligned(normal, axis) && k <= |normal|
    ensures Total(normal, k) == if axis < k then -normal[axis] else 0.0
  {
    if k > 0 {
      AxisTotal(normal, axis, k - 1);
    }
  }

  /** On a grid of axis-aligned faces they always agree. */
  lemma UpDownSwappedOnAxes(f: PointFn, a: Face, choice: LdgChoice, axis: nat, c: nat, d: nat)
    requires AxisAligned(a.normal, axis)
    ensures UpDown(f, Swapped(a), choice, c, d) == UpDown(f, a, choice, c, d)
  {
    AxisTotal(a.normal, axis, |a.normal|);
    TotalOpposite(a.normal, |a.normal|);
  }

  /** The entry an up/down flux is written to: component c, in its own direction. */
  predicate IsSelected(choices: seq<LdgChoice>, o: Out) {
    o.Flux? && o.c < |choices| && o.d == choices[o.c].direction
  }

  /** The fluxes of a level at all points of a batch, extractors unread. */
  method LdgEvaluateTrace(f: PointFn, b: PointBatch<Dual>, dim: nat, nOut: nat) returns (F: BatchOutput)
    requires b.Valid()
    ensures fresh(F) && F.Valid() && F.dim == dim && F.nOut == nOut && F.n == b.n
    ensures F.terms == Terms(true, false, false)
    ensures forall o: Out, i: nat :: F.Lay().Has(o) && i < F.n ==> F.At(o, i) == f(One(b.At(i), []), o)
  {
    hide Slot, Area, Column;
    F := new BatchOutput(dim, nOut);
    F.Reinit(b.n, Terms(true, false, false));
    for i := 0 to b.n
      modifies F`data
      invariant F.Valid()
      invariant forall o: Out, j: nat :: F.Lay().Has(o) && j < i ==> F.At(o, j) == f(One(b.At(j), []), o)
    {
      StorePoint(f, One(b.At(i), []), F, i);
    }
  }

  /** A face point as the fluxes of a level see it. */
  function LevelFace(bs: PointBatch<Dual>, bn: PointBatch<Dual>, normal: seq<real>, i: nat): Face
    requires bs.Valid() && bn.Valid() && i < bs.n && i < bn.n
    reads bs, bn
  {
    Face(bs.At(i), bn.At(i), [], [], normal)
  }

  /** Both traces in two evaluations, then the selection per point; all other entries keep their value. */
  method LdgNumfluxBatch(f: PointFn, out: BatchOutput, choices: seq<LdgChoice>, normals: seq<seq<real>>,
                         bs: PointBatch<Dual>, bn: PointBatch<Dual>)
    requires bs.Valid() && bn.Valid() && bs.n == bn.n == out.n
    requires out.Valid() && out.n == |normals| && out.terms.flux
    requires |choices| >= out.nOut && forall c :: 0 <= c < out.nOut ==> choices[c].direction < out.dim
    modifies out`data
    ensures out.Valid()
    ensures forall o: Out, i: nat :: out.Lay().Has(o) && i < out.n ==>
              out.At(o, i) == if IsSelected(choices, o)
                              then UpDown(f, LevelFace(bs, bn, normals[i], i), choices[o.c], o.c, o.d)
                              else old(out.At(o, i))
  {
    hide Slot, Area, Column, UpDown;
    var n := out.n;
    var fs := LdgEvaluateTrace(f, bs, out.dim, out.nOut);
    var fn := LdgEvaluateTrace(f, bn, out.dim, out.nOut);
    for i := 0 to n
      modifies out`data
      invariant out.Valid()
      invariant forall o: Out, j: nat :: out.Lay().Has(o) && j < out.n ==>
                  out.At(o, j) == if j < i && IsSelected(choices, o)
                                  then UpDown(f, LevelFace(bs, bn, normals[j], j), choices[o.c], o.c, o.d)
                                  else old(out.At(o, j))
    {
      SelectPoint(f, out, choices, fs, fn, LevelFace(bs, bn, normals[i], i), i);
    }
  }

  method SelectPoint(ghost f: PointFn, out: BatchOutput, choices: seq<LdgChoice>, fs: BatchOutput, fn: BatchOutput,
                     a: Face, i: nat)
    requires out.Valid() && fs.Valid() && fn.Valid() && out != fs && out != fn
    requires out.terms.flux && fs.terms == fn.terms == Terms(true, false, false)
    requires i < out.n == fs.n == fn.n && out.nOut == fs.nOut == fn.nOut && out.dim == fs.dim == fn.dim
    requires |choices| >= out.nOut && forall c :: 0 <= c < out.nOut ==> choices[c].direction < out.dim
    requires forall o: Out :: fs.Lay().Has(o) ==>
               fs.At(o, i) == f(One(a.s, a.extractorsS), o) && fn.At(o, i) == f(One(a.n, a.extractorsN), o)
    modifies out`data
    ensures out.Valid()
    ensures forall o: Out, j: nat :: out.Lay().Has(o) && j < out.n ==>
              out.At(o, j) == if j == i && IsSelected(choices, o) then UpDown(f, a, choices[o.c], o.c, o.d)
                              else old(out.At(o, j))
  {
    hide Slot, Area, Column, PointsLeft;
    var left := PointsLeft(a.normal);
    for c := 0 to out.nOut
      invariant out.Valid()
      invariant forall o: Out, j: nat :: out.Lay().Has(o) && j < out.n ==>
                  out.At(o, j) == if j == i && o.c < c && IsSelected(choices, o)
                                  then UpDown(f, a, choices[o.c], o.c, o.d) else old(out.At(o, j))
    {
      var o := Flux(c, choices[c].direction);
      assert fs.Lay().Has(o);
      out.Write(o, i, if left == choices[c].upwind.FromRight? then fs.At(o, i) else fn.At(o, i));
    }
  }
}
