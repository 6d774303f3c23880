/**
 What the stored jacobian is for: contracted with a direction whose hessian parts are symmetric, it yields the exact
 derivative of the evaluation along that direction (DiFfRG/include/DiFfRG/model/batch.hh:756-761, 856-875). Off-diagonal
 hessian entries are seeded jointly and stored half each, so this rests on the linearity of the derivative part over
 every expression a model can build, and over the batched Lax-Friedrichs flux around it.
 */
module Directional {
  import opened Prelude
  import opened DualNumbers
  import opened Batches
  import opened NumericalFlux
  import opened SeedStacking

  // ----- sums over finite sets -----

  ghost function SumOver<P(!new)>(s: set<P>, g: P -> real): real {
    if s == {} then 0.0
    else
      var p :| p in s;
      g(p) + SumOver(s - {p}, g)
  }

  lemma {:induction false} SumRemove<P(!new)>(s: set<P>, g: P -> real, p: P)
    requires p in s
    ensures SumOver(s, g) == g(p) + SumOver(s - {p}, g)
  {
    var q :| q in s && SumOver(s, g) == g(q) + SumOver(s - {q}, g);
    if p != q {
      SumRemove(s - {q}, g, p);
      SumRemove(s - {p}, g, q);
      assert s - {q} - {p} == s - {p} - {q};
    }
  }

  lemma {:induction false} SumAverage<P(!new)>(s: set<P>, g: P -> real, h1: P -> real, h2: P -> real)
    requires forall p :: p in s ==> g(p) == 0.5 * (h1(p) + h2(p))
    ensures SumOver(s, g) == 0.5 * (SumOver(s, h1) + SumOver(s, h2))
  {
    if s != {} {
      var p :| p in s;
      SumRemove(s, g, p);
      SumRemove(s, h1, p);
      SumRemove(s, h2, p);
      SumAverage(s - {p}, g, h1, h2);
    }
  }

  lemma {:induction false} SumInvolution<P(!new)>(s: set<P>, g: P -> real, h: P -> real, t: P -> P)
    requires forall p :: p in s ==> t(p) in s && t(t(p)) == p && h(p) == g(t(p))
    ensures SumOver(s, h) == SumOver(s, g)
  {
    if s != {} {
      var p :| p in s;
      var q := t(p);
      SumRemove(s, h, p);
      SumRemove(s, g, p);
      if q == p {
        SumInvolution(s - {p}, g, h, t);
      } else {
        SumRemove(s - {p}, h, q);
        SumRemove(s - {p}, g, q);
        SumInvolution(s - {p} - {q}, g, h, t);
      }
    }
  }

  // ----- directions -----

  /** One input of a point: a column of one of its traces, or an extractor. */
  datatype PointInput = Cell(side: nat, col: nat) | Shared(e: nat)

  type Direction = PointInput -> real

  function TraceAlong(t: Trace<Dual>, side: nat, dir: Direction): (r: Trace<Dual>)
    ensures |r.cols| == |t.cols|
  {
    t.(cols := seq(|t.cols|, col requires 0 <= col < |t.cols| => Dual(t.cols[col].v, dir(Cell(side, col)))))
  }

  /** The same point, with its derivative parts along dir. */
  function Directed(arg: PointArg, dir: Direction): (r: PointArg)
    ensures |r.sides| == |arg.sides| && |r.extractors| == |arg.extractors|
  {
    PointArg(seq(|arg.sides|, s requires 0 <= s < |arg.sides| => TraceAlong(arg.sides[s], s, dir)),
             seq(|arg.extractors|, e requires 0 <= e < |arg.extractors| => Dual(arg.extractors[e].v, dir(Shared(e)))),
             arg.normal)
  }

  ghost predicate TraceCombines(t: Trace<Dual>, t1: Trace<Dual>, p1: real, t2: Trace<Dual>, p2: real) {
    && |t.cols| == |t1.cols| == |t2.cols| && t.x == t1.x == t2.x && t.width == t1.width == t2.width
    && forall col :: 0 <= col < |t.cols| ==> Combines(t.cols[col], t1.cols[col], p1, t2.cols[col], p2)
  }

  ghost predicate AllCombine(s: seq<Dual>, s1: seq<Dual>, p1: real, s2: seq<Dual>, p2: real) {
    |s| == |s1| == |s2| && forall k :: 0 <= k < |s| ==> Combines(s[k], s1[k], p1, s2[k], p2)
  }

  ghost predicate ArgCombines(a: PointArg, a1: PointArg, p1: real, a2: PointArg, p2: real) {
    && |a.sides| == |a1.sides| == |a2.sides| && a.normal == a1.normal == a2.normal
    && (forall s :: 0 <= s < |a.sides| ==> TraceCombines(a.sides[s], a1.sides[s], p1, a2.sides[s], p2))
    && AllCombine(a.extractors, a1.extractors, p1, a2.extractors, p2)
  }

  /** The derivative part of the evaluation depends linearly on the direction. */
  ghost predicate Differentiable(ev: Evaluation) {
    forall a, a1, p1, a2, p2, o :: ArgCombines(a, a1, p1, a2, p2) ==>
                                     Combines(PointValue(ev, a, o), PointValue(ev, a1, o), p1,
                                              PointValue(ev, a2, o), p2)
  }

  // ----- every model is differentiable -----

  /** The part of a point that is not differentiated. */
  datatype Place = Place(xs: seq<seq<real>>, widths: seq<real>, normal: seq<real>)

  function PlaceOf(arg: PointArg): Place {
    Place(seq(|arg.sides|, s requires 0 <= s < |arg.sides| => arg.sides[s].x),
          seq(|arg.sides|, s requires 0 <= s < |arg.sides| => arg.sides[s].width), arg.normal)
  }

  function Look(arg: PointArg, input: PointInput): Dual {
    match input
    case Cell(s, col) => if s < |arg.sides| && col < |arg.sides[s].cols| then arg.sides[s].cols[col] else Plain(0.0)
    case Shared(e) => if e < |arg.extractors| then arg.extractors[e] else Plain(0.0)
  }

  /** A model given by one expression per output, which may depend on the place but not on the inputs. */
  function ExpressionModel(model: (Place, Out) -> Expr<PointInput>): PointFn {
    (arg: PointArg, o: Out) => Eval(model(PlaceOf(arg), o), (i: PointInput) => Look(arg, i))
  }

  lemma ExpressionsDifferentiable(model: (Place, Out) -> Expr<PointInput>)
    ensures Differentiable(PerPoint(ExpressionModel(model)))
  {
    forall a, a1, p1, a2, p2, o | ArgCombines(a, a1, p1, a2, p2)
      ensures Combines(PointValue(PerPoint(ExpressionModel(model)), a, o),
                       PointValue(PerPoint(ExpressionModel(model)), a1, o), p1,
                       PointValue(PerPoint(ExpressionModel(model)), a2, o), p2)
    {
      assert PlaceOf(a) == PlaceOf(a1) == PlaceOf(a2);
      EvalLinear(model(PlaceOf(a), o), (i: PointInput) => Look(a, i), (i: PointInput) => Look(a1, i), p1,
                 (i: PointInput) => Look(a2, i), p2);
    }
  }

  // ----- so is the Lax-Friedrichs flux of any differentiable model -----

  ghost predicate FaceCombines(a: Face, a1: Face, p1: real, a2: Face, p2: real) {
    && TraceCombines(a.s, a1.s, p1, a2.s, p2) && TraceCombines(a.n, a1.n, p1, a2.n, p2)
    && AllCombine(a.extractorsS, a1.extractorsS, p1, a2.extractorsS, p2)
    && AllCombine(a.extractorsN, a1.extractorsN, p1, a2.extractorsN, p2)
    && a.normal == a1.normal == a2.normal
  }

  lemma BumpCombines(u: Dual, u1: Dual, u2: Dual, w: Dual, w1: Dual, w2: Dual, p1: real, p2: real)
    requires Combines(u, u1, p1, u2, p2) && Combines(w, w1, p1, w2, p2)
    ensures Combines(Bump(u, w), Bump(u1, w1), p1, Bump(u2, w2), p2)
  {
    hide Combines, Add, Mul, AbsD;
    AbsCombines(u, u1, u2, p1, p2);
    AbsCombines(w, w1, w2, p1, p2);
    SumCombines(AbsD(u), AbsD(u1), AbsD(u2), AbsD(w), AbsD(w1), AbsD(w2), p1, p2);
    PlainCombines(0.5, p1, p2);
    PlainCombines(0.000000001, p1, p2);
    PlainCombines(0.00001, p1, p2);
    var h, h1, h2 := Add(AbsD(u), AbsD(w)), Add(AbsD(u1), AbsD(w1)), Add(AbsD(u2), AbsD(w2));
    ProductCombines(Plain(0.5), Plain(0.5), Plain(0.5), h, h1, h2, p1, p2);
    var e := Plain(0.000000001);
    var m, m1, m2 := Mul(Plain(0.5), h), Mul(Plain(0.5), h1), Mul(Plain(0.5), h2);
    SumCombines(m, m1, m2, e, e, e, p1, p2);
    ProductCombines(Plain(0.00001), Plain(0.00001), Plain(0.00001), Add(m, e), Add(m1, e), Add(m2, e), p1, p2);
  }

  lemma BumpedCombines(t: Trace<Dual>, t1: Trace<Dual>, t2: Trace<Dual>, c: nat, u: Dual, u1: Dual, u2: Dual,
                       p1: real, p2: real)
    requires TraceCombines(t, t1, p1, t2, p2) && c < |t.cols| && Combines(u, u1, p1, u2, p2)
    ensures TraceCombines(Bumped(t, c, u), Bumped(t1, c, u1), p1, Bumped(t2, c, u2), p2)
  {
  }

  lemma {:induction false} DotCombines(f: PointFn, a: PointArg, a1: PointArg, a2: PointArg, c: nat, normal: seq<real>,
                                       k: nat, p1: real, p2: real)
    requires Differentiable(PerPoint(f)) && ArgCombines(a, a1, p1, a2, p2) && k <= |normal|
    ensures Combines(Dot(f, a, c, normal, k), Dot(f, a1, c, normal, k), p1, Dot(f, a2, c, normal, k), p2)
  {
    hide Combines, ArgCombines, Add, Mul;
    if k == 0 {
      PlainCombines(0.0, p1, p2);
    } else {
      DotCombines(f, a, a1, a2, c, normal, k - 1, p1, p2);
      var o, y := Flux(c, k - 1), Plain(normal[k - 1]);
      assert PointValue(PerPoint(f), a, o) == f(a, o);
      PlainCombines(normal[k - 1], p1, p2);
      ProductCombines(f(a, o), f(a1, o), f(a2, o), y, y, y, p1, p2);
      SumCombines(Dot(f, a, c, normal, k - 1), Dot(f, a1, c, normal, k - 1), Dot(f, a2, c, normal, k - 1),
                  Mul(f(a, o), y), Mul(f(a1, o), y), Mul(f(a2, o), y), p1, p2);
    }
  }

  /** |F(t perturbed) . n - F(t) . n| for one trace */
  function Variation(f: PointFn, t: Trace<Dual>, extractors: seq<Dual>, normal: seq<real>, c: nat, du: Dual): Dual
    requires c < |t.cols|
  {
    AbsD(Sub(Dot(f, One(Bumped(t, c, du), extractors), c, normal, |normal|),
             Dot(f, One(t, extractors), c, normal, |normal|)))
  }

  lemma VariationCombines(f: PointFn, t: Trace<Dual>, t1: Trace<Dual>, t2: Trace<Dual>, e: seq<Dual>, e1: seq<Dual>,
                          e2: seq<Dual>, normal: seq<real>, c: nat, u: Dual, u1: Dual, u2: Dual, p1: real, p2: real)
    requires Differentiable(PerPoint(f)) && TraceCombines(t, t1, p1, t2, p2) && AllCombine(e, e1, p1, e2, p2)
    requires c < |t.cols| && Combines(u, u1, p1, u2, p2)
    ensures Combines(Variation(f, t, e, normal, c, u), Variation(f, t1, e1, normal, c, u1), p1,
                     Variation(f, t2, e2, normal, c, u2), p2)
  {
    hide Combines, Sub, AbsD, Bumped, Differentiable;
    BumpedCombines(t, t1, t2, c, u, u1, u2, p1, p2);
    var k := |normal|;
    DotCombines(f, One(t, e), One(t1, e1), One(t2, e2), c, normal, k, p1, p2);
    DotCombines(f, One(Bumped(t, c, u), e), One(Bumped(t1, c, u1), e1), One(Bumped(t2, c, u2), e2), c, normal, k,
                p1, p2);
    var d, d1, d2 := Dot(f, One(t, e), c, normal, k), Dot(f, One(t1, e1), c, normal, k),
                     Dot(f, One(t2, e2), c, normal, k);
    var b, b1, b2 := Dot(f, One(Bumped(t, c, u), e), c, normal, k), Dot(f, One(Bumped(t1, c, u1), e1), c, normal, k),
                     Dot(f, One(Bumped(t2, c, u2), e2), c, normal, k);
    SumCombines(b, b1, b2, d, d1, d2, p1, p2);
    AbsCombines(Sub(b, d), Sub(b1, d1), Sub(b2, d2), p1, p2);
  }

  lemma SpeedCombines(f: PointFn, a: Face, a1: Face, a2: Face, c: nat, p1: real, p2: real)
    requires Differentiable(PerPoint(f)) && FaceCombines(a, a1, p1, a2, p2) && c < |a.s.cols| && c < |a.n.cols|
    ensures Combines(Speed(f, a, c), Speed(f, a1, c), p1, Speed(f, a2, c), p2)
  {
    hide Combines, MaxD, Div, Bump, Differentiable;
    BumpCombines(a.s.cols[c], a1.s.cols[c], a2.s.cols[c], a.n.cols[c], a1.n.cols[c], a2.n.cols[c], p1, p2);
    var u, u1, u2 := Bump(a.s.cols[c], a.n.cols[c]), Bump(a1.s.cols[c], a1.n.cols[c]), Bump(a2.s.cols[c], a2.n.cols[c]);
    VariationCombines(f, a.s, a1.s, a2.s, a.extractorsS, a1.extractorsS, a2.extractorsS, a.normal, c,
                      u, u1, u2, p1, p2);
    VariationCombines(f, a.n, a1.n, a2.n, a.extractorsN, a1.extractorsN, a2.extractorsN, a.normal, c,
                      u, u1, u2, p1, p2);
    var x, x1, x2 := Variation(f, a.s, a.extractorsS, a.normal, c, u),
                     Variation(f, a1.s, a1.extractorsS, a.normal, c, u1),
                     Variation(f, a2.s, a2.extractorsS, a.normal, c, u2);
    var y, y1, y2 := Variation(f, a.n, a.extractorsN, a.normal, c, u),
                     Variation(f, a1.n, a1.extractorsN, a.normal, c, u1),
                     Variation(f, a2.n, a2.extractorsN, a.normal, c, u2);
    MaxCombines(x, x1, x2, y, y1, y2, p1, p2);
    QuotientCombines(MaxD(x, y), MaxD(x1, y1), MaxD(x2, y2), u, u1, u2, p1, p2);
  }

  lemma PenaltyCombines(s: Dual, s1: Dual, s2: Dual, j: Dual, j1: Dual, j2: Dual, y: real, p1: real, p2: real)
    requires Combines(s, s1, p1, s2, p2) && Combines(j, j1, p1, j2, p2)
    ensures Combines(Penalty(s, j, y), Penalty(s1, j1, y), p1, Penalty(s2, j2, y), p2)
  {
    hide Combines, Mul;
    var h := Plain(0.5);
    PlainCombines(0.5, p1, p2);
    PlainCombines(y, p1, p2);
    ProductCombines(h, h, h, s, s1, s2, p1, p2);
    ProductCombines(Mul(h, s), Mul(h, s1), Mul(h, s2), j, j1, j2, p1, p2);
    ProductCombines(Mul(Mul(h, s), j), Mul(Mul(h, s1), j1), Mul(Mul(h, s2), j2), Plain(y), Plain(y), Plain(y), p1, p2);
  }

  lemma LaxFriedrichsCombines(f: PointFn, a: Face, a1: Face, a2: Face, c: nat, d: nat, p1: real, p2: real)
    requires Differentiable(PerPoint(f)) && FaceCombines(a, a1, p1, a2, p2)
    requires c < |a.s.cols| && c < |a.n.cols| && d < |a.normal|
    ensures Combines(LaxFriedrichs(f, a, c, d), LaxFriedrichs(f, a1, c, d), p1, LaxFriedrichs(f, a2, c, d), p2)
  {
    hide Combines, Add, Sub, Mul, Speed, Penalty;
    SpeedCombines(f, a, a1, a2, c, p1, p2);
    var o, h := Flux(c, d), Plain(0.5);
    var x, x1, x2 := One(a.s, a.extractorsS), One(a1.s, a1.extractorsS), One(a2.s, a2.extractorsS);
    var y, y1, y2 := One(a.n, a.extractorsN), One(a1.n, a1.extractorsN), One(a2.n, a2.extractorsN);
    assert PointValue(PerPoint(f), x, o) == f(x, o) && PointValue(PerPoint(f), y, o) == f(y, o);
    assert ArgCombines(x, x1, p1, x2, p2) && ArgCombines(y, y1, p1, y2, p2);
    SumCombines(f(x, o), f(x1, o), f(x2, o), f(y, o), f(y1, o), f(y2, o), p1, p2);
    PlainCombines(0.5, p1, p2);
    ProductCombines(h, h, h, Add(f(x, o), f(y, o)), Add(f(x1, o), f(y1, o)), Add(f(x2, o), f(y2, o)), p1, p2);
    SumCombines(a.n.cols[c], a1.n.cols[c], a2.n.cols[c], a.s.cols[c], a1.s.cols[c], a2.s.cols[c], p1, p2);
    var j, j1, j2 := Sub(a.n.cols[c], a.s.cols[c]), Sub(a1.n.cols[c], a1.s.cols[c]), Sub(a2.n.cols[c], a2.s.cols[c]);
    PenaltyCombines(Speed(f, a, c), Speed(f, a1, c), Speed(f, a2, c), j, j1, j2, a.normal[d], p1, p2);
    SumCombines(Mul(h, Add(f(x, o), f(y, o))), Mul(h, Add(f(x1, o), f(y1, o))), Mul(h, Add(f(x2, o), f(y2, o))),
                Penalty(Speed(f, a, c), j, a.normal[d]), Penalty(Speed(f, a1, c), j1, a.normal[d]),
                Penalty(Speed(f, a2, c), j2, a.normal[d]), p1, p2);
  }

  lemma FaceFluxCombines(f: PointFn, a: PointArg, a1: PointArg, p1: real, a2: PointArg, p2: real, o: Out)
    requires Differentiable(PerPoint(f)) && ArgCombines(a, a1, p1, a2, p2)
    ensures Combines(PointValue(FaceFlux(f), a, o), PointValue(FaceFlux(f), a1, o), p1,
                     PointValue(FaceFlux(f), a2, o), p2)
  {
    hide Combines, LaxFriedrichs, Differentiable;
    if o.Flux? && |a.sides| == 2 && o.c < |a.sides[0].cols| && o.c < |a.sides[1].cols| && o.d < |a.normal| {
      LaxFriedrichsCombines(f, Face(a.sides[0], a.sides[1], a.extractors, a.extractors, a.normal),
                            Face(a1.sides[0], a1.sides[1], a1.extractors, a1.extractors, a1.normal),
                            Face(a2.sides[0], a2.sides[1], a2.extractors, a2.extractors, a2.normal), o.c, o.d,
                            p1, p2);
    } else {
      PlainCombines(0.0, p1, p2);
    }
  }

  lemma FaceFluxDifferentiable(f: PointFn)
    requires Differentiable(PerPoint(f))
    ensures Differentiable(FaceFlux(f))
  {
    forall a, a1, p1, a2, p2, o | ArgCombines(a, a1, p1, a2, p2)
      ensures Combines(PointValue(FaceFlux(f), a, o), PointValue(FaceFlux(f), a1, o), p1,
                       PointValue(FaceFlux(f), a2, o), p2)
    {
      hide *;
      FaceFluxCombines(f, a, a1, p1, a2, p2, o);
    }
  }

  // ----- contraction -----

  function Unit(p: PointInput): Direction {
    (q: PointInput) => if q == p then 1.0 else 0.0
  }

  ghost function Restricted(dir: Direction, s: set<PointInput>): Direction {
    (q: PointInput) => if q in s then dir(q) else 0.0
  }

  /** The derivative of output o of point arg along dir. */
  ghost function Derivative(ev: Evaluation, arg: PointArg, o: Out, dir: Direction): real {
    PointValue(ev, Directed(arg, dir), o).d
  }

  ghost function Slope(ev: Evaluation, arg: PointArg, o: Out, dir: Direction): PointInput -> real {
    (p: PointInput) => Times(dir(p), Derivative(ev, arg, o, Unit(p)))
  }

  lemma DirectedCombines(arg: PointArg, dir: Direction, dir1: Direction, p1: real, dir2: Direction, p2: real)
    requires forall q :: dir(q) == p1 * dir1(q) + p2 * dir2(q)
    ensures ArgCombines(Directed(arg, dir), Directed(arg, dir1), p1, Directed(arg, dir2), p2)
  {
  }

  lemma DerivativeCombines(ev: Evaluation, arg: PointArg, o: Out, dir: Direction, dir1: Direction, p1: real,
                           dir2: Direction, p2: real)
    requires Differentiable(ev) && forall q :: dir(q) == p1 * dir1(q) + p2 * dir2(q)
    ensures Derivative(ev, arg, o, dir) == p1 * Derivative(ev, arg, o, dir1) + p2 * Derivative(ev, arg, o, dir2)
  {
    hide PointValue, Directed, ArgCombines;
    DirectedCombines(arg, dir, dir1, p1, dir2, p2);
    assert Combines(PointValue(ev, Directed(arg, dir), o), PointValue(ev, Directed(arg, dir1), o), p1,
                    PointValue(ev, Directed(arg, dir2), o), p2);
  }

  lemma RestrictedStep(dir: Direction, s: set<PointInput>, p: PointInput)
    requires p in s
    ensures forall q :: Restricted(dir, s)(q) == 1.0 * Restricted(dir, s - {p})(q) + dir(p) * Unit(p)(q)
  {
  }

  lemma NoDerivative(ev: Evaluation, arg: PointArg, o: Out, dir: Direction)
    requires Differentiable(ev)
    ensures Derivative(ev, arg, o, Restricted(dir, {})) == 0.0
  {
    hide Differentiable;
    DerivativeCombines(ev, arg, o, Restricted(dir, {}), Restricted(dir, {}), 0.0, Restricted(dir, {}), 0.0);
  }

  lemma DerivativeStep(ev: Evaluation, arg: PointArg, o: Out, dir: Direction, s: set<PointInput>, p: PointInput)
    requires Differentiable(ev) && p in s
    ensures Derivative(ev, arg, o, Restricted(dir, s)) ==
            Derivative(ev, arg, o, Restricted(dir, s - {p})) + Slope(ev, arg, o, dir)(p)
  {
    hide Derivative, Restricted, Unit, Differentiable;
    RestrictedStep(dir, s, p);
    DerivativeCombines(ev, arg, o, Restricted(dir, s), Restricted(dir, s - {p}), 1.0, Unit(p), dir(p));
  }

  /** A derivative along any direction is the sum of the derivatives along its inputs. */
  lemma {:induction false} DerivativeIsSum(ev: Evaluation, arg: PointArg, o: Out, dir: Direction, s: set<PointInput>)
    requires Differentiable(ev)
    ensures Derivative(ev, arg, o, Restricted(dir, s)) == SumOver(s, Slope(ev, arg, o, dir))
  {
    hide Derivative, Restricted, Unit, Differentiable, Slope;
    if s == {} {
      NoDerivative(ev, arg, o, dir);
    } else {
      var p :| p in s;
      DerivativeIsSum(ev, arg, o, dir, s - {p});
      SumRemove(s, Slope(ev, arg, o, dir), p);
      DerivativeStep(ev, arg, o, dir, s, p);
    }
  }

  /** All inputs of a point. */
  ghost function Inputs(lay: Layout, nSides: nat, nExtractors: nat): set<PointInput> {
    (set s: nat, col: nat | s < nSides && col < lay.Columns() :: Cell(s, col)) +
    (set e: nat | e < nExtractors :: Shared(e))
  }

  /** The entry of the jacobian stored for an input. */
  ghost function Stored(ev: Evaluation, lay: Layout, arg: PointArg, o: Out, p: PointInput): real
    requires Shaped(lay, |arg.sides|, arg) && p in Inputs(lay, |arg.sides|, |arg.extractors|)
  {
    match p
    case Cell(s, col) =>
      lay.KeyOfColumn(col);
      Entry(ev, lay, arg, s, o, lay.KeyOf(col))
    case Shared(e) => PointValue(ev, SeedExtractor(arg, e), o).d
  }

  /** The input of the transposed hessian entry; any other input itself. */
  function Mirror(lay: Layout, p: PointInput): PointInput
    requires lay.Valid() && (p.Cell? ==> p.col < lay.Columns())
  {
    match p
    case Cell(s, col) => Cell(s, lay.Column(Transposed(lay.KeyOf(col))))
    case Shared(_) => p
  }

  lemma MirrorInvolution(lay: Layout, nSides: nat, nExtractors: nat, p: PointInput)
    requires lay.Valid() && p in Inputs(lay, nSides, nExtractors)
    ensures Mirror(lay, p) in Inputs(lay, nSides, nExtractors) && Mirror(lay, Mirror(lay, p)) == p
    ensures p.Cell? ==> lay.Has(lay.KeyOf(p.col)) && lay.Column(lay.KeyOf(p.col)) == p.col
  {
    if p.Cell? {
      lay.KeyOfColumn(p.col);
      lay.ColumnOfKey(Transposed(lay.KeyOf(p.col)));
    }
  }

  ghost predicate Unseeded(arg: PointArg) {
    && (forall s, col :: 0 <= s < |arg.sides| && 0 <= col < |arg.sides[s].cols| ==> arg.sides[s].cols[col].d == 0.0)
    && (forall e :: 0 <= e < |arg.extractors| ==> arg.extractors[e].d == 0.0)
  }

  /** A seeded point is the point directed along its seed: one input, or two mirrored ones. */
  lemma SeedIsDirection(lay: Layout, arg: PointArg, p: PointInput)
    requires Shaped(lay, |arg.sides|, arg) && Unseeded(arg) && p in Inputs(lay, |arg.sides|, |arg.extractors|)
    ensures p.Cell? ==>
              lay.Has(lay.KeyOf(p.col)) && IsSeed(lay, |arg.sides|, Seed(p.side, Ordered(lay.KeyOf(p.col)))) &&
              SeedArg(lay, arg, Seed(p.side, Ordered(lay.KeyOf(p.col)))) ==
              Directed(arg, Restricted((_: PointInput) => 1.0, {p, Mirror(lay, p)}))
    ensures p.Shared? ==> SeedExtractor(arg, p.e) == Directed(arg, Unit(p))
  {
    hide SeedArg, Directed, Restricted;
    MirrorInvolution(lay, |arg.sides|, |arg.extractors|, p);
    if p.Cell? {
      CellSeedIsDirection(lay, arg, p);
    } else {
      SharedSeedIsDirection(arg, p);
    }
  }

  /** A seeded trace is marked at the column of its key and at that of the transposed key. */
  lemma MarkedColumns(lay: Layout, t: Trace<Dual>, k: Key)
    requires lay.Valid() && lay.Has(k) && |t.cols| == lay.Columns()
    ensures lay.Has(Ordered(k)) && lay.Has(Transposed(k))
    ensures SeedTrace(lay, t, Ordered(k)).x == t.x && SeedTrace(lay, t, Ordered(k)).width == t.width
    ensures forall c :: 0 <= c < |t.cols| ==>
              SeedTrace(lay, t, Ordered(k)).cols[c] ==
              if c == lay.Column(k) || c == lay.Column(Transposed(k)) then Seeded(t.cols[c]) else t.cols[c]
  {
    lay.ColumnOfKey(k);
    lay.ColumnOfKey(Transposed(k));
  }

  /** The seeded trace is the trace along the marked columns. */
  lemma CellSeedIsTrace(lay: Layout, t: Trace<Dual>, s: nat, p: PointInput)
    requires lay.Valid() && |t.cols| == lay.Columns() && p.Cell? && p.side == s && p.col < lay.Columns()
    requires lay.Has(lay.KeyOf(p.col)) && lay.Column(lay.KeyOf(p.col)) == p.col
    requires forall c :: 0 <= c < |t.cols| ==> t.cols[c].d == 0.0
    ensures lay.Has(Ordered(lay.KeyOf(p.col)))
    ensures SeedTrace(lay, t, Ordered(lay.KeyOf(p.col))) ==
            TraceAlong(t, s, Restricted((_: PointInput) => 1.0, {p, Mirror(lay, p)}))
  {
    hide SeedTrace;
    MarkedColumns(lay, t, lay.KeyOf(p.col));
    assert SeedTrace(lay, t, Ordered(lay.KeyOf(p.col))).cols ==
           TraceAlong(t, s, Restricted((_: PointInput) => 1.0, {p, Mirror(lay, p)})).cols;
  }

  lemma CellSeedIsDirection(lay: Layout, arg: PointArg, p: PointInput)
    requires Shaped(lay, |arg.sides|, arg) && Unseeded(arg) && p in Inputs(lay, |arg.sides|, |arg.extractors|)
    requires p.Cell? && lay.Has(lay.KeyOf(p.col)) && lay.Column(lay.KeyOf(p.col)) == p.col
    ensures IsSeed(lay, |arg.sides|, Seed(p.side, Ordered(lay.KeyOf(p.col))))
    ensures SeedArg(lay, arg, Seed(p.side, Ordered(lay.KeyOf(p.col)))) ==
            Directed(arg, Restricted((_: PointInput) => 1.0, {p, Mirror(lay, p)}))
  {
    hide SeedTrace;
    CellSeedIsTrace(lay, arg.sides[p.side], p.side, p);
    var seeded := SeedArg(lay, arg, Seed(p.side, Ordered(lay.KeyOf(p.col))));
    var directed := Directed(arg, Restricted((_: PointInput) => 1.0, {p, Mirror(lay, p)}));
    forall s | 0 <= s < |arg.sides|
      ensures seeded.sides[s] == directed.sides[s]
    {
      if s != p.side {
        assert arg.sides[s].cols == directed.sides[s].cols;
      }
    }
    assert seeded.sides == directed.sides && seeded.extractors == directed.extractors;
  }

  lemma SharedSeedIsDirection(arg: PointArg, p: PointInput)
    requires Unseeded(arg) && p.Shared? && p.e < |arg.extractors|
    ensures SeedExtractor(arg, p.e) == Directed(arg, Unit(p))
  {
    var seeded, directed := SeedExtractor(arg, p.e), Directed(arg, Unit(p));
    forall s | 0 <= s < |arg.sides|
      ensures seeded.sides[s] == directed.sides[s]
    {
      assert seeded.sides[s].cols == directed.sides[s].cols;
    }
    assert seeded.sides == directed.sides && seeded.extractors == directed.extractors;
  }

  /** What is stored for an input is the mean of the derivatives along it and along its mirror. */
  lemma StoredIsMean(ev: Evaluation, lay: Layout, arg: PointArg, o: Out, p: PointInput)
    requires Differentiable(ev) && Shaped(lay, |arg.sides|, arg) && Unseeded(arg)
    requires p in Inputs(lay, |arg.sides|, |arg.extractors|)
    ensures Stored(ev, lay, arg, o, p) ==
            0.5 * (Derivative(ev, arg, o, Unit(p)) + Derivative(ev, arg, o, Unit(Mirror(lay, p))))
  {
    hide Differentiable, Derivative, Directed, SeedArg, SeedExtractor, PointValue;
    MirrorInvolution(lay, |arg.sides|, |arg.extractors|, p);
    SeedIsDirection(lay, arg, p);
    PairDerivative(ev, arg, o, p, Mirror(lay, p));
    if p.Cell? {
      StoredIsShare(ev, lay, arg, o, p);
    } else {
      SharedStored(ev, lay, arg, o, p);
    }
  }

  lemma StoredIsShare(ev: Evaluation, lay: Layout, arg: PointArg, o: Out, p: PointInput)
    requires Shaped(lay, |arg.sides|, arg) && Unseeded(arg)
    requires p in Inputs(lay, |arg.sides|, |arg.extractors|) && p.Cell?
    ensures Stored(ev, lay, arg, o, p) ==
            Derivative(ev, arg, o, Restricted((_: PointInput) => 1.0, {p, Mirror(lay, p)})) /
            if Mirror(lay, p) == p then 1.0 else 2.0
  {
    hide PointValue, SeedTrace;
    MirrorInvolution(lay, |arg.sides|, |arg.extractors|, p);
    SeedIsDirection(lay, arg, p);
    lay.ColumnOfKey(Transposed(lay.KeyOf(p.col)));
  }

  lemma SharedStored(ev: Evaluation, lay: Layout, arg: PointArg, o: Out, p: PointInput)
    requires Shaped(lay, |arg.sides|, arg) && Unseeded(arg)
    requires p in Inputs(lay, |arg.sides|, |arg.extractors|) && p.Shared?
    ensures Stored(ev, lay, arg, o, p) == Derivative(ev, arg, o, Unit(p))
  {
    SeedIsDirection(lay, arg, p);
  }

  lemma PairDerivative(ev: Evaluation, arg: PointArg, o: Out, p: PointInput, q: PointInput)
    requires Differentiable(ev)
    ensures Derivative(ev, arg, o, Restricted((_: PointInput) => 1.0, {p, q})) ==
            Derivative(ev, arg, o, Unit(p)) + if q == p then 0.0 else Derivative(ev, arg, o, Unit(q))
  {
    hide Differentiable, Derivative;
    var pair := Restricted((_: PointInput) => 1.0, {p, q});
    DerivativeCombines(ev, arg, o, pair, Unit(p), 1.0, Unit(q), if q == p then 0.0 else 1.0);
  }

  lemma RestrictedToAll(lay: Layout, arg: PointArg, dir: Direction)
    requires Shaped(lay, |arg.sides|, arg)
    ensures Directed(arg, Restricted(dir, Inputs(lay, |arg.sides|, |arg.extractors|))) == Directed(arg, dir)
  {
    var r := Directed(arg, Restricted(dir, Inputs(lay, |arg.sides|, |arg.extractors|)));
    forall s | 0 <= s < |arg.sides|
      ensures r.sides[s] == Directed(arg, dir).sides[s]
    {
      assert r.sides[s].cols == Directed(arg, dir).sides[s].cols;
    }
    assert r.sides == Directed(arg, dir).sides && r.extractors == Directed(arg, dir).extractors;
  }

  lemma WeightedMean(x: real, y: real, w: real)
    ensures Times(w, 0.5 * (x + y)) == 0.5 * (Times(w, x) + Times(w, y))
  {
  }

  lemma RestrictedDerivative(ev: Evaluation, lay: Layout, arg: PointArg, o: Out, dir: Direction)
    requires Shaped(lay, |arg.sides|, arg)
    ensures Derivative(ev, arg, o, Restricted(dir, Inputs(lay, |arg.sides|, |arg.extractors|)))
            == Derivative(ev, arg, o, dir)
  {
    RestrictedToAll(lay, arg, dir);
  }

  /** Stored entry times direction, input by input. */
  ghost function Contribution(ev: Evaluation, lay: Layout, arg: PointArg, o: Out, dir: Direction): PointInput -> real
    requires Shaped(lay, |arg.sides|, arg)
  {
    (p: PointInput) =>
      if p in Inputs(lay, |arg.sides|, |arg.extractors|) && Shaped(lay, |arg.sides|, arg)
      then Times(dir(p), Stored(ev, lay, arg, o, p)) else 0.0
  }

  lemma ContributionIsMean(ev: Evaluation, lay: Layout, arg: PointArg, o: Out, dir: Direction, p: PointInput)
    requires Differentiable(ev) && Shaped(lay, |arg.sides|, arg) && Unseeded(arg)
    requires p in Inputs(lay, |arg.sides|, |arg.extractors|) && dir(Mirror(lay, p)) == dir(p)
    ensures Contribution(ev, lay, arg, o, dir)(p) ==
            0.5 * (Slope(ev, arg, o, dir)(p) + Slope(ev, arg, o, dir)(Mirror(lay, p)))
  {
    hide Differentiable, Derivative, Stored, Unit, Times;
    MirrorInvolution(lay, |arg.sides|, |arg.extractors|, p);
    StoredIsMean(ev, lay, arg, o, p);
    WeightedMean(Derivative(ev, arg, o, Unit(p)), Derivative(ev, arg, o, Unit(Mirror(lay, p))), dir(p));
  }

  /** The stored jacobian, contracted with any direction that treats mirrored hessian entries alike, is exact. */
  lemma ContractionExact(ev: Evaluation, lay: Layout, arg: PointArg, o: Out, dir: Direction)
    requires Differentiable(ev) && Shaped(lay, |arg.sides|, arg) && Unseeded(arg)
    requires forall p :: p in Inputs(lay, |arg.sides|, |arg.extractors|) ==> dir(Mirror(lay, p)) == dir(p)
    ensures Derivative(ev, arg, o, dir) ==
            SumOver(Inputs(lay, |arg.sides|, |arg.extractors|), Contribution(ev, lay, arg, o, dir))
  {
    hide Differentiable, Derivative, Restricted, Contribution, Slope, Times;
    var all := Inputs(lay, |arg.sides|, |arg.extractors|);
    var g, h := Contribution(ev, lay, arg, o, dir), Slope(ev, arg, o, dir);
    var mirror := (p: PointInput) => if p.Cell? ==> p.col < lay.Columns() then Mirror(lay, p) else p;
    var h' := (p: PointInput) => h(mirror(p));
    forall p | p in all
      ensures g(p) == 0.5 * (h(p) + h'(p))
      ensures mirror(p) in all && mirror(mirror(p)) == p
    {
      MirrorInvolution(lay, |arg.sides|, |arg.extractors|, p);
      ContributionIsMean(ev, lay, arg, o, dir, p);
    }
    SumAverage(all, g, h, h');
    SumInvolution(all, h, h', mirror);
    DerivativeIsSum(ev, arg, o, dir, all);
    RestrictedDerivative(ev, lay, arg, o, dir);
  }
}
