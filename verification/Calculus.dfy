/**
 What the seed-stacked jacobian is good for: contracted with a direction, its stored entries are the directional
 derivative of the evaluation; for polynomial models that is the derivative of calculus.
 */
module JacobianCalculus {
  import opened Prelude
  import opened DualNumbers
  import opened PolynomialDerivative
  import opened Batches
  import opened NumericalFlux
  import opened SeedStacking
  import opened Directional
  import opened Smoothness
  import opened EvaluationCalculus

  /** Where the jacobian of point i keeps the derivative of output o with respect to an input. */
  function KeyFor(lay: Layout, i: nat, o: Out, p: PointInput): JKey
    requires p.Cell? ==> p.col < lay.Columns()
  {
    match p
    case Cell(s, col) => JKey(i, s, o, State(lay.KeyOf(col)))
    case Shared(e) => JKey(i, 0, o, Extractor(e))
  }

  lemma ExpectedIsStored(ev: Evaluation, lay: Layout, outLay: OutLayout, args: seq<PointArg>, nSides: nat,
                         nExtractors: nat, seeded: nat, i: nat, o: Out, p: PointInput)
    requires forall k :: 0 <= k < |args| ==> Shaped(lay, nSides, args[k]) && |args[k].extractors| == nExtractors
    requires lay.Valid() && i < |args| && outLay.Has(o) && p in Inputs(lay, nSides, nExtractors)
    requires seeded <= nExtractors && (p.Shared? ==> p.e < seeded)
    ensures Expected(ev, lay, outLay, args, nSides, seeded, KeyFor(lay, i, o, p))
            == Some(Stored(ev, lay, args[i], o, p))
  {
    hide Entry, PointValue;
    MirrorInvolution(lay, nSides, nExtractors, p);
  }

  /** One stored entry times the direction. */
  ghost function Contracted(entries: map<JKey, real>, lay: Layout, i: nat, o: Out, dir: Direction): PointInput -> real {
    (p: PointInput) =>
      if p.Cell? ==> p.col < lay.Columns() then Times(dir(p), Lookup(entries, KeyFor(lay, i, o, p))) else 0.0
  }

  function Lookup(entries: map<JKey, real>, k: JKey): real {
    if k in entries then entries[k] else 0.0
  }

  /** A direction that treats mirrored hessian entries alike. */
  ghost predicate Symmetric(lay: Layout, nSides: nat, nExtractors: nat, dir: Direction) {
    lay.Valid() && forall p :: p in Inputs(lay, nSides, nExtractors) ==> dir(Mirror(lay, p)) == dir(p)
  }

  /** The direction leaves the extractors alone from number `seeded` on. */
  ghost predicate Keeps(dir: Direction, seeded: nat, nExtractors: nat) {
    forall e: nat :: seeded <= e < nExtractors ==> dir(Shared(e)) == 0.0
  }

  lemma {:induction false} SumSame<P(!new)>(s: set<P>, g: P -> real, h: P -> real)
    requires forall p :: p in s ==> g(p) == h(p)
    ensures SumOver(s, g) == SumOver(s, h)
  {
    if s != {} {
      var p :| p in s;
      SumRemove(s, g, p);
      SumRemove(s, h, p);
      SumSame(s - {p}, g, h);
    }
  }

  lemma ContractedIsStored(ev: Evaluation, lay: Layout, outLay: OutLayout, args: seq<PointArg>, nSides: nat,
                           nExtractors: nat, seeded: nat, entries: map<JKey, real>, i: nat, o: Out, dir: Direction,
                           p: PointInput)
    requires forall k :: 0 <= k < |args| ==> Shaped(lay, nSides, args[k]) && |args[k].extractors| == nExtractors
    requires lay.Valid() && i < |args| && outLay.Has(o) && seeded <= nExtractors && Keeps(dir, seeded, nExtractors)
    requires p in Inputs(lay, nSides, nExtractors)
    requires forall k: JKey ::
               var x := Expected(ev, lay, outLay, args, nSides, seeded, k);
               x.Some? ==> Lookup(entries, k) == x.value
    ensures Contribution(ev, lay, args[i], o, dir)(p) == Contracted(entries, lay, i, o, dir)(p)
  {
    hide Stored, Expected, Lookup;
    if p.Cell? || p.e < seeded {
      ExpectedIsStored(ev, lay, outLay, args, nSides, nExtractors, seeded, i, o, p);
    } else {
      assert dir(p) == 0.0;
    }
  }

  /**
   The entries of a jacobian with everything expected in it contract to the directional derivative, for directions
   among the seeded extractors.
   */
  lemma EntriesContract(ev: Evaluation, lay: Layout, outLay: OutLayout, args: seq<PointArg>, nSides: nat,
                        nExtractors: nat, seeded: nat, entries: map<JKey, real>, i: nat, o: Out, dir: Direction)
    requires Differentiable(ev) && Symmetric(lay, nSides, nExtractors, dir)
    requires seeded <= nExtractors && Keeps(dir, seeded, nExtractors)
    requires forall k :: 0 <= k < |args| ==>
               Shaped(lay, nSides, args[k]) && |args[k].extractors| == nExtractors && Unseeded(args[k])
    requires i < |args| && outLay.Has(o)
    requires forall k: JKey ::
               var x := Expected(ev, lay, outLay, args, nSides, seeded, k);
               x.Some? ==> Lookup(entries, k) == x.value
    ensures Derivative(ev, args[i], o, dir)
            == SumOver(Inputs(lay, nSides, nExtractors), Contracted(entries, lay, i, o, dir))
  {
    hide Differentiable, Derivative, Stored, Expected, Lookup, Contribution, Contracted;
    var all := Inputs(lay, nSides, nExtractors);
    forall p | p in all
      ensures Contribution(ev, lay, args[i], o, dir)(p) == Contracted(entries, lay, i, o, dir)(p)
    {
      ContractedIsStored(ev, lay, outLay, args, nSides, nExtractors, seeded, entries, i, o, dir, p);
    }
    ContractionExact(ev, lay, args[i], o, dir);
    SumSame(all, Contribution(ev, lay, args[i], o, dir), Contracted(entries, lay, i, o, dir));
  }

  lemma BaseArgsUnseeded(args: seq<PointArg>, srcs: seq<PointBatch<real>>, extractors: seq<real>,
                         normals: seq<seq<real>>, lay: Layout)
    requires AreBaseArgs(args, srcs, extractors, normals, lay)
    ensures forall i :: 0 <= i < |args| ==>
              Shaped(lay, |srcs|, args[i]) && |args[i].extractors| == |extractors| && Unseeded(args[i])
  {
  }

  /**
   The jacobian of a batch evaluation from zero. At every point, for every requested output, it contracts with every
   symmetric direction to the derivative of the unstacked evaluation along that direction; if the model freezes its
   extractors, with every direction that leaves them alone.
   */
  method EvaluateJacobian(ev: Evaluation, ws: SeedStackWorkspace, srcs: seq<PointBatch<real>>, lay: Layout, n: nat,
                          normals: seq<seq<real>>, maxStacked: nat, terms: Terms, extractors: array<real>,
                          extractorSeeds: bool, ghost args: seq<PointArg>)
    returns (J: Jacobian)
    requires ws.Fits(srcs, lay, n) && |normals| == n && AreBaseArgs(args, srcs, extractors[..], normals, lay)
    requires !terms.diffusion && Suits(ev, lay, |srcs|, ws.out.nOut, terms, normals)
    requires ws.extractors.Length == extractors.Length && (extractors as object) != ws.extractors
    modifies ws.batches, ws.out, ws.extractors
    ensures fresh(J)
    ensures Differentiable(ev) ==>
              forall i: nat, o: Out, dir: Direction ::
                i < n && OutLayout(lay.dim, ws.out.nOut, terms).Has(o) &&
                Symmetric(lay, |srcs|, extractors.Length, dir) &&
                Keeps(dir, if extractorSeeds then extractors.Length else 0, extractors.Length) ==>
                  Derivative(ev, args[i], o, dir)
                  == SumOver(Inputs(lay, |srcs|, extractors.Length), Contracted(J.entries, lay, i, o, dir))
  {
    hide Differentiable, Derivative, Expected, Symmetric, Unseeded, Suits, Keeps;
    J := new Jacobian();
    BaseArgsUnseeded(args, srcs, extractors[..], normals, lay);
    SeedStackedJacobian(ev, J, ws, srcs, lay, n, normals, maxStacked, terms, extractors, extractorSeeds, args);
    ghost var outLay, seeded := OutLayout(lay.dim, ws.out.nOut, terms), if extractorSeeds then extractors.Length else 0;
    forall k: JKey
      ensures var x := Expected(ev, lay, outLay, args, |srcs|, seeded, k);
              x.Some? ==> Lookup(J.entries, k) == x.value
    {
      assert J.Get(k) == Lookup(J.entries, k);
    }
    hide Lookup;
    if Differentiable(ev) {
      forall i: nat, o: Out, dir: Direction
        | i < n && outLay.Has(o) && Symmetric(lay, |srcs|, extractors.Length, dir)
          && Keeps(dir, seeded, extractors.Length)
        ensures Derivative(ev, args[i], o, dir)
                == SumOver(Inputs(lay, |srcs|, extractors.Length), Contracted(J.entries, lay, i, o, dir))
      {
        EntriesContract(ev, lay, outLay, args, |srcs|, extractors.Length, seeded, J.entries, i, o, dir);
      }
    }
  }

  /**
   So wherever the output is smooth, the contraction is the slope of its plain value as the inputs move along the
   direction.
   */
  lemma ContractionIsSlope(ev: Evaluation, lay: Layout, outLay: OutLayout, args: seq<PointArg>, nSides: nat,
                           nExtractors: nat, seeded: nat, entries: map<JKey, real>, i: nat, o: Out, dir: Direction)
    returns (k: real, r: real)
    requires Differentiable(ev) && Symmetric(lay, nSides, nExtractors, dir)
    requires seeded <= nExtractors && Keeps(dir, seeded, nExtractors)
    requires forall k :: 0 <= k < |args| ==>
               Shaped(lay, nSides, args[k]) && |args[k].extractors| == nExtractors && Unseeded(args[k])
    requires i < |args| && outLay.Has(o)
    requires forall k: JKey ::
               var x := Expected(ev, lay, outLay, args, nSides, seeded, k);
               x.Some? ==> Lookup(entries, k) == x.value
    requires SmoothOutput(ev, Directed(args[i], dir), o)
    ensures TendsTo(ev, args[i], o, dir,
                    SumOver(Inputs(lay, nSides, nExtractors), Contracted(entries, lay, i, o, dir)), k, r)
  {
    hide *;
    EntriesContract(ev, lay, outLay, args, nSides, nExtractors, seeded, entries, i, o, dir);
    k, r := DerivativeIsSlope(ev, args[i], o, dir);
  }

  // ----- polynomial models -----

  /** Every output of the model is a polynomial of the inputs. */
  ghost predicate PolynomialModel(model: (Directional.Place, Out) -> Expr<PointInput>) {
    forall place, o :: Polynomial(model(place, o))
  }

  /** The value of an expression depends on the values of its inputs only. */
  lemma {:induction false} ValueOfValues<I(!new)>(e: Expr<I>, look: I -> Dual, look': I -> Dual)
    requires forall i :: look(i).v == look'(i).v
    ensures Eval(e, look).v == Eval(e, look').v
  {
    match e
    case Const(_) =>
    case Input(_) =>
    case Absolute(a) => ValueOfValues(a, look, look');
    case Function(s, a) => ValueOfValues(a, look, look');
    case Sum(l, r) => ValueOfValues(l, look, look'); ValueOfValues(r, look, look');
    case Difference(l, r) => ValueOfValues(l, look, look'); ValueOfValues(r, look, look');
    case Product(l, r) => ValueOfValues(l, look, look'); ValueOfValues(r, look, look');
    case Quotient(l, r) => ValueOfValues(l, look, look'); ValueOfValues(r, look, look');
    case Maximum(l, r) => ValueOfValues(l, look, look'); ValueOfValues(r, look, look');
  }

  lemma MovedLooks(arg: PointArg, dir: Direction, h: real)
    ensures PlaceOf(Directed(arg, dir)) == PlaceOf(arg) == PlaceOf(MovedArg(arg, dir, h))
    ensures forall p :: Look(Directed(arg, dir), p).v == Look(arg, p).v
    ensures forall p :: Look(MovedArg(arg, dir, h), p).v
                        == Moved((q: PointInput) => Look(Directed(arg, dir), q), h)(p).v
  {
    assert Times(h, 0.0) == 0.0;
  }

  /**
   For a polynomial model the directional derivative is the limit of the difference quotients of the plain evaluation,
   with a bound of the error that is linear in h.
   */
  lemma DerivativeIsCalculus(model: (Directional.Place, Out) -> Expr<PointInput>, arg: PointArg, o: Out,
                             dir: Direction, h: real)
    requires PolynomialModel(model) && h != 0.0 && Abs(h) <= 1.0
    ensures var ev := PerPoint(ExpressionModel(model));
            var bound := Bound(model(PlaceOf(arg), o), (q: PointInput) => Look(Directed(arg, dir), q));
            Abs((PointValue(ev, MovedArg(arg, dir, h), o).v - PointValue(ev, arg, o).v) / h
                - Derivative(ev, arg, o, dir)) <= Times(Abs(h), bound)
  {
    hide Polynomial, Eval, Bound, Moved, Look, PlaceOf, Times, Directed, MovedArg;
    var e := model(PlaceOf(arg), o);
    var along := (q: PointInput) => Look(Directed(arg, dir), q);
    MovedLooks(arg, dir, h);
    ValueOfValues(e, (q: PointInput) => Look(MovedArg(arg, dir, h), q), Moved(along, h));
    ValueOfValues(e, (q: PointInput) => Look(arg, q), along);
    DerivativeIsLimit(e, along, h);
  }
}
