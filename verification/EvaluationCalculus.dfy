/**
 Wherever a model is smooth, the derivative an evaluation carries is the slope of the plain evaluation: for a model
 written as expressions, and for the Lax-Friedrichs flux of any such model through all of its estimates.
 */
module EvaluationCalculus {
  import opened Prelude
  import opened DualNumbers
  import opened Smoothness
  import opened Batches
  import opened NumericalFlux
  import opened SeedStacking
  import opened Directional

  ghost predicate SameShape(a: PointArg, b: PointArg) {
    && |a.sides| == |b.sides| && |a.extractors| == |b.extractors| && a.normal == b.normal
    && forall s :: 0 <= s < |a.sides| ==>
                     && |a.sides[s].cols| == |b.sides[s].cols|
                     && a.sides[s].x == b.sides[s].x && a.sides[s].width == b.sides[s].width
  }

  /** All inputs of the point move along curves with the seeded slopes; nothing else changes. */
  ghost predicate ArgMoves(args: real -> PointArg, arg: PointArg) {
    && (forall h :: SameShape(args(h), arg))
    && forall p: PointInput :: Tracks(h => Look(args(h), p).v, Look(arg, p))
  }

  /** Along any such motion the derivative part of the output is the slope of its value. */
  ghost predicate SmoothOutput(ev: Evaluation, arg: PointArg, o: Out) {
    forall args: real -> PointArg :: ArgMoves(args, arg) ==> Tracks(Values(ev, args, o), PointValue(ev, arg, o))
  }

  function Values(ev: Evaluation, args: real -> PointArg, o: Out): real -> real {
    h => PointValue(ev, args(h), o).v
  }

  lemma ValuesAt(ev: Evaluation, args: real -> PointArg, o: Out, h: real)
    ensures Values(ev, args, o)(h) == PointValue(ev, args(h), o).v
  {
  }

  // ----- expression models -----

  lemma SamePlace(a: PointArg, b: PointArg)
    requires SameShape(a, b)
    ensures PlaceOf(a) == PlaceOf(b)
  {
  }

  /** A regular expression is smooth as an output of a model. */
  lemma RegularIsSmooth(model: (Directional.Place, Out) -> Expr<PointInput>, arg: PointArg, o: Out)
    requires Regular(model(PlaceOf(arg), o), LookOf(arg))
    ensures SmoothOutput(PerPoint(ExpressionModel(model)), arg, o)
  {
    var ev, e := PerPoint(ExpressionModel(model)), model(PlaceOf(arg), o);
    forall args: real -> PointArg | ArgMoves(args, arg)
      ensures Tracks(Values(ev, args, o), PointValue(ev, arg, o))
    {
      RegularMoves(model, args, arg, o);
    }
  }

  function LookOf(arg: PointArg): PointInput -> Dual {
    (p: PointInput) => Look(arg, p)
  }

  function LooksAlong(args: real -> PointArg): real -> PointInput -> Dual {
    h => LookOf(args(h))
  }

  lemma RegularMoves(model: (Directional.Place, Out) -> Expr<PointInput>, args: real -> PointArg, arg: PointArg,
                     o: Out)
    requires Regular(model(PlaceOf(arg), o), LookOf(arg)) && ArgMoves(args, arg)
    ensures Tracks(Values(PerPoint(ExpressionModel(model)), args, o),
                   PointValue(PerPoint(ExpressionModel(model)), arg, o))
  {
    hide Tracks, Regular, Look, PlaceOf, Eval;
    var ev, e := PerPoint(ExpressionModel(model)), model(PlaceOf(arg), o);
    LooksMove(args, arg);
    ExpressionTracks(e, LooksAlong(args), LookOf(arg));
    forall h
      ensures Values(ev, args, o)(h) == Curve(e, LooksAlong(args))(h)
    {
      SamePlace(args(h), arg);
    }
    TracksAs(Curve(e, LooksAlong(args)), Values(ev, args, o), Eval(e, LookOf(arg)));
  }

  lemma LooksMove(args: real -> PointArg, arg: PointArg)
    requires ArgMoves(args, arg)
    ensures Moves(LooksAlong(args), LookOf(arg))
  {
    hide Tracks, Look;
    forall p: PointInput
      ensures Tracks(h => LooksAlong(args)(h)(p).v, LookOf(arg)(p))
    {
      var curve: real -> real := h => LooksAlong(args)(h)(p).v;
      forall h
        ensures curve(h) == (h' => Look(args(h'), p).v)(h)
      {
        assert LooksAlong(args)(h)(p) == Look(args(h), p);
      }
      TracksAs(h => Look(args(h), p).v, curve, Look(arg, p));
      TracksAs(curve, h => LooksAlong(args)(h)(p).v, Look(arg, p));
    }
  }

  // ----- the parts of a face point -----

  predicate IsFace(arg: PointArg, c: nat) {
    |arg.sides| == 2 && c < |arg.sides[0].cols| && c < |arg.sides[1].cols|
  }

  function FaceOf(arg: PointArg): Face
    requires |arg.sides| == 2
  {
    Face(arg.sides[0], arg.sides[1], arg.extractors, arg.extractors, arg.normal)
  }

  /** What the model sees of one side of the face. */
  function SideOf(arg: PointArg, s: nat): PointArg {
    if s < |arg.sides| then One(arg.sides[s], arg.extractors) else arg
  }

  /** The step of component c. */
  function StepOf(arg: PointArg, c: nat): Dual {
    if IsFace(arg, c) then Bump(arg.sides[0].cols[c], arg.sides[1].cols[c]) else Plain(0.0)
  }

  /** The same side with component c perturbed. */
  function BumpedOf(arg: PointArg, s: nat, c: nat): PointArg {
    if IsFace(arg, c) && s < 2 then One(Bumped(arg.sides[s], c, StepOf(arg, c)), arg.extractors) else arg
  }

  function SidesAlong(args: real -> PointArg, s: nat): real -> PointArg {
    h => SideOf(args(h), s)
  }

  function BumpedAlong(args: real -> PointArg, s: nat, c: nat): real -> PointArg {
    h => BumpedOf(args(h), s, c)
  }

  function StepsAlong(args: real -> PointArg, c: nat): real -> real {
    h => StepOf(args(h), c).v
  }

  function ColumnAlong(args: real -> PointArg, s: nat, c: nat): real -> real {
    h => Look(args(h), Cell(s, c)).v
  }

  lemma CurvesAt(args: real -> PointArg, s: nat, c: nat, h: real)
    ensures SidesAlong(args, s)(h) == SideOf(args(h), s) && BumpedAlong(args, s, c)(h) == BumpedOf(args(h), s, c)
    ensures StepsAlong(args, c)(h) == StepOf(args(h), c).v && ColumnAlong(args, s, c)(h) == Look(args(h), Cell(s, c)).v
  {
  }

  lemma ColumnMoves(args: real -> PointArg, arg: PointArg, s: nat, c: nat)
    requires ArgMoves(args, arg) && IsFace(arg, c) && s < 2
    ensures Tracks(ColumnAlong(args, s, c), arg.sides[s].cols[c])
  {
    hide Tracks;
    assert Look(arg, Cell(s, c)) == arg.sides[s].cols[c];
    TracksAs(h => Look(args(h), Cell(s, c)).v, ColumnAlong(args, s, c), Look(arg, Cell(s, c)));
  }

  lemma SideLooks(arg: PointArg, s: nat, p: PointInput)
    requires s < |arg.sides|
    ensures Look(SideOf(arg, s), p)
            == match p
               case Cell(side, col) => if side == 0 then Look(arg, Cell(s, col)) else Plain(0.0)
               case Shared(_) => Look(arg, p)
  {
  }

  lemma BumpedLooks(arg: PointArg, s: nat, c: nat, p: PointInput)
    requires IsFace(arg, c) && s < 2
    ensures Look(BumpedOf(arg, s, c), p)
            == if p == Cell(0, c) then Add(Look(arg, Cell(s, c)), StepOf(arg, c)) else Look(SideOf(arg, s), p)
  {
    hide Bump;
  }

  lemma SideMoves(args: real -> PointArg, arg: PointArg, s: nat)
    requires ArgMoves(args, arg) && s < |arg.sides|
    ensures ArgMoves(SidesAlong(args, s), SideOf(arg, s))
  {
    hide Tracks, Look;
    var sides := SidesAlong(args, s);
    forall p: PointInput
      ensures Tracks(h => Look(sides(h), p).v, Look(SideOf(arg, s), p))
    {
      SideLooks(arg, s, p);
      var q := if p.Cell? then Cell(s, p.col) else p;
      var curve: real -> real := h => Look(sides(h), p).v;
      if p.Cell? && p.side != 0 {
        forall h
          ensures curve(h) == 0.0
        {
          SideLooks(args(h), s, p);
        }
        ConstantTracks(curve, 0.0);
      } else {
        forall h
          ensures curve(h) == (h' => Look(args(h'), q).v)(h)
        {
          SideLooks(args(h), s, p);
        }
        TracksAs(h => Look(args(h), q).v, curve, Look(arg, q));
      }
    }
    MovesAs(sides, SidesAlong(args, s), SideOf(arg, s));
  }

  lemma MovesAs(args: real -> PointArg, args': real -> PointArg, arg: PointArg)
    requires forall h :: SameShape(args(h), arg) && args'(h) == args(h)
    requires forall p: PointInput :: Tracks(h => Look(args(h), p).v, Look(arg, p))
    ensures ArgMoves(args', arg)
  {
    hide Tracks, Look;
    forall p: PointInput
      ensures Tracks(h => Look(args'(h), p).v, Look(arg, p))
    {
      TracksAs(h => Look(args(h), p).v, h => Look(args'(h), p).v, Look(arg, p));
    }
  }

  /** Neither trace has its component at a kink of the absolute value. */
  predicate Unkinked(a: Dual) {
    a.v != 0.0 || a.d == 0.0
  }

  lemma StepMoves(args: real -> PointArg, arg: PointArg, c: nat)
    requires ArgMoves(args, arg) && IsFace(arg, c)
    requires Unkinked(arg.sides[0].cols[c]) && Unkinked(arg.sides[1].cols[c])
    ensures Tracks(StepsAlong(args, c), StepOf(arg, c))
  {
    hide Tracks, Bump, BumpValue, Bumps, StepsAlong, ColumnAlong, StepOf, ArgMoves;
    var s, n := ColumnAlong(args, 0, c), ColumnAlong(args, 1, c);
    ColumnMoves(args, arg, 0, c);
    ColumnMoves(args, arg, 1, c);
    BumpTracks(s, arg.sides[0].cols[c], n, arg.sides[1].cols[c]);
    forall h
      ensures StepsAlong(args, c)(h) == Bumps(s, n)(h)
    {
      FaceStays(args, arg, c, h);
      BumpsAt(s, n, h);
      CurvesAt(args, 0, c, h);
      CurvesAt(args, 1, c, h);
      StepValue(args(h), c);
    }
    StepIs(arg, c);
    TracksAs(Bumps(s, n), StepsAlong(args, c), StepOf(arg, c));
  }

  lemma StepIs(arg: PointArg, c: nat)
    requires IsFace(arg, c)
    ensures StepOf(arg, c) == Bump(arg.sides[0].cols[c], arg.sides[1].cols[c])
  {
    hide Bump;
  }

  lemma StepValue(arg: PointArg, c: nat)
    requires IsFace(arg, c)
    ensures StepOf(arg, c).v == BumpValue(Look(arg, Cell(0, c)).v, Look(arg, Cell(1, c)).v)
  {
    hide Bump, BumpValue;
    BumpIs(arg.sides[0].cols[c], arg.sides[1].cols[c]);
  }

  function BumpValue(us: real, un: real): real {
    Times(0.00001, Times(0.5, Abs(us) + Abs(un)) + 0.000000001)
  }

  lemma BumpIs(us: Dual, un: Dual)
    ensures Bump(us, un).v == BumpValue(us.v, un.v)
  {
  }

  /** The step along two curves. */
  function Bumps(s: real -> real, n: real -> real): real -> real {
    By(Fixed(0.00001), Plus(By(Fixed(0.5), Plus(Size(s), Size(n))), Fixed(0.000000001)))
  }

  lemma BumpsAt(s: real -> real, n: real -> real, h: real)
    ensures Bumps(s, n)(h) == BumpValue(s(h), n(h))
  {
    hide Plus, By, Fixed, Size, Less, Times, Abs;
    SizeAt(s, h);
    SizeAt(n, h);
    FixedAt(0.5, h);
    FixedAt(0.00001, h);
    FixedAt(0.000000001, h);
    var mean := By(Fixed(0.5), Plus(Size(s), Size(n)));
    OperationsAt(Size(s), Size(n), h);
    OperationsAt(Fixed(0.5), Plus(Size(s), Size(n)), h);
    OperationsAt(mean, Fixed(0.000000001), h);
    OperationsAt(Fixed(0.00001), Plus(mean, Fixed(0.000000001)), h);
  }

  lemma BumpTracks(s: real -> real, us: Dual, n: real -> real, un: Dual)
    requires Tracks(s, us) && Tracks(n, un) && Unkinked(us) && Unkinked(un)
    ensures Tracks(Bumps(s, n), Bump(us, un))
  {
    hide Tracks, Times, Add, Mul, AbsD, Abs, Plus, By, Fixed, Size, Less;
    var sum, mean := Add(AbsD(us), AbsD(un)), Mul(Plain(0.5), Add(AbsD(us), AbsD(un)));
    SizeTracks(s, us);
    SizeTracks(n, un);
    FixedTracks(0.5);
    FixedTracks(0.000000001);
    FixedTracks(0.00001);
    PlusTracks(Size(s), AbsD(us), Size(n), AbsD(un));
    PlusTracks(Fixed(0.5), Plain(0.5), Plus(Size(s), Size(n)), sum);
    PlusTracks(By(Fixed(0.5), Plus(Size(s), Size(n))), mean, Fixed(0.000000001), Plain(0.000000001));
    PlusTracks(Fixed(0.00001), Plain(0.00001), Plus(By(Fixed(0.5), Plus(Size(s), Size(n))), Fixed(0.000000001)),
               Add(mean, Plain(0.000000001)));
  }

  lemma BumpedMoves(args: real -> PointArg, arg: PointArg, s: nat, c: nat)
    requires ArgMoves(args, arg) && IsFace(arg, c) && s < 2
    requires Unkinked(arg.sides[0].cols[c]) && Unkinked(arg.sides[1].cols[c])
    ensures ArgMoves(BumpedAlong(args, s, c), BumpedOf(arg, s, c))
  {
    hide Tracks, Look, Bump;
    StepMoves(args, arg, c);
    SideMoves(args, arg, s);
    ColumnMoves(args, arg, s, c);
    var bumped, sides := BumpedAlong(args, s, c), SidesAlong(args, s);
    forall p: PointInput
      ensures Tracks(h => Look(bumped(h), p).v, Look(BumpedOf(arg, s, c), p))
    {
      var curve: real -> real := h => Look(bumped(h), p).v;
      BumpedLooks(arg, s, c, p);
      if p == Cell(0, c) {
        forall h
          ensures curve(h) == ColumnAlong(args, s, c)(h) + StepsAlong(args, c)(h)
        {
          BumpedLooks(args(h), s, c, p);
        }
        SideLooks(arg, s, p);
        SumTracks(ColumnAlong(args, s, c), Look(arg, Cell(s, c)), StepsAlong(args, c), StepOf(arg, c), curve);
      } else {
        forall h
          ensures curve(h) == (h' => Look(sides(h'), p).v)(h)
        {
          BumpedLooks(args(h), s, c, p);
        }
        TracksAs(h => Look(sides(h), p).v, curve, Look(SideOf(arg, s), p));
      }
    }
    forall h
      ensures SameShape(bumped(h), BumpedOf(arg, s, c))
    {
      assert SameShape(args(h), arg);
    }
    MovesAs(bumped, BumpedAlong(args, s, c), BumpedOf(arg, s, c));
  }

  // ----- the flux of a face -----

  /** All fluxes of component c are smooth at this point, in the first k directions. */
  ghost predicate SmoothFluxes(f: PointFn, arg: PointArg, c: nat, k: nat) {
    forall d: nat :: d < k ==> SmoothOutput(PerPoint(f), arg, Flux(c, d))
  }

  lemma DotMoves(f: PointFn, args: real -> PointArg, arg: PointArg, c: nat, normal: seq<real>, k: nat)
    requires ArgMoves(args, arg) && k <= |normal| && SmoothFluxes(f, arg, c, k)
    ensures Tracks(DotAlong(f, args, c, normal, k), Dot(f, arg, c, normal, k))
  {
    hide Tracks, ArgMoves, Times, Mul, Add, Plus, By, Fixed, Less, Values, DotAlong;
    if k == 0 {
      forall h
        ensures DotAlong(f, args, c, normal, 0)(h) == 0.0
      {
        DotAt(f, args, c, normal, 0, h);
      }
      ConstantTracks(DotAlong(f, args, c, normal, 0), 0.0);
    } else {
      DotMoves(f, args, arg, c, normal, k - 1);
      FluxTracksHere(f, args, arg, c, k - 1);
      var flux, y := Values(PerPoint(f), args, Flux(c, k - 1)), normal[k - 1];
      FixedTracks(y);
      PlusTracks(flux, f(arg, Flux(c, k - 1)), Fixed(y), Plain(y));
      PlusTracks(DotAlong(f, args, c, normal, k - 1), Dot(f, arg, c, normal, k - 1), By(flux, Fixed(y)),
                 Mul(f(arg, Flux(c, k - 1)), Plain(y)));
      forall h
        ensures DotAlong(f, args, c, normal, k)(h)
                == Plus(DotAlong(f, args, c, normal, k - 1), By(flux, Fixed(y)))(h)
      {
        DotStep(f, args, c, normal, k, h);
      }
      TracksAs(Plus(DotAlong(f, args, c, normal, k - 1), By(flux, Fixed(y))), DotAlong(f, args, c, normal, k),
               Dot(f, arg, c, normal, k));
    }
  }

  lemma FluxTracksHere(f: PointFn, args: real -> PointArg, arg: PointArg, c: nat, d: nat)
    requires ArgMoves(args, arg) && SmoothOutput(PerPoint(f), arg, Flux(c, d))
    ensures Tracks(Values(PerPoint(f), args, Flux(c, d)), f(arg, Flux(c, d)))
  {
  }

  function DotAlong(f: PointFn, args: real -> PointArg, c: nat, normal: seq<real>, k: nat): real -> real
    requires k <= |normal|
  {
    h => Dot(f, args(h), c, normal, k).v
  }

  lemma DotAt(f: PointFn, args: real -> PointArg, c: nat, normal: seq<real>, k: nat, h: real)
    requires k <= |normal|
    ensures DotAlong(f, args, c, normal, k)(h) == Dot(f, args(h), c, normal, k).v
  {
  }

  lemma DotStep(f: PointFn, args: real -> PointArg, c: nat, normal: seq<real>, k: nat, h: real)
    requires 0 < k <= |normal|
    ensures DotAlong(f, args, c, normal, k)(h)
            == Plus(DotAlong(f, args, c, normal, k - 1),
                    By(Values(PerPoint(f), args, Flux(c, k - 1)), Fixed(normal[k - 1])))(h)
  {
    hide Plus, By, Fixed, Less, Times, Add, Mul, DotAlong, Values;
    var before, flux := DotAlong(f, args, c, normal, k - 1), Values(PerPoint(f), args, Flux(c, k - 1));
    var y := normal[k - 1];
    DotAt(f, args, c, normal, k, h);
    DotAt(f, args, c, normal, k - 1, h);
    FixedAt(y, h);
    OperationsAt(flux, Fixed(y), h);
    OperationsAt(before, By(flux, Fixed(y)), h);
    TermValue(Dot(f, args(h), c, normal, k - 1), f(args(h), Flux(c, k - 1)), y);
    ValuesAt(PerPoint(f), args, Flux(c, k - 1), h);
  }

  lemma TermValue(before: Dual, flux: Dual, y: real)
    ensures Add(before, Mul(flux, Plain(y))).v == before.v + Times(flux.v, y)
  {
  }

  /** The flux through the face on one side, once more perturbed, and the change. */
  function Change(f: PointFn, arg: PointArg, s: nat, c: nat): Dual {
    Sub(Dot(f, BumpedOf(arg, s, c), c, arg.normal, |arg.normal|), Dot(f, SideOf(arg, s), c, arg.normal, |arg.normal|))
  }

  /** Everything the flux of component c is made of is smooth at this point. */
  ghost predicate SmoothFace(f: PointFn, arg: PointArg, c: nat) {
    && IsFace(arg, c)
    && Unkinked(arg.sides[0].cols[c]) && Unkinked(arg.sides[1].cols[c])
    && (forall s: nat :: s < 2 ==>
          && SmoothFluxes(f, SideOf(arg, s), c, |arg.normal|) && SmoothFluxes(f, BumpedOf(arg, s, c), c, |arg.normal|)
          && Unkinked(Change(f, arg, s, c)))
    && var x, y := AbsD(Change(f, arg, 0, c)), AbsD(Change(f, arg, 1, c));
       x.v != y.v || x == y
  }

  function ChangesAlong(f: PointFn, args: real -> PointArg, s: nat, c: nat): real -> real {
    h => Change(f, args(h), s, c).v
  }

  lemma ChangeAt(f: PointFn, args: real -> PointArg, s: nat, c: nat, normal: seq<real>, h: real)
    requires args(h).normal == normal
    ensures ChangesAlong(f, args, s, c)(h)
            == Less(DotAlong(f, BumpedAlong(args, s, c), c, normal, |normal|),
                    DotAlong(f, SidesAlong(args, s), c, normal, |normal|))(h)
  {
    hide Dot, SideOf, BumpedOf, Less, DotAlong, Plus, By;
    DotAt(f, BumpedAlong(args, s, c), c, normal, |normal|, h);
    DotAt(f, SidesAlong(args, s), c, normal, |normal|, h);
    CurvesAt(args, s, c, h);
    OperationsAt(DotAlong(f, BumpedAlong(args, s, c), c, normal, |normal|),
                 DotAlong(f, SidesAlong(args, s), c, normal, |normal|), h);
    hide SidesAlong, BumpedAlong;
  }

  lemma ChangeMoves(f: PointFn, args: real -> PointArg, arg: PointArg, s: nat, c: nat)
    requires ArgMoves(args, arg) && SmoothFace(f, arg, c) && s < 2
    ensures Tracks(ChangesAlong(f, args, s, c), Change(f, arg, s, c))
  {
    SideMoves(args, arg, s);
    BumpedMoves(args, arg, s, c);
    var normal, k := arg.normal, |arg.normal|;
    var sides, bumped := SidesAlong(args, s), BumpedAlong(args, s, c);
    forall h
      ensures args(h).normal == normal
    {
      assert SameShape(args(h), arg);
    }
    hide Tracks, ArgMoves, Dot, SideOf, BumpedOf, DotAlong, Less, SidesAlong, BumpedAlong, ChangesAlong;
    DotMoves(f, sides, SideOf(arg, s), c, normal, k);
    DotMoves(f, bumped, BumpedOf(arg, s, c), c, normal, k);
    PlusTracks(DotAlong(f, bumped, c, normal, k), Dot(f, BumpedOf(arg, s, c), c, normal, k),
               DotAlong(f, sides, c, normal, k), Dot(f, SideOf(arg, s), c, normal, k));
    var changes := Less(DotAlong(f, bumped, c, normal, k), DotAlong(f, sides, c, normal, k));
    forall h
      ensures ChangesAlong(f, args, s, c)(h) == changes(h)
    {
      ChangeAt(f, args, s, c, normal, h);
    }
    TracksAs(changes, ChangesAlong(f, args, s, c), Change(f, arg, s, c));
  }

  function SpeedOf(f: PointFn, arg: PointArg, c: nat): Dual {
    Div(MaxD(AbsD(Change(f, arg, 0, c)), AbsD(Change(f, arg, 1, c))), StepOf(arg, c))
  }

  lemma SpeedIs(f: PointFn, arg: PointArg, c: nat)
    requires IsFace(arg, c)
    ensures Speed(f, FaceOf(arg), c) == SpeedOf(f, arg, c)
  {
    hide Bump, Dot, Div, MaxD, AbsD, Sub;
  }

  lemma StepPositive(arg: PointArg, c: nat)
    requires IsFace(arg, c)
    ensures StepOf(arg, c).v > 0.0
  {
    BumpIs(arg.sides[0].cols[c], arg.sides[1].cols[c]);
    hide Bump;
  }

  lemma SpeedMoves(f: PointFn, args: real -> PointArg, arg: PointArg, c: nat)
    requires ArgMoves(args, arg) && SmoothFace(f, arg, c)
    ensures Tracks(SpeedAlong(f, args, c), SpeedOf(f, arg, c))
  {
    var x, y := Change(f, arg, 0, c), Change(f, arg, 1, c);
    ChangeMoves(f, args, arg, 0, c);
    ChangeMoves(f, args, arg, 1, c);
    StepMoves(args, arg, c);
    StepPositive(arg, c);
    hide Tracks, ArgMoves, Change, StepOf, ChangesAlong, StepsAlong, Size, MaxD, AbsD, Abs, Div, Over;
    var s, n, step := ChangesAlong(f, args, 0, c), ChangesAlong(f, args, 1, c), StepsAlong(args, c);
    SizeTracks(s, x);
    SizeTracks(n, y);
    var larger: real -> real := h => Max(Size(s)(h), Size(n)(h));
    MaximumTracks(Size(s), AbsD(x), Size(n), AbsD(y), larger);
    forall h
      ensures step(h) != 0.0 ==> SpeedAlong(f, args, c)(h) == Over(larger(h), step(h))
    {
      SpeedAt(f, args, c, h);
    }
    QuotientTracks(larger, MaxD(AbsD(x), AbsD(y)), step, StepOf(arg, c), SpeedAlong(f, args, c));
  }

  lemma SpeedAt(f: PointFn, args: real -> PointArg, c: nat, h: real)
    ensures StepsAlong(args, c)(h) != 0.0 ==>
              SpeedAlong(f, args, c)(h)
              == Over(Max(Size(ChangesAlong(f, args, 0, c))(h), Size(ChangesAlong(f, args, 1, c))(h)),
                      StepsAlong(args, c)(h))
  {
    hide Change, StepOf, ChangesAlong, Size, StepsAlong, SpeedAlong, Abs, AbsD, MaxD, Div, Over;
    var x, y, step := Change(f, args(h), 0, c), Change(f, args(h), 1, c), StepOf(args(h), c);
    SizeAt(ChangesAlong(f, args, 0, c), h);
    SizeAt(ChangesAlong(f, args, 1, c), h);
    ChangesAlongAt(f, args, 0, c, h);
    ChangesAlongAt(f, args, 1, c, h);
    CurvesAt(args, 0, c, h);
    SpeedAlongAt(f, args, c, h);
    SpeedValue(x, y, step);
  }

  lemma ChangesAlongAt(f: PointFn, args: real -> PointArg, s: nat, c: nat, h: real)
    ensures ChangesAlong(f, args, s, c)(h) == Change(f, args(h), s, c).v
  {
    hide Change;
  }

  lemma SpeedValue(x: Dual, y: Dual, step: Dual)
    ensures step.v != 0.0 ==> Div(MaxD(AbsD(x), AbsD(y)), step).v == Over(Max(Abs(x.v), Abs(y.v)), step.v)
  {
  }

  function SpeedAlong(f: PointFn, args: real -> PointArg, c: nat): real -> real {
    h => SpeedOf(f, args(h), c).v
  }

  lemma SideFluxMoves(f: PointFn, args: real -> PointArg, arg: PointArg, s: nat, c: nat, d: nat)
    requires ArgMoves(args, arg) && SmoothFace(f, arg, c) && d < |arg.normal| && s < 2
    ensures Tracks(Values(PerPoint(f), SidesAlong(args, s), Flux(c, d)), f(SideOf(arg, s), Flux(c, d)))
  {
    SideMoves(args, arg, s);
    assert SmoothFluxes(f, SideOf(arg, s), c, |arg.normal|);
    hide Tracks, ArgMoves;
    FluxTracksHere(f, SidesAlong(args, s), SideOf(arg, s), c, d);
  }

  /** The numerical flux of a smooth face: through its speed estimate, its dissipation and both traces. */
  lemma FluxMoves(f: PointFn, args: real -> PointArg, arg: PointArg, c: nat, d: nat)
    requires ArgMoves(args, arg) && SmoothFace(f, arg, c) && d < |arg.normal|
    ensures Tracks(Values(FaceFlux(f), args, Flux(c, d)), PointValue(FaceFlux(f), arg, Flux(c, d)))
  {
    hide Tracks, ArgMoves, SpeedAlong, ColumnAlong, SidesAlong, Values, FluxDual, Fluxes, PointValue, SideOf, SpeedOf;
    hide Change, Dot, SmoothFluxes, BumpedOf;
    SpeedMoves(f, args, arg, c);
    SideFluxMoves(f, args, arg, 0, c, d);
    SideFluxMoves(f, args, arg, 1, c, d);
    ColumnMoves(args, arg, 0, c);
    ColumnMoves(args, arg, 1, c);
    FluxIs(f, arg, c, d);
    forall h
      ensures IsFace(args(h), c) && args(h).normal == arg.normal
    {
      FaceStays(args, arg, c, h);
    }
    var o, y := Flux(c, d), arg.normal[d];
    var fs, fn := Values(PerPoint(f), SidesAlong(args, 0), o), Values(PerPoint(f), SidesAlong(args, 1), o);
    FluxTracks(fs, f(SideOf(arg, 0), o), fn, f(SideOf(arg, 1), o), SpeedAlong(f, args, c), SpeedOf(f, arg, c),
               ColumnAlong(args, 0, c), arg.sides[0].cols[c], ColumnAlong(args, 1, c), arg.sides[1].cols[c], y);
    var fluxes := Fluxes(fs, fn, SpeedAlong(f, args, c), ColumnAlong(args, 0, c), ColumnAlong(args, 1, c), y);
    forall h
      ensures Values(FaceFlux(f), args, o)(h) == fluxes(h)
    {
      FluxAt(f, args, c, d, h);
    }
    TracksAs(fluxes, Values(FaceFlux(f), args, o), PointValue(FaceFlux(f), arg, o));
  }

  lemma FaceStays(args: real -> PointArg, arg: PointArg, c: nat, h: real)
    requires ArgMoves(args, arg) && IsFace(arg, c)
    ensures IsFace(args(h), c) && args(h).normal == arg.normal
  {
    assert SameShape(args(h), arg);
  }

  lemma FluxAt(f: PointFn, args: real -> PointArg, c: nat, d: nat, h: real)
    requires IsFace(args(h), c) && d < |args(h).normal|
    ensures Values(FaceFlux(f), args, Flux(c, d))(h)
            == Fluxes(Values(PerPoint(f), SidesAlong(args, 0), Flux(c, d)),
                      Values(PerPoint(f), SidesAlong(args, 1), Flux(c, d)), SpeedAlong(f, args, c),
                      ColumnAlong(args, 0, c), ColumnAlong(args, 1, c), args(h).normal[d])(h)
  {
    hide SpeedOf, FluxDual, Times, SideOf, Fluxes, FluxValue, SpeedAlong, ColumnAlong, SidesAlong, PointValue, Values;
    var arg, o := args(h), Flux(c, d);
    FluxIs(f, arg, c, d);
    FluxDualValue(f(SideOf(arg, 0), o), f(SideOf(arg, 1), o), SpeedOf(f, arg, c), arg.sides[0].cols[c],
                  arg.sides[1].cols[c], arg.normal[d]);
    var fs, fn := Values(PerPoint(f), SidesAlong(args, 0), o), Values(PerPoint(f), SidesAlong(args, 1), o);
    CurvesAt(args, 0, c, h);
    CurvesAt(args, 1, c, h);
    ValuesAt(FaceFlux(f), args, o, h);
    ValuesAt(PerPoint(f), SidesAlong(args, 0), o, h);
    ValuesAt(PerPoint(f), SidesAlong(args, 1), o, h);
    OneValue(f, SideOf(arg, 0), o);
    OneValue(f, SideOf(arg, 1), o);
    SpeedAlongAt(f, args, c, h);
    FluxesAt(fs, fn, SpeedAlong(f, args, c), ColumnAlong(args, 0, c), ColumnAlong(args, 1, c), arg.normal[d], h);
  }

  lemma OneValue(f: PointFn, arg: PointArg, o: Out)
    ensures PointValue(PerPoint(f), arg, o) == f(arg, o)
  {
  }

  lemma SpeedAlongAt(f: PointFn, args: real -> PointArg, c: nat, h: real)
    ensures SpeedAlong(f, args, c)(h) == SpeedOf(f, args(h), c).v
  {
    hide SpeedOf;
  }

  lemma FluxesAt(fs: real -> real, fn: real -> real, speed: real -> real, s: real -> real, n: real -> real, y: real,
                 h: real)
    ensures Fluxes(fs, fn, speed, s, n, y)(h) == FluxValue(fs(h), fn(h), speed(h), s(h), n(h), y)
  {
    hide Plus, By, Fixed, Less, Times;
    DropAt(speed, s, n, y, h);
    FixedAt(0.5, h);
    OperationsAt(fs, fn, h);
    OperationsAt(Fixed(0.5), Plus(fs, fn), h);
    OperationsAt(By(Fixed(0.5), Plus(fs, fn)), By(By(By(Fixed(0.5), speed), Less(n, s)), Fixed(y)), h);
  }

  lemma DropAt(speed: real -> real, s: real -> real, n: real -> real, y: real, h: real)
    ensures By(By(By(Fixed(0.5), speed), Less(n, s)), Fixed(y))(h)
            == Times(Times(Times(0.5, speed(h)), n(h) - s(h)), y)
  {
    hide Plus, By, Fixed, Less, Times;
    FixedAt(0.5, h);
    FixedAt(y, h);
    OperationsAt(n, s, h);
    OperationsAt(Fixed(0.5), speed, h);
    OperationsAt(By(Fixed(0.5), speed), Less(n, s), h);
    OperationsAt(By(By(Fixed(0.5), speed), Less(n, s)), Fixed(y), h);
  }

  /** The flux along five curves. */
  function Fluxes(fs: real -> real, fn: real -> real, speed: real -> real, s: real -> real, n: real -> real, y: real)
    : real -> real
  {
    Less(By(Fixed(0.5), Plus(fs, fn)), By(By(By(Fixed(0.5), speed), Less(n, s)), Fixed(y)))
  }

  function FluxValue(fs: real, fn: real, speed: real, us: real, un: real, y: real): real {
    Times(0.5, fs + fn) - Times(Times(Times(0.5, speed), un - us), y)
  }

  function FluxDual(fs: Dual, fn: Dual, speed: Dual, us: Dual, un: Dual, y: real): Dual {
    Sub(Mul(Plain(0.5), Add(fs, fn)), Penalty(speed, Sub(un, us), y))
  }

  lemma FluxDualValue(fs: Dual, fn: Dual, speed: Dual, us: Dual, un: Dual, y: real)
    ensures FluxDual(fs, fn, speed, us, un, y).v == FluxValue(fs.v, fn.v, speed.v, us.v, un.v, y)
  {
  }

  lemma FluxIs(f: PointFn, arg: PointArg, c: nat, d: nat)
    requires IsFace(arg, c) && d < |arg.normal|
    ensures PointValue(FaceFlux(f), arg, Flux(c, d))
            == FluxDual(f(SideOf(arg, 0), Flux(c, d)), f(SideOf(arg, 1), Flux(c, d)), SpeedOf(f, arg, c),
                        arg.sides[0].cols[c], arg.sides[1].cols[c], arg.normal[d])
  {
    SpeedIs(f, arg, c);
    hide Speed, SpeedOf, Add, Sub, Mul, Penalty;
  }

  lemma FluxTracks(fs: real -> real, as_: Dual, fn: real -> real, an: Dual, speed: real -> real, alpha: Dual,
                   s: real -> real, us: Dual, n: real -> real, un: Dual, y: real)
    requires Tracks(fs, as_) && Tracks(fn, an) && Tracks(speed, alpha) && Tracks(s, us) && Tracks(n, un)
    ensures Tracks(Fluxes(fs, fn, speed, s, n, y), FluxDual(as_, an, alpha, us, un, y))
  {
    hide Tracks, Times, Add, Sub, Mul, Plus, By, Fixed, Less;
    FixedTracks(0.5);
    FixedTracks(y);
    PlusTracks(fs, as_, fn, an);
    PlusTracks(Fixed(0.5), Plain(0.5), Plus(fs, fn), Add(as_, an));
    PlusTracks(n, un, s, us);
    PlusTracks(Fixed(0.5), Plain(0.5), speed, alpha);
    PlusTracks(By(Fixed(0.5), speed), Mul(Plain(0.5), alpha), Less(n, s), Sub(un, us));
    PlusTracks(By(By(Fixed(0.5), speed), Less(n, s)), Mul(Mul(Plain(0.5), alpha), Sub(un, us)), Fixed(y), Plain(y));
    PlusTracks(By(Fixed(0.5), Plus(fs, fn)), Mul(Plain(0.5), Add(as_, an)),
               By(By(By(Fixed(0.5), speed), Less(n, s)), Fixed(y)), Penalty(alpha, Sub(un, us), y));
  }

  /** The flux through a smooth face is smooth. */
  lemma FaceIsSmooth(f: PointFn, arg: PointArg, c: nat, d: nat)
    requires SmoothFace(f, arg, c) && d < |arg.normal|
    ensures SmoothOutput(FaceFlux(f), arg, Flux(c, d))
  {
    hide SmoothFace, Tracks;
    forall args: real -> PointArg | ArgMoves(args, arg)
      ensures Tracks(Values(FaceFlux(f), args, Flux(c, d)), PointValue(FaceFlux(f), arg, Flux(c, d)))
    {
      FluxMoves(f, args, arg, c, d);
    }
  }

  // ----- the derivative of an evaluation -----

  function MovedTrace(t: Trace<Dual>, side: nat, dir: Direction, h: real): (r: Trace<Dual>)
    ensures |r.cols| == |t.cols|
  {
    t.(cols := seq(|t.cols|, col requires 0 <= col < |t.cols| => Plain(t.cols[col].v + Times(h, dir(Cell(side, col))))))
  }

  /** The point with every input moved by h along dir, no direction seeded. */
  function MovedArg(arg: PointArg, dir: Direction, h: real): (r: PointArg)
    ensures |r.sides| == |arg.sides| && |r.extractors| == |arg.extractors| && r.normal == arg.normal
  {
    PointArg(seq(|arg.sides|, s requires 0 <= s < |arg.sides| => MovedTrace(arg.sides[s], s, dir, h)),
             seq(|arg.extractors|, e requires 0 <= e < |arg.extractors| =>
                   Plain(arg.extractors[e].v + Times(h, dir(Shared(e))))),
             arg.normal)
  }

  lemma LookMoved(arg: PointArg, dir: Direction, p: PointInput, h: real)
    ensures Look(MovedArg(arg, dir, h), p).v == Linear(Look(Directed(arg, dir), p), h)
  {
    TimesNothing(h);
    hide Times;
    match p
    case Cell(s, col) =>
      if s < |arg.sides| && col < |arg.sides[s].cols| {
        assert MovedArg(arg, dir, h).sides[s].cols[col] == Plain(arg.sides[s].cols[col].v + Times(h, dir(p)));
        assert Directed(arg, dir).sides[s].cols[col] == Dual(arg.sides[s].cols[col].v, dir(p));
      }
    case Shared(e) =>
      if e < |arg.extractors| {
        assert MovedArg(arg, dir, h).extractors[e] == Plain(arg.extractors[e].v + Times(h, dir(p)));
        assert Directed(arg, dir).extractors[e] == Dual(arg.extractors[e].v, dir(p));
      }
  }

  lemma DirectionMoves(arg: PointArg, dir: Direction)
    ensures ArgMoves(h => MovedArg(arg, dir, h), Directed(arg, dir))
  {
    var args: real -> PointArg := h => MovedArg(arg, dir, h);
    forall p: PointInput
      ensures Tracks(h => Look(args(h), p).v, Look(Directed(arg, dir), p))
    {
      var curve: real -> real := h => Look(args(h), p).v;
      forall h
        ensures curve(h) == Linear(Look(Directed(arg, dir), p), h)
      {
        LookMoved(arg, dir, p, h);
      }
      LinearTracks(curve, Look(Directed(arg, dir), p));
      hide Tracks;
      TracksAs(curve, h => Look(args(h), p).v, Look(Directed(arg, dir), p));
    }
    hide Tracks, Look;
    MovesAs(args, h => MovedArg(arg, dir, h), Directed(arg, dir));
  }

  /** How fast the plain value changes on average while the inputs move by h along dir. */
  function AverageSlope(ev: Evaluation, arg: PointArg, o: Out, dir: Direction, h: real): real
    requires h != 0.0
  {
    (PointValue(ev, MovedArg(arg, dir, h), o).v - PointValue(ev, MovedArg(arg, dir, 0.0), o).v) / h
  }

  /** The difference quotients tend to the slope, at least as fast as k * h. */
  ghost predicate TendsTo(ev: Evaluation, arg: PointArg, o: Out, dir: Direction, slope: real, k: real, r: real) {
    r > 0.0 && forall h :: h != 0.0 && Abs(h) <= r ==>
                             Abs(AverageSlope(ev, arg, o, dir, h) - slope) <= Times(k, Abs(h))
  }

  /** The directional derivative of a smooth output is the limit of its difference quotients. */
  lemma DerivativeIsSlope(ev: Evaluation, arg: PointArg, o: Out, dir: Direction) returns (k: real, r: real)
    requires SmoothOutput(ev, Directed(arg, dir), o)
    ensures TendsTo(ev, arg, o, dir, Derivative(ev, arg, o, dir), k, r)
  {
    hide ArgMoves, Tracks, Times, PointValue, MovedArg, Directed, AverageSlope;
    DirectionMoves(arg, dir);
    var args: real -> PointArg := h => MovedArg(arg, dir, h);
    assert ArgMoves(h => MovedArg(arg, dir, h), Directed(arg, dir));
    var values: real -> real := h => PointValue(ev, MovedArg(arg, dir, h), o).v;
    TracksAs(Values(ev, h => MovedArg(arg, dir, h), o), values, PointValue(ev, Directed(arg, dir), o));
    k, r := SlopeIsLimit(values, PointValue(ev, Directed(arg, dir), o));
    forall h | h != 0.0 && Abs(h) <= r
      ensures Abs(AverageSlope(ev, arg, o, dir, h) - Derivative(ev, arg, o, dir)) <= Times(k, Abs(h))
    {
      AverageSlopeIs(ev, arg, o, dir, values, h);
    }
  }

  lemma AverageSlopeIs(ev: Evaluation, arg: PointArg, o: Out, dir: Direction, values: real -> real, h: real)
    requires h != 0.0 && forall h' :: values(h') == PointValue(ev, MovedArg(arg, dir, h'), o).v
    ensures AverageSlope(ev, arg, o, dir, h) == (values(h) - values(0.0)) / h
  {
    hide PointValue, MovedArg;
  }
}
