/**
 What the finder does with its fits, said without its own case distinctions: which model places a probe, where a
 bracketed probe lies, when a search converges, and when a bracket counts as collapsed.
 */
module ProbingPolicy {
  import opened Prelude
  import opened RootFinding

  // ----- the probe inside a bracket -----

  /** A probe in bracket (lo, hi), placed by candidate c with at least margin m to either end. */
  ghost predicate PlacedBy(x: real, c: real, lo: real, hi: real, m: real) {
    && (lo + m <= c <= hi - m ==> x == c)
    && (c < lo + m <= hi - m ==> x == lo + m)
    && (c > hi - m >= lo + m ==> x == hi - m)
  }

  /**
   Every bracketed probe of a run: its candidate's, if that is strictly inside and above all failures, unless the last
   probe left more than half of the bracket; and else the midpoint.
   */
  lemma BracketedProbe(cfg: Config, fits: nat -> Fits, h: seq<Probe>)
    requires Follows(cfg, fits, h) && |h| > 2 && Bracketed(cfg, Past(h))
    ensures var g, x := Past(h), Last(h).x;
            var lo, hi := LoSoft(cfg, g).value, Hi(cfg, g).value;
            var c := Candidate(cfg, lo, hi, fits(|g|));
            var usable := c.Some? && lo < c.value < hi && (LoHard(g).None? || c.value > LoHard(g).value);
            var stalled := Bracketed(cfg, Past(g)) && hi - lo > 0.5 * Width(cfg, Past(g));
            && (usable && !stalled ==> PlacedBy(x, c.value, lo, hi, Times(cfg.standoff, hi - lo)))
            && (!usable || stalled ==> x - lo == hi - x)
  {
    hide Candidate, Hi, LoSoft, LoHard, Follows, PlacedBy, Clamped, Margin, Times;
    ProposedInside(cfg, fits, h);
    var g, x := Past(h), Last(h).x;
    var lo, hi := LoSoft(cfg, g).value, Hi(cfg, g).value;
    var c := Candidate(cfg, lo, hi, fits(|g|));
    if c.Some? {
      MarginIs(cfg, hi - lo);
      ClampedIs(lo, hi, Times(cfg.standoff, hi - lo), c.value);
    }
  }

  lemma MarginIs(cfg: Config, w: real)
    ensures Margin(cfg, w) == Times(cfg.standoff, w)
  {
  }

  lemma ClampedIs(lo: real, hi: real, m: real, c: real)
    ensures PlacedBy(Clamped(lo, hi, m, c), c, lo, hi, m)
  {
  }

  lemma ProposedInside(cfg: Config, fits: nat -> Fits, h: seq<Probe>)
    requires Follows(cfg, fits, h) && |h| > 2 && Bracketed(cfg, Past(h))
    ensures var g := Past(h);
            Last(h).x == Safeguarded(cfg, g, Candidate(cfg, LoSoft(cfg, g).value, Hi(cfg, g).value, fits(|g|)))
  {
    hide Candidate, Safeguarded, Hi, LoSoft;
  }

  /** What the models offer, in the order in which the finder believes them. */
  function Offers(cfg: Config, lo: real, hi: real, fit: Fits): seq<Option<real>> {
    var fitted := fit.model.Some? && fit.model.value.valid;
    var endgame := if !fitted then None
                   else if cfg.target > 0.0 then fit.extrapolated
                   else Some(Between(fit.model.value.xc, hi, cfg.approach));
    var approach := if fitted then Ladder(cfg, lo, hi, fit.model.value.xc)
                    else if fit.divergent.Some? then Ladder(cfg, lo, hi, fit.divergent.value.0) else None;
    var jump := if fit.divergent.Some? then Some(fit.divergent.value.1 + fit.divergent.value.0) else None;
    if cfg.target > 0.0 then [endgame, if fit.divergent.Some? then fit.mixed else None, approach, jump, fit.secant]
    else [endgame, jump]
  }

  /** The point that has gone all but the fraction a of the way from hi to xc. */
  function Between(xc: real, hi: real, a: real): real {
    hi - (1.0 - a) * (hi - xc)
  }

  /** One rung down the ladder to xc, but not past the middle of the bracket; none if xc is not below it. */
  function Ladder(cfg: Config, lo: real, hi: real, xc: real): Option<real> {
    var rung := Between(xc, hi, cfg.approach);
    if hi <= xc then None else if rung - lo < hi - rung then Some(rung) else Some(lo + 0.5 * (hi - lo))
  }

  function FirstOffer(offers: seq<Option<real>>): Option<real> {
    if offers == [] then None else if offers[0].Some? then offers[0] else FirstOffer(offers[1..])
  }

  lemma BetweenIs(cfg: Config, xc: real, hi: real)
    ensures Between(xc, hi, cfg.approach) == Rung(cfg, xc, hi)
  {
  }

  lemma LadderIs(cfg: Config, lo: real, hi: real, xc: real)
    ensures Ladder(cfg, lo, hi, xc) == if hi > xc then Some(Min(Rung(cfg, xc, hi), 0.5 * (lo + hi))) else None
  {
    BetweenIs(cfg, xc, hi);
    hide Between, Rung;
  }

  lemma FirstOfFive(a: Option<real>, b: Option<real>, c: Option<real>, d: Option<real>, e: Option<real>)
    ensures FirstOffer([a, b, c, d, e]) == if a.Some? then a else if b.Some? then b else if c.Some? then c
                                           else if d.Some? then d else e
  {
    FirstOfTwo(d, e);
    assert [a, b, c, d, e][1..] == [b, c, d, e] && [b, c, d, e][1..] == [c, d, e] && [c, d, e][1..] == [d, e];
    assert FirstOffer([c, d, e]) == if c.Some? then c else FirstOffer([d, e]);
    assert FirstOffer([b, c, d, e]) == if b.Some? then b else FirstOffer([c, d, e]);
  }

  lemma FirstOfTwo(a: Option<real>, b: Option<real>)
    ensures FirstOffer([a, b]) == if a.Some? then a else b
  {
    assert [a, b][1..] == [b] && [b][1..] == [];
    assert FirstOffer([]) == None;
    assert FirstOffer([b]) == b;
  }

  /** The candidate is the first offer there is. */
  lemma CandidateIsFirst(cfg: Config, lo: real, hi: real, fit: Fits)
    ensures Candidate(cfg, lo, hi, fit) == FirstOffer(Offers(cfg, lo, hi, fit))
  {
    hide Ladder, Between, FirstOffer, Rung;
    var fitted := fit.model.Some? && fit.model.value.valid;
    if fitted {
      LadderIs(cfg, lo, hi, fit.model.value.xc);
      BetweenIs(cfg, fit.model.value.xc, hi);
    }
    if fit.divergent.Some? {
      LadderIs(cfg, lo, hi, fit.divergent.value.0);
    }
    var offers := Offers(cfg, lo, hi, fit);
    if cfg.target > 0.0 {
      FirstOfFive(offers[0], offers[1], offers[2], offers[3], offers[4]);
      assert XCritical(fit) == if fitted then Some(fit.model.value.xc)
                               else if fit.divergent.Some? then Some(fit.divergent.value.0) else None;
      assert offers == [offers[0], offers[1], offers[2], offers[3], offers[4]];
    } else {
      FirstOfTwo(offers[0], offers[1]);
      assert offers == [offers[0], offers[1]];
    }
  }

  // ----- the end of a search -----

  /** The probe meets the target as closely as asked, from above if only that side counts. */
  predicate Meets(cfg: Config, out: Outcome) {
    && out.obs.Some? && (cfg.oneSided ==> cfg.target <= out.obs.value)
    && -(cfg.relTol * cfg.target) <= out.obs.value - cfg.target <= cfg.relTol * cfg.target
  }

  /** The last two fitted critical points agree, relative to the new one. */
  predicate Settles(cfg: Config, fit: Fits) {
    && fit.model.Some? && fit.model.value.valid && fit.previousXc.Some?
    && var xc := fit.model.value.xc;
       -(cfg.relTol * Abs(xc)) <= fit.previousXc.value - xc <= cfg.relTol * Abs(xc)
  }

  /**
   A search has converged exactly when some probe meets its target: lies within the tolerance, or lies below it when
   that is what is asked for. With a target of zero it has when its fits agree.
   */
  lemma ConvergedExactly(cfg: Config, fits: nat -> Fits, h: seq<Probe>)
    requires h != [] && cfg.target >= 0.0
    ensures EndOf(cfg, fits, h) == Converged <==>
            if cfg.target == 0.0 then Settles(cfg, fits(|h|))
            else if cfg.acceptance.AtTarget? then exists i :: 0 <= i < |h| && Meets(cfg, h[i].out)
            else exists i :: 0 <= i < |h| && h[i].out.obs.Some? && h[i].out.obs.value < cfg.target
  {
    EndMeans(cfg, fits, h);
    hide EndOf, BestOf;
    if cfg.target == 0.0 {
      assert !HasAnswer(cfg, h);
    } else if cfg.acceptance.AtTarget? {
      assert !HasAnswer(cfg, h);
      MeetsExactly(cfg, fits(|h|), h);
    }
  }

  lemma MeetsExactly(cfg: Config, fit: Fits, h: seq<Probe>)
    requires cfg.target > 0.0 && cfg.acceptance.AtTarget?
    ensures Accepted(cfg, BestOf(cfg, h), fit) <==> exists i :: 0 <= i < |h| && Meets(cfg, h[i].out)
  {
    hide BestOf;
    BestIsClosest(cfg, h);
    if cfg.oneSided {
      BestNotBelow(cfg, h);
    }
    if Accepted(cfg, BestOf(cfg, h), fit) {
      var b := BestOf(cfg, h).value;
      var i :| 0 <= i < |h| && Eligible(cfg, h[i].out) && h[i].x == b.0 && h[i].out.obs == Some(b.1);
      assert Meets(cfg, h[i].out);
    }
    if i :| 0 <= i < |h| && Meets(cfg, h[i].out) {
      assert Eligible(cfg, h[i].out);
    }
  }

  /** A bracket counts as collapsed once its width is within the floor of either end, or of one. */
  lemma CollapsedExactly(cfg: Config, lo: real, hi: real)
    requires cfg.floor >= 0.0
    ensures Narrow(cfg, lo, hi) <==>
            hi - lo <= cfg.floor * Abs(lo) || hi - lo <= cfg.floor * Abs(hi) || hi - lo <= cfg.floor
  {
    LargestOfThree(hi - lo, cfg.floor, Abs(lo), Abs(hi), Scale(lo, hi));
  }

  lemma LargestOfThree(d: real, floor: real, x: real, y: real, scale: real)
    requires floor >= 0.0 && x <= scale && y <= scale && 1.0 <= scale && (scale == x || scale == y || scale == 1.0)
    ensures d <= floor * scale <==> d <= floor * x || d <= floor * y || d <= floor
  {
    FloorMonotone(floor, x, scale);
    FloorMonotone(floor, y, scale);
    FloorMonotone(floor, 1.0, scale);
  }

  lemma FloorMonotone(floor: real, x: real, y: real)
    requires floor >= 0.0 && x <= y
    ensures floor * x <= floor * y
  {
  }

  // ----- widening -----

  /** The widenings of a search that doubles reach 2 + 4 + ... + 2^e widths beyond its bound. */
  lemma {:induction false} DoublingReach(cfg: Config, e: nat)
    requires cfg.lo.Some? && cfg.hi.Some? && cfg.rho == 2.0
    ensures Reach(cfg, e) == (2.0 * Power(2.0, e) - 2.0) * (cfg.hi.value - cfg.lo.value)
  {
    if e > 0 {
      DoublingReach(cfg, e - 1);
      var w := cfg.hi.value - cfg.lo.value;
      assert Stride(cfg, e) == Power(2.0, e) * w;
      assert Power(2.0, e) == 2.0 * Power(2.0, e - 1);
    }
  }

  /** For any factor, the reach is the geometric sum. */
  lemma {:induction false} GeometricReach(cfg: Config, e: nat)
    requires cfg.lo.Some? && cfg.hi.Some?
    ensures Times(cfg.rho - 1.0, Reach(cfg, e))
            == Times(Power(cfg.rho, e + 1) - cfg.rho, cfg.hi.value - cfg.lo.value)
  {
    hide Times, Power, Stride;
    var w := cfg.hi.value - cfg.lo.value;
    if e > 0 {
      GeometricReach(cfg, e - 1);
      StrideIs(cfg, e);
      GeometricStep(cfg.rho, Power(cfg.rho, e), Reach(cfg, e - 1), Stride(cfg, e), w);
      PowerStep(cfg.rho, e);
    } else {
      PowerStep(cfg.rho, 0);
      NothingTimes(cfg.rho - 1.0, w);
    }
  }

  lemma StrideIs(cfg: Config, e: nat)
    requires cfg.lo.Some? && cfg.hi.Some?
    ensures Stride(cfg, e) == Times(Power(cfg.rho, e), cfg.hi.value - cfg.lo.value)
  {
  }

  lemma PowerStep(rho: real, e: nat)
    ensures Power(rho, e + 1) == Times(rho, Power(rho, e)) && (e == 0 ==> Power(rho, e + 1) == rho)
  {
    assert Power(rho, 0) == 1.0;
  }

  lemma NothingTimes(x: real, w: real)
    ensures Times(x, 0.0) == 0.0 == Times(0.0, w)
  {
  }

  lemma GeometricStep(rho: real, p: real, before: real, stride: real, w: real)
    requires Times(rho - 1.0, before) == Times(p - rho, w) && stride == Times(p, w)
    ensures Times(rho - 1.0, before + stride) == Times(Times(rho, p) - rho, w)
  {
  }

  /** Without divergent fits every probe of an open bracket is a blind widening. */
  lemma {:induction false} AllBlind(cfg: Config, fits: nat -> Fits, h: seq<Probe>)
    requires Follows(cfg, fits, h) && |h| >= 2 && (forall k :: fits(k).divergent.None?)
    requires forall t: nat :: t < |h| ==> !Bracketed(cfg, h[..t])
    ensures Widenings(cfg, fits, h) == |h| - 2
  {
    if |h| > 2 {
      var g := Past(h);
      assert g == h[..|h| - 1];
      forall t: nat | t < |g|
        ensures !Bracketed(cfg, g[..t])
      {
        assert g[..t] == h[..t];
      }
      AllBlind(cfg, fits, g);
    }
  }

  lemma {:induction false} NoMoreThanProbes(cfg: Config, fits: nat -> Fits, h: seq<Probe>)
    ensures |h| >= 2 ==> Widenings(cfg, fits, h) <= |h| - 2
  {
    if |h| > 2 {
      NoMoreThanProbes(cfg, fits, Past(h));
    }
  }
}
