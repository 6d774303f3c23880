/**
 What a tuning stage does in its own numbers: which brackets end it, how far it reduces the quadrature and loosens the
 target, what it hands on, and where its probes lie.
 */
module StageLaws {
  import opened Prelude
  import opened RootFinding
  import opened ProbingPolicy
  import opened Tuning

  /** The caller's bracket ends the coarse stage exactly at a width of 1.5 percent of the sum of its ends. */
  lemma ResolvedExactly(div: real, good: real)
    ensures Resolved(SHIFT, Some(div), Some(good)) <==> div + good != 0.0 && good - div <= 0.015 * Abs(div + good)
    ensures forall u: Option<real> :: !Resolved(SHIFT, None, u) && !Resolved(SHIFT, u, None)
  {
  }

  /** Without a floor, as at full fidelity, no bracket does. */
  lemma NeverResolved(uDiv: Option<real>, uOk: Option<real>)
    ensures !Resolved(0.0, uDiv, uOk)
  {
  }

  /** An order is cut in half, rounding down, unless that leaves too few points. */
  predicate HalvedTo(order: nat, least: nat, r: nat) {
    r >= least && (r == least || 2 * r <= order) && order < 2 * r + 2
  }

  lemma ReducedHalves(q: Quadrature)
    ensures var r := Reduced(q);
            && HalvedTo(q.x, 4, r.x) && HalvedTo(q.cos1, 2, r.cos1) && HalvedTo(q.cos2, 2, r.cos2)
            && HalvedTo(q.phi, 2, r.phi)
  {
  }

  /** That determines it. */
  lemma HalvedUnique(order: nat, least: nat, r: nat, r': nat)
    requires HalvedTo(order, least, r) && HalvedTo(order, least, r')
    ensures r == r'
  {
  }

  /** The coarse stage aims at thirty times the target, but never above one half; a target of zero stays. */
  lemma PreTargetLoosens(zc: real)
    ensures zc > 0.0 ==> PreTarget(zc) <= 0.5 && PreTarget(zc) <= 30.0 * zc
    ensures 0.0 < zc <= 1.0 / 60.0 ==> PreTarget(zc) == 30.0 * zc
    ensures zc >= 1.0 / 60.0 ==> PreTarget(zc) == 0.5
    ensures zc <= 0.0 ==> PreTarget(zc) == zc
  {
  }

  /** A converged stage hands on its bracket, padded at both ends by three percent of the larger end. */
  lemma HandoverPads(pre: StageResult, lo: real, hi: real)
    requires pre.converged && HasBracket(pre)
    ensures var (a, b) := Handover(pre, lo, hi);
            && pre.uDiv.value - a == b - pre.uOk.value
            && pre.uDiv.value - a >= 0.03 * Abs(pre.uDiv.value) && pre.uDiv.value - a >= 0.03 * Abs(pre.uOk.value)
            && (pre.uDiv.value - a == 0.03 * Abs(pre.uDiv.value) || pre.uDiv.value - a == 0.03 * Abs(pre.uOk.value))
  {
  }

  /** Without a bracket it hands on three percent around its fitted critical point, or else around its answer. */
  lemma HandoverCentres(pre: StageResult, lo: real, hi: real)
    requires pre.converged && !HasBracket(pre)
    ensures var (a, b) := Handover(pre, lo, hi);
            var centre := match pre.uc case Some(uc) => uc case None => pre.uStar;
            centre - a == b - centre == 0.03 * Abs(centre)
  {
  }

  /** A stage that did not converge hands on the interval it was given. */
  lemma HandoverKeeps(pre: StageResult, lo: real, hi: real)
    requires !pre.converged
    ensures Handover(pre, lo, hi) == (lo, hi)
  {
  }

  // ----- the search of a stage -----

  /** A bracketed probe of a stage keeps two percent of the width to either end. */
  lemma StageProbe(s: Settings, f: real -> Outcome, fits: nat -> Fits, floor: real, lo: real, hi: real, target: real,
                   h: seq<Probe>)
    requires var cfg := StageConfig(s, lo, hi, target);
             StageRun(cfg, f, fits, floor, h) && |h| > 2 && Bracketed(cfg, Past(h))
    ensures var cfg, g, x := StageConfig(s, lo, hi, target), Past(h), Last(h).x;
            var a, b := LoSoft(cfg, g).value, Hi(cfg, g).value;
            var c := Candidate(cfg, a, b, fits(|g|));
            var usable := c.Some? && a < c.value < b && (LoHard(g).None? || c.value > LoHard(g).value);
            var stalled := Bracketed(cfg, Past(g)) && b - a > 0.5 * Width(cfg, Past(g));
            && (usable && !stalled ==> PlacedBy(x, c.value, a, b, 0.02 * (b - a)))
            && (!usable || stalled ==> x - a == b - x)
  {
    hide Candidate, PlacedBy, Hi, LoSoft, LoHard, Obeys, WentOn, Sampled, Unresolved, Follows;
    var cfg, g := StageConfig(s, lo, hi, target), Past(h);
    BracketedProbe(cfg, fits, h);
    TwoPercent(Hi(cfg, g).value - LoSoft(cfg, g).value);
  }

  lemma TwoPercent(w: real)
    ensures Times(0.02, w) == 0.02 * w
  {
  }

  /**
   Once only the failures have been fitted, a stage goes nine tenths of the way to the critical point, if that is past
   the middle of its bracket, and to the middle otherwise.
   */
  lemma StageLadder(s: Settings, lo: real, hi: real, target: real, a: real, b: real, fit: Fits)
    requires target > 0.0 && fit.model.None? && fit.mixed.None? && fit.divergent.Some? && fit.divergent.value.0 < b
    ensures var x := Candidate(StageConfig(s, lo, hi, target), a, b, fit);
            var xc := fit.divergent.value.0;
            x.Some? && x.value - a <= b - x.value && b - x.value >= 0.9 * (b - xc)
            && (x.value - a == b - x.value || b - x.value == 0.9 * (b - xc))
  {
  }

  /** With a positive target a stage converges exactly when a flow comes in below it; with none when its fits agree. */
  lemma StageConverges(s: Settings, lo: real, hi: real, target: real, fits: nat -> Fits, h: seq<Probe>)
    requires h != [] && target >= 0.0
    ensures EndOf(StageConfig(s, lo, hi, target), fits, h) == Converged <==>
            if target > 0.0 then exists i :: 0 <= i < |h| && h[i].out.obs.Some? && h[i].out.obs.value < target
            else
              var fit := fits(|h|);
              && fit.model.Some? && fit.model.value.valid && fit.previousXc.Some?
              && Abs(fit.model.value.xc - fit.previousXc.value) <= s.relTol * Abs(fit.model.value.xc)
  {
    hide EndOf;
    ConvergedExactly(StageConfig(s, lo, hi, target), fits, h);
  }

  /** Its bracket counts as collapsed within a part in 10^13 of either end, or of one. */
  lemma StageCollapses(s: Settings, lo: real, hi: real, target: real, a: real, b: real)
    ensures Narrow(StageConfig(s, lo, hi, target), a, b) <==>
            10000000000000.0 * (b - a) <= Abs(a) || 10000000000000.0 * (b - a) <= Abs(b)
            || 10000000000000.0 * (b - a) <= 1.0
  {
    CollapsedExactly(StageConfig(s, lo, hi, target), a, b);
    hide Narrow;
  }

  /** The bracket (div, good) is at most 1.5 percent of the sum of its ends wide. */
  predicate Fine(div: Option<real>, good: Option<real>) {
    && div.Some? && good.Some? && div.value + good.value != 0.0
    && good.value - div.value <= 0.015 * Abs(div.value + good.value)
  }

  /**
   What a coarse stage reports: it has converged when its finder has, or when the callback took no further flow because
   the bracket was fine; then the answer is the upper end. A full-fidelity stage has converged only when its finder has.
   */
  lemma StageReports(cfg: Config, fits: nat -> Fits, floor: real, h: seq<Probe>, r: StageResult)
    requires StageOf(cfg, fits, floor, h) == Some(r) && floor in {0.0, SHIFT}
    ensures var cut := floor == SHIFT && EndOf(cfg, fits, h) == NoProposal && Fine(LoHard(h), Hi(cfg, h));
            && (r.converged <==> cut || EndOf(cfg, fits, h) == Converged)
            && (cut ==> r.uOk == Some(r.uStar))
            && (!cut ==> BestOf(cfg, h).Some? && r.uStar == BestOf(cfg, h).value.0)
            && r.uDiv == LoHard(h) && r.uOk == Hi(cfg, h) && r.uc == XCritical(fits(|h|)) && r.flows == |h|
  {
    hide EndOf, BestOf, LoHard, Hi, XCritical, Resolved;
    FineIsResolved(LoHard(h), Hi(cfg, h));
    NeverResolved(LoHard(h), Hi(cfg, h));
  }

  lemma FineIsResolved(div: Option<real>, good: Option<real>)
    ensures Fine(div, good) <==> Resolved(SHIFT, div, good)
  {
    if div.Some? && good.Some? {
      ResolvedExactly(div.value, good.value);
    }
  }
}
