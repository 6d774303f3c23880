/**
 ScalingRootFinder (DiFfRG/include/DiFfRG/common/root_finding.hh).

 The finder brackets the point at which an observable reaches its target. Every power-law fit is
 adversarial here: `Fits` carries whatever the fitting routines produced, and every theorem holds
 for all values of it. What the finder has learned is a function of the probes taken so far
 (`Hi`, `LoSoft`, `LoHard`, `BestOf`); the class keeps exactly these values in its fields.
 */
module RootFinding {
  import opened Prelude

  /** What the callback wrote; None stands for NaN or an infinity. */
  datatype Outcome = Outcome(obs: Option<real>, residual: Option<real>)

  datatype Probe = Probe(x: real, out: Outcome)

  datatype Acceptance = AtTarget | BelowTarget

  datatype Config = Config(
    target: real, relTol: real, maxIter: nat,
    lo: Option<real>, hi: Option<real>, hypotheses: bool, rho: real, maxExpansions: nat,
    oneSided: bool, acceptance: Acceptance, floor: real, standoff: real, approach: real)

  datatype Model = Model(xc: real, valid: bool)

  /** The state of both fits, and the candidates derived from them; None stands for a non-finite value. */
  datatype Fits = Fits(
    model: Option<Model>, previousXc: Option<real>, extrapolated: Option<real>,
    divergent: Option<(real, real)>, mixed: Option<real>, secant: Option<real>)

  datatype SearchError = BoundsNotSet | BoundsNotOrdered | NegativeTarget | NoSuccess

  datatype Stop = Converged | NoProposal | Collapsed | Stagnated | BudgetSpent

  // ----- what one outcome means -----

  predicate AtOrAbove(cfg: Config, out: Outcome) {
    out.obs.Some? && out.obs.value >= cfg.target
  }

  predicate Answer(cfg: Config, out: Outcome) {
    out.obs.Some? && out.obs.value < cfg.target && cfg.acceptance.BelowTarget? && cfg.target > 0.0
  }

  predicate Failed(out: Outcome) {
    out.obs.None?
  }

  /** The outcomes that move the soft lower end: a failure, or an observable below the target. */
  predicate Low(cfg: Config, out: Outcome) {
    !AtOrAbove(cfg, out) && !Answer(cfg, out)
  }

  // ----- what a history of probes determines -----

  function Past(h: seq<Probe>): seq<Probe>
    requires h != []
  {
    h[..|h| - 1]
  }

  function Last(h: seq<Probe>): Probe
    requires h != []
  {
    h[|h| - 1]
  }

  function Hi(cfg: Config, h: seq<Probe>): Option<real> {
    if h == [] then None
    else
      var before := Hi(cfg, Past(h));
      if AtOrAbove(cfg, Last(h).out) && (before.None? || Last(h).x < before.value) then Some(Last(h).x) else before
  }

  function LoSoft(cfg: Config, h: seq<Probe>): Option<real> {
    if h == [] then None
    else
      var before := LoSoft(cfg, Past(h));
      if Low(cfg, Last(h).out) && (before.None? || Last(h).x > before.value) then Some(Last(h).x) else before
  }

  function LoHard(h: seq<Probe>): Option<real> {
    if h == [] then None
    else
      var before := LoHard(Past(h));
      if Failed(Last(h).out) && (before.None? || Last(h).x > before.value) then Some(Last(h).x) else before
  }

  predicate Bracketed(cfg: Config, h: seq<Probe>) {
    Hi(cfg, h).Some? && LoSoft(cfg, h).Some?
  }

  function Width(cfg: Config, h: seq<Probe>): real
    requires Bracketed(cfg, h)
  {
    Hi(cfg, h).value - LoSoft(cfg, h).value
  }

  function Middle(cfg: Config, h: seq<Probe>): real
    requires Bracketed(cfg, h)
  {
    0.5 * (LoSoft(cfg, h).value + Hi(cfg, h).value)
  }

  /** None is the infinite width of a bracket with an open end. */
  function MaybeWidth(cfg: Config, h: seq<Probe>): Option<real> {
    if Bracketed(cfg, h) then Some(Width(cfg, h)) else None
  }

  predicate Closer(cfg: Config, a: real, b: real) {
    Abs(a - cfg.target) < Abs(b - cfg.target)
  }

  function BestOf(cfg: Config, h: seq<Probe>): Option<(real, real)> {
    if h == [] then None
    else
      var best := BestOf(cfg, Past(h));
      var p := Last(h);
      if p.out.obs.None? then best
      else
        var obs := p.out.obs.value;
        if obs >= cfg.target then
          if best.None? || (if cfg.oneSided || cfg.acceptance.BelowTarget? then obs < best.value.1
                            else Closer(cfg, obs, best.value.1))
          then Some((p.x, obs)) else best
        else if Answer(cfg, p.out) then Some((p.x, obs))
        else if !cfg.oneSided && (best.None? || Closer(cfg, obs, best.value.1)) then Some((p.x, obs))
        else best
  }

  // ----- the bracket is what it claims to be -----

  ghost predicate Extreme(h: seq<Probe>, chosen: set<int>, v: Option<real>, least: bool) {
    match v
    case None => chosen == {}
    case Some(x) =>
      && (exists i :: i in chosen && 0 <= i < |h| && h[i].x == x)
      && (forall i :: i in chosen && 0 <= i < |h| ==> if least then x <= h[i].x else h[i].x <= x)
  }

  ghost function AboveIndices(cfg: Config, h: seq<Probe>): set<int> {
    set i | 0 <= i < |h| && AtOrAbove(cfg, h[i].out)
  }

  ghost function LowIndices(cfg: Config, h: seq<Probe>): set<int> {
    set i | 0 <= i < |h| && Low(cfg, h[i].out)
  }

  ghost function FailedIndices(h: seq<Probe>): set<int> {
    set i | 0 <= i < |h| && Failed(h[i].out)
  }

  /** The upper end is the least probe at or above the target, the lower ones the greatest low and failed probes. */
  lemma {:induction false} BracketMeaning(cfg: Config, h: seq<Probe>)
    ensures Extreme(h, AboveIndices(cfg, h), Hi(cfg, h), true)
    ensures Extreme(h, LowIndices(cfg, h), LoSoft(cfg, h), false)
    ensures Extreme(h, FailedIndices(h), LoHard(h), false)
  {
    if h != [] {
      var g := Past(h);
      BracketMeaning(cfg, g);
      var last := |h| - 1;
      assert AboveIndices(cfg, h) == AboveIndices(cfg, g) + if AtOrAbove(cfg, Last(h).out) then {last} else {};
      assert LowIndices(cfg, h) == LowIndices(cfg, g) + if Low(cfg, Last(h).out) then {last} else {};
      assert FailedIndices(h) == FailedIndices(g) + if Failed(Last(h).out) then {last} else {};
      ExtremeStep(h, AboveIndices(cfg, g), AtOrAbove(cfg, Last(h).out), Hi(cfg, g), Hi(cfg, h), true);
      ExtremeStep(h, LowIndices(cfg, g), Low(cfg, Last(h).out), LoSoft(cfg, g), LoSoft(cfg, h), false);
      ExtremeStep(h, FailedIndices(g), Failed(Last(h).out), LoHard(g), LoHard(h), false);
    }
  }

  lemma ExtremeStep(h: seq<Probe>, chosen: set<int>, selected: bool, before: Option<real>, after: Option<real>,
                    least: bool)
    requires h != [] && forall i :: i in chosen ==> 0 <= i < |h| - 1
    requires Extreme(Past(h), chosen, before, least)
    requires after == if selected && (before.None? || if least then Last(h).x < before.value
                                                     else Last(h).x > before.value)
                      then Some(Last(h).x) else before
    ensures Extreme(h, chosen + if selected then {|h| - 1} else {}, after, least)
  {
    var all := chosen + if selected then {|h| - 1} else {};
    assert forall i :: i in chosen ==> Past(h)[i] == h[i];
    if after.Some? {
      if after == before {
        var i :| i in chosen && 0 <= i < |Past(h)| && Past(h)[i].x == after.value;
        assert i in all && h[i].x == after.value;
      } else {
        assert |h| - 1 in all && h[|h| - 1].x == after.value;
      }
    }
  }

  /** A failure also moves the soft end, so the hard end never passes it. */
  lemma {:induction false} HardBelowSoft(cfg: Config, h: seq<Probe>)
    requires LoHard(h).Some?
    ensures LoSoft(cfg, h).Some? && LoHard(h).value <= LoSoft(cfg, h).value
  {
    if LoHard(Past(h)).Some? {
      HardBelowSoft(cfg, Past(h));
    }
  }

  ghost predicate Sampled(f: real -> Outcome, h: seq<Probe>) {
    forall i :: 0 <= i < |h| ==> h[i].out == f(h[i].x)
  }

  /** f switches at xs: at or above the target exactly from xs on. */
  ghost predicate SwitchesAt(cfg: Config, f: real -> Outcome, xs: real) {
    forall x :: AtOrAbove(cfg, f(x)) <==> x >= xs
  }

  /** Whatever was probed, the bracket of a monotone oracle contains its switching point. */
  lemma {:induction false} BracketContainsSwitch(cfg: Config, f: real -> Outcome, xs: real, h: seq<Probe>)
    requires Sampled(f, h) && SwitchesAt(cfg, f, xs)
    ensures LoSoft(cfg, h).Some? ==> LoSoft(cfg, h).value < xs
    ensures Hi(cfg, h).Some? ==> xs <= Hi(cfg, h).value
  {
    BracketMeaning(cfg, h);
  }

  // ----- proposals -----

  function XCritical(fit: Fits): Option<real> {
    if fit.model.Some? && fit.model.value.valid then Some(fit.model.value.xc)
    else if fit.divergent.Some? then Some(fit.divergent.value.0)
    else None
  }

  /** A fixed fraction of the distance from a critical point to the upper end. */
  function Rung(cfg: Config, xc: real, hi: real): real {
    xc + cfg.approach * (hi - xc)
  }

  /** The candidate of the first model that has one, in the finder's order of preference. */
  function Candidate(cfg: Config, lo: real, hi: real, fit: Fits): Option<real> {
    var endgame :=
      if fit.model.None? || !fit.model.value.valid then None
      else if cfg.target > 0.0 then fit.extrapolated
      else Some(Rung(cfg, fit.model.value.xc, hi));
    var xc := XCritical(fit);
    if endgame.Some? then endgame
    else if fit.divergent.Some? && cfg.target > 0.0 && fit.mixed.Some? then fit.mixed
    else if cfg.target > 0.0 && xc.Some? && hi > xc.value then
      Some(Min(Rung(cfg, xc.value, hi), 0.5 * (lo + hi)))
    else if fit.divergent.Some? then Some(fit.divergent.value.0 + fit.divergent.value.1)
    else if cfg.target > 0.0 then fit.secant
    else None
  }

  predicate Admissible(lo: real, hi: real, hard: Option<real>, x: real) {
    lo < x < hi && (hard.None? || x > hard.value)
  }

  /** x kept at least `margin` clear of either end. */
  function Clamped(lo: real, hi: real, margin: real, x: real): real {
    Min(Max(x, lo + margin), hi - margin)
  }

  /** The last probe did not halve the bracket. */
  predicate Stalled(cfg: Config, h: seq<Probe>) {
    && h != []
    && Bracketed(cfg, h)
    && Bracketed(cfg, Past(h))
    && Width(cfg, h) > 0.5 * Width(cfg, Past(h))
  }

  function Scale(lo: real, hi: real): real {
    Max(Max(Abs(hi), Abs(lo)), 1.0)
  }

  /** A clamped candidate stays strictly inside the bracket exactly when the margin leaves room for it. */
  lemma SafeguardInside(lo: real, hi: real, margin: real, x: real)
    requires lo < x < hi
    ensures lo < Clamped(lo, hi, margin, x) < hi <==> margin < hi - lo
  {
  }

  /** How far from either end of a bracket of width w a candidate is kept. */
  function Margin(cfg: Config, w: real): real {
    cfg.standoff * w
  }

  lemma MarginFits(cfg: Config, w: real)
    requires w > 0.0
    ensures Margin(cfg, w) < w <==> cfg.standoff < 1.0
  {
  }

  /** The candidate, clear of both ends; the midpoint if it is missing or inadmissible, or the last step stalled. */
  function Safeguarded(cfg: Config, h: seq<Probe>, c: Option<real>): real
    requires Bracketed(cfg, h)
  {
    var lo, hi := LoSoft(cfg, h).value, Hi(cfg, h).value;
    if c.None? || !Admissible(lo, hi, LoHard(h), c.value) || Stalled(cfg, h) then Middle(cfg, h)
    else Clamped(lo, hi, Margin(cfg, Width(cfg, h)), c.value)
  }

  lemma SafeguardedLaw(cfg: Config, h: seq<Probe>, c: Option<real>)
    requires Bracketed(cfg, h)
    ensures LoSoft(cfg, h).value < Hi(cfg, h).value && cfg.standoff < 1.0 ==>
              LoSoft(cfg, h).value < Safeguarded(cfg, h, c) < Hi(cfg, h).value
    ensures Stalled(cfg, h) ==> Safeguarded(cfg, h, c) == Middle(cfg, h)
  {
    hide Margin, Stalled;
    if Width(cfg, h) > 0.0 && c.Some? && LoSoft(cfg, h).value < c.value < Hi(cfg, h).value {
      MarginFits(cfg, Width(cfg, h));
      SafeguardInside(LoSoft(cfg, h).value, Hi(cfg, h).value, Margin(cfg, Width(cfg, h)), c.value);
    }
  }

  /** The length of the e-th blind widening: rho^e times the seeded width. */
  function Stride(cfg: Config, e: nat): real
    requires cfg.lo.Some? && cfg.hi.Some?
  {
    Power(cfg.rho, e) * (cfg.hi.value - cfg.lo.value)
  }

  /** A proposal of an open bracket: none once the budget is spent, else a fitted jump or one blind widening. */
  predicate Widening(cfg: Config, soft: Option<real>, hi: Option<real>, fit: Fits, before: nat, after: nat,
                     r: Option<real>)
    requires cfg.lo.Some? && cfg.hi.Some? && (hi.None? ==> soft.Some?)
  {
    if !cfg.hypotheses || before >= cfg.maxExpansions then r == None && after == before
    else if hi.None? && fit.divergent.Some? && fit.divergent.value.0 + fit.divergent.value.1 > soft.value then
      r == Some(fit.divergent.value.0 + fit.divergent.value.1) && after == before
    else
      && after == before + 1
      && r == Some(if hi.None? then soft.value + Stride(cfg, after) else hi.value - Stride(cfg, after))
  }

  /** The bracket has collapsed to the resolution asked for. */
  predicate Narrow(cfg: Config, lo: real, hi: real) {
    hi - lo <= cfg.floor * Scale(lo, hi)
  }

  /** The policy of the search: where the next probe may lie, and that it is taken at all. */
  ghost predicate StepLaw(cfg: Config, h: seq<Probe>, x: real) {
    && (h != [] ==> !Answer(cfg, Last(h).out))
    && (|h| == 0 ==> cfg.hi == Some(x))
    && (|h| == 1 ==> cfg.lo == Some(x))
    && (|h| >= 2 ==>
          match (LoSoft(cfg, h), Hi(cfg, h))
          case (Some(lo), Some(hi)) =>
            && !Narrow(cfg, lo, hi)
            && (lo < hi && cfg.standoff < 1.0 ==> lo < x < hi)
            && (Stalled(cfg, h) ==> x == 0.5 * (lo + hi))
          case (Some(lo), None) => cfg.rho > 0.0 ==> lo < x
          case (None, Some(hi)) => cfg.rho > 0.0 ==> x < hi
          case (None, None) => false)
  }

  ghost predicate Obeys(cfg: Config, h: seq<Probe>) {
    h == [] || (Obeys(cfg, Past(h)) && StepLaw(cfg, Past(h), Last(h).x))
  }

  lemma {:induction false} ObeysPrefix(cfg: Config, h: seq<Probe>, t: nat)
    requires Obeys(cfg, h) && t <= |h|
    ensures Obeys(cfg, h[..t])
    ensures t < |h| ==> StepLaw(cfg, h[..t], h[t].x) && Past(h[..t + 1]) == h[..t]
  {
    if t == |h| {
      assert h[..t] == h;
    } else {
      assert Past(h)[..t] == h[..t];
      ObeysPrefix(cfg, Past(h), t);
      assert Past(h[..t + 1]) == h[..t];
    }
  }

  /** One probe closes at most one end. */
  lemma BracketNeedsTwo(cfg: Config, h: seq<Probe>)
    requires |h| < 2
    ensures !Bracketed(cfg, h)
  {
    if |h| == 1 {
      assert Past(h) == [];
      assert Hi(cfg, Past(h)) == LoSoft(cfg, Past(h)) == None;
    } else {
      assert h == [];
    }
  }

  /** The two seed probes contradict a switch from below to above: the lower one succeeds, the upper one does not. */
  predicate InvertedSeeds(cfg: Config, h: seq<Probe>) {
    |h| >= 2 && Low(cfg, h[0].out) && AtOrAbove(cfg, h[1].out)
  }

  predicate Bounded(cfg: Config) {
    cfg.lo.Some? && cfg.hi.Some? && cfg.lo.value < cfg.hi.value
  }

  predicate Sane(cfg: Config) {
    Bounded(cfg) && cfg.rho > 0.0 && cfg.standoff < 1.0
  }

  /** With any fits and any oracle a bracket is in order as long as its two seeds are not inverted ... */
  lemma {:induction false} SeedsKeepOrder(cfg: Config, h: seq<Probe>)
    requires Sane(cfg) && Obeys(cfg, h) && Bracketed(cfg, h)
    requires !InvertedSeeds(cfg, h)
    ensures LoSoft(cfg, h).value < Hi(cfg, h).value
  {
    if |h| < 2 {
      BracketNeedsTwo(cfg, h);
    }
    var g := Past(h);
    if |h| == 2 {
      assert Past(g) == [] && Last(g) == h[0];
      assert Obeys(cfg, g) && StepLaw(cfg, [], h[0].x);
      assert Hi(cfg, []) == LoSoft(cfg, []) == None;
    } else if Bracketed(cfg, g) {
      SeedsKeepOrder(cfg, g);
    }
  }

  /** ... and two inverted seeds invert it at once. */
  lemma InvertedSeedsInvert(cfg: Config, h: seq<Probe>)
    requires Sane(cfg) && Obeys(cfg, h) && |h| == 2 && InvertedSeeds(cfg, h)
    ensures Bracketed(cfg, h) && Hi(cfg, h).value < LoSoft(cfg, h).value
  {
    var g := Past(h);
    assert Past(g) == [] && Last(g) == h[0] && Last(h) == h[1];
    assert Obeys(cfg, g) && StepLaw(cfg, [], h[0].x) && StepLaw(cfg, g, h[1].x);
    assert Hi(cfg, []) == LoSoft(cfg, []) == None;
  }

  /** An inverted bracket has collapsed, so the search takes no further probe. */
  lemma InvertedIsNarrow(cfg: Config, lo: real, hi: real)
    requires cfg.floor >= 0.0 && hi < lo
    ensures Narrow(cfg, lo, hi)
  {
    NarrowBelowFloor(cfg, lo, hi);
  }

  lemma InvertedSeedsStop(cfg: Config, h: seq<Probe>)
    requires Sane(cfg) && cfg.floor >= 0.0 && Obeys(cfg, h) && InvertedSeeds(cfg, h)
    ensures |h| == 2
  {
    hide Narrow;
    if |h| > 2 {
      ObeysPrefix(cfg, h, 2);
      var g := h[..2];
      assert g[0] == h[0] && g[1] == h[1];
      InvertedSeedsInvert(cfg, g);
      InvertedIsNarrow(cfg, LoSoft(cfg, g).value, Hi(cfg, g).value);
    }
  }

  /** So a bracket is in order, at any moment of any search, exactly unless its two seeds are inverted. */
  lemma BracketOrdered(cfg: Config, h: seq<Probe>)
    requires Sane(cfg) && cfg.floor >= 0.0 && Obeys(cfg, h) && Bracketed(cfg, h)
    ensures LoSoft(cfg, h).value < Hi(cfg, h).value <==> !InvertedSeeds(cfg, h)
  {
    hide Narrow, Obeys;
    if InvertedSeeds(cfg, h) {
      InvertedSeedsStop(cfg, h);
      InvertedSeedsInvert(cfg, h);
    } else {
      SeedsKeepOrder(cfg, h);
    }
  }

  /** A bracketed probe that is not yet the answer moves one end to itself and leaves the other alone. */
  lemma ProbeShrinks(cfg: Config, h: seq<Probe>)
    requires h != [] && Bracketed(cfg, Past(h)) && !Answer(cfg, Last(h).out)
    requires LoSoft(cfg, Past(h)).value < Last(h).x < Hi(cfg, Past(h)).value
    ensures Bracketed(cfg, h)
    ensures Width(cfg, h) == if AtOrAbove(cfg, Last(h).out) then Last(h).x - LoSoft(cfg, Past(h)).value
                             else Hi(cfg, Past(h)).value - Last(h).x
    ensures LoSoft(cfg, h).value < Hi(cfg, h).value
  {
  }

  /** Any two further probes of an ordered bracket halve it, whatever the fits proposed and the oracle answered. */
  lemma TwoProbesHalve(cfg: Config, h: seq<Probe>, t: nat)
    requires Obeys(cfg, h) && t + 2 <= |h| && cfg.standoff < 1.0
    requires Bracketed(cfg, h[..t]) && Width(cfg, h[..t]) > 0.0
    requires !Answer(cfg, h[t + 1].out)
    ensures Bracketed(cfg, h[..t + 2]) && 0.0 < Width(cfg, h[..t + 2]) <= 0.5 * Width(cfg, h[..t])
  {
    if t < 2 {
      BracketNeedsTwo(cfg, h[..t]);
    }
    ObeysPrefix(cfg, h, t);
    ObeysPrefix(cfg, h, t + 1);
    var g, g' := h[..t + 1], h[..t + 2];
    assert Last(g) == h[t] && Last(g') == h[t + 1];
    ProbeShrinks(cfg, g);
    ProbeShrinks(cfg, g');
  }

  lemma {:induction false} Halvings(cfg: Config, h: seq<Probe>, t: nat, k: nat)
    requires Obeys(cfg, h) && t + 2 * k < |h| && cfg.standoff < 1.0
    requires Bracketed(cfg, h[..t]) && Width(cfg, h[..t]) > 0.0
    ensures Bracketed(cfg, h[..t + 2 * k])
    ensures 0.0 < Width(cfg, h[..t + 2 * k]) <= Halved(Width(cfg, h[..t]), k)
  {
    if k > 0 {
      Halvings(cfg, h, t, k - 1);
      var s := t + 2 * (k - 1);
      ObeysPrefix(cfg, h, s + 2);
      assert Last(h[..s + 2]) == h[s + 1];
      TwoProbesHalve(cfg, h, s);
    }
  }

  lemma NarrowBelowFloor(cfg: Config, lo: real, hi: real)
    requires cfg.floor >= 0.0 && hi - lo <= cfg.floor
    ensures Narrow(cfg, lo, hi)
  {
    Magnified(cfg.floor, Scale(lo, hi));
  }

  lemma Magnified(x: real, s: real)
    requires x >= 0.0 && s >= 1.0
    ensures x * s >= x
  {
    assert x * (s - 1.0) >= 0.0;
  }

  lemma NotCollapsedYet(cfg: Config, h: seq<Probe>, t: nat)
    requires Obeys(cfg, h) && t < |h| && cfg.floor >= 0.0 && Bracketed(cfg, h[..t])
    ensures Width(cfg, h[..t]) > cfg.floor
  {
    hide Narrow;
    ObeysPrefix(cfg, h, t);
    if t < 2 {
      BracketNeedsTwo(cfg, h[..t]);
    }
    if Width(cfg, h[..t]) <= cfg.floor {
      NarrowBelowFloor(cfg, LoSoft(cfg, h[..t]).value, Hi(cfg, h[..t]).value);
    }
  }

  /** So a bracket that k halvings would bring to the floor is followed by at most 2k probes: twice bisection's cost. */
  lemma CollapseBound(cfg: Config, h: seq<Probe>, t: nat, k: nat)
    requires Obeys(cfg, h) && t <= |h| && cfg.standoff < 1.0 && cfg.floor >= 0.0
    requires Bracketed(cfg, h[..t]) && Width(cfg, h[..t]) > 0.0 && Halved(Width(cfg, h[..t]), k) <= cfg.floor
    ensures |h| <= t + 2 * k
  {
    if |h| > t + 2 * k {
      Halvings(cfg, h, t, k);
      NotCollapsedYet(cfg, h, t + 2 * k);
    }
  }

  // ----- widening -----

  /** (rho + rho^2 + ... + rho^e) times the seeded width */
  function Reach(cfg: Config, e: nat): real
    requires cfg.lo.Some? && cfg.hi.Some?
  {
    if e == 0 then 0.0 else Reach(cfg, e - 1) + Stride(cfg, e)
  }

  lemma StridePositive(cfg: Config, e: nat)
    requires Bounded(cfg) && cfg.rho > 0.0
    ensures Stride(cfg, e) > 0.0
  {
    PowerPositive(cfg.rho, e);
  }

  /** What Propose returns for a history, with the expansion counter before and after the call. */
  ghost predicate Proposed(cfg: Config, h: seq<Probe>, fit: Fits, before: nat, after: nat, x: real)
    requires Bounded(cfg) && (|h| >= 2 ==> Hi(cfg, h).Some? || LoSoft(cfg, h).Some?)
  {
    if |h| < 2 then x == (if h == [] then cfg.hi.value else cfg.lo.value) && after == before
    else if Bracketed(cfg, h) then
      x == Safeguarded(cfg, h, Candidate(cfg, LoSoft(cfg, h).value, Hi(cfg, h).value, fit)) && after == before
    else Widening(cfg, LoSoft(cfg, h), Hi(cfg, h), fit, before, after, Some(x))
  }

  /** An open bracket is closed by a jump to a fitted point. */
  predicate Jumps(cfg: Config, h: seq<Probe>, fit: Fits) {
    && Hi(cfg, h).None? && LoSoft(cfg, h).Some?
    && fit.divergent.Some? && fit.divergent.value.0 + fit.divergent.value.1 > LoSoft(cfg, h).value
  }

  /** How many of the probes were blind widenings. */
  function Widenings(cfg: Config, fits: nat -> Fits, h: seq<Probe>): nat {
    if |h| <= 2 then 0
    else
      var g := Past(h);
      Widenings(cfg, fits, g) + if Bracketed(cfg, g) || Jumps(cfg, g, fits(|g|)) then 0 else 1
  }

  /** Every probe is the one the search proposes after those before it, given the fits. */
  ghost predicate Follows(cfg: Config, fits: nat -> Fits, h: seq<Probe>) {
    h == [] ||
    var g := Past(h);
    && Follows(cfg, fits, g)
    && Bounded(cfg) && (|g| >= 2 ==> Hi(cfg, g).Some? || LoSoft(cfg, g).Some?)
    && Proposed(cfg, g, fits(|g|), Widenings(cfg, fits, g), Widenings(cfg, fits, h), Last(h).x)
  }

  lemma WideningsStep(cfg: Config, fits: nat -> Fits, h: seq<Probe>, after: nat)
    requires h != [] && Bounded(cfg) && (|Past(h)| >= 2 ==> Hi(cfg, Past(h)).Some? || LoSoft(cfg, Past(h)).Some?)
    requires Proposed(cfg, Past(h), fits(|h| - 1), Widenings(cfg, fits, Past(h)), after, Last(h).x)
    ensures after == Widenings(cfg, fits, h)
  {
    hide Candidate, Safeguarded, Stride;
  }

  lemma LawfulProposal(cfg: Config, h: seq<Probe>, fit: Fits, before: nat, after: nat, x: real)
    requires Bounded(cfg) && !HasAnswer(cfg, h)
    requires |h| >= 2 ==> Hi(cfg, h).Some? || LoSoft(cfg, h).Some?
    requires Bracketed(cfg, h) ==> !Narrow(cfg, LoSoft(cfg, h).value, Hi(cfg, h).value)
    requires Proposed(cfg, h, fit, before, after, x)
    ensures StepLaw(cfg, h, x)
  {
    hide Candidate, Safeguarded, Narrow, Stride;
    if Bracketed(cfg, h) {
      SafeguardedLaw(cfg, h, Candidate(cfg, LoSoft(cfg, h).value, Hi(cfg, h).value, fit));
    } else if |h| >= 2 && cfg.rho > 0.0 {
      StridePositive(cfg, after);
    }
  }

  lemma SeedsWidened(cfg: Config, h: seq<Probe>)
    requires Bounded(cfg) && |h| == 2 && Obeys(cfg, h) && !Answer(cfg, Last(h).out)
    ensures Widened(cfg, h, 0)
  {
    var g := Past(h);
    assert Past(g) == [];
    assert Obeys(cfg, g) && StepLaw(cfg, g, Last(h).x) && StepLaw(cfg, [], Last(g).x);
    assert Hi(cfg, []) == LoSoft(cfg, []) == None;
    assert Hi(cfg, g) == if AtOrAbove(cfg, Last(g).out) then Some(Last(g).x) else None;
    assert LoSoft(cfg, g) == if Low(cfg, Last(g).out) then Some(Last(g).x) else None;
  }

  /** A probe beyond the closed end leaves the bracket open with that end moved by one stride, or closes it. */
  lemma ReachGrows(cfg: Config, h: seq<Probe>, fit: Fits, before: nat, after: nat)
    requires Sane(cfg) && |h| > 2 && !Bracketed(cfg, Past(h))
    requires Hi(cfg, Past(h)).Some? || LoSoft(cfg, Past(h)).Some?
    requires Widened(cfg, Past(h), before)
    requires Widening(cfg, LoSoft(cfg, Past(h)), Hi(cfg, Past(h)), fit, before, after, Some(Last(h).x))
    requires !Answer(cfg, Last(h).out)
    ensures Widened(cfg, h, after)
  {
    hide Stride;
    StridePositive(cfg, after);
    assert after > before ==> Reach(cfg, after) == Reach(cfg, before) + Stride(cfg, after);
    if Hi(cfg, Past(h)).None? {
      assert Hi(cfg, h).None? ==> LoSoft(cfg, h) == Some(Last(h).x);
    } else {
      assert LoSoft(cfg, h).None? ==> Hi(cfg, h) == Some(Last(h).x);
    }
  }

  lemma WideningStep(cfg: Config, h: seq<Probe>, fit: Fits, before: nat, after: nat)
    requires Bounded(cfg) && h != []
    requires |Past(h)| >= 2 ==> Hi(cfg, Past(h)).Some? || LoSoft(cfg, Past(h)).Some?
    requires Widened(cfg, Past(h), before) && (|h| <= 2 ==> before == 0)
    requires Proposed(cfg, Past(h), fit, before, after, Last(h).x) && !Answer(cfg, Last(h).out)
    requires Obeys(cfg, h)
    ensures Widened(cfg, h, after)
  {
    hide Obeys, Widening, Reach, Safeguarded, Candidate;
    if |h| == 2 {
      SeedsWidened(cfg, h);
    } else if Sane(cfg) && |h| > 2 {
      if Bracketed(cfg, Past(h)) {
        assert Bracketed(cfg, h);
      } else {
        ReachGrows(cfg, h, fit, before, after);
      }
    }
  }

  /** Blind widening has moved the closed end past the open side's seed by at least a geometric sum. */
  ghost predicate Widened(cfg: Config, h: seq<Probe>, expansions: nat) {
    Sane(cfg) && |h| >= 2 ==>
      && (Hi(cfg, h).None? ==>
            LoSoft(cfg, h).Some? && LoSoft(cfg, h).value >= cfg.hi.value + Reach(cfg, expansions))
      && (LoSoft(cfg, h).None? ==>
            Hi(cfg, h).Some? && Hi(cfg, h).value <= cfg.lo.value - Reach(cfg, expansions))
  }

  /** A search that gave up widening upwards proves the switch of a monotone oracle out of its reach. */
  lemma GaveUp(cfg: Config, f: real -> Outcome, xs: real, h: seq<Probe>, expansions: nat)
    requires Sane(cfg) && |h| >= 2 && Widened(cfg, h, expansions) && Sampled(f, h) && SwitchesAt(cfg, f, xs)
    ensures Hi(cfg, h).None? ==> xs > cfg.hi.value + Reach(cfg, expansions)
    ensures LoSoft(cfg, h).None? ==> xs <= cfg.lo.value - Reach(cfg, expansions)
  {
    BracketContainsSwitch(cfg, f, xs, h);
  }

  // ----- sorted samples -----

  predicate PairLess(a: (real, real), b: (real, real)) {
    a.0 < b.0 || (a.0 == b.0 && a.1 < b.1)
  }

  ghost predicate Sorted(s: seq<(real, real)>) {
    forall i, j :: 0 <= i < j < |s| ==> !PairLess(s[j], s[i])
  }

  /** Append and sort, on a sequence that is sorted already. */
  function Insert(s: seq<(real, real)>, p: (real, real)): seq<(real, real)> {
    if s == [] || !PairLess(p, s[|s| - 1]) then s + [p] else Insert(s[..|s| - 1], p) + [s[|s| - 1]]
  }

  lemma {:induction false} InsertAdds(s: seq<(real, real)>, p: (real, real))
    ensures multiset(Insert(s, p)) == multiset(s) + multiset{p}
  {
    if s != [] && PairLess(p, s[|s| - 1]) {
      InsertAdds(s[..|s| - 1], p);
      assert s == s[..|s| - 1] + [s[|s| - 1]];
    }
  }

  lemma {:induction false} InsertSorts(s: seq<(real, real)>, p: (real, real))
    requires Sorted(s)
    ensures Sorted(Insert(s, p))
  {
    if s != [] && PairLess(p, s[|s| - 1]) {
      var t, last := s[..|s| - 1], s[|s| - 1];
      InsertSorts(t, p);
      InsertAdds(t, p);
      forall q | q in Insert(t, p)
        ensures !PairLess(last, q)
      {
        assert q in multiset(Insert(t, p));
        assert q == p || q in t;
      }
    }
  }

  /** The finite evaluations (x, obs) of a history. */
  ghost function Evaluations(h: seq<Probe>): multiset<(real, real)> {
    if h == [] then multiset{}
    else
      Evaluations(Past(h)) + if Last(h).out.obs.Some? then multiset{(Last(h).x, Last(h).out.obs.value)} else multiset{}
  }

  /** The informative failures (x, residual) of a history. */
  ghost function Failures(h: seq<Probe>): multiset<(real, real)> {
    if h == [] then multiset{}
    else
      Failures(Past(h)) + if Failed(Last(h).out) && Last(h).out.residual.Some?
                          then multiset{(Last(h).x, Last(h).out.residual.value)} else multiset{}
  }

  /** The evaluations in order, as the search keeps them. */
  function Samples(h: seq<Probe>): seq<(real, real)> {
    if h == [] then []
    else
      var before := Samples(Past(h));
      if Last(h).out.obs.Some? then Insert(before, (Last(h).x, Last(h).out.obs.value)) else before
  }

  function FailedSamples(h: seq<Probe>): seq<(real, real)> {
    if h == [] then []
    else
      var before := FailedSamples(Past(h));
      if Failed(Last(h).out) && Last(h).out.residual.Some?
      then Insert(before, (Last(h).x, Last(h).out.residual.value)) else before
  }

  /** The three samples with the largest x have the same observable. */
  predicate Flat(s: seq<(real, real)>) {
    |s| >= 3 &&
    var y1, y2, y3 := s[|s| - 1].1, s[|s| - 2].1, s[|s| - 3].1;
    var scale := Max(Abs(y1), 1e-300);
    Abs(y1 - y2) < 1e-14 * scale && Abs(y2 - y3) < 1e-14 * scale
  }

  /** p, q and r are the three greatest of the pairs, in descending order. */
  ghost predicate TopThree(m: multiset<(real, real)>, p: (real, real), q: (real, real), r: (real, real)) {
    && multiset{p, q, r} <= m && !PairLess(p, q) && !PairLess(q, r)
    && forall e :: e in m - multiset{p, q, r} ==> !PairLess(r, e)
  }

  /** Two observables that differ by less than a part in 10^14 of the scale. */
  predicate Alike(y: real, z: real, scale: real) {
    -scale < 100000000000000.0 * (y - z) < scale
  }

  /** The three finite evaluations with the largest x are alike, whatever the order in which they were made. */
  ghost predicate Levelled(h: seq<Probe>) {
    exists p, q, r :: TopThree(Evaluations(h), p, q, r) && AllAlike(p.1, q.1, r.1)
  }

  predicate AllAlike(y1: real, y2: real, y3: real) {
    if Abs(y1) <= 1e-300 then Alike(y1, y2, 1e-300) && Alike(y2, y3, 1e-300)
    else Alike(y1, y2, Abs(y1)) && Alike(y2, y3, Abs(y1))
  }

  lemma SamplesSorted(h: seq<Probe>)
    ensures Sorted(Samples(h)) && multiset(Samples(h)) == Evaluations(h)
  {
    if h != [] {
      SamplesSorted(Past(h));
      if Last(h).out.obs.Some? {
        InsertSorts(Samples(Past(h)), (Last(h).x, Last(h).out.obs.value));
        InsertAdds(Samples(Past(h)), (Last(h).x, Last(h).out.obs.value));
      }
    }
  }

  lemma AlikeIs(y: real, z: real, scale: real)
    ensures Alike(y, z, scale) <==> Abs(y - z) < 1e-14 * scale
  {
  }

  lemma FlatIs(s: seq<(real, real)>)
    ensures Flat(s) <==> |s| >= 3 && AllAlike(s[|s| - 1].1, s[|s| - 2].1, s[|s| - 3].1)
  {
    if |s| >= 3 {
      var y1, y2, y3 := s[|s| - 1].1, s[|s| - 2].1, s[|s| - 3].1;
      AlikeIs(y1, y2, Max(Abs(y1), 1e-300));
      AlikeIs(y2, y3, Max(Abs(y1), 1e-300));
      hide Alike;
    }
  }

  /** The greatest element of a sorted sequence is its last one. */
  lemma GreatestIsLast(s: seq<(real, real)>, p: (real, real))
    requires Sorted(s) && p in s && forall e :: e in s ==> !PairLess(p, e)
    ensures s[|s| - 1] == p
  {
    var i :| 0 <= i < |s| && s[i] == p;
    assert s[|s| - 1] in s;
  }

  lemma NotLess(a: (real, real), b: (real, real), c: (real, real))
    requires !PairLess(a, b) && !PairLess(b, c)
    ensures !PairLess(a, c)
  {
  }

  lemma SortedBefore(s: seq<(real, real)>)
    requires Sorted(s) && s != []
    ensures Sorted(s[..|s| - 1])
  {
  }

  lemma LastCounts(s: seq<(real, real)>, m: multiset<(real, real)>)
    requires s != [] && multiset(s) == m + multiset{s[|s| - 1]}
    ensures multiset(s[..|s| - 1]) == m
  {
    var before, p := s[..|s| - 1], s[|s| - 1];
    assert s == before + [p];
    assert multiset(s) == multiset(before) + multiset{p};
    assert multiset(before) == multiset(s) - multiset{p} == m;
  }

  lemma WithoutLast(s: seq<(real, real)>, p: (real, real), m: multiset<(real, real)>)
    requires Sorted(s) && multiset(s) == m + multiset{p} && forall e :: e in m ==> !PairLess(p, e)
    ensures s != [] && s[|s| - 1] == p
    ensures Sorted(s[..|s| - 1]) && multiset(s[..|s| - 1]) == m
  {
    hide PairLess, Sorted;
    assert p in multiset(s);
    forall e | e in s
      ensures !PairLess(p, e)
    {
      assert e in multiset(s);
      LessNotItself(p);
    }
    GreatestIsLast(s, p);
    SortedBefore(s);
    LastCounts(s, m);
  }

  lemma LessNotItself(p: (real, real))
    ensures !PairLess(p, p)
  {
  }

  lemma RestBelow(m: multiset<(real, real)>, p: (real, real), q: (real, real), r: (real, real))
    returns (m1: multiset<(real, real)>, m2: multiset<(real, real)>, m3: multiset<(real, real)>)
    requires TopThree(m, p, q, r)
    ensures m == m1 + multiset{p} && m1 == m2 + multiset{q} && m2 == m3 + multiset{r}
    ensures forall e :: e in m1 ==> !PairLess(p, e)
    ensures forall e :: e in m2 ==> !PairLess(q, e)
    ensures forall e :: e in m3 ==> !PairLess(r, e)
  {
    hide PairLess;
    m3 := m - multiset{p, q, r};
    m2 := m3 + multiset{r};
    m1 := m2 + multiset{q};
    PutBack(m, p, q, r);
    AllBelow(m3, r, q);
    AllBelow(m2, q, p);
  }

  lemma PutBack(m: multiset<(real, real)>, p: (real, real), q: (real, real), r: (real, real))
    requires multiset{p, q, r} <= m
    ensures m - multiset{p, q, r} + multiset{r} + multiset{q} + multiset{p} == m
  {
    assert multiset{r} + multiset{q} + multiset{p} == multiset{p, q, r};
  }

  /** What is not above r is not above q either, and neither is r. */
  lemma AllBelow(m: multiset<(real, real)>, r: (real, real), q: (real, real))
    requires !PairLess(q, r) && forall e :: e in m ==> !PairLess(r, e)
    ensures forall e :: e in m + multiset{r} ==> !PairLess(q, e)
  {
    hide PairLess;
    forall e | e in m
      ensures !PairLess(q, e)
    {
      NotLess(q, r, e);
    }
  }

  lemma TopThreeAreLast(s: seq<(real, real)>, p: (real, real), q: (real, real), r: (real, real))
    requires Sorted(s) && TopThree(multiset(s), p, q, r)
    ensures |s| >= 3 && s[|s| - 1] == p && s[|s| - 2] == q && s[|s| - 3] == r
  {
    hide PairLess, Sorted, TopThree;
    var m1, m2, m3 := RestBelow(multiset(s), p, q, r);
    WithoutLast(s, p, m1);
    var t := s[..|s| - 1];
    WithoutLast(t, q, m2);
    WithoutLast(t[..|t| - 1], r, m3);
  }

  lemma LastAreTopThree(s: seq<(real, real)>)
    requires Sorted(s) && |s| >= 3
    ensures TopThree(multiset(s), s[|s| - 1], s[|s| - 2], s[|s| - 3])
  {
    hide PairLess;
    var n := |s| - 3;
    LastThree(s);
    forall e | e in multiset(s) - multiset{s[n + 2], s[n + 1], s[n]}
      ensures !PairLess(s[n], e)
    {
      assert e in multiset(s[..n]);
      assert e in s[..n];
    }
  }

  lemma LastThree(s: seq<(real, real)>)
    requires |s| >= 3
    ensures multiset(s) == multiset(s[..|s| - 3]) + multiset{s[|s| - 1], s[|s| - 2], s[|s| - 3]}
  {
    var n := |s| - 3;
    var before, last := s[..n], [s[n], s[n + 1], s[n + 2]];
    assert s == before + last;
    assert multiset(last) == multiset{s[n + 2], s[n + 1], s[n]};
  }

  /** A search stagnates exactly when the three finite evaluations with the largest x are alike. */
  lemma FlatIsLevelled(h: seq<Probe>)
    ensures Flat(Samples(h)) <==> Levelled(h)
  {
    hide PairLess, Sorted, TopThree, Flat, AllAlike, Samples;
    var s := Samples(h);
    SamplesSorted(h);
    FlatIs(s);
    if Flat(s) {
      LastAreTopThree(s);
    }
    if Levelled(h) {
      var p, q, r :| TopThree(Evaluations(h), p, q, r) && AllAlike(p.1, q.1, r.1);
      TopThreeAreLast(s, p, q, r);
    }
  }

  /** The stopping tests of a converged search, on the best probe and on the last two fitted critical points. */
  predicate Accepted(cfg: Config, best: Option<(real, real)>, fit: Fits) {
    if cfg.target > 0.0 && cfg.acceptance.AtTarget? then
      && best.Some?
      && Abs(best.value.1 - cfg.target) <= cfg.relTol * cfg.target
      && (cfg.oneSided ==> best.value.1 >= cfg.target)
    else
      && cfg.target <= 0.0
      && fit.model.Some? && fit.model.value.valid && fit.previousXc.Some?
      && Abs(fit.model.value.xc - fit.previousXc.value) <= cfg.relTol * Abs(fit.model.value.xc)
  }

  // ----- why a search ends -----

  predicate HasAnswer(cfg: Config, h: seq<Probe>) {
    exists i :: 0 <= i < |h| && Answer(cfg, h[i].out)
  }

  lemma AnswerAdded(cfg: Config, h: seq<Probe>)
    requires h != []
    ensures HasAnswer(cfg, h) <==> HasAnswer(cfg, Past(h)) || Answer(cfg, Last(h).out)
  {
    if HasAnswer(cfg, Past(h)) {
      var i :| 0 <= i < |Past(h)| && Answer(cfg, Past(h)[i].out);
      assert Answer(cfg, h[i].out);
    }
  }

  /** Why a search ends with this history, if it does: the tests of the loop, in their order. */
  function StopOf(cfg: Config, h: seq<Probe>, fit: Fits): Option<Stop> {
    if HasAnswer(cfg, h) || Accepted(cfg, BestOf(cfg, h), fit) then Some(Converged)
    else if Bracketed(cfg, h) && Narrow(cfg, LoSoft(cfg, h).value, Hi(cfg, h).value) then Some(Collapsed)
    else if Flat(Samples(h)) then Some(Stagnated)
    else None
  }

  /** The reason a search of this history reports, once it has ended. */
  function EndOf(cfg: Config, fits: nat -> Fits, h: seq<Probe>): Stop {
    if h != [] && StopOf(cfg, h, fits(|h|)).Some? then StopOf(cfg, h, fits(|h|)).value
    else if |h| < cfg.maxIter then NoProposal else BudgetSpent
  }

  lemma EndMeans(cfg: Config, fits: nat -> Fits, h: seq<Probe>)
    ensures var e := EndOf(cfg, fits, h);
            && (e == Converged <==> h != [] && (HasAnswer(cfg, h) || Accepted(cfg, BestOf(cfg, h), fits(|h|))))
            && (e == Collapsed <==> h != [] && e != Converged && Bracketed(cfg, h) &&
                                    Narrow(cfg, LoSoft(cfg, h).value, Hi(cfg, h).value))
            && (e == Stagnated <==> h != [] && e != Converged && e != Collapsed && Levelled(h))
            && (e == BudgetSpent ==> |h| >= cfg.maxIter)
  {
    FlatIsLevelled(h);
    hide Flat, Levelled, Narrow, Accepted, HasAnswer;
  }

  /** None of the tests ended the search before its last probe. */
  ghost predicate WentOn(cfg: Config, fits: nat -> Fits, h: seq<Probe>) {
    forall t: nat :: 0 < t < |h| ==> StopOf(cfg, h[..t], fits(t)) == None
  }

  lemma WentOnGrows(cfg: Config, fits: nat -> Fits, h: seq<Probe>)
    requires h != [] && WentOn(cfg, fits, Past(h)) && (|h| > 1 ==> StopOf(cfg, Past(h), fits(|h| - 1)) == None)
    ensures WentOn(cfg, fits, h)
  {
    hide StopOf;
    forall t: nat | 0 < t < |h|
      ensures StopOf(cfg, h[..t], fits(t)) == None
    {
      assert h[..t] == Past(h)[..t];
    }
  }

  /** A search over f with this history: every probe is the one proposed, and none is taken after a reason to stop. */
  ghost predicate IsRun(cfg: Config, f: real -> Outcome, fits: nat -> Fits, h: seq<Probe>) {
    Obeys(cfg, h) && Sampled(f, h) && Follows(cfg, fits, h) && WentOn(cfg, fits, h)
  }

  lemma NotLevelled(cfg: Config, f: real -> Outcome, fits: nat -> Fits, h: seq<Probe>)
    requires IsRun(cfg, f, fits, h)
    ensures forall t: nat :: 0 < t < |h| ==> !Levelled(h[..t])
  {
    hide Flat, Levelled, Narrow, Accepted, HasAnswer, Obeys, Follows, Samples;
    forall t: nat | 0 < t < |h|
      ensures !Levelled(h[..t])
    {
      assert StopOf(cfg, h[..t], fits(t)) == None;
      FlatIsLevelled(h[..t]);
    }
  }

  lemma RunBefore(cfg: Config, f: real -> Outcome, fits: nat -> Fits, h: seq<Probe>)
    requires IsRun(cfg, f, fits, h) && h != []
    ensures IsRun(cfg, f, fits, Past(h)) && Last(h).out == f(Last(h).x)
    ensures |h| > 1 ==> StopOf(cfg, Past(h), fits(|h| - 1)) == None
  {
    hide StopOf, StepLaw;
    var g := Past(h);
    assert h[|h| - 1].out == f(h[|h| - 1].x);
    forall t: nat | 0 < t < |g|
      ensures StopOf(cfg, g[..t], fits(t)) == None
    {
      assert g[..t] == h[..t];
    }
  }

  // ----- the best probe -----

  predicate Eligible(cfg: Config, out: Outcome) {
    out.obs.Some? && (!cfg.oneSided || AtOrAbove(cfg, out))
  }

  /** Settings under which the probe kept is the eligible one closest to the target. */
  predicate ClosestKept(cfg: Config) {
    cfg.oneSided || cfg.acceptance.AtTarget? || cfg.target > 0.0
  }

  ghost predicate IsClosest(cfg: Config, h: seq<Probe>) {
    match BestOf(cfg, h)
    case None => forall i :: 0 <= i < |h| ==> !Eligible(cfg, h[i].out)
    case Some(b) =>
      && (exists i :: 0 <= i < |h| && Eligible(cfg, h[i].out) && h[i].x == b.0 && h[i].out.obs == Some(b.1))
      && (forall i :: 0 <= i < |h| && Eligible(cfg, h[i].out) ==> !Closer(cfg, h[i].out.obs.value, b.1))
  }

  lemma {:induction false} BestIsClosest(cfg: Config, h: seq<Probe>)
    requires ClosestKept(cfg) && forall i :: 0 <= i < |h| ==> !Answer(cfg, h[i].out)
    ensures IsClosest(cfg, h)
  {
    if h != [] {
      var g := Past(h);
      assert forall i :: 0 <= i < |g| ==> g[i] == h[i];
      BestIsClosest(cfg, g);
      if BestOf(cfg, h).Some? && BestOf(cfg, h) != BestOf(cfg, g) {
        assert h[|h| - 1].x == BestOf(cfg, h).value.0;
      }
      if cfg.oneSided || cfg.acceptance.BelowTarget? {
        BestNotBelow(cfg, g);
      }
    }
  }

  lemma {:induction false} BestNotBelow(cfg: Config, h: seq<Probe>)
    requires cfg.oneSided || (cfg.acceptance.BelowTarget? && cfg.target > 0.0)
    requires forall i :: 0 <= i < |h| ==> !Answer(cfg, h[i].out)
    ensures BestOf(cfg, h).Some? ==> BestOf(cfg, h).value.1 >= cfg.target
  {
    if h != [] {
      assert forall i :: 0 <= i < |Past(h)| ==> Past(h)[i] == h[i];
      BestNotBelow(cfg, Past(h));
      assert !Answer(cfg, h[|h| - 1].out);
    }
  }

  ghost predicate NoAnswers(cfg: Config, h: seq<Probe>) {
    forall i :: 0 <= i < |h| ==> !Answer(cfg, h[i].out)
  }

  /** The two seed probes, as every search takes them. */
  function Seeds(cfg: Config, atHi: Outcome, atLo: Outcome): seq<Probe>
    requires Bounded(cfg)
  {
    [Probe(cfg.hi.value, atHi), Probe(cfg.lo.value, atLo)]
  }

  lemma SeedsObey(cfg: Config, atHi: Outcome, atLo: Outcome)
    requires Bounded(cfg) && !Answer(cfg, atHi)
    ensures var h := Seeds(cfg, atHi, atLo);
            Obeys(cfg, h) && Past(h) == [h[0]] && Past(Past(h)) == []
  {
    var h := Seeds(cfg, atHi, atLo);
    assert Past(h) == [h[0]] && Past(Past(h)) == [];
    assert Obeys(cfg, []) && StepLaw(cfg, [], h[0].x) && StepLaw(cfg, Past(h), h[1].x);
  }

  /** The fits before any of them has succeeded. */
  const NOFITS := Fits(None, None, None, None, None, None)

  /** The two seeds are a run of any search whose upper one is neither an answer nor accepted. */
  lemma SeedsRun(cfg: Config, f: real -> Outcome)
    requires Bounded(cfg) && !Answer(cfg, f(cfg.hi.value))
    requires !Accepted(cfg, BestOf(cfg, [Probe(cfg.hi.value, f(cfg.hi.value))]), NOFITS)
    ensures IsRun(cfg, f, _ => NOFITS, Seeds(cfg, f(cfg.hi.value), f(cfg.lo.value)))
  {
    var h := Seeds(cfg, f(cfg.hi.value), f(cfg.lo.value));
    SeedsObey(cfg, f(cfg.hi.value), f(cfg.lo.value));
    assert h[..1] == Past(h) == [h[0]];
    BracketNeedsTwo(cfg, Past(h));
    assert Samples([]) == [] && |Samples(Past(h))| <= 1;
    assert Follows(cfg, _ => NOFITS, []) && Follows(cfg, _ => NOFITS, Past(h));
  }

  /** Outside these settings the finder prefers a negative observable to one exactly at its target of zero. */
  lemma ClosestNotKept(cfg: Config) returns (f: real -> Outcome, h: seq<Probe>)
    requires Bounded(cfg) && cfg.target == 0.0 && !ClosestKept(cfg)
    ensures IsRun(cfg, f, _ => NOFITS, h) && NoAnswers(cfg, h) && !IsClosest(cfg, h)
  {
    f := x => Outcome(Some(if x == cfg.hi.value then -1.0 else 0.0), None);
    h := Seeds(cfg, f(cfg.hi.value), f(cfg.lo.value));
    SeedsRun(cfg, f);
    SeedsObey(cfg, f(cfg.hi.value), f(cfg.lo.value));
    assert BestOf(cfg, Past(h)) == Some((cfg.hi.value, -1.0));
    assert BestOf(cfg, h) == Some((cfg.hi.value, -1.0));
    assert Eligible(cfg, h[1].out) && Closer(cfg, h[1].out.obs.value, -1.0);
  }

  /** For every target the search admits: every run keeps the closest probe exactly under these settings. */
  lemma ClosestExactly(cfg: Config)
    requires Bounded(cfg) && cfg.target >= 0.0
    ensures (forall f: real -> Outcome, fits: nat -> Fits, h: seq<Probe> ::
               IsRun(cfg, f, fits, h) && NoAnswers(cfg, h) ==> IsClosest(cfg, h))
            <==> ClosestKept(cfg)
  {
    hide IsRun, IsClosest;
    if ClosestKept(cfg) {
      forall f: real -> Outcome, fits: nat -> Fits, h: seq<Probe> | IsRun(cfg, f, fits, h) && NoAnswers(cfg, h)
        ensures IsClosest(cfg, h)
      {
        BestIsClosest(cfg, h);
      }
    } else {
      var f, h := ClosestNotKept(cfg);
    }
  }

  ghost predicate Increasing(cfg: Config, f: real -> Outcome) {
    forall x, y :: x < y && AtOrAbove(cfg, f(x)) && AtOrAbove(cfg, f(y)) ==> f(x).obs.value < f(y).obs.value
  }

  /** The answer kept is the upper end of the bracket, if there is one. */
  ghost predicate KeepsUpperEnd(cfg: Config, h: seq<Probe>) {
    && (BestOf(cfg, h).Some? <==> Hi(cfg, h).Some?)
    && (BestOf(cfg, h).Some? ==> BestOf(cfg, h).value.0 == Hi(cfg, h).value)
  }

  /** For an observable that increases above the target, the one-sided answer is the upper end of the bracket. */
  lemma {:induction false} BestIsUpperEnd(cfg: Config, f: real -> Outcome, h: seq<Probe>)
    requires cfg.oneSided && Sampled(f, h) && Increasing(cfg, f) && NoAnswers(cfg, h)
    ensures KeepsUpperEnd(cfg, h)
    ensures BestOf(cfg, h).Some? ==>
              f(Hi(cfg, h).value).obs == Some(BestOf(cfg, h).value.1) && AtOrAbove(cfg, f(Hi(cfg, h).value))
  {
    if h != [] {
      assert forall i :: 0 <= i < |Past(h)| ==> Past(h)[i] == h[i];
      BestIsUpperEnd(cfg, f, Past(h));
      assert !Answer(cfg, h[|h| - 1].out) && h[|h| - 1].out == f(h[|h| - 1].x);
    }
  }

  function WithBounds(cfg: Config, lo: real, hi: real): Config {
    cfg.(lo := Some(lo), hi := Some(hi))
  }

  /** Acceptance at a positive target: a best probe within the tolerance ends the search. */
  predicate Windowed(cfg: Config) {
    cfg.acceptance.AtTarget? && cfg.target > 0.0
  }

  predicate InWindow(cfg: Config, obs: real) {
    Windowed(cfg) && obs - cfg.target <= cfg.relTol * cfg.target
  }

  /** f increases above the target, from anywhere up to any point that would not have ended the search. */
  ghost predicate IncreasingOutside(cfg: Config, f: real -> Outcome) {
    forall x, y :: x < y && AtOrAbove(cfg, f(x)) && AtOrAbove(cfg, f(y)) && !InWindow(cfg, f(y).obs.value) ==>
                     f(x).obs.value < f(y).obs.value
  }

  /** Whatever the bounds and the fits, every run that has not found an answer keeps the upper end. */
  ghost predicate AlwaysUpperEnd(cfg: Config, f: real -> Outcome) {
    forall lo, hi, fits: nat -> Fits, h ::
      lo < hi && IsRun(WithBounds(cfg, lo, hi), f, fits, h) && NoAnswers(cfg, h) ==>
        KeepsUpperEnd(WithBounds(cfg, lo, hi), h)
  }

  /** Two points above the target that do not increase are the seeds of a run that keeps the wrong one. */
  lemma UpperEndMissed(cfg: Config, f: real -> Outcome, x: real, y: real)
    requires cfg.oneSided && x < y && AtOrAbove(cfg, f(x)) && AtOrAbove(cfg, f(y))
    requires f(x).obs.value >= f(y).obs.value && !InWindow(cfg, f(y).obs.value)
    ensures var c, h := WithBounds(cfg, x, y), Seeds(WithBounds(cfg, x, y), f(y), f(x));
            IsRun(c, f, _ => NOFITS, h) && NoAnswers(cfg, h) && BestOf(c, h).Some? && !KeepsUpperEnd(c, h)
  {
    var c, h := WithBounds(cfg, x, y), Seeds(WithBounds(cfg, x, y), f(y), f(x));
    SeedsObey(c, f(y), f(x));
    assert BestOf(c, []) == None && Hi(c, []) == None;
    assert BestOf(c, Past(h)) == Some((y, f(y).obs.value)) && Hi(c, Past(h)) == Some(y);
    assert BestOf(c, h) == Some((y, f(y).obs.value)) && Hi(c, h) == Some(x);
    SeedsRun(c, f);
  }

  /** Once the upper end is known, no probe is taken at or above it. */
  lemma NextBelowUpper(cfg: Config, h: seq<Probe>, fit: Fits)
    requires Sane(cfg) && cfg.floor >= 0.0 && Obeys(cfg, h) && |h| > 1 && Hi(cfg, Past(h)).Some?
    requires StopOf(cfg, Past(h), fit) == None
    ensures Last(h).x < Hi(cfg, Past(h)).value
  {
    hide Flat, Samples, Accepted, HasAnswer;
    var g := Past(h);
    assert StepLaw(cfg, g, Last(h).x);
    if |g| == 1 {
      assert Past(g) == [] && Obeys(cfg, g) && StepLaw(cfg, [], g[0].x) && Hi(cfg, []) == None;
    } else if Bracketed(cfg, g) && Hi(cfg, g).value < LoSoft(cfg, g).value {
      InvertedIsNarrow(cfg, LoSoft(cfg, g).value, Hi(cfg, g).value);
    } else if Bracketed(cfg, g) {
      EqualIsNarrow(cfg, LoSoft(cfg, g).value);
    }
  }

  lemma EqualIsNarrow(cfg: Config, x: real)
    requires cfg.floor >= 0.0
    ensures Narrow(cfg, x, x)
  {
  }

  /** With acceptance at a positive target a run keeps its upper end, if f increases outside the window. */
  lemma {:induction false} RunKeepsUpperEnd(cfg: Config, f: real -> Outcome, fits: nat -> Fits, h: seq<Probe>)
    requires cfg.oneSided && Windowed(cfg) && Sane(cfg) && cfg.floor >= 0.0 && IncreasingOutside(cfg, f)
    requires IsRun(cfg, f, fits, h)
    ensures KeepsUpperEnd(cfg, h)
    ensures BestOf(cfg, h).Some? ==>
              f(Hi(cfg, h).value).obs == Some(BestOf(cfg, h).value.1) && AtOrAbove(cfg, f(Hi(cfg, h).value))
  {
    hide IsRun, Narrow, Flat, Samples, HasAnswer;
    if h != [] {
      var g := Past(h);
      RunBefore(cfg, f, fits, h);
      RunKeepsUpperEnd(cfg, f, fits, g);
      if BestOf(cfg, g).Some? {
        assert g != [] && !InWindow(cfg, BestOf(cfg, g).value.1);
        LawfulRun(cfg, f, fits, h);
        NextBelowUpper(cfg, h, fits(|h| - 1));
      }
    }
  }

  lemma LawfulRun(cfg: Config, f: real -> Outcome, fits: nat -> Fits, h: seq<Probe>)
    requires IsRun(cfg, f, fits, h)
    ensures Obeys(cfg, h) && Sampled(f, h)
  {
  }

  lemma BoundsMatterNot(cfg: Config, f: real -> Outcome, lo: real, hi: real, h: seq<Probe>)
    ensures IncreasingOutside(cfg, f) ==> IncreasingOutside(WithBounds(cfg, lo, hi), f)
    ensures NoAnswers(cfg, h) ==> NoAnswers(WithBounds(cfg, lo, hi), h)
  {
    assert forall out :: AtOrAbove(WithBounds(cfg, lo, hi), out) == AtOrAbove(cfg, out);
    assert forall out :: Answer(WithBounds(cfg, lo, hi), out) == Answer(cfg, out);
  }

  /** Without a window every point is outside of it. */
  lemma NoWindow(cfg: Config, f: real -> Outcome)
    requires !Windowed(cfg)
    ensures IncreasingOutside(cfg, f) <==> Increasing(cfg, f)
  {
  }

  lemma UpperEndKept(cfg: Config, f: real -> Outcome, fits: nat -> Fits, h: seq<Probe>)
    requires cfg.oneSided && (Windowed(cfg) ==> Sane(cfg) && cfg.floor >= 0.0) && IncreasingOutside(cfg, f)
    requires IsRun(cfg, f, fits, h) && NoAnswers(cfg, h)
    ensures KeepsUpperEnd(cfg, h)
  {
    hide IsRun, KeepsUpperEnd, IncreasingOutside, Increasing, NoAnswers, Windowed;
    if Windowed(cfg) {
      RunKeepsUpperEnd(cfg, f, fits, h);
    } else {
      LawfulRun(cfg, f, fits, h);
      NoWindow(cfg, f);
      BestIsUpperEnd(cfg, f, h);
    }
  }

  /** The one-sided answer is always the upper end exactly for an observable that increases outside the window. */
  lemma UpperEndExactly(cfg: Config, f: real -> Outcome)
    requires cfg.oneSided && (Windowed(cfg) ==> cfg.rho > 0.0 && cfg.standoff < 1.0 && cfg.floor >= 0.0)
    ensures AlwaysUpperEnd(cfg, f) <==> IncreasingOutside(cfg, f)
    ensures !Windowed(cfg) ==> (IncreasingOutside(cfg, f) <==> Increasing(cfg, f))
  {
    hide IsRun, KeepsUpperEnd, NoAnswers, Increasing;
    if !Windowed(cfg) {
      NoWindow(cfg, f);
    }
    if IncreasingOutside(cfg, f) {
      hide IncreasingOutside;
      forall lo, hi, fits: nat -> Fits, h: seq<Probe>
        | lo < hi && IsRun(WithBounds(cfg, lo, hi), f, fits, h) && NoAnswers(cfg, h)
        ensures KeepsUpperEnd(WithBounds(cfg, lo, hi), h)
      {
        BoundsMatterNot(cfg, f, lo, hi, h);
        UpperEndKept(WithBounds(cfg, lo, hi), f, fits, h);
      }
    } else {
      var x, y :| x < y && AtOrAbove(cfg, f(x)) && AtOrAbove(cfg, f(y)) && !InWindow(cfg, f(y).obs.value)
                  && f(x).obs.value >= f(y).obs.value;
      UpperEndMissed(cfg, f, x, y);
    }
  }

  /**
   A flat observable clearly above the window of acceptance: neither seed is accepted, so both are probed, and from
   then on the answer of every run is the first seed while the upper end lies at the second one or below.
   */
  lemma BestNotUpperEnd(cfg: Config, obs: real) returns (h: seq<Probe>)
    requires cfg.oneSided && Bounded(cfg) && cfg.target >= 0.0 && obs > cfg.target
    requires obs - cfg.target > cfg.relTol * cfg.target
    ensures |h| == 2 && IsRun(cfg, _ => Outcome(Some(obs), None), _ => NOFITS, h)
    ensures !Accepted(cfg, BestOf(cfg, Past(h)), NOFITS) && !Accepted(cfg, BestOf(cfg, h), NOFITS)
    ensures BestOf(cfg, h) == Some((cfg.hi.value, obs)) && Hi(cfg, h) == Some(cfg.lo.value)
  {
    var out := Outcome(Some(obs), None);
    h := Seeds(cfg, out, out);
    SeedsObey(cfg, out, out);
    assert BestOf(cfg, []) == None && Hi(cfg, []) == None;
    assert BestOf(cfg, Past(h)) == Some((cfg.hi.value, obs)) && Hi(cfg, Past(h)) == Some(cfg.hi.value);
    SeedsRun(cfg, _ => out);
  }

  /** The first of equal observables is kept for the rest of the run. */
  lemma {:induction false} FlatKeepsSeed(cfg: Config, obs: real, h: seq<Probe>)
    requires cfg.oneSided && Bounded(cfg) && obs >= cfg.target && Obeys(cfg, h) && |h| >= 2
    requires Sampled(_ => Outcome(Some(obs), None), h)
    ensures BestOf(cfg, h) == Some((cfg.hi.value, obs)) && Hi(cfg, h).Some? && Hi(cfg, h).value <= cfg.lo.value
  {
    var g := Past(h);
    assert h[|h| - 1].out == Outcome(Some(obs), None);
    if |h| == 2 {
      assert Past(g) == [] && Last(g) == h[0] && h[0].out == Outcome(Some(obs), None);
      assert Obeys(cfg, g) && StepLaw(cfg, [], h[0].x) && StepLaw(cfg, g, h[1].x);
      assert BestOf(cfg, []) == None && Hi(cfg, []) == None;
    } else {
      assert forall i :: 0 <= i < |g| ==> g[i] == h[i];
      FlatKeepsSeed(cfg, obs, g);
    }
  }

  // ----- what the fields hold -----

  ghost predicate KnowsBracket(cfg: Config, h: seq<Probe>, soft: Option<real>, hard: Option<real>, hi: Option<real>,
                               w: Option<real>, wBefore: Option<real>)
  {
    && hi == Hi(cfg, h) && soft == LoSoft(cfg, h) && hard == LoHard(h)
    && w == MaybeWidth(cfg, h)
    && wBefore == (if h == [] then None else MaybeWidth(cfg, Past(h)))
  }

  ghost predicate KnowsSamples(h: seq<Probe>, successes: seq<(real, real)>, failures: seq<(real, real)>) {
    && successes == Samples(h) && Sorted(successes) && multiset(successes) == Evaluations(h)
    && failures == FailedSamples(h) && Sorted(failures) && multiset(failures) == Failures(h)
  }

  ghost predicate KnowsBest(cfg: Config, h: seq<Probe>, best: Option<(real, real)>, answerFound: bool) {
    best == BestOf(cfg, h) && (answerFound <==> HasAnswer(cfg, h))
  }

  lemma SamplesKnown(h: seq<Probe>, successes: seq<(real, real)>, failures: seq<(real, real)>)
    requires KnowsSamples(h, successes, failures)
    ensures successes == Samples(h)
  {
  }

  lemma NothingKnown(cfg: Config)
    ensures KnowsBracket(cfg, [], None, None, None, None, None) && KnowsSamples([], [], []) &&
            KnowsBest(cfg, [], None, false)
  {
  }

  /** Everything the loop of the search keeps about its history h and its expansion counter. */
  ghost predicate OnRun(cfg: Config, f: real -> Outcome, fits: nat -> Fits, h: seq<Probe>, expansions: nat) {
    && Bounded(cfg)
    && Follows(cfg, fits, h) && expansions == Widenings(cfg, fits, h)
    && Widened(cfg, h, expansions)
    && Sampled(f, h) && Obeys(cfg, h)
    && !HasAnswer(cfg, h)
    && (h != [] ==> Hi(cfg, h).Some? || LoSoft(cfg, h).Some?)
    && (Bracketed(cfg, h) ==> !Narrow(cfg, LoSoft(cfg, h).value, Hi(cfg, h).value))
    && (|h| < 2 ==> expansions == 0)
  }

  lemma Advance(cfg: Config, f: real -> Outcome, fits: nat -> Fits, h: seq<Probe>, before: nat, after: nat)
    requires h != [] && OnRun(cfg, f, fits, Past(h), before) && Last(h).out == f(Last(h).x)
    requires Proposed(cfg, Past(h), fits(|h| - 1), before, after, Last(h).x)
    ensures Sampled(f, h) && Obeys(cfg, h) && Follows(cfg, fits, h) && after == Widenings(cfg, fits, h)
    ensures !HasAnswer(cfg, h) ==>
              && Widened(cfg, h, after)
              && (Hi(cfg, h).Some? || LoSoft(cfg, h).Some?)
              && (|h| < 2 ==> after == 0)
  {
    hide Narrow, StepLaw, Widened, Safeguarded, Candidate, Proposed, Widenings, Hi, LoSoft, HasAnswer, Obeys;
    LawfulProposal(cfg, Past(h), fits(|h| - 1), before, after, Last(h).x);
    WideningsStep(cfg, fits, h, after);
    ObeysStep(cfg, h);
    AnswerAdded(cfg, h);
    if !HasAnswer(cfg, h) {
      WideningStep(cfg, h, fits(|h| - 1), before, after);
      EndKnown(cfg, h);
      NoneYet(cfg, fits, h);
    }
  }

  lemma NoneYet(cfg: Config, fits: nat -> Fits, h: seq<Probe>)
    ensures |h| <= 2 ==> Widenings(cfg, fits, h) == 0
  {
  }

  lemma ObeysStep(cfg: Config, h: seq<Probe>)
    requires h != [] && Obeys(cfg, Past(h)) && StepLaw(cfg, Past(h), Last(h).x)
    ensures Obeys(cfg, h)
  {
  }

  lemma EndKnown(cfg: Config, h: seq<Probe>)
    requires h != [] && !Answer(cfg, Last(h).out)
    ensures Hi(cfg, h).Some? || LoSoft(cfg, h).Some?
  {
  }

  /** The point returned is one that was evaluated, with the observable reported for it. */
  lemma {:induction false} BestSampled(cfg: Config, f: real -> Outcome, h: seq<Probe>)
    requires Sampled(f, h)
    ensures BestOf(cfg, h).Some? ==>
              f(BestOf(cfg, h).value.0).obs == Some(BestOf(cfg, h).value.1) &&
              exists i :: 0 <= i < |h| && h[i].x == BestOf(cfg, h).value.0
  {
    if h != [] {
      var g := Past(h);
      assert forall i :: 0 <= i < |g| ==> g[i] == h[i];
      BestSampled(cfg, f, g);
      assert h[|h| - 1].out == f(h[|h| - 1].x);
      if BestOf(cfg, h).Some? && BestOf(cfg, h) == BestOf(cfg, g) {
        var i :| 0 <= i < |g| && g[i].x == BestOf(cfg, g).value.0;
        assert h[i].x == BestOf(cfg, h).value.0;
      }
    }
  }

  class ScalingRootFinder {
    const cfg: Config
    var xLoSoft: Option<real>
    var xLoHard: Option<real>
    var xHi: Option<real>
    var successes: seq<(real, real)>
    var failures: seq<(real, real)>
    var best: Option<(real, real)>
    var answerFound: bool
    var wPrev: Option<real>
    var wPrevPrev: Option<real>
    var probedHi: bool
    var probedLo: bool
    var expansions: nat
    ghost var probes: seq<Probe>

    ghost predicate Valid()
      reads `probes, `xLoSoft, `xLoHard, `xHi, `wPrev, `wPrevPrev, `successes, `failures, `best, `answerFound
    {
      && KnowsBracket(cfg, probes, xLoSoft, xLoHard, xHi, wPrev, wPrevPrev)
      && KnowsSamples(probes, successes, failures)
      && KnowsBest(cfg, probes, best, answerFound)
    }

    ghost predicate Seeded()
      reads `probes, `probedHi, `probedLo
    {
      probedHi == (|probes| >= 1) && probedLo == (|probes| >= 2)
    }

    constructor (cfg: Config)
      ensures this.cfg == cfg
    {
      this.cfg := cfg;
      xLoSoft, xLoHard, xHi := None, None, None;
      successes, failures := [], [];
      best, answerFound := None, false;
      wPrev, wPrevPrev := None, None;
      probedHi, probedLo, expansions := false, false, 0;
      probes := [];
    }

    /** File one probe: it joins the history, and every field is again what the history determines. */
    method Record(x: real, out: Outcome)
      requires Valid()
      modifies this
      ensures Valid() && probes == old(probes) + [Probe(x, out)]
      ensures unchanged(`probedHi, `probedLo, `expansions)
    {
      hide KnowsBracket, KnowsSamples, KnowsBest;
      RecordSample(x, out);
      RecordBest(x, out);
      RecordBracket(x, out);
      probes := probes + [Probe(x, out)];
    }

    method RecordBracket(x: real, out: Outcome)
      requires KnowsBracket(cfg, probes, xLoSoft, xLoHard, xHi, wPrev, wPrevPrev)
      modifies `xLoSoft, `xLoHard, `xHi, `wPrev, `wPrevPrev
      ensures KnowsBracket(cfg, probes + [Probe(x, out)], xLoSoft, xLoHard, xHi, wPrev, wPrevPrev)
    {
      ghost var h := probes + [Probe(x, out)];
      assert Past(h) == probes && Last(h) == Probe(x, out);
      if out.obs.Some? {
        if out.obs.value >= cfg.target {
          if xHi.None? || x < xHi.value {
            xHi := Some(x);
          }
        } else if !(cfg.acceptance == BelowTarget && cfg.target > 0.0) {
          if xLoSoft.None? || x > xLoSoft.value {
            xLoSoft := Some(x);
          }
        }
      } else {
        if xLoSoft.None? || x > xLoSoft.value {
          xLoSoft := Some(x);
        }
        if xLoHard.None? || x > xLoHard.value {
          xLoHard := Some(x);
        }
      }
      wPrevPrev := wPrev;
      wPrev := if xHi.Some? && xLoSoft.Some? then Some(xHi.value - xLoSoft.value) else None;
    }

    /** The samples the fits are made from: every finite evaluation, and every failure with a residual. */
    method RecordSample(x: real, out: Outcome)
      requires KnowsSamples(probes, successes, failures)
      modifies `successes, `failures
      ensures KnowsSamples(probes + [Probe(x, out)], successes, failures)
    {
      ghost var h := probes + [Probe(x, out)];
      assert Past(h) == probes && Last(h) == Probe(x, out);
      if out.obs.Some? {
        InsertAdds(successes, (x, out.obs.value));
        InsertSorts(successes, (x, out.obs.value));
        successes := Insert(successes, (x, out.obs.value));
      } else if out.residual.Some? {
        InsertAdds(failures, (x, out.residual.value));
        InsertSorts(failures, (x, out.residual.value));
        failures := Insert(failures, (x, out.residual.value));
      }
    }

    method RecordBest(x: real, out: Outcome)
      requires KnowsBest(cfg, probes, best, answerFound)
      modifies `best, `answerFound
      ensures KnowsBest(cfg, probes + [Probe(x, out)], best, answerFound)
    {
      ghost var h := probes + [Probe(x, out)];
      assert Past(h) == probes && Last(h) == Probe(x, out);
      AnswerAdded(cfg, h);
      if out.obs.Some? {
        var obs := out.obs.value;
        if obs >= cfg.target {
          var byMagnitude := cfg.oneSided || cfg.acceptance == BelowTarget;
          if best.None? || (if byMagnitude then obs < best.value.1
                            else Abs(obs - cfg.target) < Abs(best.value.1 - cfg.target)) {
            best := Some((x, obs));
          }
        } else if cfg.acceptance == BelowTarget && cfg.target > 0.0 {
          best := Some((x, obs));
          answerFound := true;
        } else if !cfg.oneSided && (best.None? || Abs(obs - cfg.target) < Abs(best.value.1 - cfg.target)) {
          best := Some((x, obs));
        }
      }
    }

    /** One end is open: jump across a fitted critical point, or widen blindly, as long as the budget allows. */
    method Widen(fit: Fits) returns (r: Option<real>)
      requires cfg.lo.Some? && cfg.hi.Some?
      requires xHi.None? ==> xLoSoft.Some?
      modifies `expansions
      ensures Widening(cfg, xLoSoft, xHi, fit, old(expansions), expansions, r)
    {
      hide Stride;
      if !cfg.hypotheses || expansions >= cfg.maxExpansions {
        return None;
      }
      if xHi.None? {
        if fit.divergent.Some? {
          var cand := fit.divergent.value.0 + fit.divergent.value.1;
          if cand > xLoSoft.value {
            return Some(cand);
          }
        }
        expansions := expansions + 1;
        return Some(xLoSoft.value + Stride(cfg, expansions));
      }
      expansions := expansions + 1;
      return Some(xHi.value - Stride(cfg, expansions));
    }

    /** Both ends are closed: containment, then stagnation, then the standoff. */
    method Safeguard(cand: Option<real>) returns (r: real)
      requires Valid() && xHi.Some? && xLoSoft.Some?
      ensures r == Safeguarded(cfg, probes, cand)
    {
      hide Margin, KnowsSamples, KnowsBest, Hi, LoSoft, LoHard;
      var lo, hi := xLoSoft.value, xHi.value;
      var w := hi - lo;
      if cand.None? || !(cand.value > lo && cand.value < hi) || (xLoHard.Some? && cand.value <= xLoHard.value) {
        return 0.5 * (lo + hi);
      }
      if wPrevPrev.Some? && w > 0.5 * wPrevPrev.value {
        return 0.5 * (lo + hi);
      }
      var margin := Margin(cfg, w);
      return Min(Max(cand.value, lo + margin), hi - margin);
    }

    /** The next point to probe: the two seeds first, then widening or the safeguarded candidate. */
    method Propose(fit: Fits) returns (r: Option<real>)
      requires Valid() && Seeded() && Bounded(cfg)
      requires |probes| >= 2 ==> xHi.Some? || xLoSoft.Some?
      modifies `probedHi, `probedLo, `expansions
      ensures Valid() && probedHi && (probedLo <==> |probes| >= 1)
      ensures r.Some? ==> Proposed(cfg, probes, fit, old(expansions), expansions, r.value)
      ensures r.None? <==> |probes| >= 2 && !Bracketed(cfg, probes) &&
                           (!cfg.hypotheses || old(expansions) >= cfg.maxExpansions)
      ensures r.None? ==> expansions == old(expansions)
    {
      hide Candidate, Safeguarded, Stride;
      if !probedHi {
        probedHi := true;
        return cfg.hi;
      }
      if !probedLo {
        probedLo := true;
        return cfg.lo;
      }
      if xHi.None? || xLoSoft.None? {
        r := Widen(fit);
      } else {
        var x := Safeguard(Candidate(cfg, xLoSoft.value, xHi.value, fit));
        r := Some(x);
      }
    }

    /** Every search starts afresh. */
    method Restart()
      modifies this
      ensures Valid() && Seeded() && probes == [] && expansions == 0
    {
      hide KnowsBracket, KnowsSamples, KnowsBest;
      NothingKnown(cfg);
      xLoSoft, xLoHard, xHi := None, None, None;
      successes, failures := [], [];
      best, answerFound := None, false;
      wPrev, wPrevPrev := None, None;
      probedHi, probedLo, expansions := false, false, 0;
      probes := [];
    }

    /**
     Search against the oracle f; fits(k) is whatever the fits look like after k probes. Everything said about
     the run is said about the complete history `probes` of it.
     */
    method Search(f: real -> Outcome, fits: nat -> Fits) returns (r: Result<real, SearchError>, stop: Stop)
      modifies this
      ensures cfg.lo.None? || cfg.hi.None? ==> r == Err(BoundsNotSet)
      ensures cfg.lo.Some? && cfg.hi.Some? && cfg.lo.value >= cfg.hi.value ==> r == Err(BoundsNotOrdered)
      ensures Bounded(cfg) && cfg.target < 0.0 ==> r == Err(NegativeTarget)
      ensures Bounded(cfg) && cfg.target >= 0.0 ==>
                && Valid() && IsRun(cfg, f, fits, probes) && |probes| <= cfg.maxIter
                && expansions == Widenings(cfg, fits, probes)
                && (!answerFound ==> Widened(cfg, probes, expansions))
                && (answerFound ==> probes != [] && Answer(cfg, Last(probes).out))
                && r == (if best.None? then Err(NoSuccess) else Ok(best.value.0))
                && (r.Ok? ==> f(r.value).obs == Some(best.value.1))
                && stop == EndOf(cfg, fits, probes)
                && (stop == Converged <==> answerFound || (probes != [] && Accepted(cfg, best, fits(|probes|))))
                && (stop == Collapsed <==> probes != [] && stop != Converged && Bracketed(cfg, probes) &&
                                           Narrow(cfg, LoSoft(cfg, probes).value, Hi(cfg, probes).value))
                && (stop == Stagnated <==> probes != [] && stop != Converged && stop != Collapsed && Levelled(probes))
                && (forall t: nat :: 0 < t < |probes| ==> !Levelled(probes[..t]))
                && (stop == NoProposal ==> |probes| >= 2 && !Bracketed(cfg, probes) &&
                                           (!cfg.hypotheses || expansions >= cfg.maxExpansions))
                && (stop == BudgetSpent ==> |probes| == cfg.maxIter)
    {
      stop := BudgetSpent;
      if cfg.lo.None? || cfg.hi.None? {
        return Err(BoundsNotSet), stop;
      }
      if !(cfg.lo.value < cfg.hi.value) {
        return Err(BoundsNotOrdered), stop;
      }
      if !(cfg.target >= 0.0) {
        return Err(NegativeTarget), stop;
      }
      Restart();
      NothingRun(f, fits);
      hide Narrow, Accepted, Flat, Widened, Obeys, HasAnswer, StopOf, EndOf, Samples, Follows, Widenings;
      hide KnowsBracket, KnowsSamples, Hi, LoSoft, BestOf, Levelled;
      stop := Run(f, fits);
      BestSampled(cfg, f, probes);
      EndMeans(cfg, fits, probes);
      NotLevelled(cfg, f, fits, probes);
      r := if best.None? then Err(NoSuccess) else Ok(best.value.0);
    }

    ghost predicate Running(f: real -> Outcome, fits: nat -> Fits)
      reads this
    {
      Valid() && Seeded() && OnRun(cfg, f, fits, probes, expansions)
    }

    lemma NothingRun(f: real -> Outcome, fits: nat -> Fits)
      requires Bounded(cfg) && Valid() && Seeded() && probes == [] && expansions == 0
      ensures Running(f, fits)
    {
    }

    /** One pass of the loop; Some(reason) ends the search. */
    method Step(f: real -> Outcome, fits: nat -> Fits, iter: nat) returns (stop: Option<Stop>)
      requires Running(f, fits) && iter == |probes|
      modifies this
      ensures Settled(f, fits, stop)
      ensures stop.None? ==> Running(f, fits)
      ensures if stop == Some(NoProposal) then probes == old(probes) else probes != [] && Past(probes) == old(probes)
    {
      hide Narrow, Accepted, Flat, Widened, Proposed, Obeys, Sampled, HasAnswer, Settled, Follows, Widenings;
      hide Hi, LoSoft, LoHard, BestOf, KnowsBest, KnowsSamples, MaybeWidth;
      var x := Propose(fits(iter));
      if x.None? {
        NothingProposed(f, fits);
        return Some(NoProposal);
      }
      stop := Settle(f, x.value, f(x.value), fits, iter, old(expansions));
    }

    lemma NothingProposed(f: real -> Outcome, fits: nat -> Fits)
      requires Valid() && OnRun(cfg, f, fits, probes, expansions) && |probes| >= 2 && !Bracketed(cfg, probes)
      requires !cfg.hypotheses || expansions >= cfg.maxExpansions
      ensures Settled(f, fits, Some(NoProposal))
    {
      hide Narrow, Accepted, Flat, Widened, Obeys, Sampled, KnowsSamples, KnowsBracket;
    }

    /** What is known once a pass of the loop is over: it ended the search exactly for the reasons given. */
    ghost predicate Settled(f: real -> Outcome, fits: nat -> Fits, stop: Option<Stop>)
      reads this
    {
      && Valid() && Sampled(f, probes) && Obeys(cfg, probes) && Follows(cfg, fits, probes)
      && expansions == Widenings(cfg, fits, probes)
      && (stop.Some? && !answerFound ==> Widened(cfg, probes, expansions))
      && (answerFound ==> probes != [] && Answer(cfg, Last(probes).out))
      && (if stop == Some(NoProposal)
          then |probes| >= 2 && !Bracketed(cfg, probes) && (!cfg.hypotheses || expansions >= cfg.maxExpansions)
          else stop == StopOf(cfg, probes, fits(|probes|)))
    }

    /** The part of a pass after the flow has been run: file the outcome, then try the reasons to stop. */
    method Settle(f: real -> Outcome, x: real, out: Outcome, fits: nat -> Fits, iter: nat, ghost e: nat)
      returns (stop: Option<Stop>)
      requires Valid() && OnRun(cfg, f, fits, probes, e) && iter == |probes| && out == f(x)
      requires Proposed(cfg, probes, fits(iter), e, expansions, x)
      requires probedHi && (probedLo <==> |probes| >= 1)
      modifies this
      ensures Settled(f, fits, stop)
      ensures stop.None? ==> Running(f, fits)
      ensures probes == old(probes) + [Probe(x, out)] && stop != Some(NoProposal)
    {
      hide Narrow, Accepted, Flat, Widened, Proposed, Obeys, Sampled, HasAnswer, Follows, Widenings;
      hide Hi, LoSoft, LoHard, BestOf, KnowsSamples, MaybeWidth, Samples;
      ghost var before := probes;
      Record(x, out);
      assert Past(probes) == before && Last(probes) == Probe(x, out);
      Advance(cfg, f, fits, probes, e, expansions);
      AnswerAdded(cfg, probes);
      SamplesKnown(probes, successes, failures);
      if answerFound || Accepted(cfg, best, fits(iter + 1)) {
        return Some(Converged);
      }
      if xHi.Some? && xLoSoft.Some? && Narrow(cfg, xLoSoft.value, xHi.value) {
        return Some(Collapsed);
      }
      if Flat(successes) {
        return Some(Stagnated);
      }
      return None;
    }

    method Run(f: real -> Outcome, fits: nat -> Fits) returns (stop: Stop)
      requires Running(f, fits) && probes == []
      modifies this
      ensures Valid() && IsRun(cfg, f, fits, probes) && |probes| <= cfg.maxIter
      ensures expansions == Widenings(cfg, fits, probes)
      ensures !answerFound ==> Widened(cfg, probes, expansions)
      ensures answerFound ==> probes != [] && Answer(cfg, Last(probes).out)
      ensures stop == EndOf(cfg, fits, probes)
      ensures stop == NoProposal ==> |probes| >= 2 && !Bracketed(cfg, probes) &&
                                     (!cfg.hypotheses || expansions >= cfg.maxExpansions)
    {
      hide Narrow, Accepted, Flat, StepLaw, Widened, Obeys, KnowsBracket, KnowsSamples, StopOf, Follows, Widenings;
      var iter := 0;
      while iter < cfg.maxIter
        invariant Running(f, fits) && iter == |probes| <= cfg.maxIter
        invariant WentOn(cfg, fits, probes) && (iter > 0 ==> StopOf(cfg, probes, fits(iter)) == None)
      {
        ghost var before := probes;
        var s := Step(f, fits, iter);
        if s != Some(NoProposal) {
          WentOnGrows(cfg, fits, probes);
        }
        if s.Some? {
          return s.value;
        }
        iter := iter + 1;
      }
      return BudgetSpent;
    }
  }
}
