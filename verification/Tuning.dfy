/**
 * Tuning the initial gluon mass of the Yang-Mills flow: a coarse search brackets the separatrix, the padded bracket
 * is handed to a search at full fidelity, and the output folder of the flow it returned is looked up. A flow is any
 * function of the quadrature orders and of u = m2A / Lambda^2; the fits of the finder are arbitrary.
 */
module Tuning {
  import opened Prelude
  import opened RootFinding
  import opened ProbingPolicy

  datatype Quadrature = Quadrature(x: nat, cos1: nat, cos2: nat, phi: nat)

  /** What running a flow yields: the values it wrote, and whether it claims to have met the target. */
  datatype Flow = Flow(out: Outcome, ok: bool)

  datatype Run = Run(orders: Quadrature, u: real)

  datatype Settings = Settings(zcTarget: real, relTol: real, uLower: real, uUpper: real, lambda2: real)

  const SHIFT: real := 0.03

  datatype StageResult = StageResult(uStar: real, uc: Option<real>, uDiv: Option<real>, uOk: Option<real>,
                                     converged: bool, flows: nat)

  datatype Tuned = Tuned(m2A: real, u: real, converged: bool, flows: nat, output: Run)

  function MaxNat(a: nat, b: nat): nat {
    if a < b then b else a
  }

  /** All orders halved, but not below the smallest usable ones. */
  function Reduced(q: Quadrature): Quadrature {
    Quadrature(MaxNat(4, q.x / 2), MaxNat(2, q.cos1 / 2), MaxNat(2, q.cos2 / 2), MaxNat(2, q.phi / 2))
  }

  function PreTarget(zcTarget: real): real {
    if zcTarget > 0.0 then Min(30.0 * zcTarget, 0.5) else zcTarget
  }

  function StageConfig(s: Settings, lo: real, hi: real, target: real): Config {
    Config(target, s.relTol, 40, Some(lo), Some(hi), true, 2.0, 24, true,
           if target > 0.0 then BelowTarget else AtTarget, 1e-13, 0.02, 0.1)
  }

  /** The bracket tracked by the caller is already finer than the caller can use. */
  predicate Resolved(floor: real, uDiv: Option<real>, uOk: Option<real>) {
    && floor > 0.0 && uDiv.Some? && uOk.Some?
    && var mid := 0.5 * (uDiv.value + uOk.value);
       Abs(mid) > 0.0 && uOk.value - uDiv.value <= floor * Abs(mid)
  }

  // ----- what a stage finds -----

  lemma ResolvedProbed(cfg: Config, h: seq<Probe>, floor: real, uDiv: Option<real>, uOk: Option<real>)
    requires Tracks(cfg, h, uDiv, uOk) && Resolved(floor, uDiv, uOk)
    ensures h != []
  {
  }

  /** The finder only stops proposing while its bracket is open, and then the caller's is open, too. */
  lemma OpenIsUnresolved(cfg: Config, h: seq<Probe>, floor: real, uDiv: Option<real>, uOk: Option<real>)
    requires Tracks(cfg, h, uDiv, uOk) && !Bracketed(cfg, h)
    ensures !Resolved(floor, uDiv, uOk)
  {
    if Resolved(floor, uDiv, uOk) {
      HardBelowSoft(cfg, h);
    }
  }

  lemma ResolvedBoth(floor: real, uDiv: Option<real>, uOk: Option<real>)
    requires Resolved(floor, uDiv, uOk)
    ensures uDiv.Some? && uOk.Some?
  {
  }

  /** The caller's own bracket is the finder's hard one. */
  predicate Tracks(cfg: Config, h: seq<Probe>, uDiv: Option<real>, uOk: Option<real>) {
    uDiv == LoHard(h) && uOk == Hi(cfg, h)
  }

  method Track(cfg: Config, ghost h: seq<Probe>, p: Probe, uDiv: Option<real>, uOk: Option<real>)
    returns (div: Option<real>, good: Option<real>)
    requires Tracks(cfg, h, uDiv, uOk)
    ensures Tracks(cfg, h + [p], div, good)
  {
    div, good := uDiv, uOk;
    assert Past(h + [p]) == h && Last(h + [p]) == p;
    if p.out.obs.None? {
      div := if uDiv.None? then Some(p.x) else Some(Max(uDiv.value, p.x));
    } else if p.out.obs.value >= cfg.target {
      good := if uOk.None? then Some(p.x) else Some(Min(uOk.value, p.x));
    }
  }

  /** No callback but the last could have ended the search on a bracket that is fine enough. */
  ghost predicate Unresolved(cfg: Config, floor: real, h: seq<Probe>) {
    forall t: nat :: t < |h| ==> !Resolved(floor, LoHard(h[..t]), Hi(cfg, h[..t]))
  }

  lemma UnresolvedGrows(cfg: Config, floor: real, h: seq<Probe>)
    requires h != [] && Unresolved(cfg, floor, Past(h)) && !Resolved(floor, LoHard(Past(h)), Hi(cfg, Past(h)))
    ensures Unresolved(cfg, floor, h)
  {
    hide Resolved, LoHard, Hi;
    forall t: nat | t < |h|
      ensures !Resolved(floor, LoHard(h[..t]), Hi(cfg, h[..t]))
    {
      assert h[..t] == Past(h)[..t];
    }
  }

  /** The history of a stage: a run of the finder, which the callback did not end before. */
  ghost predicate StageRun(cfg: Config, f: real -> Outcome, fits: nat -> Fits, floor: real, h: seq<Probe>) {
    IsRun(cfg, f, fits, h) && Unresolved(cfg, floor, h)
  }

  /** The callback ends the search after this history: the finder would have taken another probe. */
  predicate Aborted(cfg: Config, fits: nat -> Fits, floor: real, h: seq<Probe>) {
    EndOf(cfg, fits, h) == NoProposal && Resolved(floor, LoHard(h), Hi(cfg, h))
  }

  /** How the passes ended: with the reason of the finder, with no proposal, for the callback, or out of budget. */
  ghost predicate Ended(cfg: Config, fits: nat -> Fits, floor: real, h: seq<Probe>, stop: Option<Stop>, resolved: bool,
                        uDiv: Option<real>, uOk: Option<real>)
  {
    && h != []
    && (if stop.Some? && stop != Some(NoProposal) then stop == StopOf(cfg, h, fits(|h|))
        else StopOf(cfg, h, fits(|h|)) == None)
    && (stop == Some(NoProposal) ==>
          && |h| < cfg.maxIter && !Resolved(floor, uDiv, uOk) && |h| >= 2 && !Bracketed(cfg, h)
          && (!cfg.hypotheses || Widenings(cfg, fits, h) >= cfg.maxExpansions))
    && (resolved ==> stop.None? && |h| < cfg.maxIter && Resolved(floor, uDiv, uOk))
    && (stop.None? && !resolved ==> |h| >= cfg.maxIter)
  }

  /** The last pass of a stage says how it ended. */
  lemma PassEnds(cfg: Config, fits: nat -> Fits, floor: real, h: seq<Probe>, stop: Option<Stop>)
    requires h != []
    requires if stop == Some(NoProposal) || stop.None? then StopOf(cfg, h, fits(|h|)) == None
             else stop == StopOf(cfg, h, fits(|h|))
    ensures stop.Some? && stop != Some(NoProposal) ==> stop.value == EndOf(cfg, fits, h)
    ensures stop == Some(NoProposal) && |h| < cfg.maxIter ==> stop.value == EndOf(cfg, fits, h)
    ensures stop.None? && |h| >= cfg.maxIter ==> EndOf(cfg, fits, h) == BudgetSpent
    ensures stop.None? && |h| < cfg.maxIter ==> EndOf(cfg, fits, h) == NoProposal
    ensures stop != Some(NoProposal) && (stop.Some? || |h| >= cfg.maxIter) ==> !Aborted(cfg, fits, floor, h)
  {
  }

  /** What a stage with this history returns, or None if it throws. */
  function StageOf(cfg: Config, fits: nat -> Fits, floor: real, h: seq<Probe>): Option<StageResult> {
    var uc := XCritical(fits(|h|));
    if Aborted(cfg, fits, floor, h) then
      assert Hi(cfg, h).Some?;
      Some(StageResult(Hi(cfg, h).value, uc, LoHard(h), Hi(cfg, h), true, |h|))
    else if BestOf(cfg, h).None? then None
    else Some(StageResult(BestOf(cfg, h).value.0, uc, LoHard(h), Hi(cfg, h), EndOf(cfg, fits, h) == Converged, |h|))
  }

  predicate Reports(cfg: Config, fits: nat -> Fits, floor: real, h: seq<Probe>, r: Result<StageResult, SearchError>) {
    r == if StageOf(cfg, fits, floor, h).Some? then Ok(StageOf(cfg, fits, floor, h).value) else Err(NoSuccess)
  }

  /** One more probe: neither the tests of the finder nor the callback have ended the search before it. */
  lemma StageGrows(cfg: Config, f: real -> Outcome, fits: nat -> Fits, floor: real, before: seq<Probe>,
                   after: seq<Probe>)
    requires StageRun(cfg, f, fits, floor, before) && after != [] && Past(after) == before
    requires !Resolved(floor, LoHard(before), Hi(cfg, before)) && Obeys(cfg, after) && Sampled(f, after)
    requires Follows(cfg, fits, after)
    requires before != [] ==> StopOf(cfg, before, fits(|before|)) == None
    ensures StageRun(cfg, f, fits, floor, after)
  {
    hide Obeys, Sampled, Follows, StopOf, Resolved, LoHard, Hi;
    UnresolvedGrows(cfg, floor, after);
    WentOnGrows(cfg, fits, after);
  }

  /** What one search over the oracle f has found, h being its whole history. */
  ghost predicate Found(cfg: Config, f: real -> Outcome, floor: real, h: seq<Probe>, r: StageResult) {
    && Tracks(cfg, h, r.uDiv, r.uOk) && r.flows == |h|
    && (exists i :: 0 <= i < |h| && h[i].x == r.uStar)
    && f(r.uStar).obs.Some?
    && (r.converged && cfg.target > 0.0 && !Resolved(floor, r.uDiv, r.uOk)
        ==> f(r.uStar).obs.value < cfg.target && h != [] && Last(h).x == r.uStar)
  }

  /** What a stage returns was probed: at or above the target when it was ended early, and else the best probe. */
  lemma StageFound(cfg: Config, f: real -> Outcome, fits: nat -> Fits, floor: real, h: seq<Probe>)
    requires StageRun(cfg, f, fits, floor, h) && StageOf(cfg, fits, floor, h).Some?
    requires cfg.target > 0.0 ==> cfg.acceptance.BelowTarget?
    ensures Found(cfg, f, floor, h, StageOf(cfg, fits, floor, h).value)
  {
    hide Flat, Narrow, StepLaw, Resolved;
    if Aborted(cfg, fits, floor, h) {
      ResolvedBoth(floor, LoHard(h), Hi(cfg, h));
      UpperProbed(cfg, f, h);
    } else {
      BestSampled(cfg, f, h);
      if EndOf(cfg, fits, h) == Converged && cfg.target > 0.0 {
        AnswerIsBest(cfg, f, fits, h);
      }
    }
  }

  lemma UpperProbed(cfg: Config, f: real -> Outcome, h: seq<Probe>)
    requires Sampled(f, h) && Hi(cfg, h).Some?
    ensures f(Hi(cfg, h).value).obs.Some? && exists i :: 0 <= i < |h| && h[i].x == Hi(cfg, h).value
  {
    BracketMeaning(cfg, h);
    var i :| i in AboveIndices(cfg, h) && 0 <= i < |h| && h[i].x == Hi(cfg, h).value;
    assert h[i].out == f(h[i].x);
  }

  /** An answer ends the run, so it is the last probe, and the best one. */
  lemma AnswerIsBest(cfg: Config, f: real -> Outcome, fits: nat -> Fits, h: seq<Probe>)
    requires IsRun(cfg, f, fits, h) && EndOf(cfg, fits, h) == Converged
    requires cfg.target > 0.0 && cfg.acceptance.BelowTarget?
    ensures h != [] && Answer(cfg, Last(h).out) && BestOf(cfg, h) == Some((Last(h).x, Last(h).out.obs.value))
    ensures f(Last(h).x) == Last(h).out
  {
    hide Flat, Narrow, StepLaw;
    RunBefore(cfg, f, fits, h);
    AnswerAdded(cfg, h);
    assert Past(h) == [] ==> !HasAnswer(cfg, Past(h));
  }

  // ----- a stage that finds nothing -----

  /** The search stopped by itself only because its bracket stayed open and it had widened as often as it may. */
  predicate Complete(cfg: Config, fits: nat -> Fits, floor: real, h: seq<Probe>) {
    EndOf(cfg, fits, h) == NoProposal && !Aborted(cfg, fits, floor, h) ==>
      |h| >= 2 && !Bracketed(cfg, h) && (!cfg.hypotheses || Widenings(cfg, fits, h) >= cfg.maxExpansions)
  }

  /**
   Every flow has failed: 40 of them, or as far as 24 doublings reach beyond the upper bound. Without fits of the
   failures that takes the two bounds and the 24 doublings.
   */
  ghost predicate Exhausted(fits: nat -> Fits, lo: real, hi: real, h: seq<Probe>) {
    && (forall i :: 0 <= i < |h| ==> Failed(h[i].out))
    && (|h| == 40 || (|h| >= 26 && exists i :: 0 <= i < |h| && h[i].x >= hi + 33554430.0 * (hi - lo)))
    && ((forall k :: fits(k).divergent.None?) ==> |h| == 26)
  }

  lemma {:induction false} AllFailedOpen(cfg: Config, h: seq<Probe>)
    requires forall i :: 0 <= i < |h| ==> Failed(h[i].out)
    ensures Hi(cfg, h).None? && !HasAnswer(cfg, h) && BestOf(cfg, h).None? && Samples(h) == []
    ensures h != [] ==> LoSoft(cfg, h).Some?
  {
    if h != [] {
      assert forall i :: 0 <= i < |Past(h)| ==> Past(h)[i] == h[i];
      AllFailedOpen(cfg, Past(h));
      assert Failed(h[|h| - 1].out);
    }
  }

  /** While every probe fails, each widening moves the lower end on by its stride. */
  lemma {:induction false} FailuresReach(cfg: Config, fits: nat -> Fits, h: seq<Probe>)
    requires Sane(cfg) && Follows(cfg, fits, h) && |h| >= 2 && forall i :: 0 <= i < |h| ==> Failed(h[i].out)
    ensures LoSoft(cfg, h).Some? && LoSoft(cfg, h).value >= cfg.hi.value + Reach(cfg, Widenings(cfg, fits, h))
    ensures Widenings(cfg, fits, h) <= cfg.maxExpansions
  {
    var g := Past(h);
    assert forall i :: 0 <= i < |g| ==> g[i] == h[i];
    AllFailedOpen(cfg, g);
    AllFailedOpen(cfg, h);
    assert Failed(h[|h| - 1].out);
    hide Stride;
    if |h| == 2 {
      assert Past(g) == [] && LoSoft(cfg, []) == None;
      assert Follows(cfg, fits, g) && Failed(h[0].out) && Last(g) == h[0];
    } else {
      FailuresReach(cfg, fits, g);
      StridePositive(cfg, Widenings(cfg, fits, h));
      assert Reach(cfg, Widenings(cfg, fits, g) + 1)
             == Reach(cfg, Widenings(cfg, fits, g)) + Stride(cfg, Widenings(cfg, fits, g) + 1);
    }
  }

  lemma {:induction false} PowerSum(base: real, m: nat, n: nat)
    ensures Power(base, m + n) == Power(base, m) * Power(base, n)
  {
    if n > 0 {
      PowerSum(base, m, n - 1);
      assert Power(base, m + n) == base * Power(base, m + (n - 1));
    }
  }

  lemma TwentyFourDoublings()
    ensures Power(2.0, 24) == 16777216.0
  {
    assert Power(2.0, 3) == 2.0 * Power(2.0, 2) == 4.0 * Power(2.0, 1) == 8.0 * Power(2.0, 0);
    PowerSum(2.0, 3, 3);
    PowerSum(2.0, 6, 6);
    PowerSum(2.0, 12, 12);
  }

  lemma FarthestFailure(cfg: Config, h: seq<Probe>)
    requires LoSoft(cfg, h).Some?
    ensures exists i :: 0 <= i < |h| && h[i].x == LoSoft(cfg, h).value
  {
    BracketMeaning(cfg, h);
  }

  /** Failures alone give the finder no reason to stop, and the callback no bracket. */
  lemma FailuresGoOn(cfg: Config, fits: nat -> Fits, floor: real, h: seq<Probe>)
    requires cfg.target > 0.0 && cfg.acceptance.BelowTarget? && forall i :: 0 <= i < |h| ==> Failed(h[i].out)
    ensures !Bracketed(cfg, h) && !Aborted(cfg, fits, floor, h)
    ensures EndOf(cfg, fits, h) == if |h| < cfg.maxIter then NoProposal else BudgetSpent
  {
    AllFailedOpen(cfg, h);
    assert !Flat(Samples(h));
    hide Flat, HasAnswer, Samples, Hi, BestOf, LoHard;
  }

  lemma AllFailed(cfg: Config, h: seq<Probe>)
    requires cfg.oneSided && cfg.target > 0.0 && cfg.acceptance.BelowTarget? && BestOf(cfg, h).None?
    ensures forall i :: 0 <= i < |h| ==> Failed(h[i].out)
  {
    NothingEligible(cfg, h);
  }

  /** Without divergent fits there are as many widenings as probes beyond the two bounds. */
  lemma FailuresBlind(cfg: Config, fits: nat -> Fits, h: seq<Probe>)
    requires Follows(cfg, fits, h) && |h| >= 2 && (forall k :: fits(k).divergent.None?)
    requires forall i :: 0 <= i < |h| ==> Failed(h[i].out)
    ensures Widenings(cfg, fits, h) == |h| - 2
  {
    hide Follows;
    forall t: nat | t < |h|
      ensures !Bracketed(cfg, h[..t])
    {
      AllFailedOpen(cfg, h[..t]);
    }
    AllBlind(cfg, fits, h);
  }

  /** A stage with a positive target that finds nothing is exhausted. */
  lemma NothingFound(s: Settings, f: real -> Outcome, fits: nat -> Fits, floor: real, lo: real, hi: real, target: real,
                     h: seq<Probe>)
    requires lo < hi && target > 0.0
    requires var cfg := StageConfig(s, lo, hi, target);
             && StageRun(cfg, f, fits, floor, h) && Complete(cfg, fits, floor, h) && |h| <= cfg.maxIter
             && StageOf(cfg, fits, floor, h).None?
    ensures Exhausted(fits, lo, hi, h)
  {
    var cfg := StageConfig(s, lo, hi, target);
    hide StopOf, Obeys, WentOn, Unresolved, Sampled, HasAnswer, Aborted, EndOf, Follows, Widenings, Hi, LoSoft, BestOf;
    AllFailed(cfg, h);
    FailuresGoOn(cfg, fits, floor, h);
    FailuresReach(cfg, fits, h);
    FarthestFailure(cfg, h);
    NoMoreThanProbes(cfg, fits, h);
    DoublingReach(cfg, 24);
    TwentyFourDoublings();
    if forall k :: fits(k).divergent.None? {
      FailuresBlind(cfg, fits, h);
    }
  }

  /** So the separatrix lies above everything that was reached. */
  lemma ExhaustedBelow(f: real -> Outcome, fits: nat -> Fits, lo: real, hi: real, h: seq<Probe>, c: real)
    requires Exhausted(fits, lo, hi, h) && |h| < 40 && Sampled(f, h) && Separates(f, c)
    ensures c >= hi + 33554430.0 * (hi - lo)
  {
    var i :| 0 <= i < |h| && h[i].x >= hi + 33554430.0 * (hi - lo);
    assert Failed(h[i].out) && h[i].out == f(h[i].x);
  }

  // ----- the handover between the stages -----

  predicate HasBracket(pre: StageResult) {
    pre.uDiv.Some? && pre.uOk.Some?
  }

  function Handover(pre: StageResult, lo: real, hi: real): (real, real) {
    if !pre.converged then (lo, hi)
    else
      var centre := if pre.uc.Some? then pre.uc.value else pre.uStar;
      var scale := if HasBracket(pre) then Max(Abs(pre.uDiv.value), Abs(pre.uOk.value)) else Abs(centre);
      var pad := SHIFT * scale;
      ((if HasBracket(pre) then pre.uDiv.value else centre) - pad,
       (if HasBracket(pre) then pre.uOk.value else centre) + pad)
  }

  /** Flows run away below c and reach the infrared above it. */
  ghost predicate Separates(f: real -> Outcome, c: real) {
    forall u :: (u < c ==> Failed(f(u))) && (u > c ==> !Failed(f(u)))
  }

  ghost predicate ShiftedAtMost(coarse: real, full: real) {
    Abs(full - coarse) <= 0.03 * Abs(coarse)
  }

  /** The caller's bracket: the greatest failed probe and the least one at or above the target. */
  lemma {:induction false} BracketHoldsSeparatrix(cfg: Config, f: real -> Outcome, c: real, h: seq<Probe>)
    requires Sampled(f, h) && Separates(f, c)
    ensures LoHard(h).Some? ==> LoHard(h).value <= c
    ensures Hi(cfg, h).Some? ==> c <= Hi(cfg, h).value
  {
    BracketMeaning(cfg, h);
  }

  lemma PadCovers(div: real, good: real, coarse: real, full: real)
    requires div <= coarse <= good && ShiftedAtMost(coarse, full)
    ensures div - SHIFT * Max(Abs(div), Abs(good)) <= full <= good + SHIFT * Max(Abs(div), Abs(good))
  {
  }

  /** A bracketed coarse stage hands over an interval with the separatrix of the full fidelity in it. */
  lemma HandoverContains(cfg: Config, f: real -> Outcome, h: seq<Probe>, pre: StageResult, lo: real, hi: real,
                         coarse: real, full: real)
    requires Sampled(f, h) && Separates(f, coarse) && ShiftedAtMost(coarse, full)
    requires pre.uDiv == LoHard(h) && pre.uOk == Hi(cfg, h) && pre.converged && HasBracket(pre)
    ensures Handover(pre, lo, hi).0 <= full <= Handover(pre, lo, hi).1
  {
    BracketHoldsSeparatrix(cfg, f, coarse, h);
    PadCovers(pre.uDiv.value, pre.uOk.value, coarse, full);
  }

  /** Without a bracket the interval around the centre contains it exactly when the centre is within the pad. */
  lemma UnbracketedHandover(pre: StageResult, lo: real, hi: real, full: real)
    requires pre.converged && !HasBracket(pre)
    ensures var centre := if pre.uc.Some? then pre.uc.value else pre.uStar;
            Handover(pre, lo, hi).0 <= full <= Handover(pre, lo, hi).1 <==> ShiftedAtMost(centre, full)
  {
  }

  ghost function Cliff(c: real, obs: real): real -> Outcome {
    u => Outcome(if u < c then None else Some(obs), None)
  }

  /**
   A coarse stage that is answered by its very first probe brackets nothing: however far below that probe the
   separatrix is, and even if it does not shift at all, the interval handed over misses it.
   */
  lemma HandoverMisses(s: Settings, lo: real, hi: real, c: real) returns (h: seq<Probe>, pre: StageResult)
    requires s.zcTarget > 0.0 && lo < hi && c < hi - SHIFT * Abs(hi)
    ensures var cfg := StageConfig(s, lo, hi, PreTarget(s.zcTarget));
            var f := Cliff(c, 0.5 * cfg.target);
            && Separates(f, c) && StageRun(cfg, f, _ => NOFITS, SHIFT, h)
            && EndOf(cfg, _ => NOFITS, h) == Converged && StageOf(cfg, _ => NOFITS, SHIFT, h) == Some(pre)
            && Found(cfg, f, SHIFT, h, pre) && f(pre.uStar).obs == Some(0.5 * cfg.target)
            && c < Handover(pre, lo, hi).0
  {
    var cfg := StageConfig(s, lo, hi, PreTarget(s.zcTarget));
    var out := Outcome(Some(0.5 * cfg.target), None);
    h := [Probe(hi, out)];
    pre := StageResult(hi, None, None, None, true, 1);
    assert Past(h) == [] && Last(h) == h[0] && h[..0] == [];
    assert Obeys(cfg, []) && StepLaw(cfg, [], hi) && Follows(cfg, _ => NOFITS, []);
    assert Answer(cfg, h[0].out);
    assert Hi(cfg, []) == None && LoHard([]) == None && BestOf(cfg, []) == None;
  }

  // ----- folders -----

  ghost predicate Finite(model: (Quadrature, real) -> Flow, run: Run) {
    model(run.orders, run.u).out.obs.Some?
  }

  /** The last run whose output went to this folder. */
  ghost function LastNamed(runs: seq<Run>, folder: real -> string, name: string): Option<Run> {
    if runs == [] then None
    else if folder(runs[|runs| - 1].u) == name then Some(runs[|runs| - 1])
    else LastNamed(runs[..|runs| - 1], folder, name)
  }

  /** With one folder per point, that is a run of the point itself. */
  lemma {:induction false} LastNamedIsOwn(runs: seq<Run>, folder: real -> string, u: real, k: nat)
    requires k < |runs| && runs[k].u == u
    requires forall j :: 0 <= j < |runs| && folder(runs[j].u) == folder(u) ==> runs[j].u == u
    ensures LastNamed(runs, folder, folder(u)).Some? && LastNamed(runs, folder, folder(u)).value.u == u
    ensures exists j :: k <= j < |runs| && runs[j] == LastNamed(runs, folder, folder(u)).value
  {
    var n := |runs| - 1;
    if folder(runs[n].u) == folder(u) {
      assert runs[n] == LastNamed(runs, folder, folder(u)).value;
    } else {
      var before := runs[..n];
      LastNamedIsOwn(before, folder, u, k);
      var j :| k <= j < |before| && before[j] == LastNamed(before, folder, folder(u)).value;
      assert runs[j] == LastNamed(runs, folder, folder(u)).value;
    }
  }

  lemma LastIsOwn(runs: seq<Run>, folder: real -> string)
    requires runs != []
    ensures LastNamed(runs, folder, folder(runs[|runs| - 1].u)) == Some(runs[|runs| - 1])
  {
  }

  ghost function RunsOf(orders: Quadrature, h: seq<Probe>): seq<Run> {
    seq(|h|, i requires 0 <= i < |h| => Run(orders, h[i].x))
  }

  function Oracle(model: (Quadrature, real) -> Flow, orders: Quadrature): real -> Outcome {
    u => model(orders, u).out
  }

  /** The interval is the handover of the coarse stage with this history. */
  ghost predicate HandedOver(s: Settings, model: (Quadrature, real) -> Flow, coarse: Quadrature, lo: real, hi: real,
                             fits: nat -> Fits, h: seq<Probe>, bounds: (real, real))
  {
    var cfg := StageConfig(s, lo, hi, PreTarget(s.zcTarget));
    && StageRun(cfg, Oracle(model, coarse), fits, SHIFT, h)
    && StageOf(cfg, fits, SHIFT, h).Some?
    && bounds == Handover(StageOf(cfg, fits, SHIFT, h).value, lo, hi)
  }

  /**
   Whenever the coarse stage probed both sides of its separatrix and the full fidelity shifts it by no more than the
   pad, the interval handed on contains the new one; the only other outcome is the interval the stage started from.
   */
  lemma HandedOverContains(s: Settings, model: (Quadrature, real) -> Flow, orders: Quadrature, lo: real, hi: real,
                           fits: nat -> Fits, h: seq<Probe>, bounds: (real, real), coarse: real, full: real)
    requires HandedOver(s, model, Reduced(orders), lo, hi, fits, h, bounds)
    requires Separates(Oracle(model, Reduced(orders)), coarse) && ShiftedAtMost(coarse, full)
    requires LoHard(h).Some? && Hi(StageConfig(s, lo, hi, PreTarget(s.zcTarget)), h).Some?
    ensures bounds == (lo, hi) || bounds.0 <= full <= bounds.1
  {
    hide Obeys, WentOn, Unresolved, Separates, Sampled, Resolved;
    var cfg := StageConfig(s, lo, hi, PreTarget(s.zcTarget));
    var pre := StageOf(cfg, fits, SHIFT, h).value;
    if pre.converged {
      HandoverContains(cfg, Oracle(model, Reduced(orders)), h, pre, lo, hi, coarse, full);
    }
  }

  lemma {:induction false} NothingEligible(cfg: Config, h: seq<Probe>)
    requires cfg.oneSided && BestOf(cfg, h).None?
    ensures forall i :: 0 <= i < |h| ==> !AtOrAbove(cfg, h[i].out) && !Answer(cfg, h[i].out)
  {
    if h != [] {
      NothingEligible(cfg, Past(h));
      forall i | 0 <= i < |h|
        ensures !AtOrAbove(cfg, h[i].out) && !Answer(cfg, h[i].out)
      {
        if i < |h| - 1 {
          assert Past(h)[i] == h[i];
        }
      }
    }
  }

  // ----- the tuner -----

  class Tuner {
    const settings: Settings
    const model: (Quadrature, real) -> Flow
    /** The folder name of a point: its m2A to twelve digits. */
    const folder: real -> string
    var orders: Quadrature
    var successFolders: map<real, string>
    /** What each folder holds. */
    var disk: map<string, Run>
    ghost var runs: seq<Run>

    ghost predicate Valid()
      reads this
    {
      && (forall name :: LastNamed(runs, folder, name) == if name in disk then Some(disk[name]) else None)
      && (forall i :: 0 <= i < |runs| && Finite(model, runs[i]) ==> runs[i].u in successFolders)
      && (forall u :: u in successFolders ==> successFolders[u] == folder(u) && folder(u) in disk)
    }

    constructor (settings: Settings, model: (Quadrature, real) -> Flow, folder: real -> string, orders: Quadrature)
      ensures Valid() && runs == [] && this.orders == orders
      ensures this.settings == settings && this.model == model && this.folder == folder
    {
      this.settings, this.model, this.folder, this.orders := settings, model, folder, orders;
      successFolders := map[];
      disk := map[];
      runs := [];
    }

    method RunAt(u: real) returns (out: Outcome)
      requires Valid()
      modifies `successFolders, `disk, `runs
      ensures Valid() && runs == old(runs) + [Run(orders, u)]
      ensures out == model(orders, u).out
    {
      var flow := model(orders, u);
      ghost var before := runs;
      disk := disk[folder(u) := Run(orders, u)];
      if flow.ok || flow.out.obs.Some? {
        successFolders := successFolders[u := folder(u)];
      }
      runs := runs + [Run(orders, u)];
      assert runs[..|runs| - 1] == before;
      out := flow.out;
    }

    /** One pass of the search, with the callback that may end it before another flow is run. */
    method Pass(search: ScalingRootFinder, fits: nat -> Fits, iter: nat, floor: real,
                uDiv: Option<real>, uOk: Option<real>)
      returns (stop: Option<Stop>, resolved: bool, div: Option<real>, good: Option<real>)
      requires Valid() && search.Running(Oracle(model, orders), fits) && iter == |search.probes|
      requires Tracks(search.cfg, search.probes, uDiv, uOk)
      modifies search, `successFolders, `disk, `runs
      ensures Valid() && search.Valid()
      ensures Tracks(search.cfg, search.probes, div, good)
      ensures resolved <==> Resolved(floor, uDiv, uOk)
      ensures resolved ==> stop.None? && div == uDiv && good == uOk
      ensures resolved || stop == Some(NoProposal) ==> search.probes == old(search.probes) && runs == old(runs)
      ensures !resolved ==> search.Settled(Oracle(model, orders), fits, stop)
      ensures !resolved && stop.None? ==> search.Running(Oracle(model, orders), fits)
      ensures !resolved && stop != Some(NoProposal) ==>
                exists p :: search.probes == old(search.probes) + [p] && runs == old(runs) + [Run(orders, p.x)]
    {
      hide Narrow, Accepted, Flat, Widened, Proposed, Obeys, Sampled, HasAnswer, Resolved, LastNamed, Tracks;
      hide Hi, LoSoft, LoHard, BestOf, KnowsBest, KnowsSamples, MaybeWidth;
      ghost var e := search.expansions;
      div, good, resolved, stop := uDiv, uOk, false, None;
      var x := search.Propose(fits(iter));
      if x.None? {
        search.NothingProposed(Oracle(model, orders), fits);
        OpenIsUnresolved(search.cfg, search.probes, floor, uDiv, uOk);
        stop := Some(NoProposal);
      } else if Resolved(floor, uDiv, uOk) {
        resolved := true;
      } else {
        var out := RunAt(x.value);
        div, good := Track(search.cfg, search.probes, Probe(x.value, out), uDiv, uOk);
        stop := search.Settle(Oracle(model, orders), x.value, out, fits, iter, e);
      }
    }

    /** All passes of a search, up to a reason to stop, a bracket that is fine enough, or the end of the budget. */
    method PassAll(search: ScalingRootFinder, fits: nat -> Fits, floor: real)
      returns (iter: nat, stop: Option<Stop>, resolved: bool, uDiv: Option<real>, uOk: Option<real>)
      requires Valid() && search.Running(Oracle(model, orders), fits) && search.probes == [] && search.cfg.maxIter > 0
      modifies search, `successFolders, `disk, `runs
      ensures Valid() && runs == old(runs) + RunsOf(orders, search.probes)
      ensures search.Valid() && StageRun(search.cfg, Oracle(model, orders), fits, floor, search.probes)
      ensures Tracks(search.cfg, search.probes, uDiv, uOk)
      ensures 0 < iter == |search.probes| <= search.cfg.maxIter
      ensures Ended(search.cfg, fits, floor, search.probes, stop, resolved, uDiv, uOk)
    {
      hide Narrow, Accepted, Flat, Widened, Resolved, LastNamed, Hi, LoSoft, LoHard, BestOf, Obeys, Sampled;
      hide Oracle, KnowsBracket, KnowsSamples, HasAnswer, StopOf, Follows, Widenings, StageRun;
      var cfg := search.cfg;
      NothingTracked(cfg, Oracle(model, orders), fits, floor);
      uDiv, uOk, iter, stop, resolved := None, None, 0, None, false;
      while iter < cfg.maxIter && stop.None? && !resolved
        invariant search.cfg == cfg && iter == |search.probes| <= cfg.maxIter && search.Valid()
        invariant Valid() && runs == old(runs) + RunsOf(orders, search.probes)
        invariant Tracks(cfg, search.probes, uDiv, uOk)
        invariant StageRun(cfg, Oracle(model, orders), fits, floor, search.probes)
        invariant stop.None? && !resolved ==> search.Running(Oracle(model, orders), fits)
        invariant iter == 0 ==> stop.None? && !resolved
        invariant iter > 0 && stop.None? && !resolved ==> StopOf(cfg, search.probes, fits(iter)) == None
        invariant stop.Some? || resolved ==> Ended(cfg, fits, floor, search.probes, stop, resolved, uDiv, uOk)
        decreases cfg.maxIter - iter, if stop.None? && !resolved then 1 else 0
      {
        ghost var h := search.probes;
        stop, resolved, uDiv, uOk := Pass(search, fits, iter, floor, uDiv, uOk);
        if search.probes != h {
          StageGrows(cfg, Oracle(model, orders), fits, floor, h, search.probes);
        } else if resolved {
          ResolvedProbed(cfg, h, floor, uDiv, uOk);
        }
        iter := if resolved || stop == Some(NoProposal) then iter else iter + 1;
      }
    }

    /** The search at the current quadrature; ended early once the caller's own bracket is fine enough. */
    method RunStage(lo: real, hi: real, target: real, floor: real, fits: nat -> Fits)
      returns (r: Result<StageResult, SearchError>, ghost h: seq<Probe>)
      requires Valid()
      modifies `successFolders, `disk, `runs
      ensures Valid() && runs == old(runs) + RunsOf(orders, h)
      ensures var cfg := StageConfig(settings, lo, hi, target);
              && StageRun(cfg, Oracle(model, orders), fits, floor, h) && |h| <= cfg.maxIter
              && (lo >= hi ==> r == Err(BoundsNotOrdered))
              && (lo < hi && target < 0.0 ==> r == Err(NegativeTarget))
              && (lo < hi && target >= 0.0 ==> Reports(cfg, fits, floor, h, r) && Complete(cfg, fits, floor, h))
              && (r == Err(NoSuccess) && target > 0.0 ==> Exhausted(fits, lo, hi, h))
              && (r.Ok? ==> lo < hi && target >= 0.0 && Found(cfg, Oracle(model, orders), floor, h, r.value))
              && (r == Err(NoSuccess)
                  ==> forall i :: 0 <= i < |h| ==> !AtOrAbove(cfg, h[i].out) && !Answer(cfg, h[i].out))
    {
      hide Narrow, Accepted, Flat, Widened, Found, Resolved, LastNamed, Hi, LoSoft, LoHard, BestOf, Obeys, Sampled;
      hide StageConfig, Oracle, KnowsBracket, KnowsSamples, HasAnswer, XCritical, StopOf, EndOf, Aborted, StageOf;
      hide Follows, Widenings, Exhausted;
      var cfg := StageConfig(settings, lo, hi, target);
      StageSetup(settings, lo, hi, target);
      NothingTracked(cfg, Oracle(model, orders), fits, floor);
      h := [];
      if !(lo < hi) {
        return Err(BoundsNotOrdered), h;
      }
      if !(target >= 0.0) {
        return Err(NegativeTarget), h;
      }
      var search := new ScalingRootFinder(cfg);
      search.Restart();
      var iter, stop, resolved, uDiv, uOk := PassAll(search, fits, floor);
      h := search.probes;
      r := Conclude(search, Oracle(model, orders), fits, floor, uDiv, uOk, stop, resolved, iter);
      if r == Err(NoSuccess) && target > 0.0 {
        NothingFound(settings, Oracle(model, orders), fits, floor, lo, hi, target, h);
      }
    }

    /** The end of a search: the upper end of a resolved bracket, else the best probe or its absence. */
    method Conclude(search: ScalingRootFinder, ghost f: real -> Outcome, fits: nat -> Fits, ghost floor: real,
                    uDiv: Option<real>, uOk: Option<real>, stop: Option<Stop>, resolved: bool, iter: nat)
      returns (r: Result<StageResult, SearchError>)
      requires search.Valid() && StageRun(search.cfg, f, fits, floor, search.probes)
      requires Tracks(search.cfg, search.probes, uDiv, uOk)
      requires search.cfg.oneSided && (search.cfg.target > 0.0 ==> search.cfg.acceptance.BelowTarget?)
      requires iter == |search.probes| && search.probes != []
      requires Ended(search.cfg, fits, floor, search.probes, stop, resolved, uDiv, uOk)
      ensures Reports(search.cfg, fits, floor, search.probes, r) && Complete(search.cfg, fits, floor, search.probes)
      ensures r.Ok? ==> Found(search.cfg, f, floor, search.probes, r.value)
      ensures r.Err? ==> r.error == NoSuccess && forall i :: 0 <= i < |search.probes| ==>
                && !AtOrAbove(search.cfg, search.probes[i].out) && !Answer(search.cfg, search.probes[i].out)
    {
      hide Accepted, Found, Resolved, Hi, LoSoft, LoHard, BestOf, KnowsBracket, KnowsSamples, StageRun, StopOf, EndOf;
      hide Widenings, Bracketed;
      PassEnds(search.cfg, fits, floor, search.probes, stop);
      if resolved {
        ResolvedBoth(floor, uDiv, uOk);
        r := Ok(StageResult(uOk.value, XCritical(fits(iter)), uDiv, uOk, true, iter));
      } else if search.best.None? {
        NothingEligible(search.cfg, search.probes);
        return Err(NoSuccess);
      } else {
        r := Ok(StageResult(search.best.value.0, XCritical(fits(iter)), uDiv, uOk, stop == Some(Converged), iter));
      }
      StageFound(search.cfg, f, fits, floor, search.probes);
    }

    /** The starting interval: around the hint when there is a usable one, else the configured one, in order. */
    method StartBounds(hint: real, hintRel: real) returns (warm: bool, lo: real, hi: real)
      requires settings.lambda2 > 0.0
      ensures warm <==> hintRel > 0.0 && hint != 0.0
      ensures lo <= hi
      ensures var u := hint / settings.lambda2;
              warm ==> lo < u < hi && u - lo == hi - u == hintRel * Abs(u)
      ensures !warm ==> lo == Min(settings.uLower, settings.uUpper) && hi == Max(settings.uLower, settings.uUpper)
    {
      var uHint := hint / settings.lambda2;
      assert uHint * settings.lambda2 == hint;
      warm := hintRel > 0.0 && uHint != 0.0;
      if warm {
        var delta := hintRel * Abs(uHint);
        assert delta > 0.0;
        lo, hi := uHint - delta, uHint + delta;
      } else {
        lo, hi := settings.uLower, settings.uUpper;
      }
      if lo > hi {
        lo, hi := hi, lo;
      }
    }

    /** The coarse stage and the handover; the orders come back unless the search throws. */
    method Prelocate(lo: real, hi: real, fits: nat -> Fits)
      returns (r: Result<(real, real, nat), SearchError>, ghost h: seq<Probe>)
      requires Valid()
      modifies this
      ensures Valid() && runs == old(runs) + RunsOf(Reduced(old(orders)), h)
      ensures Sampled(Oracle(model, Reduced(old(orders))), h)
      ensures orders == if r.Ok? then old(orders) else Reduced(old(orders))
      ensures r == Err(NoSuccess) && settings.zcTarget > 0.0 ==> Exhausted(fits, lo, hi, h)
      ensures r.Ok? ==>
                && r.value.2 == |h|
                && HandedOver(settings, model, Reduced(old(orders)), lo, hi, fits, h, (r.value.0, r.value.1))
    {
      hide Found, Handover, LastNamed, RunsOf, Oracle, Resolved, Obeys, Sampled, StageConfig, StageOf;
      hide WentOn, Unresolved, Follows, Exhausted, Complete;
      var saved := orders;
      orders := Reduced(saved);
      var stage;
      stage, h := RunStage(lo, hi, PreTarget(settings.zcTarget), SHIFT, fits);
      if stage.Err? {
        return Err(stage.error), h;
      }
      var cfg := StageConfig(settings, lo, hi, PreTarget(settings.zcTarget));
      FoundTracks(cfg, Oracle(model, orders), SHIFT, h, stage.value);
      orders := saved;
      var bounds := Handover(stage.value, lo, hi);
      r := Ok((bounds.0, bounds.1, stage.value.flows));
    }

    /**
     The whole tune. A returned point was run by the search at full fidelity and has a finite observable, below the
     target when the search converged on a positive one; so its folder is known and no flow has to be run again.
     */
    method TuneM2A(hint: real, hintRel: real, preFits: nat -> Fits, fullFits: nat -> Fits)
      returns (r: Result<Tuned, SearchError>, ghost pre: seq<Probe>, ghost full: seq<Probe>, ghost bounds: (real, real))
      requires Valid() && runs == [] && settings.lambda2 > 0.0
      modifies this
      ensures Valid() && runs == RunsOf(Reduced(old(orders)), pre) + RunsOf(old(orders), full)
      ensures r.Ok? ==>
                var cfg := StageConfig(settings, bounds.0, bounds.1, settings.zcTarget);
                && orders == old(orders) && StageRun(cfg, Oracle(model, orders), fullFits, 0.0, full)
                && StageOf(cfg, fullFits, 0.0, full).Some? && r.value.u == StageOf(cfg, fullFits, 0.0, full).value.uStar
      ensures r.Ok? && !(hintRel > 0.0 && hint != 0.0) ==>
                var lo, hi := Min(settings.uLower, settings.uUpper), Max(settings.uLower, settings.uUpper);
                HandedOver(settings, model, Reduced(orders), lo, hi, preFits, pre, bounds)
      ensures r.Err? ==> orders == old(orders) || (orders == Reduced(old(orders)) && full == [])
      ensures hintRel > 0.0 && hint != 0.0 ==> pre == [] && orders == old(orders)
      ensures r.Ok? ==> Answered(full, r.value)
      ensures r == Err(NoSuccess) && settings.zcTarget > 0.0 ==>
                || Exhausted(fullFits, bounds.0, bounds.1, full)
                || (!(hintRel > 0.0 && hint != 0.0) && full == [] &&
                    Exhausted(preFits, Min(settings.uLower, settings.uUpper), Max(settings.uLower, settings.uUpper),
                              pre))
    {
      hide Found, LastNamed, RunsOf, Oracle, Resolved, StageRun, StageConfig, StageOf, Answered, HandedOver, Exhausted;
      pre, full, bounds := [], [], (0.0, 0.0);
      var warm, uLo, uHi := StartBounds(hint, hintRel);
      var coarseFlows := 0;
      if !warm {
        var handed;
        handed, pre := Prelocate(uLo, uHi, preFits);
        if handed.Err? {
          NoRuns(old(orders));
          return Err(handed.error), pre, full, bounds;
        }
        uLo, uHi, coarseFlows := handed.value.0, handed.value.1, handed.value.2;
      }
      NoRuns(Reduced(orders));
      bounds := (uLo, uHi);
      r, full := FullStage(uLo, uHi, coarseFlows, pre, fullFits);
    }

    /** The search whose answer is the answer, and the lookup of its output. */
    method FullStage(lo: real, hi: real, coarseFlows: nat, ghost pre: seq<Probe>, fits: nat -> Fits)
      returns (r: Result<Tuned, SearchError>, ghost full: seq<Probe>)
      requires Valid() && runs == RunsOf(Reduced(orders), pre) && coarseFlows == |pre|
      modifies `successFolders, `disk, `runs
      ensures Valid() && runs == old(runs) + RunsOf(orders, full)
      ensures var cfg := StageConfig(settings, lo, hi, settings.zcTarget);
              && StageRun(cfg, Oracle(model, orders), fits, 0.0, full)
              && (r.Ok? ==> StageOf(cfg, fits, 0.0, full).Some? &&
                            r.value.u == StageOf(cfg, fits, 0.0, full).value.uStar)
      ensures r.Ok? ==> Answered(full, r.value)
      ensures r == Err(NoSuccess) && settings.zcTarget > 0.0 ==> Exhausted(fits, lo, hi, full)
    {
      hide Found, LastNamed, RunsOf, Oracle, Resolved, StageRun, StageConfig, StageOf, Exhausted, Complete;
      hide AtOrAbove, Answer;
      var stage;
      stage, full := RunStage(lo, hi, settings.zcTarget, 0.0, fits);
      if stage.Err? {
        return Err(stage.error), full;
      }
      FoundFinite(settings, lo, hi, settings.zcTarget, model, orders, full, stage.value);
      var u := stage.value.uStar;
      FullRun(pre, full, Reduced(orders), orders, u);
      var output := Lookup(u);
      r := Ok(Tuned(u * settings.lambda2, u, stage.value.converged, coarseFlows + stage.value.flows, output));
    }

    /** A returned point was run at full fidelity, and its folder holds the last run filed under its name. */
    ghost predicate Answered(full: seq<Probe>, t: Tuned)
      reads this
    {
      && t.m2A == t.u * settings.lambda2
      && t.flows == |runs|
      && (exists i :: 0 <= i < |full| && full[i].x == t.u)
      && model(orders, t.u).out.obs.Some?
      && LastNamed(runs, folder, folder(t.u)) == Some(t.output)
      && (t.converged && settings.zcTarget > 0.0
          ==> model(orders, t.u).out.obs.value < settings.zcTarget && t.output == Run(orders, t.u))
    }

    /** The folder of a point that was run with a finite observable; it is always on file. */
    method Lookup(u: real) returns (output: Run)
      requires Valid() && model(orders, u).out.obs.Some? && Run(orders, u) in runs
      ensures LastNamed(runs, folder, folder(u)) == Some(output)
      ensures runs[|runs| - 1] == Run(orders, u) ==> output == Run(orders, u)
    {
      hide LastNamed;
      LastIsOwn(runs, folder);
      ghost var k :| 0 <= k < |runs| && runs[k] == Run(orders, u);
      assert Finite(model, runs[k]);
      output := disk[successFolders[u]];
    }
  }

  lemma NoRuns(orders: Quadrature)
    ensures RunsOf(orders, []) == []
  {
  }

  lemma FoundTracks(cfg: Config, f: real -> Outcome, floor: real, h: seq<Probe>, r: StageResult)
    requires Found(cfg, f, floor, h, r)
    ensures r.flows == |h| && Tracks(cfg, h, r.uDiv, r.uOk)
  {
  }

  lemma FoundFinite(s: Settings, lo: real, hi: real, target: real, model: (Quadrature, real) -> Flow,
                    orders: Quadrature, h: seq<Probe>, r: StageResult)
    requires Found(StageConfig(s, lo, hi, target), Oracle(model, orders), 0.0, h, r)
    ensures r.flows == |h| && exists i :: 0 <= i < |h| && h[i].x == r.uStar
    ensures model(orders, r.uStar).out.obs.Some?
    ensures r.converged && target > 0.0 ==> model(orders, r.uStar).out.obs.value < target
    ensures r.converged && target > 0.0 ==> h != [] && Last(h).x == r.uStar
  {
  }

  lemma FullRun(pre: seq<Probe>, full: seq<Probe>, coarse: Quadrature, orders: Quadrature, u: real)
    requires exists i :: 0 <= i < |full| && full[i].x == u
    ensures var runs := RunsOf(coarse, pre) + RunsOf(orders, full);
            && |runs| == |pre| + |full| && Run(orders, u) in runs
            && exists k :: |pre| <= k < |runs| && runs[k] == Run(orders, u)
    ensures var runs := RunsOf(coarse, pre) + RunsOf(orders, full);
            runs[|runs| - 1] == Run(orders, Last(full).x)
  {
    var i :| 0 <= i < |full| && full[i].x == u;
    var runs := RunsOf(coarse, pre) + RunsOf(orders, full);
    assert runs[|pre| + i] == Run(orders, u);
  }

  /** If no two points that were run share a folder, the output copied is that of the returned point itself. */
  lemma OutputIsOwn(pre: seq<Probe>, full: seq<Probe>, coarse: Quadrature, orders: Quadrature, folder: real -> string,
                    t: Tuned)
    requires exists i :: 0 <= i < |full| && full[i].x == t.u
    requires LastNamed(RunsOf(coarse, pre) + RunsOf(orders, full), folder, folder(t.u)) == Some(t.output)
    requires forall i :: 0 <= i < |pre| && folder(pre[i].x) == folder(t.u) ==> pre[i].x == t.u
    requires forall i :: 0 <= i < |full| && folder(full[i].x) == folder(t.u) ==> full[i].x == t.u
    ensures t.output == Run(orders, t.u)
  {
    hide LastNamed;
    var runs := RunsOf(coarse, pre) + RunsOf(orders, full);
    FullRun(pre, full, coarse, orders, t.u);
    var k :| |pre| <= k < |runs| && runs[k] == Run(orders, t.u);
    LastNamedIsOwn(runs, folder, t.u, k);
  }

  lemma StageSetup(s: Settings, lo: real, hi: real, target: real)
    ensures var cfg := StageConfig(s, lo, hi, target);
            && cfg.lo == Some(lo) && cfg.hi == Some(hi) && cfg.target == target && cfg.oneSided && cfg.maxIter == 40
            && (cfg.target > 0.0 ==> cfg.acceptance.BelowTarget?)
  {
  }

  lemma NothingTracked(cfg: Config, f: real -> Outcome, fits: nat -> Fits, floor: real)
    ensures Tracks(cfg, [], None, None) && StageRun(cfg, f, fits, floor, [])
    ensures Bounded(cfg) ==> OnRun(cfg, f, fits, [], 0)
  {
  }
}
