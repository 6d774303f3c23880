/**
 The two plain bisections, and the bracketing loops behind the power-law fits. Test functions, rules for the next point
 and the function whose root is sought are arbitrary.
 */
module Bisection {
  import opened Prelude

  datatype Failure = BoundsNotSet | TooWide | NoSuccess

  /** What a test leaves behind: a failure, or a success with a target, which is None when it was never written. */
  datatype Outcome = Failed | Passed(target: Option<real>)

  // ----- the bracket that a list of tests determines -----

  /** The last point that succeeded. */
  ghost function LastSuccess(f: real -> Outcome, tested: seq<real>): Option<real> {
    if tested == [] then None
    else
      var x := tested[|tested| - 1];
      if f(x).Passed? then Some(x) else LastSuccess(f, tested[..|tested| - 1])
  }

  /** The upper end: the last point that succeeded, at first the upper bound. */
  ghost function HighEnd(f: real -> Outcome, max: real, tested: seq<real>): real {
    if LastSuccess(f, tested).Some? then LastSuccess(f, tested).value else max
  }

  /** The lower end: the last point that failed, at first the lower bound. */
  ghost function LowEnd(f: real -> Outcome, min: real, tested: seq<real>): real {
    if tested == [] then min
    else if f(tested[|tested| - 1]).Failed? then tested[|tested| - 1]
    else LowEnd(f, min, tested[..|tested| - 1])
  }

  ghost function Width(f: real -> Outcome, min: real, max: real, tested: seq<real>): real {
    Abs(HighEnd(f, max, tested) - LowEnd(f, min, tested))
  }

  /** Every point lies where the rule puts it in the bracket of the points before it. */
  ghost predicate Follows(f: real -> Outcome, nextX: (real, real) -> real, min: real, max: real, tested: seq<real>) {
    forall t: nat :: t < |tested| ==>
                       tested[t] == nextX(LowEnd(f, min, tested[..t]), HighEnd(f, max, tested[..t]))
  }

  lemma FollowsOn(f: real -> Outcome, nextX: (real, real) -> real, min: real, max: real, tested: seq<real>)
    requires Follows(f, nextX, min, max, tested)
    ensures Follows(f, nextX, min, max, tested + [nextX(LowEnd(f, min, tested), HighEnd(f, max, tested))])
  {
    var more := tested + [nextX(LowEnd(f, min, tested), HighEnd(f, max, tested))];
    forall t: nat | t < |more|
      ensures more[t] == nextX(LowEnd(f, min, more[..t]), HighEnd(f, max, more[..t]))
    {
      assert more[..t] == tested[..t];
      assert t == |tested| ==> tested[..t] == tested;
    }
  }

  lemma FollowsPrefix(f: real -> Outcome, nextX: (real, real) -> real, min: real, max: real, tested: seq<real>, n: nat)
    requires Follows(f, nextX, min, max, tested) && n <= |tested|
    ensures Follows(f, nextX, min, max, tested[..n])
    ensures n < |tested| ==> tested[n] == nextX(LowEnd(f, min, tested[..n]), HighEnd(f, max, tested[..n]))
  {
    hide LowEnd, HighEnd;
    forall t: nat | t < n
      ensures tested[..n][t] == nextX(LowEnd(f, min, tested[..n][..t]), HighEnd(f, max, tested[..n][..t]))
    {
      assert tested[..n][..t] == tested[..t];
    }
  }

  lemma EndsMove(f: real -> Outcome, min: real, max: real, tested: seq<real>, x: real)
    ensures LastSuccess(f, tested + [x]) == if f(x).Passed? then Some(x) else LastSuccess(f, tested)
    ensures HighEnd(f, max, tested + [x]) == if f(x).Passed? then x else HighEnd(f, max, tested)
    ensures LowEnd(f, min, tested + [x]) == if f(x).Passed? then LowEnd(f, min, tested) else x
  {
    assert (tested + [x])[..|tested|] == tested;
  }

  // ----- bisection to a tolerance -----

  /**
   BisectionRootFinder. It stops at the first bracket narrower than the tolerance, with its upper end as the answer,
   and fails when the budget ends before that.
   */
  method Search(f: real -> Outcome, nextX: (real, real) -> real, min: Option<real>, max: Option<real>, absTol: real,
                maxIter: nat)
    returns (r: Result<real, Failure>, iter: nat, ghost tested: seq<real>)
    ensures min.None? || max.None? <==> r == Err(BoundsNotSet)
    ensures min.Some? && max.Some? ==>
              && iter == |tested| <= maxIter && Follows(f, nextX, min.value, max.value, tested)
              && (forall t :: 0 <= t < |tested| ==> Width(f, min.value, max.value, tested[..t]) >= absTol)
              && (if Width(f, min.value, max.value, tested) < absTol then r == Ok(HighEnd(f, max.value, tested))
                  else r == Err(TooWide) && |tested| == maxIter)
  {
    iter, tested := 0, [];
    if min.None? || max.None? {
      return Err(BoundsNotSet), iter, tested;
    }
    var lo, hi := min.value, max.value;
    while Abs(hi - lo) >= absTol
      invariant iter == |tested| <= maxIter && Follows(f, nextX, min.value, max.value, tested)
      invariant lo == LowEnd(f, min.value, tested) && hi == HighEnd(f, max.value, tested)
      invariant forall t :: 0 <= t < |tested| ==> Width(f, min.value, max.value, tested[..t]) >= absTol
      decreases maxIter - iter
    {
      if iter == maxIter {
        return Err(TooWide), iter, tested;
      }
      iter := iter + 1;
      var test := nextX(lo, hi);
      FollowsOn(f, nextX, min.value, max.value, tested);
      EndsMove(f, min.value, max.value, tested, test);
      ghost var before := tested;
      tested := tested + [test];
      forall t | 0 <= t < |tested|
        ensures Width(f, min.value, max.value, tested[..t]) >= absTol
      {
        assert tested[..t] == before[..t];
        assert t == |before| ==> before[..t] == before;
      }
      if f(test).Passed? {
        hi := test;
      } else {
        lo := test;
      }
    }
    r := Ok(hi);
  }

  function Midpoint(lo: real, hi: real): real {
    (lo + hi) / 2.0
  }

  lemma FirstWidth(f: real -> Outcome, min: real, max: real)
    ensures Width(f, min, max, []) == Abs(max - min)
  {
  }

  lemma HalvesOnce(f: real -> Outcome, min: real, max: real, tested: seq<real>)
    ensures Width(f, min, max, tested + [Midpoint(LowEnd(f, min, tested), HighEnd(f, max, tested))])
            == 0.5 * Width(f, min, max, tested)
  {
    hide LowEnd, HighEnd, LastSuccess, Abs, Midpoint;
    var lo, hi := LowEnd(f, min, tested), HighEnd(f, max, tested);
    EndsMove(f, min, max, tested, Midpoint(lo, hi));
    HalfGap(lo, hi);
  }

  /** With the midpoint rule every test halves the bracket, whatever the outcomes. */
  lemma {:induction false} MidpointHalves(f: real -> Outcome, min: real, max: real, tested: seq<real>)
    requires Follows(f, Midpoint, min, max, tested)
    ensures Width(f, min, max, tested) == Halved(Abs(max - min), |tested|)
  {
    hide LowEnd, HighEnd, LastSuccess, Follows, Abs, Midpoint, Width;
    FirstWidth(f, min, max);
    if tested != [] {
      var n := |tested| - 1;
      FollowsPrefix(f, Midpoint, min, max, tested, n);
      MidpointHalves(f, min, max, tested[..n]);
      HalvesOnce(f, min, max, tested[..n]);
      assert tested == tested[..n] + [tested[n]];
    }
  }

  lemma HalfGap(lo: real, hi: real)
    ensures Abs(hi - Midpoint(lo, hi)) == Abs(Midpoint(lo, hi) - lo) == 0.5 * Abs(hi - lo)
  {
  }

  lemma {:induction false} HalvedShrinks(w: real, j: nat, k: nat)
    requires w >= 0.0 && j <= k
    ensures 0.0 <= Halved(w, k) <= Halved(w, j)
  {
    if k > 0 {
      HalvedShrinks(w, if j < k then j else j - 1, k - 1);
    }
  }

  /** So it takes exactly the halvings the tolerance needs, and fails exactly when the budget is short of them. */
  lemma MidpointSteps(f: real -> Outcome, min: real, max: real, tested: seq<real>, absTol: real, maxIter: nat)
    requires Follows(f, Midpoint, min, max, tested) && |tested| <= maxIter
    requires forall t :: 0 <= t < |tested| ==> Width(f, min, max, tested[..t]) >= absTol
    requires Width(f, min, max, tested) >= absTol ==> |tested| == maxIter
    ensures var w := Abs(max - min);
            && (Width(f, min, max, tested) < absTol <==> exists k :: 0 <= k <= maxIter && Halved(w, k) < absTol)
            && (forall k :: 0 <= k < |tested| ==> Halved(w, k) >= absTol)
  {
    hide LowEnd, HighEnd, Follows, Width;
    var w := Abs(max - min);
    MidpointHalves(f, min, max, tested);
    forall k | 0 <= k < |tested|
      ensures Halved(w, k) >= absTol
    {
      FollowsPrefix(f, Midpoint, min, max, tested, k);
      MidpointHalves(f, min, max, tested[..k]);
    }
    forall k | 0 <= k <= |tested| && Width(f, min, max, tested) >= absTol
      ensures Halved(w, k) >= absTol
    {
      HalvedShrinks(w, k, |tested|);
    }
  }

  ghost predicate SwitchesAt(f: real -> Outcome, x: real) {
    forall y :: f(y).Passed? <==> y >= x
  }

  /** Whatever points were tried, the ends of the bracket keep a monotone test's switching point between them. */
  lemma {:induction false} EndsHoldSwitch(f: real -> Outcome, min: real, max: real, tested: seq<real>, x: real)
    requires SwitchesAt(f, x) && min < x <= max
    ensures LowEnd(f, min, tested) < x <= HighEnd(f, max, tested)
  {
    if tested != [] {
      var n := |tested| - 1;
      EndsHoldSwitch(f, min, max, tested[..n], x);
      assert tested == tested[..n] + [tested[n]];
      EndsMove(f, min, max, tested[..n], tested[n]);
      assert f(tested[n]).Passed? <==> tested[n] >= x;
    }
  }

  /** The answer of a bisection lies above the switching point by less than the tolerance. */
  lemma AnswerNearSwitch(f: real -> Outcome, min: real, max: real, tested: seq<real>, absTol: real, x: real)
    requires SwitchesAt(f, x) && min < x <= max && Width(f, min, max, tested) < absTol
    ensures x <= HighEnd(f, max, tested) < x + absTol
  {
    EndsHoldSwitch(f, min, max, tested, x);
  }

  // ----- bisection until the observable is resolved -----

  /** The last test succeeded, and so did one before it, with a target that agrees. */
  ghost predicate Agrees(f: real -> Outcome, tested: seq<real>, absTol: real) {
    tested != [] &&
    var x, earlier := tested[|tested| - 1], LastSuccess(f, tested[..|tested| - 1]);
    && f(x).Passed? && f(x).target.Some? && earlier.Some? && f(earlier.value).Passed? && f(earlier.value).target.Some?
    && -absTol < f(x).target.value - f(earlier.value).target.value < absTol
  }

  /** Two targets that were both written differ by less than the tolerance. */
  predicate Near(a: Option<real>, b: Option<real>, absTol: real) {
    a.Some? && b.Some? && Abs(a.value - b.value) < absTol
  }

  /** Before every test but the first the bracket had not collapsed, and no two successes had agreed. */
  ghost predicate WentOn(f: real -> Outcome, min: real, max: real, absTol: real, collapsed: (real, real) -> bool,
                         tested: seq<real>, t: nat)
    requires t <= |tested|
  {
    var before := tested[..t];
    !Agrees(f, before, absTol) && (t > 0 ==> !collapsed(LowEnd(f, min, before), HighEnd(f, max, before)))
  }

  /** At every moment up to test n. */
  ghost predicate AllWentOn(f: real -> Outcome, min: real, max: real, absTol: real, collapsed: (real, real) -> bool,
                            tested: seq<real>, n: nat)
    requires n <= |tested|
  {
    forall t :: 0 <= t <= n ==> WentOn(f, min, max, absTol, collapsed, tested, t)
  }

  lemma WentOnGrows(f: real -> Outcome, min: real, max: real, absTol: real, collapsed: (real, real) -> bool,
                    tested: seq<real>, x: real)
    requires AllWentOn(f, min, max, absTol, collapsed, tested, |tested|)
    ensures AllWentOn(f, min, max, absTol, collapsed, tested + [x], |tested|)
  {
    hide LowEnd, HighEnd, Agrees;
    forall t | 0 <= t <= |tested|
      ensures WentOn(f, min, max, absTol, collapsed, tested + [x], t)
    {
      assert (tested + [x])[..t] == tested[..t] && WentOn(f, min, max, absTol, collapsed, tested, t);
    }
  }

  lemma WentOnNow(f: real -> Outcome, min: real, max: real, absTol: real, collapsed: (real, real) -> bool,
                  tested: seq<real>)
    requires tested != [] ==> AllWentOn(f, min, max, absTol, collapsed, tested, |tested| - 1)
    requires !Agrees(f, tested, absTol)
    requires tested != [] ==> !collapsed(LowEnd(f, min, tested), HighEnd(f, max, tested))
    ensures AllWentOn(f, min, max, absTol, collapsed, tested, |tested|)
  {
    hide Agrees, LowEnd, HighEnd;
    assert tested[..|tested|] == tested;
  }

  /**
   BisectionRootFinderTarget. What it returns is the last point that succeeded; it stops as converged at the first
   success that agrees with the one before it, or else when the bracket collapses or the budget ends.
   */
  method SearchTarget(f: real -> Outcome, nextX: (real, real) -> real, min: Option<real>, max: Option<real>,
                      absTol: real, maxIter: nat, collapsed: (real, real) -> bool)
    returns (r: Result<real, Failure>, target: Option<real>, converged: bool, ghost tested: seq<real>)
    ensures min.None? || max.None? <==> r == Err(BoundsNotSet)
    ensures min.Some? && max.Some? ==>
              && |tested| <= maxIter && Follows(f, nextX, min.value, max.value, tested)
              && r == (if LastSuccess(f, tested).None? then Err(NoSuccess) else Ok(LastSuccess(f, tested).value))
              && (r.Ok? ==> f(r.value) == Passed(target))
              && (converged <==> Agrees(f, tested, absTol))
              && (tested != [] ==> AllWentOn(f, min.value, max.value, absTol, collapsed, tested, |tested| - 1))
              && (!converged && |tested| < maxIter ==>
                    tested != [] && collapsed(LowEnd(f, min.value, tested), HighEnd(f, max.value, tested)))
  {
    target, converged, tested := None, false, [];
    if min.None? || max.None? {
      return Err(BoundsNotSet), target, converged, tested;
    }
    var lo, hi := min.value, max.value;
    var best: Option<real> := None;
    var i := 0;
    NothingTested(f, nextX, lo, hi, absTol, collapsed);
    hide LastSuccess, LowEnd, HighEnd, Follows, AllWentOn, Near, Agrees;
    while i < maxIter
      invariant |tested| == i <= maxIter && best == LastSuccess(f, tested)
      invariant !converged && !Agrees(f, tested, absTol)
      invariant if best.Some? then f(best.value) == Passed(target) else target.None?
      invariant lo == LowEnd(f, min.value, tested) && hi == HighEnd(f, max.value, tested)
      invariant Follows(f, nextX, min.value, max.value, tested)
      invariant AllWentOn(f, min.value, max.value, absTol, collapsed, tested, |tested|)
    {
      var test := nextX(lo, hi);
      OneMoreTest(f, nextX, min.value, max.value, absTol, collapsed, tested, best, target);
      tested := tested + [test];
      i := i + 1;
      var outcome := f(test);
      if outcome.Passed? {
        hi := test;
        converged := best.Some? && Near(outcome.target, target, absTol);
        best, target := Some(test), outcome.target;
        if converged {
          break;
        }
      } else {
        lo := test;
      }
      if collapsed(lo, hi) {
        break;
      }
      WentOnNow(f, min.value, max.value, absTol, collapsed, tested);
    }
    r := if best.None? then Err(NoSuccess) else Ok(best.value);
  }

  lemma NothingTested(f: real -> Outcome, nextX: (real, real) -> real, min: real, max: real, absTol: real,
                      collapsed: (real, real) -> bool)
    ensures LastSuccess(f, []) == None && LowEnd(f, min, []) == min && HighEnd(f, max, []) == max
    ensures Follows(f, nextX, min, max, []) && !Agrees(f, [], absTol)
    ensures AllWentOn(f, min, max, absTol, collapsed, [], 0)
  {
  }

  /** One more test, where the rule puts it. */
  lemma OneMoreTest(f: real -> Outcome, nextX: (real, real) -> real, min: real, max: real, absTol: real,
                    collapsed: (real, real) -> bool, tested: seq<real>, best: Option<real>, target: Option<real>)
    requires Follows(f, nextX, min, max, tested) && best == LastSuccess(f, tested)
    requires best.Some? ==> f(best.value) == Passed(target)
    requires AllWentOn(f, min, max, absTol, collapsed, tested, |tested|)
    ensures var x := nextX(LowEnd(f, min, tested), HighEnd(f, max, tested));
            var more := tested + [x];
            && Follows(f, nextX, min, max, more)
            && LastSuccess(f, more) == (if f(x).Passed? then Some(x) else best)
            && HighEnd(f, max, more) == (if f(x).Passed? then x else HighEnd(f, max, tested))
            && LowEnd(f, min, more) == (if f(x).Passed? then LowEnd(f, min, tested) else x)
            && (Agrees(f, more, absTol) <==> f(x).Passed? && best.Some? && Near(f(x).target, target, absTol))
            && AllWentOn(f, min, max, absTol, collapsed, more, |tested|)
  {
    hide LastSuccess, LowEnd, HighEnd, Follows, AllWentOn;
    var x := nextX(LowEnd(f, min, tested), HighEnd(f, max, tested));
    FollowsOn(f, nextX, min, max, tested);
    EndsMove(f, min, max, tested, x);
    WentOnGrows(f, min, max, absTol, collapsed, tested, x);
    assert (tested + [x])[..|tested|] == tested;
  }

  // ----- the root behind the power-law fits -----

  function Outwards(d2: real, i: nat): (r: real)
    ensures d2 > 0.0 ==> r > 0.0
  {
    if i == 0 then d2 else Outwards(d2, i - 1) * 16.0
  }

  /** Factors of 16 below the upper end, the first of them at once. */
  function Inwards(sHi: real, j: nat): (r: real)
    ensures sHi > 0.0 ==> r > 0.0
  {
    if j == 0 then sHi / 16.0 else Inwards(sHi, j - 1) / 16.0
  }

  /** The outward walk ends at step i: the function was positive before, and is no longer, or the budget is spent. */
  ghost predicate WalkedOut(g: real -> real, d2: real, i: nat) {
    && (forall k: nat :: k < i ==> g(Outwards(d2, k)) > 0.0)
    && (i == 60 || (i < 60 && g(Outwards(d2, i)) <= 0.0))
  }

  /** The inward walk ends at step j: the function was negative before and the floor not reached. */
  ghost predicate WalkedIn(g: real -> real, sHi: real, floor: real, j: nat) {
    && (forall k: nat :: k < j ==> g(Inwards(sHi, k)) < 0.0 && Inwards(sHi, k) > floor)
    && (j == 60 || (j < 60 && (g(Inwards(sHi, j)) >= 0.0 || Inwards(sHi, j) <= floor)))
  }

  /** One positive and one non-positive side. */
  ghost predicate Encloses(g: real -> real, lo: real, hi: real) {
    0.0 < lo < hi && g(lo) >= 0.0 >= g(hi)
  }

  /** The mean of two different positive numbers lies between them; the geometric one in particular. */
  ghost predicate IsMean(mid: (real, real) -> real) {
    forall a, b :: 0.0 < a < b ==> a <= mid(a, b) <= b
  }

  /** (lo2, hi2) is reached from (lo, hi) by k cuts at the mean, each keeping the half with the change of sign. */
  ghost predicate Cuts(g: real -> real, mid: (real, real) -> real, lo: real, hi: real, k: nat, lo2: real, hi2: real) {
    if k == 0 then lo2 == lo && hi2 == hi
    else
      exists a, b :: Cuts(g, mid, lo, hi, k - 1, a, b) && a < mid(a, b) < b
                     && if g(mid(a, b)) > 0.0 then lo2 == mid(a, b) && hi2 == b else lo2 == a && hi2 == mid(a, b)
  }

  /** The outcome when the outward walk ends at sHi: nothing if it or the inward walk failed, else what a cut gives. */
  ghost predicate Shifted(g: real -> real, mid: (real, real) -> real, d2: real, sHi: real, r: Option<real>) {
    if g(sHi) > 0.0 then r == None
    else exists j: nat :: WalkedIn(g, sHi, 0.000000000000000001 * d2, j)
                          && if g(Inwards(sHi, j)) < 0.0 then r == None
                             else Narrowed(g, mid, d2, Inwards(sHi, j), sHi, r)
  }

  /** The mean of a bracket cut 200 times, or until its mean no longer lies inside, if within floor and ceiling. */
  ghost predicate Narrowed(g: real -> real, mid: (real, real) -> real, d2: real, bottom: real, top: real,
                           r: Option<real>)
  {
    exists k, lo, hi ::
      && Cuts(g, mid, bottom, top, k, lo, hi) && k <= 200 && (k == 200 || mid(lo, hi) <= lo || mid(lo, hi) >= hi)
      && Encloses(g, lo, hi)
      && r == if 0.000000000000000001 * d2 < mid(lo, hi) < 9999.99 * d2 then Some(mid(lo, hi)) else None
  }

  /**
   The three loops of solve_scaling_shift: outwards until the function is no longer positive, inwards until it is not
   negative, and a bisection between, for any mean. It gives up when either walk does, or when the answer sits on the
   floor or reaches the ceiling; otherwise the answer is the mean of an enclosing bracket after 200 cuts, or earlier
   once the mean no longer lies inside.
   */
  method SolveShift(g: real -> real, mid: (real, real) -> real, d2: real) returns (r: Option<real>)
    requires d2 > 0.0 && IsMean(mid)
    ensures exists i :: WalkedOut(g, d2, i) && Shifted(g, mid, d2, Outwards(d2, i), r)
  {
    hide Cuts, WalkedIn;
    var sHi := d2;
    var i := 0;
    while i < 60 && g(sHi) > 0.0
      invariant i <= 60 && sHi == Outwards(d2, i)
      invariant forall m: nat :: m < i ==> g(Outwards(d2, m)) > 0.0
    {
      sHi := sHi * 16.0;
      i := i + 1;
    }
    assert WalkedOut(g, d2, i);
    ghost var top := sHi;
    if g(sHi) > 0.0 {
      return None;
    }
    var floor := 1e-18 * d2;
    var sLo;
    ghost var j;
    sLo, j := WalkIn(g, sHi, floor);
    assert WalkedIn(g, top, 0.000000000000000001 * d2, j);
    if g(sLo) < 0.0 {
      return None;
    }
    ghost var k;
    sLo, sHi, k := Cut(g, mid, sLo, sHi);
    var s := mid(sLo, sHi);
    r := if s > floor && s < 1e4 * d2 * (1.0 - 1e-6) then Some(s) else None;
    assert Cuts(g, mid, Inwards(top, j), top, k, sLo, sHi);
    assert Narrowed(g, mid, d2, Inwards(top, j), top, r);
  }

  method WalkIn(g: real -> real, sHi: real, floor: real) returns (sLo: real, ghost j: nat)
    requires sHi > 0.0
    ensures WalkedIn(g, sHi, floor, j) && sLo == Inwards(sHi, j) && 0.0 < sLo < sHi
  {
    sLo := sHi / 16.0;
    var n := 0;
    while n < 60 && sLo > floor && g(sLo) < 0.0
      invariant n <= 60 && sLo == Inwards(sHi, n) && 0.0 < sLo < sHi
      invariant forall m: nat :: m < n ==> g(Inwards(sHi, m)) < 0.0 && Inwards(sHi, m) > floor
    {
      sLo := sLo / 16.0;
      n := n + 1;
    }
    j := n;
  }

  method Cut(g: real -> real, mid: (real, real) -> real, bottom: real, top: real)
    returns (sLo: real, sHi: real, ghost k: nat)
    requires IsMean(mid) && Encloses(g, bottom, top)
    ensures Cuts(g, mid, bottom, top, k, sLo, sHi) && k <= 200 && Encloses(g, sLo, sHi)
    ensures k == 200 || mid(sLo, sHi) <= sLo || mid(sLo, sHi) >= sHi
  {
    sLo, sHi := bottom, top;
    var n := 0;
    while n < 200
      invariant n <= 200 && Cuts(g, mid, bottom, top, n, sLo, sHi) && Encloses(g, sLo, sHi)
    {
      var s := mid(sLo, sHi);
      if !(s > sLo && s < sHi) {
        break;
      }
      CutsOnce(g, mid, bottom, top, n, sLo, sHi);
      if g(s) > 0.0 {
        sLo := s;
      } else {
        sHi := s;
      }
      n := n + 1;
      hide Cuts;
    }
    k := n;
  }

  lemma CutsOnce(g: real -> real, mid: (real, real) -> real, lo: real, hi: real, k: nat, a: real, b: real)
    requires Cuts(g, mid, lo, hi, k, a, b) && a < mid(a, b) < b
    ensures g(mid(a, b)) > 0.0 ==> Cuts(g, mid, lo, hi, k + 1, mid(a, b), b)
    ensures g(mid(a, b)) <= 0.0 ==> Cuts(g, mid, lo, hi, k + 1, a, mid(a, b))
  {
  }

  /** Squared k times over. */
  function Squared(x: real, k: nat): real {
    if k == 0 then x else Times(Squared(x, k - 1), Squared(x, k - 1))
  }

  ghost predicate IsGeometricMean(mid: (real, real) -> real) {
    forall a, b :: 0.0 < a < b ==> mid(a, b) > 0.0 && mid(a, b) * mid(a, b) == a * b
  }

  lemma GeometricMeanInside(mid: (real, real) -> real, a: real, b: real)
    requires IsGeometricMean(mid) && 0.0 < a < b
    ensures a < mid(a, b) < b
    ensures Times(b / mid(a, b), b / mid(a, b)) == b / a == Times(mid(a, b) / a, mid(a, b) / a)
  {
    var m := mid(a, b);
    MeanInside(a, b, m);
    RatioSquared(a, b, m);
  }

  lemma MeanInside(a: real, b: real, m: real)
    requires 0.0 < a < b && m > 0.0 && m * m == a * b
    ensures a < m < b
  {
    if m <= a {
      SmallerProduct(m, a, b);
    } else if m >= b {
      LargerProduct(m, a, b);
    }
  }

  lemma SmallerProduct(m: real, a: real, b: real)
    requires 0.0 < m <= a < b
    ensures m * m < a * b
  {
  }

  lemma LargerProduct(m: real, a: real, b: real)
    requires 0.0 < a < b <= m
    ensures a * b < m * m
  {
    assert a * b < b * b <= m * m;
  }

  lemma RatioSquared(a: real, b: real, m: real)
    requires 0.0 < a && 0.0 < b && m > 0.0 && m * m == a * b
    ensures Times(b / m, b / m) == b / a == Times(m / a, m / a)
  {
    SameRatio(a, b, m);
    ChainedRatio(a, b, m);
    hide Times;
  }

  lemma SameRatio(a: real, b: real, m: real)
    requires 0.0 < a && m > 0.0 && m * m == a * b
    ensures b / m == m / a
  {
    var q := b / m;
    assert q * m == b;
    assert q * a * m == m * m;
    Cancel(q * a, m, m);
  }

  lemma ChainedRatio(a: real, b: real, m: real)
    requires 0.0 < a && m > 0.0
    ensures Times(b / m, m / a) == b / a
  {
    var q, p := b / m, m / a;
    assert q * m == b && p * a == m;
    assert q * p * a == b;
  }

  lemma Cancel(x: real, y: real, m: real)
    requires m > 0.0 && x * m == y * m
    ensures x == y
  {
  }

  /** A geometric bisection takes the square root of the ratio of the ends with every cut. */
  lemma {:induction false} CutsNarrow(g: real -> real, mid: (real, real) -> real, lo: real, hi: real, k: nat,
                                      lo2: real, hi2: real)
    requires IsGeometricMean(mid) && 0.0 < lo < hi && Cuts(g, mid, lo, hi, k, lo2, hi2)
    ensures 0.0 < lo2 < hi2 && Squared(hi2 / lo2, k) == hi / lo
  {
    hide Times, Squared, IsGeometricMean;
    if k > 0 {
      var a, b := CutFrom(g, mid, lo, hi, k, lo2, hi2);
      CutsNarrow(g, mid, lo, hi, k - 1, a, b);
      CutNarrows(mid, a, b, lo2, hi2);
      SquaredOnce(hi2 / lo2, k);
    } else {
      SquaredNever(hi2 / lo2);
    }
  }

  lemma CutFrom(g: real -> real, mid: (real, real) -> real, lo: real, hi: real, k: nat, lo2: real, hi2: real)
    returns (a: real, b: real)
    requires k > 0 && Cuts(g, mid, lo, hi, k, lo2, hi2)
    ensures Cuts(g, mid, lo, hi, k - 1, a, b)
    ensures (lo2 == mid(a, b) && hi2 == b) || (lo2 == a && hi2 == mid(a, b))
  {
    a, b :| Cuts(g, mid, lo, hi, k - 1, a, b) && a < mid(a, b) < b
            && if g(mid(a, b)) > 0.0 then lo2 == mid(a, b) && hi2 == b else lo2 == a && hi2 == mid(a, b);
  }

  lemma CutNarrows(mid: (real, real) -> real, a: real, b: real, lo: real, hi: real)
    requires IsGeometricMean(mid) && 0.0 < a < b
    requires (lo == mid(a, b) && hi == b) || (lo == a && hi == mid(a, b))
    ensures 0.0 < lo < hi && Times(hi / lo, hi / lo) == b / a
  {
    hide Times;
    GeometricMeanInside(mid, a, b);
  }

  lemma SquaredNever(x: real)
    ensures Squared(x, 0) == x
  {
  }

  lemma {:induction false} SquaredOnce(x: real, k: nat)
    requires k > 0
    ensures Squared(x, k) == Squared(Times(x, x), k - 1)
  {
    hide Times;
    if k > 1 {
      SquaredOnce(x, k - 1);
    }
  }

  lemma {:induction false} InwardsRatio(sHi: real, j: nat)
    requires sHi > 0.0
    ensures sHi / Inwards(sHi, j) == Power(16.0, j + 1)
  {
    hide Power;
    if j > 0 {
      InwardsRatio(sHi, j - 1);
      SixteenTimes(sHi, Inwards(sHi, j - 1), j);
    } else {
      SixteenTimes(sHi, sHi, 0);
    }
  }

  lemma SixteenTimes(x: real, y: real, j: nat)
    requires y > 0.0
    ensures x / (y / 16.0) == 16.0 * (x / y) && Power(16.0, j + 1) == 16.0 * Power(16.0, j)
    ensures Power(16.0, 0) == 1.0 && y / y == 1.0
  {
    var q := x / (y / 16.0);
    assert q * (y / 16.0) == x;
    assert q / 16.0 * y == x;
    assert q / 16.0 == x / y;
  }

  /** The function is positive below x and negative above it. */
  ghost predicate RootAt(g: real -> real, x: real) {
    forall y :: y > 0.0 ==> (g(y) > 0.0 <==> y < x) && (g(y) < 0.0 <==> y > x)
  }

  /** So the answer misses the root by at most a factor whose k-fold square is the power of 16 walked over. */
  lemma ShiftNearRoot(g: real -> real, mid: (real, real) -> real, sHi: real, j: nat, k: nat, lo: real, hi: real,
                      x: real)
    requires IsGeometricMean(mid) && RootAt(g, x) && sHi > 0.0 && Encloses(g, Inwards(sHi, j), sHi)
    requires Cuts(g, mid, Inwards(sHi, j), sHi, k, lo, hi) && Encloses(g, lo, hi)
    ensures lo < mid(lo, hi) < hi && Squared(hi / lo, k) == Power(16.0, j + 1)
    ensures mid(lo, hi) <= Times(hi / lo, x) && x <= Times(hi / lo, mid(lo, hi))
  {
    hide Cuts, Squared, Inwards, Power;
    InwardsRatio(sHi, j);
    CutsNarrow(g, mid, Inwards(sHi, j), sHi, k, lo, hi);
    GeometricMeanInside(mid, lo, hi);
    WithinRatio(lo, hi, mid(lo, hi), x);
  }

  lemma WithinRatio(lo: real, hi: real, s: real, x: real)
    requires 0.0 < lo < hi && lo <= s <= hi && lo <= x <= hi
    ensures s <= Times(hi / lo, x) && x <= Times(hi / lo, s)
  {
    var q := hi / lo;
    assert Times(q, lo) == q * lo == hi && q > 0.0;
    AtLeast(q, lo, x);
    AtLeast(q, lo, s);
  }

  lemma AtLeast(q: real, lo: real, x: real)
    requires q > 0.0 && lo <= x
    ensures Times(q, lo) <= Times(q, x)
  {
  }
}
