/**
 Forward-mode differentiation is differentiation: wherever an expression is smooth, quotients, absolute values, maxima
 and smooth functions included, its derivative part is the derivative of its value along any curve of inputs.
 */
module Smoothness {
  import opened Prelude
  import opened DualNumbers

  /** Up to r, the curve g is value + h * derivative with an error of at most k * h * h. */
  ghost predicate Within(g: real -> real, a: Dual, k: real, r: real) {
    r > 0.0 && k >= 0.0 && forall h :: Abs(h) <= r ==> Abs(g(h) - Linear(a, h)) <= Times(k, Times(h, h))
  }

  function Linear(a: Dual, h: real): real {
    a.v + Times(h, a.d)
  }

  /** The curve passes through the value of a, with its derivative part as the slope. */
  ghost predicate Tracks(g: real -> real, a: Dual) {
    exists k, r :: Within(g, a, k, r)
  }

  // ----- what it means -----

  /** The difference quotients tend to the derivative part. */
  lemma SlopeIsLimit(g: real -> real, a: Dual) returns (k: real, r: real)
    requires Tracks(g, a)
    ensures g(0.0) == a.v && r > 0.0
    ensures forall h :: h != 0.0 && Abs(h) <= r ==> Abs((g(h) - g(0.0)) / h - a.d) <= Times(k, Abs(h))
  {
    k, r :| Within(g, a, k, r);
    assert Times(0.0, a.d) == 0.0 && Times(k, Times(0.0, 0.0)) == 0.0;
    assert Abs(g(0.0) - Linear(a, 0.0)) <= Times(k, Times(0.0, 0.0));
    forall h | h != 0.0 && Abs(h) <= r
      ensures Abs((g(h) - g(0.0)) / h - a.d) <= Times(k, Abs(h))
    {
      QuotientError(g(h), a.v, a.d, h, k);
    }
  }

  lemma QuotientError(y: real, v: real, d: real, h: real, k: real)
    requires h != 0.0 && Abs(y - (v + Times(h, d))) <= Times(k, Times(h, h))
    ensures Abs((y - v) / h - d) <= Times(k, Abs(h))
  {
    hide Times;
    var q := (y - v) / h - d;
    Remainder(y - v, d, h);
    AbsOfProduct(q, h);
    SquareIs(k, h);
    if Abs(q) > Times(k, Abs(h)) {
      LargerProduct(Abs(q), Times(k, Abs(h)), Abs(h));
    }
  }

  lemma Remainder(x: real, d: real, h: real)
    requires h != 0.0
    ensures Times(x / h - d, h) == x - Times(h, d)
  {
    assert x / h * h == x;
  }

  lemma AbsOfProduct(q: real, h: real)
    ensures Abs(Times(q, h)) == Times(Abs(q), Abs(h))
  {
  }

  lemma SquareIs(k: real, h: real)
    ensures Times(k, Times(h, h)) == Times(Times(k, Abs(h)), Abs(h))
  {
  }

  lemma LargerProduct(x: real, y: real, h: real)
    requires x > y && h >= 0.0
    ensures h > 0.0 ==> Times(x, h) > Times(y, h)
  {
  }

  /** A curve has at most one slope. */
  lemma SlopeUnique(g: real -> real, a: Dual, b: Dual)
    requires Tracks(g, a) && Tracks(g, b)
    ensures a == b
  {
    hide Tracks, Times;
    var k, r := SlopeIsLimit(g, a);
    var k', r' := SlopeIsLimit(g, b);
    if a.d != b.d {
      var h := SmallStep(k, k', Abs(a.d - b.d), Min(r, r'));
      Triangle((g(h) - g(0.0)) / h, a.d, b.d);
      assert false;
    }
  }

  lemma Triangle(q: real, x: real, y: real)
    ensures Abs(x - y) <= Abs(q - x) + Abs(q - y)
  {
  }

  lemma SmallStep(k: real, k': real, gap: real, r: real) returns (h: real)
    requires gap > 0.0 && r > 0.0
    ensures 0.0 < h <= r && Times(k, Abs(h)) + Times(k', Abs(h)) < gap
  {
    var m := Abs(k) + Abs(k') + 1.0;
    h := Min(r, gap / (2.0 * m));
    BelowShare(h, gap, 2.0 * m);
    TimesBelow(k, k', m, h);
  }

  lemma BelowShare(h: real, gap: real, m: real)
    requires gap > 0.0 && m > 0.0 && h <= gap / m
    ensures gap / m > 0.0 && h * m <= gap && Times(h, m) <= gap
  {
    assert gap / m * m == gap;
  }

  lemma TimesBelow(k: real, k': real, m: real, h: real)
    requires m == Abs(k) + Abs(k') + 1.0 && h > 0.0
    ensures Times(k, Abs(h)) + Times(k', Abs(h)) < m * h
  {
    assert k * h <= Abs(k) * h && k' * h <= Abs(k') * h;
    assert m * h == Abs(k) * h + Abs(k') * h + h;
  }

  // ----- the operations -----

  /** |x y| <= p q for |x| <= p and |y| <= q */
  lemma Bounded(x: real, y: real, p: real, q: real)
    requires Abs(x) <= p && Abs(y) <= q
    ensures Abs(Times(x, y)) <= Times(p, q)
  {
  }

  lemma Distributes(x: real, y: real, z: real)
    ensures Times(x, y + z) == Times(x, y) + Times(x, z)
    ensures Times(y + z, x) == Times(y, x) + Times(z, x)
    ensures Times(x, y - z) == Times(x, y) - Times(x, z)
    ensures Times(y - z, x) == Times(y, x) - Times(z, x)
  {
  }

  lemma Square(h: real)
    ensures Times(h, h) >= 0.0 && (Abs(h) <= 1.0 ==> Times(h, h) <= Abs(h) <= 1.0)
  {
    if Abs(h) <= 1.0 {
      Bounded(h, h, Abs(h), 1.0);
    }
  }

  lemma Scaled(k: real, k': real, s: real)
    requires s >= 0.0 && k <= k'
    ensures Times(k, s) <= Times(k', s)
  {
  }

  lemma TracksAs(g: real -> real, g': real -> real, a: Dual)
    requires Tracks(g, a) && forall h :: g'(h) == g(h)
    ensures Tracks(g', a)
  {
    var k, r :| Within(g, a, k, r);
    assert Within(g', a, k, r);
  }

  lemma ConstantTracks(g: real -> real, x: real)
    requires forall h :: g(h) == x
    ensures Tracks(g, Plain(x))
  {
    assert forall h :: Times(h, 0.0) == 0.0;
    assert Within(g, Plain(x), 0.0, 1.0);
  }

  lemma LinearTracks(g: real -> real, a: Dual)
    requires forall h :: g(h) == Linear(a, h)
    ensures Tracks(g, a)
  {
    assert Within(g, a, 0.0, 1.0);
  }

  /** An error of a curve within its bounds: what it deviates by at h. */
  function Error(g: real -> real, a: Dual, h: real): real {
    g(h) - Linear(a, h)
  }

  lemma ErrorWithin(g: real -> real, a: Dual, k: real, r: real, h: real)
    requires Within(g, a, k, r) && Abs(h) <= r
    ensures Abs(Error(g, a, h)) <= Times(k, Times(h, h)) && g(h) == Linear(a, h) + Error(g, a, h)
  {
  }

  lemma SumTracks(g: real -> real, a: Dual, g': real -> real, b: Dual, sum: real -> real)
    requires Tracks(g, a) && Tracks(g', b) && forall h :: sum(h) == g(h) + g'(h)
    ensures Tracks(sum, Add(a, b))
  {
    var k, r :| Within(g, a, k, r);
    var k', r' :| Within(g', b, k', r');
    forall h | Abs(h) <= Min(r, r')
      ensures Abs(sum(h) - Linear(Add(a, b), h)) <= Times(k + k', Times(h, h))
    {
      hide Within, Times;
      ErrorWithin(g, a, k, r, h);
      ErrorWithin(g', b, k', r', h);
      Distributes(h, a.d, b.d);
      Distributes(Times(h, h), k, k');
    }
    assert Within(sum, Add(a, b), k + k', Min(r, r'));
  }

  lemma NegativeTracks(g: real -> real, a: Dual, minus: real -> real)
    requires Tracks(g, a) && forall h :: minus(h) == -g(h)
    ensures Tracks(minus, Dual(-a.v, -a.d))
  {
    var k, r :| Within(g, a, k, r);
    forall h | Abs(h) <= r
      ensures Abs(minus(h) - Linear(Dual(-a.v, -a.d), h)) <= Times(k, Times(h, h))
    {
      ErrorWithin(g, a, k, r, h);
      assert Times(h, -a.d) == -Times(h, a.d);
    }
    assert Within(minus, Dual(-a.v, -a.d), k, r);
  }

  lemma DifferenceTracks(g: real -> real, a: Dual, g': real -> real, b: Dual, difference: real -> real)
    requires Tracks(g, a) && Tracks(g', b) && forall h :: difference(h) == g(h) - g'(h)
    ensures Tracks(difference, Sub(a, b))
  {
    hide Tracks;
    NegativeTracks(g', b, h => -g'(h));
    SumTracks(g, a, h => -g'(h), Dual(-b.v, -b.d), difference);
  }

  /** The error of a product of two numbers that are linear up to e and e'. */
  lemma ProductError(a: Dual, e: real, b: Dual, e': real, h: real)
    ensures Times(Linear(a, h) + e, Linear(b, h) + e') - Linear(Mul(a, b), h)
            == Times(Times(h, h), Times(a.d, b.d)) + Times(Linear(a, h), e') + Times(e, Linear(b, h)) + Times(e, e')
  {
    var p, q := Linear(a, h), Linear(b, h);
    assert (p + e) * (q + e') == p * q + p * e' + e * q + e * e';
    LinearProduct(a, b, h);
    hide Linear, Mul;
  }

  lemma LinearProduct(a: Dual, b: Dual, h: real)
    ensures Times(Linear(a, h), Linear(b, h)) == Linear(Mul(a, b), h) + Times(Times(h, h), Times(a.d, b.d))
  {
    assert (a.v + h * a.d) * (b.v + h * b.d) == a.v * b.v + h * (a.d * b.v + a.v * b.d) + h * h * (a.d * b.d);
  }

  lemma LinearBound(a: Dual, h: real)
    requires Abs(h) <= 1.0
    ensures Abs(Linear(a, h)) <= Abs(a.v) + Abs(a.d)
  {
    Bounded(h, a.d, 1.0, Abs(a.d));
  }

  /** k * s, times something bounded by m */
  lemma ShareBound(e: real, x: real, k: real, s: real, m: real)
    requires Abs(e) <= Times(k, s) && Abs(x) <= m
    ensures Abs(Times(e, x)) <= Times(Times(k, m), s) && Abs(Times(x, e)) <= Times(Times(k, m), s)
  {
    Bounded(e, x, Times(k, s), m);
    assert Times(Times(k, s), m) == Times(Times(k, m), s) && Times(x, e) == Times(e, x);
  }

  function ProductShare(a: Dual, k: real, b: Dual, k': real): real {
    Abs(Times(a.d, b.d)) + Times(k', Abs(a.v) + Abs(a.d)) + Times(k, Abs(b.v) + Abs(b.d)) + Times(k, k')
  }

  lemma ProductErrorBound(a: Dual, e: real, k: real, b: Dual, e': real, k': real, h: real)
    requires Abs(h) <= 1.0 && Abs(e) <= Times(k, Times(h, h)) && Abs(e') <= Times(k', Times(h, h)) && k' >= 0.0
    ensures Abs(Times(Linear(a, h) + e, Linear(b, h) + e') - Linear(Mul(a, b), h))
            <= Times(ProductShare(a, k, b, k'), Times(h, h))
  {
    hide Times, Linear, Mul;
    var s := Times(h, h);
    Square(h);
    ProductError(a, e, b, e', h);
    LinearBound(a, h);
    LinearBound(b, h);
    ShareBound(e', Linear(a, h), k', s, Abs(a.v) + Abs(a.d));
    ShareBound(e, Linear(b, h), k, s, Abs(b.v) + Abs(b.d));
    AtMostShare(k', s);
    ShareBound(e, e', k, s, k');
    Bounded(s, Times(a.d, b.d), s, Abs(Times(a.d, b.d)));
    TimesSwaps(s, Abs(Times(a.d, b.d)));
    Distributes(s, Abs(Times(a.d, b.d)), Times(k', Abs(a.v) + Abs(a.d)));
    Distributes(s, Abs(Times(a.d, b.d)) + Times(k', Abs(a.v) + Abs(a.d)), Times(k, Abs(b.v) + Abs(b.d)));
    Distributes(s, Abs(Times(a.d, b.d)) + Times(k', Abs(a.v) + Abs(a.d)) + Times(k, Abs(b.v) + Abs(b.d)), Times(k, k'));
  }

  lemma TimesSwaps(x: real, y: real)
    ensures Times(x, y) == Times(y, x)
  {
  }

  lemma AtMostShare(k: real, s: real)
    requires 0.0 <= s <= 1.0 && k >= 0.0
    ensures Times(k, s) <= k
  {
  }

  lemma ProductTracks(g: real -> real, a: Dual, g': real -> real, b: Dual, product: real -> real)
    requires Tracks(g, a) && Tracks(g', b) && forall h :: product(h) == Times(g(h), g'(h))
    ensures Tracks(product, Mul(a, b))
  {
    hide Times, ProductShare, Linear, Mul, Error, Within;
    var k, r :| Within(g, a, k, r);
    var k', r' :| Within(g', b, k', r');
    WithinSigns(g, a, k, r);
    WithinSigns(g', b, k', r');
    var near := Min(1.0, Min(r, r'));
    forall h | Abs(h) <= near
      ensures Abs(product(h) - Linear(Mul(a, b), h)) <= Times(ProductShare(a, k, b, k'), Times(h, h))
    {
      ErrorWithin(g, a, k, r, h);
      ErrorWithin(g', b, k', r', h);
      ProductErrorBound(a, Error(g, a, h), k, b, Error(g', b, h), k', h);
    }
    ShareNotNegative(a, k, b, k');
    WithinIf(product, Mul(a, b), ProductShare(a, k, b, k'), near);
  }

  lemma ShareNotNegative(a: Dual, k: real, b: Dual, k': real)
    requires k >= 0.0 && k' >= 0.0
    ensures ProductShare(a, k, b, k') >= 0.0
  {
  }

  // ----- quotients -----

  /** Close to a value other than zero a curve keeps at least half of it, with its sign. */
  lemma StaysAway(g: real -> real, a: Dual) returns (k: real, r: real)
    requires Tracks(g, a) && a.v != 0.0
    ensures Within(g, a, k, r) && r <= 1.0
    ensures forall h :: Abs(h) <= r ==> Abs(g(h) - a.v) <= 0.5 * Abs(a.v)
  {
    var r0: real;
    k, r0 :| Within(g, a, k, r0);
    var m := 2.0 * (Abs(a.d) + k + 1.0);
    r := Min(Min(1.0, r0), Abs(a.v) / m);
    BelowShare(r, Abs(a.v), m);
    assert Within(g, a, k, r);
    forall h | Abs(h) <= r
      ensures Abs(g(h) - a.v) <= 0.5 * Abs(a.v)
    {
      ErrorWithin(g, a, k, r0, h);
      hide Within, Error, Times, Linear;
      Wobble(a, Error(g, a, h), k, h, r);
    }
  }

  lemma Wobble(a: Dual, e: real, k: real, h: real, r: real)
    requires Abs(h) <= r <= 1.0 && k >= 0.0 && Abs(e) <= Times(k, Times(h, h))
    requires Times(r, 2.0 * (Abs(a.d) + k + 1.0)) <= Abs(a.v)
    ensures Abs(Linear(a, h) + e - a.v) <= 0.5 * Abs(a.v)
  {
    hide Times;
    var m := Abs(a.d) + k;
    Square(h);
    Bounded(h, a.d, Abs(h), Abs(a.d));
    Scaled'(k, Times(h, h), Abs(h));
    TimesSwaps(k, Abs(h));
    Distributes(Abs(h), Abs(a.d), k);
    Scaled'(m, Abs(h), r);
    Doubled(r, m);
  }

  lemma Doubled(r: real, m: real)
    ensures Times(r, 2.0 * (m + 1.0)) == 2.0 * Times(r, m) + 2.0 * r
  {
  }

  lemma Scaled'(k: real, s: real, s': real)
    requires k >= 0.0 && s <= s'
    ensures k * s <= k * s' && Times(k, s) <= Times(k, s') && Times(s, k) <= Times(s', k)
    ensures 0.0 <= s ==> 0.0 <= Times(k, s)
  {
  }

  /** What a quotient deviates from its linear form by, times its denominator. */
  lemma QuotientRest(a: Dual, e: real, b: Dual, e': real, h: real)
    requires b.v != 0.0
    ensures var q := Div(a, b);
            (Linear(a, h) + e) - Times(Linear(q, h), Linear(b, h) + e')
            == e - Times(Times(h, h), Times(q.d, b.d)) - Times(Linear(q, h), e')
  {
    var q := Div(a, b);
    QuotientBack(a, b);
    LinearProduct(q, b, h);
    hide Div, Linear, Mul;
    assert Times(Linear(q, h), Linear(b, h) + e') == Times(Linear(q, h), Linear(b, h)) + Times(Linear(q, h), e');
  }

  /** Division undoes multiplication, derivative parts included. */
  lemma QuotientBack(a: Dual, b: Dual)
    requires b.v != 0.0
    ensures Mul(Div(a, b), b) == a
  {
    var q := a.v / b.v;
    assert q * b.v == a.v;
    assert (a.d - q * b.d) / b.v * b.v == a.d - q * b.d;
  }

  function QuotientShare(a: Dual, k: real, b: Dual, k': real): real {
    var q := Div(a, b);
    k + Abs(Times(q.d, b.d)) + Times(k', Abs(q.v) + Abs(q.d))
  }

  lemma QuotientRestBound(a: Dual, e: real, k: real, b: Dual, e': real, k': real, h: real)
    requires b.v != 0.0 && Abs(h) <= 1.0
    requires Abs(e) <= Times(k, Times(h, h)) && Abs(e') <= Times(k', Times(h, h))
    ensures Abs(Linear(a, h) + e - Times(Linear(Div(a, b), h), Linear(b, h) + e'))
            <= Times(QuotientShare(a, k, b, k'), Times(h, h))
  {
    hide Times, Linear, Div;
    var q, s := Div(a, b), Times(h, h);
    Square(h);
    QuotientRest(a, e, b, e', h);
    LinearBound(q, h);
    ShareBound(e', Linear(q, h), k', s, Abs(q.v) + Abs(q.d));
    Bounded(s, Times(q.d, b.d), s, Abs(Times(q.d, b.d)));
    TimesSwaps(s, Abs(Times(q.d, b.d)));
    Distributes(s, k, Abs(Times(q.d, b.d)));
    Distributes(s, k + Abs(Times(q.d, b.d)), Times(k', Abs(q.v) + Abs(q.d)));
  }

  /** y / z deviates from w by at most 2 p / m, if y deviates from w * z by at most p and z keeps away from zero. */
  lemma Divided(y: real, z: real, w: real, p: real, m: real)
    requires m > 0.0 && Abs(z) >= 0.5 * m && Abs(y - Times(w, z)) <= p
    ensures Abs(y / z - w) <= 2.0 / m * p
  {
    var x := y / z - w;
    assert y / z * z == y;
    assert x * z == y - w * z;
    assert Abs(x) * Abs(z) == Abs(x * z);
    Scaled'(Abs(x), 0.5 * m, Abs(z));
    assert Abs(x) * (0.5 * m) <= p;
    assert 2.0 / m * (Abs(x) * (0.5 * m)) == Abs(x) by {
      assert 2.0 / m * m == 2.0;
    }
    Scaled'(2.0 / m, Abs(x) * (0.5 * m), p);
  }

  function Over(y: real, z: real): real {
    if z == 0.0 then 0.0 else y / z
  }

  function QuotientBound(a: Dual, k: real, b: Dual, k': real): real
    requires b.v != 0.0
  {
    Times(2.0 / Abs(b.v), QuotientShare(a, k, b, k'))
  }

  lemma QuotientAt(y: real, a: Dual, k: real, z: real, b: Dual, k': real, h: real)
    requires b.v != 0.0 && Abs(h) <= 1.0 && Abs(z - b.v) <= 0.5 * Abs(b.v)
    requires Abs(y - Linear(a, h)) <= Times(k, Times(h, h)) && Abs(z - Linear(b, h)) <= Times(k', Times(h, h))
    ensures z != 0.0 && Abs(Over(y, z) - Linear(Div(a, b), h)) <= Times(QuotientBound(a, k, b, k'), Times(h, h))
  {
    hide QuotientShare, Linear, Div, Times;
    var share, s := QuotientShare(a, k, b, k'), Times(h, h);
    QuotientRestBound(a, y - Linear(a, h), k, b, z - Linear(b, h), k', h);
    Divided(y, z, Linear(Div(a, b), h), Times(share, s), Abs(b.v));
    TimesNested(2.0 / Abs(b.v), share, s);
  }

  lemma TimesNested(x: real, y: real, z: real)
    ensures Times(x, Times(y, z)) == Times(Times(x, y), z) && Times(x, Times(y, z)) == x * Times(y, z)
  {
  }

  lemma QuotientTracks(g: real -> real, a: Dual, g': real -> real, b: Dual, quotient: real -> real)
    requires Tracks(g, a) && Tracks(g', b) && b.v != 0.0
    requires forall h :: g'(h) != 0.0 ==> quotient(h) == Over(g(h), g'(h))
    ensures Tracks(quotient, Div(a, b))
  {
    hide Times, Linear, Div, QuotientBound, Within, Over, Abs;
    var k, r :| Within(g, a, k, r);
    var k', r' := StaysAway(g', b);
    WithinSigns(g, a, k, r);
    WithinSigns(g', b, k', r');
    forall h | Abs(h) <= Min(r, r')
      ensures Abs(quotient(h) - Linear(Div(a, b), h)) <= Times(QuotientBound(a, k, b, k'), Times(h, h))
    {
      ErrorWithin(g, a, k, r, h);
      ErrorWithin(g', b, k', r', h);
      assert Abs(g'(h) - b.v) <= 0.5 * Abs(b.v);
      QuotientAt(g(h), a, k, g'(h), b, k', h);
    }
    QuotientShareNotNegative(a, k, b, k');
    WithinIf(quotient, Div(a, b), QuotientBound(a, k, b, k'), Min(r, r'));
  }

  lemma WithinSigns(g: real -> real, a: Dual, k: real, r: real)
    requires Within(g, a, k, r)
    ensures r > 0.0 && k >= 0.0
  {
  }

  lemma WithinIf(g: real -> real, a: Dual, k: real, r: real)
    requires r > 0.0 && k >= 0.0
    requires forall h :: Abs(h) <= r ==> Abs(g(h) - Linear(a, h)) <= Times(k, Times(h, h))
    ensures Tracks(g, a)
  {
    hide Times, Linear;
    assert Within(g, a, k, r);
  }

  lemma QuotientShareNotNegative(a: Dual, k: real, b: Dual, k': real)
    requires k >= 0.0 && k' >= 0.0 && b.v != 0.0
    ensures QuotientBound(a, k, b, k') >= 0.0
  {
    hide Times;
    var q := Div(a, b);
    Scaled'(k', Abs(q.v) + Abs(q.d), Abs(q.v) + Abs(q.d));
    Scaled'(2.0 / Abs(b.v), QuotientShare(a, k, b, k'), QuotientShare(a, k, b, k'));
  }

  // ----- kinks, and functions of one variable -----

  /** An absolute value is one of the two signs of its argument, and not negative. */
  lemma AbsoluteIs(a: Dual)
    ensures AbsD(a).v == Abs(a.v)
    ensures AbsD(a) == a || AbsD(a) == Sub(Plain(0.0), a)
  {
  }

  /** A maximum is one of its arguments, and at least both. */
  lemma MaximumIs(a: Dual, b: Dual)
    ensures MaxD(a, b) == a || MaxD(a, b) == b
    ensures MaxD(a, b).v >= a.v && MaxD(a, b).v >= b.v
  {
  }

  lemma NearbyTracks(g: real -> real, a: Dual, g': real -> real, r: real)
    requires Tracks(g, a) && r > 0.0 && forall h :: Abs(h) <= r ==> g'(h) == g(h)
    ensures Tracks(g', a)
  {
    var k, r' :| Within(g, a, k, r');
    assert Within(g', a, k, Min(r, r'));
  }

  lemma SignKept(y: real, v: real)
    requires Abs(y - v) <= 0.5 * Abs(v)
    ensures Abs(y) == if v > 0.0 then y else -y
    ensures v > 0.0 ==> y > 0.0
    ensures v < 0.0 ==> y < 0.0
  {
  }

  /** A curve that touches zero without crossing it has no kink there. */
  lemma TouchingTracks(g: real -> real, absolute: real -> real)
    requires Tracks(g, Plain(0.0)) && forall h :: absolute(h) == Abs(g(h))
    ensures Tracks(absolute, Plain(0.0))
  {
    var k, r :| Within(g, Plain(0.0), k, r);
    hide Times;
    forall h | Abs(h) <= r
      ensures Abs(absolute(h) - Linear(Plain(0.0), h)) <= Times(k, Times(h, h))
    {
      ErrorWithin(g, Plain(0.0), k, r, h);
      NothingAlong(h);
    }
    WithinIf(absolute, Plain(0.0), k, r);
  }

  lemma NothingAlong(h: real)
    ensures Linear(Plain(0.0), h) == 0.0
  {
  }

  lemma AbsoluteTracks(g: real -> real, a: Dual, absolute: real -> real)
    requires Tracks(g, a) && (a.v != 0.0 || a.d == 0.0) && forall h :: absolute(h) == Abs(g(h))
    ensures Tracks(absolute, AbsD(a))
  {
    if a.v == 0.0 {
      TouchingTracks(g, absolute);
    } else {
      AwayTracks(g, a, absolute);
    }
  }

  lemma AwayTracks(g: real -> real, a: Dual, absolute: real -> real)
    requires Tracks(g, a) && a.v != 0.0 && forall h :: absolute(h) == Abs(g(h))
    ensures Tracks(absolute, AbsD(a))
  {
    hide Times, Linear, Within, Tracks, Abs;
    var k, r := StaysAway(g, a);
    WithinSigns(g, a, k, r);
    var minus: real -> real := h => -g(h);
    forall h | Abs(h) <= r
      ensures absolute(h) == if a.v > 0.0 then g(h) else minus(h)
    {
      SignKept(g(h), a.v);
    }
    if a.v > 0.0 {
      NearbyTracks(g, a, absolute, r);
    } else {
      NegativeTracks(g, a, minus);
      NearbyTracks(minus, Dual(-a.v, -a.d), absolute, r);
    }
  }

  lemma TiedTracks(g: real -> real, g': real -> real, a: Dual, maximum: real -> real)
    requires Tracks(g, a) && Tracks(g', a) && forall h :: maximum(h) == g(h) || maximum(h) == g'(h)
    ensures Tracks(maximum, a)
  {
    hide Times, Linear;
    var k, r :| Within(g, a, k, r);
    var k', r' :| Within(g', a, k', r');
    forall h | Abs(h) <= Min(r, r')
      ensures Abs(maximum(h) - Linear(a, h)) <= Times(Max(k, k'), Times(h, h))
    {
      Square(h);
      ErrorWithin(g, a, k, r, h);
      ErrorWithin(g', a, k', r', h);
      Scaled(k, Max(k, k'), Times(h, h));
      Scaled(k', Max(k, k'), Times(h, h));
    }
    WithinIf(maximum, a, Max(k, k'), Min(r, r'));
  }

  lemma MaximumTracks(g: real -> real, a: Dual, g': real -> real, b: Dual, maximum: real -> real)
    requires Tracks(g, a) && Tracks(g', b) && (a.v != b.v || a == b)
    requires forall h :: maximum(h) == Max(g(h), g'(h))
    ensures Tracks(maximum, MaxD(a, b))
  {
    hide Within;
    if a == b {
      TiedTracks(g, g', a, maximum);
    } else {
      ApartTracks(g, a, g', b, maximum);
    }
  }

  lemma ApartTracks(g: real -> real, a: Dual, g': real -> real, b: Dual, maximum: real -> real)
    requires Tracks(g, a) && Tracks(g', b) && a.v != b.v && forall h :: maximum(h) == Max(g(h), g'(h))
    ensures Tracks(maximum, MaxD(a, b))
  {
    hide Times, Linear, Within, Tracks, Abs;
    var gap: real -> real := h => g(h) - g'(h);
    DifferenceTracks(g, a, g', b, gap);
    var k, r := StaysAway(gap, Sub(a, b));
    WithinSigns(gap, Sub(a, b), k, r);
    forall h | Abs(h) <= r
      ensures maximum(h) == if a.v < b.v then g'(h) else g(h)
    {
      SignKept(gap(h), a.v - b.v);
    }
    if a.v < b.v {
      NearbyTracks(g', b, maximum, r);
    } else {
      NearbyTracks(g, a, maximum, r);
    }
  }

  /** The function is smooth at x, with the derivative it claims. */
  ghost predicate SmoothAt(s: Smooth, x: real) {
    Tracks(t => s.f(x + t), Dual(s.f(x), s.df(x)))
  }

  lemma FunctionTracks(s: Smooth, g: real -> real, a: Dual, composed: real -> real)
    requires Tracks(g, a) && SmoothAt(s, a.v) && forall h :: composed(h) == s.f(g(h))
    ensures Tracks(composed, Apply(s, a))
  {
    hide Times, Linear, Within, ComposedShare, Error, Apply;
    var outer: real -> real := t => s.f(a.v + t);
    var slope := Dual(s.f(a.v), s.df(a.v));
    TracksAs(t => s.f(a.v + t), outer, slope);
    var k, r :| Within(g, a, k, r);
    var k', r' :| Within(outer, slope, k', r');
    WithinSigns(g, a, k, r);
    WithinSigns(outer, slope, k', r');
    var m := Abs(a.d) + k + 1.0;
    var near := Min(Min(1.0, r), r' / m);
    BelowShare(near, r', m);
    forall h | Abs(h) <= near
      ensures Abs(composed(h) - Linear(Apply(s, a), h)) <= Times(ComposedShare(s, a, k, k'), Times(h, h))
    {
      ErrorWithin(g, a, k, r, h);
      FunctionAt(s, g(h), a, Error(g, a, h), k, outer, k', r', h, near);
    }
    ComposedShareNotNegative(s, a, k, k');
    WithinIf(composed, Apply(s, a), ComposedShare(s, a, k, k'), near);
  }

  lemma FunctionAt(s: Smooth, y: real, a: Dual, e: real, k: real, outer: real -> real, k': real, r: real, h: real,
                   near: real)
    requires Within(outer, Dual(s.f(a.v), s.df(a.v)), k', r) && forall t :: outer(t) == s.f(a.v + t)
    requires y == Linear(a, h) + e && k >= 0.0 && Abs(e) <= Times(k, Times(h, h))
    requires Abs(h) <= near <= 1.0 && Times(near, Abs(a.d) + k + 1.0) <= r
    ensures Abs(s.f(y) - Linear(Apply(s, a), h)) <= Times(ComposedShare(s, a, k, k'), Times(h, h))
  {
    hide Times, Within, ComposedShare, Error, Apply;
    var slope, t := Dual(s.f(a.v), s.df(a.v)), Times(h, a.d) + e;
    WithinSigns(outer, slope, k', r);
    InnerNear(a, e, k, h, near, r);
    ErrorWithin(outer, slope, k', r, t);
    assert outer(t) == s.f(a.v + t) && a.v + t == y;
    Composed(s, a, e, k, Error(outer, slope, t), k', h);
  }

  function ComposedShare(s: Smooth, a: Dual, k: real, k': real): real {
    var m := Abs(a.d) + k;
    Times(k, Abs(s.df(a.v))) + Times(k', Times(m, m))
  }

  lemma ComposedShareNotNegative(s: Smooth, a: Dual, k: real, k': real)
    requires k >= 0.0 && k' >= 0.0
    ensures ComposedShare(s, a, k, k') >= 0.0
  {
    hide Times;
    var m := Abs(a.d) + k;
    Square(m);
    Scaled'(k, Abs(s.df(a.v)), Abs(s.df(a.v)));
    Scaled'(k', Times(m, m), Times(m, m));
  }

  lemma InnerNear(a: Dual, e: real, k: real, h: real, near: real, r: real)
    requires Abs(h) <= near <= 1.0 && k >= 0.0 && Abs(e) <= Times(k, Times(h, h))
    requires Times(near, Abs(a.d) + k + 1.0) <= r
    ensures Abs(Times(h, a.d) + e) <= r
  {
    hide Times;
    var m := Abs(a.d) + k;
    InnerStep(a, e, k, h);
    Scaled'(m, Abs(h), near);
    TimesSwaps(m, Abs(h));
    Scaled'(near, m, m + 1.0);
  }

  lemma InnerStep(a: Dual, e: real, k: real, h: real)
    requires Abs(h) <= 1.0 && k >= 0.0 && Abs(e) <= Times(k, Times(h, h))
    ensures Abs(Times(h, a.d) + e) <= Times(Abs(a.d) + k, Abs(h))
  {
    hide Times;
    Square(h);
    Bounded(h, a.d, Abs(h), Abs(a.d));
    Scaled'(k, Times(h, h), Abs(h));
    Distributes(Abs(h), Abs(a.d), k);
    TimesSwaps(Abs(h), Abs(a.d));
    TimesSwaps(Abs(h), k);
    TimesSwaps(Abs(h), Abs(a.d) + k);
  }

  lemma SquareOfProduct(m: real, x: real)
    ensures Times(Times(m, x), Times(m, x)) == Times(Times(m, m), Times(x, x))
  {
  }

  lemma SquareOfAbs(h: real)
    ensures Times(Abs(h), Abs(h)) == Times(h, h)
  {
  }

  /** The slope of the outer function, applied to the inner step. */
  lemma InnerSlope(h: real, d: real, e: real, x: real)
    ensures Times(Times(h, d) + e, x) == Times(h, Times(x, d)) + Times(e, x)
  {
  }

  lemma ApplyLinear(s: Smooth, a: Dual, h: real)
    ensures Linear(Apply(s, a), h) == s.f(a.v) + Times(h, Times(s.df(a.v), a.d))
  {
  }

  lemma Composed(s: Smooth, a: Dual, e: real, k: real, e': real, k': real, h: real)
    requires Abs(h) <= 1.0 && k >= 0.0 && k' >= 0.0 && Abs(e) <= Times(k, Times(h, h))
    requires var t := Times(h, a.d) + e; Abs(e') <= Times(k', Times(t, t))
    ensures var t := Times(h, a.d) + e;
            Abs(s.f(a.v) + Times(t, s.df(a.v)) + e' - Linear(Apply(s, a), h))
            <= Times(ComposedShare(s, a, k, k'), Times(h, h))
  {
    hide Times, Linear, Apply;
    var t, m, x := Times(h, a.d) + e, Abs(a.d) + k, s.df(a.v);
    InnerStep(a, e, k, h);
    Bounded(t, t, Times(m, Abs(h)), Times(m, Abs(h)));
    SquareOfProduct(m, Abs(h));
    SquareOfAbs(h);
    Scaled'(k', Times(t, t), Times(Times(m, m), Times(h, h)));
    TimesNested(k', Times(m, m), Times(h, h));
    ShareBound(e, x, k, Times(h, h), Abs(x));
    InnerSlope(h, a.d, e, x);
    ApplyLinear(s, a, h);
    Distributes(Times(h, h), Times(k, Abs(x)), Times(k', Times(m, m)));
  }

  // ----- the operations as functions of curves -----

  function Fixed(x: real): real -> real {
    h => x
  }

  function Plus(g: real -> real, g': real -> real): real -> real {
    h => g(h) + g'(h)
  }

  function Less(g: real -> real, g': real -> real): real -> real {
    h => g(h) - g'(h)
  }

  function By(g: real -> real, g': real -> real): real -> real {
    h => Times(g(h), g'(h))
  }

  function Size(g: real -> real): real -> real {
    h => Abs(g(h))
  }

  lemma OperationsAt(g: real -> real, g': real -> real, h: real)
    ensures Plus(g, g')(h) == g(h) + g'(h) && Less(g, g')(h) == g(h) - g'(h) && By(g, g')(h) == Times(g(h), g'(h))
  {
  }

  lemma FixedAt(x: real, h: real)
    ensures Fixed(x)(h) == x
  {
  }

  lemma SizeAt(g: real -> real, h: real)
    ensures Size(g)(h) == Abs(g(h))
  {
  }

  lemma FixedTracks(x: real)
    ensures Tracks(Fixed(x), Plain(x))
  {
    ConstantTracks(Fixed(x), x);
  }

  lemma PlusTracks(g: real -> real, a: Dual, g': real -> real, b: Dual)
    requires Tracks(g, a) && Tracks(g', b)
    ensures Tracks(Plus(g, g'), Add(a, b)) && Tracks(Less(g, g'), Sub(a, b)) && Tracks(By(g, g'), Mul(a, b))
  {
    hide Tracks;
    SumTracks(g, a, g', b, Plus(g, g'));
    DifferenceTracks(g, a, g', b, Less(g, g'));
    ProductTracks(g, a, g', b, By(g, g'));
  }

  lemma SizeTracks(g: real -> real, a: Dual)
    requires Tracks(g, a) && (a.v != 0.0 || a.d == 0.0)
    ensures Tracks(Size(g), AbsD(a))
  {
    hide Tracks;
    AbsoluteTracks(g, a, Size(g));
  }

  // ----- expressions -----

  /** No denominator vanishes, no kink is crossed, and every function used is smooth where it is used. */
  ghost predicate Regular<I>(e: Expr<I>, look: I -> Dual) {
    match e
    case Const(_) => true
    case Input(_) => true
    case Sum(l, r) => Regular(l, look) && Regular(r, look)
    case Difference(l, r) => Regular(l, look) && Regular(r, look)
    case Product(l, r) => Regular(l, look) && Regular(r, look)
    case Quotient(l, r) => Regular(l, look) && Regular(r, look) && Eval(r, look).v != 0.0
    case Absolute(a) => Regular(a, look) && (Eval(a, look).v != 0.0 || Eval(a, look).d == 0.0)
    case Maximum(l, r) =>
      Regular(l, look) && Regular(r, look) && (Eval(l, look).v != Eval(r, look).v || Eval(l, look) == Eval(r, look))
    case Function(s, a) => Regular(a, look) && SmoothAt(s, Eval(a, look).v)
  }

  /** The inputs move along curves with the seeded slopes. */
  ghost predicate Moves<I(!new)>(looks: real -> I -> Dual, look: I -> Dual) {
    forall i :: Tracks(h => looks(h)(i).v, look(i))
  }

  /** The value of a regular expression along the curve. */
  function Curve<I>(e: Expr<I>, looks: real -> I -> Dual): real -> real {
    h => Eval(e, looks(h)).v
  }

  lemma CurveAt<I>(e: Expr<I>, looks: real -> I -> Dual, h: real)
    ensures Curve(e, looks)(h) == Eval(e, looks(h)).v
  {
  }

  /** Chain rule: along any curve of the inputs the derivative part of the expression is the slope of its value. */
  lemma {:induction false} ExpressionTracks<I(!new)>(e: Expr<I>, looks: real -> I -> Dual, look: I -> Dual)
    requires Regular(e, look) && Moves(looks, look)
    ensures Tracks(Curve(e, looks), Eval(e, look))
  {
    hide Tracks, SmoothAt, Curve, Moves;
    match e
    case Const(x) =>
      forall h ensures Curve(e, looks)(h) == x {
        CurveAt(e, looks, h);
      }
      ConstantTracks(Curve(e, looks), x);
    case Input(i) => InputTracks(i, looks, look);
    case Absolute(a) =>
      ExpressionTracks(a, looks, look);
      forall h ensures Curve(e, looks)(h) == Abs(Curve(a, looks)(h)) {
        CurveAt(e, looks, h);
        CurveAt(a, looks, h);
        AbsoluteIs(Eval(a, looks(h)));
      }
      AbsoluteTracks(Curve(a, looks), Eval(a, look), Curve(e, looks));
    case Function(s, a) =>
      ExpressionTracks(a, looks, look);
      forall h ensures Curve(e, looks)(h) == s.f(Curve(a, looks)(h)) {
        CurveAt(e, looks, h);
        CurveAt(a, looks, h);
      }
      FunctionTracks(s, Curve(a, looks), Eval(a, look), Curve(e, looks));
    case Sum(l, r) =>
      ExpressionTracks(l, looks, look);
      ExpressionTracks(r, looks, look);
      forall h ensures Curve(e, looks)(h) == Curve(l, looks)(h) + Curve(r, looks)(h) {
        TwoCurves(e, l, r, looks, h);
      }
      SumTracks(Curve(l, looks), Eval(l, look), Curve(r, looks), Eval(r, look), Curve(e, looks));
    case Difference(l, r) =>
      ExpressionTracks(l, looks, look);
      ExpressionTracks(r, looks, look);
      forall h ensures Curve(e, looks)(h) == Curve(l, looks)(h) - Curve(r, looks)(h) {
        TwoCurves(e, l, r, looks, h);
      }
      DifferenceTracks(Curve(l, looks), Eval(l, look), Curve(r, looks), Eval(r, look), Curve(e, looks));
    case Product(l, r) =>
      ExpressionTracks(l, looks, look);
      ExpressionTracks(r, looks, look);
      forall h ensures Curve(e, looks)(h) == Times(Curve(l, looks)(h), Curve(r, looks)(h)) {
        TwoCurves(e, l, r, looks, h);
      }
      ProductTracks(Curve(l, looks), Eval(l, look), Curve(r, looks), Eval(r, look), Curve(e, looks));
    case Quotient(l, r) =>
      ExpressionTracks(l, looks, look);
      ExpressionTracks(r, looks, look);
      forall h
        ensures Curve(r, looks)(h) != 0.0 ==> Curve(e, looks)(h) == Over(Curve(l, looks)(h), Curve(r, looks)(h)) {
        TwoCurves(e, l, r, looks, h);
      }
      QuotientTracks(Curve(l, looks), Eval(l, look), Curve(r, looks), Eval(r, look), Curve(e, looks));
    case Maximum(l, r) =>
      ExpressionTracks(l, looks, look);
      ExpressionTracks(r, looks, look);
      forall h ensures Curve(e, looks)(h) == Max(Curve(l, looks)(h), Curve(r, looks)(h)) {
        TwoCurves(e, l, r, looks, h);
      }
      MaximumTracks(Curve(l, looks), Eval(l, look), Curve(r, looks), Eval(r, look), Curve(e, looks));
  }

  lemma TwoCurves<I>(e: Expr<I>, l: Expr<I>, r: Expr<I>, looks: real -> I -> Dual, h: real)
    ensures Curve(e, looks)(h) == Eval(e, looks(h)).v
    ensures Curve(l, looks)(h) == Eval(l, looks(h)).v
    ensures Curve(r, looks)(h) == Eval(r, looks(h)).v
  {
  }

  lemma InputTracks<I(!new)>(i: I, looks: real -> I -> Dual, look: I -> Dual)
    requires Moves(looks, look)
    ensures Tracks(Curve(Input(i), looks), look(i))
  {
    hide Tracks;
    TracksAs(h => looks(h)(i).v, Curve(Input(i), looks), look(i));
  }
}
