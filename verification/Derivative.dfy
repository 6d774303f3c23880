/**
 The derivative part of a dual number is a derivative: for a polynomial expression, the value at a point moved by h
 along the seeded direction differs from value + h * derivative by at most a constant times h squared.
 */
module PolynomialDerivative {
  import opened Prelude
  import opened DualNumbers

  predicate Polynomial<I>(e: Expr<I>) {
    match e
    case Const(_) => true
    case Input(_) => true
    case Sum(l, r) => Polynomial(l) && Polynomial(r)
    case Difference(l, r) => Polynomial(l) && Polynomial(r)
    case Product(l, r) => Polynomial(l) && Polynomial(r)
    case _ => false
  }

  /** The inputs, moved by h along the seeded direction. */
  function Moved<I>(look: I -> Dual, h: real): I -> Dual {
    (i: I) => Plain(look(i).v + Times(h, look(i).d))
  }

  /** The remainder of the product of v1 + h d1 + h^2 r1 and v2 + h d2 + h^2 r2. */
  function ProductRemainder(a: Dual, r1: real, b: Dual, r2: real, h: real): real {
    Times(a.d, b.d) + Times(a.v, r2) + Times(r1, b.v) + Times(h, Times(a.d, r2) + Times(r1, b.d)) +
    Times(h, Times(h, Times(r1, r2)))
  }

  function Remainder<I>(e: Expr<I>, look: I -> Dual, h: real): real {
    match e
    case Sum(l, r) => Remainder(l, look, h) + Remainder(r, look, h)
    case Difference(l, r) => Remainder(l, look, h) - Remainder(r, look, h)
    case Product(l, r) =>
      ProductRemainder(Eval(l, look), Remainder(l, look, h), Eval(r, look), Remainder(r, look, h), h)
    case _ => 0.0
  }

  /** value + h * derivative + h^2 * remainder */
  function Expansion(a: Dual, r: real, h: real): real {
    a.v + Times(h, a.d) + Times(h, Times(h, r))
  }

  lemma TimesSum(x: real, y: real, z: real)
    ensures Times(x, y + z) == Times(x, y) + Times(x, z)
    ensures Times(y + z, x) == Times(y, x) + Times(z, x)
  {
  }

  lemma Pull(h: real, x: real, y: real)
    ensures Times(x, Times(h, y)) == Times(h, Times(x, y)) == Times(Times(h, x), y)
  {
  }

  lemma ThreeByThree(a: real, p: real, u: real, b: real, q: real, v: real)
    ensures Times(a + p + u, b + q + v) ==
            Times(a, b) + Times(a, q) + Times(a, v) + Times(p, b) + Times(p, q) + Times(p, v) +
            Times(u, b) + Times(u, q) + Times(u, v)
  {
  }

  /** h * (t1 + ... + t5) */
  lemma Spread(h: real, t1: real, t2: real, t3: real, t4: real, t5: real)
    ensures Times(h, t1 + t2 + t3 + t4 + t5) == Times(h, t1) + Times(h, t2) + Times(h, t3) + Times(h, t4) + Times(h, t5)
  {
  }

  /** h x times h y */
  lemma Square(h: real, x: real, y: real)
    ensures Times(Times(h, x), Times(h, y)) == Times(h, Times(h, Times(x, y)))
  {
  }

  lemma ExpansionProduct(a: Dual, r1: real, b: Dual, r2: real, h: real)
    ensures Times(Expansion(a, r1, h), Expansion(b, r2, h)) ==
            Expansion(Mul(a, b), ProductRemainder(a, r1, b, r2, h), h)
  {
    MulTimes(a, b);
    hide Times, Mul;
    var p, q, hr1, hr2 := Times(h, a.d), Times(h, b.d), Times(h, r1), Times(h, r2);
    ThreeByThree(a.v, p, Times(h, hr1), b.v, q, Times(h, hr2));
    // first order
    Pull(h, a.v, b.d);
    Pull(h, a.d, b.v);
    TimesSum(h, Times(a.d, b.v), Times(a.v, b.d));
    // second order
    Pull(h, a.v, hr2);
    Pull(h, a.v, r2);
    Pull(h, hr1, b.v);
    Pull(h, r1, b.v);
    Square(h, a.d, b.d);
    // third and fourth order
    Square(h, a.d, hr2);
    Pull(h, a.d, r2);
    Square(h, hr1, b.d);
    Pull(h, r1, b.d);
    Square(h, hr1, hr2);
    Square(h, r1, r2);
    var s1, s2, s3 := Times(a.d, b.d), Times(a.v, r2), Times(r1, b.v);
    var s4, s5 := Times(h, Times(a.d, r2) + Times(r1, b.d)), Times(h, Times(h, Times(r1, r2)));
    Spread(h, s1, s2, s3, s4, s5);
    Spread(h, Times(h, s1), Times(h, s2), Times(h, s3), Times(h, s4), Times(h, s5));
    TimesSum(h, Times(a.d, r2), Times(r1, b.d));
    TimesSum(h, Times(h, Times(a.d, r2)), Times(h, Times(r1, b.d)));
    TimesSum(h, Times(h, Times(h, Times(a.d, r2))), Times(h, Times(h, Times(r1, b.d))));
  }

  lemma MulTimes(a: Dual, b: Dual)
    ensures Mul(a, b).v == Times(a.v, b.v) && Mul(a, b).d == Times(a.d, b.v) + Times(a.v, b.d)
  {
  }

  lemma ExpansionSum(a: Dual, r1: real, b: Dual, r2: real, h: real)
    ensures Expansion(a, r1, h) + Expansion(b, r2, h) == Expansion(Add(a, b), r1 + r2, h)
    ensures Expansion(a, r1, h) - Expansion(b, r2, h) == Expansion(Sub(a, b), r1 - r2, h)
  {
  }

  lemma {:induction false} ExpansionExact<I>(e: Expr<I>, look: I -> Dual, h: real)
    requires Polynomial(e)
    ensures Eval(e, Moved(look, h)).v == Expansion(Eval(e, look), Remainder(e, look, h), h)
  {
    hide Expansion, ProductRemainder, Add, Sub, Mul, Times;
    match e
    case Const(x) => PlainExpansion(x, h);
    case Input(i) => InputExpansion(look(i), h);
    case Sum(l, r) =>
      ExpansionExact(l, look, h);
      ExpansionExact(r, look, h);
      ExpansionSum(Eval(l, look), Remainder(l, look, h), Eval(r, look), Remainder(r, look, h), h);
      AddValue(Eval(l, Moved(look, h)), Eval(r, Moved(look, h)));
    case Difference(l, r) =>
      ExpansionExact(l, look, h);
      ExpansionExact(r, look, h);
      ExpansionSum(Eval(l, look), Remainder(l, look, h), Eval(r, look), Remainder(r, look, h), h);
      AddValue(Eval(l, Moved(look, h)), Eval(r, Moved(look, h)));
    case Product(l, r) =>
      ExpansionExact(l, look, h);
      ExpansionExact(r, look, h);
      ExpansionProduct(Eval(l, look), Remainder(l, look, h), Eval(r, look), Remainder(r, look, h), h);
      MulTimes(Eval(l, Moved(look, h)), Eval(r, Moved(look, h)));
  }

  lemma PlainExpansion(x: real, h: real)
    ensures Expansion(Plain(x), 0.0, h) == x
  {
  }

  lemma InputExpansion(a: Dual, h: real)
    ensures Expansion(a, 0.0, h) == a.v + Times(h, a.d)
  {
  }

  lemma AddValue(a: Dual, b: Dual)
    ensures Add(a, b).v == a.v + b.v && Sub(a, b).v == a.v - b.v
  {
  }

  // ----- the remainder is bounded -----

  function ProductRemainderBound(a: Dual, b1: real, b: Dual, b2: real): real {
    Times(Abs(a.d), Abs(b.d)) + Times(Abs(a.v), b2) + Times(b1, Abs(b.v)) +
    (Times(Abs(a.d), b2) + Times(b1, Abs(b.d))) + Times(b1, b2)
  }

  function Bound<I>(e: Expr<I>, look: I -> Dual): real {
    match e
    case Sum(l, r) => Bound(l, look) + Bound(r, look)
    case Difference(l, r) => Bound(l, look) + Bound(r, look)
    case Product(l, r) =>
      ProductRemainderBound(Eval(l, look), Bound(l, look), Eval(r, look), Bound(r, look))
    case _ => 0.0
  }

  lemma TimesMonotone(a: real, b: real, p: real, q: real)
    requires 0.0 <= a <= p && 0.0 <= b <= q
    ensures Times(a, b) <= Times(p, q)
  {
  }

  /** |x y| <= p q for |x| <= p and |y| <= q */
  lemma ProductBound(x: real, y: real, p: real, q: real)
    requires Abs(x) <= p && Abs(y) <= q
    ensures Abs(Times(x, y)) <= Times(p, q)
  {
  }

  lemma {:induction false} RemainderBounded<I>(e: Expr<I>, look: I -> Dual, h: real)
    requires Polynomial(e) && Abs(h) <= 1.0
    ensures Abs(Remainder(e, look, h)) <= Bound(e, look)
  {
    hide ProductRemainder, ProductRemainderBound;
    match e
    case Sum(l, r) =>
      RemainderBounded(l, look, h);
      RemainderBounded(r, look, h);
    case Difference(l, r) =>
      RemainderBounded(l, look, h);
      RemainderBounded(r, look, h);
    case Product(l, r) =>
      RemainderBounded(l, look, h);
      RemainderBounded(r, look, h);
      ProductRemainderBounded(Eval(l, look), Remainder(l, look, h), Bound(l, look),
                              Eval(r, look), Remainder(r, look, h), Bound(r, look), h);
    case _ =>
  }

  lemma ProductRemainderBounded(a: Dual, r1: real, b1: real, b: Dual, r2: real, b2: real, h: real)
    requires Abs(h) <= 1.0 && Abs(r1) <= b1 && Abs(r2) <= b2
    ensures Abs(ProductRemainder(a, r1, b, r2, h)) <= ProductRemainderBound(a, b1, b, b2)
  {
    hide Times;
    ProductBound(a.d, b.d, Abs(a.d), Abs(b.d));
    ProductBound(a.v, r2, Abs(a.v), b2);
    ProductBound(r1, b.v, b1, Abs(b.v));
    ProductBound(a.d, r2, Abs(a.d), b2);
    ProductBound(r1, b.d, b1, Abs(b.d));
    ProductBound(r1, r2, b1, b2);
    var p, q := Times(Abs(a.d), b2) + Times(b1, Abs(b.d)), Times(b1, b2);
    ProductBound(h, Times(a.d, r2) + Times(r1, b.d), 1.0, p);
    ProductBound(h, Times(r1, r2), 1.0, q);
    OneTimes(p);
    OneTimes(q);
    ProductBound(h, Times(h, Times(r1, r2)), 1.0, q);
  }

  lemma OneTimes(x: real)
    ensures Times(1.0, x) == x
  {
  }

  /** The difference quotient of a polynomial tends to the derivative part. */
  lemma DerivativeIsLimit<I>(e: Expr<I>, look: I -> Dual, h: real)
    requires Polynomial(e) && h != 0.0 && Abs(h) <= 1.0
    ensures Abs((Eval(e, Moved(look, h)).v - Eval(e, look).v) / h - Eval(e, look).d) <= Times(Abs(h), Bound(e, look))
  {
    hide Expansion, Times;
    ExpansionExact(e, look, h);
    RemainderBounded(e, look, h);
    var a, r := Eval(e, look), Remainder(e, look, h);
    QuotientOfExpansion(a, r, h);
    ProductBound(h, r, Abs(h), Bound(e, look));
  }

  lemma QuotientOfExpansion(a: Dual, r: real, h: real)
    requires h != 0.0
    ensures (Expansion(a, r, h) - a.v) / h - a.d == Times(h, r)
  {
  }
}
