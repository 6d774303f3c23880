/**
 Forward-mode automatic differentiation: numbers that carry a value and the derivative along one direction, as
 autodiff::real does (DiFfRG/include/DiFfRG/model/batch.hh:740-743), and expressions over them.
 */
module DualNumbers {

  datatype Dual = Dual(v: real, d: real)

  function Plain(x: real): Dual {
    Dual(x, 0.0)
  }

  function Seeded(a: Dual): Dual {
    a.(d := 1.0)
  }

  function Add(a: Dual, b: Dual): Dual {
    Dual(a.v + b.v, a.d + b.d)
  }

  function Sub(a: Dual, b: Dual): Dual {
    Dual(a.v - b.v, a.d - b.d)
  }

  function Mul(a: Dual, b: Dual): Dual {
    Dual(a.v * b.v, a.d * b.v + a.v * b.d)
  }

  /** Division by zero is not part of the model; it yields zero here. */
  function Div(a: Dual, b: Dual): Dual {
    if b.v == 0.0 then Plain(0.0) else Dual(a.v / b.v, (a.d - a.v / b.v * b.d) / b.v)
  }

  function AbsD(a: Dual): Dual {
    if a.v < 0.0 then Dual(-a.v, -a.d) else a
  }

  function MaxD(a: Dual, b: Dual): Dual {
    if a.v < b.v then b else a
  }

  /** A smooth function of one variable and its derivative. */
  datatype Smooth = Smooth(f: real -> real, df: real -> real)

  function Apply(s: Smooth, a: Dual): Dual {
    Dual(s.f(a.v), s.df(a.v) * a.d)
  }

  // ----- linearity of the derivative part -----

  /** a is evaluated at the same point as a1 and a2, along the direction p1 * (direction 1) + p2 * (direction 2). */
  predicate Combines(a: Dual, a1: Dual, p1: real, a2: Dual, p2: real) {
    a.v == a1.v == a2.v && a.d == p1 * a1.d + p2 * a2.d
  }

  lemma PlainCombines(x: real, p1: real, p2: real)
    ensures Combines(Plain(x), Plain(x), p1, Plain(x), p2)
  {
  }

  lemma SumCombines(a: Dual, a1: Dual, a2: Dual, b: Dual, b1: Dual, b2: Dual, p1: real, p2: real)
    requires Combines(a, a1, p1, a2, p2) && Combines(b, b1, p1, b2, p2)
    ensures Combines(Add(a, b), Add(a1, b1), p1, Add(a2, b2), p2)
    ensures Combines(Sub(a, b), Sub(a1, b1), p1, Sub(a2, b2), p2)
  {
  }

  lemma ProductCombines(a: Dual, a1: Dual, a2: Dual, b: Dual, b1: Dual, b2: Dual, p1: real, p2: real)
    requires Combines(a, a1, p1, a2, p2) && Combines(b, b1, p1, b2, p2)
    ensures Combines(Mul(a, b), Mul(a1, b1), p1, Mul(a2, b2), p2)
  {
  }

  lemma QuotientCombines(a: Dual, a1: Dual, a2: Dual, b: Dual, b1: Dual, b2: Dual, p1: real, p2: real)
    requires Combines(a, a1, p1, a2, p2) && Combines(b, b1, p1, b2, p2)
    ensures Combines(Div(a, b), Div(a1, b1), p1, Div(a2, b2), p2)
  {
  }

  // ----- expressions -----

  /** What a differentiable model may compute from its inputs. */
  datatype Expr<I> =
    | Const(x: real)
    | Input(input: I)
    | Sum(l: Expr<I>, r: Expr<I>)
    | Difference(l: Expr<I>, r: Expr<I>)
    | Product(l: Expr<I>, r: Expr<I>)
    | Quotient(l: Expr<I>, r: Expr<I>)
    | Absolute(e: Expr<I>)
    | Maximum(l: Expr<I>, r: Expr<I>)
    | Function(s: Smooth, e: Expr<I>)

  function Eval<I>(e: Expr<I>, look: I -> Dual): Dual {
    match e
    case Const(x) => Plain(x)
    case Input(i) => look(i)
    case Sum(l, r) => Add(Eval(l, look), Eval(r, look))
    case Difference(l, r) => Sub(Eval(l, look), Eval(r, look))
    case Product(l, r) => Mul(Eval(l, look), Eval(r, look))
    case Quotient(l, r) => Div(Eval(l, look), Eval(r, look))
    case Absolute(a) => AbsD(Eval(a, look))
    case Maximum(l, r) => MaxD(Eval(l, look), Eval(r, look))
    case Function(s, a) => Apply(s, Eval(a, look))
  }

  /** The derivative part of any expression is linear in the seeded directions, kinks included. */
  lemma {:induction false} EvalLinear<I(!new)>(e: Expr<I>, look: I -> Dual, look1: I -> Dual, p1: real,
                                               look2: I -> Dual, p2: real)
    requires forall i :: Combines(look(i), look1(i), p1, look2(i), p2)
    ensures Combines(Eval(e, look), Eval(e, look1), p1, Eval(e, look2), p2)
  {
    hide Combines, Add, Sub, Mul, Div;
    match e
    case Const(x) => PlainCombines(x, p1, p2);
    case Input(_) =>
    case Absolute(a) =>
      EvalLinear(a, look, look1, p1, look2, p2);
      AbsCombines(Eval(a, look), Eval(a, look1), Eval(a, look2), p1, p2);
    case Function(s, a) =>
      EvalLinear(a, look, look1, p1, look2, p2);
      ApplyCombines(s, Eval(a, look), Eval(a, look1), Eval(a, look2), p1, p2);
    case Sum(l, r) =>
      EvalLinear(l, look, look1, p1, look2, p2);
      EvalLinear(r, look, look1, p1, look2, p2);
      SumCombines(Eval(l, look), Eval(l, look1), Eval(l, look2), Eval(r, look), Eval(r, look1), Eval(r, look2), p1, p2);
    case Difference(l, r) =>
      EvalLinear(l, look, look1, p1, look2, p2);
      EvalLinear(r, look, look1, p1, look2, p2);
      SumCombines(Eval(l, look), Eval(l, look1), Eval(l, look2), Eval(r, look), Eval(r, look1), Eval(r, look2), p1, p2);
    case Product(l, r) =>
      EvalLinear(l, look, look1, p1, look2, p2);
      EvalLinear(r, look, look1, p1, look2, p2);
      ProductCombines(Eval(l, look), Eval(l, look1), Eval(l, look2),
                      Eval(r, look), Eval(r, look1), Eval(r, look2), p1, p2);
    case Quotient(l, r) =>
      EvalLinear(l, look, look1, p1, look2, p2);
      EvalLinear(r, look, look1, p1, look2, p2);
      QuotientCombines(Eval(l, look), Eval(l, look1), Eval(l, look2),
                       Eval(r, look), Eval(r, look1), Eval(r, look2), p1, p2);
    case Maximum(l, r) =>
      EvalLinear(l, look, look1, p1, look2, p2);
      EvalLinear(r, look, look1, p1, look2, p2);
      MaxCombines(Eval(l, look), Eval(l, look1), Eval(l, look2), Eval(r, look), Eval(r, look1), Eval(r, look2), p1, p2);
  }

  lemma AbsCombines(a: Dual, a1: Dual, a2: Dual, p1: real, p2: real)
    requires Combines(a, a1, p1, a2, p2)
    ensures Combines(AbsD(a), AbsD(a1), p1, AbsD(a2), p2)
  {
  }

  lemma MaxCombines(a: Dual, a1: Dual, a2: Dual, b: Dual, b1: Dual, b2: Dual, p1: real, p2: real)
    requires Combines(a, a1, p1, a2, p2) && Combines(b, b1, p1, b2, p2)
    ensures Combines(MaxD(a, b), MaxD(a1, b1), p1, MaxD(a2, b2), p2)
  {
  }

  lemma ApplyCombines(s: Smooth, a: Dual, a1: Dual, a2: Dual, p1: real, p2: real)
    requires Combines(a, a1, p1, a2, p2)
    ensures Combines(Apply(s, a), Apply(s, a1), p1, Apply(s, a2), p2)
  {
  }
}
