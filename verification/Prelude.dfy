/** Small notions shared by every module: optional and fallible results, and real arithmetic. */
module Prelude {

  datatype Option<+T> = None | Some(value: T)

  datatype Result<+R, +E> = Ok(value: R) | Err(error: E)

  function Abs(x: real): real {
    if x < 0.0 then -x else x
  }

  function Min(x: real, y: real): real {
    if y < x then y else x
  }

  function Max(x: real, y: real): real {
    if x < y then y else x
  }

  /** A product that proofs may keep closed (`hide Times`) while they reason about sums of products. */
  function Times(x: real, y: real): real {
    x * y
  }

  function Power(base: real, exponent: nat): real {
    if exponent == 0 then 1.0 else base * Power(base, exponent - 1)
  }

  /** w after k halvings */
  function Halved(w: real, k: nat): real {
    if k == 0 then w else 0.5 * Halved(w, k - 1)
  }

  lemma {:induction false} PowerPositive(base: real, exponent: nat)
    requires base > 0.0
    ensures Power(base, exponent) > 0.0
  {
    if exponent > 0 {
      PowerPositive(base, exponent - 1);
    }
  }
}
