/** Absolute value, larger and smaller of two reals. */
module Reals {
  function Abs(x: real): real {
    if x < 0.0 then -x else x
  }

  function MaxReal(a: real, b: real): real {
    if a < b then b else a
  }

  function MinReal(a: real, b: real): real {
    if b < a then b else a
  }

  lemma {:induction false} DivideBack(x: real, y: real)
    requires y != 0.0
    ensures y * (x / y) == x && x * y / y == x
  {
  }
}
