/** Factorials and binomial coefficients (src/math/combinatorics.cpp). */
module Combinatorics {

  function Factorial(n: nat): (f: nat)
    ensures f > 0
  {
    if n == 0 then 1 else n * Factorial(n - 1)
  }

  /** Pascal's triangle: the number of k-element subsets of an n-element set. */
  function Choose(n: nat, k: nat): nat {
    if k == 0 then 1
    else if n == 0 then 0
    else Choose(n - 1, k - 1) + Choose(n - 1, k)
  }

  lemma {:induction false} ChooseBeyond(n: nat, k: nat)
    requires k > n
    ensures Choose(n, k) == 0
  {
    if n > 0 {
      ChooseBeyond(n - 1, k - 1);
      ChooseBeyond(n - 1, k);
    }
  }

  lemma {:induction false} ChooseAll(n: nat)
    ensures Choose(n, n) == 1
  {
    if n > 0 {
      ChooseAll(n - 1);
      ChooseBeyond(n - 1, n);
    }
  }

  lemma {:induction false} ChooseSymmetric(a: nat, b: nat)
    ensures Choose(a + b, a) == Choose(a + b, b)
  {
    if a == 0 {
      ChooseAll(b);
    } else if b == 0 {
      ChooseAll(a);
    } else {
      ChooseSymmetric(a - 1, b);
      ChooseSymmetric(a, b - 1);
    }
  }

  /** The step of the running products: C(n, k+1) (k+1) == C(n, k) (n-k). */
  lemma {:induction false} ChooseStep(n: nat, k: nat)
    requires k <= n
    ensures Choose(n, k + 1) * (k + 1) == Choose(n, k) * (n - k)
  {
    if n == 0 {
    } else if k == 0 {
      ChooseStepZero(n);
    } else if k == n {
      ChooseBeyond(n, n + 1);
    } else {
      ChooseStep(n - 1, k - 1);
      ChooseStep(n - 1, k);
      ChooseStepArithmetic(Choose(n - 1, k - 1), Choose(n - 1, k), Choose(n - 1, k + 1), n, k);
    }
  }

  lemma {:induction false} ChooseStepArithmetic(a: int, b: int, c: int, n: int, k: int)
    requires b * k == a * (n - k)
    requires c * (k + 1) == b * (n - 1 - k)
    ensures (b + c) * (k + 1) == (a + b) * (n - k)
  {
    calc {
      (b + c) * (k + 1);
      b * k + b + c * (k + 1);
      b * k + b + b * (n - 1 - k);
      b * n;
      b * k + b * (n - k);
      a * (n - k) + b * (n - k);
      (a + b) * (n - k);
    }
  }

  lemma {:induction false} ChooseStepZero(n: nat)
    ensures Choose(n, 1) == n
  {
    if n > 0 {
      ChooseStepZero(n - 1);
    }
  }

  /** `factorial_int` on its non-negative arguments. */
  method FactorialInt(n: nat) returns (r: real)
    ensures r == Factorial(n) as real
  {
    r := 1.0;
    var k := 2;
    while k <= n
      invariant 2 <= k
      invariant k <= n + 1 || k == 2
      invariant r == Factorial(k - 1) as real
    {
      assert Factorial(k) == k * Factorial(k - 1);
      r := r * k as real;
      k := k + 1;
    }
  }

  lemma {:induction false} ChooseZero(n: nat)
    ensures Choose(n, 0) == 1
  {
  }

  /** `binom`: the running product r * (n-j+1) / j is C(n, k), and 0 outside 0..n. */
  method Binom(n: nat, k: int) returns (r: real)
    ensures r == if k < 0 then 0.0 else Choose(n, k) as real
  {
    hide Choose;
    ChooseZero(n);
    if k < 0 || k > n {
      if k > n {
        ChooseBeyond(n, k);
      }
      return 0.0;
    }
    r := 1.0;
    var j := 1;
    while j <= k
      invariant 1 <= j <= k + 1
      invariant r == Choose(n, j - 1) as real
    {
      ChooseStep(n, j - 1);
      RunningProduct(Choose(n, j - 1), Choose(n, j), n - j + 1, j);
      r := r * (n - j + 1) as real / j as real;
      j := j + 1;
    }
  }

  lemma {:induction false} RunningProduct(c: nat, d: nat, p: nat, q: nat)
    requires q > 0 && d * q == c * p
    ensures c as real * p as real / q as real == d as real
  {
    assert (c * p) as real == c as real * p as real;
    assert (d * q) as real == d as real * q as real;
  }
}
