/** The scalars of the engine.  `std::complex<double>` is modelled by exact complex
    numbers: pairs of reals, so that the identities the engine claims are statements
    of algebra and not of rounding.  Magnitudes are compared through the squared
    modulus, which orders numbers exactly as the modulus does. */
module ComplexField {

  datatype Complex = Complex(re: real, im: real)

  const ZERO := Complex(0.0, 0.0)
  const ONE := Complex(1.0, 0.0)

  /** A real factor of a complex expression. */
  function OfReal(x: real): Complex {
    Complex(x, 0.0)
  }

  function Add(a: Complex, b: Complex): Complex {
    Complex(a.re + b.re, a.im + b.im)
  }

  function Sub(a: Complex, b: Complex): Complex {
    Complex(a.re - b.re, a.im - b.im)
  }

  function Neg(a: Complex): Complex {
    Complex(-a.re, -a.im)
  }

  function Mul(a: Complex, b: Complex): Complex {
    Complex(a.re * b.re - a.im * b.im, a.re * b.im + a.im * b.re)
  }

  function Square(x: real): real {
    x * x
  }

  /** The squared modulus |a|^2. */
  function Norm2(a: Complex): real {
    Square(a.re) + Square(a.im)
  }

  function Inv(a: Complex): Complex
    requires a != ZERO
  {
    Norm2Positive(a);
    Complex(a.re / Norm2(a), -a.im / Norm2(a))
  }

  function Div(a: Complex, b: Complex): Complex
    requires b != ZERO
  {
    Mul(a, Inv(b))
  }

  lemma {:induction false} Norm2Positive(a: Complex)
    ensures Norm2(a) >= 0.0
    ensures a != ZERO ==> Norm2(a) > 0.0
  {
    hide Square;
    SquarePositive(a.re);
    SquarePositive(a.im);
    assert a.re == 0.0 && a.im == 0.0 ==> a == Complex(0.0, 0.0);
  }

  lemma {:induction false} Norm2Zero(a: Complex)
    ensures Norm2(a) >= 0.0
    ensures Norm2(a) <= 0.0 ==> a == ZERO
    ensures a == ZERO ==> Norm2(a) == 0.0
  {
    Norm2Positive(a);
    assert Square(0.0) == 0.0;
  }

  /** |v| < tol, stated on the squared modulus. */
  predicate BelowTolerance(v2: real, tol: real) {
    tol > 0.0 && v2 < Square(tol)
  }

  lemma {:induction false} SquarePositive(x: real)
    ensures Square(x) >= 0.0
    ensures x != 0.0 ==> Square(x) > 0.0
  {
    if x < 0.0 {
      ProductPositive(-x, -x, Square(x));
    } else if x > 0.0 {
      ProductPositive(x, x, Square(x));
    }
  }

  lemma {:induction false} ProductPositive(x: real, y: real, z: real)
    requires x > 0.0 && y > 0.0 && z == x * y
    ensures z > 0.0
  {
  }

  lemma {:induction false} MulComm(a: Complex, b: Complex)
    ensures Mul(a, b) == Mul(b, a)
  {
  }

  lemma {:induction false} MulAssoc(a: Complex, b: Complex, c: Complex)
    ensures Mul(Mul(a, b), c) == Mul(a, Mul(b, c))
  {
  }

  lemma {:induction false} MulAdd(a: Complex, b: Complex, c: Complex)
    ensures Mul(a, Add(b, c)) == Add(Mul(a, b), Mul(a, c))
    ensures Mul(Add(b, c), a) == Add(Mul(b, a), Mul(c, a))
  {
  }

  lemma {:induction false} MulSub(a: Complex, b: Complex, c: Complex)
    ensures Mul(a, Sub(b, c)) == Sub(Mul(a, b), Mul(a, c))
    ensures Mul(Sub(b, c), a) == Sub(Mul(b, a), Mul(c, a))
  {
  }

  lemma {:induction false} MulNeg(a: Complex, b: Complex)
    ensures Mul(a, Neg(b)) == Neg(Mul(a, b))
    ensures Mul(Neg(a), b) == Neg(Mul(a, b))
  {
  }

  lemma {:induction false} MulUnits(a: Complex)
    ensures Mul(a, ONE) == a && Mul(ONE, a) == a
    ensures Mul(a, ZERO) == ZERO && Mul(ZERO, a) == ZERO
  {
  }

  /** (a b)(c d) == (a c)(b d). */
  lemma {:induction false} MulMedial(a: Complex, b: Complex, c: Complex, d: Complex)
    ensures Mul(Mul(a, b), Mul(c, d)) == Mul(Mul(a, c), Mul(b, d))
  {
    hide Mul;
    MulAssoc(a, b, Mul(c, d));
    MulAssoc(b, c, d);
    MulComm(b, c);
    MulAssoc(c, b, d);
    MulAssoc(a, c, Mul(b, d));
  }

  /** a (b c) == b (a c). */
  lemma {:induction false} MulLeftComm(a: Complex, b: Complex, c: Complex)
    ensures Mul(a, Mul(b, c)) == Mul(b, Mul(a, c))
  {
    hide Mul;
    MulAssoc(a, b, c);
    MulComm(a, b);
    MulAssoc(b, a, c);
  }

  lemma {:induction false} InvMul(a: Complex)
    requires a != ZERO
    ensures Mul(a, Inv(a)) == ONE && Mul(Inv(a), a) == ONE
    ensures Inv(a) != ZERO
  {
    Norm2Positive(a);
    var n := Norm2(a);
    assert a.re * (a.re / n) - a.im * (-a.im / n) == (a.re * a.re + a.im * a.im) / n == 1.0;
    assert a.re * (-a.im / n) + a.im * (a.re / n) == 0.0;
    assert Mul(a, Inv(a)) == ONE;
    MulComm(a, Inv(a));
    MulUnits(a);
  }

  lemma {:induction false} DivMul(a: Complex, b: Complex)
    requires b != ZERO
    ensures Mul(Div(a, b), b) == a && Mul(b, Div(a, b)) == a
    ensures Div(Mul(a, b), b) == a && Div(Mul(b, a), b) == a
  {
    hide Mul, Inv;
    InvMul(b);
    MulUnits(a);
    MulAssoc(a, Inv(b), b);
    MulAssoc(a, b, Inv(b));
    MulComm(b, Div(a, b));
    MulComm(b, a);
  }

  lemma {:induction false} NoZeroDivisors(a: Complex, b: Complex)
    requires Mul(a, b) == ZERO
    ensures a == ZERO || b == ZERO
  {
    if a != ZERO {
      hide Mul, Inv;
      InvMul(a);
      MulAssoc(Inv(a), a, b);
      MulUnits(b);
      MulUnits(Inv(a));
    }
  }

  lemma {:induction false} MulCancel(a: Complex, b: Complex, c: Complex)
    requires a != ZERO && Mul(a, b) == Mul(a, c)
    ensures b == c
  {
    hide Mul;
    MulSub(a, b, c);
    NoZeroDivisors(a, Sub(b, c));
  }

  lemma {:induction false} OfRealHom(x: real, y: real)
    ensures OfReal(x + y) == Add(OfReal(x), OfReal(y))
    ensures OfReal(x - y) == Sub(OfReal(x), OfReal(y))
    ensures OfReal(x * y) == Mul(OfReal(x), OfReal(y))
  {
  }

  // ---------------------------------------------------------------- powers

  /** a^n, with a^0 == 1 also for a == 0. */
  function Pow(a: Complex, n: nat): Complex {
    if n == 0 then ONE else Mul(a, Pow(a, n - 1))
  }

  lemma {:induction false} PowAdd(a: Complex, m: nat, n: nat)
    ensures Pow(a, m + n) == Mul(Pow(a, m), Pow(a, n))
  {
    hide Mul;
    MulUnits(Pow(a, n));
    if m > 0 {
      PowAdd(a, m - 1, n);
      MulAssoc(a, Pow(a, m - 1), Pow(a, n));
    }
  }

  lemma {:induction false} PowMul(a: Complex, m: nat, n: nat)
    ensures Pow(a, m * n) == Pow(Pow(a, m), n)
  {
    hide Mul;
    if n == 0 {
      assert m * n == 0;
    } else {
      PowMul(a, m, n - 1);
      assert m * n == m + m * (n - 1);
      PowAdd(a, m, m * (n - 1));
    }
  }

  lemma {:induction false} PowOne(n: nat)
    ensures Pow(ONE, n) == ONE
  {
    hide Mul;
    MulUnits(ONE);
    if n > 0 {
      PowOne(n - 1);
    }
  }

  lemma {:induction false} PowProduct(a: Complex, b: Complex, n: nat)
    ensures Pow(Mul(a, b), n) == Mul(Pow(a, n), Pow(b, n))
  {
    hide Mul;
    MulUnits(ONE);
    if n > 0 {
      PowProduct(a, b, n - 1);
      MulMedial(a, b, Pow(a, n - 1), Pow(b, n - 1));
    }
  }

  lemma {:induction false} PowNonZero(a: Complex, n: nat)
    requires a != ZERO
    ensures Pow(a, n) != ZERO
  {
    hide Mul;
    if n > 0 {
      PowNonZero(a, n - 1);
      if Mul(a, Pow(a, n - 1)) == ZERO {
        NoZeroDivisors(a, Pow(a, n - 1));
      }
    }
  }

  // ---------------------------------------------------------------- finite sums

  /** Entry n of a list, zero beyond it. */
  function SampleAt(u: seq<Complex>, n: nat): Complex {
    if n < |u| then u[n] else ZERO
  }

  /** A list as a sequence that continues with zeros. */
  ghost function Samples(u: seq<Complex>): nat -> Complex {
    (n: nat) => if n < |u| then u[n] else ZERO
  }

  /** f(0) + ... + f(n - 1). */
  ghost function Sum(n: nat, f: nat -> Complex): Complex {
    if n == 0 then ZERO else Add(Sum(n - 1, f), f(n - 1))
  }

  lemma {:induction false} SumStep(n: nat, f: nat -> Complex)
    ensures Sum(n + 1, f) == Add(Sum(n, f), f(n))
  {
  }

  lemma {:induction false} SumCongruence(n: nat, f: nat -> Complex, g: nat -> Complex)
    requires forall i: nat :: i < n ==> f(i) == g(i)
    ensures Sum(n, f) == Sum(n, g)
  {
    if n > 0 {
      SumCongruence(n - 1, f, g);
    }
  }

  lemma {:induction false} SumZero(n: nat, f: nat -> Complex)
    requires forall i: nat :: i < n ==> f(i) == ZERO
    ensures Sum(n, f) == ZERO
  {
    if n > 0 {
      SumZero(n - 1, f);
    }
  }

  lemma {:induction false} SumAdd(n: nat, f: nat -> Complex, g: nat -> Complex, h: nat -> Complex)
    requires forall i: nat :: i < n ==> h(i) == Add(f(i), g(i))
    ensures Sum(n, h) == Add(Sum(n, f), Sum(n, g))
  {
    if n > 0 {
      SumAdd(n - 1, f, g, h);
    }
  }

  lemma {:induction false} SumSub(n: nat, f: nat -> Complex, g: nat -> Complex, h: nat -> Complex)
    requires forall i: nat :: i < n ==> h(i) == Sub(f(i), g(i))
    ensures Sum(n, h) == Sub(Sum(n, f), Sum(n, g))
  {
    if n > 0 {
      SumSub(n - 1, f, g, h);
    }
  }

  lemma {:induction false} SumScale(n: nat, a: Complex, f: nat -> Complex, h: nat -> Complex)
    requires forall i: nat :: i < n ==> h(i) == Mul(a, f(i))
    ensures Sum(n, h) == Mul(a, Sum(n, f))
  {
    hide Mul;
    MulUnits(a);
    if n > 0 {
      SumScale(n - 1, a, f, h);
      MulAdd(a, Sum(n - 1, f), f(n - 1));
    }
  }

  /** Only the term at k is not zero. */
  lemma {:induction false} SumSingle(n: nat, k: nat, f: nat -> Complex)
    requires k < n
    requires forall i: nat :: i < n && i != k ==> f(i) == ZERO
    ensures Sum(n, f) == f(k)
  {
    if k == n - 1 {
      SumZero(n - 1, f);
    } else {
      SumSingle(n - 1, k, f);
    }
  }

  lemma {:induction false} SumSplit(m: nat, n: nat, f: nat -> Complex, g: nat -> Complex)
    requires forall i: nat :: i < n ==> g(i) == f(m + i)
    ensures Sum(m + n, f) == Add(Sum(m, f), Sum(n, g))
  {
    if n > 0 {
      SumSplit(m, n - 1, f, g);
    }
  }

  /** Peels the first term instead of the last. */
  lemma {:induction false} SumFirst(n: nat, f: nat -> Complex, g: nat -> Complex)
    requires n > 0
    requires forall i: nat :: i < n - 1 ==> g(i) == f(i + 1)
    ensures Sum(n, f) == Add(f(0), Sum(n - 1, g))
  {
    assert Sum(1, f) == Add(Sum(0, f), f(0));
    SumSplit(1, n - 1, f, g);
  }

  lemma {:induction false} SumReverse(n: nat, f: nat -> Complex, g: nat -> Complex)
    requires forall i: nat :: i < n ==> g(i) == f(n - 1 - i)
    ensures Sum(n, g) == Sum(n, f)
  {
    if n > 0 {
      SumReverse(n - 1, f, (i: nat) => g(i + 1));
      SumFirst(n, g, (i: nat) => g(i + 1));
    }
  }

  /** Trailing zero terms may be dropped. */
  lemma {:induction false} SumTruncate(m: nat, n: nat, f: nat -> Complex)
    requires m <= n
    requires forall i: nat :: m <= i < n ==> f(i) == ZERO
    ensures Sum(n, f) == Sum(m, f)
  {
    if m < n {
      SumTruncate(m, n - 1, f);
    }
  }

  /** Row i, column j, and the row and column sums of a table of numbers. */
  ghost function Row(f: (nat, nat) -> Complex, i: nat): nat -> Complex {
    (j: nat) => f(i, j)
  }

  ghost function Column(f: (nat, nat) -> Complex, j: nat): nat -> Complex {
    (i: nat) => f(i, j)
  }

  ghost function RowSums(n: nat, f: (nat, nat) -> Complex): nat -> Complex {
    (i: nat) => Sum(n, Row(f, i))
  }

  ghost function ColumnSums(m: nat, f: (nat, nat) -> Complex): nat -> Complex {
    (j: nat) => Sum(m, Column(f, j))
  }

  /** Exchanging the order of a double sum. */
  lemma {:induction false} SumSwap(m: nat, n: nat, f: (nat, nat) -> Complex)
    ensures Sum(m, RowSums(n, f)) == Sum(n, ColumnSums(m, f))
  {
    if m == 0 {
      SumZero(n, ColumnSums(0, f));
    } else {
      SumSwap(m - 1, n, f);
      SumAdd(n, ColumnSums(m - 1, f), Row(f, m - 1), ColumnSums(m, f));
    }
  }

  /** A sum over blocks: f(0) + ... + f(r v - 1), v terms at a time. */
  ghost function Block(f: nat -> Complex, v: nat, x: nat): nat -> Complex {
    (y: nat) => f(x * v + y)
  }

  ghost function BlockSums(f: nat -> Complex, v: nat): nat -> Complex {
    (x: nat) => Sum(v, Block(f, v, x))
  }

  lemma {:induction false} OneBlockMore(r: nat, v: nat)
    ensures (r + 1) * v == r * v + v && r * v >= 0 && 0 * v == 0
  {
  }

  lemma {:induction false} BlockAt(f: nat -> Complex, v: nat, x: nat, start: nat)
    requires start == x * v
    ensures forall y: nat :: Block(f, v, x)(y) == f(start + y)
    ensures BlockSums(f, v)(x) == Sum(v, Block(f, v, x))
  {
  }

  lemma {:induction false} SumBlocks(r: nat, v: nat, f: nat -> Complex)
    ensures Sum(r * v, f) == Sum(r, BlockSums(f, v))
  {
    hide Mul, Block, BlockSums;
    if r == 0 {
      OneBlockMore(0, v);
      SumNone(f);
      SumNone(BlockSums(f, v));
    } else {
      var n := r - 1;
      SumBlocks(n, v, f);
      OneBlockMore(n, v);
      var start: nat := n * v;
      BlockAt(f, v, n, start);
      SumSplit(start, v, f, Block(f, v, n));
      SumStep(n, BlockSums(f, v));
    }
  }

  lemma {:induction false} SumNone(f: nat -> Complex)
    ensures Sum(0, f) == ZERO
  {
  }

  // ---------------------------------------------------------------- finite products

  ghost function Product(s: seq<Complex>): Complex {
    if s == [] then ONE else Mul(s[0], Product(s[1..]))
  }

  lemma {:induction false} ProductZero(s: seq<Complex>, p: nat)
    requires p < |s| && s[p] == ZERO
    ensures Product(s) == ZERO
  {
    hide Mul;
    MulUnits(s[0]);
    MulUnits(Product(s[1..]));
    if p > 0 {
      ProductZero(s[1..], p - 1);
    }
  }

  lemma {:induction false} ProductOnes(s: seq<Complex>)
    requires forall p :: 0 <= p < |s| ==> s[p] == ONE
    ensures Product(s) == ONE
  {
    hide Mul;
    MulUnits(ONE);
    if s != [] {
      ProductOnes(s[1..]);
    }
  }

  lemma {:induction false} ProductSingle(s: seq<Complex>, q: nat)
    requires q < |s| && forall p :: 0 <= p < |s| && p != q ==> s[p] == ONE
    ensures Product(s) == s[q]
  {
    hide Mul;
    MulUnits(s[q]);
    if q == 0 {
      ProductOnes(s[1..]);
    } else {
      ProductSingle(s[1..], q - 1);
    }
  }
}
