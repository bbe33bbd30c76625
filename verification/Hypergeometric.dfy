/** The two hypergeometric coefficient recurrences and their finite-free convolution. */
module Hypergeometric {
  import opened Polynomials

  function Shifted(V: real, i: nat): real { V + i as real }

  function Falling(d: nat, j: nat): real
    requires 1 <= j <= d
  {
    -((d - j + 1) as real) / j as real
  }

  /** No divisor of a Jacobi coefficient list of degree `d` is zero. */
  ghost predicate Divisible(d: nat, U: real, V: real) {
    (d >= 1 ==> U != 0.0) && forall i: nat :: i < d ==> Shifted(V, i) != 0.0
  }

  /** One step of the Jacobi list, from the previous term. */
  function JacobiStep(last: real, n: real, a: real, U: real, b: real): real
    requires U != 0.0 && b != 0.0
  {
    NonzeroProduct(U, b);
    last * n * a / (U * b)
  }

  /** Coefficient `j` of the Jacobi polynomial of degree `d` with constant term one. */
  ghost function JacobiTerm(d: nat, U: real, V: real, j: nat): real
    requires Divisible(d, U, V) && j <= d
  {
    if j == 0 then 1.0
    else JacobiStep(JacobiTerm(d, U, V, j - 1), Falling(d, j), Shifted(U, j - 1), U, Shifted(V, j - 1))
  }

  ghost predicate IsJacobi(p: Poly, d: nat, U: real, V: real)
    requires Divisible(d, U, V)
  {
    |p| == d + 1 && forall j :: 0 <= j <= d ==> p[j] == JacobiTerm(d, U, V, j)
  }

  method JacobiCoefficients(d: nat, U: real, V: real) returns (result: Poly)
    requires Divisible(d, U, V)
    ensures IsJacobi(result, d, U, V)
  {
    result := [1.0];
    for j := 1 to d + 1
      invariant |result| == j
      invariant forall i :: 0 <= i < j ==> result[i] == JacobiTerm(d, U, V, i)
    {
      result := result
        + [JacobiStep(result[|result| - 1], Falling(d, j), Shifted(U, j - 1), U, Shifted(V, j - 1))];
    }
  }

  ghost predicate ModelDivisible(d: nat, A: real, B: real, C: real, D: real) {
    Divisible(d, A, B) && Divisible(d, C, D)
  }

  /** One step of the 3F2 list, from the previous term. */
  function ModelStep(last: real, n: real, a: real, c: real, D: real, b: real, e: real, A: real, C: real): real
    requires b != 0.0 && e != 0.0 && A != 0.0 && C != 0.0
  {
    ModelDivisor(b, e, A, C);
    last * n * a * c * D / (b * e * A * C)
  }

  lemma ModelDivisor(b: real, e: real, A: real, C: real)
    requires b != 0.0 && e != 0.0 && A != 0.0 && C != 0.0
    ensures b * e * A * C != 0.0
  {
    NonzeroProduct(b, e);
    NonzeroProduct(b * e, A);
    NonzeroProduct(b * e * A, C);
  }

  /** Coefficient `j` of the terminating 3F2 polynomial. */
  ghost function ModelTerm(d: nat, A: real, B: real, C: real, D: real, j: nat): real
    requires ModelDivisible(d, A, B, C, D) && j <= d
  {
    if j == 0 then 1.0
    else
      ModelStep(ModelTerm(d, A, B, C, D, j - 1), Falling(d, j), Shifted(A, j - 1), Shifted(C, j - 1), D,
                Shifted(B, j - 1), Shifted(D, j - 1), A, C)
  }

  ghost predicate IsModel(p: Poly, d: nat, A: real, B: real, C: real, D: real)
    requires ModelDivisible(d, A, B, C, D)
  {
    |p| == d + 1 && forall j :: 0 <= j <= d ==> p[j] == ModelTerm(d, A, B, C, D, j)
  }

  method ModelCoefficients(d: nat, A: real, B: real, C: real, D: real) returns (result: Poly)
    requires ModelDivisible(d, A, B, C, D)
    ensures IsModel(result, d, A, B, C, D)
  {
    result := [1.0];
    for j := 1 to d + 1
      invariant |result| == j
      invariant forall i :: 0 <= i < j ==> result[i] == ModelTerm(d, A, B, C, D, i)
    {
      result := result
        + [ModelStep(result[|result| - 1], Falling(d, j), Shifted(A, j - 1), Shifted(C, j - 1), D,
                     Shifted(B, j - 1), Shifted(D, j - 1), A, C)];
    }
  }

  // ---- Binomial coefficients

  /** Pascal's rule. */
  function Comb(n: nat, k: nat): nat {
    if k == 0 then 1 else if n == 0 then 0 else Comb(n - 1, k - 1) + Comb(n - 1, k)
  }

  lemma {:induction false} CombZero(n: nat, k: nat)
    requires k > n
    ensures Comb(n, k) == 0
    decreases n
  {
    if n > 0 {
      CombZero(n - 1, k - 1);
      CombZero(n - 1, k);
    }
  }

  /** `k * C(n, k) == (n - k + 1) * C(n, k - 1)`. */
  lemma {:induction false} Absorption(n: nat, k: nat)
    requires 1 <= k <= n
    ensures k * Comb(n, k) == (n - k + 1) * Comb(n, k - 1)
    decreases n
  {
    if n == 1 {
      CombZero(0, 1);
    } else if k == n {
      CombZero(n - 1, n);
      Absorption(n - 1, n - 1);
      AbsorbLast(n, Comb(n - 1, n - 1), Comb(n - 1, n - 2), Comb(n, n - 1));
    } else if k == 1 {
      Absorption(n - 1, 1);
    } else {
      Absorption(n - 1, k);
      Absorption(n - 1, k - 1);
      AbsorbStep(n, k, Comb(n - 1, k), Comb(n - 1, k - 1), Comb(n - 1, k - 2));
    }
  }

  lemma AbsorbLast(n: nat, a: nat, b: nat, c: nat)
    requires n >= 2 && (n - 1) * a == 1 * b && c == b + a
    ensures n * a == 1 * c
  {
  }

  lemma AbsorbStep(n: nat, k: nat, x: nat, y: nat, z: nat)
    requires k * x == (n - k) * y && (k - 1) * y == (n - k + 1) * z
    ensures k * (y + x) == (n - k + 1) * (z + y)
  {
  }

  lemma {:induction false} CombPositive(n: nat, k: nat)
    requires k <= n
    ensures Comb(n, k) > 0
    decreases n
  {
    if k > 0 {
      CombPositive(n - 1, k - 1);
    }
  }

  lemma CombRatio(d: nat, j: nat)
    requires 1 <= j <= d
    ensures Comb(d, j) as real == -Times(Comb(d, j - 1) as real, Falling(d, j))
  {
    Absorption(d, j);
    RatioAlgebra(d, j, Comb(d, j), Comb(d, j - 1), Falling(d, j));
  }

  lemma RatioAlgebra(d: nat, j: nat, x: nat, y: nat, f: real)
    requires 1 <= j <= d && j * x == (d - j + 1) * y && f == Falling(d, j)
    ensures x as real == -(y as real * f)
  {
    assert f * j as real == -((d - j + 1) as real);
    CastProduct(j, x);
    CastProduct(d - j + 1, y);
    assert j as real * x as real == j as real * -(y as real * f);
    CancelFactor(j as real, x as real, -(y as real * f));
  }

  lemma CastProduct(a: nat, b: nat)
    ensures (a * b) as real == a as real * b as real
  {
  }

  // ---- The finite-free convolution

  function Sign(j: nat): real { if j % 2 == 0 then 1.0 else -1.0 }

  ghost predicate Convolves(m: real, k: real, s: real, q1: real, q2: real, power: real) {
    m * k == s * q1 * q2 * power
  }

  lemma {:induction false} ConvolutionProduct(d: nat, A: real, B: real, C: real, D: real, j: nat)
    requires ModelDivisible(d, A, B, C, D) && j <= d
    ensures Convolves(ModelTerm(d, A, B, C, D, j), Comb(d, j) as real,
                      Sign(j), JacobiTerm(d, A, B, j), JacobiTerm(d, C, D, j), Power(D, j))
    decreases j
  {
    if j > 0 {
      ConvolutionProduct(d, A, B, C, D, j - 1);
      CombRatio(d, j);
      PowerStep(D, j);
      ConvolutionStep(
        ModelTerm(d, A, B, C, D, j - 1), Comb(d, j - 1) as real, Sign(j - 1),
        JacobiTerm(d, A, B, j - 1), JacobiTerm(d, C, D, j - 1), Power(D, j - 1),
        Falling(d, j), Shifted(A, j - 1), Shifted(C, j - 1), D, Shifted(B, j - 1), Shifted(D, j - 1), A, C,
        Comb(d, j) as real, Sign(j), Power(D, j));
    }
  }

  lemma PowerStep(D: real, j: nat)
    requires j > 0
    ensures Power(D, j) == Times(D, Power(D, j - 1))
  {
  }

  lemma ConvolutionStep(
    m: real, k: real, s: real, q1: real, q2: real, power: real,
    n: real, a: real, c: real, D: real, b: real, e: real, A: real, C: real,
    k': real, s': real, power': real)
    requires b != 0.0 && e != 0.0 && A != 0.0 && C != 0.0
    requires Convolves(m, k, s, q1, q2, power)
    requires k' == -Times(k, n) && s' == -s && power' == Times(D, power)
    ensures Convolves(ModelStep(m, n, a, c, D, b, e, A, C), k', s',
                      JacobiStep(q1, n, a, A, b), JacobiStep(q2, n, c, C, e), power')
  {
    var m', q1', q2' := ModelStep(m, n, a, c, D, b, e, A, C), JacobiStep(q1, n, a, A, b), JacobiStep(q2, n, c, C, e);
    ModelDivisor(b, e, A, C);
    NonzeroProduct(A, b);
    NonzeroProduct(C, e);
    Undivide(m * n * a * c * D, b * e * A * C, m');
    Undivide(q1 * n * a, A * b, q1');
    Undivide(q2 * n * c, C * e, q2');
    SplitDivisor(b, e, A, C);
    CrossMultiplied(m, k, s, q1, q2, power, n, a, c, D, A * b, C * e, m', q1', q2');
  }

  lemma SplitDivisor(b: real, e: real, A: real, C: real)
    ensures b * e * A * C == (A * b) * (C * e)
  {
  }

  lemma CrossMultiplied(
    m: real, k: real, s: real, q1: real, q2: real, power: real,
    n: real, a: real, c: real, D: real, u: real, v: real, m': real, q1': real, q2': real)
    requires u != 0.0 && v != 0.0 && m * k == s * q1 * q2 * power
    requires m' * (u * v) == m * n * a * c * D && q1' * u == q1 * n * a && q2' * v == q2 * n * c
    ensures m' * -(k * n) == -s * q1' * q2' * (D * power)
  {
    var w := n * n * a * c * D;
    calc {
      (u * v) * (m' * -(k * n));
      (m' * (u * v)) * -(k * n);
      { RightMul(m' * (u * v), m * n * a * c * D, -(k * n)); }
      (m * n * a * c * D) * -(k * n);
      (m * k) * -w;
      { RightMul(m * k, s * q1 * q2 * power, -w); }
      (s * q1 * q2 * power) * -w;
      ((q1 * n * a) * (q2 * n * c)) * -(s * D * power);
      { TwoFactors(q1' * u, q1 * n * a, q2' * v, q2 * n * c, -(s * D * power)); }
      ((q1' * u) * (q2' * v)) * -(s * D * power);
      (u * v) * (-s * q1' * q2' * (D * power));
    }
    NonzeroProduct(u, v);
    CancelFactor(u * v, m' * -(k * n), -s * q1' * q2' * (D * power));
  }

  lemma TwoFactors(x: real, x': real, y: real, y': real, m: real)
    requires x == x' && y == y'
    ensures (x' * y') * m == (x * y) * m
  {
  }

  /** The direct recurrence is the finite-free convolution of the two Jacobi lists. */
  lemma FiniteFreeConvolution(d: nat, A: real, B: real, C: real, D: real, j: nat)
    requires ModelDivisible(d, A, B, C, D) && j <= d
    ensures Comb(d, j) > 0
    ensures ModelTerm(d, A, B, C, D, j)
         == ConvolutionTerm(Sign(j), JacobiTerm(d, A, B, j), JacobiTerm(d, C, D, j), Power(D, j), Comb(d, j))
  {
    CombPositive(d, j);
    ConvolutionProduct(d, A, B, C, D, j);
    assert Comb(d, j) > 0;
    Quotient(ModelTerm(d, A, B, C, D, j), Sign(j), JacobiTerm(d, A, B, j), JacobiTerm(d, C, D, j), Power(D, j),
             Comb(d, j));
  }

  function ConvolutionTerm(s: real, q1: real, q2: real, power: real, comb: nat): real
    requires comb > 0
  {
    s * q1 * q2 * power / comb as real
  }

  lemma Quotient(m: real, s: real, q1: real, q2: real, power: real, comb: nat)
    requires comb > 0 && Convolves(m, comb as real, s, q1, q2, power)
    ensures m == ConvolutionTerm(s, q1, q2, power, comb)
  {
    Divide(m, comb as real, s * q1 * q2 * power);
  }

  lemma Divide(m: real, k: real, n: real)
    requires k != 0.0 && m * k == n
    ensures m == n / k
  {
  }

  /** The list the source compares the direct recurrence with. */
  method Convolution(d: nat, A: real, B: real, C: real, D: real) returns (p: Poly)
    requires ModelDivisible(d, A, B, C, D)
    ensures IsModel(p, d, A, B, C, D)
  {
    var q1 := JacobiCoefficients(d, A, B);
    var q2 := JacobiCoefficients(d, C, D);
    p := [];
    for j := 0 to d + 1
      invariant |p| == j
      invariant forall i :: 0 <= i < j ==> p[i] == ModelTerm(d, A, B, C, D, i)
    {
      FiniteFreeConvolution(d, A, B, C, D, j);
      p := p + [ConvolutionTerm(Sign(j), q1[j], q2[j], Power(D, j), Comb(d, j))];
    }
  }
}
