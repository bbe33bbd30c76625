/** Polynomials over the rationals as coefficient lists, lowest power first. */
module Polynomials {
  import opened Wrappers

  type Poly = seq<real>

  const ZERO: Poly := [0.0]

  function Eval(p: Poly, x: real): real {
    if p == [] then 0.0 else p[0] + x * Eval(p[1..], x)
  }

  predicate Trimmed(p: Poly) { |p| >= 1 && (|p| > 1 ==> p[|p| - 1] != 0.0) }

  /** Drops zero leading coefficients, but never the last one left. */
  function Trim(p: Poly): (r: Poly)
    ensures p != [] ==> Trimmed(r) && r <= p
    ensures forall i :: |r| <= i < |p| ==> p[i] == 0.0
    ensures Trimmed(p) ==> r == p
  {
    if |p| > 1 && p[|p| - 1] == 0.0 then Trim(p[..|p| - 1]) else p
  }

  method TrimLoop(p: Poly) returns (r: Poly)
    ensures r == Trim(p)
  {
    r := p;
    while |r| > 1 && r[|r| - 1] == 0.0
      invariant Trim(r) == Trim(p)
      decreases |r|
    {
      r := r[..|r| - 1];
    }
  }

  /** The coefficientwise sum, without trimming. */
  function Padded(p: Poly, q: Poly): (r: Poly)
    ensures |r| == if |p| < |q| then |q| else |p|
    decreases |p|
  {
    if p == [] then q
    else if q == [] then p
    else [p[0] + q[0]] + Padded(p[1..], q[1..])
  }

  function Add(p: Poly, q: Poly): Poly { Trim(Padded(p, q)) }

  function Scaled(p: Poly, a: real): (r: Poly)
    ensures |r| == |p|
  {
    if p == [] then [] else [a * p[0]] + Scaled(p[1..], a)
  }

  function Scale(p: Poly, a: real): Poly { Trim(Scaled(p, a)) }

  /** The coefficients of `p`, weighted `n`, `n + 1`, and so on. */
  function Weighted(p: Poly, n: nat): (r: Poly)
    ensures |r| == |p|
  {
    if p == [] then [] else [n as real * p[0]] + Weighted(p[1..], n + 1)
  }

  function Derivative(p: Poly): Poly {
    if |p| <= 1 then ZERO else Weighted(p[1..], 1)
  }

  lemma {:induction false} PaddedAt(p: Poly, q: Poly, i: nat)
    requires i < |Padded(p, q)|
    ensures Padded(p, q)[i] == (if i < |p| then p[i] else 0.0) + (if i < |q| then q[i] else 0.0)
    decreases |p|
  {
    if p != [] && q != [] && i > 0 {
      PaddedAt(p[1..], q[1..], i - 1);
    }
  }

  lemma {:induction false} ScaledAt(p: Poly, a: real, i: nat)
    requires i < |p|
    ensures Scaled(p, a)[i] == Times(a, p[i])
  {
    if i > 0 {
      ScaledAt(p[1..], a, i - 1);
    }
  }

  lemma {:induction false} WeightedAt(p: Poly, n: nat, i: nat)
    requires i < |p|
    ensures Weighted(p, n)[i] == (n + i) as real * p[i]
  {
    if i > 0 {
      WeightedAt(p[1..], n + 1, i - 1);
    }
  }

  /** Evaluation from the leading coefficient down. */
  method At(p: Poly, x: real) returns (value: real)
    ensures value == Eval(p, x)
  {
    value := 0.0;
    var i := |p|;
    while i > 0
      invariant 0 <= i <= |p| && value == Eval(p[i..], x)
    {
      i := i - 1;
      assert p[i..][1..] == p[i + 1..];
      value := value * x + p[i];
    }
    assert p[0..] == p;
  }

  // ---- Real arithmetic

  function Times(a: real, b: real): real { a * b }

  lemma NonzeroProduct(a: real, b: real)
    requires a != 0.0 && b != 0.0
    ensures a * b != 0.0
  {
  }

  lemma MulEq(m: real, x: real, y: real)
    requires x == y
    ensures m * x == m * y
  {
  }

  lemma Substitute(s: real, x: real, y: real, z: real, x': real, y': real)
    requires x == x' && y == y'
    ensures s * x * y * z == s * x' * y' * z
  {
  }

  lemma CancelFactor(a: real, x: real, y: real)
    requires a != 0.0 && a * x == a * y
    ensures x == y
  {
  }

  lemma RightMul(x: real, y: real, m: real)
    requires x == y
    ensures x * m == y * m
  {
  }

  lemma Undivide(n: real, b: real, q: real)
    requires b != 0.0 && q == n / b
    ensures q * b == n
  {
  }

  // ---- Evaluation is a ring homomorphism

  lemma {:induction false} EvalZeros(p: Poly, x: real)
    requires forall i :: 0 <= i < |p| ==> p[i] == 0.0
    ensures Eval(p, x) == 0.0
  {
    if p != [] {
      EvalZeros(p[1..], x);
    }
  }

  function Power(x: real, n: nat): real { if n == 0 then 1.0 else x * Power(x, n - 1) }

  lemma {:induction false} EvalConcat(p: Poly, q: Poly, x: real)
    ensures Eval(p + q, x) == Eval(p, x) + Power(x, |p|) * Eval(q, x)
  {
    if p == [] {
      assert p + q == q;
    } else {
      EvalConcat(p[1..], q, x);
      assert (p + q)[1..] == p[1..] + q;
      assert x * (Power(x, |p| - 1) * Eval(q, x)) == Power(x, |p|) * Eval(q, x);
    }
  }

  lemma EvalTrim(p: Poly, x: real)
    ensures Eval(Trim(p), x) == Eval(p, x)
  {
    var r := Trim(p);
    if p != [] {
      assert p == r + p[|r|..];
      EvalConcat(r, p[|r|..], x);
      EvalZeros(p[|r|..], x);
    }
  }

  lemma EvalCons(c: real, t: Poly, x: real)
    ensures Eval([c] + t, x) == c + Times(x, Eval(t, x))
  {
    assert ([c] + t)[1..] == t;
  }

  lemma {:induction false} EvalPadded(p: Poly, q: Poly, x: real)
    ensures Eval(Padded(p, q), x) == Eval(p, x) + Eval(q, x)
    decreases |p|
  {
    if p != [] && q != [] {
      EvalPadded(p[1..], q[1..], x);
      EvalCons(p[0] + q[0], Padded(p[1..], q[1..]), x);
      Distribute(Eval(p[1..], x), Eval(q[1..], x), x);
    }
  }

  lemma {:induction false} EvalScaled(p: Poly, a: real, x: real)
    ensures Eval(Scaled(p, a), x) == Times(a, Eval(p, x))
  {
    if p != [] {
      EvalScaled(p[1..], a, x);
      EvalCons(a * p[0], Scaled(p[1..], a), x);
      Factor(a, p[0], x, Eval(p[1..], x));
    }
  }

  lemma Factor(a: real, c: real, x: real, e: real)
    ensures a * c + x * (a * e) == a * (c + x * e)
  {
  }

  lemma Distribute(a: real, b: real, c: real)
    ensures (a + b) * c == a * c + b * c
  {
  }

  /** Sums and multiples mean what they say at every point. */
  lemma EvalAdd(p: Poly, q: Poly, x: real)
    ensures Eval(Add(p, q), x) == Eval(p, x) + Eval(q, x)
  {
    EvalPadded(p, q, x);
    EvalTrim(Padded(p, q), x);
  }

  lemma EvalScale(p: Poly, a: real, x: real)
    ensures Eval(Scale(p, a), x) == a * Eval(p, x)
  {
    EvalScaled(p, a, x);
    EvalTrim(Scaled(p, a), x);
  }

  function Product(p: Poly, q: Poly): Poly {
    if p == [] then [] else Padded(Scaled(q, p[0]), [0.0] + Product(p[1..], q))
  }

  lemma {:induction false} EvalProduct(p: Poly, q: Poly, x: real)
    ensures Eval(Product(p, q), x) == Times(Eval(p, x), Eval(q, x))
  {
    if p != [] {
      var t := p[1..];
      var u := Product(t, q);
      EvalProduct(t, q, x);
      ProductUnfold(p, q, u, x);
      ProductAlgebra(p[0], x, Eval(t, x), Eval(q, x), Eval(u, x), Eval(p, x));
    } else {
      assert Eval(p, x) == 0.0 && Eval(Product(p, q), x) == 0.0;
    }
  }

  lemma ProductUnfold(p: Poly, q: Poly, u: Poly, x: real)
    requires p != [] && u == Product(p[1..], q)
    ensures Eval(Product(p, q), x) == Times(p[0], Eval(q, x)) + Times(x, Eval(u, x))
  {
    EvalPadded(Scaled(q, p[0]), [0.0] + u, x);
    EvalScaled(q, p[0], x);
    EvalCons(0.0, u, x);
  }

  lemma ProductAlgebra(c: real, x: real, t: real, q: real, u: real, p: real)
    requires u == Times(t, q) && p == c + x * t
    ensures Times(c, q) + Times(x, u) == Times(p, q)
  {
  }

  // ---- The derivative is the first-order term

  /** The difference quotient of `p` between `x` and `x + h`, as a polynomial in `h`. */
  function Slope(p: Poly, x: real, h: real): real {
    if p == [] then 0.0 else Eval(p[1..], x) + (x + h) * Slope(p[1..], x, h)
  }

  lemma {:induction false} SlopeIsDifference(p: Poly, x: real, h: real)
    ensures Eval(p, x + h) == Eval(p, x) + h * Slope(p, x, h)
  {
    if p != [] {
      SlopeIsDifference(p[1..], x, h);
      SlopeAlgebra(p[0], x, h, Eval(p[1..], x + h), Eval(p[1..], x), Slope(p[1..], x, h));
    }
  }

  lemma SlopeAlgebra(c: real, x: real, h: real, e': real, e: real, s: real)
    requires e' == e + h * s
    ensures c + (x + h) * e' == (c + x * e) + h * (e + (x + h) * s)
  {
  }

  lemma {:induction false} WeightedStep(p: Poly, n: nat, x: real)
    ensures Eval(Weighted(p, n + 1), x) == Eval(Weighted(p, n), x) + Eval(p, x)
  {
    if p != [] {
      WeightedStep(p[1..], n + 1, x);
      EvalCons((n + 1) as real * p[0], Weighted(p[1..], n + 2), x);
      EvalCons(n as real * p[0], Weighted(p[1..], n + 1), x);
      Distribute(n as real, 1.0, p[0]);
      Distribute(Eval(Weighted(p[1..], n + 1), x), Eval(p[1..], x), x);
    }
  }

  lemma DerivativeStep(p: Poly, x: real)
    requires p != []
    ensures Eval(Derivative(p), x) == Eval(p[1..], x) + x * Eval(Derivative(p[1..]), x)
  {
    var t := p[1..];
    assert Eval(ZERO, x) == 0.0 by { assert ZERO[1..] == []; }
    if |p| == 1 {
      assert t == [];
    } else {
      WeightedStep(t, 0, x);
      EvalCons(0.0 * t[0], Weighted(t[1..], 1), x);
      if |p| == 2 {
        assert Weighted(t[1..], 1) == [];
      }
    }
  }

  /** The coefficient rule computes the derivative: the difference quotient at step zero. */
  lemma {:induction false} DerivativeIsSlope(p: Poly, x: real)
    ensures Slope(p, x, 0.0) == Eval(Derivative(p), x)
  {
    if p == [] {
      assert Eval(ZERO, x) == 0.0 by { assert ZERO[1..] == []; }
    } else {
      DerivativeIsSlope(p[1..], x);
      DerivativeStep(p, x);
    }
  }

  // ---- Division with remainder

  /** `p` minus `factor * x^shift * q`, in place of the leading terms. */
  function Reduced(p: Poly, q: Poly, shift: nat, factor: real): (r: Poly)
    requires |p| == |q| + shift
    ensures |r| == |p|
  {
    if shift == 0 then Padded(p, Scaled(q, -factor))
    else [p[0]] + Reduced(p[1..], q, shift - 1, factor)
  }

  lemma {:induction false} ReducedLow(p: Poly, q: Poly, shift: nat, factor: real, i: nat)
    requires |p| == |q| + shift && i < shift
    ensures Reduced(p, q, shift, factor)[i] == p[i]
    decreases shift
  {
    if i > 0 {
      ReducedLow(p[1..], q, shift - 1, factor, i - 1);
    }
  }

  lemma {:induction false} ReducedHigh(p: Poly, q: Poly, shift: nat, factor: real, j: nat)
    requires |p| == |q| + shift && j < |q|
    ensures Reduced(p, q, shift, factor)[shift + j] == p[shift + j] - Times(factor, q[j])
    decreases shift
  {
    if shift == 0 {
      ReducedHere(p, q, factor, j);
    } else {
      ReducedHigh(p[1..], q, shift - 1, factor, j);
    }
  }

  lemma ReducedHere(p: Poly, q: Poly, factor: real, i: nat)
    requires |p| == |q| && i < |p|
    ensures Reduced(p, q, 0, factor)[i] == p[i] - Times(factor, q[i])
  {
    PaddedAt(p, Scaled(q, -factor), i);
    ScaledAt(q, -factor, i);
    Negated(factor, q[i]);
  }

  lemma Negated(a: real, b: real)
    ensures Times(-a, b) == -Times(a, b)
  {
  }

  function Monomial(a: real, n: nat): (m: Poly)
    ensures |m| == n + 1
  {
    if n == 0 then [a] else [0.0] + Monomial(a, n - 1)
  }

  lemma MonomialProduct(factor: real, n: nat, q: Poly, x: real)
    ensures n == 0 ==> Eval(Product(Monomial(factor, n), q), x) == Times(factor, Eval(q, x))
    ensures n > 0 ==>
      Eval(Product(Monomial(factor, n), q), x) == Times(x, Eval(Product(Monomial(factor, n - 1), q), x))
  {
    var m := Monomial(factor, n);
    var u := Product(m[1..], q);
    ProductUnfold(m, q, u, x);
    if n == 0 {
      assert m[1..] == [] && u == [];
    } else {
      assert m[1..] == Monomial(factor, n - 1);
    }
  }

  /** What one elimination step subtracts. */
  lemma {:induction false} EvalReduced(p: Poly, q: Poly, shift: nat, factor: real, x: real)
    requires |p| == |q| + shift
    ensures Eval(Reduced(p, q, shift, factor), x)
         == Eval(p, x) - Eval(Product(Monomial(factor, shift), q), x)
    decreases shift
  {
    MonomialProduct(factor, shift, q, x);
    if shift == 0 {
      EvalPadded(p, Scaled(q, -factor), x);
      EvalScaled(q, -factor, x);
    } else {
      var t := p[1..];
      var r := Reduced(t, q, shift - 1, factor);
      EvalReduced(t, q, shift - 1, factor, x);
      EvalCons(p[0], r, x);
      assert Eval(p, x) == p[0] + Times(x, Eval(t, x));
      Difference(x, Eval(r, x), Eval(t, x), Eval(Product(Monomial(factor, shift - 1), q), x));
    }
  }

  lemma Difference(x: real, r: real, t: real, v: real)
    requires r == t - v
    ensures Times(x, r) == Times(x, t) - Times(x, v)
  {
  }

  lemma ProductSum(k: Poly, m: Poly, q: Poly, x: real)
    ensures Eval(Product(Padded(k, m), q), x) == Eval(Product(k, q), x) + Eval(Product(m, q), x)
  {
    var a, b, c := ProductValue(k, q, x), ProductValue(m, q, x), ProductValue(Padded(k, m), q, x);
    EvalPadded(k, m, x);
    Distribute(Eval(k, x), Eval(m, x), Eval(q, x));
  }

  function ProductValue(p: Poly, q: Poly, x: real): (r: real)
    ensures r == Eval(p, x) * Eval(q, x) == Eval(Product(p, q), x)
  {
    EvalProduct(p, q, x);
    Eval(p, x) * Eval(q, x)
  }

  /** `p = k q + r` at every point. */
  ghost predicate Divides(p: Poly, k: Poly, q: Poly, r: Poly) {
    forall x: real :: DividesAt(p, k, q, r, x)
  }

  ghost predicate DividesAt(p: Poly, k: Poly, q: Poly, r: Poly, x: real) {
    Eval(p, x) == Eval(Product(k, q), x) + Eval(r, x)
  }

  lemma DividesStep(p: Poly, k: Poly, q: Poly, r: Poly, shift: nat, factor: real)
    requires Divides(p, k, q, r) && |r| == |q| + shift
    ensures Divides(p, Padded(k, Monomial(factor, shift)), q, Trim(Reduced(r, q, shift, factor)))
  {
    var k', r' := Padded(k, Monomial(factor, shift)), Trim(Reduced(r, q, shift, factor));
    forall x: real ensures DividesAt(p, k', q, r', x) {
      assert DividesAt(p, k, q, r, x);
      EvalTrim(Reduced(r, q, shift, factor), x);
      EvalReduced(r, q, shift, factor, x);
      ProductSum(k, Monomial(factor, shift), q, x);
    }
  }

  method Subtract(p: Poly, q: Poly, shift: nat, factor: real) returns (r: Poly)
    requires |p| == |q| + shift
    ensures r == Reduced(p, q, shift, factor)
  {
    r := p;
    forall i | 0 <= i < shift ensures p[i] == Reduced(p, q, shift, factor)[i] {
      ReducedLow(p, q, shift, factor, i);
    }
    for j := 0 to |q|
      invariant |r| == |p|
      invariant forall i :: 0 <= i < shift + j ==> r[i] == Reduced(p, q, shift, factor)[i]
      invariant forall i :: shift + j <= i < |p| ==> r[i] == p[i]
    {
      ReducedHigh(p, q, shift, factor, j);
      r := r[j + shift := r[j + shift] - factor * q[j]];
    }
  }

  lemma LeadingCancels(a: real, b: real)
    requires b != 0.0
    ensures a - a / b * b == 0.0
  {
  }

  /** Division that the source refuses: by the zero polynomial, or by a list whose leading entry is zero or
      missing when there is anything to divide. */
  predicate Undefined(p: Poly, q: Poly) {
    || q == ZERO
    || (Trim(p) != ZERO && |Trim(p)| >= |q| && (q == [] || q[|q| - 1] == 0.0))
  }

  /** The remainder of division; a list that is shorter than the divisor is its own remainder. */
  method Remainder(p: Poly, q: Poly) returns (r: Option<Poly>, ghost quotient: Poly)
    ensures r.None? <==> Undefined(p, q)
    ensures r.Some? ==> Divides(p, quotient, q, r.value)
    ensures r.Some? && p != [] ==> Trimmed(r.value) && (r.value == ZERO || |r.value| < |q|)
    ensures r.Some? && p == [] ==> r.value == []
  {
    quotient := [];
    if q == ZERO {
      return None, [];
    }
    var rest := TrimLoop(p);
    if rest != ZERO && |rest| >= |q| {
      if q == [] || q[|q| - 1] == 0.0 {
        return None, [];
      }
      var last;
      last, quotient := DivideLoop(p, q);
      return Some(last), quotient;
    }
    forall x: real ensures DividesAt(p, [], q, rest, x) {
      EvalTrim(p, x);
    }
    return Some(rest), [];
  }

  /** The loop of the division, by a list with a nonzero leading entry. */
  method DivideLoop(p: Poly, q: Poly) returns (r: Poly, ghost quotient: Poly)
    requires p != [] && q != [] && q[|q| - 1] != 0.0
    ensures Trimmed(r) && (r == ZERO || |r| < |q|)
    ensures Divides(p, quotient, q, r)
  {
    r := TrimLoop(p);
    quotient := [];
    forall x: real ensures DividesAt(p, [], q, r, x) {
      EvalTrim(p, x);
    }
    while r != ZERO && |r| >= |q|
      invariant Trimmed(r) && Divides(p, quotient, q, r)
      decreases |r|, r != ZERO
    {
      var shift, factor := |r| - |q|, r[|r| - 1] / q[|q| - 1];
      ghost var before := r;
      r := Subtract(r, q, shift, factor);
      LeadingCancels(before[|before| - 1], q[|q| - 1]);
      ReducedHigh(before, q, shift, factor, |q| - 1);
      assert r[|r| - 1] == 0.0;
      DividesStep(p, quotient, q, before, shift, factor);
      quotient := Padded(quotient, Monomial(factor, shift));
      r := TrimLoop(r);
      assert |before| == 1 ==> r == ZERO;
    }
  }
}
