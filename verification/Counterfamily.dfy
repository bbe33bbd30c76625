/** For every claimed localisation constant, a quadratic witness that violates it. */
module Counterfamily {
  import opened Wrappers
  import opened Polynomials
  import opened Hypergeometric
  import opened Sturm

  predicate CoarseConditions(d: int, A: real, B: real, C: real, D: real) {
    && d >= 1
    && A > 0.0 && B > 0.0 && C > 0.0 && D > 0.0
    && A >= 8.0 * B
    && B >= 144.0 * d as real && D >= 144.0 * d as real
    && 4.0 * d as real <= C - D <= D / 4.0
  }

  const C := 296.0
  const D := 288.0

  /** The gap left by the limit of the quadratic coefficient. */
  const LIMIT := 10692.0 / 10693.0

  function Unit(c: nat): real { 106.0 * c as real }

  function B(c: nat): real { 2.0 * Unit(c) * Unit(c) }

  function A(c: nat): real { 16.0 * Unit(c) * Unit(c) }

  lemma Conditions(c: nat)
    requires c >= 1
    ensures CoarseConditions(2, A(c), B(c), C, D) && B(c) > 4.0 * D && A(c) == 8.0 * B(c)
    ensures ModelDivisible(2, A(c), B(c), C, D)
  {
    var t := Unit(c);
    assert t >= 106.0;
    Square(t);
    forall i: nat | i < 2 ensures Shifted(B(c), i) != 0.0 && Shifted(D, i) != 0.0 {
    }
  }

  lemma Square(t: real)
    requires t >= 106.0
    ensures t * t >= 11236.0
  {
    assert (t - 106.0) * t >= 0.0;
  }

  /** The quadratic coefficient, relative to `1 / B^2`. */
  function Quadratic(A: real, B: real): real
    requires A > 0.0 && B > 0.0
  {
    B / (B + 1.0) * ((A + 1.0) / A) * LIMIT
  }

  lemma QuadraticBelowLimit(A: real, B: real)
    requires 0.0 < B < A
    ensures 0.0 < Quadratic(A, B) < LIMIT
  {
    var r, s := B / (B + 1.0), (A + 1.0) / A;
    Undivide(B, B + 1.0, r);
    Undivide(A + 1.0, A, s);
    RatioBelow(r, s, A, B, A + 1.0, B + 1.0);
    Fraction(r * s, LIMIT);
  }

  lemma Fraction(x: real, l: real)
    requires 0.0 < x < 1.0 && l > 0.0
    ensures 0.0 < x * l < l
  {
    assert (1.0 - x) * l > 0.0;
  }

  lemma RatioBelow(r: real, s: real, A: real, B: real, A1: real, B1: real)
    requires r * B1 == B && s * A == A1 && A1 == A + 1.0 && B1 == B + 1.0 && 0.0 < B < A
    ensures 0.0 < r * s < 1.0
  {
    PositiveFactor(r, B1);
    PositiveFactor(s, A);
    Cleared(r, s, A, B, A1, B1);
    assert (1.0 - r * s) * (B1 * A) == B1 * A - B * A1;
    assert B1 * A > 0.0;
    PositiveFactor(1.0 - r * s, B1 * A);
  }

  lemma Cleared(r: real, s: real, A: real, B: real, A1: real, B1: real)
    requires r * B1 == B && s * A == A1
    ensures (r * s) * (B1 * A) == B * A1
  {
    Substitute(1.0, r * B1, s * A, 1.0, B, A1);
  }

  lemma PositiveFactor(y: real, m: real)
    requires m > 0.0 && y * m > 0.0
    ensures y > 0.0
  {
  }

  // ---- The polynomial of the witness

  /** The two coefficients above the constant term. */
  lemma Coefficients(c: nat, p: Poly)
    requires c >= 1 && ModelDivisible(2, A(c), B(c), C, D) && IsModel(p, 2, A(c), B(c), C, D)
    ensures A(c) > 0.0 && B(c) > 0.0 && |p| == 3 && p[0] == 1.0
    ensures p[1] == -2.0 / B(c)
    ensures p[2] * (B(c) * B(c)) == Quadratic(A(c), B(c))
  {
    Conditions(c);
    assert p[0] == ModelTerm(2, A(c), B(c), C, D, 0) == 1.0;
    assert p[1] == ModelTerm(2, A(c), B(c), C, D, 1);
    assert p[2] == ModelTerm(2, A(c), B(c), C, D, 2);
    FirstStep(A(c), B(c), p[1]);
    SecondStep(A(c), B(c), p[1], p[2]);
  }

  lemma FirstStep(A: real, B: real, p1: real)
    requires A > 0.0 && B > 0.0
    requires p1 == ModelStep(1.0, -2.0, A, C, D, B, D, A, C)
    ensures p1 == -2.0 / B
  {
    ModelDivisor(B, D, A, C);
    var m := B * D * A * C;
    Undivide(-170496.0 * A, m, p1);
    FirstProduct(p1, A, B, m);
    Divide(p1, B, -2.0);
  }

  lemma FirstProduct(p1: real, A: real, B: real, m: real)
    requires A > 0.0 && m == B * 288.0 * A * 296.0 && p1 * m == -170496.0 * A
    ensures p1 * B == -2.0
  {
    var n := A * B;
    assert m == 85248.0 * n;
    var w := p1 * n;
    assert p1 * m == 85248.0 * w;
    assert w == A * (p1 * B);
    assert A * (p1 * B + 2.0) == 0.0;
  }

  lemma SecondStep(A: real, B: real, p1: real, p2: real)
    requires A > 0.0 && B > 0.0 && p1 == -2.0 / B
    requires p2 == ModelStep(p1, -1.0 / 2.0, A + 1.0, C + 1.0, D, B + 1.0, D + 1.0, A, C)
    ensures p2 * (B * B) == Quadratic(A, B)
  {
    var r, s := B / (B + 1.0), (A + 1.0) / A;
    Undivide(B, B + 1.0, r);
    Undivide(A + 1.0, A, s);
    Undivide(-2.0, B, p1);
  }

  // ---- Signs at the ends of the claimed interval

  /** Where the witness is negative although the claim puts every root above. */
  function Threshold(c: nat): real { B(c) - 2.0 * c as real * Unit(c) }

  lemma ThresholdRatio(c: nat)
    requires c >= 1
    ensures 106.0 * Threshold(c) == 105.0 * B(c) && 0.0 < Threshold(c) < B(c)
  {
    var t := Unit(c);
    assert 106.0 * (2.0 * c as real * t) == 2.0 * t * t;
    Square(t);
  }

  /** For every positive constant the witness meets the coarse conditions, breaks the added bound
      `B / D <= 4`, has `sqrt(B d)` rational, and changes sign below the claimed interval. */
  lemma Witness(c: nat, p: Poly)
    requires c >= 1 && ModelDivisible(2, A(c), B(c), C, D) && IsModel(p, 2, A(c), B(c), C, D)
    ensures CoarseConditions(2, A(c), B(c), C, D)
    ensures B(c) / D > 4.0
    ensures (2.0 * Unit(c)) * (2.0 * Unit(c)) == B(c) * 2.0
    ensures 0.0 < Threshold(c) < B(c)
    ensures Eval(p, 0.0) > 0.0 > Eval(p, Threshold(c))
    ensures Falls(p, Threshold(c))
  {
    Conditions(c);
    Coefficients(c, p);
    ThresholdRatio(c);
    QuadraticBelowLimit(A(c), B(c));
    QuadraticValue(p, 0.0);
    QuadraticValue(p, Threshold(c));
    Signs106(p[1], p[2], B(c), Threshold(c), Quadratic(A(c), B(c)));
  }

  lemma QuadraticValue(p: Poly, x: real)
    requires |p| == 3
    ensures Eval(p, x) == p[0] + x * (p[1] + x * p[2])
  {
    assert Eval(p[1..][1..][1..], x) == 0.0;
    assert Eval(p[1..][1..], x) == p[2];
  }

  /** The quadratic has two positive roots and falls at `x`. */
  ghost predicate Falls(p: Poly, x: real) {
    |p| == 3 && p[0] == 1.0 && p[1] < 0.0 && p[2] > 0.0 && p[1] * p[1] > 4.0 * p[2] && p[1] + 2.0 * x * p[2] < 0.0
  }

  lemma Signs106(a: real, b: real, B: real, x: real, q: real)
    requires B > 0.0 && a == -2.0 / B && b * (B * B) == q && 0.0 < q < LIMIT && 106.0 * x == 105.0 * B
    ensures a < 0.0 && b > 0.0 && a * a > 4.0 * b && a + 2.0 * x * b < 0.0
    ensures 1.0 + x * (a + x * b) < 0.0
  {
    Undivide(-2.0, B, a);
    var u := b * B;
    assert B * B > 0.0 && u * B == q;
    PositiveFactor(b, B * B);
    PositiveFactor(-a, B);
    Discriminant(a, b, B, q);
    assert (a + 2.0 * x * b) * B == -2.0 + 2.0 * (x * u);
    MulEq(u, 106.0 * x, 105.0 * B);
    PositiveFactor(-(a + 2.0 * x * b), B);
    Negative(a, b, B, x, q);
  }

  lemma Discriminant(a: real, b: real, B: real, q: real)
    requires B > 0.0 && a * B == -2.0 && b * (B * B) == q && q < 1.0
    ensures a * a > 4.0 * b
  {
    assert B * B > 0.0;
    assert (a * a) * (B * B) == (a * B) * (a * B);
    assert (a * a - 4.0 * b) * (B * B) == 4.0 - 4.0 * q;
    PositiveFactor(a * a - 4.0 * b, B * B);
  }

  lemma Negative(a: real, b: real, B: real, x: real, q: real)
    requires B > 0.0 && a * B == -2.0 && b * (B * B) == q && q < LIMIT && 106.0 * x == 105.0 * B
    ensures 1.0 + x * (a + x * b) < 0.0
  {
    var r := 105.0 / 106.0;
    assert x == r * B;
    assert x * a == r * (a * B);
    assert x * x * b == r * r * (b * (B * B));
  }

  // ---- The root count of the witness

  /** The Sturm chain of a quadratic with two roots ends in a positive constant. */
  lemma QuadraticChain(s: seq<Poly>, ks: seq<Poly>, cs: seq<real>, p: Poly)
    requires |p| == 3 && p[0] == 1.0 && p[2] > 0.0 && p[1] * p[1] > 4.0 * p[2]
    requires Chain(s, ks, cs) && Sturm.Falling(s) && s[0] == p && s[1] == Derivative(p)
    ensures |s| == 3 && |s[2]| == 1 && s[2][0] > 0.0
  {
    var r := -p[1] / (2.0 * p[2]);
    DerivativeValue(p, r);
    QuadraticValue(p, r);
    VertexValue(p[1], p[2], r);
    NotDivisible(s, ks, cs, r);
    ChainShape(s);
    LastValue(s, ks, cs, r);
  }

  /** A polynomial that does not share a root of its derivative has a third chain member. */
  lemma NotDivisible(s: seq<Poly>, ks: seq<Poly>, cs: seq<real>, r: real)
    requires Chain(s, ks, cs) && Eval(s[0], r) < 0.0 && Eval(s[1], r) == 0.0
    ensures |s| > 2
  {
    LastNonzero(s, ks, cs, r);
  }

  lemma ChainShape(s: seq<Poly>)
    requires Sturm.Falling(s) && |s| > 2 && |s[1]| == 2
    ensures |s| == 3 && |s[2]| == 1
  {
    assert |s[2]| < |s[1]| && Trimmed(s[2]);
    if |s| > 3 {
      AfterConstant(s[2], s[3]);
      assert false;
    }
  }

  lemma AfterConstant(last: Poly, next: Poly)
    requires |last| == 1 && Trimmed(next)
    ensures |next| >= |last|
  {
  }

  lemma LastValue(s: seq<Poly>, ks: seq<Poly>, cs: seq<real>, r: real)
    requires Chain(s, ks, cs) && |s| == 3 && |s[2]| == 1 && Eval(s[0], r) < 0.0 && Eval(s[1], r) == 0.0
    ensures s[2][0] > 0.0
  {
    LinkAt(s, ks, cs, 0, r);
    LinkDivides(s, ks, cs, 0);
    assert Eval(s[2][1..], r) == 0.0;
    assert Eval(s[2], r) == s[2][0];
    Opposes(Eval(s[0], r), Eval(ks[0], r), Eval(s[1], r), cs[0], Eval(s[2], r));
  }

  lemma Opposes(p: real, k: real, q: real, c: real, e: real)
    requires p == k * q - c * e && q == 0.0 && p < 0.0 && c > 0.0
    ensures e > 0.0
  {
  }

  lemma DerivativeValue(p: Poly, x: real)
    requires |p| == 3
    ensures Derivative(p) == [p[1], 2.0 * p[2]] && Eval(Derivative(p), x) == p[1] + 2.0 * x * p[2]
  {
    WeightedAt(p[1..], 1, 0);
    WeightedAt(p[1..], 1, 1);
    var q := Derivative(p);
    assert Eval(q[1..][1..], x) == 0.0;
    assert Eval(q[1..], x) == 2.0 * p[2];
  }

  lemma VertexValue(a: real, b: real, r: real)
    requires b > 0.0 && a * a > 4.0 * b && r == -a / (2.0 * b)
    ensures a + 2.0 * r * b == 0.0 && 1.0 + r * (a + r * b) < 0.0
  {
    Undivide(-a, 2.0 * b, r);
    assert (1.0 + r * (a + r * b)) * (4.0 * b) == 4.0 * b + 2.0 * a * (r * (2.0 * b)) + (r * (2.0 * b)) * (r * (2.0 * b));
    Substitute(1.0, r * (2.0 * b), r * (2.0 * b), 1.0, -a, -a);
    PositiveFactor(-(1.0 + r * (a + r * b)), 4.0 * b);
  }

  lemma ThreeSigns(v: seq<real>)
    requires |v| == 3 && v[0] != 0.0 && v[1] != 0.0 && v[2] != 0.0
    ensures SignChanges(v)
         == (if (v[2] > 0.0) != (v[1] > 0.0) then 1 else 0) + (if (v[1] > 0.0) != (v[0] > 0.0) then 1 else 0)
  {
    StepNonzero(v);
    StepNonzero(v[..2]);
    LastSign(v[..1]);
    assert v[..2][..1] == v[..1];
  }

  /** Exactly one sign change is lost between zero and a point below the larger root. */
  lemma QuadraticCount(s: seq<Poly>, ks: seq<Poly>, cs: seq<real>, p: Poly, x: real)
    requires Falls(p, x) && Eval(p, x) < 0.0
    requires Chain(s, ks, cs) && Sturm.Falling(s) && s[0] == p && s[1] == Derivative(p)
    ensures Variations(s, 0.0) - Variations(s, x) == 1
  {
    QuadraticChain(s, ks, cs, p);
    ChainValues(s, p, 0.0);
    ChainValues(s, p, x);
    ThreeSigns(Values(s, 0.0));
    ThreeSigns(Values(s, x));
  }

  lemma ChainValues(s: seq<Poly>, p: Poly, x: real)
    requires |s| == 3 && |p| == 3 && s[0] == p && s[1] == Derivative(p) && |s[2]| == 1
    ensures Values(s, x)[0] == p[0] + x * (p[1] + x * p[2])
    ensures Values(s, x)[1] == p[1] + 2.0 * x * p[2] && Values(s, x)[2] == s[2][0]
  {
    QuadraticValue(p, x);
    DerivativeValue(p, x);
    assert Eval(s[2][1..], x) == 0.0;
  }

  /** The witness for one constant: its polynomial, and one root below the claimed interval. */
  method Counterexample(c: nat) returns (p: Poly, threshold: real, count: Option<int>)
    requires c >= 1
    ensures CoarseConditions(2, A(c), B(c), C, D) && B(c) / D > 4.0
    ensures threshold == B(c) - c as real * (2.0 * Unit(c)) && 0.0 < threshold < B(c)
    ensures (2.0 * Unit(c)) * (2.0 * Unit(c)) == B(c) * 2.0
    ensures ModelDivisible(2, A(c), B(c), C, D) && IsModel(p, 2, A(c), B(c), C, D)
    ensures Eval(p, 0.0) > 0.0 > Eval(p, threshold) && count == Some(1)
  {
    Conditions(c);
    p := ModelCoefficients(2, A(c), B(c), C, D);
    Witness(c, p);
    threshold := B(c) - c as real * (2.0 * Unit(c));
    assert threshold == Threshold(c);
    ghost var s, ks, cs;
    count, s, ks, cs := RootCount(p, 0.0, threshold);
    QuadraticCount(s, ks, cs, p, threshold);
  }
}
