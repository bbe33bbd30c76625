/** Sturm chains: their algebra, and why zeros inside a chain do not disturb the sign count. */
module Sturm {
  import opened Polynomials
  import opened Wrappers

  function Abs(r: real): real { if r < 0.0 then -r else r }

  /** `s[i-1] = k s[i] - c s[i+1]` with `c > 0`, and the last member divides the one before. */
  ghost predicate Chain(s: seq<Poly>, ks: seq<Poly>, cs: seq<real>) {
    && Linked(s, ks, cs) && |ks| == |s| - 1
    && Divides(s[|s| - 2], ks[|s| - 2], s[|s| - 1], ZERO)
  }

  ghost predicate Linked(s: seq<Poly>, ks: seq<Poly>, cs: seq<real>) {
    && |s| >= 2 && |s| - 2 <= |ks| && |cs| == |s| - 2
    && forall i :: 0 <= i < |s| - 2 ==> Link(s, ks, cs, i)
  }

  ghost predicate Link(s: seq<Poly>, ks: seq<Poly>, cs: seq<real>, i: nat)
    requires i + 2 < |s| && i < |ks| && i < |cs|
  {
    cs[i] > 0.0 && Divides(s[i], ks[i], s[i + 1], Scaled(s[i + 2], -cs[i]))
  }

  /** Every member but the first has lower degree than the one before; all are trimmed and nonzero. */
  ghost predicate Falling(s: seq<Poly>) {
    && (forall i :: 0 <= i < |s| ==> Trimmed(s[i]) && s[i] != ZERO)
    && (forall i :: 0 <= i < |s| - 1 ==> |s[i + 1]| < |s[i]|)
  }

  lemma DerivativeTrimmed(p: Poly)
    requires Trimmed(p) && |p| >= 2
    ensures Trimmed(Derivative(p)) && Derivative(p) != ZERO
  {
    WeightedAt(p[1..], 1, |p| - 2);
    NonzeroProduct((|p| - 1) as real, p[|p| - 1]);
  }

  lemma ScaledTrimmed(p: Poly, a: real)
    requires Trimmed(p) && p != ZERO && a != 0.0
    ensures Trimmed(Scaled(p, a)) && Scaled(p, a) != ZERO
  {
    assert |p| == 1 ==> p[0] != 0.0;
    NonzeroProduct(a, p[|p| - 1]);
    ScaledAt(p, a, |p| - 1);
  }

  /** Negating a remainder and rescaling it by a positive factor keeps the division. */
  lemma Rescaled(p: Poly, k: Poly, q: Poly, r: Poly, l: real)
    requires Divides(p, k, q, r) && l > 0.0
    ensures Divides(p, k, q, Scaled(Scaled(Scaled(r, -1.0), 1.0 / l), -l))
  {
    var r' := Scaled(Scaled(Scaled(r, -1.0), 1.0 / l), -l);
    forall i | 0 <= i < |r| ensures r'[i] == r[i] {
      ScaledAt(r, -1.0, i);
      ScaledAt(Scaled(r, -1.0), 1.0 / l, i);
      ScaledAt(Scaled(Scaled(r, -1.0), 1.0 / l), -l, i);
      Cancel(l, r[i]);
    }
    assert r' == r;
  }

  lemma Cancel(l: real, r: real)
    requires l != 0.0
    ensures -l * (1.0 / l * (-1.0 * r)) == r
  {
    var m := 1.0 / l;
    assert l * m == 1.0;
    assert -l * (m * (-1.0 * r)) == (l * m) * r;
  }

  /** A nonzero remainder, negated and rescaled, extends the chain. */
  lemma LinkedExtend(
    s: seq<Poly>, ks: seq<Poly>, cs: seq<real>, k: Poly, l: real, next: Poly)
    requires Linked(s, ks, cs) && |ks| == |s| - 2 && l > 0.0
    requires Divides(s[|s| - 2], k, s[|s| - 1], Scaled(next, -l))
    ensures Linked(s + [next], ks + [k], cs + [l])
  {
    var s', ks', cs' := s + [next], ks + [k], cs + [l];
    forall i | 0 <= i < |s'| - 2 ensures Link(s', ks', cs', i) {
      if i < |s| - 2 {
        LinkKept(s, ks, cs, next, k, l, i);
      } else {
        LinkAdded(s, ks, cs, next, k, l);
      }
    }
  }

  lemma LinkAdded(s: seq<Poly>, ks: seq<Poly>, cs: seq<real>, next: Poly, k: Poly, l: real)
    requires |s| >= 2 && |ks| == |cs| == |s| - 2 && l > 0.0
    requires Divides(s[|s| - 2], k, s[|s| - 1], Scaled(next, -l))
    ensures Link(s + [next], ks + [k], cs + [l], |s| - 2)
  {
    var s', i := s + [next], |s| - 2;
    assert s'[i] == s[i] && s'[i + 1] == s[i + 1] && s'[i + 2] == next;
    assert (ks + [k])[i] == k && (cs + [l])[i] == l;
  }

  lemma LinkKept(s: seq<Poly>, ks: seq<Poly>, cs: seq<real>, next: Poly, k: Poly, l: real, i: nat)
    requires Linked(s, ks, cs) && i < |s| - 2
    ensures Link(s + [next], ks + [k], cs + [l], i)
  {
    var s' := s + [next];
    assert Link(s, ks, cs, i);
    assert s'[i] == s[i] && s'[i + 1] == s[i + 1] && s'[i + 2] == s[i + 2];
    assert (ks + [k])[i] == ks[i] && (cs + [l])[i] == cs[i];
  }

  lemma LinkedEnd(s: seq<Poly>, ks: seq<Poly>, cs: seq<real>, k: Poly)
    requires Linked(s, ks, cs) && |ks| == |s| - 2
    requires Divides(s[|s| - 2], k, s[|s| - 1], ZERO)
    ensures Chain(s, ks + [k], cs)
  {
    forall i | 0 <= i < |s| - 2 ensures Link(s, ks + [k], cs, i) {
      assert Link(s, ks, cs, i);
    }
  }

  /** The next member of a chain, from the remainder of its last two. */
  lemma NextMember(r: Poly, rem: Poly, l: real)
    requires Trimmed(r) && r != ZERO && rem == Scale(r, -1.0)
    requires rem != [] ==> l == Abs(rem[|rem| - 1])
    ensures rem == Scaled(r, -1.0) && l > 0.0
    ensures Scale(rem, 1.0 / l) == Scaled(rem, 1.0 / l)
    ensures Trimmed(Scaled(rem, 1.0 / l)) && Scaled(rem, 1.0 / l) != ZERO
  {
    ScaledTrimmed(r, -1.0);
    assert |rem| == 1 ==> rem[0] != 0.0;
    PositiveInverse(l);
    ScaledTrimmed(rem, 1.0 / l);
  }

  /** The one case the source's division refuses: a list with exactly one zero too many at its end. */
  predicate Stalls(p: Poly) { |p| >= 2 && |Trim(p)| == |p| - 1 }

  /** From the second member on the lists get shorter, and from the third on they are trimmed and nonzero. */
  ghost predicate Dropping(s: seq<Poly>) {
    && (forall i :: 1 <= i < |s| - 1 ==> |s[i + 1]| < |s[i]|)
    && (forall i :: 2 <= i < |s| ==> Trimmed(s[i]) && s[i] != ZERO)
  }

  /** The derivative can be divided by exactly when the list does not stall. */
  lemma FirstDivision(p: Poly)
    requires |p| >= 2
    ensures Undefined(Trim(p), Derivative(p)) <==> Stalls(p)
    ensures Trimmed(p) ==> Trimmed(Derivative(p)) && Derivative(p) != ZERO
  {
    assert |Derivative(p)| == |p| - 1;
    if Trimmed(p) {
      DerivativeTrimmed(p);
    } else {
      WeightedAt(p[1..], 1, |p| - 2);
      assert Derivative(p)[|p| - 2] == 0.0;
    }
  }

  /** A nonzero remainder gives the next member. */
  lemma Extended(s: seq<Poly>, ks: seq<Poly>, cs: seq<real>, k: Poly, r: Poly, rem: Poly, l: real)
    requires Linked(s, ks, cs) && |ks| == |s| - 2 && Dropping(s)
    requires Divides(s[|s| - 2], k, s[|s| - 1], r) && Trimmed(r) && r != ZERO && |r| < |s[|s| - 1]|
    requires rem == Scale(r, -1.0) && (rem != [] ==> l == Abs(rem[|rem| - 1]))
    ensures l > 0.0
    ensures var next := Scale(rem, 1.0 / l);
            |next| < |s[|s| - 1]| && Linked(s + [next], ks + [k], cs + [l]) && Dropping(s + [next])
  {
    NextMember(r, rem, l);
    Rescaled(s[|s| - 2], k, s[|s| - 1], r, l);
    LinkedExtend(s, ks, cs, k, l, Scale(rem, 1.0 / l));
    DroppingPush(s, Scale(rem, 1.0 / l));
  }

  lemma DroppingPush(s: seq<Poly>, next: Poly)
    requires Dropping(s) && |s| >= 2 && |next| < |s[|s| - 1]| && Trimmed(next) && next != ZERO
    ensures Dropping(s + [next])
  {
    var s' := s + [next];
    forall i | 1 <= i < |s'| - 1 ensures |s'[i + 1]| < |s'[i]| {
      assert s'[i] == s[i] && (i + 1 < |s| ==> s'[i + 1] == s[i + 1]);
    }
  }

  /** The chain of the trimmed list and the derivative of the list as it is, or none where the source's
      division raises. */
  method SturmChain(p: Poly) returns (chain: Option<seq<Poly>>, ghost ks: seq<Poly>, ghost cs: seq<real>)
    ensures chain.None? <==> Stalls(p)
    ensures |p| <= 1 ==> chain == Some([p])
    ensures |p| > 1 && chain.Some? ==>
              && |chain.value| >= 2 && chain.value[0] == Trim(p) && chain.value[1] == Derivative(p)
              && Chain(chain.value, ks, cs) && Dropping(chain.value)
    ensures |p| > 1 && Trimmed(p) ==> Falling(chain.value)
  {
    var first := TrimLoop(p);
    var s := [first];
    ks, cs := [], [];
    if |p| <= 1 {
      return Some(s), [], [];
    }
    FirstDivision(p);
    s := s + [Derivative(p)];
    while true
      invariant |s| >= 2 && s[0] == Trim(p) && s[1] == Derivative(p) && (|s| > 2 ==> !Stalls(p))
      invariant Linked(s, ks, cs) && |ks| == |s| - 2 && Dropping(s)
      decreases |s[|s| - 1]|
    {
      var r;
      ghost var k;
      r, k := Remainder(s[|s| - 2], s[|s| - 1]);
      if r.None? {
        return None, ks, cs;
      }
      var rem := Scale(r.value, -1.0);
      if rem == ZERO {
        ZeroRemainder(r.value);
        LinkedEnd(s, ks, cs, k);
        ks := ks + [k];
        return Some(s), ks, cs;
      }
      assert r.value != ZERO by { assert Scaled(ZERO, -1.0) == ZERO by { ScaledAt(ZERO, -1.0, 0); } }
      var l := Abs(rem[|rem| - 1]);
      Extended(s, ks, cs, k, r.value, rem, l);
      s := s + [Scale(rem, 1.0 / l)];
      ks, cs := ks + [k], cs + [l];
    }
  }

  lemma PositiveInverse(l: real)
    requires l > 0.0
    ensures 1.0 / l > 0.0
  {
  }

  lemma ZeroRemainder(r: Poly)
    requires Trimmed(r) && Scale(r, -1.0) == ZERO
    ensures r == ZERO
  {
    if r != ZERO {
      ScaledTrimmed(r, -1.0);
    }
  }

  // ---- Facts about every chain

  lemma DividesPoint(p: Poly, k: Poly, q: Poly, r: Poly, x: real)
    requires Divides(p, k, q, r)
    ensures Eval(p, x) == Eval(k, x) * Eval(q, x) + Eval(r, x)
  {
    assert DividesAt(p, k, q, r, x);
    EvalProduct(k, q, x);
  }

  lemma LinkPoint(p: Poly, k: Poly, q: Poly, r: Poly, s: Poly, c: real, x: real)
    requires Eval(p, x) == Eval(k, x) * Eval(q, x) + Eval(s, x) && s == Scaled(r, -c)
    ensures Eval(p, x) == Eval(k, x) * Eval(q, x) - c * Eval(r, x)
  {
    EvalScaled(r, -c, x);
  }

  lemma LinkValue(p: Poly, k: Poly, q: Poly, r: Poly, c: real, x: real)
    requires Divides(p, k, q, Scaled(r, -c))
    ensures Eval(p, x) == Eval(k, x) * Eval(q, x) - c * Eval(r, x)
  {
    DividesPoint(p, k, q, Scaled(r, -c), x);
    LinkPoint(p, k, q, r, Scaled(r, -c), c, x);
  }

  lemma LinkDivides(s: seq<Poly>, ks: seq<Poly>, cs: seq<real>, i: nat)
    requires Linked(s, ks, cs) && i + 2 < |s|
    ensures cs[i] > 0.0 && Divides(s[i], ks[i], s[i + 1], Scaled(s[i + 2], -cs[i]))
  {
    assert Link(s, ks, cs, i);
  }

  lemma LinkAt(s: seq<Poly>, ks: seq<Poly>, cs: seq<real>, i: nat, x: real)
    requires Linked(s, ks, cs) && i + 2 < |s|
    ensures Eval(s[i], x) == Eval(ks[i], x) * Eval(s[i + 1], x) - cs[i] * Eval(s[i + 2], x)
  {
    LinkDivides(s, ks, cs, i);
    LinkValue(s[i], ks[i], s[i + 1], s[i + 2], cs[i], x);
  }

  /** `m` times the last member. */
  ghost predicate Multiple(p: Poly, m: Poly, last: Poly) {
    forall x: real :: Eval(p, x) == Eval(Product(m, last), x)
  }

  /** The last member divides every member. */
  lemma {:induction false} LastDividesAll(s: seq<Poly>, ks: seq<Poly>, cs: seq<real>, i: nat) returns (m: Poly)
    requires Chain(s, ks, cs) && i < |s|
    ensures Multiple(s[i], m, s[|s| - 1])
    decreases |s| - i
  {
    var last := s[|s| - 1];
    if i == |s| - 1 {
      m := [1.0];
      forall x: real ensures Eval(s[i], x) == Eval(Product(m, last), x) {
        OneProduct(last, x);
      }
    } else if i == |s| - 2 {
      m := ks[i];
      forall x: real ensures Eval(s[i], x) == Eval(Product(m, last), x) {
        assert DividesAt(s[i], m, last, ZERO, x);
        EvalZeros(ZERO, x);
      }
    } else {
      var a := LastDividesAll(s, ks, cs, i + 1);
      var b := LastDividesAll(s, ks, cs, i + 2);
      LinkDivides(s, ks, cs, i);
      m := MultipleStep(s[i], s[i + 1], s[i + 2], ks[i], -cs[i], a, b, last);
    }
  }

  lemma OneProduct(q: Poly, x: real)
    ensures Eval(Product([1.0], q), x) == Eval(q, x)
  {
    assert Product([1.0], q) == Padded(Scaled(q, 1.0), [0.0] + []);
    EvalPadded(Scaled(q, 1.0), [0.0] + [], x);
    EvalScaled(q, 1.0, x);
    EvalCons(0.0, [], x);
  }

  /** Multiples of `last` are closed under the step of a chain. */
  lemma MultipleStep(p: Poly, q: Poly, r: Poly, k: Poly, c: real, a: Poly, b: Poly, last: Poly) returns (m: Poly)
    requires Divides(p, k, q, Scaled(r, c)) && Multiple(q, a, last) && Multiple(r, b, last)
    ensures Multiple(p, m, last)
  {
    var ka, cb := Product(k, a), Scaled(b, c);
    m := Padded(ka, cb);
    forall x: real ensures Eval(p, x) == Eval(Product(m, last), x) {
      assert DividesAt(p, k, q, Scaled(r, c), x);
      assert Eval(q, x) == Eval(Product(a, last), x);
      assert Eval(r, x) == Eval(Product(b, last), x);
      ProductCongruent(k, q, Product(a, last), x);
      ProductAssociates(k, a, last, x);
      ScaledCongruent(r, Product(b, last), c, x);
      ScaledProduct(b, c, last, x);
      ProductSum(ka, cb, last, x);
    }
  }

  lemma ProductCongruent(k: Poly, q: Poly, q': Poly, x: real)
    requires Eval(q, x) == Eval(q', x)
    ensures Eval(Product(k, q), x) == Eval(Product(k, q'), x)
  {
    var u, v := ProductValue(k, q, x), ProductValue(k, q', x);
    assert u == v;
  }

  lemma ScaledCongruent(q: Poly, q': Poly, c: real, x: real)
    requires Eval(q, x) == Eval(q', x)
    ensures Eval(Scaled(q, c), x) == Eval(Scaled(q', c), x)
  {
    EvalScaled(q, c, x);
    EvalScaled(q', c, x);
  }

  lemma TimesAssociates(k: real, a: real, l: real)
    ensures Times(Times(k, a), l) == Times(k, Times(a, l))
  {
  }

  lemma ProductAssociates(k: Poly, a: Poly, l: Poly, x: real)
    ensures Eval(Product(Product(k, a), l), x) == Eval(Product(k, Product(a, l)), x)
  {
    EvalProduct(Product(k, a), l, x);
    EvalProduct(k, a, x);
    EvalProduct(k, Product(a, l), x);
    EvalProduct(a, l, x);
    TimesAssociates(Eval(k, x), Eval(a, x), Eval(l, x));
  }

  lemma ScaledProduct(b: Poly, c: real, l: Poly, x: real)
    ensures Eval(Product(Scaled(b, c), l), x) == Eval(Scaled(Product(b, l), c), x)
  {
    EvalProduct(Scaled(b, c), l, x);
    EvalScaled(b, c, x);
    EvalScaled(Product(b, l), c, x);
    EvalProduct(b, l, x);
    TimesAssociates(c, Eval(b, x), Eval(l, x));
  }

  /** Where the polynomial is not zero, no two neighbours of its chain vanish together. */
  lemma {:induction false} NoCommonZero(s: seq<Poly>, ks: seq<Poly>, cs: seq<real>, i: nat, x: real)
    requires Linked(s, ks, cs) && i + 1 < |s| && Eval(s[0], x) != 0.0
    ensures Eval(s[i], x) != 0.0 || Eval(s[i + 1], x) != 0.0
  {
    if i > 0 {
      NoCommonZero(s, ks, cs, i - 1, x);
      LinkAt(s, ks, cs, i - 1, x);
      VanishTogether(Eval(s[i - 1], x), Eval(ks[i - 1], x), Eval(s[i], x), cs[i - 1], Eval(s[i + 1], x));
    }
  }

  lemma VanishTogether(p: real, k: real, q: real, c: real, r: real)
    requires p == k * q - c * r
    ensures q == 0.0 && r == 0.0 ==> p == 0.0
  {
  }

  /** A zero inside the chain has neighbours of opposite sign. */
  lemma OppositeNeighbours(s: seq<Poly>, ks: seq<Poly>, cs: seq<real>, i: nat, x: real)
    requires Linked(s, ks, cs) && 0 < i < |s| - 1 && Eval(s[0], x) != 0.0 && Eval(s[i], x) == 0.0
    ensures (Eval(s[i - 1], x) > 0.0 && Eval(s[i + 1], x) < 0.0)
         || (Eval(s[i - 1], x) < 0.0 && Eval(s[i + 1], x) > 0.0)
  {
    NoCommonZero(s, ks, cs, i, x);
    LinkAt(s, ks, cs, i - 1, x);
    assert Link(s, ks, cs, i - 1);
    Opposite(Eval(s[i - 1], x), Eval(ks[i - 1], x), Eval(s[i], x), cs[i - 1], Eval(s[i + 1], x));
  }

  lemma Opposite(p: real, k: real, q: real, c: real, r: real)
    requires p == k * q - c * r && q == 0.0 && c > 0.0 && r != 0.0
    ensures (p > 0.0 && r < 0.0) || (p < 0.0 && r > 0.0)
  {
    assert k * q == 0.0;
    if r > 0.0 { assert c * r > 0.0; } else { assert c * -r > 0.0; }
  }

  /** The last member does not vanish where the polynomial does not. */
  lemma LastNonzero(s: seq<Poly>, ks: seq<Poly>, cs: seq<real>, x: real)
    requires Chain(s, ks, cs) && Eval(s[0], x) != 0.0
    ensures Eval(s[|s| - 1], x) != 0.0
  {
    var m := LastDividesAll(s, ks, cs, 0);
    EvalProduct(m, s[|s| - 1], x);
    VanishTogether(Eval(s[0], x), Eval(m, x), Eval(s[|s| - 1], x), 0.0, 0.0);
  }

  // ---- Counting sign changes

  /** The signs of the nonzero values, in order. */
  function Signs(v: seq<real>): seq<bool> {
    if v == [] then []
    else
      var front, last := Signs(v[..|v| - 1]), v[|v| - 1];
      if last == 0.0 then front else front + [last > 0.0]
  }

  function Changes(signs: seq<bool>): nat {
    if |signs| < 2 then 0
    else Changes(signs[..|signs| - 1]) + if signs[|signs| - 1] != signs[|signs| - 2] then 1 else 0
  }

  function Values(s: seq<Poly>, x: real): seq<real> {
    seq(|s|, i requires 0 <= i < |s| => Eval(s[i], x))
  }

  /** The source's `variations`. */
  function Variations(s: seq<Poly>, x: real): nat { SignChanges(Values(s, x)) }

  method EvaluateAll(s: seq<Poly>, x: real) returns (v: seq<real>)
    ensures v == Values(s, x)
  {
    v := [];
    for i := 0 to |s|
      invariant v == Values(s, x)[..i]
    {
      var value := At(s[i], x);
      v := v + [value];
    }
  }

  /** Zeros only inside, each between neighbours of opposite sign. */
  ghost predicate Isolated(v: seq<real>) {
    && |v| >= 1 && v[0] != 0.0 && v[|v| - 1] != 0.0
    && forall i :: 0 < i < |v| - 1 && v[i] == 0.0 ==>
      (v[i - 1] > 0.0 && v[i + 1] < 0.0) || (v[i - 1] < 0.0 && v[i + 1] > 0.0)
  }

  /** `w` is `v` with every zero moved off zero, either way. */
  ghost predicate Perturbs(v: seq<real>, w: seq<real>) {
    && |w| == |v|
    && forall i :: 0 <= i < |v| ==> w[i] != 0.0 && (v[i] > 0.0 ==> w[i] > 0.0) && (v[i] < 0.0 ==> w[i] < 0.0)
  }

  function SignChanges(v: seq<real>): nat { Changes(Signs(v)) }

  lemma LastSign(v: seq<real>)
    requires v != [] && v[|v| - 1] != 0.0
    ensures Signs(v) == Signs(v[..|v| - 1]) + [v[|v| - 1] > 0.0]
  {
  }

  lemma ChangesPush(a: seq<bool>, b: bool)
    ensures Changes(a + [b]) == Changes(a) + if a != [] && a[|a| - 1] != b then 1 else 0
  {
    assert (a + [b])[..|a|] == a;
  }

  lemma StepNonzero(v: seq<real>)
    requires |v| >= 2 && v[|v| - 1] != 0.0 && v[|v| - 2] != 0.0
    ensures SignChanges(v) ==
      SignChanges(v[..|v| - 1]) + if (v[|v| - 1] > 0.0) != (v[|v| - 2] > 0.0) then 1 else 0
  {
    LastSign(v);
    LastSign(v[..|v| - 1]);
    ChangesPush(Signs(v[..|v| - 1]), v[|v| - 1] > 0.0);
  }

  lemma StepZero(v: seq<real>)
    requires |v| >= 3 && v[|v| - 1] != 0.0 && v[|v| - 2] == 0.0 && v[|v| - 3] != 0.0
    ensures SignChanges(v) ==
      SignChanges(v[..|v| - 2]) + if (v[|v| - 1] > 0.0) != (v[|v| - 3] > 0.0) then 1 else 0
  {
    var front := v[..|v| - 1];
    assert front[..|front| - 1] == v[..|v| - 2];
    assert Signs(front) == Signs(v[..|v| - 2]);
    LastSign(v);
    LastSign(v[..|v| - 2]);
    ChangesPush(Signs(front), v[|v| - 1] > 0.0);
  }

  lemma PerturbNonzero(v: seq<real>, w: seq<real>, n: nat)
    requires n == |v| >= 2 && Perturbs(v, w) && v[n - 1] != 0.0 && v[n - 2] != 0.0
    requires SignChanges(v[..n - 1]) == SignChanges(w[..n - 1])
    ensures SignChanges(v) == SignChanges(w)
  {
    StepNonzero(v);
    StepNonzero(w);
  }

  lemma PerturbZero(v: seq<real>, w: seq<real>, n: nat)
    requires n == |v| >= 3 && Isolated(v) && Perturbs(v, w) && v[n - 2] == 0.0
    requires SignChanges(v[..n - 2]) == SignChanges(w[..n - 2])
    ensures SignChanges(v) == SignChanges(w)
  {
    StepZero(v);
    StepNonzero(w);
    StepNonzero(w[..n - 1]);
    assert w[..n - 1][..n - 2] == w[..n - 2];
  }

  lemma IsolatedFront(v: seq<real>, w: seq<real>, m: nat)
    requires Isolated(v) && Perturbs(v, w) && 1 <= m <= |v| && v[m - 1] != 0.0
    ensures Isolated(v[..m]) && Perturbs(v[..m], w[..m])
  {
    var f := v[..m];
    forall i | 0 < i < m - 1 && f[i] == 0.0
      ensures (f[i - 1] > 0.0 && f[i + 1] < 0.0) || (f[i - 1] < 0.0 && f[i + 1] > 0.0)
    {
      assert f[i] == v[i] && f[i - 1] == v[i - 1] && f[i + 1] == v[i + 1];
    }
  }

  lemma {:induction false} PerturbationKeepsChanges(v: seq<real>, w: seq<real>)
    requires Isolated(v) && Perturbs(v, w)
    ensures SignChanges(v) == SignChanges(w)
    decreases |v|
  {
    var n := |v|;
    if n == 1 {
      LastSign(v);
      LastSign(w);
    } else if v[n - 2] != 0.0 {
      IsolatedFront(v, w, n - 1);
      PerturbationKeepsChanges(v[..n - 1], w[..n - 1]);
      PerturbNonzero(v, w, n);
    } else {
      assert 0 < n - 2 && v[n - 3] != 0.0;
      IsolatedFront(v, w, n - 2);
      PerturbationKeepsChanges(v[..n - 2], w[..n - 2]);
      PerturbZero(v, w, n);
    }
  }

  /** Dropping the zeros of a chain counts each of them as exactly one change: moving every zero
      off zero, either way, gives the same count. */
  lemma ZerosCountOnce(s: seq<Poly>, ks: seq<Poly>, cs: seq<real>, x: real, w: seq<real>)
    requires Chain(s, ks, cs) && Eval(s[0], x) != 0.0 && Perturbs(Values(s, x), w)
    ensures Variations(s, x) == SignChanges(w)
  {
    var v := Values(s, x);
    LastNonzero(s, ks, cs, x);
    forall i | 0 < i < |v| - 1 && v[i] == 0.0
      ensures (v[i - 1] > 0.0 && v[i + 1] < 0.0) || (v[i - 1] < 0.0 && v[i + 1] > 0.0)
    {
      OppositeNeighbours(s, ks, cs, i, x);
    }
    PerturbationKeepsChanges(v, w);
  }

  /** The difference of the sign counts at the two ends of an interval; none for an empty interval, an
      endpoint that is a root, or a list whose chain stalls. */
  method RootCount(p: Poly, left: real, right: real)
    returns (count: Option<int>, ghost s: seq<Poly>, ghost ks: seq<Poly>, ghost cs: seq<real>)
    ensures count.Some? <==> left < right && Eval(p, left) != 0.0 && Eval(p, right) != 0.0 && !Stalls(p)
    ensures count.Some? ==> s != [] && s[0] == Trim(p)
    ensures count.Some? && |p| > 1 ==> |s| >= 2 && s[1] == Derivative(p) && Chain(s, ks, cs) && Dropping(s)
    ensures count.Some? && |p| > 1 && Trimmed(p) ==> Falling(s)
    ensures count.Some? ==> count.value == Variations(s, left) - Variations(s, right)
    ensures count.Some? && |p| == 1 ==> count.value == 0
  {
    var a := At(p, left);
    var b := At(p, right);
    if left >= right || a == 0.0 || b == 0.0 {
      return None, [], [], [];
    }
    var chain;
    chain, ks, cs := SturmChain(p);
    if chain.None? {
      return None, [], [], [];
    }
    var atLeft := EvaluateAll(chain.value, left);
    var atRight := EvaluateAll(chain.value, right);
    return Some(SignChanges(atLeft) - SignChanges(atRight)), chain.value, ks, cs;
  }
}
