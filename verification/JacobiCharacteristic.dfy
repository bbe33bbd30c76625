/** The characteristic polynomial of the Jacobi matrix, by its three-term recurrence, is the
    hypergeometric coefficient list. */
module JacobiCharacteristic {
  import opened Polynomials
  import opened Hypergeometric
  import opened RecurrenceAlgebra

  /** Every divisor the recurrence meets is nonzero. */
  ghost predicate Regular(d: nat, H: real) {
    forall m: nat :: 1 <= d && m <= 2 * d && (m == 1 ==> d >= 2) ==> Shifted(H, m) != 0.0
  }

  ghost predicate RegularFrom(d: nat, H: real) {
    forall m: nat :: 2 <= m <= 2 * d ==> Shifted(H, m) != 0.0
  }

  /** The closed form of coefficient `j` of the monic degree-`k` minor, from the one above:
      `x` is `k - j` and `y` is `k + H + j + 1`. */
  function CoefStep(above: real, w: real, x: real, y: real): (r: real)
    requires x != 0.0 && y != 0.0
    ensures Cross(r, x, y, above, w, 1.0)
  {
    Over(-(above * w), x, y)
  }

  ghost function Coef(d: nat, U: real, V: real, H: real, k: nat, j: nat): real
    requires RegularFrom(d, H) && j <= k <= d
    decreases k - j
  {
    if j == k then 1.0
    else
      CoefStep(Coef(d, U, V, H, k, j + 1), Weight(U, (j + 1) as real, Shifted(V, j)), (k - j) as real, Shifted(H, k + j + 1))
  }

  /** One coefficient from the next, without division. */
  lemma CoefDown(d: nat, U: real, V: real, H: real, k: nat, j: nat)
    requires RegularFrom(d, H) && j < k <= d
    ensures Cross(Coef(d, U, V, H, k, j), (k - j) as real, Shifted(H, k + j + 1),
                  Coef(d, U, V, H, k, j + 1), Weight(U, (j + 1) as real, Shifted(V, j)), 1.0)
  {
  }

  /** The factor that belongs to the step from minor `k` to minor `k + 1`. */
  function Scaling(H: real, k: nat): real { Times(Shifted(H, 2 * k + 1), Shifted(H, 2 * k + 2)) }

  /** One coefficient of the next minor from the same coefficient of this one. */
  lemma {:induction false} CoefUp(d: nat, U: real, V: real, H: real, k: nat, j: nat)
    requires RegularFrom(d, H) && j <= k < d
    ensures Cross(Coef(d, U, V, H, k + 1, j), (k + 1 - j) as real, Scaling(H, k),
                  Coef(d, U, V, H, k, j), Weight(U, (k + 1) as real, Shifted(V, k)), Shifted(H, k + j + 1))
    decreases k - j
  {
    CoefDown(d, U, V, H, k + 1, j);
    var w, K := Weight(U, (j + 1) as real, Shifted(V, j)), Weight(U, (k + 1) as real, Shifted(V, k));
    if j == k {
      UpBase(Coef(d, U, V, H, k + 1, k), K, Shifted(H, 2 * k + 1), Shifted(H, 2 * k + 2));
    } else {
      CoefUp(d, U, V, H, k, j + 1);
      CoefDown(d, U, V, H, k, j);
      UpStep(Coef(d, U, V, H, k + 1, j), Coef(d, U, V, H, k + 1, j + 1),
             Coef(d, U, V, H, k, j), Coef(d, U, V, H, k, j + 1), w, K, Scaling(H, k),
             (k - j) as real, (k + 1 - j) as real, Shifted(H, k + j + 1), Shifted(H, k + j + 2));
    }
  }

  lemma UpBase(low: real, K: real, y: real, y1: real)
    requires Cross(low, 1.0, y1, 1.0, K, 1.0)
    ensures Cross(low, 1.0, Times(y, y1), 1.0, K, y)
  {
    assert low * (1.0 * (y * y1)) == (low * (1.0 * y1)) * y;
  }

  lemma UpStep(a': real, c': real, a: real, c: real, w: real, K: real, P: real, x: real, x1: real, y: real, y1: real)
    requires x != 0.0 && y1 != 0.0
    requires Cross(a', x1, y1, c', w, 1.0) && Cross(a, x, y, c, w, 1.0) && Cross(c', x, P, c, K, y1)
    ensures Cross(a', x1, P, a, K, y)
  {
    calc {
      (x * y1) * (a' * (x1 * P));
      (a' * (x1 * y1)) * (x * P);
      { RightMul(a' * (x1 * y1), -(c' * w), x * P); }
      -(c' * w) * (x * P);
      (c' * (x * P)) * -w;
      { RightMul(c' * (x * P), -(c * (K * y1)), -w); }
      -(c * (K * y1)) * -w;
      -(c * w) * -(K * y1);
      { RightMul(a * (x * y), -(c * w), -(K * y1)); }
      (a * (x * y)) * -(K * y1);
      (x * y1) * -(a * (K * y));
    }
    NonzeroProduct(x, y1);
    CancelFactor(x * y1, a' * (x1 * P), -(a * (K * y)));
  }

  // ---- The three-term recurrence

  function Numerator(V: real, H: real, k: real): real { H * (V + 2.0 * k) + 2.0 * k * (k + 1.0) }

  function Diagonal(U: real, V: real, H: real, k: real): real
    requires H + 2.0 * k != 0.0 && H + 2.0 * k + 2.0 != 0.0
  {
    DiagonalQuotient(U, Numerator(V, H, k), H + 2.0 * k, H + 2.0 * k + 2.0)
  }

  lemma DiagonalIs(U: real, V: real, H: real, k: real, h: real, h2: real)
    requires h == H + 2.0 * k && h2 == h + 2.0 && h != 0.0 && h2 != 0.0
    ensures IsDiagonal(Diagonal(U, V, H, k), h, h2, U, Numerator(V, H, k))
  {
    QuotientIsDiagonal(U, Numerator(V, H, k), h, h2);
    assert Diagonal(U, V, H, k) == DiagonalQuotient(U, Numerator(V, H, k), h, h2);
  }

  lemma NumeratorForm(V: real, H: real, k: real, h: real, v: real)
    requires h == H + 2.0 * k && v == V + k
    ensures Numerator(V, H, k) == h * v + h * k - 2.0 * k * v + 2.0 * k
  {
  }

  function OffSquared(U: real, H: real, alpha: real, beta: real, k: real): real
    requires H + 2.0 * k != 0.0 && H + 2.0 * k - 1.0 != 0.0 && H + 2.0 * k + 1.0 != 0.0
  {
    OffQuotient(U / (H + 2.0 * k), k, k + alpha, k + beta, k + H, H + 2.0 * k - 1.0, H + 2.0 * k + 1.0)
  }

  lemma OffIs(
    U: real, H: real, alpha: real, beta: real, k: real, hm: real, h: real, h1: real) returns (q: real)
    requires h == H + 2.0 * k && hm == h - 1.0 && h1 == h + 1.0 && hm != 0.0 && h != 0.0 && h1 != 0.0
    ensures IsOff(OffSquared(U, H, alpha, beta, k), hm, h, h1, q, U, k, k + alpha, k + beta, k + H)
  {
    q := U / h;
    QuotientIsOff(q, U, k, k + alpha, k + beta, k + H, hm, h, h1);
    assert OffSquared(U, H, alpha, beta, k) == OffQuotient(q, k, k + alpha, k + beta, k + H, hm, h1);
  }

  /** Coefficient `j - 1` of minor `k`; zero below the list. */
  ghost function Lower(d: nat, U: real, V: real, H: real, k: nat, j: nat): real
    requires RegularFrom(d, H) && j <= k + 1 <= d + 1
  {
    if j == 0 then 0.0 else Coef(d, U, V, H, k, j - 1)
  }

  /** Coefficient `j` of minor `k`; zero above the list. */
  ghost function Upper(d: nat, U: real, V: real, H: real, k: nat, j: nat): real
    requires RegularFrom(d, H) && k <= d
  {
    if j > k then 0.0 else Coef(d, U, V, H, k, j)
  }

  lemma LowerCross(d: nat, U: real, V: real, H: real, k: nat, j: nat)
    requires RegularFrom(d, H) && j <= k <= d
    ensures Cross(Lower(d, U, V, H, k, j), (k + 1 - j) as real, Shifted(H, k + j),
                  Coef(d, U, V, H, k, j), Weight(U, j as real, V + j as real - 1.0), 1.0)
  {
    if j > 0 {
      CoefDown(d, U, V, H, k, j - 1);
    } else {
      ZeroWeight(U, V + j as real - 1.0);
    }
  }

  lemma ZeroWeight(U: real, m: real)
    ensures Weight(U, 0.0, m) == 0.0
  {
  }

  lemma UpperCross(d: nat, U: real, V: real, H: real, k: nat, j: nat, vm: real)
    requires RegularFrom(d, H) && 1 <= k <= d && j <= k && vm == V + k as real - 1.0
    ensures Cross(Coef(d, U, V, H, k, j), (k - j) as real, Times(Shifted(H, 2 * k - 1), Shifted(H, 2 * k)),
                  Upper(d, U, V, H, k - 1, j), Weight(U, k as real, vm), Shifted(H, k + j))
  {
    if j < k {
      CoefUp(d, U, V, H, k - 1, j);
      assert Shifted(V, k - 1) == vm;
    }
  }

  lemma RegularAt(d: nat, H: real, k: nat)
    requires Regular(d, H) && 1 <= k < d
    ensures Shifted(H, 2 * k) != 0.0 && Shifted(H, 2 * k - 1) != 0.0 && Shifted(H, 2 * k + 1) != 0.0
         && Shifted(H, 2 * k + 2) != 0.0
  {
  }

  lemma MatrixEntries(
    U: real, V: real, H: real, k: real, alpha: real, beta: real, hm: real, h: real, h1: real, h2: real, v: real)
    returns (diag: real, off: real, e: real, q: real)
    requires h == H + 2.0 * k && hm == h - 1.0 && h1 == h + 1.0 && h2 == h + 2.0 && v == V + k
    requires hm != 0.0 && h != 0.0 && h1 != 0.0 && h2 != 0.0
    ensures diag == Diagonal(U, V, H, k) && off == OffSquared(U, H, alpha, beta, k)
    ensures IsDiagonal(diag, h, h2, U, e) && IsNumerator(e, h, v, k)
    ensures IsOff(off, hm, h, h1, q, U, k, k + alpha, k + beta, k + H)
  {
    diag, off, e := Diagonal(U, V, H, k), OffSquared(U, H, alpha, beta, k), Numerator(V, H, k);
    DiagonalIs(U, V, H, k, h, h2);
    NumeratorForm(V, H, k, h, v);
    q := OffIs(U, H, alpha, beta, k, hm, h, h1);
  }

  lemma EntriesAt(U: real, V: real, H: real, k: nat, alpha: real, beta: real)
    returns (diag: real, off: real, e: real, q: real)
    requires k >= 1 && Shifted(H, 2 * k) != 0.0 && Shifted(H, 2 * k - 1) != 0.0 && Shifted(H, 2 * k + 1) != 0.0
          && Shifted(H, 2 * k + 2) != 0.0
    ensures H + 2.0 * k as real != 0.0 && H + 2.0 * k as real - 1.0 != 0.0 && H + 2.0 * k as real + 1.0 != 0.0
         && H + 2.0 * k as real + 2.0 != 0.0
    ensures diag == Diagonal(U, V, H, k as real) && off == OffSquared(U, H, alpha, beta, k as real)
    ensures IsDiagonal(diag, Shifted(H, 2 * k), Shifted(H, 2 * k + 2), U, e)
    ensures IsNumerator(e, Shifted(H, 2 * k), Shifted(V, k), k as real)
    ensures IsOff(off, Shifted(H, 2 * k - 1), Shifted(H, 2 * k), Shifted(H, 2 * k + 1), q, U, k as real,
                  k as real + alpha, k as real + beta, k as real + H)
  {
    diag, off, e, q := MatrixEntries(U, V, H, k as real, alpha, beta,
      Shifted(H, 2 * k - 1), Shifted(H, 2 * k), Shifted(H, 2 * k + 1), Shifted(H, 2 * k + 2), Shifted(V, k));
  }

  /** The coefficients the recurrence relates, and how each follows from the middle one. */
  lemma Crosses(d: nat, U: real, V: real, H: real, k: nat, j: nat, vm: real)
    returns (next: real, low: real, c: real, prev: real)
    requires RegularFrom(d, H) && 1 <= k < d && j <= k && vm == V + k as real - 1.0
    ensures next == Coef(d, U, V, H, k + 1, j) && low == Lower(d, U, V, H, k, j)
    ensures c == Coef(d, U, V, H, k, j) && prev == Upper(d, U, V, H, k - 1, j)
    ensures Cross(next, (k + 1 - j) as real, Times(Shifted(H, 2 * k + 1), Shifted(H, 2 * k + 2)), c,
                  Weight(U, (k + 1) as real, Shifted(V, k)), Shifted(H, k + j + 1))
    ensures Cross(low, (k + 1 - j) as real, Shifted(H, k + j), c,
                  Weight(U, j as real, V + j as real - 1.0), 1.0)
    ensures Cross(c, (k - j) as real, Times(Shifted(H, 2 * k - 1), Shifted(H, 2 * k)), prev,
                  Weight(U, k as real, vm), Shifted(H, k + j))
  {
    next, low := Coef(d, U, V, H, k + 1, j), Lower(d, U, V, H, k, j);
    c, prev := Coef(d, U, V, H, k, j), Upper(d, U, V, H, k - 1, j);
    CoefUp(d, U, V, H, k, j);
    LowerCross(d, U, V, H, k, j);
    UpperCross(d, U, V, H, k, j, vm);
  }

  lemma OffsetsAt(V: real, H: real, k: nat, j: nat, beta: real)
    requires 1 <= k && j <= k && beta == H + 1.0 - V
    ensures Offsets(
      Shifted(H, 2 * k), Shifted(H, 2 * k + 1), Shifted(H, 2 * k + 2), (k - j) as real, (k + 1 - j) as real,
      Shifted(H, k + j), Shifted(H, k + j + 1), Shifted(V, k), k as real, (k + 1) as real, j as real,
      V + j as real - 1.0, k as real + beta, k as real + H)
  {
  }

  /** The three-term recurrence holds of the closed form. */
  lemma Recurrence(d: nat, U: real, V: real, H: real, k: nat, j: nat, alpha: real, beta: real)
    requires Regular(d, H) && RegularFrom(d, H) && 1 <= k < d && j <= k
    requires alpha == V - 1.0 && beta == H + 1.0 - V
    ensures Shifted(H, 2 * k) != 0.0 && Shifted(H, 2 * k - 1) != 0.0 && Shifted(H, 2 * k + 1) != 0.0
         && Shifted(H, 2 * k + 2) != 0.0
    ensures ThreeTerm(Coef(d, U, V, H, k + 1, j), Lower(d, U, V, H, k, j),
                      Diagonal(U, V, H, k as real), Coef(d, U, V, H, k, j),
                      OffSquared(U, H, alpha, beta, k as real), Upper(d, U, V, H, k - 1, j))
  {
    RegularAt(d, H, k);
    var K := k as real;
    var diag, off, e, q := EntriesAt(U, V, H, k, alpha, beta);
    var next, low, c, prev := Crosses(d, U, V, H, k, j, K + alpha);
    OffsetsAt(V, H, k, j, beta);
    StepOf(next, low, diag, off, prev, q, c, U,
           Shifted(H, 2 * k - 1), Shifted(H, 2 * k), Shifted(H, 2 * k + 1), Shifted(H, 2 * k + 2),
           (k - j) as real, (k + 1 - j) as real, Shifted(H, k + j), Shifted(H, k + j + 1),
           Shifted(V, k), K + alpha, K, (k + 1) as real, j as real, V + j as real - 1.0, e,
           K + beta, K + H);
  }

  // ---- The determinant recurrence on coefficient lists

  function Entry(p: Poly, i: nat): real { if i < |p| then p[i] else 0.0 }

  lemma EntryTrim(p: Poly, i: nat)
    ensures Entry(Trim(p), i) == Entry(p, i)
  {
    if p != [] {
      assert Trim(p) <= p;
    }
  }

  lemma EntryAdd(p: Poly, q: Poly, i: nat)
    ensures Entry(Add(p, q), i) == Entry(p, i) + Entry(q, i)
  {
    EntryTrim(Padded(p, q), i);
    if i < |Padded(p, q)| {
      PaddedAt(p, q, i);
    }
  }

  lemma EntryScale(p: Poly, a: real, i: nat)
    ensures Entry(Scale(p, a), i) == Times(a, Entry(p, i))
  {
    EntryTrim(Scaled(p, a), i);
    if i < |p| {
      ScaledAt(p, a, i);
    }
  }

  /** Adding lower-degree terms to a trimmed list keeps its degree. */
  lemma AddLength(p: Poly, q: Poly)
    requires p != [] && p[|p| - 1] != 0.0 && |q| < |p|
    ensures |Add(p, q)| == |p| && Add(p, q)[|p| - 1] == p[|p| - 1]
  {
    PaddedAt(p, q, |p| - 1);
  }

  lemma ScaleShrinks(p: Poly, a: real)
    ensures |Scale(p, a)| <= |p|
  {
    if p != [] {
      assert Trim(Scaled(p, a)) <= Scaled(p, a);
    }
  }

  ghost predicate IsMinor(p: Poly, d: nat, U: real, V: real, H: real, k: nat)
    requires RegularFrom(d, H) && k <= d
  {
    |p| == k + 1 && forall j :: 0 <= j <= k ==> p[j] == Coef(d, U, V, H, k, j)
  }

  lemma FirstMinor(d: nat, U: real, V: real, H: real, p: Poly)
    requires Regular(d, H) && RegularFrom(d, H) && d >= 1 && IsMinor(p, d, U, V, H, 0)
    ensures Shifted(H, 0) != 0.0 && Shifted(H, 2) != 0.0
    ensures IsMinor(Add([0.0] + p, Scale(p, -Diagonal(U, V, H, 0.0))), d, U, V, H, 1)
  {
    assert Shifted(H, 0) != 0.0 && Shifted(H, 2) != 0.0;
    var diag := Diagonal(U, V, H, 0.0);
    var q := Scale(p, -diag);
    ScaleShrinks(p, -diag);
    AddLength([0.0] + p, q);
    EntryAdd([0.0] + p, q, 0);
    EntryScale(p, -diag, 0);
    CoefDown(d, U, V, H, 1, 0);
    FirstDiagonal(U, V, H);
    FirstCoefficient(Coef(d, U, V, H, 1, 0), diag, U, V, H);
  }

  lemma FirstDiagonal(U: real, V: real, H: real)
    requires H != 0.0 && H + 2.0 != 0.0
    ensures IsDiagonal(Diagonal(U, V, H, 0.0), H, H + 2.0, U, H * V)
  {
    DiagonalIs(U, V, H, 0.0, H, H + 2.0);
    assert Numerator(V, H, 0.0) == H * V;
  }

  lemma FirstCoefficient(low: real, diag: real, U: real, V: real, H: real)
    requires Cross(low, 1.0, H + 2.0, 1.0, Weight(U, 1.0, V), 1.0) && H != 0.0 && H + 2.0 != 0.0
    requires IsDiagonal(diag, H, H + 2.0, U, H * V)
    ensures low == -diag
  {
    assert H * (diag * (H + 2.0)) == H * (U * V);
    CancelFactor(H, diag * (H + 2.0), U * V);
    assert (H + 2.0) * low == (H + 2.0) * -diag;
    CancelFactor(H + 2.0, low, -diag);
  }

  function Combined(p: Poly, q: Poly, diag: real, off: real): Poly {
    Add(Add([0.0] + p, Scale(p, -diag)), Scale(q, -off))
  }

  lemma CombinedEntry(p: Poly, q: Poly, diag: real, off: real, j: nat)
    ensures ThreeTerm(Entry(Combined(p, q, diag, off), j), Entry([0.0] + p, j), diag, Entry(p, j), off, Entry(q, j))
  {
    EntryAdd(Add([0.0] + p, Scale(p, -diag)), Scale(q, -off), j);
    EntryAdd([0.0] + p, Scale(p, -diag), j);
    EntryScale(p, -diag, j);
    EntryScale(q, -off, j);
    Collect(Entry(Combined(p, q, diag, off), j), Entry([0.0] + p, j), diag, Entry(p, j), off, Entry(q, j));
  }

  lemma Collect(r: real, s: real, diag: real, c: real, off: real, prev: real)
    requires r == s + Times(-diag, c) + Times(-off, prev)
    ensures ThreeTerm(r, s, diag, c, off, prev)
  {
  }

  lemma CombinedLength(p: Poly, q: Poly, diag: real, off: real)
    requires p != [] && p[|p| - 1] == 1.0 && |q| <= |p|
    ensures |Combined(p, q, diag, off)| == |p| + 1 && Combined(p, q, diag, off)[|p|] == 1.0
  {
    ScaleShrinks(p, -diag);
    ScaleShrinks(q, -off);
    AddLength([0.0] + p, Scale(p, -diag));
    AddLength(Add([0.0] + p, Scale(p, -diag)), Scale(q, -off));
  }

  lemma ThreeTermUnique(r: real, next: real, s: real, diag: real, c: real, off: real, prev: real)
    requires ThreeTerm(r, s, diag, c, off, prev) && ThreeTerm(next, s, diag, c, off, prev)
    ensures r == next
  {
  }

  lemma LowerEntry(d: nat, U: real, V: real, H: real, k: nat, p: Poly, j: nat)
    requires RegularFrom(d, H) && k <= d && j <= k && IsMinor(p, d, U, V, H, k)
    ensures Entry([0.0] + p, j) == Lower(d, U, V, H, k, j)
  {
    if j > 0 {
      assert ([0.0] + p)[j] == p[j - 1];
    }
  }

  lemma UpperEntry(d: nat, U: real, V: real, H: real, k: nat, p: Poly, j: nat)
    requires RegularFrom(d, H) && k <= d && IsMinor(p, d, U, V, H, k)
    ensures Entry(p, j) == Upper(d, U, V, H, k, j)
  {
  }

  /** The recurrence, with these coefficients, holds in every column of minor `k`. */
  ghost predicate Recurs(d: nat, U: real, V: real, H: real, k: nat, diag: real, off: real)
    requires RegularFrom(d, H) && 1 <= k < d
  {
    forall j: nat :: j <= k ==> RecursAt(d, U, V, H, k, j, diag, off)
  }

  ghost predicate RecursAt(d: nat, U: real, V: real, H: real, k: nat, j: nat, diag: real, off: real)
    requires RegularFrom(d, H) && 1 <= k < d && j <= k
  {
    ThreeTerm(Coef(d, U, V, H, k + 1, j), Lower(d, U, V, H, k, j), diag, Coef(d, U, V, H, k, j),
              off, Upper(d, U, V, H, k - 1, j))
  }

  lemma RecursEverywhere(d: nat, U: real, V: real, H: real, k: nat, alpha: real, beta: real)
    requires Regular(d, H) && RegularFrom(d, H) && 1 <= k < d && alpha == V - 1.0 && beta == H + 1.0 - V
    ensures Shifted(H, 2 * k) != 0.0 && Shifted(H, 2 * k - 1) != 0.0 && Shifted(H, 2 * k + 1) != 0.0
         && Shifted(H, 2 * k + 2) != 0.0
    ensures Recurs(d, U, V, H, k, Diagonal(U, V, H, k as real), OffSquared(U, H, alpha, beta, k as real))
  {
    RegularAt(d, H, k);
    var diag, off := Diagonal(U, V, H, k as real), OffSquared(U, H, alpha, beta, k as real);
    forall j: nat | j <= k ensures RecursAt(d, U, V, H, k, j, diag, off) {
      Recurrence(d, U, V, H, k, j, alpha, beta);
    }
  }

  lemma NextEntry(d: nat, U: real, V: real, H: real, k: nat, p: Poly, q: Poly, diag: real, off: real, j: nat)
    requires RegularFrom(d, H) && 1 <= k < d && j <= k && RecursAt(d, U, V, H, k, j, diag, off)
    requires IsMinor(p, d, U, V, H, k) && IsMinor(q, d, U, V, H, k - 1)
    ensures Entry(Combined(p, q, diag, off), j) == Coef(d, U, V, H, k + 1, j)
  {
    CombinedEntry(p, q, diag, off, j);
    LowerEntry(d, U, V, H, k, p, j);
    UpperEntry(d, U, V, H, k, p, j);
    UpperEntry(d, U, V, H, k - 1, q, j);
    ThreeTermUnique(Entry(Combined(p, q, diag, off), j), Coef(d, U, V, H, k + 1, j), Lower(d, U, V, H, k, j),
                    diag, Coef(d, U, V, H, k, j), off, Upper(d, U, V, H, k - 1, j));
  }

  /** One pass of the loop after the first takes two minors to the next. */
  lemma NextMinor(d: nat, U: real, V: real, H: real, k: nat, p: Poly, q: Poly, diag: real, off: real)
    requires RegularFrom(d, H) && 1 <= k < d && Recurs(d, U, V, H, k, diag, off)
    requires IsMinor(p, d, U, V, H, k) && IsMinor(q, d, U, V, H, k - 1)
    ensures IsMinor(Combined(p, q, diag, off), d, U, V, H, k + 1)
  {
    CombinedLength(p, q, diag, off);
    var r := Combined(p, q, diag, off);
    forall j: nat | j <= k ensures r[j] == Coef(d, U, V, H, k + 1, j) {
      assert RecursAt(d, U, V, H, k, j, diag, off);
      NextEntry(d, U, V, H, k, p, q, diag, off, j);
    }
  }

  // ---- Normalising by the constant term

  lemma {:induction false} CoefNonzero(d: nat, U: real, V: real, H: real, j: nat)
    requires RegularFrom(d, H) && Divisible(d, U, V) && j <= d
    ensures Coef(d, U, V, H, d, j) != 0.0
    decreases d - j
  {
    if j < d {
      CoefNonzero(d, U, V, H, j + 1);
      CoefDown(d, U, V, H, d, j);
      CrossNonzero(Coef(d, U, V, H, d, j), (d - j) as real, Shifted(H, d + j + 1), Coef(d, U, V, H, d, j + 1),
                   U, (j + 1) as real, Shifted(V, j));
    }
  }

  lemma CrossNonzero(low: real, x: real, y: real, high: real, U: real, a: real, b: real)
    requires Cross(low, x, y, high, Weight(U, a, b), 1.0) && high != 0.0 && U != 0.0 && a != 0.0 && b != 0.0
    ensures low != 0.0
  {
    NonzeroProduct(a, U);
    NonzeroProduct(a * U, b);
    NonzeroProduct(high, a * U * b);
  }

  /** Divided by its constant term, the last minor has the Jacobi coefficients. */
  lemma {:induction false} Normalised(d: nat, U: real, V: real, H: real, j: nat)
    requires RegularFrom(d, H) && Divisible(d, U, V) && j <= d && H == U - d as real - 1.0
    ensures Times(JacobiTerm(d, U, V, j), Coef(d, U, V, H, d, 0)) == Coef(d, U, V, H, d, j)
    decreases j
  {
    if j > 0 {
      Normalised(d, U, V, H, j - 1);
      CoefDown(d, U, V, H, d, j - 1);
      NormalStep(JacobiTerm(d, U, V, j - 1), Coef(d, U, V, H, d, 0), Coef(d, U, V, H, d, j - 1),
                 Coef(d, U, V, H, d, j), (d - j + 1) as real, Shifted(H, d + j), Falling(d, j), j as real, U,
                 Shifted(V, j - 1));
      assert Shifted(U, j - 1) == Shifted(H, d + j);
    }
  }

  lemma NormalStep(
    last: real, c0: real, below: real, c: real, x: real, y: real, n: real, j: real, U: real, b: real)
    requires Times(last, c0) == below && Cross(below, x, y, c, Weight(U, j, b), 1.0)
    requires j != 0.0 && U != 0.0 && b != 0.0 && n == -x / j
    ensures Times(JacobiStep(last, n, y, U, b), c0) == c
  {
    var t := JacobiStep(last, n, y, U, b);
    NonzeroProduct(U, b);
    NonzeroProduct(j, U * b);
    Undivide(last * n * y, U * b, t);
    Undivide(-x, j, n);
    MulEq(j * c0, t * (U * b), last * n * y);
    assert (j * (U * b)) * (t * c0) == (n * j) * (last * c0) * y;
    Substitute(1.0, n * j, last * c0, y, -x, below);
    assert (j * (U * b)) * (t * c0) == -(below * (x * y));
    assert (j * (U * b)) * c == c * (j * U * b * 1.0);
    CancelFactor(j * (U * b), t * c0, c);
  }

  lemma NormalProduct(d: nat, U: real, V: real, H: real, p: Poly, j: nat)
    requires RegularFrom(d, H) && Divisible(d, U, V) && H == U - d as real - 1.0 && j <= d
    requires IsMinor(p, d, U, V, H, d)
    ensures Times(JacobiTerm(d, U, V, j), p[0]) == p[j]
  {
    Normalised(d, U, V, H, j);
  }

  lemma ScaledEntry(p: Poly, i: real, j: nat, t: real)
    requires j < |p| && p[0] != 0.0 && i == 1.0 / p[0] && Times(t, p[0]) == p[j]
    ensures Scaled(p, i)[j] == t
  {
    ScaledAt(p, i, j);
    Inverse(t, p[0], p[j], i);
  }

  lemma ConstantNonzero(d: nat, U: real, V: real, H: real, p: Poly)
    requires RegularFrom(d, H) && Divisible(d, U, V) && IsMinor(p, d, U, V, H, d)
    ensures p[0] != 0.0
  {
    CoefNonzero(d, U, V, H, 0);
  }

  lemma ScaleKeepsDegree(p: Poly, i: real)
    requires p != [] && p[|p| - 1] == 1.0 && i != 0.0
    ensures Scale(p, i) == Scaled(p, i)
  {
    ScaledAt(p, i, |p| - 1);
  }

  lemma Normalise(d: nat, U: real, V: real, H: real, p: Poly, i: real)
    requires RegularFrom(d, H) && Divisible(d, U, V) && H == U - d as real - 1.0
    requires IsMinor(p, d, U, V, H, d) && p[0] != 0.0 && i == 1.0 / p[0] && i != 0.0
    ensures IsJacobi(Scale(p, i), d, U, V)
  {
    ScaleKeepsDegree(p, i);
    forall j: nat | j <= d ensures Scaled(p, i)[j] == JacobiTerm(d, U, V, j) {
      NormalProduct(d, U, V, H, p, j);
      ScaledEntry(p, i, j, JacobiTerm(d, U, V, j));
    }
  }

  lemma InverseNonzero(c0: real)
    requires c0 != 0.0
    ensures 1.0 / c0 != 0.0
  {
    Undivide(1.0, c0, 1.0 / c0);
  }

  lemma Inverse(t: real, c0: real, c: real, i: real)
    requires c0 != 0.0 && Times(t, c0) == c && i == 1.0 / c0
    ensures i * c == t
  {
    Undivide(1.0, c0, i);
    assert i * c == (i * c0) * t;
  }

  lemma RegularTail(d: nat, H: real)
    requires Regular(d, H)
    ensures RegularFrom(d, H)
  {
  }

  /** The body of the loop: minor `k + 1` from minors `k` and `k - 1`. */
  method NextDeterminant(d: nat, U: real, V: real, H: real, k: nat, previous: Poly, current: Poly)
    returns (shifted: Poly)
    requires Regular(d, H) && RegularFrom(d, H) && k < d
    requires IsMinor(current, d, U, V, H, k) && (k > 0 ==> IsMinor(previous, d, U, V, H, k - 1))
    ensures IsMinor(shifted, d, U, V, H, k + 1)
  {
    if k == 0 {
      FirstMinor(d, U, V, H, current);
      shifted := Add([0.0] + current, Scale(current, -Diagonal(U, V, H, 0.0)));
    } else {
      RecursEverywhere(d, U, V, H, k, V - 1.0, H + 1.0 - V);
      var diagonal, off := Diagonal(U, V, H, k as real), OffSquared(U, H, V - 1.0, H + 1.0 - V, k as real);
      NextMinor(d, U, V, H, k, current, previous, diagonal, off);
      shifted := Combined(current, previous, diagonal, off);
    }
  }

  /** The normalised determinant recurrence computes the Jacobi coefficient list. */
  method JacobiCharacteristic(d: nat, U: real, V: real) returns (r: Poly)
    requires Regular(d, U - d as real - 1.0) && Divisible(d, U, V)
    ensures IsJacobi(r, d, U, V)
  {
    var H := U - d as real - 1.0;
    RegularTail(d, H);
    var previous, current: Poly := [0.0], [1.0];
    for k := 0 to d
      invariant IsMinor(current, d, U, V, H, k)
      invariant k > 0 ==> IsMinor(previous, d, U, V, H, k - 1)
    {
      var shifted := NextDeterminant(d, U, V, H, k, previous, current);
      previous, current := current, shifted;
    }
    ConstantNonzero(d, U, V, H, current);
    InverseNonzero(current[0]);
    Normalise(d, U, V, H, current, 1.0 / current[0]);
    r := Scale(current, 1.0 / current[0]);
  }
}
