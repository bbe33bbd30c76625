/** The arithmetic behind the recurrence of `JacobiCharacteristic`, on named values. */
module RecurrenceAlgebra {
  import opened Polynomials

  /** The factor of the closed form that belongs to one column. */
  function Weight(U: real, a: real, b: real): real { a * U * b }

  ghost predicate Cross(low: real, x: real, y: real, high: real, u: real, v: real) {
    low * (x * y) == -(high * (u * v))
  }

  /** An entry of the diagonal. */
  function DiagonalQuotient(U: real, e: real, x: real, y: real): real
    requires x != 0.0 && y != 0.0
  {
    NonzeroProduct(x, y);
    U * e / (x * y)
  }

  lemma QuotientIsDiagonal(U: real, e: real, x: real, y: real)
    requires x != 0.0 && y != 0.0
    ensures IsDiagonal(DiagonalQuotient(U, e, x, y), x, y, U, e)
  {
    NonzeroProduct(x, y);
    Undivide(U * e, x * y, DiagonalQuotient(U, e, x, y));
  }

  /** The square of an off-diagonal entry. */
  function OffQuotient(q: real, k: real, a: real, b: real, g: real, x: real, y: real): real
    requires x != 0.0 && y != 0.0
  {
    NonzeroProduct(x, y);
    q * q * k * a * b * g / (x * y)
  }

  lemma QuotientIsOff(
    q: real, U: real, k: real, a: real, b: real, g: real, hm: real, h: real, h1: real)
    requires hm != 0.0 && h != 0.0 && h1 != 0.0 && q == U / h
    ensures IsOff(OffQuotient(q, k, a, b, g, hm, h1), hm, h, h1, q, U, k, a, b, g)
  {
    NonzeroProduct(hm, h1);
    Undivide(U, h, q);
    Undivide(q * q * k * a * b * g, hm * h1, OffQuotient(q, k, a, b, g, hm, h1));
  }

  function Over(n: real, x: real, y: real): (r: real)
    requires x != 0.0 && y != 0.0
    ensures r * (x * y) == n
  {
    NonzeroProduct(x, y);
    Undivide(n, x * y, n / (x * y));
    n / (x * y)
  }

  lemma Combine(
    A: real, B: real, E: real, G: real, x: real, h: real, v: real, k: real,
    k1: real, l: real, m: real, e: real, b: real, g: real)
    requires A == B - 2.0 * E - G
    requires A == -(x * B) + h * E + h * G
    requires 0.0 == -((1.0 + x) * B) + (h + 2.0) * E + (h + 1.0) * G
    requires 0.0 == x * (1.0 + x) * B - (h + 1.0) * h * G
    requires k1 == k + 1.0 && l == k - x && m == v - 1.0 - x && b == h - v + 1.0 && g == h - k
    requires e == h * v + h * k - 2.0 * k * v + 2.0 * k
    ensures Balanced(A, B, E, G, v, k1, l, m, e, b, g)
  {
    MulEq(k * v, A, B - 2.0 * E - G);
    MulEq(v, A, -(x * B) + h * E + h * G);
    MulEq(k, 0.0, -((1.0 + x) * B) + (h + 2.0) * E + (h + 1.0) * G);
    assert k1 * v * A == (k * v) * A + v * A;
    assert l * m * B + e * E - b * g * G
      == (k * v) * (B - 2.0 * E - G) + v * (-(x * B) + h * E + h * G)
         + k * (-((1.0 + x) * B) + (h + 2.0) * E + (h + 1.0) * G)
         + (x * (1.0 + x) * B - (h + 1.0) * h * G);
  }

  /** The polynomial identity that makes the closed form satisfy the recurrence. */
  ghost predicate Balanced(
    A: real, B: real, E: real, G: real,
    v: real, k1: real, l: real, m: real, e: real, b: real, g: real)
  {
    k1 * v * A == l * m * B + e * E - b * g * G
  }

  ghost predicate Are(
    A: real, B: real, E: real, G: real,
    x: real, x1: real, y: real, y1: real, h: real, h1: real, h2: real)
  {
    A == y * y1 * h && B == h * h1 * h2 && E == x1 * y * h1 && G == x * x1 * h2
  }

  lemma Identity(
    A: real, B: real, E: real, G: real,
    x: real, x1: real, y: real, y1: real, h: real, h1: real, h2: real, v: real, k: real, k1: real,
    l: real, m: real, e: real, b: real, g: real)
    requires Are(A, B, E, G, x, x1, y, y1, h, h1, h2)
    requires y == h - x && x1 == x + 1.0 && y1 == y + 1.0 && h1 == h + 1.0 && h2 == h + 2.0
    requires k1 == k + 1.0 && l == k - x && m == v - 1.0 - x && b == h - v + 1.0 && g == h - k
    requires e == h * v + h * k - 2.0 * k * v + 2.0 * k
    ensures Balanced(A, B, E, G, v, k1, l, m, e, b, g)
  {
    Products(h, x, y, A, B, E, G);
    Combine(A, B, E, G, x, h, v, k, k1, l, m, e, b, g);
  }

  lemma Products(h: real, x: real, y: real, a: real, b: real, e: real, g: real)
    requires y == h - x
    requires a == y * (y + 1.0) * h && b == h * (h + 1.0) * (h + 2.0)
    requires e == (x + 1.0) * y * (h + 1.0) && g == x * (x + 1.0) * (h + 2.0)
    ensures a == b - 2.0 * e - g
    ensures a == -(x * b) + h * e + h * g
    ensures 0.0 == -((1.0 + x) * b) + (h + 2.0) * e + (h + 1.0) * g
    ensures 0.0 == x * (1.0 + x) * b - (h + 1.0) * h * g
  {
  }

  lemma ClearNext(next: real, c: real, U: real, h: real, h1: real, h2: real, x1: real, y: real, y1: real, v: real, k1: real, A: real)
    requires A == y * y1 * h && Cross(next, x1, h1 * h2, c, k1 * U * v, y1)
    ensures x1 * y * h * h1 * h2 * next == c * U * -(k1 * v * A)
  {
    MulEq(y * h, next * (x1 * (h1 * h2)), -(c * (k1 * U * v * y1)));
  }

  lemma ClearLow(a: real, c: real, U: real, h: real, h1: real, h2: real, x1: real, y: real, l: real, m: real, B: real)
    requires B == h * h1 * h2 && Cross(a, x1, y, c, l * U * m, 1.0)
    ensures x1 * y * h * h1 * h2 * a == c * U * -(l * m * B)
  {
    MulEq(h * h1 * h2, a * (x1 * y), -(c * (l * U * m * 1.0)));
  }

  lemma ClearDiagonal(diag: real, c: real, U: real, h: real, h1: real, h2: real, x1: real, y: real, e: real, E: real)
    requires E == x1 * y * h1 && diag * (h * h2) == U * e
    ensures x1 * y * h * h1 * h2 * (diag * c) == c * U * (e * E)
  {
    MulEq(c * (x1 * y * h1), diag * (h * h2), U * e);
  }

  lemma ClearOff(o: real, c: real, U: real, h: real, h1: real, h2: real, x: real, x1: real, y: real, e: real, f: real, G: real)
    requires G == x * x1 * h2 && o * (h * h1 * y) == -(U * e * f * x * c)
    ensures x1 * y * h * h1 * h2 * o == c * U * -(e * f * G)
  {
    MulEq(x1 * h2, o * (h * h1 * y), -(U * e * f * x * c));
  }

  lemma Assemble(
    M: real, next: real, a: real, d: real, o: real, s: real, l: real, r1: real, r2: real, r3: real)
    requires M != 0.0 && M * next == s * -l && M * a == s * -r1 && M * d == s * r2 && M * o == s * -r3
    requires l == r1 + r2 - r3
    ensures next == a - d - o
  {
    MulEq(s, l, r1 + r2 - r3);
    assert M * next == M * (a - d - o);
    CancelFactor(M, next, a - d - o);
  }

  lemma Cleared(
    next: real, a: real, diag: real, o: real, c: real, U: real, h: real, h1: real, h2: real,
    x: real, x1: real, y: real, y1: real, v: real, k1: real, l: real, m: real, e: real, b: real, g: real,
    A: real, B: real, E: real, G: real)
    requires x1 != 0.0 && y != 0.0 && h != 0.0 && h1 != 0.0 && h2 != 0.0
    requires Cross(next, x1, h1 * h2, c, k1 * U * v, y1)
    requires Cross(a, x1, y, c, l * U * m, 1.0)
    requires diag * (h * h2) == U * e
    requires IsOffset(o, h, h1, x, y, U, b, g, c)
    requires Balanced(A, B, E, G, v, k1, l, m, e, b, g) && Are(A, B, E, G, x, x1, y, y1, h, h1, h2)
    ensures next == a - diag * c - o
  {
    NonzeroProduct(x1, y);
    NonzeroProduct(x1 * y, h);
    NonzeroProduct(x1 * y * h, h1);
    NonzeroProduct(x1 * y * h * h1, h2);
    ClearNext(next, c, U, h, h1, h2, x1, y, y1, v, k1, A);
    ClearLow(a, c, U, h, h1, h2, x1, y, l, m, B);
    ClearDiagonal(diag, c, U, h, h1, h2, x1, y, e, E);
    ClearOff(o, c, U, h, h1, h2, x, x1, y, b, g, G);
    Assemble(x1 * y * h * h1 * h2, next, a, diag * c, o, c * U, k1 * v * A, l * m * B, e * E, b * g * G);
  }

  lemma OffTimes(
    off: real, q: real, prev: real, c: real, U: real, h: real, hm: real, h1: real,
    x: real, y: real, k: real, a: real, b: real, g: real)
    requires hm != 0.0 && h != 0.0
    requires off * (hm * h1) == q * q * k * a * b * g && q * h == U
    requires Cross(c, x, hm * h, prev, k * U * a, y)
    ensures IsOffset(off * prev, h, h1, x, y, U, b, g, c)
  {
    calc {
      (hm * h) * (off * prev * (h * h1 * y));
      (off * (hm * h1)) * (h * h * y * prev);
      { RightMul(off * (hm * h1), q * q * k * a * b * g, h * h * y * prev); }
      (q * q * k * a * b * g) * (h * h * y * prev);
      ((q * h) * (q * h)) * (k * a * b * g * y * prev);
      { RightMul((q * h) * (q * h), U * U, k * a * b * g * y * prev); }
      (U * U) * (k * a * b * g * y * prev);
      (U * b * g) * (prev * (k * U * a * y));
      { MulEq(U * b * g, prev * (k * U * a * y), -(c * (x * (hm * h)))); }
      (U * b * g) * -(c * (x * (hm * h)));
      (hm * h) * -(U * b * g * x * c);
    }
    NonzeroProduct(hm, h);
    CancelFactor(hm * h, off * prev * (h * h1 * y), -(U * b * g * x * c));
  }

  /** The off-diagonal contribution, cleared of its divisors. */
  ghost predicate IsOffset(o: real, h: real, h1: real, x: real, y: real, U: real, b: real, g: real, c: real) {
    o * (h * h1 * y) == -(U * b * g * x * c)
  }

  /** The recurrence on values: `h = H + 2k`, `x = k - j`, `y = k + H + j`, `v = V + k`. */
  lemma Step(
    next: real, low: real, diag: real, off: real, prev: real, q: real, c: real, U: real,
    hm: real, h: real, h1: real, h2: real, x: real, x1: real, y: real, y1: real, v: real, vm: real,
    k: real, k1: real, l: real, m: real, e: real, b: real, g: real, A: real, B: real, E: real, G: real)
    requires x1 != 0.0 && y != 0.0 && hm != 0.0 && h != 0.0 && h1 != 0.0 && h2 != 0.0
    requires Cross(next, x1, Times(h1, h2), c, Weight(U, k1, v), y1)
    requires Cross(low, x1, y, c, Weight(U, l, m), 1.0)
    requires Cross(c, x, Times(hm, h), prev, Weight(U, k, vm), y)
    requires IsDiagonal(diag, h, h2, U, e) && IsOff(off, hm, h, h1, q, U, k, vm, b, g)
    requires Balanced(A, B, E, G, v, k1, l, m, e, b, g) && Are(A, B, E, G, x, x1, y, y1, h, h1, h2)
    ensures next == low - diag * c - off * prev
  {
    OffTimes(off, q, prev, c, U, h, hm, h1, x, y, k, vm, b, g);
    Cleared(next, low, diag, off * prev, c, U, h, h1, h2, x, x1, y, y1, v, k1, l, m, e, b, g,
            A, B, E, G);
  }

  ghost predicate ThreeTerm(next: real, low: real, diag: real, c: real, off: real, prev: real) {
    next == low - diag * c - off * prev
  }

  /** How the terms of one column of the recurrence are placed against each other. */
  ghost predicate Offsets(
    h: real, h1: real, h2: real, x: real, x1: real, y: real, y1: real, v: real,
    k: real, k1: real, l: real, m: real, b: real, g: real)
  {
    && y == h - x && x1 == x + 1.0 && y1 == y + 1.0 && h1 == h + 1.0 && h2 == h + 2.0
    && k1 == k + 1.0 && l == k - x && m == v - 1.0 - x && b == h - v + 1.0 && g == h - k
  }

  lemma StepOf(
    next: real, low: real, diag: real, off: real, prev: real, q: real, c: real, U: real,
    hm: real, h: real, h1: real, h2: real, x: real, x1: real, y: real, y1: real, v: real, vm: real,
    k: real, k1: real, l: real, m: real, e: real, b: real, g: real)
    requires x1 != 0.0 && y != 0.0 && hm != 0.0 && h != 0.0 && h1 != 0.0 && h2 != 0.0
    requires Offsets(h, h1, h2, x, x1, y, y1, v, k, k1, l, m, b, g)
    requires IsNumerator(e, h, v, k)
    requires Cross(next, x1, Times(h1, h2), c, Weight(U, k1, v), y1)
    requires Cross(low, x1, y, c, Weight(U, l, m), 1.0)
    requires Cross(c, x, Times(hm, h), prev, Weight(U, k, vm), y)
    requires IsDiagonal(diag, h, h2, U, e) && IsOff(off, hm, h, h1, q, U, k, vm, b, g)
    ensures ThreeTerm(next, low, diag, c, off, prev)
  {
    var A, B, E, G := FourProducts(x, x1, y, y1, h, h1, h2);
    Identity(A, B, E, G, x, x1, y, y1, h, h1, h2, v, k, k1, l, m, e, b, g);
    Step(next, low, diag, off, prev, q, c, U, hm, h, h1, h2, x, x1, y, y1, v, vm, k, k1, l, m, e, b, g, A, B, E, G);
  }

  lemma FourProducts(x: real, x1: real, y: real, y1: real, h: real, h1: real, h2: real)
    returns (A: real, B: real, E: real, G: real)
    ensures Are(A, B, E, G, x, x1, y, y1, h, h1, h2)
  {
    A, B, E, G := y * y1 * h, h * h1 * h2, x1 * y * h1, x * x1 * h2;
  }

  ghost predicate IsNumerator(e: real, h: real, v: real, k: real) {
    e == h * v + h * k - 2.0 * k * v + 2.0 * k
  }

  ghost predicate IsDiagonal(diag: real, h: real, h2: real, U: real, e: real) {
    diag * (h * h2) == U * e
  }

  ghost predicate IsOff(
    off: real, hm: real, h: real, h1: real, q: real, U: real, k: real, a: real, b: real, g: real)
  {
    off * (hm * h1) == q * q * k * a * b * g && q * h == U
  }
}
