/** The covariance algebra of scalar measurement updates of a two-state Kalman filter. */
module Covariance {

  /** A 2x2 matrix, row by row, and a 2-vector. */
  datatype M2 = M2(a: real, b: real, c: real, d: real)
  datatype V2 = V2(x: real, y: real)

  function Plus(u: V2, v: V2): V2 { V2(u.x + v.x, u.y + v.y) }
  function Minus(u: V2, v: V2): V2 { V2(u.x - v.x, u.y - v.y) }
  function Scale(u: V2, k: real): V2 { V2(u.x * k, u.y * k) }

  function Det(p: M2): real { p.a * p.d - p.b * p.c }

  predicate PositiveDefinite(p: M2) { p.b == p.c && p.a > 0.0 && p.d > 0.0 && Det(p) > 0.0 }

  /** v' p v */
  function Quadratic(p: M2, v: V2): real {
    (v.x * p.a + v.y * p.c) * v.x + (v.x * p.b + v.y * p.d) * v.y
  }

  /** p is at most q in every direction. */
  ghost predicate AtMost(p: M2, q: M2) { forall v :: Quadratic(p, v) <= Quadratic(q, v) }

  /** The gain p c' / s. */
  function Gain(p: M2, c: V2, s: real): V2
    requires s != 0.0
  {
    V2((p.a * c.x + p.b * c.y) / s, (p.c * c.x + p.d * c.y) / s)
  }

  /** (I - j c) p */
  function Updated(p: M2, j: V2, c: V2): M2 {
    var i00, i01, i10, i11 := 1.0 - j.x * c.x, -(j.x * c.y), -(j.y * c.x), 1.0 - j.y * c.y;
    M2(i00 * p.a + i01 * p.c, i00 * p.b + i01 * p.d, i10 * p.a + i11 * p.c, i10 * p.b + i11 * p.d)
  }

  function Posterior(p: M2, c: V2, r: real): M2
    requires Quadratic(p, c) + r != 0.0
  {
    Updated(p, Gain(p, c, Quadratic(p, c) + r), c)
  }

  // ---------------------------------------------------------------- algebra of one update

  lemma Squares(x: real)
    ensures x * x >= 0.0
  {}

  lemma PositiveFactor(x: real, s: real, y: real)
    requires x * s == y && s > 0.0
    ensures y > 0.0 ==> x > 0.0
    ensures y >= 0.0 ==> x >= 0.0
  {
    assert x <= 0.0 ==> x * s <= 0.0;
    assert x < 0.0 ==> x * s < 0.0;
  }

  /** One entry of (I - j c) p, in either row. */
  lemma EntryReal(j: real, x: real, y: real, p1: real, p2: real)
    ensures (1.0 - j * x) * p1 + -(j * y) * p2 == p1 - j * (p1 * x + p2 * y)
    ensures -(j * x) * p1 + (1.0 - j * y) * p2 == p2 - j * (p1 * x + p2 * y)
  {}

  /** The covariances u, v with the measurement against its variance pv. */
  lemma CauchyReal(a: real, b: real, d: real, x: real, y: real, u: real, v: real, pv: real)
    requires u == a * x + b * y && v == b * x + d * y && pv == u * x + v * y
    ensures a * pv - u * u == (a * d - b * b) * (y * y)
    ensures b * pv - u * v == -(a * d - b * b) * (x * y)
  {
    assert a * v - b * u == (a * d - b * b) * y;
    assert a * pv == a * (u * x + v * y) && b * pv == b * (u * x + v * y);
    assert a * (u * x + v * y) - u * (a * x + b * y) == (a * v - b * u) * y;
    assert b * (u * x + v * y) - v * (a * x + b * y) == -(a * v - b * u) * x;
  }

  lemma EntryScaled(m: real, e: real, w: real, s: real, u: real, pv: real, r: real, rest: real)
    requires e * s == u && s == pv + r && m * pv - u * w == rest
    ensures (m - e * w) * s == r * m + rest
  {
    assert e * w * s == u * w by { assert e * w * s == (e * s) * w; }
    assert m * s == m * pv + m * r;
  }

  // ---------------------------------------------------------------- the posterior covariance

  /**
   * s q == r p + det(p) n n', where n is normal to the measurement direction c: the closed form of
   * the posterior q, cleared of its denominator s.
   */
  ghost predicate ClosedForm(p: M2, c: V2, r: real, s: real, q: M2) {
    && q.b == q.c
    && q.a * s == r * p.a + Det(p) * (c.y * c.y)
    && q.b * s == r * p.b - Det(p) * (c.x * c.y)
    && q.d * s == r * p.d + Det(p) * (c.x * c.x)
  }

  lemma ClosedFormReal(
      a: real, b: real, d: real, x: real, y: real, r: real, pv: real, s: real, u: real, v: real, e: real, f: real)
    requires u == a * x + b * y && v == b * x + d * y && pv == u * x + v * y && s == pv + r && s > 0.0
    requires e * s == u && f * s == v
    ensures (a - e * u) * s == r * a + (a * d - b * b) * (y * y)
    ensures (b - e * v) * s == r * b - (a * d - b * b) * (x * y)
    ensures b - f * u == b - e * v
    ensures (d - f * v) * s == r * d + (a * d - b * b) * (x * x)
  {
    CauchyReal(a, b, d, x, y, u, v, pv);
    CauchyReal(d, b, a, y, x, v, u, pv);
    EntryScaled(a, e, u, s, u, pv, r, (a * d - b * b) * (y * y));
    EntryScaled(b, e, v, s, u, pv, r, -(a * d - b * b) * (x * y));
    EntryScaled(b, f, u, s, v, pv, r, -(a * d - b * b) * (x * y));
    EntryScaled(d, f, v, s, v, pv, r, (a * d - b * b) * (x * x));
    SameFactor(b - e * v, b - f * u, s);
  }

  lemma PackClosedForm(a: real, b: real, d: real, x: real, y: real, r: real, s: real, qa: real, qb: real, qd: real)
    requires qa * s == r * a + (a * d - b * b) * (y * y)
    requires qb * s == r * b - (a * d - b * b) * (x * y)
    requires qd * s == r * d + (a * d - b * b) * (x * x)
    ensures ClosedForm(M2(a, b, b, d), V2(x, y), r, s, M2(qa, qb, qb, qd))
  {}

  lemma SameFactor(x: real, y: real, s: real)
    requires x * s == y * s && s > 0.0
    ensures x == y
  {
    assert (x - y) * s == 0.0;
  }

  lemma DivideBack(u: real, s: real)
    requires s != 0.0
    ensures u / s * s == u
  {}

  lemma EntryWith(j: real, x: real, y: real, p1: real, p2: real, u: real)
    requires u == p1 * x + p2 * y
    ensures (1.0 - j * x) * p1 + -(j * y) * p2 == p1 - j * u
    ensures -(j * x) * p1 + (1.0 - j * y) * p2 == p2 - j * u
  {
    EntryReal(j, x, y, p1, p2);
  }

  /** The entries that the code computes, in terms of the gain (e, f) and the covariances (u, v). */
  lemma UpdatedReal(a: real, b: real, d: real, x: real, y: real, e: real, f: real, u: real, v: real)
    requires u == a * x + b * y && v == b * x + d * y
    ensures Updated(M2(a, b, b, d), V2(e, f), V2(x, y)) == M2(a - e * u, b - e * v, b - f * u, d - f * v)
  {
    var q := Updated(M2(a, b, b, d), V2(e, f), V2(x, y));
    assert q.a == a - e * u by { EntryWith(e, x, y, a, b, u); }
    assert q.b == b - e * v by { EntryWith(e, x, y, b, d, v); }
    assert q.c == b - f * u by { EntryWith(f, x, y, a, b, u); }
    assert q.d == d - f * v by { EntryWith(f, x, y, b, d, v); }
  }

  lemma QuadraticReal(a: real, b: real, d: real, x: real, y: real, u: real, v: real)
    requires u == a * x + b * y && v == b * x + d * y
    ensures Quadratic(M2(a, b, b, d), V2(x, y)) == u * x + v * y
  {}

  lemma PosteriorReal(a: real, b: real, d: real, x: real, y: real, r: real, u: real, v: real, pv: real, e: real, f: real)
    requires u == a * x + b * y && v == b * x + d * y && pv == u * x + v * y && pv + r > 0.0
    requires e == u / (pv + r) && f == v / (pv + r)
    ensures Quadratic(M2(a, b, b, d), V2(x, y)) == pv
    ensures Posterior(M2(a, b, b, d), V2(x, y), r) == M2(a - e * u, b - e * v, b - f * u, d - f * v)
  {
    QuadraticReal(a, b, d, x, y, u, v);
    assert Gain(M2(a, b, b, d), V2(x, y), pv + r) == V2(e, f);
    UpdatedReal(a, b, d, x, y, e, f, u, v);
  }

  lemma ClosedFormOf(
      a: real, b: real, d: real, x: real, y: real, r: real, u: real, v: real, pv: real, e: real, f: real)
    requires u == a * x + b * y && v == b * x + d * y && pv == u * x + v * y && pv + r > 0.0
    requires e == u / (pv + r) && f == v / (pv + r)
    ensures ClosedForm(M2(a, b, b, d), V2(x, y), r, pv + r, M2(a - e * u, b - e * v, b - f * u, d - f * v))
  {
    DivideBack(u, pv + r);
    DivideBack(v, pv + r);
    ClosedFormReal(a, b, d, x, y, r, pv, pv + r, u, v, e, f);
    PackClosedForm(a, b, d, x, y, r, pv + r, a - e * u, b - e * v, d - f * v);
  }

  lemma PosteriorClosedForm(p: M2, c: V2, r: real)
    requires p.b == p.c && Quadratic(p, c) + r > 0.0
    ensures ClosedForm(p, c, r, Quadratic(p, c) + r, Posterior(p, c, r))
  {
    var u, v := p.a * c.x + p.b * c.y, p.b * c.x + p.d * c.y;
    ClosedFormFor(p.a, p.b, p.d, c.x, c.y, r, u, v, u * c.x + v * c.y);
    assert p == M2(p.a, p.b, p.b, p.d) && c == V2(c.x, c.y);
  }

  lemma ClosedFormFor(a: real, b: real, d: real, x: real, y: real, r: real, u: real, v: real, pv: real)
    requires Quadratic(M2(a, b, b, d), V2(x, y)) + r > 0.0
    requires u == a * x + b * y && v == b * x + d * y && pv == u * x + v * y
    ensures ClosedForm(M2(a, b, b, d), V2(x, y), r, Quadratic(M2(a, b, b, d), V2(x, y)) + r,
                       Posterior(M2(a, b, b, d), V2(x, y), r))
  {
    QuadraticReal(a, b, d, x, y, u, v);
    PosteriorReal(a, b, d, x, y, r, u, v, pv, u / (pv + r), v / (pv + r));
    ClosedFormOf(a, b, d, x, y, r, u, v, pv, u / (pv + r), v / (pv + r));
  }

  // ---------------------------------------------------------------- consequences of the closed form

  function Form(a: real, b: real, d: real, x: real, y: real): real {
    a * (x * x) + 2.0 * b * (x * y) + d * (y * y)
  }

  lemma QuadraticForm(p: M2, w: V2)
    requires p.b == p.c
    ensures Quadratic(p, w) == Form(p.a, p.b, p.d, w.x, w.y)
  {}

  /** Completing the square. */
  lemma FormNonNegative(a: real, b: real, d: real, x: real, y: real)
    requires a > 0.0 && a * d - b * b > 0.0
    ensures Form(a, b, d, x, y) >= 0.0
  {
    var k := a * x + b * y;
    assert a * Form(a, b, d, x, y) == k * k + (a * d - b * b) * (y * y);
    Squares(k);
    Squares(y);
    assert (a * d - b * b) * (y * y) >= 0.0;
    PositiveFactor(Form(a, b, d, x, y), a, k * k + (a * d - b * b) * (y * y));
  }

  lemma VarianceNonNegative(p: M2, c: V2)
    requires PositiveDefinite(p)
    ensures Quadratic(p, c) >= 0.0
  {
    QuadraticForm(p, c);
    FormNonNegative(p.a, p.b, p.d, c.x, c.y);
  }

  lemma DiagonalPositive(a: real, r: real, det: real, y: real, qa: real, s: real)
    requires a > 0.0 && r > 0.0 && det > 0.0 && s > 0.0 && qa * s == r * a + det * (y * y)
    ensures qa > 0.0
  {
    Squares(y);
    assert det * (y * y) >= 0.0 && r * a > 0.0;
    PositiveFactor(qa, s, r * a + det * (y * y));
  }

  lemma DetReal(a: real, b: real, d: real, x: real, y: real, r: real, det: real, f: real, k: real, l: real, m: real)
    requires det == a * d - b * b && f == Form(a, b, d, x, y)
    requires k == r * a + det * (y * y) && l == r * b - det * (x * y) && m == r * d + det * (x * x)
    ensures k * m - l * l == (r * det) * (r + f)
  {
    assert (r * a) * (r * d) - (r * b) * (r * b) == r * r * det;
    assert (r * a) * (det * (x * x)) + (r * d) * (det * (y * y)) + 2.0 * (r * b) * (det * (x * y)) == r * det * f;
  }

  lemma DetScaled(qa: real, qb: real, qd: real, s: real, k: real, l: real, m: real, q: real)
    requires k == qa * s && l == qb * s && m == qd * s && q == qa * qd - qb * qb
    ensures (q * s) * s == k * m - l * l
  {}

  lemma CancelFactor(q: real, s: real, r: real, det: real)
    requires (q * s) * s == (r * det) * s && s > 0.0 && r > 0.0 && det > 0.0
    ensures q * s == det * r && q > 0.0
  {
    SameFactor(q * s, r * det, s);
    assert r * det > 0.0;
    PositiveFactor(q, s, r * det);
  }

  lemma DeterminantShrinks(
      a: real, b: real, d: real, x: real, y: real, r: real, s: real, det: real, qa: real, qb: real, qd: real, q: real)
    requires det == a * d - b * b && s == r + Form(a, b, d, x, y) && s > 0.0 && q == qa * qd - qb * qb
    requires qa * s == r * a + det * (y * y) && qb * s == r * b - det * (x * y) && qd * s == r * d + det * (x * x)
    requires r > 0.0 && det > 0.0
    ensures q * s == det * r && q > 0.0
  {
    var f := Form(a, b, d, x, y);
    var k, l, m := qa * s, qb * s, qd * s;
    DetScaled(qa, qb, qd, s, k, l, m, q);
    DetReal(a, b, d, x, y, r, det, f, k, l, m);
    CancelFactor(q, s, r, det);
  }

  /** Positive definiteness survives the update, for any measurement direction and any positive noise. */
  lemma PosteriorPositiveDefinite(p: M2, c: V2, r: real)
    requires PositiveDefinite(p) && r > 0.0
    ensures Quadratic(p, c) + r > 0.0 && PositiveDefinite(Posterior(p, c, r))
    ensures Det(Posterior(p, c, r)) * (Quadratic(p, c) + r) == Det(p) * r
  {
    VarianceNonNegative(p, c);
    PosteriorClosedForm(p, c, r);
    QuadraticForm(p, c);
    ClosedFormPositiveDefinite(p, c, r, Quadratic(p, c) + r, Posterior(p, c, r));
  }

  lemma ClosedFormDiagonal(p: M2, c: V2, r: real, s: real, q: M2)
    requires PositiveDefinite(p) && r > 0.0 && s > 0.0 && ClosedForm(p, c, r, s, q)
    ensures q.a > 0.0 && q.d > 0.0
  {
    DiagonalPositive(p.a, r, Det(p), c.y, q.a, s);
    DiagonalPositive(p.d, r, Det(p), c.x, q.d, s);
  }

  lemma ClosedFormDeterminant(p: M2, c: V2, r: real, s: real, q: M2, det: real)
    requires p.b == p.c && det == Det(p) && det > 0.0 && r > 0.0 && s > 0.0 && ClosedForm(p, c, r, s, q)
    requires s == r + Form(p.a, p.b, p.d, c.x, c.y)
    ensures Det(q) > 0.0 && Det(q) * s == det * r
  {
    DeterminantShrinks(p.a, p.b, p.d, c.x, c.y, r, s, det, q.a, q.b, q.d, Det(q));
  }

  lemma ClosedFormPositiveDefinite(p: M2, c: V2, r: real, s: real, q: M2)
    requires PositiveDefinite(p) && r > 0.0 && s > 0.0 && ClosedForm(p, c, r, s, q)
    requires s == r + Form(p.a, p.b, p.d, c.x, c.y)
    ensures PositiveDefinite(q) && Det(q) * s == Det(p) * r
  {
    ClosedFormDiagonal(p, c, r, s, q);
    ClosedFormDeterminant(p, c, r, s, q, Det(p));
  }

  /** The Lagrange identity for the form. */
  lemma LagrangeReal(a: real, b: real, d: real, x: real, y: real, m: real, n: real, k: real, z: real, det: real)
    requires k == (a * x + b * y) * m + (b * x + d * y) * n && z == x * n - y * m && det == a * d - b * b
    ensures Form(a, b, d, x, y) * Form(a, b, d, m, n) - det * (z * z) == k * k
  {
    assert z * z == (x * n - y * m) * (x * n - y * m);
    assert det * (z * z) == (a * d - b * b) * ((x * n - y * m) * (x * n - y * m));
    assert k * k == ((a * x + b * y) * m + (b * x + d * y) * n) * ((a * x + b * y) * m + (b * x + d * y) * n);
  }

  lemma FormScaled(qa: real, qb: real, qd: real, s: real, a: real, b: real, d: real, m: real, n: real)
    requires qa * s == a && qb * s == b && qd * s == d
    ensures Form(qa, qb, qd, m, n) * s == Form(a, b, d, m, n)
  {
    assert qa * (m * m) * s == a * (m * m);
    assert 2.0 * qb * (m * n) * s == 2.0 * b * (m * n);
    assert qd * (n * n) * s == d * (n * n);
  }

  lemma FormOfSum(a: real, b: real, d: real, x: real, y: real, r: real, det: real, m: real, n: real, z: real)
    requires z == x * n - y * m
    ensures Form(r * a + det * (y * y), r * b - det * (x * y), r * d + det * (x * x), m, n)
         == r * Form(a, b, d, m, n) + det * (z * z)
  {
    assert det * (z * z) == det * ((x * n - y * m) * (x * n - y * m));
  }

  lemma PosteriorForm(
      a: real, b: real, d: real, x: real, y: real, r: real, s: real, det: real,
      qa: real, qb: real, qd: real, m: real, n: real, z: real)
    requires qa * s == r * a + det * (y * y) && qb * s == r * b - det * (x * y) && qd * s == r * d + det * (x * x)
    requires z == x * n - y * m
    ensures Form(qa, qb, qd, m, n) * s == r * Form(a, b, d, m, n) + det * (z * z)
  {
    FormScaled(qa, qb, qd, s, r * a + det * (y * y), r * b - det * (x * y), r * d + det * (x * x), m, n);
    FormOfSum(a, b, d, x, y, r, det, m, n, z);
  }

  lemma DropReal(fw: real, fq: real, fc: real, r: real, s: real, dz: real, kk: real)
    requires s == r + fc && fq * s == r * fw + dz && fc * fw - dz == kk
    ensures (fw - fq) * s == kk
  {
    assert fw * s == r * fw + fc * fw;
  }

  /** What an update takes from the variance along (m, n), times s, is a square. */
  lemma FormShrinks(
      a: real, b: real, d: real, x: real, y: real, r: real, s: real, qa: real, qb: real, qd: real, m: real, n: real)
    requires s == r + Form(a, b, d, x, y) && s > 0.0
    requires qa * s == r * a + (a * d - b * b) * (y * y)
    requires qb * s == r * b - (a * d - b * b) * (x * y)
    requires qd * s == r * d + (a * d - b * b) * (x * x)
    ensures Form(qa, qb, qd, m, n) <= Form(a, b, d, m, n)
  {
    var k, det, z := (a * x + b * y) * m + (b * x + d * y) * n, a * d - b * b, x * n - y * m;
    LagrangeReal(a, b, d, x, y, m, n, k, z, det);
    PosteriorForm(a, b, d, x, y, r, s, det, qa, qb, qd, m, n, z);
    DropReal(Form(a, b, d, m, n), Form(qa, qb, qd, m, n), Form(a, b, d, x, y), r, s, det * (z * z), k * k);
    Squares(k);
    PositiveFactor(Form(a, b, d, m, n) - Form(qa, qb, qd, m, n), s, k * k);
  }

  lemma ClosedFormAtMost(p: M2, c: V2, r: real, s: real, q: M2)
    requires p.b == p.c && s > 0.0 && ClosedForm(p, c, r, s, q) && s == r + Form(p.a, p.b, p.d, c.x, c.y)
    ensures AtMost(q, p)
  {
    forall w ensures Quadratic(q, w) <= Quadratic(p, w) {
      QuadraticForm(p, w);
      QuadraticForm(q, w);
      FormShrinks(p.a, p.b, p.d, c.x, c.y, r, s, q.a, q.b, q.d, w.x, w.y);
    }
  }

  /** An update never increases the variance in any direction. */
  lemma PosteriorAtMost(p: M2, c: V2, r: real)
    requires PositiveDefinite(p) && r > 0.0
    ensures Quadratic(p, c) + r > 0.0 && AtMost(Posterior(p, c, r), p)
  {
    VarianceNonNegative(p, c);
    PosteriorClosedForm(p, c, r);
    QuadraticForm(p, c);
    ClosedFormAtMost(p, c, r, Quadratic(p, c) + r, Posterior(p, c, r));
  }

  lemma AtMostVariances(p: M2, q: M2)
    requires AtMost(p, q)
    ensures p.a <= q.a && p.d <= q.d
  {
    assert Quadratic(p, V2(1.0, 0.0)) == p.a && Quadratic(q, V2(1.0, 0.0)) == q.a;
    assert Quadratic(p, V2(0.0, 1.0)) == p.d && Quadratic(q, V2(0.0, 1.0)) == q.d;
  }

  /** The variance of the predicted measurement shrinks by the factor r / s. */
  lemma PosteriorPrediction(p: M2, c: V2, r: real)
    requires p.b == p.c && Quadratic(p, c) + r > 0.0
    ensures Quadratic(Posterior(p, c, r), c) * (Quadratic(p, c) + r) == Quadratic(p, c) * r
  {
    PosteriorClosedForm(p, c, r);
    ClosedFormPrediction(p, c, r, Quadratic(p, c) + r, Posterior(p, c, r));
  }

  lemma ClosedFormPrediction(p: M2, c: V2, r: real, s: real, q: M2)
    requires p.b == p.c && ClosedForm(p, c, r, s, q)
    ensures Quadratic(q, c) * s == Quadratic(p, c) * r
  {
    QuadraticForm(p, c);
    QuadraticForm(q, c);
    PosteriorForm(p.a, p.b, p.d, c.x, c.y, r, s, Det(p), q.a, q.b, q.d, c.x, c.y, 0.0);
  }
}
