/** The measurement update of the two-state Kalman filter, with its dead zone and resets. */
module KalmanFilter {
  import opened Covariance

  const TINY := 0.00000001
  const RANGE_REJECT := 2.0

  datatype Outcome = Rejected | Outlier | Success

  /** One measurement: direction, noise, value, prediction and the switches of the update. */
  datatype Measurement = Measurement(
    c: V2, r: real, y: real, ybar: real,
    rejectOutliers: bool, outlierSD: real,
    angleUpdate: bool, ignoreLongRange: bool,
    deadzone: real, dist: real, ambiguous: bool, changeAlpha: bool)

  datatype Filter = Filter(x: V2, p: M2, xchange: V2, alpha: real)

  function Abs(x: real): real { if x > 0.0 then x else -x }

  /** What the measurement noise demands of a caller. */
  predicate Usable(m: Measurement) { m.r > 0.0 && (m.angleUpdate ==> m.dist != 0.0) }

  // ---------------------------------------------------------------- dead zone

  datatype Noise = Noise(r: real, innovation: real)

  /** The dead zone applies only to parameters that are clearly positive. */
  predicate ZoneActive(r: real, cpc: real, eps: real) { eps >= TINY && cpc >= TINY && r >= TINY }

  /** The inverse noise that would put the update exactly on the edge of the dead zone. */
  function EdgeInverse(innovation: real, cpc: real, eps: real): real
    requires eps > 0.0 && cpc > 0.0
  {
    if Abs(innovation) > eps then (Abs(innovation) / eps - 1.0) / cpc
    else 0.25 / (eps * eps) - 1.0 / cpc
  }

  function Clamped(invR: real): (r: real)
    ensures r >= TINY
  {
    if invR < TINY then TINY else invR
  }

  /** Only ever increase the noise; inside the zone the innovation becomes zero. */
  function Deadzone(r: real, innovation: real, cpc: real, eps: real): Noise {
    if !ZoneActive(r, cpc, eps) then Noise(r, innovation)
    else
      var edge := 1.0 / Clamped(EdgeInverse(innovation, cpc, eps));
      Noise(if r < edge then edge else r, if Abs(innovation) > eps then innovation else 0.0)
  }

  lemma DeadzoneRaisesNoise(r: real, innovation: real, cpc: real, eps: real)
    requires r > 0.0
    ensures Deadzone(r, innovation, cpc, eps).r >= r > 0.0
  {}

  lemma Reciprocal(r: real, inv: real)
    requires inv > 0.0 && r >= 1.0 / inv
    ensures r > 0.0 && 1.0 <= r * inv
  {
    assert 1.0 / inv * inv == 1.0;
    assert r * inv >= 1.0 / inv * inv;
  }

  /** The noise after the dead zone is at least the reciprocal of the clamped edge inverse. */
  lemma NoiseCoversEdge(r: real, innovation: real, cpc: real, eps: real)
    requires ZoneActive(r, cpc, eps)
    ensures 1.0 <= Deadzone(r, innovation, cpc, eps).r * Clamped(EdgeInverse(innovation, cpc, eps))
  {
    Reciprocal(Deadzone(r, innovation, cpc, eps).r, Clamped(EdgeInverse(innovation, cpc, eps)));
  }

  /** Predicted variance after an update with prior cpc and noise r. */
  function PosteriorVariance(cpc: real, r: real): real
    requires cpc + r != 0.0
  {
    cpc * r / (cpc + r)
  }

  /** The residual that a linear update leaves of an innovation. */
  function Residual(innovation: real, cpc: real, r: real): real
    requires cpc + r != 0.0
  {
    innovation * r / (cpc + r)
  }

  /** At least z times s is at least the bound exactly when the quotient is. */
  lemma QuotientAtLeast(z: real, s: real, bound: real)
    requires s > 0.0
    ensures z / s >= bound <==> z >= bound * s
  {
    assert z / s * s == z;
    assert z / s >= bound ==> z / s * s >= bound * s;
    assert z / s < bound ==> z / s * s < bound * s;
  }

  /** 1 <= R (1/E - 1/cpc) scaled by E cpc. */
  lemma InsideScaled(r: real, cpc: real, e: real)
    requires r > 0.0 && cpc > 0.0 && e > 0.0
    ensures 1.0 <= r * (1.0 / e - 1.0 / cpc) <==> cpc * r >= e * (cpc + r)
  {
    var k := e * cpc;
    assert k > 0.0;
    var inv := 1.0 / e - 1.0 / cpc;
    assert inv * k == cpc - e by {
      assert 1.0 / e * e == 1.0 && 1.0 / cpc * cpc == 1.0;
      assert 1.0 / e * k == cpc && 1.0 / cpc * k == e;
    }
    assert r * inv * k == r * (cpc - e);
    assert 1.0 <= r * inv ==> k <= r * inv * k;
    assert 1.0 > r * inv ==> k > r * inv * k;
  }

  lemma QuarterInverse(eps: real)
    requires eps > 0.0
    ensures 4.0 * (eps * eps) > 0.0 && 0.25 / (eps * eps) == 1.0 / (4.0 * (eps * eps))
  {
    var q := eps * eps;
    assert q > 0.0;
    assert 0.25 / q * (4.0 * q) == 1.0 by { assert 0.25 / q * q == 0.25; }
    assert 1.0 / (4.0 * q) * (4.0 * q) == 1.0;
  }

  /**
   * What the bounds turn on: the inverse that puts the update on the edge of the zone is not
   * clamped, or the measurement was noisy enough by itself.
   */
  predicate EdgeRespected(r: real, innovation: real, cpc: real, eps: real)
    requires eps > 0.0 && cpc > 0.0
  {
    var inv := EdgeInverse(innovation, cpc, eps);
    inv >= TINY || 1.0 <= r * inv
  }

  lemma ProductNonNegative(x: real, y: real)
    requires x >= 0.0 && y >= 0.0
    ensures x * y >= 0.0
  {}

  lemma ProductMonotone(x: real, y: real, z: real)
    requires x <= y && z >= 0.0
    ensures x * z <= y * z
  {
    var d := y - x;
    ProductNonNegative(d, z);
    assert y == x + d;
    assert (x + d) * z == x * z + d * z;
  }

  lemma LessNoiseLess(r: real, n: real, inv: real)
    requires 0.0 < r <= n && n * inv < 1.0
    ensures r * inv < 1.0
  {
    if inv > 0.0 {
      ProductMonotone(r, n, inv);
      var a, b := r * inv, n * inv;
      assert a <= b < 1.0;
    } else {
      ProductNonNegative(r, -inv);
      assert r * (-inv) == -(r * inv);
    }
  }

  lemma ClampDecides(r: real, innovation: real, cpc: real, eps: real)
    requires ZoneActive(r, cpc, eps)
    ensures 1.0 <= Deadzone(r, innovation, cpc, eps).r * EdgeInverse(innovation, cpc, eps)
      <==> EdgeRespected(r, innovation, cpc, eps)
  {
    var inv, n := EdgeInverse(innovation, cpc, eps), Deadzone(r, innovation, cpc, eps).r;
    NoiseCoversEdge(r, innovation, cpc, eps);
    if inv < TINY && n != r {
      assert n == 1.0 / TINY;
      assert n * inv < n * TINY;
      LessNoiseLess(r, n, inv);
    }
  }

  lemma InsideDecides(r: real, innovation: real, cpc: real, eps: real, n: real, e: real)
    requires ZoneActive(r, cpc, eps) && Abs(innovation) <= eps
    requires n == Deadzone(r, innovation, cpc, eps).r && e == 4.0 * (eps * eps)
    ensures n > 0.0 && e > 0.0 && (cpc * n >= e * (cpc + n) <==> EdgeRespected(r, innovation, cpc, eps))
  {
    DeadzoneRaisesNoise(r, innovation, cpc, eps);
    QuarterInverse(eps);
    ClampDecides(r, innovation, cpc, eps);
    InsideScaled(n, cpc, e);
  }

  /**
   * Inside the zone the predicted variance after the update is at least 4 eps^2, exactly when the
   * inverse-noise clamp is not hit or the noise alone suffices.
   */
  lemma InsideZoneBound(r: real, innovation: real, cpc: real, eps: real)
    requires ZoneActive(r, cpc, eps) && Abs(innovation) <= eps
    ensures var n := Deadzone(r, innovation, cpc, eps);
      && n.innovation == 0.0 && cpc + n.r > 0.0
      && (PosteriorVariance(cpc, n.r) >= 4.0 * (eps * eps) <==> EdgeRespected(r, innovation, cpc, eps))
  {
    var n, e := Deadzone(r, innovation, cpc, eps).r, 4.0 * (eps * eps);
    InsideDecides(r, innovation, cpc, eps, n, e);
    QuotientAtLeast(cpc * n, cpc + n, e);
  }

  lemma OutsideScaled(r: real, cpc: real, a: real, eps: real)
    requires r > 0.0 && cpc > 0.0 && eps > 0.0
    ensures 1.0 <= r * ((a / eps - 1.0) / cpc) <==> a * r >= eps * (cpc + r)
  {
    var q := a / eps;
    assert q * eps == a;
    var inv := (q - 1.0) / cpc;
    assert inv * cpc == q - 1.0;
    var k := eps * cpc;
    assert k > 0.0;
    assert r * inv * k == r * (a - eps) by {
      assert inv * k == (inv * cpc) * eps;
      assert (q - 1.0) * eps == a - eps;
      assert r * inv * k == r * (inv * k);
    }
    assert 1.0 <= r * inv ==> k <= r * inv * k;
    assert 1.0 > r * inv ==> k > r * inv * k;
  }

  lemma AbsQuotient(x: real, r: real, s: real)
    requires r > 0.0 && s > 0.0
    ensures Abs(x * r / s) == Abs(x) * r / s
  {
    if x > 0.0 {
      assert x * r > 0.0 && x * r / s > 0.0;
    } else {
      assert -(x * r) == (-x) * r;
      assert -(x * r / s) == (-x) * r / s;
      assert (-x) * r >= 0.0;
      assert (-x) * r / s >= 0.0;
    }
  }

  lemma OutsideDecides(r: real, innovation: real, cpc: real, eps: real, a: real, n: real)
    requires ZoneActive(r, cpc, eps) && Abs(innovation) > eps
    requires a == Abs(innovation) && n == Deadzone(r, innovation, cpc, eps).r
    ensures n > 0.0 && (a * n >= eps * (cpc + n) <==> EdgeRespected(r, innovation, cpc, eps))
  {
    DeadzoneRaisesNoise(r, innovation, cpc, eps);
    ClampDecides(r, innovation, cpc, eps);
    OutsideScaled(n, cpc, a, eps);
  }

  lemma ResidualAtLeast(innovation: real, cpc: real, n: real, a: real, eps: real)
    requires n > 0.0 && cpc > 0.0 && a == Abs(innovation)
    ensures Abs(Residual(innovation, cpc, n)) >= eps <==> a * n >= eps * (cpc + n)
  {
    AbsQuotient(innovation, n, cpc + n);
    QuotientAtLeast(a * n, cpc + n, eps);
  }

  /**
   * Outside the zone the update leaves a residual of at least eps, exactly when the inverse-noise
   * clamp is not hit or the noise alone suffices: only then does it not jump past the edge.
   */
  lemma OutsideZoneBound(r: real, innovation: real, cpc: real, eps: real)
    requires ZoneActive(r, cpc, eps) && Abs(innovation) > eps
    ensures var n := Deadzone(r, innovation, cpc, eps);
      && n.innovation == innovation && n.r > 0.0
      && (Abs(Residual(innovation, cpc, n.r)) >= eps <==> EdgeRespected(r, innovation, cpc, eps))
  {
    var a, n := Abs(innovation), Deadzone(r, innovation, cpc, eps).r;
    OutsideDecides(r, innovation, cpc, eps, a, n);
    ResidualAtLeast(innovation, cpc, n, a, eps);
  }

  /** Both bounds fail for ordinary noise once the clamp is hit, and hold above it for huge noise. */
  lemma ClampBreaksBounds()
    ensures PosteriorVariance(1.0, Deadzone(1.0, 0.0, 1.0, 1.0).r) < 4.0
    ensures Abs(Residual(1.001, 1000000.0, Deadzone(1.0, 1.001, 1000000.0, 1.0).r)) < 1.0
    ensures var n := Deadzone(100000000000.0, 0.0, 100000000000.0, 100000.0);
      EdgeInverse(0.0, 100000000000.0, 100000.0) < TINY && PosteriorVariance(100000000000.0, n.r) >= 40000000000.0
  {
    InsideZoneBound(1.0, 0.0, 1.0, 1.0);
    OutsideZoneBound(1.0, 1.001, 1000000.0, 1.0);
    InsideZoneBound(100000000000.0, 0.0, 100000000000.0, 100000.0);
  }

  // ---------------------------------------------------------------- one attempt of an update

  datatype Attempt =
    | Refused(filter: Filter, outcome: Outcome)
    | Numerics(filter: Filter, r: real)
    | Accepted(filter: Filter)

  /** The checks that the code makes of a new covariance. */
  predicate NumericsError(q: M2) { q.a <= 0.0 || q.b * q.b > q.a * q.d || q.d <= 0.0 }

  /** Covariance used by the attempt: reset when the predicted variance is negative. */
  function Prior(p: M2, initP: M2, c: V2): M2 { if Quadratic(p, c) < 0.0 then initP else p }

  function MeasurementNoise(p: M2, m: Measurement, r: real): real
    requires m.angleUpdate ==> m.dist != 0.0
  {
    if m.angleUpdate then
      var k := (p.a + p.d) / (m.dist * m.dist);
      r + k * k
    else r
  }

  function AlphaFactor(m: Measurement, n: Noise): real
    requires n.r > 0.0
  {
    Squares(n.innovation);
    var q := n.r / (n.r + n.innovation * n.innovation);
    if !m.changeAlpha then 1.0 else if m.ambiguous && q < 0.01 then 0.01 else q
  }

  function Innovation(m: Measurement, wrap: real -> real): real {
    if m.angleUpdate then wrap(m.y - m.ybar) else m.y - m.ybar
  }

  /** The noise and innovation of an attempt, after the angle term and the dead zone. */
  function AttemptNoise(f: Filter, initP: M2, m: Measurement, r: real, wrap: real -> real): (n: Noise)
    requires r > 0.0 && Usable(m)
    ensures n.r > 0.0
  {
    Squares((f.p.a + f.p.d) / (if m.dist == 0.0 then 1.0 else m.dist * m.dist));
    var noise := MeasurementNoise(f.p, m, r);
    var prior := Prior(f.p, initP, m.c);
    DeadzoneRaisesNoise(noise, Innovation(m, wrap), Quadratic(prior, m.c), m.deadzone);
    Deadzone(noise, Innovation(m, wrap), Quadratic(prior, m.c), m.deadzone)
  }

  lemma PriorVariance(p: M2, initP: M2, c: V2)
    requires PositiveDefinite(initP)
    ensures Quadratic(Prior(p, initP, c), c) >= 0.0
  {
    VarianceNonNegative(initP, c);
  }

  /** innovation > RANGE_REJECT * sqrt(variance), for a variance that is not negative. */
  predicate LongRange(n: Noise, variance: real) {
    n.innovation > 0.0 && n.innovation * n.innovation > RANGE_REJECT * RANGE_REJECT * variance
  }

  predicate Outlying(m: Measurement, n: Noise, variance: real) {
    n.innovation * n.innovation > m.outlierSD * m.outlierSD * variance
  }

  function Lowered(alpha: real, factor: real): real { alpha * factor }

  /** The second half of a pass: the rejection tests, the model probability and the correction. */
  function Correct(f: Filter, initP: M2, m: Measurement, n: Noise): Attempt
    requires n.r > 0.0 && Quadratic(f.p, m.c) >= 0.0
  {
    var variance := Quadratic(f.p, m.c) + n.r;
    if m.ignoreLongRange && LongRange(n, variance) then Refused(f.(alpha := Lowered(f.alpha, 0.5)), Success)
    else if m.rejectOutliers && Outlying(m, n, variance) then Refused(f.(alpha := Lowered(f.alpha, 0.5)), Outlier)
    else
      var alpha := Lowered(f.alpha, AlphaFactor(m, n));
      var j := Gain(f.p, m.c, variance);
      var newP := Updated(f.p, j, m.c);
      if NumericsError(newP) then Numerics(f.(p := initP, alpha := alpha), n.r)
      else
        var x := Plus(f.x, Scale(j, n.innovation));
        Accepted(Filter(x, newP, Plus(f.xchange, x), alpha))
  }

  /**
   * One pass over the update. A long-range or outlying innovation is refused after Xchange was
   * already lowered by X; a numerics error resets the covariance and asks for another pass.
   */
  function Try(f: Filter, initP: M2, m: Measurement, r: real, wrap: real -> real): Attempt
    requires PositiveDefinite(initP) && r > 0.0 && Usable(m)
  {
    PriorVariance(f.p, initP, m.c);
    Correct(f.(p := Prior(f.p, initP, m.c), xchange := Minus(f.xchange, f.x)), initP, m,
            AttemptNoise(f, initP, m, r, wrap))
  }

  /** In exact arithmetic a positive definite covariance never causes a reset. */
  lemma NoNumericsError(f: Filter, initP: M2, m: Measurement, r: real, wrap: real -> real)
    requires PositiveDefinite(initP) && PositiveDefinite(f.p) && r > 0.0 && Usable(m)
    ensures Quadratic(f.p, m.c) >= 0.0
    ensures var a := Try(f, initP, m, r, wrap);
      && !a.Numerics?
      && (a.Refused? ==> a.filter.p == f.p)
      && (a.Accepted? ==> a.filter.p == Posterior(f.p, m.c, AttemptNoise(f, initP, m, r, wrap).r))
      && PositiveDefinite(a.filter.p) && AtMost(a.filter.p, f.p)
  {
    VarianceNonNegative(f.p, m.c);
    PosteriorPasses(f.p, m.c, AttemptNoise(f, initP, m, r, wrap).r);
  }

  lemma PosteriorPasses(p: M2, c: V2, r: real)
    requires PositiveDefinite(p) && r > 0.0
    ensures Quadratic(p, c) + r > 0.0
    ensures var q := Posterior(p, c, r); !NumericsError(q) && PositiveDefinite(q) && AtMost(q, p) && AtMost(p, p)
  {
    PosteriorPositiveDefinite(p, c, r);
    PosteriorAtMost(p, c, r);
    var q := Posterior(p, c, r);
    assert q.b * q.b < q.a * q.d;
  }

  // ---------------------------------------------------------------- whole updates and runs

  /** A measurement update: passes until one is not a numerics error, each with the noise of the last. */
  function Update(f: Filter, initP: M2, m: Measurement, r: real, wrap: real -> real): (Filter, Outcome)
    requires PositiveDefinite(initP) && r > 0.0 && Usable(m)
    decreases if PositiveDefinite(f.p) then 0 else 1
  {
    match Try(f, initP, m, r, wrap)
    case Refused(g, outcome) => (g, outcome)
    case Accepted(g) => (g, Success)
    case Numerics(g, noise) =>
      assert !PositiveDefinite(f.p) by {
        if PositiveDefinite(f.p) { NoNumericsError(f, initP, m, r, wrap); }
      }
      Update(g, initP, m, noise, wrap)
  }

  lemma RatioInRange(r: real, k: real)
    requires r > 0.0 && k >= 0.0
    ensures 0.0 < r / (r + k) <= 1.0
  {
    var q := r / (r + k);
    assert q * (r + k) == r;
    assert q <= 0.0 ==> q * (r + k) <= 0.0;
    assert q > 1.0 ==> q * (r + k) > r + k;
  }

  lemma AlphaFactorInRange(m: Measurement, n: Noise)
    requires n.r > 0.0
    ensures 0.0 < AlphaFactor(m, n) <= 1.0
  {
    Squares(n.innovation);
    RatioInRange(n.r, n.innovation * n.innovation);
  }

  lemma ScaledAlpha(alpha: real, k: real)
    requires 0.0 < alpha && 0.0 < k <= 1.0
    ensures 0.0 < Lowered(alpha, k) <= alpha
  {}

  lemma CorrectAlpha(f: Filter, initP: M2, m: Measurement, n: Noise)
    requires n.r > 0.0 && Quadratic(f.p, m.c) >= 0.0 && f.alpha > 0.0
    ensures 0.0 < Correct(f, initP, m, n).filter.alpha <= f.alpha
  {
    AlphaFactorInRange(m, n);
    ScaledAlpha(f.alpha, AlphaFactor(m, n));
    ScaledAlpha(f.alpha, 0.5);
  }

  /** What one update does to a well-formed filter. */
  ghost predicate GoodUpdate(f: Filter, g: Filter) {
    PositiveDefinite(g.p) && AtMost(g.p, f.p) && 0.0 < g.alpha <= f.alpha
  }

  lemma UpdateIsTry(f: Filter, initP: M2, m: Measurement, r: real, wrap: real -> real)
    requires PositiveDefinite(initP) && PositiveDefinite(f.p) && r > 0.0 && Usable(m)
    ensures Update(f, initP, m, r, wrap).0 == Try(f, initP, m, r, wrap).filter
  {
    NoNumericsError(f, initP, m, r, wrap);
  }

  lemma UpdateIsGood(f: Filter, initP: M2, m: Measurement, r: real, wrap: real -> real)
    requires PositiveDefinite(initP) && PositiveDefinite(f.p) && f.alpha > 0.0 && r > 0.0 && Usable(m)
    ensures GoodUpdate(f, Update(f, initP, m, r, wrap).0)
  {
    UpdateIsTry(f, initP, m, r, wrap);
    NoNumericsError(f, initP, m, r, wrap);
    PriorVariance(f.p, initP, m.c);
    CorrectAlpha(f.(p := Prior(f.p, initP, m.c), xchange := Minus(f.xchange, f.x)), initP, m,
                 AttemptNoise(f, initP, m, r, wrap));
  }

  predicate AllUsable(ms: seq<Measurement>) { forall i :: 0 <= i < |ms| ==> Usable(ms[i]) }

  function Run(f: Filter, initP: M2, ms: seq<Measurement>, wrap: real -> real): Filter
    requires PositiveDefinite(initP) && AllUsable(ms)
  {
    if ms == [] then f
    else Update(Run(f, initP, ms[..|ms| - 1], wrap), initP, ms[|ms| - 1], ms[|ms| - 1].r, wrap).0
  }

  /**
   * Over any sequence of measurements the covariance stays positive definite, no variance in any
   * direction ever grows, and the model probability stays in (0, 1].
   */
  lemma {:induction false} RunIsGood(f: Filter, initP: M2, ms: seq<Measurement>, wrap: real -> real)
    requires PositiveDefinite(initP) && PositiveDefinite(f.p) && 0.0 < f.alpha && AllUsable(ms)
    ensures GoodUpdate(f, Run(f, initP, ms, wrap))
    ensures Run(f, initP, ms, wrap).p.a <= f.p.a && Run(f, initP, ms, wrap).p.d <= f.p.d
  {
    if ms != [] {
      var prior, m := ms[..|ms| - 1], ms[|ms| - 1];
      RunIsGood(f, initP, prior, wrap);
      UpdateIsGood(Run(f, initP, prior, wrap), initP, m, m.r, wrap);
      AtMostTransitive(Run(f, initP, ms, wrap).p, Run(f, initP, prior, wrap).p, f.p);
    }
    AtMostVariances(Run(f, initP, ms, wrap).p, f.p);
  }

  lemma AtMostTransitive(p: M2, q: M2, t: M2)
    requires AtMost(p, q) && AtMost(q, t)
    ensures AtMost(p, t)
  {
    forall v ensures Quadratic(p, v) <= Quadratic(t, v) {
      assert Quadratic(p, v) <= Quadratic(q, v) <= Quadratic(t, v);
    }
  }

  lemma DiagonalPositiveDefinite(p: M2)
    requires p.b == 0.0 && p.c == 0.0 && p.a > 0.0 && p.d > 0.0
    ensures PositiveDefinite(p)
  {
    assert p.a * p.d > 0.0;
  }

  /** From a positive definite covariance no update of a run takes either kind of reset. */
  lemma RunNeverResets(f: Filter, initP: M2, ms: seq<Measurement>, m: Measurement, wrap: real -> real)
    requires PositiveDefinite(initP) && PositiveDefinite(f.p) && f.alpha > 0.0 && AllUsable(ms) && Usable(m)
    ensures var g := Run(f, initP, ms, wrap);
      !Try(g, initP, m, m.r, wrap).Numerics? && Prior(g.p, initP, m.c) == g.p
  {
    RunIsGood(f, initP, ms, wrap);
    NoNumericsError(Run(f, initP, ms, wrap), initP, m, m.r, wrap);
  }

  /** The filter as it is started: a diagonal covariance, no change yet, full probability. */
  function Started(states: V2, a: real, d: real): Filter { Filter(states, M2(a, 0.0, 0.0, d), V2(0.0, 0.0), 1.0) }

  /**
   * From its initial diagonal covariance, over any sequence of measurements: the covariance stays
   * positive definite with variances no larger than the initial ones, the model probability stays
   * in (0, 1], and no further update resets.
   */
  lemma StartedRun(states: V2, a: real, d: real, ms: seq<Measurement>, m: Measurement, wrap: real -> real)
    requires a > 0.0 && d > 0.0 && AllUsable(ms) && Usable(m)
    ensures PositiveDefinite(M2(a, 0.0, 0.0, d))
    ensures var initP := M2(a, 0.0, 0.0, d); var g := Run(Started(states, a, d), initP, ms, wrap);
      && PositiveDefinite(g.p) && g.p.a <= a && g.p.d <= d && 0.0 < g.alpha <= 1.0
      && !Try(g, initP, m, m.r, wrap).Numerics? && Prior(g.p, initP, m.c) == g.p
  {
    var initP := M2(a, 0.0, 0.0, d);
    DiagonalPositiveDefinite(initP);
    RunIsGood(Started(states, a, d), initP, ms, wrap);
    RunNeverResets(Started(states, a, d), initP, ms, m, wrap);
  }

  // ---------------------------------------------------------------- the accumulated state change

  /** Xchange is meant to accumulate the changes of X, so this difference should not move. */
  function Base(f: Filter): V2 { Minus(f.xchange, f.x) }

  /** The guards of the two branches that refuse a measurement. */
  predicate Refuses(f: Filter, initP: M2, m: Measurement, wrap: real -> real)
    requires Usable(m)
  {
    var n := AttemptNoise(f, initP, m, m.r, wrap);
    var variance := Quadratic(f.p, m.c) + n.r;
    (m.ignoreLongRange && LongRange(n, variance)) || (m.rejectOutliers && Outlying(m, n, variance))
  }

  /**
   * It does not move exactly when the measurement is neither long-range nor outlying where that is
   * to be refused, or the state is zero: a refused measurement leaves Xchange lowered by the state.
   */
  lemma XchangeTracksIff(f: Filter, initP: M2, m: Measurement, wrap: real -> real)
    requires PositiveDefinite(initP) && PositiveDefinite(f.p) && Usable(m)
    ensures var g := Update(f, initP, m, m.r, wrap).0;
      && (Base(g) == Base(f) <==> !Refuses(f, initP, m, wrap) || f.x == V2(0.0, 0.0))
      && (Refuses(f, initP, m, wrap) ==> g.x == f.x && Base(g) == Minus(Base(f), f.x))
  {
    NoNumericsError(f, initP, m, m.r, wrap);
  }

  const UNIT := M2(1.0, 0.0, 0.0, 1.0)

  /** An innovation of 100 against a variance of 2. */
  const OUTLIER := Measurement(V2(1.0, 0.0), 1.0, 100.0, 0.0, true, 1.0, false, false, 0.0, 1.0, false, false)

  const OUTLIER_PRIOR := Filter(V2(1.0, 0.0), UNIT, V2(0.0, 0.0), 1.0)

  /** Without a dead zone and an angle, an innovation is refused for its size alone. */
  lemma PlainOutlier(f: Filter, initP: M2, m: Measurement, wrap: real -> real, innovation: real, variance: real)
    requires Usable(m) && m.rejectOutliers && !m.angleUpdate && m.deadzone < TINY
    requires innovation == m.y - m.ybar && variance == Quadratic(f.p, m.c) + m.r
    requires innovation * innovation > m.outlierSD * m.outlierSD * variance
    ensures Refuses(f, initP, m, wrap)
  {
    assert AttemptNoise(f, initP, m, m.r, wrap) == Noise(m.r, innovation);
  }

  lemma OutlierIsRefused(wrap: real -> real)
    ensures Refuses(OUTLIER_PRIOR, UNIT, OUTLIER, wrap)
  {
    assert Quadratic(UNIT, V2(1.0, 0.0)) == 1.0;
    PlainOutlier(OUTLIER_PRIOR, UNIT, OUTLIER, wrap, 100.0, 2.0);
  }

  /** An outlier that leaves the state alone and lowers Xchange by it. */
  lemma OutlierLowersXchange(wrap: real -> real)
    ensures PositiveDefinite(UNIT)
    ensures var g := Update(OUTLIER_PRIOR, UNIT, OUTLIER, 1.0, wrap).0; g.x == V2(1.0, 0.0) && g.xchange == V2(-1.0, 0.0)
  {
    DiagonalPositiveDefinite(UNIT);
    OutlierIsRefused(wrap);
    var x, change := RefusedFields(OUTLIER_PRIOR, UNIT, OUTLIER, wrap);
    assert x == V2(1.0, 0.0) && change == V2(-1.0, 0.0);
  }

  /** A refused measurement keeps the state and takes it off Xchange. */
  lemma RefusedFields(f: Filter, initP: M2, m: Measurement, wrap: real -> real) returns (x: V2, change: V2)
    requires PositiveDefinite(initP) && PositiveDefinite(f.p) && Usable(m) && Refuses(f, initP, m, wrap)
    ensures x == f.x && change == Minus(f.xchange, f.x)
    ensures var g := Update(f, initP, m, m.r, wrap).0; g.x == x && g.xchange == change
  {
    x, change := f.x, Minus(f.xchange, f.x);
    XchangeTracksIff(f, initP, m, wrap);
  }

  // ---------------------------------------------------------------- links between the update and the dead zone

  lemma GainAlong(p: M2, c: V2, s: real, g: real)
    requires s > 0.0 && p.b == p.c && g == c.x * Gain(p, c, s).x + c.y * Gain(p, c, s).y
    ensures g * s == Quadratic(p, c)
  {
    var u, v := p.a * c.x + p.b * c.y, p.c * c.x + p.d * c.y;
    assert Gain(p, c, s).x * s == u && Gain(p, c, s).y * s == v;
    assert g * s == c.x * (Gain(p, c, s).x * s) + c.y * (Gain(p, c, s).y * s);
    assert c.x * u + c.y * v == Quadratic(p, c);
  }

  /**
   * The dead-zone quantities are those of the update: its predicted variance is PosteriorVariance,
   * and what the state correction leaves of the innovation is Residual.
   */
  lemma UpdateMeetsPrediction(p: M2, c: V2, r: real, innovation: real)
    requires PositiveDefinite(p) && r > 0.0
    ensures var pv := Quadratic(p, c);
      && pv + r > 0.0
      && Quadratic(Posterior(p, c, r), c) == PosteriorVariance(pv, r)
      && (var j := Gain(p, c, pv + r);
          innovation - (c.x * (j.x * innovation) + c.y * (j.y * innovation)) == Residual(innovation, pv, r))
  {
    VarianceNonNegative(p, c);
    var pv := Quadratic(p, c);
    var s := pv + r;
    PosteriorPrediction(p, c, r);
    QuotientUnique(Quadratic(Posterior(p, c, r), c), pv * r, s);
    var j := Gain(p, c, s);
    var g := c.x * j.x + c.y * j.y;
    GainAlong(p, c, s, g);
    ResidualReal(innovation, g, pv, r, s, c.x, c.y, j.x, j.y);
  }

  lemma QuotientUnique(x: real, y: real, s: real)
    requires s > 0.0 && x * s == y
    ensures x == y / s
  {}

  lemma ResidualReal(i: real, g: real, pv: real, r: real, s: real, x: real, y: real, e: real, f: real)
    requires s > 0.0 && s == pv + r && g * s == pv && g == x * e + y * f
    ensures i - (x * (e * i) + y * (f * i)) == i * r / s
  {
    assert x * (e * i) + y * (f * i) == g * i by { assert g * i == (x * e + y * f) * i; }
    assert (i - g * i) * s == i * s - (g * s) * i;
    QuotientUnique(i - g * i, i * r, s);
  }

  // ---------------------------------------------------------------- where an update moves the state

  /** p c': the covariance of the state with the measurement. */
  function Along(p: M2, c: V2): V2 { V2(p.a * c.x + p.b * c.y, p.c * c.x + p.d * c.y) }

  function Dot(u: V2, v: V2): real { u.x * v.x + u.y * v.y }

  /** The predicted measurement variance, noise included. */
  function Spread(f: Filter, m: Measurement, n: Noise): real { Quadratic(f.p, m.c) + n.r }

  lemma AcceptedState(f: Filter, initP: M2, m: Measurement, wrap: real -> real)
    requires PositiveDefinite(initP) && PositiveDefinite(f.p) && Usable(m)
    ensures var n := AttemptNoise(f, initP, m, m.r, wrap);
      && Spread(f, m, n) > 0.0
      && (!Refuses(f, initP, m, wrap) ==>
            Update(f, initP, m, m.r, wrap).0.x == Plus(f.x, Scale(Gain(f.p, m.c, Spread(f, m, n)), n.innovation)))
      && (Refuses(f, initP, m, wrap) ==> Update(f, initP, m, m.r, wrap).0.x == f.x)
  {
    VarianceNonNegative(f.p, m.c);
    UpdateIsTry(f, initP, m, m.r, wrap);
    NoNumericsError(f, initP, m, m.r, wrap);
  }

  lemma MoveReal(x: real, k: real, u: real, s: real, i: real)
    requires s > 0.0 && k == u / s
    ensures ((x + k * i) - x) * s == i * u
  {
    assert k * s == u;
    assert k * i * s == (k * s) * i;
  }

  lemma MoveOf(x: V2, p: M2, c: V2, s: real, i: real, g: V2)
    requires s > 0.0 && g == Plus(x, Scale(Gain(p, c, s), i))
    ensures Scale(Minus(g, x), s) == Scale(Along(p, c), i)
  {
    var j, along := Gain(p, c, s), Along(p, c);
    MoveReal(x.x, j.x, along.x, s, i);
    MoveReal(x.y, j.y, along.y, s, i);
  }

  /**
   * An accepted measurement moves the state along its covariance with the measurement, by the
   * innovation over the predicted variance; a refused one does not move it.
   */
  lemma StateMoves(f: Filter, initP: M2, m: Measurement, wrap: real -> real)
    requires PositiveDefinite(initP) && PositiveDefinite(f.p) && Usable(m)
    ensures var n := AttemptNoise(f, initP, m, m.r, wrap); var moved := Minus(Update(f, initP, m, m.r, wrap).0.x, f.x);
      if Refuses(f, initP, m, wrap) then moved == V2(0.0, 0.0)
      else Scale(moved, Spread(f, m, n)) == Scale(Along(f.p, m.c), n.innovation)
  {
    AcceptedState(f, initP, m, wrap);
    var n, g := AttemptNoise(f, initP, m, m.r, wrap), Update(f, initP, m, m.r, wrap).0.x;
    if !Refuses(f, initP, m, wrap) { MoveOf(f.x, f.p, m.c, Spread(f, m, n), n.innovation, g); }
  }

  lemma ResidualOf(x: V2, p: M2, c: V2, r: real, i: real, g: V2)
    requires PositiveDefinite(p) && r > 0.0 && Quadratic(p, c) + r > 0.0
    requires g == Plus(x, Scale(Gain(p, c, Quadratic(p, c) + r), i))
    ensures i - Dot(c, Minus(g, x)) == Residual(i, Quadratic(p, c), r)
  {
    var j := Gain(p, c, Quadratic(p, c) + r);
    UpdateMeetsPrediction(p, c, r, i);
    MovedDot(x, j, c, i);
  }

  lemma MovedDot(x: V2, j: V2, c: V2, i: real)
    ensures Dot(c, Minus(Plus(x, Scale(j, i)), x)) == c.x * (j.x * i) + c.y * (j.y * i)
  {
    assert (x.x + j.x * i) - x.x == j.x * i && (x.y + j.y * i) - x.y == j.y * i;
  }

  /** What an accepted measurement leaves of its innovation at the new state is the residual. */
  lemma StateLeavesResidual(f: Filter, initP: M2, m: Measurement, wrap: real -> real)
    requires PositiveDefinite(initP) && PositiveDefinite(f.p) && Usable(m) && !Refuses(f, initP, m, wrap)
    ensures var n := AttemptNoise(f, initP, m, m.r, wrap); var moved := Minus(Update(f, initP, m, m.r, wrap).0.x, f.x);
      && Spread(f, m, n) > 0.0
      && n.innovation - Dot(m.c, moved) == Residual(n.innovation, Quadratic(f.p, m.c), n.r)
  {
    AcceptedState(f, initP, m, wrap);
    var n, g := AttemptNoise(f, initP, m, m.r, wrap), Update(f, initP, m, m.r, wrap).0.x;
    ResidualOf(f.x, f.p, m.c, n.r, n.innovation, g);
  }

  /**
   * The dead zone at the new state. Outside the zone, what is left of the innovation is at least eps,
   * so the update does not jump past the edge; inside, the state does not move and the predicted
   * variance stays at least 4 eps^2: each exactly when the edge is respected.
   */
  lemma ZoneAtNewState(f: Filter, initP: M2, m: Measurement, wrap: real -> real)
    requires PositiveDefinite(initP) && PositiveDefinite(f.p) && Usable(m) && !Refuses(f, initP, m, wrap)
    requires ZoneActive(MeasurementNoise(f.p, m, m.r), Quadratic(f.p, m.c), m.deadzone)
    ensures var i, r, cpc := Innovation(m, wrap), MeasurementNoise(f.p, m, m.r), Quadratic(f.p, m.c);
      var g := Update(f, initP, m, m.r, wrap).0;
      if Abs(i) > m.deadzone then
        Abs(i - Dot(m.c, Minus(g.x, f.x))) >= m.deadzone <==> EdgeRespected(r, i, cpc, m.deadzone)
      else
        && g.x == f.x
        && (StaysWide(Quadratic(g.p, m.c), m.deadzone) <==> EdgeRespected(r, i, cpc, m.deadzone))
  {
    if Abs(Innovation(m, wrap)) > m.deadzone {
      OutsideAtNewState(f, initP, m, wrap);
    } else {
      InsideAtNewState(f, initP, m, wrap);
    }
  }

  /** The predicted variance is at least that of the whole zone. */
  predicate StaysWide(variance: real, eps: real) { variance >= 4.0 * (eps * eps) }

  /** The noise of an attempt is that of the dead zone, from the covariance itself. */
  lemma AttemptIsDeadzone(f: Filter, initP: M2, m: Measurement, wrap: real -> real)
    requires PositiveDefinite(f.p) && Usable(m)
    ensures AttemptNoise(f, initP, m, m.r, wrap) ==
      Deadzone(MeasurementNoise(f.p, m, m.r), Innovation(m, wrap), Quadratic(f.p, m.c), m.deadzone)
  {
    VarianceNonNegative(f.p, m.c);
  }

  lemma OutsideAtNewState(f: Filter, initP: M2, m: Measurement, wrap: real -> real)
    requires PositiveDefinite(initP) && PositiveDefinite(f.p) && Usable(m) && !Refuses(f, initP, m, wrap)
    requires ZoneActive(MeasurementNoise(f.p, m, m.r), Quadratic(f.p, m.c), m.deadzone) && Abs(Innovation(m, wrap)) > m.deadzone
    ensures var i, r, cpc := Innovation(m, wrap), MeasurementNoise(f.p, m, m.r), Quadratic(f.p, m.c);
      var moved := Minus(Update(f, initP, m, m.r, wrap).0.x, f.x);
      Abs(i - Dot(m.c, moved)) >= m.deadzone <==> EdgeRespected(r, i, cpc, m.deadzone)
  {
    AttemptIsDeadzone(f, initP, m, wrap);
    StateLeavesResidual(f, initP, m, wrap);
    OutsideZoneBound(MeasurementNoise(f.p, m, m.r), Innovation(m, wrap), Quadratic(f.p, m.c), m.deadzone);
  }

  lemma InsideAtNewState(f: Filter, initP: M2, m: Measurement, wrap: real -> real)
    requires PositiveDefinite(initP) && PositiveDefinite(f.p) && Usable(m) && !Refuses(f, initP, m, wrap)
    requires ZoneActive(MeasurementNoise(f.p, m, m.r), Quadratic(f.p, m.c), m.deadzone) && Abs(Innovation(m, wrap)) <= m.deadzone
    ensures var i, r, cpc := Innovation(m, wrap), MeasurementNoise(f.p, m, m.r), Quadratic(f.p, m.c);
      var g := Update(f, initP, m, m.r, wrap).0;
      && g.x == f.x
      && (StaysWide(Quadratic(g.p, m.c), m.deadzone) <==> EdgeRespected(r, i, cpc, m.deadzone))
  {
    StaysInside(f, initP, m, wrap);
    VarianceInside(f, initP, m, wrap);
  }

  lemma VarianceInside(f: Filter, initP: M2, m: Measurement, wrap: real -> real)
    requires PositiveDefinite(initP) && PositiveDefinite(f.p) && Usable(m) && !Refuses(f, initP, m, wrap)
    requires ZoneActive(MeasurementNoise(f.p, m, m.r), Quadratic(f.p, m.c), m.deadzone) && Abs(Innovation(m, wrap)) <= m.deadzone
    ensures StaysWide(Quadratic(Update(f, initP, m, m.r, wrap).0.p, m.c), m.deadzone)
      <==> EdgeRespected(MeasurementNoise(f.p, m, m.r), Innovation(m, wrap), Quadratic(f.p, m.c), m.deadzone)
  {
    var r, i, cpc := MeasurementNoise(f.p, m, m.r), Innovation(m, wrap), Quadratic(f.p, m.c);
    AttemptIsDeadzone(f, initP, m, wrap);
    InsideVariance(f, initP, m, wrap);
    InsideVarianceBound(r, i, cpc, m.deadzone, Quadratic(Update(f, initP, m, m.r, wrap).0.p, m.c));
  }

  lemma InsideVarianceBound(r: real, i: real, cpc: real, eps: real, after: real)
    requires ZoneActive(r, cpc, eps) && Abs(i) <= eps && cpc + Deadzone(r, i, cpc, eps).r > 0.0
    requires after == PosteriorVariance(cpc, Deadzone(r, i, cpc, eps).r)
    ensures StaysWide(after, eps) <==> EdgeRespected(r, i, cpc, eps)
  {
    InsideZoneBound(r, i, cpc, eps);
  }

  lemma StaysInside(f: Filter, initP: M2, m: Measurement, wrap: real -> real)
    requires PositiveDefinite(initP) && PositiveDefinite(f.p) && Usable(m) && !Refuses(f, initP, m, wrap)
    requires ZoneActive(MeasurementNoise(f.p, m, m.r), Quadratic(f.p, m.c), m.deadzone) && Abs(Innovation(m, wrap)) <= m.deadzone
    ensures Update(f, initP, m, m.r, wrap).0.x == f.x
  {
    AttemptIsDeadzone(f, initP, m, wrap);
    AcceptedState(f, initP, m, wrap);
    var n := AttemptNoise(f, initP, m, m.r, wrap);
    NoMove(f.x, Gain(f.p, m.c, Spread(f, m, n)));
  }

  lemma NoMove(x: V2, j: V2)
    ensures Plus(x, Scale(j, 0.0)) == x
  {}

  lemma InsideVariance(f: Filter, initP: M2, m: Measurement, wrap: real -> real)
    requires PositiveDefinite(initP) && PositiveDefinite(f.p) && Usable(m) && !Refuses(f, initP, m, wrap)
    ensures var n := AttemptNoise(f, initP, m, m.r, wrap);
      && Quadratic(f.p, m.c) + n.r > 0.0
      && Quadratic(Update(f, initP, m, m.r, wrap).0.p, m.c) == PosteriorVariance(Quadratic(f.p, m.c), n.r)
  {
    VarianceNonNegative(f.p, m.c);
    UpdateIsTry(f, initP, m, m.r, wrap);
    NoNumericsError(f, initP, m, m.r, wrap);
    UpdateMeetsPrediction(f.p, m.c, AttemptNoise(f, initP, m, m.r, wrap).r, 0.0);
  }

  // ---------------------------------------------------------------- the update as a least-squares fit

  /**
   * How badly a move d of the state fits: against the covariance, and against the innovation with its
   * noise. Both terms are multiplied by the positive noise and determinant.
   */
  function Misfit(p: M2, c: V2, r: real, innovation: real, d: V2): real {
    var left := innovation - Dot(c, d);
    r * Form(p.d, -p.b, p.a, d.x, d.y) + Det(p) * (left * left)
  }

  lemma FormSplits(a: real, b: real, d: real, x: real, y: real, m: real, n: real)
    ensures Form(a, b, d, x + m, y + n) == Form(a, b, d, x, y) + Form(a, b, d, m, n) + 2.0 * (m * (a * x + b * y) + n * (b * x + d * y))
  {
    assert (x + m) * (x + m) == x * x + 2.0 * (x * m) + m * m;
    assert (y + n) * (y + n) == y * y + 2.0 * (y * n) + n * n;
    assert (x + m) * (y + n) == x * y + x * n + m * y + m * n;
  }

  lemma AdjugateReal(a: real, b: real, d: real, x: real, y: real, t: real, det: real, u: real, v: real)
    requires det == a * d - b * b && u == t * (a * x + b * y) && v == t * (b * x + d * y)
    ensures d * u - b * v == t * det * x && -b * u + a * v == t * det * y
  {
    assert d * (a * x + b * y) - b * (b * x + d * y) == det * x;
    assert -b * (a * x + b * y) + a * (b * x + d * y) == det * y;
    assert d * u - b * v == t * (d * (a * x + b * y) - b * (b * x + d * y));
    assert -b * u + a * v == t * (-b * (a * x + b * y) + a * (b * x + d * y));
  }

  /** Moving on by (m, n) from the fitted move adds only what cannot be negative. */
  lemma FitReal(a: real, b: real, d: real, x: real, y: real, r: real, i: real, t: real, u: real, v: real, m: real, n: real, det: real)
    requires det == a * d - b * b && u == t * (a * x + b * y) && v == t * (b * x + d * y) && i - (x * u + y * v) == r * t
    ensures var left, more := i - (x * (u + m) + y * (v + n)), x * m + y * n;
      r * Form(d, -b, a, u + m, v + n) + det * (left * left)
      == r * Form(d, -b, a, u, v) + det * ((r * t) * (r * t)) + r * Form(d, -b, a, m, n) + det * (more * more)
  {
    var left, more := i - (x * (u + m) + y * (v + n)), x * m + y * n;
    FormSplits(d, -b, a, u, v, m, n);
    AdjugateReal(a, b, d, x, y, t, det, u, v);
    assert left == r * t - more;
    var w := m * (d * u - b * v) + n * (-b * u + a * v);
    assert w == t * det * more by { assert w == m * (t * det * x) + n * (t * det * y); }
    SquareOfDifference(r * t, more, left);
    CrossCancels(r, t, det, more, w);
    assert d * u + -b * v == d * u - b * v;
  }

  lemma SquareOfDifference(p: real, q: real, left: real)
    requires left == p - q
    ensures left * left == p * p - 2.0 * (p * q) + q * q
  {}

  lemma CrossCancels(r: real, t: real, det: real, more: real, w: real)
    requires w == t * det * more
    ensures r * (2.0 * w) == det * (2.0 * ((r * t) * more))
  {}

  lemma MoreIsNoLess(r: real, det: real, form: real, more: real)
    requires r > 0.0 && det > 0.0 && form >= 0.0
    ensures r * form + det * (more * more) >= 0.0
  {
    Squares(more);
    assert r * form >= 0.0 && det * (more * more) >= 0.0;
  }

  lemma FittedReal(p: M2, c: V2, r: real, i: real, d: V2, e: V2, t: real)
    requires PositiveDefinite(p) && r > 0.0 && d == Scale(Along(p, c), t) && i - Dot(c, d) == r * t
    ensures Misfit(p, c, r, i, d) <= Misfit(p, c, r, i, Plus(d, e))
  {
    assert p.d * p.a - (-p.b) * (-p.b) == Det(p);
    FormNonNegative(p.d, -p.b, p.a, e.x, e.y);
    MoreIsNoLess(r, Det(p), Form(p.d, -p.b, p.a, e.x, e.y), c.x * e.x + c.y * e.y);
    FitReal(p.a, p.b, p.d, c.x, c.y, r, i, t, d.x, d.y, e.x, e.y, Det(p));
  }

  /**
   * The move that an accepted measurement makes is the best fit: no other move of the state is
   * nearer to both the old state and the measurement, each weighed by its uncertainty.
   */
  lemma UpdateIsBestFit(f: Filter, initP: M2, m: Measurement, wrap: real -> real, other: V2)
    requires PositiveDefinite(initP) && PositiveDefinite(f.p) && Usable(m) && !Refuses(f, initP, m, wrap)
    ensures var n := AttemptNoise(f, initP, m, m.r, wrap); var moved := Minus(Update(f, initP, m, m.r, wrap).0.x, f.x);
      Misfit(f.p, m.c, n.r, n.innovation, moved) <= Misfit(f.p, m.c, n.r, n.innovation, other)
  {
    AcceptedState(f, initP, m, wrap);
    var n, g := AttemptNoise(f, initP, m, m.r, wrap), Update(f, initP, m, m.r, wrap).0.x;
    BestFitOf(f.x, f.p, m.c, n.r, n.innovation, g, other);
  }

  lemma BestFitOf(x: V2, p: M2, c: V2, r: real, i: real, g: V2, other: V2)
    requires PositiveDefinite(p) && r > 0.0 && Quadratic(p, c) + r > 0.0
    requires g == Plus(x, Scale(Gain(p, c, Quadratic(p, c) + r), i))
    ensures Misfit(p, c, r, i, Minus(g, x)) <= Misfit(p, c, r, i, other)
  {
    var s, moved, along := Quadratic(p, c) + r, Minus(g, x), Along(p, c);
    var t := i / s;
    MoveOf(x, p, c, s, i, g);
    ShareOf(moved, along, s, i, t);
    ResidualOf(x, p, c, r, i, g);
    ResidualShare(i, r, s, t);
    FittedReal(p, c, r, i, moved, Minus(other, moved), t);
    Restored(moved, other);
  }

  lemma Restored(u: V2, v: V2)
    ensures Plus(u, Minus(v, u)) == v
  {}

  lemma ShareOf(moved: V2, along: V2, s: real, i: real, t: real)
    requires s > 0.0 && t == i / s && Scale(moved, s) == Scale(along, i)
    ensures moved == Scale(along, t)
  {
    assert moved.x * s == along.x * i && moved.y * s == along.y * i;
    ShareReal(moved.x, along.x, s, i, t);
    ShareReal(moved.y, along.y, s, i, t);
  }

  lemma ShareReal(d: real, u: real, s: real, i: real, t: real)
    requires s > 0.0 && d * s == i * u && t == i / s
    ensures d == u * t
  {
    assert t * s == i;
    assert (u * t) * s == i * u;
    SameFactor(d, u * t, s);
  }

  lemma ResidualShare(i: real, r: real, s: real, t: real)
    requires s > 0.0 && t == i / s
    ensures i * r / s == r * t
  {
    assert t * s == i;
    QuotientUnique(r * t, i * r, s);
  }

  /** q is the noise over the noise and the squared innovation together. */
  predicate IsLikelihood(q: real, n: Noise) { q * (n.r + n.innovation * n.innovation) == n.r }

  /** The model probability is halved by a refusal, otherwise scaled by how likely the innovation was. */
  ghost predicate AlphaLaw(before: real, after: real, refused: bool, m: Measurement, n: Noise) {
    if refused then after == before * 0.5
    else if !m.changeAlpha then after == before
    else exists q :: IsLikelihood(q, n) && after == before * (if m.ambiguous && q < 0.01 then 0.01 else q)
  }

  lemma AlphaCases(before: real, after: real, refused: bool, m: Measurement, n: Noise)
    requires n.r > 0.0 && after == Lowered(before, if refused then 0.5 else AlphaFactor(m, n))
    ensures AlphaLaw(before, after, refused, m, n)
  {
    Squares(n.innovation);
    var q := n.r / (n.r + n.innovation * n.innovation);
    assert IsLikelihood(q, n);
    if !refused && m.changeAlpha {
      var factor := if m.ambiguous && q < 0.01 then 0.01 else q;
      assert AlphaFactor(m, n) == factor;
      assert after == before * factor;
    }
  }

  lemma AcceptedAlpha(f: Filter, initP: M2, m: Measurement, wrap: real -> real)
    requires PositiveDefinite(initP) && PositiveDefinite(f.p) && Usable(m)
    ensures var n := AttemptNoise(f, initP, m, m.r, wrap);
      Update(f, initP, m, m.r, wrap).0.alpha == Lowered(f.alpha, if Refuses(f, initP, m, wrap) then 0.5 else AlphaFactor(m, n))
  {
    VarianceNonNegative(f.p, m.c);
    UpdateIsTry(f, initP, m, m.r, wrap);
    NoNumericsError(f, initP, m, m.r, wrap);
  }

  /** Every update obeys the law of the model probability. */
  lemma AlphaMoves(f: Filter, initP: M2, m: Measurement, wrap: real -> real)
    requires PositiveDefinite(initP) && PositiveDefinite(f.p) && Usable(m)
    ensures AlphaLaw(f.alpha, Update(f, initP, m, m.r, wrap).0.alpha, Refuses(f, initP, m, wrap), m,
                     AttemptNoise(f, initP, m, m.r, wrap))
  {
    AcceptedAlpha(f, initP, m, wrap);
    AlphaCases(f.alpha, Update(f, initP, m, m.r, wrap).0.alpha, Refuses(f, initP, m, wrap), m,
               AttemptNoise(f, initP, m, m.r, wrap));
  }

  // ---------------------------------------------------------------- the filter object

  class KF {
    var x: V2
    var p: M2
    var xchange: V2
    var alpha: real
    const initP: M2
    const wrap: real -> real

    constructor (uncertainty: M2, states: V2, wrap: real -> real)
      requires PositiveDefinite(uncertainty)
      ensures initP == uncertainty && this.wrap == wrap && Contents() == Filter(states, uncertainty, V2(0.0, 0.0), 1.0)
    {
      initP, p, x, xchange, alpha := uncertainty, uncertainty, states, V2(0.0, 0.0), 1.0;
      this.wrap := wrap;
    }

    function Contents(): Filter reads this { Filter(x, p, xchange, alpha) }

    /** The update as the code runs it; terminates after at most one reset. */
    method MeasurementUpdate(m: Measurement, r: real) returns (outcome: Outcome)
      requires PositiveDefinite(initP) && r > 0.0 && Usable(m)
      modifies this
      ensures (Contents(), outcome) == Update(old(Contents()), initP, m, r, wrap)
      decreases if PositiveDefinite(p) then 0 else 1
    {
      ghost var was := Contents();
      var posVar := Quadratic(p, m.c);
      var innovation := if m.angleUpdate then wrap(m.y - m.ybar) else m.y - m.ybar;
      var noise := MeasurementNoise(p, m, r);
      xchange := Minus(xchange, x);
      if posVar < 0.0 {
        p := initP;
        posVar := Quadratic(p, m.c);
      }
      PriorVariance(was.p, initP, m.c);
      var n := Deadzone(noise, innovation, posVar, m.deadzone);
      assert n == AttemptNoise(was, initP, m, r, wrap);
      var retry;
      outcome, retry := Finish(m, n);
      if retry {
        if PositiveDefinite(was.p) { NoNumericsError(was, initP, m, r, wrap); }
        outcome := MeasurementUpdate(m, n.r);
      }
    }

    method Finish(m: Measurement, n: Noise) returns (outcome: Outcome, retry: bool)
      requires n.r > 0.0 && Quadratic(p, m.c) >= 0.0
      modifies this
      ensures var a := Correct(old(Contents()), initP, m, n);
        && Contents() == a.filter && retry == a.Numerics?
        && outcome == match a { case Refused(_, o) => o case Accepted(_) => Success case Numerics(_, _) => Rejected }
    {
      var variance := Quadratic(p, m.c) + n.r;
      if m.ignoreLongRange && LongRange(n, variance) {
        alpha := Lowered(alpha, 0.5);
        return Success, false;
      }
      if m.rejectOutliers && Outlying(m, n, variance) {
        alpha := Lowered(alpha, 0.5);
        return Outlier, false;
      }
      alpha := Lowered(alpha, AlphaFactor(m, n));
      var j := Gain(p, m.c, variance);
      var newP := Updated(p, j, m.c);
      if NumericsError(newP) {
        p := initP;
        return Rejected, true;
      }
      x := Plus(x, Scale(j, n.innovation));
      p := newP;
      xchange := Plus(xchange, x);
      return Success, false;
    }
  }
}
