/** Slowing down for the curves of the plan ahead. */
module SlowForCurves {
  import opened WayPoints

  datatype Polygon = Polygon(length: real, heading: real)

  datatype Config = Config(
    minSpeed: real,          // min_speed_for_curves
    minCurveLength: real,
    maxYawRate: real,
    maxDeceleration: real,
    lookahead: real,
    sharpSpeed: real,        // max_speed_for_sharp
    headingRatio: real)      // heading_change_ratio

  const PI := 3.14159265358979

  function Abs(x: real): real { if x < 0.0 then -x else x }

  // ---------------------------------------------------------------- headings

  ghost predicate SameHeading(a: real, b: real, turns: int) { a == b + 2.0 * PI * turns as real }

  /** The equivalent heading in (-PI, PI]. */
  method Normalize(heading: real) returns (h: real)
    ensures -PI < h <= PI
    ensures exists turns :: SameHeading(h, heading, turns)
    ensures h == Normalized(heading)
  {
    h := heading;
    ghost var turns := 0;
    while h > PI
      invariant SameHeading(h, heading, turns) && Normalized(h) == Normalized(heading)
      invariant h > -PI || h == heading
      decreases h
    {
      h, turns := h - 2.0 * PI, turns - 1;
    }
    while h <= -PI
      invariant SameHeading(h, heading, turns) && Normalized(h) == Normalized(heading) && h <= PI
      decreases -h
    {
      h, turns := h + 2.0 * PI, turns + 1;
    }
    assert SameHeading(h, heading, turns);
  }

  function Normalized(heading: real): (h: real)
    ensures -PI < h <= PI
    decreases if -PI < heading <= PI then 0.0 else Abs(heading)
  {
    if heading > PI then Normalized(heading - 2.0 * PI)
    else if heading <= -PI then Normalized(heading + 2.0 * PI)
    else heading
  }

  // ---------------------------------------------------------------- the look-ahead

  /** A square root as the mathematical library promises it. */
  ghost predicate IsSqrt(sqrt: real -> real) {
    forall x :: x >= 0.0 ==> sqrt(x) >= 0.0 && sqrt(x) * sqrt(x) == x
  }

  ghost predicate Sane(c: Config, polys: seq<Polygon>) {
    && c.minSpeed >= 0.0 && c.maxDeceleration >= 0.0
    && forall i :: 0 <= i < |polys| ==> polys[i].length >= 0.0
  }

  /** Between the middles of polygons i and i+1. */
  function Step(polys: seq<Polygon>, i: nat): real
    requires i + 1 < |polys|
  {
    (polys[i].length + polys[i + 1].length) / 2.0
  }

  /** Sum of the steps first..last. */
  function Span(polys: seq<Polygon>, first: nat, last: nat): real
    requires first <= last < |polys|
    decreases last
  {
    if first == last then 0.0 else Span(polys, first, last - 1) + Step(polys, last - 1)
  }

  lemma {:induction false} SpanNonNegative(c: Config, polys: seq<Polygon>, first: nat, last: nat)
    requires Sane(c, polys) && first <= last < |polys|
    ensures Span(polys, first, last) >= 0.0
    decreases last
  {
    if last > first { SpanNonNegative(c, polys, first, last - 1); }
  }

  /** The curve that begins at b ends at the first polygon minCurveLength further on, or at stop. */
  ghost predicate CurveEnds(c: Config, polys: seq<Polygon>, b: nat, stop: nat, end: nat)
    requires b <= stop < |polys|
  {
    && b <= end <= stop
    && (end < stop ==> Span(polys, b, end) >= c.minCurveLength)
    && forall e :: b <= e < end ==> Span(polys, b, e) < c.minCurveLength
  }

  lemma CurveEndUnique(c: Config, polys: seq<Polygon>, b: nat, stop: nat, e: nat, e': nat)
    requires b <= stop < |polys| && CurveEnds(c, polys, b, stop, e) && CurveEnds(c, polys, b, stop, e')
    ensures e == e'
  {
    // the smaller end would be both long enough and too short
  }

  function CurveEnd(c: Config, polys: seq<Polygon>, b: nat, stop: nat, end: nat): (e: nat)
    requires b <= end <= stop < |polys|
    requires forall e :: b <= e < end ==> Span(polys, b, e) < c.minCurveLength
    ensures CurveEnds(c, polys, b, stop, e)
    decreases stop - end
  {
    if end < stop && Span(polys, b, end) < c.minCurveLength then CurveEnd(c, polys, b, stop, end + 1) else end
  }

  /** Change of heading over the curve that begins at b. */
  function Turn(c: Config, polys: seq<Polygon>, b: nat, stop: nat): real
    requires b <= stop < |polys|
  {
    Normalized(polys[CurveEnd(c, polys, b, stop, b)].heading - polys[b].heading)
  }

  /** Squared speed allowed here by the curve that begins at b, reached after braking. */
  function Allowance(c: Config, polys: seq<Polygon>, start: nat, b: nat, stop: nat): real
    requires start <= b < stop < |polys| && !NearZero(Turn(c, polys, b, stop))
  {
    Braking(c, Turn(c, polys, b, stop), Span(polys, start, b + 1))
  }

  /** A curve's own speed limit. */
  function HeadingSpeed(c: Config, turn: real): real
    requires !NearZero(turn)
  {
    Max(c.sharpSpeed, Abs(c.headingRatio * (c.maxYawRate / turn)))
  }

  /**
   * What a curve's limit means: never below the sharp speed, and above it just the speed at which the
   * turn takes up the yaw rate; so a sharper turn allows no higher speed.
   */
  lemma HeadingSpeedMeaning(c: Config, turn: real, sharper: real)
    requires !NearZero(turn) && !NearZero(sharper) && Abs(turn) <= Abs(sharper)
    ensures var v := HeadingSpeed(c, turn); var k := Abs(c.headingRatio * c.maxYawRate);
      v >= c.sharpSpeed && v * Abs(turn) >= k && (v > c.sharpSpeed ==> v * Abs(turn) == k)
    ensures HeadingSpeed(c, sharper) <= HeadingSpeed(c, turn)
  {
    LimitOf(c, turn);
    LimitFalls(c, turn, sharper);
  }

  /** The speed at which a turn takes up the yaw rate. */
  function TurnSpeed(c: Config, turn: real): real requires turn != 0.0 { Abs(c.headingRatio * (c.maxYawRate / turn)) }

  lemma LimitOf(c: Config, turn: real)
    requires !NearZero(turn)
    ensures var v := HeadingSpeed(c, turn); var k := Abs(c.headingRatio * c.maxYawRate);
      v >= c.sharpSpeed && v * Abs(turn) >= k && (v > c.sharpSpeed ==> v * Abs(turn) == k)
  {
    RateOverTurn(c.headingRatio, c.maxYawRate, turn, Abs(c.headingRatio * c.maxYawRate), TurnSpeed(c, turn));
    FlooredLimit(c.sharpSpeed, TurnSpeed(c, turn), Abs(turn), Abs(c.headingRatio * c.maxYawRate));
  }

  lemma FlooredLimit(floor: real, q: real, a: real, k: real)
    requires a >= 0.0 && q * a == k
    ensures var v := Max(floor, q); v >= floor && v * a >= k && (v > floor ==> v * a == k)
  {
    if q < floor { Scaled(q, floor, a); }
  }

  lemma LimitFalls(c: Config, turn: real, sharper: real)
    requires !NearZero(turn) && !NearZero(sharper) && Abs(turn) <= Abs(sharper)
    ensures HeadingSpeed(c, sharper) <= HeadingSpeed(c, turn)
  {
    var k := Abs(c.headingRatio * c.maxYawRate);
    RateOverTurn(c.headingRatio, c.maxYawRate, turn, k, TurnSpeed(c, turn));
    RateOverTurn(c.headingRatio, c.maxYawRate, sharper, k, TurnSpeed(c, sharper));
    LessOverMore(TurnSpeed(c, turn), TurnSpeed(c, sharper), Abs(turn), Abs(sharper));
  }

  lemma RateOverTurn(ratio: real, rate: real, turn: real, k: real, q: real)
    requires turn != 0.0 && k == Abs(ratio * rate) && q == Abs(ratio * (rate / turn))
    ensures q * Abs(turn) == k && q >= 0.0
  {
    var x := rate / turn;
    assert x * turn == rate;
    var y := ratio * x;
    assert y * turn == ratio * rate by { assert y * turn == ratio * (x * turn); }
    AbsProduct(y, turn);
  }

  lemma AbsProduct(x: real, y: real)
    ensures Abs(x) * Abs(y) == Abs(x * y)
  {
    if x >= 0.0 && y >= 0.0 { assert x * y >= 0.0; }
    if x >= 0.0 && y < 0.0 { assert x * -y >= 0.0; assert x * y == -(x * -y); }
    if x < 0.0 && y >= 0.0 { assert -x * y >= 0.0; assert x * y == -(-x * y); }
    if x < 0.0 && y < 0.0 { assert -x * -y >= 0.0; assert x * y == -x * -y; }
  }

  lemma LessOverMore(q: real, q': real, a: real, b: real)
    requires q >= 0.0 && q' >= 0.0 && 0.0 < a <= b && q * a == q' * b
    ensures q' <= q
  {
    if q' > q {
      Scaled(q, q', a);
      Scaled(a, b, q');
    }
  }

  lemma Scaled(x: real, y: real, z: real)
    requires x <= y && z >= 0.0
    ensures x * z <= y * z && z * x <= z * y
    ensures x < y && z > 0.0 ==> x * z < y * z
  {
    var d := y - x;
    assert d * z >= 0.0 && (d > 0.0 && z > 0.0 ==> d * z > 0.0);
    assert y * z == x * z + d * z;
  }

  /** Speed u can slow down in time for every curve that begins in start..b. */
  ghost predicate SafeBefore(c: Config, polys: seq<Polygon>, start: nat, b: nat, stop: nat, u: real)
    requires start <= b <= stop < |polys|
  {
    forall i :: start <= i < b && !NearZero(Turn(c, polys, i, stop)) ==>
      u * u <= Allowance(c, polys, start, i, stop)
  }

  // ---------------------------------------------------------------- kinematics

  function SlowDown(sqrt: real -> real, finalSpeed: real, distance: real, max: real, deceleration: real): real {
    var vf2 := finalSpeed * finalSpeed;
    var tax := 2.0 * (-deceleration) * distance;
    if tax > vf2 then 0.0 else Min(max, sqrt(vf2 - tax))
  }

  function ChangeInHeading(c: Config, turn: real, max: real): real {
    if NearZero(turn) then max
    else Min(max, HeadingSpeed(c, turn))
  }

  lemma SquareMonotone(u: real, v: real)
    requires u >= 0.0 && v >= 0.0
    ensures u <= v <==> u * u <= v * v
  {
    if u <= v {
      assert u * u <= u * v <= v * v;
    } else {
      var p, q := u - v, u + v;
      assert p * q > 0.0;
      assert p * q == u * u - v * v;
    }
  }

  /** The speed that brakes to f over a distance is at least f, and is the root of the allowance. */
  lemma SlowDownMeaning(sqrt: real -> real, f: real, d: real, max: real, a: real, u: real)
    requires IsSqrt(sqrt) && f >= 0.0 && d >= 0.0 && a >= 0.0 && max >= 0.0 && u >= 0.0
    ensures SlowDown(sqrt, f, d, max, a) >= 0.0
    ensures u <= SlowDown(sqrt, f, d, max, a) <==> u <= max && u * u <= f * f + 2.0 * a * d
    ensures u <= f ==> u * u <= f * f + 2.0 * a * d
  {
    var ad := a * d;
    assert ad >= 0.0 && f * f >= 0.0;
    assert 2.0 * (-a) * d == -2.0 * ad && 2.0 * a * d == 2.0 * ad;
    var x := f * f + 2.0 * ad;
    assert f * f - 2.0 * (-a) * d == x;
    SquareMonotone(u, sqrt(x));
    SquareMonotone(u, f);
  }

  /** Squared speed from which braking over d meets the limit raw, floored. */
  function BrakeTo(floor: real, raw: real, d: real, a: real): real {
    Max(floor, raw) * Max(floor, raw) + 2.0 * a * d
  }

  /** A limit above the running maximum has no effect, before braking and after it. */
  lemma RunningMaximum(sqrt: real -> real, floor: real, raw: real, d: real, m: real, a: real, u: real)
    requires IsSqrt(sqrt) && floor >= 0.0 && d >= 0.0 && a >= 0.0 && m >= 0.0 && u >= 0.0
    ensures SlowDown(sqrt, Max(floor, Min(m, raw)), d, m, a) >= 0.0
    ensures u <= SlowDown(sqrt, Max(floor, Min(m, raw)), d, m, a) <==> u <= m && u * u <= BrakeTo(floor, raw, d, a)
  {
    var f, g := Max(floor, Min(m, raw)), Max(floor, raw);
    SlowDownMeaning(sqrt, f, d, m, a, u);
    SlowDownMeaning(sqrt, g, d, m, a, u);
    SameLimit(f, g, m, u, BrakeTo(floor, raw, d, a), f * f + 2.0 * a * d);
  }

  /** Two limits that are equal, or both above the maximum, allow the same speeds below it. */
  lemma SameLimit(f: real, g: real, m: real, u: real, square: real, square': real)
    requires (f == g && square == square') || (m <= f && m <= g)
    requires (u <= f ==> u * u <= square') && (u <= g ==> u * u <= square)
    ensures (u <= m && u * u <= square) <==> (u <= m && u * u <= square')
  {}

  lemma NoLimit(sqrt: real -> real, floor: real, d: real, m: real, a: real, u: real)
    requires IsSqrt(sqrt) && floor >= 0.0 && d >= 0.0 && a >= 0.0 && m >= 0.0 && u >= 0.0
    ensures SlowDown(sqrt, Max(floor, m), d, m, a) >= 0.0
    ensures u <= SlowDown(sqrt, Max(floor, m), d, m, a) <==> u <= m
  {
    SlowDownMeaning(sqrt, Max(floor, m), d, m, a, u);
  }

  /** The speed allowed now by one round of the loop, which feeds its running maximum into both limits. */
  function MaxNow(sqrt: real -> real, c: Config, turn: real, d: real, m: real): real {
    SlowDown(sqrt, Max(c.minSpeed, ChangeInHeading(c, turn, m)), d, m, c.maxDeceleration)
  }

  /** Squared speed from which braking over d meets the limit of a turn. */
  function Braking(c: Config, turn: real, d: real): real
    requires !NearZero(turn)
  {
    BrakeTo(c.minSpeed, HeadingSpeed(c, turn), d, c.maxDeceleration)
  }

  lemma RealCurve(sqrt: real -> real, c: Config, turn: real, d: real, m: real, u: real)
    requires IsSqrt(sqrt) && c.minSpeed >= 0.0 && c.maxDeceleration >= 0.0 && d >= 0.0 && m >= 0.0 && u >= 0.0
    requires !NearZero(turn)
    ensures MaxNow(sqrt, c, turn, d, m) >= 0.0
    ensures u <= MaxNow(sqrt, c, turn, d, m) <==> u <= m && u * u <= Braking(c, turn, d)
  {
    RunningMaximum(sqrt, c.minSpeed, HeadingSpeed(c, turn), d, m, c.maxDeceleration, u);
  }

  /**
   * One round of the loop. Although the running maximum is fed into both limits, the speeds it
   * leaves are those that were left before and that this curve alone allows.
   */
  lemma RoundMeaning(sqrt: real -> real, c: Config, turn: real, d: real, m: real, u: real)
    requires IsSqrt(sqrt) && c.minSpeed >= 0.0 && c.maxDeceleration >= 0.0 && d >= 0.0 && m >= 0.0 && u >= 0.0
    ensures MaxNow(sqrt, c, turn, d, m) >= 0.0
    ensures u <= MaxNow(sqrt, c, turn, d, m) <==> u <= m && (!NearZero(turn) ==> u * u <= Braking(c, turn, d))
  {
    if NearZero(turn) {
      NoLimit(sqrt, c.minSpeed, d, m, c.maxDeceleration, u);
    } else {
      RealCurve(sqrt, c, turn, d, m, u);
    }
  }

  // ---------------------------------------------------------------- the controller

  /** The end of the curve at b, and its change of heading. */
  method FindCurve(c: Config, polys: seq<Polygon>, b: nat, stop: nat) returns (turn: real)
    requires b <= stop < |polys|
    ensures turn == Turn(c, polys, b, stop)
  {
    var length, end := 0.0, b;
    while end < stop && length < c.minCurveLength
      invariant b <= end <= stop && length == Span(polys, b, end)
      invariant forall e :: b <= e < end ==> Span(polys, b, e) < c.minCurveLength
    {
      length := length + (polys[end].length + polys[end + 1].length) / 2.0;
      end := end + 1;
    }
    CurveEndUnique(c, polys, b, stop, end, CurveEnd(c, polys, b, stop, b));
    turn := Normalize(polys[end].heading - polys[b].heading);
  }

  predicate Bogus(polys: seq<Polygon>, start: int, stop: int) {
    start < 0 || start >= |polys| || stop < 0 || stop >= |polys| || start >= stop
  }

  ghost predicate Permitted(c: Config, polys: seq<Polygon>, start: nat, b: nat, stop: nat, u: real)
    requires start <= b <= stop < |polys|
  {
    u <= 100.0 && SafeBefore(c, polys, start, b, stop, u)
  }

  /** m is the greatest speed permitted by the curves before b. */
  ghost predicate Greatest(c: Config, polys: seq<Polygon>, start: nat, b: nat, stop: nat, m: real)
    requires start <= b <= stop < |polys|
  {
    m >= 0.0 && forall u :: u >= 0.0 ==> (u <= m <==> Permitted(c, polys, start, b, stop, u))
  }

  lemma NextCurve(sqrt: real -> real, c: Config, polys: seq<Polygon>, start: nat, b: nat, stop: nat, m: real, now: real)
    requires IsSqrt(sqrt) && Sane(c, polys) && start <= b < stop < |polys|
    requires Greatest(c, polys, start, b, stop, m)
    requires now == MaxNow(sqrt, c, Turn(c, polys, b, stop), Span(polys, start, b + 1), m)
    ensures Greatest(c, polys, start, b + 1, stop, Min(m, now))
  {
    var turn, d := Turn(c, polys, b, stop), Span(polys, start, b + 1);
    SpanNonNegative(c, polys, start, b + 1);
    RoundMeaning(sqrt, c, turn, d, m, 0.0);
    var next := b + 1;
    forall u | u >= 0.0
      ensures Permitted(c, polys, start, next, stop, u) <==> u <= Min(m, now)
    {
      RoundMeaning(sqrt, c, turn, d, m, u);
      OneMore(c, polys, start, b, stop, u);
    }
  }

  lemma OneMore(c: Config, polys: seq<Polygon>, start: nat, b: nat, stop: nat, u: real)
    requires start <= b < stop < |polys|
    ensures Permitted(c, polys, start, b + 1, stop, u) <==>
      && Permitted(c, polys, start, b, stop, u)
      && (!NearZero(Turn(c, polys, b, stop)) ==> u * u <= Allowance(c, polys, start, b, stop))
  {
  }

  lemma GreatestShrinks(c: Config, polys: seq<Polygon>, start: nat, b: nat, stop: nat, m: real, m': real)
    requires start <= b <= stop < |polys|
    requires Greatest(c, polys, start, b, stop, m) && Greatest(c, polys, start, stop, stop, m')
    ensures m' <= m
  {
    assert Permitted(c, polys, start, stop, stop, m');
    assert Permitted(c, polys, start, b, stop, m');
  }

  /**
   * The greatest speed from which every curve ahead can still be met, capped by 100 and by the
   * requested speed; 0 if it is nearly 0, and -1 for bogus indices.
   */
  method MaxSafeSpeed(sqrt: real -> real, c: Config, polys: seq<Polygon>, start: int, stop: int, max: real)
    returns (v: real, ghost safe: real)
    requires IsSqrt(sqrt) && Sane(c, polys)
    ensures Bogus(polys, start, stop) ==> v == -1.0
    ensures !Bogus(polys, start, stop) ==>
      Greatest(c, polys, start, stop, stop, safe) && v == if NearZero(safe) then 0.0 else Min(safe, max)
  {
    if Bogus(polys, start, stop) { return -1.0, 0.0; }
    var distance, maxSpeed: real := 0.0, 100.0;
    for b := start to stop
      invariant distance == Span(polys, start, b)
      invariant Greatest(c, polys, start, b, stop, maxSpeed) && !NearZero(maxSpeed)
    {
      distance := distance + (polys[b].length + polys[b + 1].length) / 2.0;
      var turn := FindCurve(c, polys, b, stop);
      var maxThen := Max(c.minSpeed, ChangeInHeading(c, turn, maxSpeed));
      var maxNow := SlowDown(sqrt, maxThen, distance, maxSpeed, c.maxDeceleration);
      assert maxNow == MaxNow(sqrt, c, turn, distance, maxSpeed);
      NextCurve(sqrt, c, polys, start, b, stop, maxSpeed, maxNow);
      maxSpeed := Min(maxSpeed, maxNow);
      if NearZero(maxSpeed) {
        safe := SomeGreatest(sqrt, c, polys, start, b + 1, stop, maxSpeed);
        GreatestShrinks(c, polys, start, b + 1, stop, maxSpeed, safe);
        return 0.0, safe;
      }
    }
    return Min(maxSpeed, max), maxSpeed;
  }

  /** The greatest speed exists: the remaining curves lower it step by step. */
  ghost function SomeGreatest(sqrt: real -> real, c: Config, polys: seq<Polygon>, start: nat, b: nat, stop: nat, m: real): (g: real)
    requires IsSqrt(sqrt) && Sane(c, polys) && start <= b <= stop < |polys| && Greatest(c, polys, start, b, stop, m)
    ensures Greatest(c, polys, start, stop, stop, g)
    decreases stop - b
  {
    if b == stop then m
    else
      var now := MaxNow(sqrt, c, Turn(c, polys, b, stop), Span(polys, start, b + 1), m);
      NextCurve(sqrt, c, polys, start, b, stop, m, now);
      SomeGreatest(sqrt, c, polys, start, b + 1, stop, Min(m, now))
  }

  /** Total length of the polygons first..last, both counted. */
  function Length(polys: seq<Polygon>, first: nat, last: nat): real
    requires first <= last < |polys|
    decreases last
  {
    polys[last].length + if first == last then 0.0 else Length(polys, first, last - 1)
  }

  /** r is the first polygon whose far end lies a distance ahead of start, or the last one. */
  ghost predicate Downstream(polys: seq<Polygon>, start: int, distance: real, r: int) {
    if start < 0 || start >= |polys| then r == -1
    else if distance <= 0.0 then r == start
    else
      && start <= r < |polys|
      && (forall i :: start <= i < r ==> Length(polys, start, i) < distance)
      && (r == |polys| - 1 || Length(polys, start, r) >= distance)
  }

  method IndexOfDownstreamPoly(polys: seq<Polygon>, start: int, distance: real) returns (r: int)
    ensures Downstream(polys, start, distance, r)
  {
    if start < 0 || start >= |polys| { return -1; }
    if distance <= 0.0 { return start; }
    var lengthSoFar: real := polys[start].length;
    r := start;
    while distance > lengthSoFar
      invariant start <= r < |polys| && lengthSoFar == Length(polys, start, r)
      invariant forall i :: start <= i < r ==> Length(polys, start, i) < distance
      decreases |polys| - r
    {
      if r == |polys| - 1 { return; }
      r := r + 1;
      lengthSoFar := lengthSoFar + polys[r].length;
    }
  }

  /**
   * The commanded speed. A slow request passes; otherwise the result is the greatest speed, not
   * below the curve minimum, that keeps to the request, to 100 and to every curve ahead.
   */
  method Control(sqrt: real -> real, c: Config, polys: seq<Polygon>, closest: int, velocity: real)
    returns (v: real, ghost stop: int)
    requires IsSqrt(sqrt) && Sane(c, polys)
    ensures velocity >= c.minSpeed ==> Downstream(polys, closest, c.lookahead, stop)
    ensures v <= velocity
    ensures velocity < c.minSpeed ==> v == velocity
    ensures velocity >= c.minSpeed ==> v >= c.minSpeed
    ensures velocity >= c.minSpeed && Bogus(polys, closest, stop) ==> v == c.minSpeed
    ensures velocity >= c.minSpeed && !Bogus(polys, closest, stop) ==> SafeBefore(c, polys, closest, stop, stop, v)
    ensures velocity >= c.minSpeed && !Bogus(polys, closest, stop) ==>
      forall u :: c.minSpeed <= u <= velocity && Permitted(c, polys, closest, stop, stop, u) ==> u <= v || NearZero(u)
  {
    if velocity < c.minSpeed { return velocity, 0; }
    var stopIndex := IndexOfDownstreamPoly(polys, closest, c.lookahead);
    stop := stopIndex;
    ghost var safe: real;
    v, safe := MaxSafeSpeed(sqrt, c, polys, closest, stopIndex, velocity);
    ghost var limit := v;
    v := Max(c.minSpeed, v);
    if !Bogus(polys, closest, stop) {
      MinimumIsSafe(c, polys, closest, stop);
      if v != c.minSpeed {
        assert v <= safe;
        assert Permitted(c, polys, closest, stop, stop, v);
      }
    }
  }

  lemma MinimumIsSafe(c: Config, polys: seq<Polygon>, start: nat, stop: nat)
    requires Sane(c, polys) && start <= stop < |polys|
    ensures SafeBefore(c, polys, start, stop, stop, c.minSpeed)
  {
    forall b | start <= b < stop && !NearZero(Turn(c, polys, b, stop))
      ensures c.minSpeed * c.minSpeed <= Allowance(c, polys, start, b, stop)
    {
      var v, d := Max(c.minSpeed, HeadingSpeed(c, Turn(c, polys, b, stop))), Span(polys, start, b + 1);
      SpanNonNegative(c, polys, start, b + 1);
      SquareMonotone(c.minSpeed, v);
      assert c.maxDeceleration * d >= 0.0;
      assert 2.0 * c.maxDeceleration * d == 2.0 * (c.maxDeceleration * d);
    }
  }

  // ---------------------------------------------------------------- what keeping to the curves means

  /** The steps add up to the way from the middle of one polygon to the middle of another. */
  lemma {:induction false} SpanBetweenMiddles(polys: seq<Polygon>, first: nat, last: nat)
    requires first <= last < |polys|
    ensures Span(polys, first, last) == Length(polys, first, last) - polys[first].length / 2.0 - polys[last].length / 2.0
    decreases last
  {
    if last > first { SpanBetweenMiddles(polys, first, last - 1); }
  }

  /** Speed and way after braking for a time at a constant deceleration. */
  function SpeedAfter(u: real, a: real, t: real): real { u - a * t }
  function WayAfter(u: real, a: real, t: real): real { u * t - a * t * t / 2.0 }

  lemma BrakingLaw(u: real, a: real, t: real)
    ensures var w := SpeedAfter(u, a, t); w * w == u * u - 2.0 * a * WayAfter(u, a, t)
  {
    var at := a * t;
    assert SpeedAfter(u, a, t) * SpeedAfter(u, a, t) == u * u - 2.0 * (u * at) + at * at;
    BrakingTerms(u, a, t, at);
  }

  lemma BrakingTerms(u: real, a: real, t: real, at: real)
    requires at == a * t
    ensures 2.0 * a * (u * t - a * t * t / 2.0) == 2.0 * (u * at) - at * at
  {
    var x, y := u * t, a * t * t;
    assert a * x == u * at by { assert a * (u * t) == u * (a * t); }
    assert a * y == at * at by { assert a * (a * t * t) == (a * t) * (a * t); }
    assert 2.0 * a * (x - y / 2.0) == 2.0 * (a * x) - a * y;
  }

  /**
   * A speed that is safe before the curves, such as the one that Control commands: whoever brakes from
   * it at the maximum deceleration reaches the middle of the polygon after any curve's beginning no
   * faster than that curve's limit, or than the curve minimum.
   */
  lemma BrakesInTime(c: Config, polys: seq<Polygon>, start: nat, b: nat, stop: nat, u: real, t: real)
    requires Sane(c, polys) && start <= b < stop < |polys| && SafeBefore(c, polys, start, stop, stop, u)
    requires !NearZero(Turn(c, polys, b, stop))
    requires WayAfter(u, c.maxDeceleration, t) == Span(polys, start, b + 1)
    ensures SpeedAfter(u, c.maxDeceleration, t) <= Max(c.minSpeed, HeadingSpeed(c, Turn(c, polys, b, stop)))
  {
    var w, f := SpeedAfter(u, c.maxDeceleration, t), Max(c.minSpeed, HeadingSpeed(c, Turn(c, polys, b, stop)));
    BrakingLaw(u, c.maxDeceleration, t);
    assert u * u <= Allowance(c, polys, start, b, stop);
    assert w * w <= f * f;
    if w >= 0.0 { SquareMonotone(w, f); }
  }
}
