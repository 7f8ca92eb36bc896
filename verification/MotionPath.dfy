/** The path of one joint between start and goal: a quartic ramp up, a cruise, a quartic ramp down
    (motion_generator.cpp, lines 45-66). */
module MotionPath {
  import opened Basics
  import opened Vectors
  import opened MotionPlan

  const DELTA_Q_MOTION_FINISHED: real := 0.000001

  /** The entries of one joint in the generator's arrays. */
  datatype Plan = Plan(delta: real, speed: real, t1: real, t2: real, tf: real, q1: real)

  function Cube(x: real): real {
    x * x * x
  }

  /** The displacement the code computes for a joint that has to move. */
  function Displacement(p: Plan, t: real): real
    requires t < p.t1 ==> p.t1 != 0.0
  {
    var sign, td, ramp := Sign(p.delta), p.t2 - p.t1, p.tf - p.t2;
    if t < p.t1 then
      -1.0 / Cube(p.t1) * p.speed * sign * (0.5 * t - p.t1) * Cube(t)
    else if t >= p.t1 && t < p.t2 then
      p.q1 + (t - p.t1) * p.speed * sign
    else if t >= p.t2 && t < p.tf then
      p.delta + 0.5 * (1.0 / Cube(ramp) * (t - p.t1 - 2.0 * ramp - td) * Cube(t - p.t1 - td)
                       + (2.0 * t - 2.0 * p.t1 - ramp - 2.0 * td)) * p.speed * sign
    else
      p.delta
  }

  predicate IsOver(p: Plan, t: real) {
    t >= p.t1 && t >= p.t2 && t >= p.tf
  }

  /** The switching times are in order, and cruise and ramps together cover the distance. */
  ghost predicate IsTimed(p: Plan) {
    && p.delta != 0.0 && p.speed > 0.0
    && 0.0 < p.t1 <= p.t2 < p.tf
    && p.q1 == p.speed * Sign(p.delta) * (0.5 * p.t1)
    && p.speed * (p.tf - 0.5 * p.t1 - 0.5 * (p.tf - p.t2)) == Abs(p.delta)
  }

  /** The ramps are as short as the acceleration limits allow: their peak acceleration is 1.5 times the mean. */
  ghost predicate FitsRamps(p: Plan, l: Limits) {
    l.IsPositive() && p.t1 * l.start == 1.5 * p.speed && (p.tf - p.t2) * l.goal == 1.5 * p.speed
  }

  // ----- the normalised ramp

  ghost function Ramp(x: real): real {
    Cube(x) - Cube(x) * x / 2.0
  }

  /** The slope of the chord of the ramp between a and b. */
  ghost function Chord(a: real, b: real): real {
    (a * a + a * b + b * b) - (a + b) * (a * a + b * b) / 2.0
  }

  lemma RampChord(a: real, b: real)
    ensures Ramp(b) - Ramp(a) == (b - a) * Chord(a, b)
  {
    var k := a * a + a * b + b * b;
    var m := (a + b) * (a * a + b * b);
    assert (b - a) * k == Cube(b) - Cube(a);
    assert (b - a) * m == Cube(b) * b - Cube(a) * a by {
      FourthPowers(a, b, a * a, b * b);
    }
    assert (b - a) * (k - m / 2.0) == (b - a) * k - (b - a) * m / 2.0;
  }

  lemma FourthPowers(a: real, b: real, aa: real, bb: real)
    requires aa == a * a && bb == b * b
    ensures (b - a) * ((a + b) * (aa + bb)) == Cube(b) * b - Cube(a) * a
  {}

  lemma ChordMirrors(a: real, b: real)
    ensures Chord(a, b) + Chord(1.0 - a, 1.0 - b) == 1.0
  {}

  lemma ChordNonNeg(a: real, b: real)
    requires 0.0 <= a <= 1.0 && 0.0 <= b <= 1.0
    ensures Chord(a, b) >= 0.0
  {
    var q := a * a + b * b;
    SquareNonNeg(a);
    SquareNonNeg(b);
    MulNonNeg(a, b, a * b);
    MulNonNeg(2.0 - a - b, q, (2.0 - a - b) * q);
    assert (a + b) * q == 2.0 * q - (2.0 - a - b) * q;
  }

  /** The ramp rises, and never faster than the identity. */
  lemma RampRises(a: real, b: real)
    requires 0.0 <= a <= b <= 1.0
    ensures 0.0 <= Ramp(b) - Ramp(a) <= b - a
  {
    hide Ramp, Chord;
    RampChord(a, b);
    ChordMirrors(a, b);
    ChordNonNeg(a, b);
    ChordNonNeg(1.0 - a, 1.0 - b);
    MulNonNeg(b - a, Chord(a, b), (b - a) * Chord(a, b));
    MulNonNeg(b - a, 1.0 - Chord(a, b), (b - a) * (1.0 - Chord(a, b)));
  }

  // ----- distance covered

  /** Between the two times the joint covers a distance it could cover at the given speed, forwards. */
  ghost predicate Advances(speed: real, s: real, s': real, t: real, t': real) {
    0.0 <= s' - s <= speed * (t' - t)
  }

  // the distance covered on each piece, whatever the direction

  ghost function RampingUp(p: Plan, t: real): real
    requires p.t1 != 0.0
  {
    p.speed * p.t1 * Ramp(t / p.t1)
  }

  ghost function Cruising(p: Plan, t: real): real {
    p.speed * (t - 0.5 * p.t1)
  }

  ghost function RampingDown(p: Plan, t: real): real
    requires p.tf != p.t2
  {
    Abs(p.delta) - p.speed * (p.tf - p.t2) * Ramp((p.tf - t) / (p.tf - p.t2))
  }

  /** The distance from the start after time t. */
  ghost function Progress(p: Plan, t: real): real
    requires p.t1 != 0.0 && p.tf != p.t2
  {
    if t < p.t1 then RampingUp(p, t)
    else if t < p.t2 then Cruising(p, t)
    else if t < p.tf then RampingDown(p, t)
    else Abs(p.delta)
  }

  lemma RampAdvances(speed: real, len: real, t: real, t': real)
    requires speed > 0.0 && len > 0.0 && 0.0 <= t <= t' <= len
    ensures Advances(speed, speed * len * Ramp(t / len), speed * len * Ramp(t' / len), t, t')
  {
    hide Ramp;
    var a, b := t / len, t' / len;
    Quotient(t, len, a);
    Quotient(t', len, b);
    FractionInUnit(t, t', len, a, b);
    RampRises(a, b);
    MulPos(speed, len, speed * len);
    ScaledRise(speed, len, speed * len, a, b, Ramp(b) - Ramp(a), t, t');
  }

  lemma FractionInUnit(t: real, t': real, len: real, a: real, b: real)
    requires len > 0.0 && 0.0 <= t <= t' <= len && a * len == t && b * len == t'
    ensures 0.0 <= a <= b <= 1.0
  {
    if a < 0.0 {
      MulPos(-a, len, -a * len);
    }
    if b < a {
      MulPos(a - b, len, (a - b) * len);
    }
    if b > 1.0 {
      MulPos(b - 1.0, len, (b - 1.0) * len);
    }
  }

  lemma ScaledRise(speed: real, len: real, k: real, a: real, b: real, rise: real, t: real, t': real)
    requires k == speed * len && k > 0.0 && a * len == t && b * len == t' && 0.0 <= rise <= b - a
    ensures 0.0 <= k * rise <= speed * (t' - t)
  {}

  lemma RampEnds(len: real)
    requires len > 0.0
    ensures Ramp(0.0 / len) == 0.0 && Ramp(len / len) == 0.5
  {
    assert 0.0 / len == 0.0 && len / len == 1.0;
  }

  /** The pieces meet: both formulas at a switching time give the same distance. */
  lemma PiecesMeet(p: Plan)
    requires IsTimed(p)
    ensures RampingUp(p, 0.0) == 0.0
    ensures RampingUp(p, p.t1) == Cruising(p, p.t1)
    ensures Cruising(p, p.t2) == RampingDown(p, p.t2)
    ensures RampingDown(p, p.tf) == Abs(p.delta)
  {
    hide Ramp, Abs, Sign;
    var ramp := p.tf - p.t2;
    RampEnds(p.t1);
    RampEnds(ramp);
    MulEq(p.speed * p.t1, Ramp(0.0 / p.t1), 0.0);
    MulEq(p.speed * p.t1, Ramp(p.t1 / p.t1), 0.5);
    MulEq(p.speed * ramp, Ramp(ramp / ramp), 0.5);
    MulEq(p.speed * ramp, Ramp(0.0 / ramp), 0.0);
    CruiseEnds(p.speed, p.t1, p.t2, p.tf, Abs(p.delta));
    assert RampingDown(p, p.t2) == Abs(p.delta) - p.speed * ramp * Ramp(ramp / ramp);
    assert RampingDown(p, p.tf) == Abs(p.delta) - p.speed * ramp * Ramp(0.0 / ramp);
  }

  lemma CruiseEnds(x: real, t1: real, t2: real, tf: real, d: real)
    requires x * (tf - 0.5 * t1 - 0.5 * (tf - t2)) == d
    ensures x * (t2 - 0.5 * t1) == d - x * (tf - t2) * 0.5
  {}

  lemma RampUpAdvances(p: Plan, t: real, t': real)
    requires IsTimed(p) && 0.0 <= t <= t' <= p.t1
    ensures Advances(p.speed, RampingUp(p, t), RampingUp(p, t'), t, t')
  {
    hide Ramp, Abs, Sign;
    RampAdvances(p.speed, p.t1, t, t');
  }

  lemma CruiseAdvances(p: Plan, t: real, t': real)
    requires p.speed > 0.0 && t <= t'
    ensures Advances(p.speed, Cruising(p, t), Cruising(p, t'), t, t')
  {}

  lemma RampDownAdvances(p: Plan, t: real, t': real)
    requires IsTimed(p) && p.t2 <= t <= t' <= p.tf
    ensures Advances(p.speed, RampingDown(p, t), RampingDown(p, t'), t, t')
  {
    hide Ramp, Abs, Sign;
    var ramp := p.tf - p.t2;
    RampAdvances(p.speed, ramp, p.tf - t', p.tf - t);
    var s, s' := p.speed * ramp * Ramp((p.tf - t) / ramp), p.speed * ramp * Ramp((p.tf - t') / ramp);
    assert RampingDown(p, t) == Abs(p.delta) - s && RampingDown(p, t') == Abs(p.delta) - s';
  }

  /** Within one piece, ends included, the joint advances no faster than its cruising speed. */
  lemma PieceAdvances(p: Plan, t: real, t': real)
    requires IsTimed(p) && 0.0 <= t <= t'
    requires t' <= p.t1 || p.t1 <= t <= t' <= p.t2 || p.t2 <= t <= t' <= p.tf || p.tf <= t
    ensures Advances(p.speed, Progress(p, t), Progress(p, t'), t, t')
  {
    hide RampingUp, Cruising, RampingDown, Abs, Sign;
    PiecesMeet(p);
    if t' <= p.t1 {
      RampUpAdvances(p, t, t');
    } else if t' <= p.t2 {
      CruiseAdvances(p, t, t');
    } else if t' <= p.tf {
      RampDownAdvances(p, t, t');
    } else {
      MulNonNeg(p.speed, t' - t, p.speed * (t' - t));
    }
  }

  lemma AdvancesChain(speed: real, s: real, s': real, s'': real, t: real, t': real, t'': real)
    requires Advances(speed, s, s', t, t') && Advances(speed, s', s'', t', t'')
    ensures Advances(speed, s, s'', t, t'')
  {}

  ghost function Clamp(x: real, lo: real, hi: real): (y: real)
    requires lo <= hi
    ensures lo <= y <= hi && (y == x || (x < lo && y == lo) || (x > hi && y == hi))
  {
    if x < lo then lo else if x > hi then hi else x
  }

  /** Between any two times the joint moves towards its goal, no faster than its cruising speed. */
  lemma ProgressAdvances(p: Plan, t: real, t': real)
    requires IsTimed(p) && 0.0 <= t <= t'
    ensures Advances(p.speed, Progress(p, t), Progress(p, t'), t, t')
  {
    hide Ramp, Progress, Advances, Abs, Sign;
    var c1, c2, c3 := Clamp(p.t1, t, t'), Clamp(p.t2, t, t'), Clamp(p.tf, t, t');
    PieceAdvances(p, t, c1);
    PieceAdvances(p, c1, c2);
    PieceAdvances(p, c2, c3);
    PieceAdvances(p, c3, t');
    AdvancesChain(p.speed, Progress(p, t), Progress(p, c1), Progress(p, c2), t, c1, c2);
    AdvancesChain(p.speed, Progress(p, t), Progress(p, c2), Progress(p, c3), t, c2, c3);
    AdvancesChain(p.speed, Progress(p, t), Progress(p, c3), Progress(p, t'), t, c3, t');
  }

  // ----- the code's formula computes the signed progress

  lemma DisplacementIsProgress(p: Plan, t: real)
    requires IsTimed(p)
    ensures Displacement(p, t) == Sign(p.delta) * Progress(p, t)
  {
    hide Ramp, Cube, Sign, Abs, RampingUp, Cruising, RampingDown;
    SignTimesAbs(p.delta);
    if t < p.t1 {
      UpIsSigned(p, t);
    } else if t < p.t2 {
      CruiseIsSigned(p, t);
    } else if t < p.tf {
      DownIsSigned(p, t);
    }
  }

  lemma UpIsSigned(p: Plan, t: real)
    requires IsTimed(p)
    ensures Cube(p.t1) != 0.0
    ensures -1.0 / Cube(p.t1) * p.speed * Sign(p.delta) * (0.5 * t - p.t1) * Cube(t) == Sign(p.delta) * RampingUp(p, t)
  {
    hide Ramp, Cube, Sign;
    RampUpFormula(p.speed, Sign(p.delta), p.t1, t);
  }

  lemma CruiseIsSigned(p: Plan, t: real)
    requires IsTimed(p)
    ensures p.q1 + (t - p.t1) * p.speed * Sign(p.delta) == Sign(p.delta) * Cruising(p, t)
  {}

  lemma DownIsSigned(p: Plan, t: real)
    requires IsTimed(p)
    ensures Cube(p.tf - p.t2) != 0.0
    ensures var td, ramp := p.t2 - p.t1, p.tf - p.t2;
      p.delta + 0.5 * (1.0 / Cube(ramp) * (t - p.t1 - 2.0 * ramp - td) * Cube(t - p.t1 - td)
                       + (2.0 * t - 2.0 * p.t1 - ramp - 2.0 * td)) * p.speed * Sign(p.delta)
      == Sign(p.delta) * RampingDown(p, t)
  {
    hide Ramp, Cube, Sign, Abs;
    var ramp := p.tf - p.t2;
    assert t - p.t1 - (p.t2 - p.t1) == t - p.t2;
    assert t - p.t1 - 2.0 * ramp - (p.t2 - p.t1) == (t - p.t2) - 2.0 * ramp;
    assert 2.0 * t - 2.0 * p.t1 - ramp - 2.0 * (p.t2 - p.t1) == 2.0 * (t - p.t2) - ramp;
    RampDownFormula(p.speed, Sign(p.delta), p.delta, ramp, t - p.t2, p.tf - t);
  }

  lemma RampUpFormula(x: real, s: real, t1: real, t: real)
    requires t1 > 0.0
    ensures Cube(t1) != 0.0
    ensures -1.0 / Cube(t1) * x * s * (0.5 * t - t1) * Cube(t) == s * (x * t1 * Ramp(t / t1))
  {}

  lemma CubePositive(x: real)
    requires x > 0.0
    ensures Cube(x) > 0.0
  {}

  lemma CubeOfProduct(f: real, t1: real, t: real)
    requires f * t1 == t
    ensures Cube(t) == Cube(f) * Cube(t1)
  {}

  /** u is the time into the last ramp, w what is left of it. */
  lemma RampDownFormula(x: real, s: real, delta: real, ramp: real, u: real, w: real)
    requires ramp > 0.0 && u + w == ramp && s == Sign(delta)
    ensures Cube(ramp) != 0.0
    ensures delta + 0.5 * (1.0 / Cube(ramp) * (u - 2.0 * ramp) * Cube(u) + (2.0 * u - ramp)) * x * s
         == s * (Abs(delta) - x * ramp * Ramp(w / ramp))
  {
    hide Ramp, Cube, Sign, Abs;
    var f, g := u / ramp, w / ramp;
    Quotient(u, ramp, f);
    Quotient(w, ramp, g);
    PartsOfOne(f, g, ramp, u, w);
    CubePositive(ramp);
    var c := 1.0 / Cube(ramp);
    Quotient(1.0, Cube(ramp), c);
    CubeOfProduct(f, ramp, u);
    var e := c * (u - 2.0 * ramp) * Cube(u) + (2.0 * u - ramp);
    MirroredRamp(f, g, ramp, u, c, Cube(ramp), Cube(u), e);
    MulEq(x * s, e, -2.0 * (ramp * Ramp(g)));
    SignTimesAbs(delta);
    Distribute(s, Abs(delta), x * ramp * Ramp(g));
    SignedRamp(x, s, e, ramp, Ramp(g));
  }

  lemma PartsOfOne(f: real, g: real, ramp: real, u: real, w: real)
    requires ramp > 0.0 && f * ramp == u && g * ramp == w && u + w == ramp
    ensures f + g == 1.0
  {}

  lemma Distribute(s: real, a: real, b: real)
    ensures s * (a - b) == s * a - s * b
  {}

  lemma SignTimesAbs(x: real)
    ensures Sign(x) * Abs(x) == x
  {}

  lemma SignedRamp(x: real, s: real, e: real, ramp: real, r: real)
    requires x * s * e == x * s * (-2.0 * (ramp * r))
    ensures 0.5 * e * x * s == -(s * (x * ramp * r))
  {}

  lemma MirroredRamp(f: real, g: real, ramp: real, u: real, c: real, cu: real, uuu: real, e: real)
    requires f + g == 1.0 && f * ramp == u && c * cu == 1.0 && uuu == Cube(f) * cu
    requires e == c * (u - 2.0 * ramp) * uuu + (2.0 * u - ramp)
    ensures e == -2.0 * (ramp * Ramp(g))
  {}

  // ----- main results

  /** The computed path starts at zero, ends at the goal, and in between moves monotonically towards it,
      never past it and never faster than the synchronised speed. */
  lemma PathIsSafe(p: Plan, t: real, t': real)
    requires IsTimed(p) && 0.0 <= t <= t'
    ensures Displacement(p, 0.0) == 0.0
    ensures t >= p.tf ==> Displacement(p, t) == p.delta
    ensures 0.0 <= Sign(p.delta) * Displacement(p, t) <= Abs(p.delta)
    ensures Advances(p.speed, Sign(p.delta) * Displacement(p, t), Sign(p.delta) * Displacement(p, t'), t, t')
    ensures IsOver(p, t) <==> t >= p.tf
  {
    hide Progress, Abs, Sign, Displacement;
    PiecesMeet(p);
    var end := if t < p.tf then p.tf else t;
    ProgressAtEnds(p, t);
    ProgressAdvances(p, 0.0, t);
    ProgressAdvances(p, t, t');
    ProgressAdvances(p, t, end);
    ProgressAtEnds(p, end);
    SignedTwice(p, 0.0);
    SignedTwice(p, t);
    SignedTwice(p, t');
    MulEq(Sign(p.delta), Progress(p, 0.0), 0.0);
    SignTimesAbs(p.delta);
    DisplacementIsProgress(p, 0.0);
    DisplacementIsProgress(p, t);
  }

  lemma ProgressAtEnds(p: Plan, t: real)
    requires IsTimed(p)
    ensures Progress(p, 0.0) == 0.0
    ensures t >= p.tf ==> Progress(p, t) == Abs(p.delta)
  {}

  lemma SignedTwice(p: Plan, t: real)
    requires IsTimed(p)
    ensures Sign(p.delta) * Displacement(p, t) == Progress(p, t)
  {
    hide Progress, Displacement;
    DisplacementIsProgress(p, t);
    SignSquared(Sign(p.delta), Progress(p, t), Displacement(p, t));
  }

  lemma SignSquared(s: real, x: real, d: real)
    requires (s == 1.0 || s == -1.0) && d == s * x
    ensures s * d == x
  {}

  /** What the code has computed for a joint when its loop body is done. */
  ghost predicate IsPlan(p: Plan, l: Limits, maxTf: real, root: real -> real)
    requires l.IsPositive()
  {
    && p.speed == SyncSpeed(Abs(p.delta), l, maxTf, root) && p.speed != 0.0
    && p.t1 == 1.5 * p.speed / l.start
    && p.tf == p.t1 / 2.0 + 1.5 * p.speed / l.goal / 2.0 + Abs(p.delta / p.speed)
    && p.t2 == p.tf - 1.5 * p.speed / l.goal
    && p.q1 == p.speed * Sign(p.delta) * (0.5 * p.t1)
  }

  /** Every planned joint arrives at the common time, with its times in order and within its speed limit. */
  lemma PlanIsTimed(p: Plan, l: Limits, r: real, maxTf: real, root: real -> real)
    requires l.IsPositive() && p.delta != 0.0 && IsSquareRoot(root)
    requires IsReach(Abs(p.delta), l, r) && maxTf >= Duration(Abs(p.delta), l, r)
    requires IsPlan(p, l, maxTf, root)
    ensures IsTimed(p) && FitsRamps(p, l) && p.tf == maxTf && p.speed <= l.speed
  {
    hide Ramps, SyncSpeed, Sign, Abs, Duration, IsReach, IsTimed, FitsRamps, IsPlan, Discriminant;
    var d := Abs(p.delta);
    PlanSpeed(p, l, maxTf, root);
    SyncSpeedSynchronises(d, l, r, maxTf, root);
    ReachWithinLimit(d, l, r);
    PlanTimes(p, l, maxTf, root);
  }

  lemma PlanSpeed(p: Plan, l: Limits, maxTf: real, root: real -> real)
    requires l.IsPositive() && IsPlan(p, l, maxTf, root) && p.delta != 0.0
    ensures p.speed == SyncSpeed(Abs(p.delta), l, maxTf, root) && Abs(p.delta) > 0.0
  {
    hide SyncSpeed;
  }

  lemma PlanTimes(p: Plan, l: Limits, maxTf: real, root: real -> real)
    requires l.IsPositive() && IsPlan(p, l, maxTf, root) && p.delta != 0.0 && p.speed > 0.0
    requires Duration(Abs(p.delta), l, p.speed) == maxTf && Ramps(l) * (p.speed * p.speed) <= Abs(p.delta)
    ensures IsTimed(p) && FitsRamps(p, l) && p.tf == maxTf
  {
    hide Ramps, SyncSpeed, Sign, Abs, Duration;
    Quotient(1.5 * p.speed, l.start, p.t1);
    Quotient(1.5 * p.speed, l.goal, 1.5 * p.speed / l.goal);
    AbsQuotient(p.delta, p.speed);
    TimesAgree(Abs(p.delta), l, p.speed, p.t1, 1.5 * p.speed / l.goal, p.tf, maxTf);
  }

  lemma ReachWithinLimit(d: real, l: Limits, r: real)
    requires l.IsPositive() && IsReach(d, l, r)
    ensures r <= l.speed
  {}

  lemma TimesAgree(d: real, l: Limits, x: real, t1: real, dt2: real, tf: real, maxTf: real)
    requires l.IsPositive() && x > 0.0 && Duration(d, l, x) == maxTf && Ramps(l) * (x * x) <= d
    requires t1 == 1.5 * x / l.start && dt2 == 1.5 * x / l.goal && tf == t1 / 2.0 + dt2 / 2.0 + d / x
    ensures tf == maxTf && 0.0 < t1 <= tf - dt2 < tf
    ensures x * (tf - 0.5 * t1 - 0.5 * dt2) == d
  {
    hide Ramps, Duration;
    var h, k := Ramps(l), d / x;
    Quotient(d, x, k);
    QuotientPositive(x, l.start, t1);
    QuotientPositive(x, l.goal, dt2);
    RampTimes(l, x, t1, dt2);
    DurationIs(d, l, x);
    TimeScalars(d, h, x, k, t1, dt2);
  }

  lemma QuotientPositive(x: real, a: real, t: real)
    requires x > 0.0 && a > 0.0 && t == 1.5 * x / a
    ensures t > 0.0
  {
    assert t * a == 1.5 * x;
    if t <= 0.0 {
      MulNonNeg(-t, a, -t * a);
    }
  }

  lemma RampTimes(l: Limits, x: real, t1: real, dt2: real)
    requires l.IsPositive() && t1 == 1.5 * x / l.start && dt2 == 1.5 * x / l.goal
    ensures Ramps(l) * x == 0.5 * t1 + 0.5 * dt2
  {
    QuotientScales(x, l.start);
    QuotientScales(x, l.goal);
  }

  lemma QuotientScales(x: real, a: real)
    requires a != 0.0
    ensures 1.5 * x / a == 1.5 * (1.0 / a * x)
  {}

  lemma DurationIs(d: real, l: Limits, x: real)
    requires l.IsPositive() && x > 0.0
    ensures Duration(d, l, x) == Ramps(l) * x + d / x
  {}

  lemma TimeScalars(d: real, h: real, x: real, k: real, t1: real, dt2: real)
    requires x > 0.0 && k * x == d && h * (x * x) <= d && h * x == 0.5 * t1 + 0.5 * dt2
    ensures h * x <= k && x * k == d
  {
    assert h * (x * x) == (h * x) * x;
    if h * x > k {
      MulPos(h * x - k, x, (h * x - k) * x);
    }
  }

  lemma AbsQuotient(delta: real, x: real)
    requires x > 0.0
    ensures Abs(delta / x) == Abs(delta) / x
  {}

  /** A joint whose distance is exactly the threshold gets no plan but is moved by one: what its array
      entries happen to hold can send it to its goal at once, or keep it unfinished at any given time. */
  lemma ThresholdJointIsUnplanned(t: real)
    requires t >= 0.0
    ensures exists p: Plan ::
      p.delta == 0.000001 && p.t1 >= 0.0 && IsOver(p, 0.0) && Displacement(p, 0.0) == p.delta
    ensures exists p: Plan :: p.delta == 0.000001 && p.t1 >= 0.0 && !IsOver(p, t)
  {
    var k := DELTA_Q_MOTION_FINISHED;
    var jump, stall := Plan(k, 0.0, 0.0, 0.0, 0.0, 0.0), Plan(k, 0.0, 0.0, 0.0, t + 1.0, 0.0);
    assert IsOver(jump, 0.0) && Displacement(jump, 0.0) == jump.delta;
    assert !IsOver(stall, t);
  }
}
