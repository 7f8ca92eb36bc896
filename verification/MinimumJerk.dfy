/** Minimum-jerk waypoints between two joint configurations (franka_ik_solver.py, lines 98-133 and 337-383). */
module MinimumJerk {
  import opened Basics
  import opened Vectors

  function Clamped(x: real): real {
    if x > 1.0 then 1.0 else if x < 0.0 then 0.0 else x
  }

  /** The blend 10 x^3 - 15 x^4 + 6 x^5. */
  function Blend(x: real): real {
    10.0 * (x * x * x) - 15.0 * (x * x * x * x) + 6.0 * (x * x * x * x * x)
  }

  /** The velocity blend, before the division by the duration. */
  function Speed(x: real): real {
    30.0 * (x * x) - 60.0 * (x * x * x) + 30.0 * (x * x * x * x)
  }

  /** The acceleration blend, before the division by the duration squared. */
  function Gain(x: real): real {
    60.0 * x - 180.0 * (x * x) + 120.0 * (x * x * x)
  }

  function MinimumJerkPos(t: real, duration: real): real
    requires duration != 0.0
  {
    Blend(Clamped(t / duration))
  }

  function MinimumJerkVel(t: real, duration: real): real
    requires duration != 0.0
  {
    Speed(Clamped(t / duration)) / duration
  }

  function MinimumJerkAcc(t: real, duration: real): real
    requires duration != 0.0
  {
    Gain(Clamped(t / duration)) / (duration * duration)
  }

  /** The largest single-joint move over the pairs both lists have. */
  function MaxMove(current: seq<real>, target: seq<real>): (m: real)
    requires current != [] && target != []
    ensures forall j :: 0 <= j < Min(|current|, |target|) ==> Abs(target[j] - current[j]) <= m
    ensures exists j :: 0 <= j < Min(|current|, |target|) && m == Abs(target[j] - current[j])
  {
    var first := Abs(target[0] - current[0]);
    if |current| == 1 || |target| == 1 then first else
      var rest := MaxMove(current[1..], target[1..]);
      assert forall j :: 0 < j < Min(|current|, |target|) ==>
        target[j] == target[1..][j - 1] && current[j] == current[1..][j - 1];
      if first < rest then rest else first
  }

  function EstimateDuration(current: seq<real>, target: seq<real>, speedFactor: real): (d: real)
    requires current != [] && target != [] && speedFactor > 0.0
  {
    var speed := 2.175 * speedFactor;
    var d := MaxMove(current, target) / speed;
    if d < 5.0 then 5.0 else d
  }

  // ----- the blend rises from 0 to 1, never faster than 15/8

  /** The slope of the chord of the blend between 1/2 + p and 1/2 + q, by s = p^2 + q^2 and r = p q. */
  ghost function ChordSlope(s: real, r: real): real {
    30.0 * (1.0 / 16.0 - (s + r) / 6.0 + (s * s + s * r - r * r) / 5.0)
  }

  lemma BlendChord(a: real, b: real, p: real, q: real, s: real, r: real)
    requires p == a - 0.5 && q == b - 0.5 && s == p * p + q * q && r == p * q
    ensures Blend(b) - Blend(a) == (b - a) * ChordSlope(s, r)
  {}

  lemma ChordSlopeBounded(p: real, q: real, s: real, r: real)
    requires -0.5 <= p <= 0.5 && -0.5 <= q <= 0.5 && s == p * p + q * q && r == p * q
    ensures 0.0 <= ChordSlope(s, r) <= 15.0 / 8.0
  {
    SquareAtMostQuarter(p, p * p);
    SquareAtMostQuarter(q, q * q);
    SumAndDifference(p, q, s, r);
    var a, f := s + r, 0.25 - (s + r) / 3.0;
    SquareNonNeg(f);
    MulNonNeg(s - 2.0 * r, 4.0 * s + 7.0 * r, (s - 2.0 * r) * (4.0 * s + 7.0 * r));
    assert ChordSlope(s, r) == 30.0 * (f * f) + 2.0 / 3.0 * ((s - 2.0 * r) * (4.0 * s + 7.0 * r));
    MulNonNeg(0.5 - s, a, (0.5 - s) * a);
    SquareNonNeg(r);
    assert s * s + s * r - r * r == s * a - r * r;
    assert (0.5 - s) * a == 0.5 * a - s * a;
  }

  lemma SquareAtMostQuarter(p: real, pp: real)
    requires -0.5 <= p <= 0.5 && pp == p * p
    ensures 0.0 <= pp <= 0.25
  {
    MulNonNeg(0.5 - p, 0.5 + p, (0.5 - p) * (0.5 + p));
    SquareNonNeg(p);
  }

  lemma SumAndDifference(p: real, q: real, s: real, r: real)
    requires s == p * p + q * q && r == p * q
    ensures s - 2.0 * r >= 0.0 && s + 2.0 * r >= 0.0 && s >= 0.0
  {
    SquareNonNeg(p - q);
    SquareNonNeg(p + q);
    assert (p - q) * (p - q) == s - 2.0 * r;
    assert (p + q) * (p + q) == s + 2.0 * r;
  }

  /** The blend is monotone, and no steeper than 15/8 between any two points. */
  lemma BlendRises(a: real, b: real)
    requires 0.0 <= a <= b <= 1.0
    ensures 0.0 <= Blend(b) - Blend(a) <= 15.0 / 8.0 * (b - a)
  {
    hide Blend, ChordSlope;
    var p, q := a - 0.5, b - 0.5;
    var s, r := p * p + q * q, p * q;
    var k := ChordSlope(s, r);
    BlendChord(a, b, p, q, s, r);
    ChordSlopeBounded(p, q, s, r);
    MulNonNeg(b - a, k, (b - a) * k);
    MulNonNeg(b - a, 15.0 / 8.0 - k, (b - a) * (15.0 / 8.0 - k));
  }

  lemma BlendEnds()
    ensures Blend(0.0) == 0.0 && Blend(1.0) == 1.0
  {}

  lemma BlendInUnit(x: real)
    requires 0.0 <= x <= 1.0
    ensures 0.0 <= Blend(x) <= 1.0
  {
    hide Blend;
    BlendEnds();
    BlendRises(0.0, x);
    BlendRises(x, 1.0);
  }

  /** The velocity blend is a square, at most 15/8. */
  lemma VelocityBlendBounded(tau: real)
    requires 0.0 <= tau <= 1.0
    ensures 0.0 <= Speed(tau) <= 15.0 / 8.0
  {
    var g := tau * (1.0 - tau);
    MulNonNeg(tau, 1.0 - tau, g);
    SquareNonNeg(tau - 0.5);
    assert g == 0.25 - (tau - 0.5) * (tau - 0.5);
    SquareNonNeg(g);
    MulNonNeg(0.25 - g, 0.25 + g, (0.25 - g) * (0.25 + g));
    assert (0.25 - g) * (0.25 + g) == 0.0625 - g * g;
    SquareOfG(tau, g);
  }

  lemma SquareOfG(tau: real, g: real)
    requires g == tau * (1.0 - tau)
    ensures 30.0 * (g * g) == Speed(tau)
  {}

  // ----- velocity and acceleration are the derivatives

  /** Difference quotients of the blend tend to the velocity, and those of the velocity to the acceleration. */
  lemma DerivativesMatch(a: real, b: real, d: real)
    requires 0.0 <= a <= 1.0 && 0.0 <= b <= 1.0 && d == b - a
    ensures Abs(Blend(b) - Blend(a) - d * Speed(a)) <= 361.0 * (d * d)
    ensures Abs(Speed(b) - Speed(a) - d * Gain(a)) <= 600.0 * (d * d)
  {
    hide Blend, Speed, Gain, BlendRemainder, SpeedRemainder;
    BlendTaylor(a, d, b);
    SpeedTaylor(a, d, b);
    RemaindersBounded(a, d);
    SquareNonNeg(d);
    ScaledBound(d * d, BlendRemainder(a, d), 361.0, Blend(b) - Blend(a) - d * Speed(a));
    ScaledBound(d * d, SpeedRemainder(a, d), 600.0, Speed(b) - Speed(a) - d * Gain(a));
  }

  /** Before the motion the profile rests at the start, after it at the goal. */
  lemma HeldOutside(t: real, duration: real)
    requires duration > 0.0 && (t <= 0.0 || t >= duration)
    ensures MinimumJerkPos(t, duration) == if t <= 0.0 then 0.0 else 1.0
    ensures MinimumJerkVel(t, duration) == 0.0 == MinimumJerkAcc(t, duration)
  {
    hide Clamped, Blend, Speed, Gain;
    var x := t / duration;
    assert x * duration == t;
    OutsideIsClamped(x, t, duration);
    BlendEnds();
    SpeedEnds();
    GainEnds();
    MulPos(duration, duration, duration * duration);
    ZeroOver(duration);
    ZeroOver(duration * duration);
  }

  lemma OutsideIsClamped(x: real, t: real, duration: real)
    requires duration > 0.0 && x * duration == t && (t <= 0.0 || t >= duration)
    ensures Clamped(x) == if t <= 0.0 then 0.0 else 1.0
  {
    if t <= 0.0 && x > 0.0 {
      MulPos(x, duration, x * duration);
    } else if t > 0.0 && x < 1.0 {
      MulPos(1.0 - x, duration, (1.0 - x) * duration);
    }
  }

  lemma SpeedEnds()
    ensures Speed(0.0) == 0.0 && Speed(1.0) == 0.0
  {}

  lemma GainEnds()
    ensures Gain(0.0) == 0.0 && Gain(1.0) == 0.0
  {}

  lemma ZeroOver(k: real)
    requires k != 0.0
    ensures 0.0 / k == 0.0
  {}

  // what is left of the Taylor expansions at a after the linear term, divided by d^2

  ghost function BlendRemainder(a: real, d: real): real {
    30.0 * a - 90.0 * (a * a) + 60.0 * (a * a * a) + d * BlendTail(a, d)
  }

  ghost function BlendTail(a: real, d: real): real {
    10.0 - 60.0 * a + 60.0 * (a * a) + d * (-15.0 + 30.0 * a + 6.0 * d)
  }

  ghost function SpeedRemainder(a: real, d: real): real {
    30.0 - 180.0 * a + 180.0 * (a * a) + d * (-60.0 + 120.0 * a + 30.0 * d)
  }

  lemma BlendTaylor(a: real, d: real, b: real)
    requires d == b - a
    ensures Blend(b) - Blend(a) - d * Speed(a) == d * d * BlendRemainder(a, d)
  {}

  lemma SpeedTaylor(a: real, d: real, b: real)
    requires d == b - a
    ensures Speed(b) - Speed(a) - d * Gain(a) == d * d * SpeedRemainder(a, d)
  {}

  lemma RemaindersBounded(a: real, d: real)
    requires 0.0 <= a <= 1.0 && -1.0 <= d <= 1.0
    ensures -361.0 <= BlendRemainder(a, d) <= 361.0 && -600.0 <= SpeedRemainder(a, d) <= 600.0
  {
    hide BlendTail;
    TailBounded(a, d);
    ProductInUnit(a, a, 1.0, a * a);
    ProductInUnit(a, a * a, 1.0, a * a * a);
    ProductInUnit(d, BlendTail(a, d), 181.0, d * BlendTail(a, d));
    ProductInUnit(d, -60.0 + 120.0 * a + 30.0 * d, 210.0, d * (-60.0 + 120.0 * a + 30.0 * d));
  }

  lemma TailBounded(a: real, d: real)
    requires 0.0 <= a <= 1.0 && -1.0 <= d <= 1.0
    ensures -181.0 <= BlendTail(a, d) <= 181.0
  {
    ProductInUnit(a, a, 1.0, a * a);
    ProductInUnit(d, -15.0 + 30.0 * a + 6.0 * d, 51.0, d * (-15.0 + 30.0 * a + 6.0 * d));
  }

  lemma ProductInUnit(a: real, b: real, bound: real, ab: real)
    requires -1.0 <= a <= 1.0 && -bound <= b <= bound && ab == a * b
    ensures -bound <= ab <= bound
  {
    if a >= 0.0 {
      MulMonotone(a, b, bound, ab, a * bound);
      MulMonotone(a, -bound, b, a * -bound, ab);
    } else {
      MulMonotone(-a, b, bound, -ab, -a * bound);
      MulMonotone(-a, -bound, b, -a * -bound, -ab);
    }
    MulMonotone(bound, a, 1.0, bound * a, bound);
    MulMonotone(bound, -a, 1.0, bound * -a, bound);
  }

  lemma ScaledBound(k: real, x: real, bound: real, kx: real)
    requires k >= 0.0 && -bound <= x <= bound && kx == k * x
    ensures -bound * k <= kx <= bound * k
  {
    MulMonotone(k, x, bound, kx, k * bound);
    MulMonotone(k, -bound, x, k * -bound, kx);
  }

  /** What a quantity going from x to x' during d moves more than its rate says. */
  ghost function Rest(x: real, x': real, d: real, rate: real): real {
    x' - x - d * rate
  }

  ghost function Square(x: real): real {
    x * x
  }

  /** In time: from t to t', the position blend moves as the velocity at t says, and that as the acceleration at t says,
      up to a second-order term in the share of the duration that has passed. */
  lemma DerivativesInTime(t: real, t': real, duration: real, dt: real, share: real)
    requires duration > 0.0 && 0.0 <= t <= duration && 0.0 <= t' <= duration && dt == t' - t
    requires share * duration == dt
    ensures var p, p' := MinimumJerkPos(t, duration), MinimumJerkPos(t', duration);
      var v, v' := MinimumJerkVel(t, duration), MinimumJerkVel(t', duration);
      && Abs(Rest(p, p', dt, v)) <= 361.0 * Square(share)
      && duration * Abs(Rest(v, v', dt, MinimumJerkAcc(t, duration))) <= 600.0 * Square(share)
  {
    hide Blend, Speed, Gain, Clamped, Abs, MinimumJerkPos, MinimumJerkVel, MinimumJerkAcc, Rest, Square;
    var a, b := t / duration, t' / duration;
    ShareOfTime(t, t', duration, a, b, share);
    RestsInShare(a, b, share);
    ProfileAt(t, duration, a);
    ProfileAt(t', duration, b);
    var v, v', g := MinimumJerkVel(t, duration), MinimumJerkVel(t', duration), MinimumJerkAcc(t, duration);
    SpeedInTime(duration, share, dt, Blend(a), Blend(b), Speed(a), v);
    GainInTime(duration, share, dt, Speed(a), Speed(b), Gain(a), v, v', g, 600.0 * Square(share));
  }

  lemma RestsInShare(a: real, b: real, share: real)
    requires 0.0 <= a <= 1.0 && 0.0 <= b <= 1.0 && share == b - a
    ensures Abs(Rest(Blend(a), Blend(b), share, Speed(a))) <= 361.0 * Square(share)
    ensures Abs(Rest(Speed(a), Speed(b), share, Gain(a))) <= 600.0 * Square(share)
  {
    hide Blend, Speed, Gain, Abs;
    DerivativesMatch(a, b, share);
  }

  lemma ProfileAt(t: real, duration: real, a: real)
    requires duration > 0.0 && a == t / duration && Clamped(a) == a
    ensures MinimumJerkPos(t, duration) == Blend(a) && MinimumJerkVel(t, duration) * duration == Speed(a)
    ensures MinimumJerkAcc(t, duration) * (duration * duration) == Gain(a)
  {
    hide Blend, Speed, Gain, Clamped;
    MulPos(duration, duration, duration * duration);
  }

  lemma ShareOfTime(t: real, t': real, duration: real, a: real, b: real, share: real)
    requires duration > 0.0 && 0.0 <= t <= duration && 0.0 <= t' <= duration && share * duration == t' - t
    requires a == t / duration && b == t' / duration
    ensures 0.0 <= a <= 1.0 && 0.0 <= b <= 1.0 && share == b - a && Clamped(a) == a && Clamped(b) == b
  {
    hide Clamped;
    QuotientTimes(t, duration, a);
    QuotientTimes(t', duration, b);
    SameFactor(duration, share, b, a);
  }

  lemma QuotientTimes(t: real, duration: real, a: real)
    requires duration > 0.0 && 0.0 <= t <= duration && a == t / duration
    ensures a * duration == t && 0.0 <= a <= 1.0 && Clamped(a) == a
  {
    UnitQuotient(a, duration, t);
  }

  lemma SameFactor(k: real, x: real, y: real, z: real)
    requires k != 0.0 && x * k == y * k - z * k
    ensures x == y - z
  {
    assert k * (x - (y - z)) == 0.0;
    ZeroFactor(k, x - (y - z));
  }

  lemma UnitQuotient(a: real, duration: real, t: real)
    requires duration > 0.0 && a * duration == t && 0.0 <= t <= duration
    ensures 0.0 <= a <= 1.0
  {
    if a < 0.0 {
      MulPos(-a, duration, -a * duration);
    } else if a > 1.0 {
      MulPos(a - 1.0, duration, (a - 1.0) * duration);
    }
  }

  lemma SpeedInTime(duration: real, share: real, dt: real, p: real, p': real, speed: real, v: real)
    requires share * duration == dt && v * duration == speed
    ensures Rest(p, p', dt, v) == Rest(p, p', share, speed)
  {
    MulEq(share, v * duration, speed);
    MulEq(v, share * duration, dt);
  }

  lemma GainInTime(duration: real, share: real, dt: real, speed: real, speed': real, gain: real, v: real, v': real,
                   g: real, bound: real)
    requires duration > 0.0 && share * duration == dt && Abs(Rest(speed, speed', share, gain)) <= bound
    requires v * duration == speed && v' * duration == speed' && g * (duration * duration) == gain
    ensures duration * Abs(Rest(v, v', dt, g)) <= bound
  {
    hide Abs;
    MulEq(duration * g, dt, share * duration);
    MulEq(share, g * (duration * duration), gain);
    assert duration * g * (share * duration) == share * (g * (duration * duration));
    assert duration * (v' - v - dt * g) == v' * duration - v * duration - duration * g * dt;
    ScaledAbs(duration, Rest(v, v', dt, g), Rest(speed, speed', share, gain));
  }

  lemma ScaledAbs(k: real, x: real, kx: real)
    requires k >= 0.0 && kx == k * x
    ensures k * Abs(x) == Abs(kx)
  {
    MulNonNeg(k, Abs(x), k * Abs(x));
  }

  // ----- the jerk at the endpoints

  /** The jerk blend, before the division by the duration cubed. */
  ghost function Jerk(x: real): real {
    60.0 - 360.0 * x + 360.0 * (x * x)
  }

  /** Difference quotients of the acceleration blend tend to the jerk blend. */
  lemma JerkMatches(a: real, b: real, d: real)
    requires 0.0 <= a <= 1.0 && 0.0 <= b <= 1.0 && d == b - a
    ensures Abs(Gain(b) - Gain(a) - d * Jerk(a)) <= 300.0 * (d * d)
  {
    hide Gain, Jerk;
    var rest := -180.0 + 360.0 * a + 120.0 * d;
    GainTaylor(a, d, b);
    SquareNonNeg(d);
    ScaledBound(d * d, rest, 300.0, Gain(b) - Gain(a) - d * Jerk(a));
  }

  lemma GainTaylor(a: real, d: real, b: real)
    requires d == b - a
    ensures Gain(b) - Gain(a) - d * Jerk(a) == d * d * (-180.0 + 360.0 * a + 120.0 * d)
  {}

  /** The jerk of a joint at time t of its motion. */
  ghost function JointJerk(current: real, target: real, t: real, duration: real): real
    requires duration > 0.0
  {
    (target - current) * (Jerk(Clamped(t / duration)) / (duration * duration * duration))
  }

  /** Against the promise of the builder's description, the profile does not end with zero jerk: at either end a
      joint's jerk is zero if and only if it does not move at all. */
  lemma EndJerkIsZeroIff(current: real, target: real, duration: real)
    requires duration > 0.0
    ensures JointJerk(current, target, 0.0, duration) == 0.0 <==> target == current
    ensures JointJerk(current, target, duration, duration) == 0.0 <==> target == current
  {
    JerkAtEnds(duration);
    hide Jerk, Clamped;
    var cube := duration * duration * duration;
    MulPos(duration, duration, duration * duration);
    MulPos(duration * duration, duration, cube);
    SixtyOver(cube, target - current);
  }

  lemma JerkAtEnds(duration: real)
    requires duration > 0.0
    ensures Jerk(Clamped(0.0 / duration)) == 60.0 == Jerk(Clamped(duration / duration))
  {
    assert 0.0 / duration == 0.0 && duration / duration == 1.0;
    assert Jerk(0.0) == 60.0 && Jerk(1.0) == 60.0;
  }

  lemma SixtyOver(cube: real, move: real)
    requires cube > 0.0
    ensures move * (60.0 / cube) == 0.0 <==> move == 0.0
  {
    var q := 60.0 / cube;
    assert q * cube == 60.0;
    if move != 0.0 && move * q == 0.0 {
      ZeroFactor(move, q);
      assert false;
    }
  }

  // ----- time stamps

  /** Python's round: halves go to the even neighbour. */
  function RoundHalfEven(x: real): int {
    var f := x.Floor;
    var d := x - f as real;
    if d < 0.5 then f else if d > 0.5 then f + 1 else if f % 2 == 0 then f else f + 1
  }

  const BILLION: int := 1000000000

  datatype Duration = Duration(sec: int, nanosec: int) {
    function Stamp(): int {
      BILLION * sec + nanosec
    }
  }

  function TimeStamp(t: real): Duration
    requires t >= 0.0
  {
    var secs := t.Floor;
    Duration(secs, RoundHalfEven((t - secs as real) * BILLION as real))
  }

  /** The stamp, counted in nanoseconds, is the time to within half a nanosecond. */
  lemma StampIsClose(t: real)
    requires t >= 0.0
    ensures -0.5 <= TimeStamp(t).Stamp() as real - t * BILLION as real <= 0.5
  {}

  /** The nanosecond field stays below a second exactly when rounding does not carry. */
  lemma NanosecondsCarry(t: real)
    requires t >= 0.0
    ensures 0 <= TimeStamp(t).nanosec <= BILLION
    ensures TimeStamp(t).nanosec < BILLION <==> (t - t.Floor as real) * BILLION as real < 999999999.5
  {}

  lemma NanosecondsCanReachASecond()
    ensures TimeStamp(0.9999999996).nanosec == BILLION
  {}

  // ----- waypoints

  datatype Waypoint = Waypoint(positions: seq<real>, velocities: seq<real>, accelerations: seq<real>,
                               timeFromStart: Duration)

  function WaypointTime(duration: real, n: nat, i: nat): real
    requires n > 0
  {
    duration * i as real / n as real
  }

  /** Waypoint i of n, as the definition of minimum-jerk interpolation has it. */
  ghost function WaypointAt(current: seq<real>, target: seq<real>, duration: real, n: nat, i: nat): Waypoint
    requires duration > 0.0 && 0 < n && i <= n
  {
    var t := WaypointTime(duration, n, i);
    TimeNonNeg(duration, n, i);
    var joints := Min(|current|, |target|);
    Waypoint(
      seq(joints, j requires 0 <= j < joints => current[j] + (target[j] - current[j]) * MinimumJerkPos(t, duration)),
      seq(joints, j requires 0 <= j < joints => (target[j] - current[j]) * MinimumJerkVel(t, duration)),
      seq(joints, j requires 0 <= j < joints => (target[j] - current[j]) * MinimumJerkAcc(t, duration)),
      TimeStamp(t))
  }

  /** The time of waypoint i is the fraction i / n of the duration. */
  lemma TimeNonNeg(duration: real, n: nat, i: nat)
    requires duration > 0.0 && 0 < n && i <= n
    ensures var t := WaypointTime(duration, n, i); 0.0 <= t && t / duration == i as real / n as real
  {
    var t := WaypointTime(duration, n, i);
    FractionOfTime(duration, i as real, n as real, t, i as real / n as real, t / duration);
  }

  lemma FractionOfTime(duration: real, d: real, x: real, t: real, f: real, g: real)
    requires duration > 0.0 && x > 0.0 && d >= 0.0 && t * x == duration * d && f * x == d && g == t / duration
    ensures 0.0 <= t && g == f
  {}

  method BuildMinimumJerkTrajectory(current: seq<real>, target: seq<real>, duration: real, nWaypoints: nat)
    returns (points: seq<Waypoint>)
    requires duration > 0.0 && nWaypoints > 0
    ensures |points| == nWaypoints + 1
    ensures forall i :: 0 <= i <= nWaypoints ==> points[i] == WaypointAt(current, target, duration, nWaypoints, i)
  {
    hide WaypointTime, MinimumJerkPos, MinimumJerkVel, MinimumJerkAcc, TimeStamp;
    points := [];
    for i := 0 to nWaypoints + 1
      invariant |points| == i
      invariant forall k :: 0 <= k < i ==> points[k] == WaypointAt(current, target, duration, nWaypoints, k)
    {
      TimeNonNeg(duration, nWaypoints, i);
      var t := WaypointTime(duration, nWaypoints, i);
      var s, sd, sdd := MinimumJerkPos(t, duration), MinimumJerkVel(t, duration), MinimumJerkAcc(t, duration);
      var joints := Min(|current|, |target|);
      var point := Waypoint(
        seq(joints, j requires 0 <= j < joints => current[j] + (target[j] - current[j]) * s),
        seq(joints, j requires 0 <= j < joints => (target[j] - current[j]) * sd),
        seq(joints, j requires 0 <= j < joints => (target[j] - current[j]) * sdd),
        TimeStamp(t));
      var expected := WaypointAt(current, target, duration, nWaypoints, i);
      points := points + [point];
    }
  }

  /** Positions, velocities and accelerations of one trajectory belong together: from waypoint i to waypoint k a joint
      moves as its velocity at i says, and that changes as its acceleration at i says, up to a second-order term. */
  lemma WaypointsBelongTogether(current: seq<real>, target: seq<real>, duration: real, n: nat, i: nat, k: nat, j: nat,
                                share: real, dt: real)
    requires duration > 0.0 && 0 < n && i <= n && k <= n && j < |current| && j < |target|
    requires share * n as real == k as real - i as real && dt == share * duration
    ensures var w, w' := WaypointAt(current, target, duration, n, i), WaypointAt(current, target, duration, n, k);
      var move := Abs(target[j] - current[j]);
      && Abs(Rest(w.positions[j], w'.positions[j], dt, w.velocities[j])) <= 361.0 * Square(share) * move
      && duration * Abs(Rest(w.velocities[j], w'.velocities[j], dt, w.accelerations[j])) <= 600.0 * Square(share) * move
  {
    hide MinimumJerkPos, MinimumJerkVel, MinimumJerkAcc, TimeStamp, WaypointTime, WaypointAt, Abs, Rest, Square;
    var t, t', move := WaypointTime(duration, n, i), WaypointTime(duration, n, k), target[j] - current[j];
    TimesApart(duration, n, i, k, share);
    DerivativesInTime(t, t', duration, dt, share);
    FieldsAre(current, target, duration, n, i, j, move);
    FieldsAre(current, target, duration, n, k, j, move);
    var w, w' := WaypointAt(current, target, duration, n, i), WaypointAt(current, target, duration, n, k);
    var p, p' := MinimumJerkPos(t, duration), MinimumJerkPos(t', duration);
    var v, v', g := MinimumJerkVel(t, duration), MinimumJerkVel(t', duration), MinimumJerkAcc(t, duration);
    var square := Square(share);
    MovedBy(move, p, p', dt, v, current[j], 361.0 * square, w.positions[j], w'.positions[j], w.velocities[j]);
    ScaledBy(move, v, v', dt, g, duration, 600.0 * square, w.velocities[j], w'.velocities[j], w.accelerations[j]);
  }

  lemma FieldsAre(current: seq<real>, target: seq<real>, duration: real, n: nat, i: nat, j: nat, move: real)
    requires duration > 0.0 && 0 < n && i <= n && j < |current| && j < |target| && move == target[j] - current[j]
    ensures var w, t := WaypointAt(current, target, duration, n, i), WaypointTime(duration, n, i);
      && |w.positions| == |w.velocities| == |w.accelerations| == Min(|current|, |target|)
      && w.positions[j] == current[j] + move * MinimumJerkPos(t, duration)
      && w.velocities[j] == move * MinimumJerkVel(t, duration)
      && w.accelerations[j] == move * MinimumJerkAcc(t, duration)
  {
    hide MinimumJerkPos, MinimumJerkVel, MinimumJerkAcc, TimeStamp, WaypointTime;
  }

  lemma TimesApart(duration: real, n: nat, i: nat, k: nat, share: real)
    requires duration > 0.0 && 0 < n && i <= n && k <= n && share * n as real == k as real - i as real
    ensures var t, t' := WaypointTime(duration, n, i), WaypointTime(duration, n, k);
      0.0 <= t <= duration && 0.0 <= t' <= duration && share * duration == t' - t
  {
    TimeInRange(duration, n, i);
    TimeInRange(duration, n, k);
    var t, t' := WaypointTime(duration, n, i), WaypointTime(duration, n, k);
    assert t * n as real == duration * i as real && t' * n as real == duration * k as real;
    assert (share * duration - (t' - t)) * n as real == 0.0;
    ZeroFactor(n as real, share * duration - (t' - t));
  }

  lemma TimeInRange(duration: real, n: nat, i: nat)
    requires duration > 0.0 && 0 < n && i <= n
    ensures 0.0 <= WaypointTime(duration, n, i) <= duration
  {
    TimeNonNeg(duration, n, i);
    var t := WaypointTime(duration, n, i);
    assert t * n as real == duration * i as real;
    MulNonNeg(duration, (n - i) as real, duration * (n - i) as real);
    if t > duration {
      MulPos(t - duration, n as real, (t - duration) * n as real);
    }
  }

  lemma MovedBy(move: real, p: real, p': real, dt: real, v: real, c: real, bound: real, x: real, x': real, y: real)
    requires Abs(Rest(p, p', dt, v)) <= bound && x == c + move * p && x' == c + move * p' && y == move * v
    ensures Abs(Rest(x, x', dt, y)) <= bound * Abs(move)
  {
    hide Abs;
    MulEq(dt, y, move * v);
    AbsProduct(move, Rest(p, p', dt, v), bound, Rest(x, x', dt, y));
  }

  lemma ScaledBy(move: real, v: real, v': real, dt: real, g: real, duration: real, bound: real,
                 y: real, y': real, z: real)
    requires duration > 0.0 && duration * Abs(Rest(v, v', dt, g)) <= bound
    requires y == move * v && y' == move * v' && z == move * g
    ensures duration * Abs(Rest(y, y', dt, z)) <= bound * Abs(move)
  {
    hide Abs;
    var e, f := Rest(v, v', dt, g), Rest(y, y', dt, z);
    MulEq(dt, z, move * g);
    assert f == move * e;
    ScaledAbs(duration, e, duration * e);
    AbsProduct(move, duration * e, bound, duration * f);
    ScaledAbs(duration, f, duration * f);
  }

  lemma AbsProduct(a: real, e: real, bound: real, ae: real)
    requires Abs(e) <= bound && ae == a * e
    ensures Abs(ae) <= bound * Abs(a)
  {
    MulMonotone(Abs(a), e, bound, Abs(a) * e, Abs(a) * bound);
    MulMonotone(Abs(a), -bound, e, Abs(a) * -bound, Abs(a) * e);
  }

  // ----- main results

  lemma FractionInUnit(n: nat, i: nat)
    requires 0 < n && i <= n
    ensures 0.0 <= i as real / n as real <= 1.0
  {}

  /** The blend at waypoint i: the clamp never acts. */
  lemma BlendAtWaypoint(duration: real, n: nat, i: nat)
    requires duration > 0.0 && 0 < n && i <= n
    ensures MinimumJerkPos(WaypointTime(duration, n, i), duration) == Blend(i as real / n as real)
  {
    hide WaypointTime, Blend;
    TimeNonNeg(duration, n, i);
    FractionInUnit(n, i);
  }

  /** Every waypoint lies between start and target, so any limits both of them keep, it keeps. */
  lemma WaypointKeepsLimits(current: seq<real>, target: seq<real>, duration: real, n: nat, i: nat, j: nat, lo: real,
                            hi: real)
    requires duration > 0.0 && 0 < n && i <= n && j < |current| && j < |target|
    requires lo <= current[j] <= hi && lo <= target[j] <= hi
    ensures lo <= WaypointAt(current, target, duration, n, i).positions[j] <= hi
  {
    hide WaypointTime, Blend, MinimumJerkPos, MinimumJerkVel, MinimumJerkAcc, TimeStamp;
    BlendAtWaypoint(duration, n, i);
    FractionInUnit(n, i);
    BlendInUnit(i as real / n as real);
    Mixed(current[j], target[j], Blend(i as real / n as real), lo, hi);
  }

  lemma Mixed(c: real, t: real, s: real, lo: real, hi: real)
    requires 0.0 <= s <= 1.0 && lo <= c <= hi && lo <= t <= hi
    ensures lo <= c + (t - c) * s <= hi
  {
    MulNonNeg(s, t - lo, s * (t - lo));
    MulNonNeg(s, hi - t, s * (hi - t));
    MulNonNeg(1.0 - s, c - lo, (1.0 - s) * (c - lo));
    MulNonNeg(1.0 - s, hi - c, (1.0 - s) * (hi - c));
    assert c + (t - c) * s - lo == s * (t - lo) + (1.0 - s) * (c - lo);
    assert hi - (c + (t - c) * s) == s * (hi - t) + (1.0 - s) * (hi - c);
  }

  /** The trajectory starts at rest at the current joints and ends at rest at the target. */
  lemma TrajectoryEnds(current: seq<real>, target: seq<real>, duration: real, n: nat, j: nat)
    requires duration > 0.0 && 0 < n && j < |current| && j < |target|
    ensures var w := WaypointAt(current, target, duration, n, 0);
      w.positions[j] == current[j] && w.velocities[j] == 0.0 && w.accelerations[j] == 0.0
    ensures var w := WaypointAt(current, target, duration, n, n);
      w.positions[j] == target[j] && w.velocities[j] == 0.0 && w.accelerations[j] == 0.0
  {
    hide WaypointTime, TimeStamp, MinimumJerkPos, MinimumJerkVel, MinimumJerkAcc;
    TimeNonNeg(duration, n, 0);
    TimeNonNeg(duration, n, n);
    EndsOfRange(n as real);
    var t0, t1 := WaypointTime(duration, n, 0), WaypointTime(duration, n, n);
    AtEnds(t0, duration);
    AtEnds(t1, duration);
    var w0, w1 := WaypointAt(current, target, duration, n, 0), WaypointAt(current, target, duration, n, n);
    var move := target[j] - current[j];
    assert w0.positions[j] == current[j] + move * MinimumJerkPos(t0, duration);
    assert w0.velocities[j] == move * MinimumJerkVel(t0, duration)
      && w0.accelerations[j] == move * MinimumJerkAcc(t0, duration);
    assert w1.positions[j] == current[j] + move * MinimumJerkPos(t1, duration);
    assert w1.velocities[j] == move * MinimumJerkVel(t1, duration)
      && w1.accelerations[j] == move * MinimumJerkAcc(t1, duration);
  }

  lemma EndsOfRange(x: real)
    requires x > 0.0
    ensures 0 as real / x == 0.0 && x / x == 1.0
  {}

  lemma AtEnds(t: real, duration: real)
    requires duration > 0.0
    ensures t / duration == 0.0 ==>
      MinimumJerkPos(t, duration) == 0.0 == MinimumJerkVel(t, duration) == MinimumJerkAcc(t, duration)
    ensures t / duration == 1.0 ==>
      MinimumJerkPos(t, duration) == 1.0 && MinimumJerkVel(t, duration) == 0.0 == MinimumJerkAcc(t, duration)
  {
    assert 0.0 / duration == 0.0;
    MulPos(duration, duration, duration * duration);
    assert 0.0 / (duration * duration) == 0.0;
  }

  /** From waypoint i to waypoint k a joint moves towards its target, by at most 15/8 of the elapsed share. */
  lemma WaypointsAdvance(current: seq<real>, target: seq<real>, duration: real, n: nat, i: nat, k: nat, j: nat)
    requires duration > 0.0 && 0 < n && i <= k <= n && j < |current| && j < |target|
    ensures var move := target[j] - current[j];
      var step := WaypointAt(current, target, duration, n, k).positions[j]
        - WaypointAt(current, target, duration, n, i).positions[j];
      var share := k as real / n as real - i as real / n as real;
      if move >= 0.0 then 0.0 <= step <= 15.0 / 8.0 * share * move else 15.0 / 8.0 * share * move <= step <= 0.0
  {
    hide WaypointTime, Blend, MinimumJerkPos, MinimumJerkVel, MinimumJerkAcc, TimeStamp;
    var a, b := i as real / n as real, k as real / n as real;
    BlendAtWaypoint(duration, n, i);
    BlendAtWaypoint(duration, n, k);
    FractionInUnit(n, i);
    FractionInUnit(n, k);
    FractionsInOrder(n, i, k);
    BlendRises(a, b);
    ScaledMove(target[j] - current[j], Blend(a), Blend(b), 15.0 / 8.0 * (b - a));
  }

  lemma FractionsInOrder(n: nat, i: nat, k: nat)
    requires 0 < n && i <= k <= n
    ensures i as real / n as real <= k as real / n as real
  {
    var a, b := i as real / n as real, k as real / n as real;
    assert a * n as real == i as real && b * n as real == k as real;
    if a > b {
      MulPos(a - b, n as real, (a - b) * n as real);
    }
  }

  lemma ScaledMove(move: real, s: real, s': real, bound: real)
    requires 0.0 <= s' - s <= bound
    ensures move >= 0.0 ==> 0.0 <= move * s' - move * s <= bound * move
    ensures move < 0.0 ==> bound * move <= move * s' - move * s <= 0.0
  {}

  /** With the estimated duration no waypoint is faster than 15/8 of the scaled joint speed. */
  lemma SpeedIsBounded(current: seq<real>, target: seq<real>, speedFactor: real, n: nat, i: nat, j: nat)
    requires speedFactor > 0.0 && 0 < n && i <= n && j < |current| && j < |target|
    ensures var duration := EstimateDuration(current, target, speedFactor);
      duration >= 5.0 && Abs(WaypointAt(current, target, duration, n, i).velocities[j]) <= 1.875 * 2.175 * speedFactor
  {
    hide MinimumJerkPos, MinimumJerkAcc, MinimumJerkVel, TimeStamp, EstimateDuration, MaxMove;
    DurationIsLongEnough(current, target, speedFactor, j);
    SpeedWithin(current, target, EstimateDuration(current, target, speedFactor), n, i, j, 2.175 * speedFactor);
  }

  lemma SpeedWithin(current: seq<real>, target: seq<real>, duration: real, n: nat, i: nat, j: nat, speed: real)
    requires duration > 0.0 && 0 < n && i <= n && j < |current| && j < |target|
    requires speed > 0.0 && Abs(target[j] - current[j]) <= speed * duration
    ensures Abs(WaypointAt(current, target, duration, n, i).velocities[j]) <= 1.875 * speed
  {
    hide WaypointTime, MinimumJerkPos, MinimumJerkAcc, MinimumJerkVel, TimeStamp;
    var t := WaypointTime(duration, n, i);
    VelocityBounded(t, duration);
    assert WaypointAt(current, target, duration, n, i).velocities[j]
      == (target[j] - current[j]) * MinimumJerkVel(t, duration);
    LimitedSpeed(target[j] - current[j], MinimumJerkVel(t, duration), duration, speed);
  }

  /** The estimate is the least duration of at least five seconds in which no joint is faster on average
      than allowed. */
  lemma EstimateIsLeast(current: seq<real>, target: seq<real>, speedFactor: real, duration: real)
    requires current != [] && target != [] && speedFactor > 0.0 && duration >= 5.0
    requires forall j :: 0 <= j < Min(|current|, |target|) ==>
      Abs(target[j] - current[j]) <= 2.175 * speedFactor * duration
    ensures EstimateDuration(current, target, speedFactor) <= duration
  {
    hide MaxMove, Abs;
    var m, speed := MaxMove(current, target), 2.175 * speedFactor;
    var j :| 0 <= j < Min(|current|, |target|) && m == Abs(target[j] - current[j]);
    QuotientAtMost(m, speed, duration);
  }

  lemma QuotientAtMost(m: real, speed: real, duration: real)
    requires speed > 0.0 && m <= speed * duration
    ensures m / speed <= duration
  {
    var d := m / speed;
    assert d * speed == m;
    if d > duration {
      MulPos(speed, d - duration, speed * (d - duration));
    }
  }

  lemma DurationIsLongEnough(current: seq<real>, target: seq<real>, speedFactor: real, j: nat)
    requires speedFactor > 0.0 && j < |current| && j < |target|
    ensures var duration := EstimateDuration(current, target, speedFactor);
      duration >= 5.0 && Abs(target[j] - current[j]) <= 2.175 * speedFactor * duration
  {
    hide MaxMove;
    var speed, m := 2.175 * speedFactor, MaxMove(current, target);
    var d := m / speed;
    assert d * speed == m;
    assert j < Min(|current|, |target|);
    MulNonNeg(speed, EstimateDuration(current, target, speedFactor) - d,
      speed * (EstimateDuration(current, target, speedFactor) - d));
  }

  lemma VelocityBounded(t: real, duration: real)
    requires duration > 0.0
    ensures 0.0 <= MinimumJerkVel(t, duration) * duration <= 15.0 / 8.0
  {
    var tau := Clamped(t / duration);
    var b := Speed(tau);
    VelocityBlendBounded(tau);
    assert b / duration * duration == b;
  }

  lemma LimitedSpeed(move: real, v: real, duration: real, speed: real)
    requires duration > 0.0 && speed > 0.0 && Abs(move) <= speed * duration && 0.0 <= v * duration <= 1.875
    ensures Abs(move * v) <= 1.875 * speed
  {}

  /** The time stamps of a trajectory, in nanoseconds, strictly increase. */
  ghost predicate StampsIncrease(current: seq<real>, target: seq<real>, duration: real, n: nat)
    requires duration > 0.0 && 0 < n
  {
    forall i, k :: 0 <= i < k <= n ==>
      StampOf(current, target, duration, n, i) < StampOf(current, target, duration, n, k)
  }

  ghost function StampOf(current: seq<real>, target: seq<real>, duration: real, n: nat, i: nat): int
    requires duration > 0.0 && 0 < n && i <= n
  {
    WaypointAt(current, target, duration, n, i).timeFromStart.Stamp()
  }

  /** They do if and only if the last stamp is at least the number of waypoints after the first. */
  lemma StampsIncreaseIff(current: seq<real>, target: seq<real>, duration: real, n: nat)
    requires duration > 0.0 && 0 < n
    ensures StampsIncrease(current, target, duration, n) <==> TimeStamp(duration).Stamp() >= n
  {
    hide StampOf, TimeStamp;
    StampsAtEnds(current, target, duration, n);
    if StampsIncrease(current, target, duration, n) {
      StampsCount(current, target, duration, n, n);
    }
    if TimeStamp(duration).Stamp() >= n {
      forall i, k | 0 <= i < k <= n
        ensures StampOf(current, target, duration, n, i) < StampOf(current, target, duration, n, k)
      {
        StampsInOrder(current, target, duration, n, i, k);
      }
    }
  }

  lemma StampsAtEnds(current: seq<real>, target: seq<real>, duration: real, n: nat)
    requires duration > 0.0 && 0 < n
    ensures StampOf(current, target, duration, n, 0) == 0
    ensures StampOf(current, target, duration, n, n) == TimeStamp(duration).Stamp()
  {
    hide MinimumJerkPos, MinimumJerkVel, MinimumJerkAcc, WaypointTime;
    TimesAtEnds(duration, n);
  }

  lemma TimesAtEnds(duration: real, n: nat)
    requires 0 < n
    ensures WaypointTime(duration, n, 0) == 0.0 && WaypointTime(duration, n, n) == duration
  {}

  /** Strictly increasing whole numbers from 0 reach i after i steps. */
  lemma {:induction false} StampsCount(current: seq<real>, target: seq<real>, duration: real, n: nat, i: nat)
    requires duration > 0.0 && 0 < n && i <= n && StampsIncrease(current, target, duration, n)
    ensures StampOf(current, target, duration, n, i) >= i
  {
    hide StampOf;
    if i == 0 {
      StampsAtEnds(current, target, duration, n);
    } else {
      StampsCount(current, target, duration, n, i - 1);
    }
  }

  /** The stamp of waypoint i is within one half of its share of the duration. */
  lemma StampIsShare(current: seq<real>, target: seq<real>, duration: real, n: nat, i: nat) returns (x: real)
    requires duration > 0.0 && 0 < n && i <= n
    ensures x * n as real == duration * BILLION as real * i as real
    ensures -0.5 <= StampOf(current, target, duration, n, i) as real - x <= 0.5
  {
    hide MinimumJerkPos, MinimumJerkVel, MinimumJerkAcc, TimeStamp;
    TimeNonNeg(duration, n, i);
    var t := WaypointTime(duration, n, i);
    StampIsClose(t);
    x := t * BILLION as real;
    assert t * n as real == duration * i as real;
  }

  lemma StampsInOrder(current: seq<real>, target: seq<real>, duration: real, n: nat, i: nat, k: nat)
    requires duration > 0.0 && 0 < n && i < k <= n && TimeStamp(duration).Stamp() >= n
    ensures StampOf(current, target, duration, n, i) < StampOf(current, target, duration, n, k)
  {
    hide StampOf, TimeStamp;
    var d := duration * BILLION as real;
    StampIsClose(duration);
    var x := StampIsShare(current, target, duration, n, i);
    var y := StampIsShare(current, target, duration, n, k);
    if d > n as real {
      NanosecondApart(d, i as real, k as real, n as real, x, y);
    } else {
      NearlyWhole(d, i as real, n as real, x);
      if k < n {
        NearlyWhole(d, k as real, n as real, y);
      } else {
        StampsAtEnds(current, target, duration, n);
      }
    }
  }

  /** More than a nanosecond per step: rounding by one half at both ends cannot make up for it. */
  lemma NanosecondApart(d: real, i: real, k: real, n: real, x: real, y: real)
    requires k >= i + 1.0 && x * n == d * i && y * n == d * k && d > n > 0.0
    ensures y - x > 1.0
  {
    MulNonNeg(d, k - i - 1.0, d * (k - i - 1.0));
    assert (y - x) * n >= d;
    if y - x <= 1.0 {
      MulNonNeg(n, 1.0 - (y - x), n * (1.0 - (y - x)));
    }
  }

  /** At most a nanosecond per step, but short of n by at most one half in all: every share rounds to its number. */
  lemma NearlyWhole(d: real, i: real, n: real, x: real)
    requires 0.0 <= i < n && x * n == d * i && n - 0.5 <= d <= n
    ensures i - 0.5 < x <= i
  {
    MulNonNeg(i, n - d, i * (n - d));
    MulNonNeg(i, d - n + 0.5, i * (d - n + 0.5));
    assert (i - x) * n == i * (n - d);
    if x > i {
      MulPos(x - i, n, (x - i) * n);
    }
    if i - x >= 0.5 {
      MulNonNeg(i - x - 0.5, n, (i - x - 0.5) * n);
    }
  }

  /** Two steps in one nanosecond: the first stamp is repeated. */
  lemma StampsCanRepeat(current: seq<real>, target: seq<real>)
    ensures !StampsIncrease(current, target, 0.000000001, 2)
  {
    StampsIncreaseIff(current, target, 0.000000001, 2);
  }

  /** The estimated duration is long enough for that at any realistic number of waypoints. */
  lemma EstimatedStampsIncrease(current: seq<real>, target: seq<real>, speedFactor: real, n: nat)
    requires current != [] && target != [] && speedFactor > 0.0 && 0 < n <= 5 * BILLION
    ensures var duration := EstimateDuration(current, target, speedFactor);
      duration > 0.0 && StampsIncrease(current, target, duration, n)
  {
    hide EstimateDuration, StampsIncrease, TimeStamp;
    var duration := EstimateDuration(current, target, speedFactor);
    DurationIsLongEnough(current, target, speedFactor, 0);
    StampIsClose(duration);
    StampsIncreaseIff(current, target, duration, n);
  }
}
