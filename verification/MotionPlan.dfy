/** How fast one joint moves from start to goal (motion_generator.cpp, lines 82-113): the fastest motion its limits
    allow, and the lower speed with which it takes as long as the slowest joint. */
module MotionPlan {
  import opened Basics
  import opened Vectors

  /** The limits of one joint: top speed, and peak accelerations when leaving and when arriving. */
  datatype Limits = Limits(speed: real, start: real, goal: real) {
    predicate IsPositive() {
      speed > 0.0 && start > 0.0 && goal > 0.0
    }
  }

  function Sign(x: real): real {
    if x < 0.0 then -1.0 else if x > 0.0 then 1.0 else 0.0
  }

  /** The two ramps of a motion with top speed r take Ramps(l) * r longer than cruising all the way. */
  ghost function Ramps(l: Limits): real
    requires l.IsPositive()
  {
    0.75 * (1.0 / l.start + 1.0 / l.goal)
  }

  /** How long a motion over distance d with top speed r takes. */
  ghost function Duration(d: real, l: Limits, r: real): real
    requires l.IsPositive() && r > 0.0
  {
    Ramps(l) * r + d / r
  }

  lemma Quotient(n: real, d: real, q: real)
    requires d != 0.0 && q == n / d
    ensures q * d == n
  {}

  lemma RampsTimes(l: Limits, ga: real)
    requires l.IsPositive() && ga == l.goal * l.start
    ensures Ramps(l) > 0.0 && ga > 0.0
    ensures Ramps(l) * ga == 1.5 / 2.0 * (l.goal + l.start)
  {}

  // ----- the fastest motion of a single joint

  /** The distance both ramps cover together at top speed. */
  function RampDistance(l: Limits): real
    requires l.IsPositive()
  {
    3.0 / 4.0 * (l.speed * l.speed / l.start) + 3.0 / 4.0 * (l.speed * l.speed / l.goal)
  }

  function ShortSpeedSquared(delta: real, l: Limits): real
    requires l.IsPositive()
  {
    4.0 / 3.0 * delta * Sign(delta) * (l.start * l.goal) / (l.start + l.goal)
  }

  /** dq_max_reach: the top speed, lowered if the distance is too short to reach it. */
  function ReachSpeed(delta: real, l: Limits, root: real -> real): real
    requires l.IsPositive()
  {
    if Abs(delta) < RampDistance(l) then root(ShortSpeedSquared(delta, l)) else l.speed
  }

  /** r is admissible, its ramps fit into d, and it is the speed limit unless the ramps use up all of d. */
  ghost predicate IsReach(d: real, l: Limits, r: real)
    requires l.IsPositive()
  {
    && 0.0 < r <= l.speed
    && Ramps(l) * (r * r) <= d
    && (r == l.speed || Ramps(l) * (r * r) == d)
  }

  lemma ReachSpeedIsReach(delta: real, l: Limits, root: real -> real)
    requires l.IsPositive() && delta != 0.0 && IsSquareRoot(root)
    ensures IsReach(Abs(delta), l, ReachSpeed(delta, l, root))
  {
    hide Ramps, RampDistance, ShortSpeedSquared;
    RampsTimes(l, l.goal * l.start);
    RampDistanceIsRamps(l);
    ShortSpeedBalances(delta, l);
    if Abs(delta) < RampDistance(l) {
      var rr := ShortSpeedSquared(delta, l);
      ShortReachFits(Abs(delta), Ramps(l), l.speed, root(rr), rr);
    }
  }

  lemma RampDistanceIsRamps(l: Limits)
    requires l.IsPositive()
    ensures RampDistance(l) == Ramps(l) * (l.speed * l.speed)
  {}

  lemma ShortSpeedBalances(delta: real, l: Limits)
    requires l.IsPositive() && delta != 0.0
    ensures ShortSpeedSquared(delta, l) >= 0.0 && Ramps(l) * ShortSpeedSquared(delta, l) == Abs(delta)
  {}

  lemma ShortReachFits(d: real, h: real, v: real, r: real, rr: real)
    requires d > 0.0 && v > 0.0 && h > 0.0 && r >= 0.0 && r * r == rr && h * rr == d < h * (v * v)
    ensures 0.0 < r <= v && h * (r * r) == d
  {}

  /** No admissible speed brings the joint to its goal sooner. */
  lemma ReachIsFastest(d: real, l: Limits, r: real, r': real)
    requires l.IsPositive() && d > 0.0 && IsReach(d, l, r) && 0.0 < r' <= l.speed
    ensures Duration(d, l, r) <= Duration(d, l, r')
  {
    hide Ramps;
    RampsTimes(l, l.goal * l.start);
    Quotient(d, r, d / r);
    Quotient(d, r', d / r');
    SlowerIsLater(d, Ramps(l), r, r', d / r, d / r');
  }

  lemma SlowerIsLater(d: real, h: real, r: real, r': real, k: real, k': real)
    requires h > 0.0 && r > 0.0 && r' > 0.0 && k * r == d && k' * r' == d
    requires h * (r * r) <= d && (r' <= r || h * (r * r) == d)
    ensures h * r + k <= h * r' + k'
  {
    var rr := r * r';
    MulPos(r, r', rr);
    var gain := h * r' + k' - h * r - k;
    FasterBy(d, h, r, r', k, k', rr, gain);
    ReachSide(d, h, r, r', rr);
    if r' <= r {
      Signed(rr, gain, r - r', d - h * rr);
    } else {
      Signed(rr, gain, r' - r, h * rr - d);
    }
  }

  lemma Signed(k: real, x: real, a: real, b: real)
    requires k > 0.0 && a >= 0.0 && b >= 0.0 && k * x == a * b
    ensures x >= 0.0
  {}

  lemma FasterBy(d: real, h: real, r: real, r': real, k: real, k': real, rr: real, gain: real)
    requires k * r == d && k' * r' == d && rr == r * r' && gain == h * r' + k' - h * r - k
    ensures rr * gain == (r' - r) * (h * rr - d) == (r - r') * (d - h * rr)
  {}

  lemma ReachSide(d: real, h: real, r: real, r': real, rr: real)
    requires h > 0.0 && r > 0.0 && h * (r * r) <= d && rr == r * r'
    ensures r' <= r ==> h * rr <= d
    ensures r' >= r && h * (r * r) == d ==> h * rr >= d
  {}

  // ----- slowing a joint down to the common duration

  // a, b and c of the quadratic whose smaller root is the speed for the common duration

  function CoefficientA(l: Limits): real {
    1.5 / 2.0 * (l.goal + l.start)
  }

  function CoefficientB(l: Limits, maxTf: real): real {
    -1.0 * maxTf * l.goal * l.start
  }

  function CoefficientC(d: real, l: Limits): real {
    d * l.goal * l.start
  }

  function Discriminant(a: real, b: real, c: real): real {
    b * b - 4.0 * a * c
  }

  function SyncSpeed(d: real, l: Limits, maxTf: real, root: real -> real): real
    requires l.IsPositive()
  {
    var a, b, c := CoefficientA(l), CoefficientB(l, maxTf), CoefficientC(d, l);
    var delta := Discriminant(a, b, c);
    (-1.0 * b - root(if delta < 0.0 then 0.0 else delta)) / (2.0 * a)
  }

  /** The clamp on the discriminant never acts, and the synchronised speed is admissible, no faster than
      the joint's own fastest motion, and makes the motion last exactly as long as the slowest one. */
  lemma SyncSpeedSynchronises(d: real, l: Limits, r: real, maxTf: real, root: real -> real)
    requires l.IsPositive() && d > 0.0 && IsSquareRoot(root)
    requires IsReach(d, l, r) && maxTf >= Duration(d, l, r)
    ensures Discriminant(CoefficientA(l), CoefficientB(l, maxTf), CoefficientC(d, l)) >= 0.0
    ensures var x := SyncSpeed(d, l, maxTf, root);
      0.0 < x <= r && Duration(d, l, x) == maxTf && Ramps(l) * (x * x) <= d
  {
    hide Ramps, Duration, IsReach, CoefficientA, CoefficientB, CoefficientC, Discriminant, SyncSpeed;
    var a, b, c := CoefficientA(l), CoefficientB(l, maxTf), CoefficientC(d, l);
    var delta := Discriminant(a, b, c);
    ReachFits(d, l, r, maxTf, a, b, c, delta);
    var x := SyncSpeed(d, l, maxTf, root);
    SyncSpeedIsRoot(d, l, maxTf, root, a, b, c, delta, x);
    SmallerRoot(a, b, c, root(delta), x, r);
    RootIsDuration(d, l, r, maxTf, a, b, c, x);
  }

  /** At the joint's own best speed the quadratic is not positive, so it has roots. */
  lemma ReachFits(d: real, l: Limits, r: real, maxTf: real, a: real, b: real, c: real, delta: real)
    requires l.IsPositive() && d > 0.0 && IsReach(d, l, r) && maxTf >= Duration(d, l, r)
    requires a == CoefficientA(l) && b == CoefficientB(l, maxTf) && c == CoefficientC(d, l)
      && delta == Discriminant(a, b, c)
    ensures delta == b * b - 4.0 * a * c >= 0.0 && a > 0.0 && b < 0.0 && c > 0.0 && a * (r * r) + b * r + c <= 0.0
  {
    hide Ramps, Duration, IsReach, CoefficientA, CoefficientB, CoefficientC, Discriminant;
    CoefficientsScale(d, l, maxTf);
    var k := ReachTime(d, l, r, maxTf);
    SlowestFits(d, Ramps(l), l.goal * l.start, maxTf, r, k, a, b, c, delta);
  }

  lemma ReachTime(d: real, l: Limits, r: real, maxTf: real) returns (k: real)
    requires l.IsPositive() && IsReach(d, l, r) && maxTf >= Duration(d, l, r)
    ensures r > 0.0 && k * r == d && maxTf >= Ramps(l) * r + k
  {
    hide Ramps;
    k := d / r;
    Quotient(d, r, k);
  }

  /** A root of the quadratic is a speed with which the motion lasts maxTf. */
  lemma RootIsDuration(d: real, l: Limits, r: real, maxTf: real, a: real, b: real, c: real, x: real)
    requires l.IsPositive() && IsReach(d, l, r) && 0.0 < x <= r && a * (x * x) + b * x + c == 0.0
    requires a == CoefficientA(l) && b == CoefficientB(l, maxTf) && c == CoefficientC(d, l)
    ensures Duration(d, l, x) == maxTf && Ramps(l) * (x * x) <= d
  {
    hide Ramps, Duration, CoefficientA, CoefficientB, CoefficientC;
    CoefficientsScale(d, l, maxTf);
    RootBalances(d, Ramps(l), l.goal * l.start, maxTf, a, b, c, x);
    BalancedDuration(d, l, Ramps(l), x, r, maxTf);
  }

  lemma SyncSpeedIsRoot(d: real, l: Limits, maxTf: real, root: real -> real, a: real, b: real, c: real, delta: real,
                        x: real)
    requires l.IsPositive() && a == CoefficientA(l) && b == CoefficientB(l, maxTf) && c == CoefficientC(d, l)
    requires delta == Discriminant(a, b, c) >= 0.0 && IsSquareRoot(root) && x == SyncSpeed(d, l, maxTf, root)
    ensures x * (2.0 * a) == -1.0 * b - root(delta)
    ensures root(delta) >= 0.0 && root(delta) * root(delta) == delta
  {
    hide CoefficientA, CoefficientB, CoefficientC, Discriminant;
    CoefficientIsPositive(l);
    Quotient(-1.0 * b - root(delta), 2.0 * a, x);
  }

  lemma CoefficientIsPositive(l: Limits)
    requires l.IsPositive()
    ensures CoefficientA(l) > 0.0
  {}

  lemma CoefficientsScale(d: real, l: Limits, maxTf: real)
    requires l.IsPositive()
    ensures var ga := l.goal * l.start;
      && ga > 0.0 && Ramps(l) > 0.0 && CoefficientA(l) == Ramps(l) * ga
      && CoefficientB(l, maxTf) == -maxTf * ga && CoefficientC(d, l) == d * ga
    ensures var a, b, c := CoefficientA(l), CoefficientB(l, maxTf), CoefficientC(d, l);
      Discriminant(a, b, c) == b * b - 4.0 * a * c
  {}

  lemma SlowestFits(d: real, h: real, ga: real, t: real, r: real, k: real, a: real, b: real, c: real, delta: real)
    requires d > 0.0 && h > 0.0 && ga > 0.0 && r > 0.0 && k * r == d && t >= h * r + k
    requires a == h * ga && b == -t * ga && c == d * ga && delta == b * b - 4.0 * a * c
    ensures delta >= 0.0 && a > 0.0 && b < 0.0 && c > 0.0 && a * (r * r) + b * r + c <= 0.0
  {
    MulPos(h, ga, a);
    MulPos(d, ga, c);
    MulPos(h, r, h * r);
    InverseScaled(d, r, k);
    MulPos(t, ga, t * ga);
    QuadraticAtReach(d, h, ga, t, r, k, a, b, c);
    QuadraticHasRoots(a, b, c, r, delta);
  }

  lemma BalancedDuration(d: real, l: Limits, h: real, x: real, r: real, maxTf: real)
    requires l.IsPositive() && h == Ramps(l) > 0.0 && 0.0 < x <= r
    requires h * (x * x) + d == maxTf * x && h * (r * r) <= d
    ensures Duration(d, l, x) == maxTf && h * (x * x) <= d
  {}

  lemma InverseScaled(d: real, r: real, k: real)
    requires d > 0.0 && r > 0.0 && k * r == d
    ensures k > 0.0
  {}

  lemma QuadraticAtReach(d: real, h: real, ga: real, t: real, r: real, k: real, a: real, b: real, c: real)
    requires r > 0.0 && ga > 0.0 && k * r == d && t >= h * r + k
    requires a == h * ga && b == -t * ga && c == d * ga
    ensures a * (r * r) + b * r + c <= 0.0
  {}

  lemma QuadraticHasRoots(a: real, b: real, c: real, r: real, delta: real)
    requires a > 0.0 && a * (r * r) + b * r + c <= 0.0 && delta == b * b - 4.0 * a * c
    ensures delta >= 0.0
  {
    var f := a * (r * r) + b * r + c;
    var m := 2.0 * a * r + b;
    SquareNonNeg(m);
    MulNonNeg(a, -f, a * -f);
    assert m * m - 4.0 * (a * f) == delta by {
      MulEq(m, m, 2.0 * a * r + b);
      assert m * m == 4.0 * (a * r) * (a * r) + 4.0 * (a * r) * b + b * b;
      MulEq(a, f, a * (r * r) + b * r + c);
      assert a * (a * (r * r)) == (a * r) * (a * r);
    }
  }

  lemma SmallerRoot(a: real, b: real, c: real, s: real, x: real, r: real)
    requires a > 0.0 && b < 0.0 && c > 0.0 && s >= 0.0 && s * s == b * b - 4.0 * a * c
    requires x * (2.0 * a) == -1.0 * b - s && a * (r * r) + b * r + c <= 0.0
    ensures 0.0 < x <= r && a * (x * x) + b * x + c == 0.0
  {
    MulPos(a, c, a * c);
    RootIsZero(a, b, c, s, x);
    if s >= -b {
      MulMonotone(-b, -b, s, -b * -b, -b * s);
      MulMonotone(s, -b, s, s * -b, s * s);
    }
    InverseScaled(-b - s, 2.0 * a, x);
    if x > r {
      // f(r) = (x - r)(-b - a (x + r)) > 0
      var m := -b - a * (x + r);
      MulPos(a, x - r, a * (x - r));
      assert m > 0.0;
      MulPos(x - r, m, (x - r) * m);
      BetweenRoots(a, b, c, x, r, m);
    }
  }

  lemma BetweenRoots(a: real, b: real, c: real, x: real, r: real, m: real)
    requires a * (x * x) + b * x + c == 0.0 && m == -b - a * (x + r)
    ensures (x - r) * m == a * (r * r) + b * r + c
  {}

  lemma RootIsZero(a: real, b: real, c: real, s: real, x: real)
    requires a > 0.0 && s * s == b * b - 4.0 * a * c && x * (2.0 * a) == -1.0 * b - s
    ensures a * (x * x) + b * x + c == 0.0
  {}

  lemma RootBalances(d: real, h: real, ga: real, t: real, a: real, b: real, c: real, x: real)
    requires ga > 0.0 && a == h * ga && b == -t * ga && c == d * ga && a * (x * x) + b * x + c == 0.0
    ensures h * (x * x) + d == t * x
  {}
}
