/** How fast the velocity of the generated path changes: the limits behind the factor 1.5 in the ramp times
    (motion_generator.cpp, lines 45-66 and 100-110). */
module MotionRate {
  import opened Basics
  import opened Vectors
  import opened MotionPlan
  import opened MotionPath

  /** The slope of the normalised ramp. */
  ghost function RampSlope(x: real): real {
    3.0 * (x * x) - 2.0 * (x * x * x)
  }

  /** Speed and distance at fraction x of a ramp from rest. */
  ghost function RampRate(speed: real, x: real): real {
    speed * RampSlope(x)
  }

  ghost function RampLength(speed: real, len: real, x: real): real {
    speed * len * Ramp(x)
  }

  /** The speed towards the goal at time t. */
  ghost function Rate(p: Plan, t: real): real
    requires p.t1 != 0.0 && p.tf != p.t2
  {
    if t < p.t1 then RampRate(p.speed, t / p.t1)
    else if t < p.t2 then p.speed
    else if t < p.tf then RampRate(p.speed, (p.tf - t) / (p.tf - p.t2))
    else 0.0
  }

  /** From speed r to r', and from distance s to s', with accelerations between -down and up. */
  ghost predicate Eases(up: real, down: real, s: real, s': real, r: real, r': real, d: real) {
    && -down * d <= r' - r <= up * d
    && -0.5 * down * (d * d) <= s' - s - d * r <= 0.5 * up * (d * d)
  }

  // ----- the normalised ramp

  ghost function SlopeChord(a: real, b: real): real {
    3.0 * (a + b) - 2.0 * (a * a + a * b + b * b)
  }

  ghost function RampRest(a: real, b: real): real {
    2.0 * a + b - 1.5 * (a * a) - a * b - 0.5 * (b * b)
  }

  lemma SlopeRises(a: real, b: real)
    ensures RampSlope(b) - RampSlope(a) == (b - a) * SlopeChord(a, b)
  {}

  lemma RampTaylor(a: real, b: real)
    ensures Ramp(b) - Ramp(a) - (b - a) * RampSlope(a) == (b - a) * ((b - a) * RampRest(a, b))
  {
    hide Ramp, RampSlope, Chord, RampRest;
    RampChord(a, b);
    ChordRest(a, b, a * a, a * b, b * b);
    MulEq(b - a, Chord(a, b) - RampSlope(a), (b - a) * RampRest(a, b));
  }

  lemma ChordRest(a: real, b: real, aa: real, ab: real, bb: real)
    requires aa == a * a && ab == a * b && bb == b * b
    ensures Chord(a, b) - RampSlope(a) == (b - a) * RampRest(a, b)
  {
    hide Chord, RampSlope, RampRest;
    ChordIs(a, b, aa, ab, bb, a * aa, b * aa, a * bb, b * bb);
    SlopeIs(a, aa, a * aa);
    RestIs(a, b, aa, ab, bb);
    CubicScalars(a, b, aa, ab, bb, a * aa, b * aa, a * bb, b * bb, RampRest(a, b));
  }

  lemma ChordIs(a: real, b: real, aa: real, ab: real, bb: real, aaa: real, aab: real, abb: real, bbb: real)
    requires aa == a * a && ab == a * b && bb == b * b && aaa == a * aa && aab == b * aa && abb == a * bb
      && bbb == b * bb
    ensures Chord(a, b) == aa + ab + bb - 0.5 * (aaa + aab + abb + bbb)
  {
    assert (a + b) * (aa + bb) == aaa + aab + abb + bbb;
  }

  lemma SlopeIs(a: real, aa: real, aaa: real)
    requires aa == a * a && aaa == a * aa
    ensures RampSlope(a) == 3.0 * aa - 2.0 * aaa
  {}

  lemma RestIs(a: real, b: real, aa: real, ab: real, bb: real)
    requires aa == a * a && ab == a * b && bb == b * b
    ensures RampRest(a, b) == 2.0 * a + b - 1.5 * aa - ab - 0.5 * bb
  {}

  lemma CubicScalars(a: real, b: real, aa: real, ab: real, bb: real, aaa: real, aab: real, abb: real, bbb: real,
                     rest: real)
    requires aa == a * a && ab == a * b && bb == b * b && aaa == a * aa && aab == b * aa && abb == a * bb
      && bbb == b * bb
    requires rest == 2.0 * a + b - 1.5 * aa - ab - 0.5 * bb
    ensures (b - a) * rest == ab - 2.0 * aa + bb + 1.5 * aaa - 0.5 * aab - 0.5 * abb - 0.5 * bbb
  {
    assert a * ab == aab && b * ab == abb;
    MulEq(b - a, rest, 2.0 * a + b - 1.5 * aa - ab - 0.5 * bb);
  }

  lemma RampBounds(a: real, b: real)
    requires 0.0 <= a <= 1.0 && 0.0 <= b <= 1.0
    ensures 0.0 <= SlopeChord(a, b) <= 1.5 && 0.0 <= RampRest(a, b) <= 0.75
  {
    hide SlopeChord, RampRest;
    var aa, ab, bb := a * a, a * b, b * b;
    RestIs(a, b, aa, ab, bb);
    SlopeChordIs(a, b, aa, ab, bb);
    InUnit(a, a, aa);
    InUnit(b, b, bb);
    InUnit(a, b, ab);
    InUnit(b, a, ab);
    var x, y := a - 0.5, b - 0.5;
    SquareNonNeg(x);
    SquareNonNeg(y);
    SquareNonNeg(x + y);
    CentredSquares(a, b, x, y, aa, ab, bb, x * x, y * y, (x + y) * (x + y));
  }

  lemma SlopeChordIs(a: real, b: real, aa: real, ab: real, bb: real)
    requires aa == a * a && ab == a * b && bb == b * b
    ensures SlopeChord(a, b) == 3.0 * (a + b) - 2.0 * (aa + ab + bb)
  {}

  lemma InUnit(a: real, b: real, ab: real)
    requires 0.0 <= a && b <= 1.0 && ab == a * b
    ensures ab <= a
  {
    MulMonotone(a, b, 1.0, ab, a);
  }

  lemma CentredSquares(a: real, b: real, x: real, y: real, aa: real, ab: real, bb: real, xx: real, yy: real, zz: real)
    requires x == a - 0.5 && y == b - 0.5 && aa == a * a && ab == a * b && bb == b * b
    requires xx == x * x && yy == y * y && zz == (x + y) * (x + y)
    ensures 1.5 - (3.0 * (a + b) - 2.0 * (aa + ab + bb)) == xx + yy + zz
    ensures 0.75 - (2.0 * a + b - 1.5 * aa - ab - 0.5 * bb) == xx + 0.5 * zz
  {}

  // ----- the pieces

  /** Along a ramp of length len, over the fraction x of it, which takes time d. */
  lemma RateScalars(speed: real, len: real, limit: real, x: real, d: real, m: real)
    requires speed > 0.0 && len > 0.0 && len * limit == 1.5 * speed && x * len == d && 0.0 <= m <= 1.5
    ensures d >= 0.0 ==> 0.0 <= speed * (x * m) <= limit * d
    ensures d <= 0.0 ==> limit * d <= speed * (x * m) <= 0.0
  {
    var w := speed * x;
    FullRate(speed, len, limit, x, d, w);
    SameSign(x, len, speed, d, w);
    assert speed * (x * m) == w * m;
    if d >= 0.0 {
      MulMonotone(w, 0.0, m, 0.0, w * m);
      MulMonotone(w, m, 1.5, w * m, w * 1.5);
    } else {
      MulMonotone(-w, 0.0, m, 0.0, -w * m);
      MulMonotone(-w, m, 1.5, -w * m, -w * 1.5);
    }
  }

  lemma FullRate(speed: real, len: real, limit: real, x: real, d: real, w: real)
    requires len * limit == 1.5 * speed && x * len == d && w == speed * x
    ensures 1.5 * w == limit * d
  {
    MulEq(x, len * limit, 1.5 * speed);
    assert x * (len * limit) == (x * len) * limit;
  }

  lemma DistanceScalars(speed: real, len: real, limit: real, x: real, d: real, k: real)
    requires speed > 0.0 && len > 0.0 && len * limit == 1.5 * speed && x * len == d && 0.0 <= k <= 0.75
    ensures 0.0 <= speed * len * (x * (x * k)) <= 0.5 * limit * (d * d)
  {
    var w, xx := speed * x, x * x;
    var e := speed * len * xx;
    FullRate(speed, len, limit, x, d, w);
    assert e == w * d by {
      assert speed * len * xx == (speed * x) * (x * len);
    }
    MulEq(d, 1.5 * w, limit * d);
    SquareNonNeg(x);
    MulPos(speed, len, speed * len);
    MulNonNeg(speed * len, xx, e);
    MulMonotone(e, 0.0, k, 0.0, e * k);
    MulMonotone(e, k, 0.75, e * k, e * 0.75);
    Regroup(speed * len, x, k);
    assert e * 0.75 == 0.5 * limit * (d * d);
  }

  lemma Regroup(c: real, x: real, k: real)
    ensures c * (x * (x * k)) == c * (x * x) * k
  {}

  lemma SameSign(x: real, len: real, speed: real, d: real, w: real)
    requires len > 0.0 && speed > 0.0 && x * len == d && w == speed * x
    ensures (d >= 0.0 ==> w >= 0.0) && (d <= 0.0 ==> w <= 0.0)
  {
    if x > 0.0 {
      MulPos(x, len, d);
    } else if x < 0.0 {
      MulPos(-x, len, -d);
    }
    if x >= 0.0 {
      MulNonNeg(speed, x, w);
    } else {
      MulNonNeg(speed, -x, -w);
    }
  }

  /** A ramp started at rest: what the speed and the distance gain from fraction a to fraction b. */
  lemma RampGains(speed: real, len: real, limit: real, a: real, b: real, d: real)
    requires speed > 0.0 && len > 0.0 && len * limit == 1.5 * speed && (b - a) * len == d
    requires 0.0 <= a <= 1.0 && 0.0 <= b <= 1.0
    ensures var dr := RampRate(speed, b) - RampRate(speed, a);
      (d >= 0.0 ==> 0.0 <= dr <= limit * d) && (d <= 0.0 ==> limit * d <= dr <= 0.0)
    ensures 0.0 <= RampLength(speed, len, b) - RampLength(speed, len, a) - d * RampRate(speed, a)
      <= 0.5 * limit * (d * d)
  {
    hide Ramp, RampSlope, SlopeChord, RampRest, RampRate, RampLength;
    SlopeRises(a, b);
    RampTaylor(a, b);
    RampBounds(a, b);
    RateScalars(speed, len, limit, b - a, d, SlopeChord(a, b));
    DistanceScalars(speed, len, limit, b - a, d, RampRest(a, b));
    RateIs(speed, a, b, SlopeChord(a, b));
    DistanceIs(speed, len, a, b, d, RampRest(a, b));
  }

  lemma RateIs(speed: real, a: real, b: real, m: real)
    requires RampSlope(b) - RampSlope(a) == (b - a) * m
    ensures RampRate(speed, b) - RampRate(speed, a) == speed * ((b - a) * m)
  {
    hide RampSlope;
    Distribute(speed, RampSlope(b), RampSlope(a));
  }

  lemma DistanceIs(speed: real, len: real, a: real, b: real, d: real, k: real)
    requires (b - a) * len == d && Ramp(b) - Ramp(a) - (b - a) * RampSlope(a) == (b - a) * ((b - a) * k)
    ensures RampLength(speed, len, b) - RampLength(speed, len, a) - d * RampRate(speed, a)
      == speed * len * ((b - a) * ((b - a) * k))
  {
    hide Ramp, RampSlope;
    RampScalars(speed, len, b - a, d, Ramp(a), Ramp(b), RampSlope(a), k);
  }

  lemma RampScalars(speed: real, len: real, x: real, d: real, f: real, f': real, g: real, k: real)
    requires x * len == d && f' - f - x * g == x * (x * k)
    ensures speed * len * f' - speed * len * f - d * (speed * g) == speed * len * (x * (x * k))
  {
    MulEq(speed * len, f' - f - x * g, x * (x * k));
    assert speed * len * (x * g) == (x * len) * (speed * g);
  }

  lemma EasesOf(l: Limits, s: real, s': real, r: real, r': real, d: real, dr: real, ds: real, dd: real)
    requires l.IsPositive() && d >= 0.0 && dr == r' - r && ds == s' - s - d * r && dd == d * d
    requires (0.0 <= dr <= l.start * d && 0.0 <= ds <= 0.5 * l.start * dd)
          || (-(l.goal * d) <= dr <= 0.0 && -(0.5 * l.goal * dd) <= ds <= 0.0)
    ensures Eases(l.start, l.goal, s, s', r, r', d)
  {
    SquareNonNeg(d);
    MulNonNeg(l.goal, d, l.goal * d);
    MulNonNeg(l.start, d, l.start * d);
    MulNonNeg(l.goal, dd, l.goal * dd);
    MulNonNeg(l.start, dd, l.start * dd);
  }

  lemma UpEases(p: Plan, l: Limits, t: real, t': real)
    requires IsTimed(p) && FitsRamps(p, l) && 0.0 <= t <= t' <= p.t1
    ensures Eases(l.start, l.goal, RampingUp(p, t), RampingUp(p, t'), RampRate(p.speed, t / p.t1),
      RampRate(p.speed, t' / p.t1), t' - t)
  {
    hide Ramp, RampRate, RampLength, RampingUp, Abs, Sign, Eases;
    var a, b, d := t / p.t1, t' / p.t1, t' - t;
    Quotient(t, p.t1, a);
    Quotient(t', p.t1, b);
    FractionInUnit(t, t', p.t1, a, b);
    RampGains(p.speed, p.t1, l.start, a, b, d);
    UpIsRamp(p, t);
    UpIsRamp(p, t');
    var r, r' := RampRate(p.speed, a), RampRate(p.speed, b);
    EasesOf(l, RampingUp(p, t), RampingUp(p, t'), r, r', d, r' - r, RampingUp(p, t') - RampingUp(p, t) - d * r, d * d);
  }

  lemma UpIsRamp(p: Plan, t: real)
    requires p.t1 != 0.0
    ensures RampingUp(p, t) == RampLength(p.speed, p.t1, t / p.t1)
  {}

  lemma DownIsRamp(p: Plan, t: real)
    requires p.tf != p.t2
    ensures RampingDown(p, t) == Abs(p.delta) - RampLength(p.speed, p.tf - p.t2, (p.tf - t) / (p.tf - p.t2))
  {}

  lemma CruiseEases(p: Plan, l: Limits, t: real, t': real)
    requires l.IsPositive() && t <= t'
    ensures Eases(l.start, l.goal, Cruising(p, t), Cruising(p, t'), p.speed, p.speed, t' - t)
  {
    hide Eases;
    StandsStill(l, p.speed, Cruising(p, t), Cruising(p, t'), t' - t);
  }

  lemma StandsStill(l: Limits, r: real, s: real, s': real, d: real)
    requires l.IsPositive() && d >= 0.0 && s' - s == d * r
    ensures Eases(l.start, l.goal, s, s', r, r, d)
  {
    hide Eases;
    SquareNonNeg(d);
    MulNonNeg(l.start, d, l.start * d);
    MulNonNeg(l.start, d * d, l.start * (d * d));
    EasesOf(l, s, s', r, r, d, 0.0, 0.0, d * d);
  }

  lemma DownEases(p: Plan, l: Limits, t: real, t': real)
    requires IsTimed(p) && FitsRamps(p, l) && p.t2 <= t <= t' <= p.tf
    ensures var ramp := p.tf - p.t2;
      Eases(l.start, l.goal, RampingDown(p, t), RampingDown(p, t'),
            RampRate(p.speed, (p.tf - t) / ramp), RampRate(p.speed, (p.tf - t') / ramp), t' - t)
  {
    hide Ramp, RampRate, RampLength, RampingDown, Abs, Sign, Eases;
    var ramp, d := p.tf - p.t2, t' - t;
    var a, b := (p.tf - t) / ramp, (p.tf - t') / ramp;
    Quotient(p.tf - t, ramp, a);
    Quotient(p.tf - t', ramp, b);
    FractionInUnit(p.tf - t', p.tf - t, ramp, b, a);
    RampGains(p.speed, ramp, l.goal, a, b, -d);
    DownIsRamp(p, t);
    DownIsRamp(p, t');
    var r, r' := RampRate(p.speed, a), RampRate(p.speed, b);
    var s, s' := RampingDown(p, t), RampingDown(p, t');
    EasesOf(l, s, s', r, r', d, r' - r, s' - s - d * r, d * d);
  }

  // ----- the whole path

  lemma RatesMeet(p: Plan)
    requires IsTimed(p)
    ensures RampRate(p.speed, 0.0 / p.t1) == 0.0 && RampRate(p.speed, p.t1 / p.t1) == p.speed
    ensures RampRate(p.speed, (p.tf - p.t2) / (p.tf - p.t2)) == p.speed
    ensures RampRate(p.speed, (p.tf - p.tf) / (p.tf - p.t2)) == 0.0
  {
    hide Abs, Sign, RampRate;
    SlopeEnds(p.speed);
    FractionEnds(p.t1);
    FractionEnds(p.tf - p.t2);
  }

  lemma FractionEnds(len: real)
    requires len != 0.0
    ensures 0.0 / len == 0.0 && len / len == 1.0
  {}

  lemma SlopeEnds(speed: real)
    ensures RampRate(speed, 0.0) == 0.0 && RampRate(speed, 1.0) == speed
  {}

  lemma PieceEases(p: Plan, l: Limits, t: real, t': real)
    requires IsTimed(p) && FitsRamps(p, l) && 0.0 <= t <= t'
    requires t' <= p.t1 || p.t1 <= t <= t' <= p.t2 || p.t2 <= t <= t' <= p.tf || p.tf <= t
    ensures Eases(l.start, l.goal, Progress(p, t), Progress(p, t'), Rate(p, t), Rate(p, t'), t' - t)
  {
    hide RampingUp, Cruising, RampingDown, RampRate, Abs, Sign, Eases;
    PiecesMeet(p);
    RatesMeet(p);
    if t' <= p.t1 {
      UpEases(p, l, t, t');
    } else if t' <= p.t2 {
      CruiseEases(p, l, t, t');
    } else if t' <= p.tf {
      DownEases(p, l, t, t');
    } else {
      StandsStill(l, 0.0, Abs(p.delta), Abs(p.delta), t' - t);
    }
  }

  lemma EasesChain(up: real, down: real, s: real, s': real, s'': real, r: real, r': real, r'': real, d: real, e: real)
    requires Eases(up, down, s, s', r, r', d) && Eases(up, down, s', s'', r', r'', e) && d >= 0.0 && e >= 0.0
    ensures Eases(up, down, s, s'', r, r'', d + e)
  {
    var dd, ee, de, dr := d * d, e * e, d * e, r' - r;
    MulMonotone(e, dr, up * d, e * dr, e * (up * d));
    MulMonotone(e, -down * d, dr, e * (-down * d), e * dr);
    ChainScalars(up, d, e, dd, ee, de);
    ChainScalars(-down, d, e, dd, ee, de);
    assert s'' - s - (d + e) * r == (s' - s - d * r) + (s'' - s' - e * r') + e * dr;
  }

  lemma ChainScalars(k: real, d: real, e: real, dd: real, ee: real, de: real)
    requires dd == d * d && ee == e * e && de == d * e
    ensures 0.5 * k * ((d + e) * (d + e)) == 0.5 * k * dd + 0.5 * k * ee + e * (k * d)
    ensures k * (d + e) == k * d + k * e
  {
    assert (d + e) * (d + e) == dd + 2.0 * de + ee;
    assert e * (k * d) == k * de;
  }

  /** The velocity is continuous, starts and ends at zero, is the rate at which the path advances, and never changes
      faster than the limits for leaving and arriving. */
  lemma AccelerationIsLimited(p: Plan, l: Limits, t: real, t': real)
    requires IsTimed(p) && FitsRamps(p, l) && 0.0 <= t <= t'
    ensures Eases(l.start, l.goal, Progress(p, t), Progress(p, t'), Rate(p, t), Rate(p, t'), t' - t)
    ensures Rate(p, 0.0) == 0.0 && (t >= p.tf ==> Rate(p, t) == 0.0)
  {
    hide Progress, Rate, Eases, Abs, Sign;
    var c1, c2, c3 := Clamp(p.t1, t, t'), Clamp(p.t2, t, t'), Clamp(p.tf, t, t');
    PieceEases(p, l, t, c1);
    PieceEases(p, l, c1, c2);
    PieceEases(p, l, c2, c3);
    PieceEases(p, l, c3, t');
    EasesChain(l.start, l.goal, Progress(p, t), Progress(p, c1), Progress(p, c2), Rate(p, t), Rate(p, c1), Rate(p, c2),
      c1 - t, c2 - c1);
    EasesChain(l.start, l.goal, Progress(p, t), Progress(p, c2), Progress(p, c3), Rate(p, t), Rate(p, c2), Rate(p, c3),
      c2 - t, c3 - c2);
    EasesChain(l.start, l.goal, Progress(p, t), Progress(p, c3), Progress(p, t'), Rate(p, t), Rate(p, c3), Rate(p, t'),
      c3 - t, t' - c3);
    RateEnds(p, t);
  }

  lemma RateEnds(p: Plan, t: real)
    requires IsTimed(p)
    ensures Rate(p, 0.0) == 0.0 && (t >= p.tf ==> Rate(p, t) == 0.0)
  {
    hide RampRate, Abs, Sign;
    RatesMeet(p);
  }
}
