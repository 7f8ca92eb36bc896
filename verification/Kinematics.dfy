/** Forward kinematics of the two arms (redundancy_resolution.cpp, lines 27-137). */
module Kinematics {
  import opened Vectors

  /** The library's cosine and sine, known only to lie on the unit circle. */
  ghost predicate IsTrig(cos: real -> real, sin: real -> real) {
    forall t: real :: cos(t) * cos(t) + sin(t) * sin(t) == 1.0
  }

  /** A Matrix4d whose last row is 0 0 0 1: three rotation columns and the translation column. */
  datatype Transform = Transform(x: Vec, y: Vec, z: Vec, p: Vec) {
    /** The upper left 3x3 block applied to a vector. */
    function Turn(v: Vec): Vec {
      Add(Scale(v.x, x), Add(Scale(v.y, y), Scale(v.z, z)))
    }

    /** Matrix product. */
    function Times(t: Transform): Transform {
      Transform(Turn(t.x), Turn(t.y), Turn(t.z), Add(Turn(t.p), p))
    }

    /** Orthonormal columns of determinant one. */
    ghost predicate IsRigid() {
      && Dot(x, x) == Dot(y, y) == Dot(z, z) == 1.0
      && Dot(x, y) == Dot(y, z) == Dot(z, x) == 0.0
      && Cross(x, y) == z
    }
  }

  const D: seq<real> := [0.333, 0.0, 0.316, 0.0, 0.384, 0.0, 0.0, 0.107 + 0.1]
  const A: seq<real> := [0.0, 0.0, 0.0, 0.0825, -0.0825, 0.0, 0.088, 0.0]

  function Alpha(i: nat, pi: real): real
    requires i < 8
  {
    [0.0, -pi / 2.0, pi / 2.0, pi / 2.0, -pi / 2.0, pi / 2.0, pi / 2.0, 0.0][i]
  }

  /** The trigonometry of the C library and its value of pi. */
  datatype Trig = Trig(cos: real -> real, sin: real -> real, pi: real)

  function DHmatrix(m: Trig, q: seq<real>, i: nat): Transform
    requires |q| == 7 && i < 8
  {
    var qExt := q + [0.0];
    var ct, st := m.cos(qExt[i]), m.sin(qExt[i]);
    var ca, sa := m.cos(Alpha(i, m.pi)), m.sin(Alpha(i, m.pi));
    Transform(Vec(ct, st * ca, st * sa), Vec(-st, ct * ca, ct * sa), Vec(0.0, -sa, ca),
      Vec(A[i], -sa * D[i], ca * D[i]))
  }

  function ArmJoints(q: seq<real>, isRightArm: bool): seq<real>
    requires |q| == 17
  {
    if isRightArm then q[3..10] else q[10..17]
  }

  /** Mobile base, shoulder and mounting: where an arm's chain starts. */
  function ArmBase(m: Trig, q: seq<real>, isRightArm: bool): Transform
    requires |q| == 17
  {
    var ct, st := m.cos(q[2]), m.sin(q[2]);
    var cb, sb, cg, sg := m.cos(0.0), m.sin(0.0), m.cos(0.0), m.sin(0.0);
    var mobile := Transform(Vec(ct, st, 0.0), Vec(-st, ct, 0.0), Vec(0.0, 0.0, 1.0), Vec(q[0], q[1], 0.0));
    var shoulder := Transform(Vec(1.0, 0.0, 0.0), Vec(0.0, 1.0, 0.0), Vec(0.0, 0.0, 1.0),
                              Vec(0.0, if isRightArm then -0.52 / 2.0 else 0.52 / 2.0, 0.0));
    var ty := Transform(Vec(cb, 0.0, -sb), Vec(0.0, 1.0, 0.0), Vec(sb, 0.0, cb), Zero);
    var tz := Transform(Vec(cg, sg, 0.0), Vec(-sg, cg, 0.0), Vec(0.0, 0.0, 1.0), Zero);
    mobile.Times(shoulder).Times(ty).Times(tz)
  }

  /** The first n joints of a chain. */
  ghost function Chain(m: Trig, start: Transform, q: seq<real>, n: nat): Transform
    requires |q| == 7 && n <= 8
  {
    if n == 0 then start else Chain(m, start, q, n - 1).Times(DHmatrix(m, q, n - 1))
  }

  method FK(m: Trig, q: seq<real>, index: nat, isRightArm: bool) returns (ti: Transform)
    requires |q| == 17 && index < 8
    ensures ti == Chain(m, ArmBase(m, q, isRightArm), ArmJoints(q, isRightArm), index + 1)
  {
    var qArm := ArmJoints(q, isRightArm);
    ti := ArmBase(m, q, isRightArm);
    for jointId := 0 to index + 1
      invariant ti == Chain(m, ArmBase(m, q, isRightArm), qArm, jointId)
    {
      ti := ti.Times(DHmatrix(m, qArm, jointId));
    }
  }

  /** The position column of joint i. */
  ghost function JointPosition(m: Trig, q: seq<real>, isRightArm: bool, i: nat): Vec
    requires |q| == 17 && i < 8
  {
    Chain(m, ArmBase(m, q, isRightArm), ArmJoints(q, isRightArm), i + 1).p
  }

  method GetJointsPositions(m: Trig, q: seq<real>, isRightArm: bool) returns (positions: array<Vec>)
    requires |q| == 17
    ensures fresh(positions) && positions.Length == 8
    ensures forall i :: 0 <= i < 8 ==> positions[i] == JointPosition(m, q, isRightArm, i)
  {
    hide Chain, ArmBase, ArmJoints, DHmatrix;
    positions := new Vec[8](_ => Zero);
    for jointId := 0 to 8
      invariant forall i :: 0 <= i < jointId ==> positions[i] == JointPosition(m, q, isRightArm, i)
    {
      var t := FK(m, q, jointId, isRightArm);
      positions[jointId] := t.p;
    }
  }

  // ----- rigidity

  lemma TurnKeepsDots(t: Transform, u: Vec, v: Vec)
    requires t.IsRigid()
    ensures Dot(t.Turn(u), t.Turn(v)) == Dot(u, v)
  {
    hide Dot, Cross, Add, Scale;
    DotOfTurn(t, u, t.Turn(v));
    DotOfTurn(t, v, t.x);
    DotOfTurn(t, v, t.y);
    DotOfTurn(t, v, t.z);
    DotCommutes(t.x, t.y);
    DotCommutes(t.y, t.z);
    DotCommutes(t.z, t.x);
    DotCommutes(t.x, t.Turn(v));
    DotCommutes(t.y, t.Turn(v));
    DotCommutes(t.z, t.Turn(v));
    assert Dot(u, v) == u.x * v.x + u.y * v.y + u.z * v.z by {
      DotByCoordinates(u, v);
    }
    ProductsOf(u, v, Dot(t.x, t.Turn(v)), Dot(t.y, t.Turn(v)), Dot(t.z, t.Turn(v)));
  }

  lemma DotByCoordinates(u: Vec, v: Vec)
    ensures Dot(u, v) == u.x * v.x + u.y * v.y + u.z * v.z
  {}

  lemma ProductsOf(u: Vec, v: Vec, a: real, b: real, c: real)
    requires a == v.x && b == v.y && c == v.z
    ensures u.x * a + (u.y * b + u.z * c) == u.x * v.x + u.y * v.y + u.z * v.z
  {}

  lemma DotOfTurn(t: Transform, u: Vec, w: Vec)
    ensures Dot(t.Turn(u), w) == u.x * Dot(t.x, w) + (u.y * Dot(t.y, w) + u.z * Dot(t.z, w))
  {
    hide Dot, Add, Scale;
    DotCommutes(t.Turn(u), w);
    DotAdd(w, Scale(u.x, t.x), Add(Scale(u.y, t.y), Scale(u.z, t.z)));
    DotAdd(w, Scale(u.y, t.y), Scale(u.z, t.z));
    DotScale(w, u.x, t.x);
    DotScale(w, u.y, t.y);
    DotScale(w, u.z, t.z);
    DotCommutes(w, t.x);
    DotCommutes(w, t.y);
    DotCommutes(w, t.z);
  }

  /** w x R v, column by column. */
  lemma CrossWithTurn(t: Transform, w: Vec, v: Vec)
    ensures Cross(w, t.Turn(v)) == Add(Scale(v.x, Cross(w, t.x)),
      Add(Scale(v.y, Cross(w, t.y)), Scale(v.z, Cross(w, t.z))))
  {
    hide Cross, Add, Scale;
    CrossAdd(w, Scale(v.x, t.x), Add(Scale(v.y, t.y), Scale(v.z, t.z)));
    CrossAdd(w, Scale(v.y, t.y), Scale(v.z, t.z));
    CrossScale(w, v.x, t.x);
    CrossScale(w, v.y, t.y);
    CrossScale(w, v.z, t.z);
  }

  lemma CrossAdd(n: Vec, b: Vec, c: Vec)
    ensures Cross(n, Add(b, c)) == Add(Cross(n, b), Cross(n, c))
  {}

  lemma AddSub(b: Vec, c: Vec)
    ensures Sub(Add(b, c), c) == b
  {}

  /** The columns of a rigid transform multiply like the axes. */
  lemma AxesRotate(t: Transform)
    requires t.IsRigid()
    ensures Cross(t.y, t.z) == t.x && Cross(t.z, t.x) == t.y
    ensures Cross(t.x, t.x) == Cross(t.y, t.y) == Cross(t.z, t.z) == Zero
  {
    hide Dot, Cross, Sub, Scale;
    TripleCross(t.y, t.x, t.y);
    FlippedTriple(t.x, t.x, t.y);
    DotCommutes(t.x, t.y);
    assert Cross(t.y, t.z) == Sub(Scale(1.0, t.x), Scale(0.0, t.y));
    assert Cross(t.z, t.x) == Sub(Scale(1.0, t.y), Scale(0.0, t.x));
    UnitCombination(t.x, t.y);
    UnitCombination(t.y, t.x);
    CrossSelf(t.x);
    CrossSelf(t.y);
    CrossSelf(t.z);
  }

  lemma UnitCombination(a: Vec, b: Vec)
    ensures Sub(Scale(1.0, a), Scale(0.0, b)) == a
  {}

  lemma TurnKeepsCrosses(t: Transform, u: Vec, v: Vec)
    requires t.IsRigid()
    ensures Cross(t.Turn(u), t.Turn(v)) == t.Turn(Cross(u, v))
  {
    hide Cross, Add, Sub, Scale, Dot;
    var w := t.Turn(u);
    AxesRotate(t);
    CrossWithTurn(t, w, v);
    CrossWithTurn(t, t.x, u);
    CrossWithTurn(t, t.y, u);
    CrossWithTurn(t, t.z, u);
    CrossSwaps(w, t.x);
    CrossSwaps(w, t.y);
    CrossSwaps(w, t.z);
    CrossSwaps(t.x, t.z);
    CrossSwaps(t.y, t.x);
    CrossSwaps(t.z, t.y);
    Flipped(u.x, u.y, t.z, u.z, t.y);
    Flipped'(u.y, u.x, t.z, u.z, t.x);
    Flipped''(u.z, u.x, t.y, u.y, t.x);
    Rearranged(t, u, v, Cross(u, v), Cross(w, t.x), Cross(w, t.y), Cross(w, t.z));
  }

  lemma Flipped(k: real, i: real, a: Vec, j: real, b: Vec)
    ensures Scale(-1.0, Add(Scale(k, Zero), Add(Scale(i, a), Scale(j, Scale(-1.0, b)))))
      == Sub(Scale(j, b), Scale(i, a))
  {}

  lemma Flipped'(k: real, i: real, a: Vec, j: real, b: Vec)
    ensures Scale(-1.0, Add(Scale(i, Scale(-1.0, a)), Add(Scale(k, Zero), Scale(j, b))))
      == Sub(Scale(i, a), Scale(j, b))
  {}

  lemma Flipped''(k: real, i: real, a: Vec, j: real, b: Vec)
    ensures Scale(-1.0, Add(Scale(i, a), Add(Scale(j, Scale(-1.0, b)), Scale(k, Zero))))
      == Sub(Scale(j, b), Scale(i, a))
  {}

  lemma CrossCoordinates(u: Vec, v: Vec)
    ensures Cross(u, v) == Vec(u.y * v.z - u.z * v.y, u.z * v.x - u.x * v.z, u.x * v.y - u.y * v.x)
  {}

  lemma Rearranged(t: Transform, u: Vec, v: Vec, c: Vec, a: Vec, b: Vec, d: Vec)
    requires c == Cross(u, v)
    requires a == Sub(Scale(u.z, t.y), Scale(u.y, t.z))
    requires b == Sub(Scale(u.x, t.z), Scale(u.z, t.x))
    requires d == Sub(Scale(u.y, t.x), Scale(u.x, t.y))
    ensures Add(Scale(v.x, a), Add(Scale(v.y, b), Scale(v.z, d)))
      == Add(Scale(c.x, t.x), Add(Scale(c.y, t.y), Scale(c.z, t.z)))
  {
    hide Add, Sub, Scale, Cross;
    RearrangedX(t, u, v, c, a, b, d);
    RearrangedY(t, u, v, c, a, b, d);
    RearrangedZ(t, u, v, c, a, b, d);
    ByCoordinates(v.x, a, v.y, b, v.z, d, c.x, t.x, c.y, t.y, c.z, t.z);
  }

  lemma RearrangedX(t: Transform, u: Vec, v: Vec, c: Vec, a: Vec, b: Vec, d: Vec)
    requires c == Cross(u, v) && a == Sub(Scale(u.z, t.y), Scale(u.y, t.z))
    requires b == Sub(Scale(u.x, t.z), Scale(u.z, t.x)) && d == Sub(Scale(u.y, t.x), Scale(u.x, t.y))
    ensures v.x * a.x + (v.y * b.x + v.z * d.x) == c.x * t.x.x + (c.y * t.y.x + c.z * t.z.x)
  {
    RearrangedAt(u, v, t.x.x, t.y.x, t.z.x, a.x, b.x, d.x, c);
  }

  lemma RearrangedY(t: Transform, u: Vec, v: Vec, c: Vec, a: Vec, b: Vec, d: Vec)
    requires c == Cross(u, v) && a == Sub(Scale(u.z, t.y), Scale(u.y, t.z))
    requires b == Sub(Scale(u.x, t.z), Scale(u.z, t.x)) && d == Sub(Scale(u.y, t.x), Scale(u.x, t.y))
    ensures v.x * a.y + (v.y * b.y + v.z * d.y) == c.x * t.x.y + (c.y * t.y.y + c.z * t.z.y)
  {
    RearrangedAt(u, v, t.x.y, t.y.y, t.z.y, a.y, b.y, d.y, c);
  }

  lemma RearrangedZ(t: Transform, u: Vec, v: Vec, c: Vec, a: Vec, b: Vec, d: Vec)
    requires c == Cross(u, v) && a == Sub(Scale(u.z, t.y), Scale(u.y, t.z))
    requires b == Sub(Scale(u.x, t.z), Scale(u.z, t.x)) && d == Sub(Scale(u.y, t.x), Scale(u.x, t.y))
    ensures v.x * a.z + (v.y * b.z + v.z * d.z) == c.x * t.x.z + (c.y * t.y.z + c.z * t.z.z)
  {
    RearrangedAt(u, v, t.x.z, t.y.z, t.z.z, a.z, b.z, d.z, c);
  }

  lemma ByCoordinates(i: real, a: Vec, j: real, b: Vec, k: real, c: Vec, i': real, a': Vec, j': real, b': Vec,
                      k': real, c': Vec)
    requires i * a.x + (j * b.x + k * c.x) == i' * a'.x + (j' * b'.x + k' * c'.x)
    requires i * a.y + (j * b.y + k * c.y) == i' * a'.y + (j' * b'.y + k' * c'.y)
    requires i * a.z + (j * b.z + k * c.z) == i' * a'.z + (j' * b'.z + k' * c'.z)
    ensures Add(Scale(i, a), Add(Scale(j, b), Scale(k, c))) == Add(Scale(i', a'), Add(Scale(j', b'), Scale(k', c')))
  {}

  lemma RearrangedAt(u: Vec, v: Vec, x: real, y: real, z: real, a: real, b: real, d: real, c: Vec)
    requires c.x == u.y * v.z - u.z * v.y && c.y == u.z * v.x - u.x * v.z && c.z == u.x * v.y - u.y * v.x
    requires a == u.z * y - u.y * z && b == u.x * z - u.z * x && d == u.y * x - u.x * y
    ensures v.x * a + (v.y * b + v.z * d) == c.x * x + (c.y * y + c.z * z)
  {}

  lemma ProductIsRigid(s: Transform, t: Transform)
    requires s.IsRigid() && t.IsRigid()
    ensures s.Times(t).IsRigid()
  {
    hide Dot, Cross, Add, Transform.Turn;
    TurnKeepsDots(s, t.x, t.x);
    TurnKeepsDots(s, t.y, t.y);
    TurnKeepsDots(s, t.z, t.z);
    TurnKeepsDots(s, t.x, t.y);
    TurnKeepsDots(s, t.y, t.z);
    TurnKeepsDots(s, t.z, t.x);
    TurnKeepsCrosses(s, t.x, t.y);
  }

  /** One Denavit-Hartenberg step is rigid, and it moves the origin by the link's offset and length. */
  lemma JointIsRigid(m: Trig, q: seq<real>, i: nat)
    requires |q| == 7 && i < 8 && IsTrig(m.cos, m.sin)
    ensures DHmatrix(m, q, i).IsRigid()
    ensures Norm2(DHmatrix(m, q, i).p) == A[i] * A[i] + D[i] * D[i]
  {
    hide Transform.IsRigid, Norm2, Alpha;
    var theta := (q + [0.0])[i];
    var ct, st := m.cos(theta), m.sin(theta);
    var ca, sa := m.cos(Alpha(i, m.pi)), m.sin(Alpha(i, m.pi));
    TwistIsRigid(ct, st, ca, sa, A[i], D[i], DHmatrix(m, q, i));
  }

  lemma TwistIsRigid(ct: real, st: real, ca: real, sa: real, a: real, d: real, t: Transform)
    requires ct * ct + st * st == 1.0 && ca * ca + sa * sa == 1.0
    requires t == Transform(Vec(ct, st * ca, st * sa), Vec(-st, ct * ca, ct * sa), Vec(0.0, -sa, ca),
      Vec(a, -sa * d, ca * d))
    ensures t.IsRigid() && Norm2(t.p) == a * a + d * d
  {
    var cc, cs, sc, ss := ct * ca, ct * sa, st * ca, st * sa;
    UnitPair(st, ca, sa, sc, ss);
    UnitPair(ct, ca, sa, cc, cs);
    UnitPair(d, -sa, ca, -sa * d, ca * d);
    AxisPair(ct, st, sa, cs, ss);
    AxisPair(ct, st, ca, cc, sc);
    MixedPairs(ct, st, ca, sa, cc, cs, sc, ss);
    Assembled(ct, st, ca, sa, cc, cs, sc, ss, Vec(a, -sa * d, ca * d), t);
  }

  lemma UnitPair(k: real, c: real, s: real, kc: real, ks: real)
    requires c * c + s * s == 1.0 && kc == k * c && ks == k * s
    ensures kc * kc + ks * ks == k * k
  {}

  lemma AxisPair(ct: real, st: real, k: real, ck: real, sk: real)
    requires ct * ct + st * st == 1.0 && ck == ct * k && sk == st * k
    ensures ct * ck + st * sk == k
  {}

  lemma MixedPairs(ct: real, st: real, ca: real, sa: real, cc: real, cs: real, sc: real, ss: real)
    requires ca * ca + sa * sa == 1.0
    requires cc == ct * ca && cs == ct * sa && sc == st * ca && ss == st * sa
    ensures sc * cc + ss * cs == st * ct && sc * cs == ss * cc
    ensures sa * cc == ca * cs && sa * sc == ca * ss
  {}

  lemma Assembled(ct: real, st: real, ca: real, sa: real, cc: real, cs: real, sc: real, ss: real, p: Vec, t: Transform)
    requires ct * ct + st * st == 1.0 && ca * ca + sa * sa == 1.0
    requires sc * sc + ss * ss == st * st && cc * cc + cs * cs == ct * ct
    requires ct * cs + st * ss == sa && ct * cc + st * sc == ca
    requires sc * cc + ss * cs == st * ct && sc * cs == ss * cc
    requires sa * cc == ca * cs && sa * sc == ca * ss
    requires t == Transform(Vec(ct, sc, ss), Vec(-st, cc, cs), Vec(0.0, -sa, ca), p)
    ensures t.IsRigid()
  {}

  // ----- main results

  lemma BaseIsRigid(m: Trig, q: seq<real>, isRightArm: bool)
    requires |q| == 17 && IsTrig(m.cos, m.sin)
    ensures ArmBase(m, q, isRightArm).IsRigid()
  {
    hide Transform.IsRigid, Transform.Times;
    var ct, st, c, s := m.cos(q[2]), m.sin(q[2]), m.cos(0.0), m.sin(0.0);
    var mobile := Transform(Vec(ct, st, 0.0), Vec(-st, ct, 0.0), Vec(0.0, 0.0, 1.0), Vec(q[0], q[1], 0.0));
    var shoulder := Transform(Vec(1.0, 0.0, 0.0), Vec(0.0, 1.0, 0.0), Vec(0.0, 0.0, 1.0),
                              Vec(0.0, if isRightArm then -0.52 / 2.0 else 0.52 / 2.0, 0.0));
    var ty := Transform(Vec(c, 0.0, -s), Vec(0.0, 1.0, 0.0), Vec(s, 0.0, c), Zero);
    var tz := Transform(Vec(c, s, 0.0), Vec(-s, c, 0.0), Vec(0.0, 0.0, 1.0), Zero);
    UnitCircle(m, q[2], ct, st);
    UnitCircle(m, 0.0, c, s);
    RotationAboutZ(ct, st, mobile.p, mobile);
    RotationAboutZ(1.0, 0.0, shoulder.p, shoulder);
    RotationAboutY(c, s, Zero, ty);
    RotationAboutZ(c, s, Zero, tz);
    ProductIsRigid(mobile, shoulder);
    ProductIsRigid(mobile.Times(shoulder), ty);
    ProductIsRigid(mobile.Times(shoulder).Times(ty), tz);
  }

  lemma UnitCircle(m: Trig, t: real, c: real, s: real)
    requires IsTrig(m.cos, m.sin) && c == m.cos(t) && s == m.sin(t)
    ensures c * c + s * s == 1.0
  {}

  lemma RotationAboutZ(c: real, s: real, p: Vec, t: Transform)
    requires c * c + s * s == 1.0 && t == Transform(Vec(c, s, 0.0), Vec(-s, c, 0.0), Vec(0.0, 0.0, 1.0), p)
    ensures t.IsRigid()
  {
    Assembled(c, s, 1.0, 0.0, c, 0.0, s, 0.0, p, t);
  }

  lemma RotationAboutY(c: real, s: real, p: Vec, t: Transform)
    requires c * c + s * s == 1.0 && t == Transform(Vec(c, 0.0, -s), Vec(0.0, 1.0, 0.0), Vec(s, 0.0, c), p)
    ensures t.IsRigid()
  {
    hide Dot, Cross;
    DotByCoordinates(t.x, t.x);
    DotByCoordinates(t.y, t.y);
    DotByCoordinates(t.z, t.z);
    DotByCoordinates(t.x, t.y);
    DotByCoordinates(t.y, t.z);
    DotByCoordinates(t.z, t.x);
    CrossCoordinates(t.x, t.y);
    assert (-s) * (-s) == s * s && s * c + c * (-s) == 0.0;
  }

  /** Every frame FK can return is rigid, whatever the configuration. */
  lemma {:induction false} ChainIsRigid(m: Trig, q: seq<real>, isRightArm: bool, n: nat)
    requires |q| == 17 && n <= 8 && IsTrig(m.cos, m.sin)
    ensures Chain(m, ArmBase(m, q, isRightArm), ArmJoints(q, isRightArm), n).IsRigid()
  {
    hide Transform.IsRigid, Transform.Times, DHmatrix, ArmBase;
    if n == 0 {
      BaseIsRigid(m, q, isRightArm);
    } else {
      var qArm := ArmJoints(q, isRightArm);
      ChainIsRigid(m, q, isRightArm, n - 1);
      JointIsRigid(m, qArm, n - 1);
      ProductIsRigid(Chain(m, ArmBase(m, q, isRightArm), qArm, n - 1), DHmatrix(m, qArm, n - 1));
    }
  }

  /** Consecutive joints keep their distance in every configuration. */
  lemma LinkLengthIsConstant(m: Trig, q: seq<real>, isRightArm: bool, i: nat)
    requires |q| == 17 && 1 <= i < 8 && IsTrig(m.cos, m.sin)
    ensures Norm2(Sub(JointPosition(m, q, isRightArm, i), JointPosition(m, q, isRightArm, i - 1)))
      == A[i] * A[i] + D[i] * D[i]
  {
    hide Transform.IsRigid, Transform.Turn, DHmatrix, ArmBase, Norm2, Sub, Add, Dot;
    var qArm := ArmJoints(q, isRightArm);
    var start := ArmBase(m, q, isRightArm);
    var before, joint := Chain(m, start, qArm, i), DHmatrix(m, qArm, i);
    ChainIsRigid(m, q, isRightArm, i);
    JointIsRigid(m, qArm, i);
    assert Chain(m, start, qArm, i + 1) == before.Times(joint);
    AddSub(before.Turn(joint.p), before.p);
    TurnKeepsDots(before, joint.p, joint.p);
    Norm2IsDot(before.Turn(joint.p));
    Norm2IsDot(joint.p);
  }

  /** A joint's own angle turns only what comes after it. */
  lemma {:induction false} ChainIgnoresLaterJoints(m: Trig, start: Transform, q: seq<real>, q': seq<real>, n: nat)
    requires |q| == |q'| == 7 && n <= 8 && q[..if n < 7 then n else 7] == q'[..if n < 7 then n else 7]
    ensures Chain(m, start, q, n) == Chain(m, start, q', n)
    ensures n < 8 ==> Chain(m, start, q, n + 1).p == Chain(m, start, q', n + 1).p
  {
    hide Transform.Turn;
    if n > 0 {
      var k := n - 1;
      assert q[..if k < 7 then k else 7] == q[..if n < 7 then n else 7][..k];
      assert q'[..if k < 7 then k else 7] == q'[..if n < 7 then n else 7][..k];
      ChainIgnoresLaterJoints(m, start, q, q', k);
      SameJointSameStep(m, q, q', k);
    }
  }

  lemma SameJointSameStep(m: Trig, q: seq<real>, q': seq<real>, k: nat)
    requires |q| == |q'| == 7 && k < 8 && (k < 7 ==> q[k] == q'[k])
    ensures DHmatrix(m, q, k) == DHmatrix(m, q', k)
  {}

  /** Perturbing joint k of one arm moves neither that arm's joints 0..k nor any joint of the other arm. */
  lemma PerturbationIsLocal(m: Trig, q: seq<real>, isRightArm: bool, k: nat, angle: real)
    requires |q| == 17 && k < 7
    ensures var q', other := q[(if isRightArm then 3 else 10) + k := angle], !isRightArm;
      && (forall i :: 0 <= i <= k ==> JointPosition(m, q', isRightArm, i) == JointPosition(m, q, isRightArm, i))
      && (forall i :: 0 <= i < 8 ==> JointPosition(m, q', other, i) == JointPosition(m, q, other, i))
  {
    hide Chain, Transform.Times;
    var q' := q[(if isRightArm then 3 else 10) + k := angle];
    var own, own' := ArmJoints(q, isRightArm), ArmJoints(q', isRightArm);
    assert own'[..k] == own[..k];
    assert ArmBase(m, q', isRightArm) == ArmBase(m, q, isRightArm);
    forall i | 0 <= i <= k
      ensures JointPosition(m, q', isRightArm, i) == JointPosition(m, q, isRightArm, i)
    {
      assert own'[..i] == own'[..k][..i] && own[..i] == own[..k][..i];
      ChainIgnoresLaterJoints(m, ArmBase(m, q, isRightArm), own, own', i);
    }
    assert ArmBase(m, q', !isRightArm) == ArmBase(m, q, !isRightArm);
    assert ArmJoints(q', !isRightArm) == ArmJoints(q, !isRightArm);
  }

  /** The arms start 0.52 apart, wherever the base stands and however it is turned. */
  lemma ShouldersApart(m: Trig, q: seq<real>)
    requires |q| == 17 && IsTrig(m.cos, m.sin)
    ensures Norm2(Sub(ArmBase(m, q, true).p, ArmBase(m, q, false).p)) == 0.52 * 0.52
  {
    var ct, st := m.cos(q[2]), m.sin(q[2]);
    UnitCircle(m, q[2], ct, st);
    ShoulderOf(m, q, true);
    ShoulderOf(m, q, false);
    assert Sub(ArmBase(m, q, true).p, ArmBase(m, q, false).p) == Vec(0.52 * st, -0.52 * ct, 0.0);
    assert (0.52 * st) * (0.52 * st) + (0.52 * ct) * (0.52 * ct) == 0.52 * 0.52 * (ct * ct + st * st);
  }

  /** Half the shoulder width to one side of the base, at right angles to its heading. */
  lemma ShoulderOf(m: Trig, q: seq<real>, isRightArm: bool)
    requires |q| == 17
    ensures var side := if isRightArm then 0.26 else -0.26;
      ArmBase(m, q, isRightArm).p == Vec(q[0] + side * m.sin(q[2]), q[1] - side * m.cos(q[2]), 0.0)
  {}
}
