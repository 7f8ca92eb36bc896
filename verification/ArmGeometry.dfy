/** Where the joints of an arm are (redundancy_resolution.cpp, lines 31-137): every frame from the one before, and the
    positions in the angles, with the dimensions of the robot written out. */
module ArmGeometry {
  import opened Vectors
  import opened Kinematics

  /** The library's values at zero and at a quarter turn. */
  ghost predicate IsExact(m: Trig) {
    && IsTrig(m.cos, m.sin) && m.cos(0.0) == 1.0 && m.sin(0.0) == 0.0
    && m.cos(m.pi / 2.0) == 0.0 && m.sin(m.pi / 2.0) == 1.0
    && m.cos(-(m.pi / 2.0)) == 0.0 && m.sin(-(m.pi / 2.0)) == -1.0
  }

  /** The frame after the first n joints. */
  ghost function FrameAt(m: Trig, q: seq<real>, isRightArm: bool, n: nat): Transform
    requires |q| == 17 && n <= 8
  {
    Chain(m, ArmBase(m, q, isRightArm), ArmJoints(q, isRightArm), n)
  }

  /** a u + b v */
  ghost function Mix(a: real, u: Vec, b: real, v: Vec): Vec {
    Add(Scale(a, u), Scale(b, v))
  }

  ghost function Minus(u: Vec): Vec {
    Scale(-1.0, u)
  }

  /** From frame f, offset by a along its x axis, a joint turns about `axis` by the angle of cosine c and sine s, taking
      the x axis towards `side`; then comes an offset d along the axis. */
  ghost predicate Turns(f: Transform, g: Transform, axis: Vec, side: Vec, c: real, s: real, a: real, d: real) {
    g.z == axis && g.x == Mix(c, f.x, s, side) && g.p == Add(f.p, Mix(a, f.x, d, axis))
  }

  // the eight rows of the table

  lemma StraightStep(f: Transform, g: Transform, c: real, s: real, a: real, d: real)
    requires g == f.Times(Transform(Vec(c, s, 0.0), Vec(-s, c, 0.0), Vec(0.0, 0.0, 1.0), Vec(a, 0.0, d)))
    ensures Turns(f, g, f.z, f.y, c, s, a, d)
  {
    hide Transform.Turn, Add, Mix;
    AxesTurn(f);
    TurnXY(f, c, s);
    TurnXZ(f, a, d);
    AddCommutes(f.p, Mix(a, f.x, d, f.z));
  }

  lemma UpStep(f: Transform, g: Transform, c: real, s: real, a: real, d: real)
    requires g == f.Times(Transform(Vec(c, 0.0, -s), Vec(-s, 0.0, -c), Vec(0.0, 1.0, 0.0), Vec(a, d, 0.0)))
    ensures Turns(f, g, f.y, Minus(f.z), c, s, a, d)
    ensures g.y == Mix(-s, f.x, -c, f.z)
  {
    hide Transform.Turn, Add, Mix, Minus;
    AxesTurn(f);
    TurnXZ(f, c, -s);
    TurnXZ(f, -s, -c);
    MixMinus(c, f.x, s, f.z);
    TurnXY(f, a, d);
    AddCommutes(f.p, Mix(a, f.x, d, f.y));
  }

  lemma DownStep(f: Transform, g: Transform, c: real, s: real, a: real, d: real)
    requires g == f.Times(Transform(Vec(c, 0.0, s), Vec(-s, 0.0, c), Vec(0.0, -1.0, 0.0), Vec(a, -d, 0.0)))
    ensures Turns(f, g, Minus(f.y), f.z, c, s, a, d)
    ensures g.y == Mix(-s, f.x, c, f.z)
  {
    hide Transform.Turn, Add, Mix, Minus;
    AxesTurn(f);
    TurnXZ(f, c, s);
    TurnXZ(f, -s, c);
    TurnXY(f, 0.0, -1.0);
    MixOfOne(f.x, f.y);
    MixMinus(a, f.x, d, f.y);
    TurnXY(f, a, -d);
    AddCommutes(f.p, Mix(a, f.x, d, Minus(f.y)));
  }

  lemma ScaleIs(k: real, p: Vec)
    ensures Scale(k, p) == Vec(k * p.x, k * p.y, k * p.z)
  {}

  lemma TurnXY(f: Transform, a: real, b: real)
    ensures f.Turn(Vec(a, b, 0.0)) == Mix(a, f.x, b, f.y)
  {
    hide Scale;
    ScaleIs(a, f.x);
    ScaleIs(b, f.y);
    ScaleIs(0.0, f.z);
  }

  lemma TurnXZ(f: Transform, a: real, b: real)
    ensures f.Turn(Vec(a, 0.0, b)) == Mix(a, f.x, b, f.z)
  {
    hide Scale;
    ScaleIs(a, f.x);
    ScaleIs(0.0, f.y);
    ScaleIs(b, f.z);
  }

  lemma MixMinus(a: real, u: Vec, b: real, v: Vec)
    ensures Mix(a, u, b, Minus(v)) == Mix(a, u, -b, v)
  {
    hide Add;
    ScaleMinus(b, v);
  }

  lemma ScaleMinus(k: real, v: Vec)
    ensures Scale(k, Minus(v)) == Scale(-k, v) == Vec(-(k * v.x), -(k * v.y), -(k * v.z))
  {}

  lemma MixOfOne(u: Vec, v: Vec)
    ensures Mix(0.0, u, -1.0, v) == Minus(v)
  {
    hide Scale;
    ScaleIs(0.0, u);
    ScaleIs(-1.0, v);
  }

  lemma AddCommutes(u: Vec, v: Vec)
    ensures Add(u, v) == Add(v, u)
  {}

  /** The angle of joint i, the tool's being zero. */
  ghost function Angle(q: seq<real>, isRightArm: bool, i: nat): real
    requires |q| == 17 && i < 8
  {
    if i == 7 then 0.0 else if isRightArm then q[3 + i] else q[10 + i]
  }

  lemma JointMatrix(m: Trig, q: seq<real>, isRightArm: bool, i: nat, c: real, s: real)
    requires |q| == 17 && i < 8 && IsExact(m)
    requires c == m.cos(Angle(q, isRightArm, i)) && s == m.sin(Angle(q, isRightArm, i))
    ensures DHmatrix(m, ArmJoints(q, isRightArm), i) == (match i
      case 0 => Transform(Vec(c, s, 0.0), Vec(-s, c, 0.0), Vec(0.0, 0.0, 1.0), Vec(0.0, 0.0, 0.333))
      case 1 => Transform(Vec(c, 0.0, -s), Vec(-s, 0.0, -c), Vec(0.0, 1.0, 0.0), Vec(0.0, 0.0, 0.0))
      case 2 => Transform(Vec(c, 0.0, s), Vec(-s, 0.0, c), Vec(0.0, -1.0, 0.0), Vec(0.0, -0.316, 0.0))
      case 3 => Transform(Vec(c, 0.0, s), Vec(-s, 0.0, c), Vec(0.0, -1.0, 0.0), Vec(0.0825, 0.0, 0.0))
      case 4 => Transform(Vec(c, 0.0, -s), Vec(-s, 0.0, -c), Vec(0.0, 1.0, 0.0), Vec(-0.0825, 0.384, 0.0))
      case 5 => Transform(Vec(c, 0.0, s), Vec(-s, 0.0, c), Vec(0.0, -1.0, 0.0), Vec(0.0, 0.0, 0.0))
      case 6 => Transform(Vec(c, 0.0, s), Vec(-s, 0.0, c), Vec(0.0, -1.0, 0.0), Vec(0.088, 0.0, 0.0))
      case _ => Transform(Vec(c, s, 0.0), Vec(-s, c, 0.0), Vec(0.0, 0.0, 1.0), Vec(0.0, 0.0, 0.207)))
  {
    var joints := ArmJoints(q, isRightArm);
    assert (joints + [0.0])[i] == Angle(q, isRightArm, i);
    assert -m.pi / 2.0 == -(m.pi / 2.0);
  }

  lemma NextFrame(m: Trig, q: seq<real>, isRightArm: bool, i: nat)
    requires |q| == 17 && i < 8
    ensures FrameAt(m, q, isRightArm, i + 1)
      == FrameAt(m, q, isRightArm, i).Times(DHmatrix(m, ArmJoints(q, isRightArm), i))
  {}

  /** In every configuration each joint turns about the previous z axis, its y axis or the opposite, as listed, with
      the listed offsets. */
  lemma JointTurns(m: Trig, q: seq<real>, isRightArm: bool, i: nat)
    requires |q| == 17 && i < 8 && IsExact(m)
    ensures var f, g := FrameAt(m, q, isRightArm, i), FrameAt(m, q, isRightArm, i + 1);
      var c, s := m.cos(Angle(q, isRightArm, i)), m.sin(Angle(q, isRightArm, i));
      match i
      case 0 => Turns(f, g, f.z, f.y, c, s, 0.0, 0.333)
      case 1 => Turns(f, g, f.y, Minus(f.z), c, s, 0.0, 0.0)
      case 2 => Turns(f, g, Minus(f.y), f.z, c, s, 0.0, 0.316)
      case 3 => Turns(f, g, Minus(f.y), f.z, c, s, 0.0825, 0.0)
      case 4 => Turns(f, g, f.y, Minus(f.z), c, s, -0.0825, 0.384)
      case 5 => Turns(f, g, Minus(f.y), f.z, c, s, 0.0, 0.0)
      case 6 => Turns(f, g, Minus(f.y), f.z, c, s, 0.088, 0.0)
      case _ => Turns(f, g, f.z, f.y, c, s, 0.0, 0.207)
  {
    hide DHmatrix, FrameAt, Transform.Times, Turns, IsExact;
    var f, g := FrameAt(m, q, isRightArm, i), FrameAt(m, q, isRightArm, i + 1);
    var c, s := m.cos(Angle(q, isRightArm, i)), m.sin(Angle(q, isRightArm, i));
    NextFrame(m, q, isRightArm, i);
    JointMatrix(m, q, isRightArm, i, c, s);
    match i
    case 0 => StraightStep(f, g, c, s, 0.0, 0.333);
    case 1 => UpStep(f, g, c, s, 0.0, 0.0);
    case 2 => DownStep(f, g, c, s, 0.0, 0.316);
    case 3 => DownStep(f, g, c, s, 0.0825, 0.0);
    case 4 => UpStep(f, g, c, s, -0.0825, 0.384);
    case 5 => DownStep(f, g, c, s, 0.0, 0.0);
    case 6 => DownStep(f, g, c, s, 0.088, 0.0);
    case _ => StraightStep(f, g, c, s, 0.0, 0.207);
  }

  // ----- positions

  /** The chain starts level, heading where the base does, half the shoulder width to its side. */
  lemma BaseFrame(m: Trig, q: seq<real>, isRightArm: bool)
    requires |q| == 17 && IsExact(m)
    ensures var c, s, side := m.cos(q[2]), m.sin(q[2]), if isRightArm then 0.26 else -0.26;
      FrameAt(m, q, isRightArm, 0)
        == Transform(Vec(c, s, 0.0), Vec(-s, c, 0.0), Vec(0.0, 0.0, 1.0), Vec(q[0] + side * s, q[1] - side * c, 0.0))
  {
    hide Transform.Times;
    var c, s, side := m.cos(q[2]), m.sin(q[2]), if isRightArm then 0.26 else -0.26;
    var mobile := Transform(Vec(c, s, 0.0), Vec(-s, c, 0.0), Vec(0.0, 0.0, 1.0), Vec(q[0], q[1], 0.0));
    var shoulder := Transform(Vec(1.0, 0.0, 0.0), Vec(0.0, 1.0, 0.0), Vec(0.0, 0.0, 1.0), Vec(0.0, -side, 0.0));
    var still := Transform(Vec(1.0, 0.0, 0.0), Vec(0.0, 1.0, 0.0), Vec(0.0, 0.0, 1.0), Zero);
    assert ArmBase(m, q, isRightArm) == mobile.Times(shoulder).Times(still).Times(still);
    Shift(mobile.Times(shoulder), Zero);
    Shift(mobile, shoulder.p);
    ZeroMoves(mobile.Times(shoulder));
    Sideways(mobile, side);
  }

  /** A transform that turns nothing. */
  lemma Shift(t: Transform, p: Vec)
    ensures t.Times(Transform(Vec(1.0, 0.0, 0.0), Vec(0.0, 1.0, 0.0), Vec(0.0, 0.0, 1.0), p))
      == t.(p := Add(t.Turn(p), t.p))
  {
    hide Transform.Turn;
    AxesTurn(t);
  }

  lemma AxesTurn(t: Transform)
    ensures t.Turn(Vec(1.0, 0.0, 0.0)) == t.x && t.Turn(Vec(0.0, 1.0, 0.0)) == t.y && t.Turn(Vec(0.0, 0.0, 1.0)) == t.z
  {
    hide Add, Scale;
    ScaleUnits(t.x);
    ScaleUnits(t.y);
    ScaleUnits(t.z);
    AddZero(t.x);
    AddZero(t.y);
    AddZero(t.z);
    AddZero(Zero);
  }

  lemma ScaleUnits(v: Vec)
    ensures Scale(1.0, v) == v && Scale(0.0, v) == Zero
  {}

  lemma AddZero(v: Vec)
    ensures Add(v, Zero) == v == Add(Zero, v)
  {}

  lemma ZeroMoves(t: Transform)
    ensures Add(t.Turn(Zero), t.p) == t.p
  {}

  lemma Sideways(t: Transform, side: real)
    ensures Add(t.Turn(Vec(0.0, -side, 0.0)), t.p)
      == Vec(t.p.x - side * t.y.x, t.p.y - side * t.y.y, t.p.z - side * t.y.z)
  {
    hide Scale;
    ScaleIs(0.0, t.x);
    ScaleMinus(side, t.y);
    ScaleIs(0.0, t.z);
  }

  /** The elbow in the heading and the first two angles: 0.333 up, then 0.316 along the upper arm. */
  lemma ElbowPosition(m: Trig, q: seq<real>, isRightArm: bool)
    requires |q| == 17 && IsExact(m)
    ensures var c, s, side := m.cos(q[2]), m.sin(q[2]), if isRightArm then 0.26 else -0.26;
      var first, second := if isRightArm then q[3] else q[10], if isRightArm then q[4] else q[11];
      var c1, s1, c2, s2 := m.cos(first), m.sin(first), m.cos(second), m.sin(second);
      JointPosition(m, q, isRightArm, 2) == Vec(q[0] + side * s + 0.316 * (s2 * (c1 * c - s1 * s)),
                                                q[1] - side * c + 0.316 * (s2 * (c1 * s + s1 * c)),
                                                0.333 + 0.316 * c2)
  {
    hide DHmatrix, Transform.Times, IsExact, Angle, Chain, Add, Mix, Minus;
    BaseFrame(m, q, isRightArm);
    var first, second := if isRightArm then q[3] else q[10], if isRightArm then q[4] else q[11];
    assert Angle(q, isRightArm, 0) == first && Angle(q, isRightArm, 1) == second by {
      FirstAngles(q, isRightArm);
    }
    var b, f, g, h := FrameAt(m, q, isRightArm, 0), FrameAt(m, q, isRightArm, 1), FrameAt(m, q, isRightArm, 2),
      FrameAt(m, q, isRightArm, 3);
    JointTurns(m, q, isRightArm, 0);
    JointTurns(m, q, isRightArm, 1);
    JointTurns(m, q, isRightArm, 2);
    NextFrame(m, q, isRightArm, 1);
    JointMatrix(m, q, isRightArm, 1, m.cos(second), m.sin(second));
    UpStep(f, g, m.cos(second), m.sin(second), 0.0, 0.0);
    UpperArm(b, f, g, h, m.cos(first), m.sin(first), m.cos(second), m.sin(second));
    LevelBase(b, h.p, m.cos(first), m.sin(first), m.cos(second), m.sin(second));
  }

  /** A coordinate of the elbow, from the frame in which the chain starts. */
  ghost function ElbowAt(b: Transform, c1: real, s1: real, c2: real, s2: real, i: nat): real {
    At(b.p, i) + 0.316 * (s2 * (c1 * At(b.x, i) + s1 * At(b.y, i))) + (0.333 + 0.316 * c2) * At(b.z, i)
  }

  lemma LevelBase(b: Transform, p: Vec, c1: real, s1: real, c2: real, s2: real)
    requires b.z == Vec(0.0, 0.0, 1.0) && b.x.z == 0.0 == b.y.z && b.p.z == 0.0
    requires forall i: nat :: i < 3 ==> At(p, i) == ElbowAt(b, c1, s1, c2, s2, i)
    ensures p == Vec(b.p.x + 0.316 * (s2 * (c1 * b.x.x + s1 * b.y.x)), b.p.y + 0.316 * (s2 * (c1 * b.x.y + s1 * b.y.y)),
                     0.333 + 0.316 * c2)
  {
    assert At(p, 0) == p.x && At(p, 1) == p.y && At(p, 2) == p.z;
    MulEq(c1, b.x.z, 0.0);
    MulEq(s1, b.y.z, 0.0);
  }

  lemma FirstAngles(q: seq<real>, isRightArm: bool)
    requires |q| == 17
    ensures Angle(q, isRightArm, 0) == if isRightArm then q[3] else q[10]
    ensures Angle(q, isRightArm, 1) == if isRightArm then q[4] else q[11]
  {}

  lemma UpperArm(b: Transform, f: Transform, g: Transform, h: Transform, c1: real, s1: real, c2: real, s2: real)
    requires f.z == b.z && f.x == Mix(c1, b.x, s1, b.y) && f.p == Add(b.p, Mix(0.0, b.x, 0.333, b.z))
    requires g.p == Add(f.p, Mix(0.0, f.x, 0.0, f.y)) && g.y == Mix(-s2, f.x, -c2, f.z)
    requires h.p == Add(g.p, Mix(0.0, g.x, 0.316, Minus(g.y)))
    ensures forall i: nat :: i < 3 ==> At(h.p, i) == ElbowAt(b, c1, s1, c2, s2, i)
  {
    hide Add, Mix, Minus, At;
    forall i: nat | i < 3
      ensures At(h.p, i) == ElbowAt(b, c1, s1, c2, s2, i)
    {
      AddAt(i, b.p, Mix(0.0, b.x, 0.333, b.z));
      AddAt(i, f.p, Mix(0.0, f.x, 0.0, f.y));
      AddAt(i, g.p, Mix(0.0, g.x, 0.316, Minus(g.y)));
      MixMinus(0.0, g.x, 0.316, g.y);
      MixAt(i, 0.0, b.x, 0.333, b.z);
      MixAt(i, 0.0, f.x, 0.0, f.y);
      MixAt(i, 0.0, g.x, -0.316, g.y);
      MixAt(i, c1, b.x, s1, b.y);
      MixAt(i, -s2, f.x, -c2, f.z);
      MulEq(s2, At(f.x, i), c1 * At(b.x, i) + s1 * At(b.y, i));
    }
  }

  /** How far the wrist is from the shoulder depends on the elbow angle alone. */
  lemma ReachIsByElbow(m: Trig, q: seq<real>, isRightArm: bool)
    requires |q| == 17 && IsExact(m)
    ensures var elbow := if isRightArm then q[6] else q[13];
      var along := 0.316 + 0.384 * m.cos(elbow) - 0.0825 * m.sin(elbow);
      var aside := 0.0825 - 0.0825 * m.cos(elbow) - 0.384 * m.sin(elbow);
      Norm2(Sub(JointPosition(m, q, isRightArm, 4), JointPosition(m, q, isRightArm, 1)))
        == along * along + aside * aside
  {
    hide DHmatrix, Transform.Times, Angle, Chain, Norm2, Sub, Add, Mix, Minus, ArmBase, ArmJoints;
    var elbow := if isRightArm then q[6] else q[13];
    assert Angle(q, isRightArm, 3) == elbow by {
      ElbowAngle(q, isRightArm);
    }
    var c, s := m.cos(elbow), m.sin(elbow);
    var e, f, g, h := FrameAt(m, q, isRightArm, 2), FrameAt(m, q, isRightArm, 3), FrameAt(m, q, isRightArm, 4),
      FrameAt(m, q, isRightArm, 5);
    JointTurns(m, q, isRightArm, 2);
    JointTurns(m, q, isRightArm, 3);
    JointTurns(m, q, isRightArm, 4);
    NextFrame(m, q, isRightArm, 3);
    JointMatrix(m, q, isRightArm, 3, c, s);
    DownStep(f, g, c, s, 0.0825, 0.0);
    ChainIsRigid(m, q, isRightArm, 3);
    var a, b := 0.0825 - 0.0825 * c - 0.384 * s, 0.316 + 0.384 * c - 0.0825 * s;
    Forearm(e, f, g, h, c, s, a, b);
    PlaneNorm(f, a, b);
  }

  lemma ElbowAngle(q: seq<real>, isRightArm: bool)
    requires |q| == 17
    ensures Angle(q, isRightArm, 3) == if isRightArm then q[6] else q[13]
  {}

  lemma Forearm(e: Transform, f: Transform, g: Transform, h: Transform, c: real, s: real, a: real, b: real)
    requires f.p == Add(e.p, Mix(0.0, e.x, 0.316, f.z))
    requires g.x == Mix(c, f.x, s, f.z) && g.y == Mix(-s, f.x, c, f.z)
    requires g.p == Add(f.p, Mix(0.0825, f.x, 0.0, g.z)) && h.p == Add(g.p, Mix(-0.0825, g.x, 0.384, g.y))
    requires a == 0.0825 - 0.0825 * c - 0.384 * s && b == 0.316 + 0.384 * c - 0.0825 * s
    ensures Sub(h.p, e.p) == Mix(a, f.x, b, f.z)
  {
    hide Mix, Add, Sub, At;
    forall i: nat | i < 3
      ensures At(Sub(h.p, e.p), i) == At(Mix(a, f.x, b, f.z), i)
    {
      AddAt(i, e.p, Mix(0.0, e.x, 0.316, f.z));
      AddAt(i, f.p, Mix(0.0825, f.x, 0.0, g.z));
      AddAt(i, g.p, Mix(-0.0825, g.x, 0.384, g.y));
      SubAt(i, h.p, e.p);
      MixAt(i, 0.0, e.x, 0.316, f.z);
      MixAt(i, 0.0825, f.x, 0.0, g.z);
      MixAt(i, -0.0825, g.x, 0.384, g.y);
      MixAt(i, c, f.x, s, f.z);
      MixAt(i, -s, f.x, c, f.z);
      MixAt(i, a, f.x, b, f.z);
      ForearmAt(c, s, a, b, At(f.x, i), At(f.z, i), At(g.x, i), At(g.y, i), At(Mix(a, f.x, b, f.z), i));
    }
    SameCoordinates(Sub(h.p, e.p), Mix(a, f.x, b, f.z));
  }

  lemma AddAt(i: nat, u: Vec, v: Vec)
    ensures At(Add(u, v), i) == At(u, i) + At(v, i)
  {}

  lemma SubAt(i: nat, u: Vec, v: Vec)
    ensures At(Sub(u, v), i) == At(u, i) - At(v, i)
  {}

  lemma MixAt(i: nat, a: real, u: Vec, b: real, v: Vec)
    ensures At(Mix(a, u, b, v), i) == a * At(u, i) + b * At(v, i)
  {
    hide Scale;
    ScaleIs(a, u);
    ScaleIs(b, v);
  }

  lemma SameCoordinates(u: Vec, v: Vec)
    requires forall i: nat :: i < 3 ==> At(u, i) == At(v, i)
    ensures u == v
  {
    assert At(u, 0) == At(v, 0) && At(u, 1) == At(v, 1) && At(u, 2) == At(v, 2);
  }

  lemma ForearmAt(c: real, s: real, a: real, b: real, x: real, z: real, gx: real, gy: real, v: real)
    requires gx == c * x + s * z && gy == -s * x + c * z
    requires a == 0.0825 - 0.0825 * c - 0.384 * s && b == 0.316 + 0.384 * c - 0.0825 * s && v == a * x + b * z
    ensures 0.316 * z + 0.0825 * x - 0.0825 * gx + 0.384 * gy == v
  {
    Factored(0.0825, 0.0825, c, 0.384, s, a, x);
    Factored(0.316, -0.384, c, 0.0825, s, b, z);
  }

  lemma Factored(k: real, m: real, c: real, n: real, s: real, a: real, x: real)
    requires a == k - m * c - n * s
    ensures a * x == k * x - m * (c * x) - n * (s * x)
  {}

  lemma PlaneNorm(f: Transform, a: real, b: real)
    requires f.IsRigid()
    ensures Norm2(Mix(a, f.x, b, f.z)) == b * b + a * a
  {
    hide Norm2, Dot, Add, Scale, Cross;
    var v := Mix(a, f.x, b, f.z);
    DotMix(f.x, a, f.x, b, f.z);
    DotMix(f.z, a, f.x, b, f.z);
    DotMix(v, a, f.x, b, f.z);
    DotCommutes(v, f.x);
    DotCommutes(v, f.z);
    DotCommutes(f.x, f.z);
    Norm2IsDot(v);
    SquareSum(a, b, Dot(f.x, f.x), Dot(f.x, f.z), Dot(f.z, f.z), Dot(v, f.x), Dot(v, f.z), Norm2(v));
  }

  lemma DotMix(w: Vec, a: real, u: Vec, b: real, v: Vec)
    ensures Dot(w, Mix(a, u, b, v)) == a * Dot(w, u) + b * Dot(w, v)
  {
    hide Dot, Add, Scale;
    DotAdd(w, Scale(a, u), Scale(b, v));
    DotScale(w, a, u);
    DotScale(w, b, v);
  }

  lemma SquareSum(a: real, b: real, xx: real, xz: real, zz: real, vx: real, vz: real, n: real)
    requires xx == 1.0 == zz && xz == 0.0 && vx == a * xx + b * xz && vz == a * xz + b * zz
    requires n == a * vx + b * vz
    ensures n == b * b + a * a
  {}
}
