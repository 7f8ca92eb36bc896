/** From a homogeneous transform to a pose (htm_ik_server.py, lines 51-83 and 120-143): Shepperd's
    four-branch conversion of a rotation matrix to a quaternion. */
module Quaternion {
  import opened Vectors
  import opened Kinematics

  datatype Matrix = Matrix(m00: real, m01: real, m02: real, m10: real, m11: real, m12: real, m20: real, m21: real,
                           m22: real)

  datatype Quat = Quat(x: real, y: real, z: real, w: real)

  // the four branches, given the square root they take

  function FromTrace(r: Matrix, r0: real): Quat
    requires r0 > 0.0
  {
    var s := 0.5 / r0;
    HalfInverse(r0, s);
    Quat((r.m21 - r.m12) * s, (r.m02 - r.m20) * s, (r.m10 - r.m01) * s, 0.25 / s)
  }

  function FromX(r: Matrix, r0: real): Quat
    requires r0 > 0.0
  {
    var s := 2.0 * r0;
    Quat(0.25 * s, (r.m01 + r.m10) / s, (r.m02 + r.m20) / s, (r.m21 - r.m12) / s)
  }

  function FromY(r: Matrix, r0: real): Quat
    requires r0 > 0.0
  {
    var s := 2.0 * r0;
    Quat((r.m01 + r.m10) / s, 0.25 * s, (r.m12 + r.m21) / s, (r.m02 - r.m20) / s)
  }

  function FromZ(r: Matrix, r0: real): Quat
    requires r0 > 0.0
  {
    var s := 2.0 * r0;
    Quat((r.m02 + r.m20) / s, (r.m12 + r.m21) / s, 0.25 * s, (r.m10 - r.m01) / s)
  }

  function RotationMatrixToQuaternion(r: Matrix, root: real -> real): Quat
    requires IsSquareRoot(root)
  {
    RadicandAtLeastOne(r);
    RootPositive(Radicand(r), root);
    if r.m00 + r.m11 + r.m22 > 0.0 then FromTrace(r, root(r.m00 + r.m11 + r.m22 + 1.0))
    else if r.m00 > r.m11 && r.m00 > r.m22 then FromX(r, root(1.0 + r.m00 - r.m11 - r.m22))
    else if r.m11 > r.m22 then FromY(r, root(1.0 + r.m11 - r.m00 - r.m22))
    else FromZ(r, root(1.0 + r.m22 - r.m00 - r.m11))
  }

  /** What the taken branch takes the square root of. */
  function Radicand(r: Matrix): real {
    if r.m00 + r.m11 + r.m22 > 0.0 then r.m00 + r.m11 + r.m22 + 1.0
    else if r.m00 > r.m11 && r.m00 > r.m22 then 1.0 + r.m00 - r.m11 - r.m22
    else if r.m11 > r.m22 then 1.0 + r.m11 - r.m00 - r.m22
    else 1.0 + r.m22 - r.m00 - r.m11
  }

  /** The branches pick a pivot that is never small, so no square root or division can fail. */
  lemma RadicandAtLeastOne(r: Matrix)
    ensures Radicand(r) >= 1.0
  {}

  lemma RootPositive(x: real, root: real -> real)
    requires IsSquareRoot(root)
    ensures x >= 1.0 ==> root(x) > 0.0
  {}

  lemma HalfInverse(r: real, s: real)
    requires r > 0.0 && s == 0.5 / r
    ensures s > 0.0 && s * r == 0.5 && 0.25 / s == 0.5 * r
  {}

  /** A product by name: a proof can do without seeing the multiplication. */
  ghost function Times(a: real, b: real): real {
    a * b
  }

  ghost function FromProducts(xx: real, yy: real, zz: real, wx: real, wy: real, wz: real, xy: real, yz: real,
                              zx: real): Matrix {
    Matrix(1.0 - 2.0 * (yy + zz), 2.0 * (xy - wz), 2.0 * (zx + wy),
           2.0 * (xy + wz), 1.0 - 2.0 * (xx + zz), 2.0 * (yz - wx),
           2.0 * (zx - wy), 2.0 * (yz + wx), 1.0 - 2.0 * (xx + yy))
  }

  /** The rotation a unit quaternion stands for. */
  ghost function ToMatrix(q: Quat): Matrix {
    FromProducts(Times(q.x, q.x), Times(q.y, q.y), Times(q.z, q.z), Times(q.w, q.x), Times(q.w, q.y), Times(q.w, q.z),
                 Times(q.x, q.y), Times(q.y, q.z), Times(q.z, q.x))
  }

  ghost predicate IsUnit(q: Quat) {
    Times(q.w, q.w) + Times(q.x, q.x) + Times(q.y, q.y) + Times(q.z, q.z) == 1.0
  }

  ghost function Columns(r: Matrix): Transform {
    Transform(Vec(r.m00, r.m10, r.m20), Vec(r.m01, r.m11, r.m21), Vec(r.m02, r.m12, r.m22), Zero)
  }

  /** Orthonormal columns and determinant one. */
  ghost predicate IsRotation(r: Matrix) {
    AreOrthonormal(Columns(r)) && Determinant(Columns(r).x, Columns(r).y, Columns(r).z) == 1.0
  }

  lemma RotationIsRigid(r: Matrix)
    requires IsRotation(r)
    ensures Columns(r).IsRigid()
  {
    hide Dot, Cross, Norm2, Sub, Determinant;
    var c := Columns(r);
    var n := Cross(c.x, c.y);
    TripleRotates(c.x, c.y, c.z);
    Lagrange(c.x, c.y);
    Norm2IsDot(c.z);
    DotCommutes(c.z, n);
    Norm2Sub(n, c.z);
    Norm2IsDot(Sub(n, c.z));
    ZeroDifference(n, c.z);
  }

  lemma ZeroDifference(a: Vec, b: Vec)
    ensures Sub(a, b) == Zero <==> a == b
  {}

  // ----- a rotation's rows are orthonormal too, and every entry is its own cofactor

  ghost function Rows(r: Matrix): Transform {
    Transform(Vec(r.m00, r.m01, r.m02), Vec(r.m10, r.m11, r.m12), Vec(r.m20, r.m21, r.m22), Zero)
  }

  ghost predicate AreOrthonormal(t: Transform) {
    && Dot(t.x, t.x) == Dot(t.y, t.y) == Dot(t.z, t.z) == 1.0
    && Dot(t.x, t.y) == Dot(t.y, t.z) == Dot(t.z, t.x) == 0.0
  }

  ghost predicate AreCyclic(t: Transform) {
    Cross(t.x, t.y) == t.z && Cross(t.y, t.z) == t.x && Cross(t.z, t.x) == t.y
  }

  ghost predicate Facts(r: Matrix) {
    AreCyclic(Columns(r)) && AreOrthonormal(Columns(r)) && AreOrthonormal(Rows(r))
  }

  lemma RotationFacts(r: Matrix)
    requires IsRotation(r)
    ensures Facts(r)
  {
    hide Dot, Cross, Rows;
    RotationIsRigid(r);
    AxesRotate(Columns(r));
    RowsFromColumns(r);
  }

  /** Cramer's rule on the unit vectors. */
  lemma RowsFromColumns(r: Matrix)
    requires AreCyclic(Columns(r)) && AreOrthonormal(Columns(r))
    ensures AreOrthonormal(Rows(r))
  {}

  /** The matrix seen with its axes renamed in turn. */
  ghost function Turned(r: Matrix): Matrix {
    Matrix(r.m11, r.m12, r.m10, r.m21, r.m22, r.m20, r.m01, r.m02, r.m00)
  }

  lemma FactsTurn(r: Matrix)
    requires Facts(r)
    ensures Facts(Turned(r))
  {
    hide AreCyclic, AreOrthonormal;
    TransformTurns(Columns(r), Columns(Turned(r)));
    TransformTurns(Rows(r), Rows(Turned(r)));
  }

  lemma TransformTurns(t: Transform, u: Transform)
    requires u.x == Rotated(t.y) && u.y == Rotated(t.z) && u.z == Rotated(t.x)
    ensures AreCyclic(t) ==> AreCyclic(u)
    ensures AreOrthonormal(t) ==> AreOrthonormal(u)
  {
    hide Dot, Cross;
    RotationCommutes(t.x, t.x);
    RotationCommutes(t.y, t.y);
    RotationCommutes(t.z, t.z);
    RotationCommutes(t.x, t.y);
    RotationCommutes(t.y, t.z);
    RotationCommutes(t.z, t.x);
  }

  // ----- four times the products of the quaternion's entries

  ghost function WW(r: Matrix): real { 1.0 + r.m00 + r.m11 + r.m22 }

  ghost function XX(r: Matrix): real { 1.0 + r.m00 - r.m11 - r.m22 }

  ghost function WX(r: Matrix): real { r.m21 - r.m12 }

  ghost function XY(r: Matrix): real { r.m01 + r.m10 }

  // the same for the other axes, by renaming

  ghost function YY(r: Matrix): real { XX(Turned(r)) }

  ghost function ZZ(r: Matrix): real { XX(Turned(Turned(r))) }

  ghost function WY(r: Matrix): real { WX(Turned(r)) }

  ghost function WZ(r: Matrix): real { WX(Turned(Turned(r))) }

  ghost function YZ(r: Matrix): real { XY(Turned(r)) }

  ghost function XZ(r: Matrix): real { XY(Turned(Turned(r))) }

  /** The 2x2 minors along w and x that vanish. */
  ghost predicate MinorsVanish(r: Matrix) {
    && WX(r) * WX(r) == WW(r) * XX(r)
    && XY(r) * XY(r) == XX(r) * YY(r)
    && WX(r) * WY(r) == WW(r) * XY(r)
    && WX(r) * XY(r) == XX(r) * WY(r)
    && WX(r) * XZ(r) == XX(r) * WZ(r)
    && XY(r) * XZ(r) == XX(r) * YZ(r)
  }

  lemma FactsGiveMinors(r: Matrix)
    requires Facts(r)
    ensures MinorsVanish(r)
  {
    hide Facts, WW, XX, WX, XY, YY, WY, WZ, YZ, XZ;
    MinorWX(r);
    MinorXY(r);
    MinorWXWY(r);
    MinorWXXY(r);
    MinorWXXZ(r);
    MinorXYXZ(r);
  }

  lemma MinorWX(r: Matrix)
    requires Facts(r)
    ensures WX(r) * WX(r) == WW(r) * XX(r)
  {}

  lemma MinorXY(r: Matrix)
    requires Facts(r)
    ensures XY(r) * XY(r) == XX(r) * YY(r)
  {}

  lemma MinorWXWY(r: Matrix)
    requires Facts(r)
    ensures WX(r) * WY(r) == WW(r) * XY(r)
  {}

  lemma MinorWXXZ(r: Matrix)
    requires Facts(r)
    ensures WX(r) * XZ(r) == XX(r) * WZ(r)
  {}

  lemma MinorWXXY(r: Matrix)
    requires Facts(r)
    ensures WX(r) * XY(r) == XX(r) * WY(r)
  {}

  lemma MinorXYXZ(r: Matrix)
    requires Facts(r)
    ensures XY(r) * XZ(r) == XX(r) * YZ(r)
  {}

  // ----- the quaternion has these products

  ghost predicate IsProduct(n: real, a: real, b: real) {
    4.0 * Times(a, b) == n
  }

  ghost predicate IsMinor(n: real, m: real, p: real, k: real) {
    n * m == p * k
  }

  ghost predicate IsDouble(n: real, r0: real, q: real) {
    2.0 * (r0 * q) == n
  }

  ghost predicate Represents(q: Quat, r: Matrix) {
    && IsProduct(WW(r), q.w, q.w) && IsProduct(XX(r), q.x, q.x) && IsProduct(YY(r), q.y, q.y)
         && IsProduct(ZZ(r), q.z, q.z)
    && IsProduct(WX(r), q.w, q.x) && IsProduct(WY(r), q.w, q.y) && IsProduct(WZ(r), q.w, q.z)
    && IsProduct(XY(r), q.x, q.y) && IsProduct(YZ(r), q.y, q.z) && IsProduct(XZ(r), q.z, q.x)
  }

  /** A quaternion with these products is a unit quaternion, and stands for the matrix. */
  lemma RepresentedMatrix(q: Quat, r: Matrix)
    requires Represents(q, r)
    ensures IsUnit(q) && ToMatrix(q) == r
  {}

  lemma PivotWith(r0: real, qp: real, qa: real, na: real)
    requires qp == 0.5 * r0 && IsDouble(na, r0, qa)
    ensures IsProduct(na, qp, qa) && IsProduct(na, qa, qp)
  {}

  lemma PivotSelf(r0: real, p: real, qp: real)
    requires r0 * r0 == p && qp == 0.5 * r0
    ensures IsProduct(p, qp, qp)
  {}

  lemma PivotPair(r0: real, p: real, qa: real, qb: real, na: real, nb: real, ab: real)
    requires r0 > 0.0 && r0 * r0 == p && IsDouble(na, r0, qa) && IsDouble(nb, r0, qb) && IsMinor(na, nb, p, ab)
    ensures IsProduct(ab, qa, qb)
  {
    MulPos(r0, r0, p);
    assert na * nb == 4.0 * ((r0 * r0) * (qa * qb)) by {
      MulEq(na, nb, 2.0 * (r0 * qb));
      MulEq(r0 * qb, na, 2.0 * (r0 * qa));
    }
    MulEq(qa * qb, r0 * r0, p);
    ZeroFactor(p, 4.0 * (qa * qb) - ab);
  }

  // ----- the minors along each pivot

  ghost predicate MinorsOfW(r: Matrix) {
    && IsMinor(WX(r), WX(r), WW(r), XX(r)) && IsMinor(WY(r), WY(r), WW(r), YY(r)) && IsMinor(WZ(r), WZ(r), WW(r), ZZ(r))
    && IsMinor(WX(r), WY(r), WW(r), XY(r)) && IsMinor(WY(r), WZ(r), WW(r), YZ(r)) && IsMinor(WZ(r), WX(r), WW(r), XZ(r))
  }

  ghost predicate MinorsOfX(r: Matrix) {
    && IsMinor(WX(r), WX(r), XX(r), WW(r)) && IsMinor(XY(r), XY(r), XX(r), YY(r)) && IsMinor(XZ(r), XZ(r), XX(r), ZZ(r))
    && IsMinor(WX(r), XY(r), XX(r), WY(r)) && IsMinor(XY(r), XZ(r), XX(r), YZ(r)) && IsMinor(XZ(r), WX(r), XX(r), WZ(r))
  }

  /** The minors the four branches rely on. */
  ghost predicate IsRankOne(r: Matrix) {
    MinorsOfW(r) && MinorsOfX(r) && MinorsOfX(Turned(r)) && MinorsOfX(Turned(Turned(r)))
  }

  lemma TurnsReturn(r: Matrix)
    ensures Turned(Turned(Turned(r))) == r
    ensures WW(Turned(r)) == WW(r) == WW(Turned(Turned(r)))
  {}

  lemma MinorsAlongW(r: Matrix)
    requires MinorsVanish(r)
    ensures IsMinor(WX(r), WX(r), WW(r), XX(r)) && IsMinor(WX(r), WY(r), WW(r), XY(r))
  {
    hide WW, XX, WX, XY, YY, ZZ, WY, WZ, YZ, XZ;
  }

  lemma CollectMinorsOfW(r: Matrix)
    requires MinorsVanish(r) && MinorsVanish(Turned(r)) && MinorsVanish(Turned(Turned(r)))
    ensures MinorsOfW(r)
  {
    hide MinorsVanish, IsMinor, WW, XX, WX, XY, Turned;
    TurnsReturn(r);
    MinorsAlongW(r);
    MinorsAlongW(Turned(r));
    MinorsAlongW(Turned(Turned(r)));
  }

  lemma MinorsAlongX(r: Matrix)
    requires MinorsVanish(r)
    ensures IsMinor(WX(r), WX(r), XX(r), WW(r)) && IsMinor(XY(r), XY(r), XX(r), YY(r))
    ensures IsMinor(WX(r), XY(r), XX(r), WY(r)) && IsMinor(XY(r), XZ(r), XX(r), YZ(r))
      && IsMinor(XZ(r), WX(r), XX(r), WZ(r))
  {
    hide WW, XX, WX, XY, YY, ZZ, WY, WZ, YZ, XZ;
  }

  lemma LastSquare(r: Matrix)
    requires MinorsVanish(Turned(Turned(r)))
    ensures IsMinor(XZ(r), XZ(r), XX(r), ZZ(r))
  {
    var t := Turned(Turned(r));
    TurnsReturn(r);
    hide WW, XX, WX, XY, Turned;
    assert XY(t) * XY(t) == XX(t) * YY(t) && YY(t) == XX(Turned(t)) == XX(r) && XY(t) == XZ(r) && XX(t) == ZZ(r);
  }

  lemma CollectMinorsOfX(r: Matrix)
    requires MinorsVanish(r) && MinorsVanish(Turned(Turned(r)))
    ensures MinorsOfX(r)
  {
    hide MinorsVanish, IsMinor, WW, XX, WX, XY, YY, ZZ, WY, WZ, YZ, XZ, Turned;
    MinorsAlongX(r);
    LastSquare(r);
  }

  lemma RotationIsRankOne(r: Matrix)
    requires IsRotation(r)
    ensures IsRankOne(r)
  {
    hide Facts, MinorsVanish, IsRotation, MinorsOfW, MinorsOfX, Turned;
    RotationFacts(r);
    FactsTurn(r);
    FactsTurn(Turned(r));
    FactsGiveMinors(r);
    FactsGiveMinors(Turned(r));
    FactsGiveMinors(Turned(Turned(r)));
    TurnsReturn(r);
    TurnsReturn(Turned(r));
    CollectMinorsOfW(r);
    CollectMinorsOfX(r);
    CollectMinorsOfX(Turned(r));
    CollectMinorsOfX(Turned(Turned(r)));
  }

  lemma PivotW(r: Matrix, q: Quat, r0: real)
    requires MinorsOfW(r) && r0 > 0.0 && r0 * r0 == WW(r)
    requires q.w == 0.5 * r0 && IsDouble(WX(r), r0, q.x) && IsDouble(WY(r), r0, q.y) && IsDouble(WZ(r), r0, q.z)
    ensures Represents(q, r)
  {
    hide IsProduct, IsMinor, IsDouble, WW, XX, WX, XY, YY, ZZ, WY, WZ, YZ, XZ;
    var p := WW(r);
    PivotSelf(r0, p, q.w);
    PivotWith(r0, q.w, q.x, WX(r));
    PivotWith(r0, q.w, q.y, WY(r));
    PivotWith(r0, q.w, q.z, WZ(r));
    PivotPair(r0, p, q.x, q.x, WX(r), WX(r), XX(r));
    PivotPair(r0, p, q.y, q.y, WY(r), WY(r), YY(r));
    PivotPair(r0, p, q.z, q.z, WZ(r), WZ(r), ZZ(r));
    PivotPair(r0, p, q.x, q.y, WX(r), WY(r), XY(r));
    PivotPair(r0, p, q.y, q.z, WY(r), WZ(r), YZ(r));
    PivotPair(r0, p, q.z, q.x, WZ(r), WX(r), XZ(r));
  }

  lemma PivotX(r: Matrix, q: Quat, r0: real)
    requires MinorsOfX(r) && r0 > 0.0 && r0 * r0 == XX(r)
    requires q.x == 0.5 * r0 && IsDouble(WX(r), r0, q.w) && IsDouble(XY(r), r0, q.y) && IsDouble(XZ(r), r0, q.z)
    ensures Represents(q, r)
  {
    hide IsProduct, IsMinor, IsDouble, WW, XX, WX, XY, YY, ZZ, WY, WZ, YZ, XZ;
    var p := XX(r);
    PivotSelf(r0, p, q.x);
    PivotWith(r0, q.x, q.w, WX(r));
    PivotWith(r0, q.x, q.y, XY(r));
    PivotWith(r0, q.x, q.z, XZ(r));
    PivotPair(r0, p, q.w, q.w, WX(r), WX(r), WW(r));
    PivotPair(r0, p, q.y, q.y, XY(r), XY(r), YY(r));
    PivotPair(r0, p, q.z, q.z, XZ(r), XZ(r), ZZ(r));
    PivotPair(r0, p, q.w, q.y, WX(r), XY(r), WY(r));
    PivotPair(r0, p, q.y, q.z, XY(r), XZ(r), YZ(r));
    PivotPair(r0, p, q.z, q.w, XZ(r), WX(r), WZ(r));
    ProductSwaps(WZ(r), q.z, q.w);
  }

  lemma ProductSwaps(n: real, a: real, b: real)
    ensures IsProduct(n, a, b) <==> IsProduct(n, b, a)
  {}

  ghost function TurnedQuat(q: Quat): Quat {
    Quat(q.y, q.z, q.x, q.w)
  }

  lemma RepresentsTurned(q: Quat, r: Matrix)
    ensures Represents(TurnedQuat(q), Turned(r)) <==> Represents(q, r)
  {}

  // ----- the four branches

  lemma BranchW(r: Matrix, r0: real)
    requires MinorsOfW(r) && r0 > 0.0 && r0 * r0 == r.m00 + r.m11 + r.m22 + 1.0
    ensures Represents(FromTrace(r, r0), r)
  {
    hide MinorsOfW, Represents, IsDouble;
    var s, q := 0.5 / r0, FromTrace(r, r0);
    HalfInverse(r0, s);
    Doubled(r0, s, r.m21 - r.m12, q.x);
    Doubled(r0, s, r.m02 - r.m20, q.y);
    Doubled(r0, s, r.m10 - r.m01, q.z);
    PivotW(r, q, r0);
  }

  lemma Doubled(r0: real, s: real, n: real, q: real)
    requires s * r0 == 0.5 && q == n * s
    ensures IsDouble(n, r0, q)
  {}

  lemma BranchX(r: Matrix, r0: real)
    requires MinorsOfX(r) && r0 > 0.0 && r0 * r0 == 1.0 + r.m00 - r.m11 - r.m22
    ensures Represents(FromX(r, r0), r)
  {
    hide MinorsOfX, Represents, IsDouble;
    var q := FromX(r, r0);
    Halved(r0, r.m01 + r.m10, q.y);
    Halved(r0, r.m02 + r.m20, q.z);
    Halved(r0, r.m21 - r.m12, q.w);
    PivotX(r, q, r0);
  }

  lemma Halved(r0: real, n: real, q: real)
    requires r0 > 0.0 && q == n / (2.0 * r0)
    ensures IsDouble(n, r0, q)
  {}

  lemma BranchY(r: Matrix, r0: real)
    requires MinorsOfX(Turned(r)) && r0 > 0.0 && r0 * r0 == 1.0 + r.m11 - r.m00 - r.m22
    ensures Represents(FromY(r, r0), r)
  {
    hide MinorsOfX, Represents;
    BranchX(Turned(r), r0);
    assert FromX(Turned(r), r0) == TurnedQuat(FromY(r, r0));
    RepresentsTurned(FromY(r, r0), r);
  }

  lemma BranchZ(r: Matrix, r0: real)
    requires MinorsOfX(Turned(Turned(r))) && r0 > 0.0 && r0 * r0 == 1.0 + r.m22 - r.m00 - r.m11
    ensures Represents(FromZ(r, r0), r)
  {
    hide MinorsOfX, Represents;
    BranchY(Turned(r), r0);
    assert FromY(Turned(r), r0) == TurnedQuat(FromZ(r, r0));
    RepresentsTurned(FromZ(r, r0), r);
  }

  lemma ShepperdRepresents(r: Matrix, root: real -> real)
    requires IsRankOne(r) && IsSquareRoot(root)
    ensures Represents(RotationMatrixToQuaternion(r, root), r)
  {
    hide MinorsOfW, MinorsOfX, Represents, Turned, FromTrace, FromX, FromY, FromZ;
    RadicandAtLeastOne(r);
    RootPositive(Radicand(r), root);
    var r0 := root(Radicand(r));
    if r.m00 + r.m11 + r.m22 > 0.0 {
      BranchW(r, r0);
    } else if r.m00 > r.m11 && r.m00 > r.m22 {
      BranchX(r, r0);
    } else if r.m11 > r.m22 {
      BranchY(r, r0);
    } else {
      BranchZ(r, r0);
    }
  }

  /** Shepperd's quaternion is a unit quaternion standing for the rotation it was computed from. */
  lemma ShepperdIsFaithful(r: Matrix, root: real -> real)
    requires IsRotation(r) && IsSquareRoot(root)
    ensures IsUnit(RotationMatrixToQuaternion(r, root)) && ToMatrix(RotationMatrixToQuaternion(r, root)) == r
  {
    hide IsRotation, Represents, ToMatrix, IsUnit, IsRankOne, RotationMatrixToQuaternion;
    RotationIsRankOne(r);
    ShepperdRepresents(r, root);
    RepresentedMatrix(RotationMatrixToQuaternion(r, root), r);
  }

  // ----- from a unit quaternion and back

  lemma UnitIsRepresented(q: Quat)
    requires IsUnit(q)
    ensures Represents(q, ToMatrix(q))
  {}

  lemma SameMinor(n: real, m: real, p: real, k: real, a: real, b: real, c: real)
    requires IsProduct(n, a, b) && IsProduct(m, a, c) && IsProduct(p, a, a) && IsProduct(k, b, c)
    ensures IsMinor(n, m, p, k) && IsMinor(m, n, p, k)
  {}

  lemma RepresentedIsRankOne(q: Quat, r: Matrix)
    requires Represents(q, r)
    ensures MinorsOfW(r) && MinorsOfX(r)
  {
    hide IsProduct, IsMinor, WW, XX, WX, XY, YY, ZZ, WY, WZ, YZ, XZ;
    ProductSwaps(WX(r), q.w, q.x);
    ProductSwaps(XZ(r), q.z, q.x);
    ProductSwaps(WZ(r), q.w, q.z);
    SameMinor(WX(r), WX(r), WW(r), XX(r), q.w, q.x, q.x);
    SameMinor(WY(r), WY(r), WW(r), YY(r), q.w, q.y, q.y);
    SameMinor(WZ(r), WZ(r), WW(r), ZZ(r), q.w, q.z, q.z);
    SameMinor(WX(r), WY(r), WW(r), XY(r), q.w, q.x, q.y);
    SameMinor(WY(r), WZ(r), WW(r), YZ(r), q.w, q.y, q.z);
    SameMinor(WZ(r), WX(r), WW(r), XZ(r), q.w, q.z, q.x);
    SameMinor(WX(r), WX(r), XX(r), WW(r), q.x, q.w, q.w);
    SameMinor(XY(r), XY(r), XX(r), YY(r), q.x, q.y, q.y);
    SameMinor(XZ(r), XZ(r), XX(r), ZZ(r), q.x, q.z, q.z);
    SameMinor(WX(r), XY(r), XX(r), WY(r), q.x, q.w, q.y);
    SameMinor(XY(r), XZ(r), XX(r), YZ(r), q.x, q.y, q.z);
    SameMinor(XZ(r), WX(r), XX(r), WZ(r), q.x, q.z, q.w);
  }

  /** Two quaternions with the same products differ at most in sign. */
  lemma SameProductsSameUpToSign(p: Quat, q: Quat, r: Matrix)
    requires Represents(p, r) && Represents(q, r)
    ensures p == q || p == Quat(-q.x, -q.y, -q.z, -q.w)
  {
    hide IsProduct, WW, XX, WX, XY, YY, ZZ, WY, WZ, YZ, XZ;
    if q.w != 0.0 {
      SameSign(WW(r), p.w, q.w, WX(r), p.x, q.x);
      SameSign(WW(r), p.w, q.w, WY(r), p.y, q.y);
      SameSign(WW(r), p.w, q.w, WZ(r), p.z, q.z);
    } else if q.x != 0.0 {
      SameSign(XX(r), p.x, q.x, WX(r), p.w, q.w);
      SameSign(XX(r), p.x, q.x, XY(r), p.y, q.y);
      SameSign(XX(r), p.x, q.x, XZ(r), p.z, q.z);
    } else if q.y != 0.0 {
      SameSign(YY(r), p.y, q.y, WY(r), p.w, q.w);
      SameSign(YY(r), p.y, q.y, XY(r), p.x, q.x);
      SameSign(YY(r), p.y, q.y, YZ(r), p.z, q.z);
    } else {
      BothZero(WW(r), p.w, q.w);
      BothZero(XX(r), p.x, q.x);
      BothZero(YY(r), p.y, q.y);
      BothEqual(ZZ(r), p.z, q.z);
    }
  }

  lemma BothZero(n: real, p: real, q: real)
    requires IsProduct(n, p, p) && IsProduct(n, q, q) && q == 0.0
    ensures p == 0.0
  {
    SquareZero(p);
  }

  lemma BothEqual(n: real, p: real, q: real)
    requires IsProduct(n, p, p) && IsProduct(n, q, q)
    ensures p == q || p == -q
  {}

  lemma SquareZero(a: real)
    ensures a * a == 0.0 ==> a == 0.0
  {
    if a != 0.0 {
      SquarePos(a, a * a);
    }
  }

  lemma SameSign(n: real, p: real, q: real, m: real, a: real, b: real)
    requires q != 0.0 && IsProduct(n, p, p) && IsProduct(n, q, q)
    requires (IsProduct(m, p, a) && IsProduct(m, q, b)) || (IsProduct(m, a, p) && IsProduct(m, b, q))
    ensures (p == q && a == b) || (p == -q && a == -b)
  {}

  /** Converting the matrix of a unit quaternion gives that quaternion or its negative. */
  lemma ShepperdInvertsUpToSign(q: Quat, root: real -> real)
    requires IsUnit(q) && IsSquareRoot(root)
    ensures var back := RotationMatrixToQuaternion(ToMatrix(q), root);
      back == q || back == Quat(-q.x, -q.y, -q.z, -q.w)
  {
    hide Represents, ToMatrix, IsUnit, MinorsOfW, MinorsOfX, Turned, TurnedQuat, RotationMatrixToQuaternion;
    var r := ToMatrix(q);
    UnitIsRepresented(q);
    RepresentsTurned(q, r);
    RepresentsTurned(TurnedQuat(q), Turned(r));
    RepresentedIsRankOne(q, r);
    RepresentedIsRankOne(TurnedQuat(q), Turned(r));
    RepresentedIsRankOne(TurnedQuat(TurnedQuat(q)), Turned(Turned(r)));
    ShepperdRepresents(r, root);
    SameProductsSameUpToSign(RotationMatrixToQuaternion(r, root), q, r);
  }

  // ----- homogeneous transforms

  datatype Pose = Pose(position: Vec, orientation: Quat)

  /** goal_callback: a goal is accepted if it has sixteen numbers. */
  predicate AcceptsGoal(htm: seq<real>) {
    |htm| == 16
  }

  function RotationPart(htm: seq<real>): Matrix
    requires AcceptsGoal(htm)
  {
    Matrix(htm[0], htm[1], htm[2], htm[4], htm[5], htm[6], htm[8], htm[9], htm[10])
  }

  function HtmToPose(htm: seq<real>, root: real -> real): Pose
    requires AcceptsGoal(htm) && IsSquareRoot(root)
  {
    Pose(Vec(htm[3], htm[7], htm[11]), RotationMatrixToQuaternion(RotationPart(htm), root))
  }

  /** The homogeneous transform of a pose. */
  ghost function PoseToHtm(p: Pose): seq<real> {
    var r, t := ToMatrix(p.orientation), p.position;
    [r.m00, r.m01, r.m02, t.x, r.m10, r.m11, r.m12, t.y, r.m20, r.m21, r.m22, t.z, 0.0, 0.0, 0.0, 1.0]
  }

  /** Every homogeneous transform is recovered from its pose. */
  lemma PoseIsFaithful(htm: seq<real>, root: real -> real)
    requires |htm| == 16 && IsSquareRoot(root) && IsRotation(RotationPart(htm))
      && htm[12..] == [0.0, 0.0, 0.0, 1.0]
    ensures IsUnit(HtmToPose(htm, root).orientation) && PoseToHtm(HtmToPose(htm, root)) == htm
  {
    hide IsRotation, ToMatrix, IsUnit, RotationMatrixToQuaternion;
    ShepperdIsFaithful(RotationPart(htm), root);
    assert htm[12..] == [htm[12], htm[13], htm[14], htm[15]];
  }
}
