/** The sign tests and projections of the GJK code (openGJK.c, lines 158-248), and what they say about the nearest
    point of a segment, a triangle, and the cone at the newest vertex. */
module GjkSimplex {
  import opened Vectors
  import opened ConvexHull

  // ----- sign tests and projections

  predicate Hff1(p: Vec, q: Vec) {
    (p.x * p.x - p.x * q.x) + (p.y * p.y - p.y * q.y) + (p.z * p.z - p.z * q.z) > 0.0
  }

  predicate Hff2(p: Vec, q: Vec, r: Vec) {
    var pq, pr := Sub(q, p), Sub(r, p);
    Dot(p, Cross(pq, Cross(pq, pr))) < 0.0
  }

  predicate Hff3(p: Vec, q: Vec, r: Vec) {
    Dot(p, Cross(Sub(q, p), Sub(r, p))) <= 0.0
  }

  function ProjectOnLine(p: Vec, q: Vec): Vec
    requires p != q
  {
    Sub(p, Scale(LineFraction(p, q), Sub(p, q)))
  }

  function LineFraction(p: Vec, q: Vec): real
    requires p != q
  {
    var pq := Sub(p, q);
    EdgeLength(p, q);
    Dot(p, pq) / Dot(pq, pq)
  }

  function ProjectOnPlane(p: Vec, q: Vec, r: Vec): Vec
    requires TriangleNormal(p, q, r) != Zero
  {
    var n := TriangleNormal(p, q, r);
    Norm2IsDot(n);
    var tmp := Dot(n, p) / Dot(n, n);
    Scale(tmp, n)
  }

  function TriangleNormal(p: Vec, q: Vec, r: Vec): Vec {
    Cross(Sub(p, q), Sub(p, r))
  }

  lemma EdgeLength(p: Vec, q: Vec)
    requires p != q
    ensures Dot(Sub(p, q), Sub(p, q)) > 0.0
  {
    hide Dot, Norm2, Sub;
    Norm2IsDot(Sub(p, q));
    SubZero(p, q);
  }

  lemma SubZero(p: Vec, q: Vec)
    ensures Sub(p, q) == Zero ==> p == q
  {}

  // ----- what the sub-algorithm is for

  /** v is orthogonal to the affine hull of the points: all of them lie in the plane v.x = v.v. */
  ghost predicate Supports(v: Vec, pts: seq<Vec>) {
    forall i :: 0 <= i < |pts| ==> Dot(v, pts[i]) == Norm2(v)
  }

  /** No listed point is closer to the origin than v in direction v. */
  ghost predicate Bounds(v: Vec, pts: seq<Vec>) {
    forall i :: 0 <= i < |pts| ==> Dot(v, pts[i]) >= Norm2(v)
  }

  ghost predicate IsNearest(v: Vec, pts: seq<Vec>) {
    InHull(v, pts) && forall x: Vec :: InHull(x, pts) ==> Norm2(v) <= Norm2(x)
  }

  ghost predicate Independent(pts: seq<Vec>) {
    match |pts|
    case 1 => true
    case 2 => pts[0] != pts[1]
    case 3 => TriangleNormal(pts[2], pts[1], pts[0]) != Zero
    case 4 => Determinant(Sub(pts[2], pts[3]), Sub(pts[1], pts[3]), Sub(pts[0], pts[3])) != 0.0
    case _ => false
  }

  lemma BoundingIsBelow(v: Vec, x: Vec, pts: seq<Vec>)
    requires Bounds(v, pts) && InHull(x, pts)
    ensures Norm2(v) <= Norm2(x)
  {
    hide InHull, Norm2, Dot;
    HullBound(v, x, pts, Norm2(v));
    LevelIsFarther(v, x);
  }

  /** A hull point that bounds all vertices is the hull's nearest point to the origin. */
  lemma BoundingPointIsNearest(v: Vec, pts: seq<Vec>)
    requires InHull(v, pts) && Bounds(v, pts)
    ensures IsNearest(v, pts)
  {
    forall x: Vec | InHull(x, pts)
      ensures Norm2(v) <= Norm2(x)
    {
      BoundingIsBelow(v, x, pts);
    }
  }

  /** Conversely, a nearest point bounds all vertices: a vertex below its plane could be approached. */
  lemma NearestBounds(v: Vec, pts: seq<Vec>)
    requires IsNearest(v, pts)
    ensures Bounds(v, pts)
  {
    hide InHull, Norm2, Dot, Lerp;
    forall i | 0 <= i < |pts|
      ensures Dot(v, pts[i]) >= Norm2(v)
    {
      HullMember(i, pts);
      if Dot(v, pts[i]) < Norm2(v) {
        var t := CloserPoint(v, pts[i]);
        HullMix(v, pts[i], pts, t);
        assert false;
      }
    }
  }

  lemma CloserPoint(v: Vec, p: Vec) returns (t: real)
    requires Dot(v, p) < Norm2(v)
    ensures 0.0 <= t <= 1.0 && Norm2(Lerp(v, p, t)) < Norm2(v)
  {
    hide Dot, Norm2, Sub, Scale;
    var e := Sub(v, p);
    DotSub(v, v, p);
    Norm2IsDot(v);
    Norm2IsDot(e);
    SubZero(v, p);
    var drop, n := Dot(v, e), Norm2(e);
    t := if drop < n then drop / n else 1.0;
    Norm2Sub(v, Scale(t, e));
    DotScale(v, t, e);
    Norm2Scale(t, e);
    if drop < n {
      FractionBounds(drop, n);
      MulPos(t, drop, t * drop);
      assert t * n == drop;
    }
    StepScalars(t, drop, n);
  }

  lemma Norm2Scale(t: real, e: Vec)
    ensures Norm2(Scale(t, e)) == t * (t * Norm2(e))
  {}

  lemma StepScalars(t: real, drop: real, n: real)
    requires drop > 0.0 && n >= 0.0 && t > 0.0 && (t * n == drop || (t == 1.0 && n <= drop)) && t * drop > 0.0
    ensures t * (t * n) < 2.0 * (t * drop)
  {}

  /** If some vertex lies strictly below v0's supporting plane, the nearest point beats v0. */
  lemma NearestIsCloser(v: Vec, v0: Vec, pts: seq<Vec>, k: nat)
    requires InHull(v0, pts) && Bounds(v, pts)
    requires k < |pts| && Dot(v0, pts[k]) < Norm2(v0)
    ensures Norm2(v) < Norm2(v0)
  {
    hide Dot, Norm2, Sub, InHull;
    HullBound(v, v0, pts, Norm2(v));
    Norm2Sub(v, v0);
    Norm2IsDot(Sub(v, v0));
    SubZero(v, v0);
  }

  // ----- the nearest point of the cone at the newest vertex

  /** The newest vertex occurs once. */
  ghost predicate IsPointed(verts: seq<Vec>) {
    |verts| > 0 && forall i :: 0 <= i < |verts| - 1 ==> verts[i] != verts[|verts| - 1]
  }

  /** No point of the cone at the newest vertex, spanned by the edges to the older ones, is nearer to the origin. */
  ghost predicate IsConeNearest(v: Vec, verts: seq<Vec>)
    requires |verts| > 0
  {
    InCone(v, verts[|verts| - 1], verts) && forall x: Vec :: InCone(x, verts[|verts| - 1], verts) ==>
      Norm2(v) <= Norm2(x)
  }

  /** The certificate for it: v lies in the cone of the kept vertices and bounds all vertices. */
  ghost predicate IsFoot(v: Vec, kept: seq<Vec>, verts: seq<Vec>)
    requires |verts| > 0
  {
    InCone(v, verts[|verts| - 1], kept) && Bounds(v, verts)
  }

  /** What every branch of the sub-algorithm keeps: the newest vertex and some of the others, all level with v. */
  ghost predicate IsKept(kept: seq<Vec>, v: Vec, verts: seq<Vec>)
    requires |verts| > 0
  {
    && Supports(v, kept) && verts[|verts| - 1] in kept
    && forall i :: 0 <= i < |kept| ==> kept[i] in verts
  }

  lemma FootIffConeNearest(v: Vec, kept: seq<Vec>, verts: seq<Vec>)
    requires IsPointed(verts) && IsKept(kept, v, verts) && InCone(v, verts[|verts| - 1], kept)
    ensures IsFoot(v, kept, verts) <==> IsConeNearest(v, verts)
  {
    hide Dot, Norm2, InCone;
    var n := |verts| - 1;
    ConeOfSubset(v, kept, verts, n);
    if Bounds(v, verts) {
      forall x: Vec | InCone(x, verts[n], verts)
        ensures Norm2(v) <= Norm2(x)
      {
        ConeBound(v, x, verts[n], verts, Norm2(v));
        LevelIsFarther(v, x);
      }
    }
    if IsConeNearest(v, verts) {
      forall i | 0 <= i < |verts|
        ensures Dot(v, verts[i]) >= Norm2(v)
      {
        ConeMember(i, n, verts);
        if Dot(v, verts[i]) < Norm2(v) {
          var t := CloserPoint(v, verts[i]);
          ConeMix(v, verts[i], verts[n], verts, t);
          assert false;
        }
      }
    }
  }

  lemma LevelIsFarther(v: Vec, x: Vec)
    requires Dot(v, x) >= Norm2(v)
    ensures Norm2(v) <= Norm2(x)
    ensures Dot(v, x) > Norm2(v) ==> Norm2(v) < Norm2(x)
  {
    hide Dot, Norm2, Sub;
    Norm2Sub(v, x);
    Norm2IsDot(Sub(v, x));
  }

  /** v0 supports the older vertices and the newest one beats its plane. Then any point of the cone lies in the hull
      of the kept vertices, or farther from the origin than v0. */
  lemma InHullOrFarther(v0: Vec, v: Vec, kept: seq<Vec>, verts: seq<Vec>)
    requires |verts| > 0 && Supports(v0, verts[..|verts| - 1]) && Dot(v0, verts[|verts| - 1]) < Norm2(v0)
    requires IsKept(kept, v, verts) && InCone(v, verts[|verts| - 1], kept)
    ensures InHull(v, kept) || Norm2(v) > Norm2(v0)
  {
    hide Dot, Norm2, InHull, InCone;
    var n := |verts| - 1;
    if Dot(v0, v) > Norm2(v0) {
      LevelIsFarther(v0, v);
    } else {
      forall i | 0 <= i < |kept| && kept[i] != verts[n]
        ensures Dot(v0, kept[i]) == Norm2(v0)
      {
        var j :| 0 <= j < |verts| && verts[j] == kept[i];
        assert verts[..n][j] == kept[i];
      }
      ConeInHull(v, verts[n], kept, v0, Norm2(v0));
    }
  }

  /** v0 is the nearest point of the older vertices' hull, and the newest vertex beats its plane. */
  ghost predicate Improvable(v0: Vec, verts: seq<Vec>)
    requires |verts| > 0
  {
    var old' := verts[..|verts| - 1];
    InHull(v0, old') && Supports(v0, old') && Dot(v0, verts[|verts| - 1]) < Norm2(v0)
  }

  /** Under the loop's invariant the nearest point of the cone does not reach beyond the old vertices: it is the
      nearest point of the simplex. */
  lemma FootIsNearest(v0: Vec, v: Vec, kept: seq<Vec>, verts: seq<Vec>)
    requires |verts| > 0 && Improvable(v0, verts) && IsFoot(v, kept, verts) && IsKept(kept, v, verts)
    ensures InHull(v, kept) && IsNearest(v, verts)
  {
    hide Dot, Norm2, InHull, InCone, IsNearest;
    var old' := verts[..|verts| - 1];
    assert forall i :: 0 <= i < |old'| ==> old'[i] == verts[i];
    BoundingIsBelow(v, v0, old');
    InHullOrFarther(v0, v, kept, verts);
    HullOfSubset(v, kept, verts);
    BoundingPointIsNearest(v, verts);
  }

  // ----- projections support their points

  lemma LineProjection(p: Vec, q: Vec)
    requires p != q
    ensures var v := ProjectOnLine(p, q); Supports(v, [q, p])
    ensures ProjectOnLine(p, q) == Lerp(p, q, LineFraction(p, q))
  {
    hide Dot, Norm2, Sub, Scale;
    var pq := Sub(p, q);
    EdgeLength(p, q);
    var t := LineFraction(p, q);
    var v := ProjectOnLine(p, q);
    DotSub(pq, p, Scale(t, pq));
    DotScale(pq, t, pq);
    DotCommutes(pq, p);
    assert t * Dot(pq, pq) == Dot(p, pq);
    SupportsBoth(v, p, q, t);
  }

  lemma SupportsBoth(v: Vec, p: Vec, q: Vec, t: real)
    requires v == Lerp(p, q, t) && Dot(Sub(p, q), v) == 0.0
    ensures Dot(v, p) == Dot(v, q) == Norm2(v)
  {}

  lemma PlaneProjection(p: Vec, q: Vec, r: Vec)
    requires TriangleNormal(p, q, r) != Zero
    ensures Supports(ProjectOnPlane(p, q, r), [r, q, p])
  {
    hide Dot, Norm2, Sub, Cross, Scale;
    var n := TriangleNormal(p, q, r);
    Norm2IsDot(n);
    var t := Dot(n, p) / Dot(n, n);
    var v := ProjectOnPlane(p, q, r);
    CrossIsOrthogonal(Sub(p, q), Sub(p, r));
    DotSub(n, p, q);
    DotSub(n, p, r);
    DotScale(p, t, n);
    DotScale(q, t, n);
    DotScale(r, t, n);
    DotScale(v, t, n);
    DotScale(n, t, n);
    DotCommutes(v, p);
    DotCommutes(v, q);
    DotCommutes(v, r);
    DotCommutes(v, n);
    DotCommutes(n, p);
    DotCommutes(n, q);
    DotCommutes(n, r);
    Norm2IsDot(v);
    assert Dot(n, v) == Dot(n, p);
  }

  // ----- segments

  /** Hff1 compares the origin with p along the edge to q. */
  lemma Hff1Meaning(p: Vec, q: Vec)
    ensures Hff1(p, q) <==> Dot(p, Sub(p, q)) > 0.0
    ensures Hff1(p, q) ==> p != q
    ensures Dot(p, Sub(p, q)) == Dot(p, p) - Dot(p, q)
  {
    Hff1IsDot(p, q);
    hide Dot, Sub, Hff1;
    DotSub(p, p, q);
  }

  lemma Hff1IsDot(p: Vec, q: Vec)
    ensures Hff1(p, q) <==> Dot(p, p) - Dot(p, q) > 0.0
    ensures Hff1(p, q) ==> p != q
  {}

  /** With the other end ahead, the foot on the line lies on its side of p. */
  lemma AlongEdge(p: Vec, q: Vec)
    requires Hff1(p, q)
    ensures p != q
    ensures var v := ProjectOnLine(p, q);
      Dot(v, p) == Dot(v, q) == Norm2(v) && InCone(v, p, [q, p]) && InCone(v, p, [p, q])
  {
    hide Dot, Norm2, Sub, Hff1, InCone;
    Hff1Meaning(p, q);
    var pq := Sub(p, q);
    EdgeLength(p, q);
    PositiveFraction(Dot(p, pq), Dot(pq, pq));
    LineProjection(p, q);
    assert [q, p][0] == q && [q, p][1] == p;
    ConeOfEdge(p, q, LineFraction(p, q));
  }

  lemma PositiveFraction(a: real, b: real)
    requires a >= 0.0 && b > 0.0
    ensures a / b >= 0.0
  {
    var f := a / b;
    assert f * b == a;
    if f < 0.0 {
      MulPos(-f, b, -f * b);
    }
  }

  lemma FractionBounds(a: real, b: real)
    requires 0.0 < a < b
    ensures 0.0 < a / b < 1.0
  {
    var f := a / b;
    assert f * b == a;
    if f <= 0.0 {
      MulNonNeg(-f, b, -f * b);
    } else if f >= 1.0 {
      MulNonNeg(f - 1.0, b, (f - 1.0) * b);
    }
  }

  // ----- triangles: everything happens in the plane, in terms of Gram scalars seen from A.

  /** The Gram scalars of the triangle A, B, C: u = -A.b, w = -A.c, p = b.b, q = b.c, r = c.c with
      b = B - A and c = C - A. The origin is A + (Beta b + Gamma c) / Area2 plus a normal part. */
  datatype Frame = Frame(u: real, w: real, p: real, q: real, r: real) {
    ghost function Area2(): real { p * r - q * q }
    ghost function Beta(): real { u * r - w * q }
    ghost function Gamma(): real { w * p - u * q }
  }

  /** Behind A along AC, but ahead of A along AB and inside AB: then the origin is inside AC too. */
  lemma InsideOtherEdge(f: Frame)
    requires f.p > 0.0 && f.r > 0.0 && f.Area2() > 0.0
    requires f.u > 0.0 && f.w <= 0.0 && f.Gamma() >= 0.0
    ensures f.Beta() >= 0.0
  {}

  /** The same triangle with B and C exchanged. */
  ghost function Mirrored(f: Frame): Frame {
    Frame(f.w, f.u, f.r, f.q, f.p)
  }

  lemma MirroredFrame(f: Frame)
    ensures Mirrored(f).Beta() == f.Gamma() && Mirrored(f).Gamma() == f.Beta()
    ensures Mirrored(f).Area2() == f.Area2()
  {}

  // ----- triangles, in vectors

  ghost function FrameOf(a: Vec, b: Vec, c: Vec): Frame {
    var ab, ac := Sub(b, a), Sub(c, a);
    Frame(-Dot(a, ab), -Dot(a, ac), Dot(ab, ab), Dot(ab, ac), Dot(ac, ac))
  }

  lemma Hff1InFrame(a: Vec, b: Vec)
    ensures Hff1(a, b) <==> -Dot(a, Sub(b, a)) > 0.0
  {}

  lemma Hff2InFrame(a: Vec, b: Vec, c: Vec)
    ensures Hff2(a, b, c) <==> FrameOf(a, b, c).Gamma() < 0.0
    ensures Hff2(a, c, b) <==> FrameOf(a, b, c).Beta() < 0.0
  {
    hide Dot, Sub, Cross;
    var ab, ac := Sub(b, a), Sub(c, a);
    DotDoubleCross(a, ab, ac);
    DotDoubleCross(a, ac, ab);
    DotCommutes(ac, ab);
    Hff2Scalars(Dot(a, ab), Dot(a, ac), Dot(ab, ab), Dot(ab, ac), Dot(ac, ac));
  }

  lemma Hff2Scalars(x: real, y: real, p: real, q: real, r: real)
    ensures q * x - p * y == (-y) * p - (-x) * q
    ensures q * y - r * x == (-x) * r - (-y) * q
  {}

  lemma AreaInFrame(a: Vec, b: Vec, c: Vec)
    ensures TriangleNormal(a, b, c) == Cross(Sub(b, a), Sub(c, a))
    ensures Norm2(TriangleNormal(a, b, c)) == FrameOf(a, b, c).Area2()
    ensures TriangleNormal(a, b, c) != Zero ==>
      FrameOf(a, b, c).Area2() > 0.0 && FrameOf(a, b, c).p > 0.0 && FrameOf(a, b, c).r > 0.0
  {
    NormalFlips(a, b, c);
    hide Dot, Cross, Norm2, Sub;
    var ab, ac := Sub(b, a), Sub(c, a);
    Lagrange(ab, ac);
    Norm2IsDot(Cross(ab, ac));
    Norm2IsDot(ab);
    Norm2IsDot(ac);
    ZeroCrosses(ab, ac);
  }

  lemma ZeroCrosses(b: Vec, c: Vec)
    ensures Cross(Zero, c) == Zero && Cross(b, Zero) == Zero
  {}

  lemma NormalFlips(a: Vec, b: Vec, c: Vec)
    ensures TriangleNormal(a, b, c) == Cross(Sub(b, a), Sub(c, a))
  {}

  /** The foot on AB bounds C exactly if C's coordinate of the origin is not positive. */
  lemma EdgeSide(a: Vec, b: Vec, c: Vec)
    requires a != b
    ensures var v, gamma := ProjectOnLine(a, b), FrameOf(a, b, c).Gamma();
      && (gamma < 0.0 ==> Dot(v, c) > Norm2(v))
      && (gamma > 0.0 ==> Dot(v, c) < Norm2(v))
      && (gamma == 0.0 ==> Dot(v, c) == Norm2(v))
  {
    hide Dot, Sub, Norm2, Lerp, Frame.Area2, Frame.Beta;
    LineProjection(a, b);
    var f := FrameOf(a, b, c);
    var k := LineFraction(a, b);
    var v := ProjectOnLine(a, b);
    FractionInFrame(a, b, c);
    var ac := Sub(c, a);
    DotLerp(ac, a, b, k);
    DotSub(b, c, a);
    DotSub(v, c, a);
    DotCommutes(ac, a);
    DotCommutes(v, ac);
    DotSub(ac, b, a);
    DotCommutes(ac, Sub(b, a));
    assert [b, a][0] == b && [b, a][1] == a;
    EdgeSideScalars(f.u, f.w, f.p, f.q, k, Dot(ac, a), Dot(ac, b), Dot(ac, v));
    ProductSign(f.p, Dot(ac, v));
  }

  lemma EdgeSideScalars(u: real, w: real, p: real, q: real, k: real, ca: real, cb: real, cv: real)
    requires k * p == u && ca == -w && cb == q - w && cv == (1.0 - k) * ca + k * cb
    ensures p * cv == -(w * p - u * q)
  {
    assert p * cv == p * ca + (k * p) * (cb - ca);
  }

  lemma ProductSign(p: real, x: real)
    requires p > 0.0
    ensures p * x > 0.0 <==> x > 0.0
    ensures p * x == 0.0 <==> x == 0.0
  {
    if x > 0.0 {
      MulPos(p, x, p * x);
    } else if x < 0.0 {
      MulPos(p, -x, p * -x);
    }
  }

  /** Beyond edge AB, the foot on AB bounds C. */
  lemma EdgeOutcome(a: Vec, b: Vec, c: Vec)
    requires Hff1(a, b) && Hff2(a, b, c)
    ensures a != b && Dot(ProjectOnLine(a, b), c) >= Norm2(ProjectOnLine(a, b))
  {
    hide Dot, Norm2, Hff1, Hff2, ProjectOnLine, Frame.Gamma;
    Hff1Meaning(a, b);
    Hff2InFrame(a, b, c);
    EdgeSide(a, b, c);
  }

  /** Beyond AC but not beyond AB, the foot on AB leaves C strictly below it. */
  lemma WrongEdge(a: Vec, b: Vec, c: Vec)
    requires TriangleNormal(a, b, c) != Zero && Hff1(a, b) && !Hff2(a, b, c) && Hff2(a, c, b)
    ensures a != b && Dot(ProjectOnLine(a, b), c) < Norm2(ProjectOnLine(a, b))
  {
    hide Dot, Sub, Norm2, Hff1, Hff2, TriangleNormal, ProjectOnLine, Frame.Gamma, Frame.Beta, Frame.Area2;
    Hff1Meaning(a, b);
    Hff1InFrame(a, b);
    Hff2InFrame(a, b, c);
    AreaInFrame(a, b, c);
    NotOnEdge(FrameOf(a, b, c));
    EdgeSide(a, b, c);
  }

  lemma NotOnEdge(f: Frame)
    requires f.p > 0.0 && f.u > 0.0 && f.Area2() > 0.0 && f.Beta() < 0.0
    ensures f.Gamma() != 0.0
  {
    var area, beta, gamma := f.Area2(), f.Beta(), f.Gamma();
    assert f.p * beta == f.u * area - f.q * gamma;
    MulPos(f.u, area, f.u * area);
    MulPos(f.p, -beta, f.p * -beta);
  }

  lemma FractionInFrame(a: Vec, b: Vec, c: Vec)
    requires a != b
    ensures var f := FrameOf(a, b, c); f.p > 0.0 && LineFraction(a, b) * f.p == f.u
  {
    hide Dot, Sub;
    EdgeLength(a, b);
    ReversedEdge(a, b);
  }

  lemma ReversedEdge(a: Vec, b: Vec)
    ensures Dot(Sub(a, b), Sub(a, b)) == Dot(Sub(b, a), Sub(b, a))
    ensures Dot(a, Sub(a, b)) == -Dot(a, Sub(b, a))
  {}

  /** Inside both edges from A: the projection on the plane lies in the cone at A. */
  lemma FaceOutcome(a: Vec, b: Vec, c: Vec)
    requires TriangleNormal(a, b, c) != Zero && a != b && a != c
    requires FrameOf(a, b, c).Beta() >= 0.0 && FrameOf(a, b, c).Gamma() >= 0.0
    ensures InCone(ProjectOnPlane(a, b, c), a, [c, b, a])
  {
    hide Dot, Sub, Norm2, InCone, TriangleNormal, Add, Scale, Frame.Area2, Frame.Beta, Frame.Gamma;
    AreaInFrame(a, b, c);
    var f := FrameOf(a, b, c);
    var d := f.Area2();
    PositiveFraction(f.Beta(), d);
    PositiveFraction(f.Gamma(), d);
    PlaneIsBarycentric(a, b, c);
    ConeOfThree(f.Gamma() / d, f.Beta() / d, c, b, a);
  }

  /** The projection of the origin on the plane, in barycentric coordinates. */
  lemma PlaneIsBarycentric(a: Vec, b: Vec, c: Vec)
    requires TriangleNormal(a, b, c) != Zero && FrameOf(a, b, c).Area2() > 0.0
    ensures var f := FrameOf(a, b, c);
      var beta, gamma := f.Beta() / f.Area2(), f.Gamma() / f.Area2();
      ProjectOnPlane(a, b, c)
        == Add(Scale(gamma, c), Add(Scale(beta, b), Add(Scale(1.0 - beta - gamma, a), Zero)))
  {
    hide Dot, Cross, TriangleNormal, Norm2, Sub, Scale, Add, EdgeMix, Frame.Area2, Frame.Beta, Frame.Gamma;
    var f := FrameOf(a, b, c);
    var d := f.Area2();
    var n := TriangleNormal(a, b, c);
    var na := Dot(n, a);
    DecompositionInFrame(a, b, c);
    AreaInFrame(a, b, c);
    Norm2IsDot(n);
    var beta, gamma, k := f.Beta() / d, f.Gamma() / d, na / d;
    assert beta * d == f.Beta() && gamma * d == f.Gamma() && k * d == na;
    BarycentricVector(f, d, k, na, beta, gamma, n, a, b, c);
  }

  lemma BarycentricVector(f: Frame, d: real, k: real, na: real, beta: real, gamma: real,
                          n: Vec, a: Vec, b: Vec, c: Vec)
    requires d == f.Area2() > 0.0
    requires k * d == na && beta * d == f.Beta() && gamma * d == f.Gamma()
    requires Scale(d, a) == Add(Scale(na, n), Sub(Scale(-f.w, EdgeMix(a, b, c, f.p, f.q)),
                                                  Scale(-f.u, EdgeMix(a, b, c, f.q, f.r))))
    ensures Scale(k, n) == Add(Scale(gamma, c), Add(Scale(beta, b), Add(Scale(1.0 - beta - gamma, a), Zero)))
  {
    hide Frame.Area2, Frame.Beta, Frame.Gamma, Add, Sub, Scale, At;
    forall i: nat | i < 3
      ensures k * At(n, i) == gamma * At(c, i) + (beta * At(b, i) + ((1.0 - beta - gamma) * At(a, i) + 0.0))
    {
      BarycentricCoordinate(i, f, d, k, na, beta, gamma, n, a, b, c);
    }
    FromCoordinates(k, n, gamma, c, beta, b, 1.0 - beta - gamma, a);
  }

  lemma BarycentricCoordinate(i: nat, f: Frame, d: real, k: real, na: real, beta: real, gamma: real,
                              n: Vec, a: Vec, b: Vec, c: Vec)
    requires d == f.Area2() > 0.0
    requires k * d == na && beta * d == f.Beta() && gamma * d == f.Gamma()
    requires Scale(d, a) == Add(Scale(na, n), Sub(Scale(-f.w, EdgeMix(a, b, c, f.p, f.q)),
                                                  Scale(-f.u, EdgeMix(a, b, c, f.q, f.r))))
    ensures k * At(n, i) == gamma * At(c, i) + (beta * At(b, i) + ((1.0 - beta - gamma) * At(a, i) + 0.0))
  {
    hide EdgeMix, Frame.Area2, Frame.Beta, Frame.Gamma, Add, Sub, Scale, At;
    var s, t := EdgeMix(a, b, c, f.p, f.q), EdgeMix(a, b, c, f.q, f.r);
    CombinationAt(i, d, a, na, n, -f.w, s, -f.u, t);
    EdgeMixAt(i, a, b, c, f.p, f.q);
    EdgeMixAt(i, a, b, c, f.q, f.r);
    BarycentricAt(f, d, k, na, beta, gamma, At(n, i), At(a, i), At(b, i), At(c, i), At(s, i), At(t, i));
  }

  lemma CombinationAt(i: nat, d: real, a: Vec, k: real, n: Vec, w: real, s: Vec, u: real, t: Vec)
    requires Scale(d, a) == Add(Scale(k, n), Sub(Scale(w, s), Scale(u, t)))
    ensures d * At(a, i) == k * At(n, i) + (w * At(s, i) - u * At(t, i))
  {}

  lemma FromCoordinates(k: real, n: Vec, p: real, x: Vec, q: real, y: Vec, r: real, z: Vec)
    requires forall i: nat :: i < 3 ==> k * At(n, i) == p * At(x, i) + (q * At(y, i) + (r * At(z, i) + 0.0))
    ensures Scale(k, n) == Add(Scale(p, x), Add(Scale(q, y), Add(Scale(r, z), Zero)))
  {
    assert k * At(n, 0) == p * At(x, 0) + (q * At(y, 0) + (r * At(z, 0) + 0.0));
    assert k * At(n, 1) == p * At(x, 1) + (q * At(y, 1) + (r * At(z, 1) + 0.0));
    assert k * At(n, 2) == p * At(x, 2) + (q * At(y, 2) + (r * At(z, 2) + 0.0));
  }

  ghost function EdgeMix(a: Vec, b: Vec, c: Vec, x: real, y: real): Vec {
    Sub(Scale(x, Sub(c, a)), Scale(y, Sub(b, a)))
  }

  lemma EdgeMixAt(i: nat, a: Vec, b: Vec, c: Vec, x: real, y: real)
    ensures At(EdgeMix(a, b, c, x, y), i) == x * (At(c, i) - At(a, i)) - y * (At(b, i) - At(a, i))
  {}

  lemma DecompositionInFrame(a: Vec, b: Vec, c: Vec)
    ensures var f, n := FrameOf(a, b, c), TriangleNormal(a, b, c);
      Scale(f.Area2(), a) == Add(Scale(Dot(n, a), n), Sub(Scale(-f.w, EdgeMix(a, b, c, f.p, f.q)),
                                                         Scale(-f.u, EdgeMix(a, b, c, f.q, f.r))))
  {
    hide Dot, Cross, TriangleNormal, Norm2, Frame.Area2, Add, Sub, Scale;
    AreaInFrame(a, b, c);
    Norm2IsDot(TriangleNormal(a, b, c));
    NormalDecomposition(a, Sub(b, a), Sub(c, a));
  }

  lemma BarycentricAt(f: Frame, d: real, k: real, na: real, beta: real, gamma: real,
                      n: real, a: real, b: real, c: real, s: real, t: real)
    requires d == f.Area2() > 0.0
    requires k * d == na && beta * d == f.Beta() && gamma * d == f.Gamma()
    requires s == f.p * (c - a) - f.q * (b - a) && t == f.q * (c - a) - f.r * (b - a)
    requires d * a == na * n + ((-f.w) * s - (-f.u) * t)
    ensures k * n == gamma * c + (beta * b + ((1.0 - beta - gamma) * a + 0.0))
  {}

}
