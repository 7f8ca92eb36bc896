/** The sub-algorithm on a tetrahedron, S3D (openGJK.c, lines 310-598): which faces at the newest vertex
    see the origin, and the in-place reduction of the simplex. */
module GjkTetrahedron {
  import opened Vectors
  import opened ConvexHull
  import opened GjkSimplex
  import opened GjkSubalgorithm

  function Flag(b: bool): int {
    if b then 1 else 0
  }

  // ----- the origin in the frame of the three edges at s1

  /** Coordinates of the origin along the edges s1s2, s1s3, s1s4, scaled by their determinant. */
  datatype Corner = Corner(s1: Vec, s2: Vec, s3: Vec, s4: Vec) {
    ghost function B(): Vec { Sub(s2, s1) }
    ghost function C(): Vec { Sub(s3, s1) }
    ghost function D(): Vec { Sub(s4, s1) }
    ghost function Det(): real { Dot(B(), Cross(C(), D())) }
    ghost function X(): real { -Dot(s1, Cross(C(), D())) }
    ghost function Y(): real { -Dot(s1, Cross(D(), B())) }
    ghost function Z(): real { -Dot(s1, Cross(B(), C())) }

    /** Edges and coordinates by the position at which the simplex stores the vertex. */
    ghost function Edge(n: nat): Vec { if n == 2 then B() else if n == 1 then C() else D() }
    ghost function At(n: nat): real { if n == 2 then X() else if n == 1 then Y() else Z() }

    /** The test the code makes for the face opposite to one vertex: the origin is on the inner side. */
    ghost predicate Inner(n: nat) {
      if Det() <= 0.0 then At(n) < 0.0 else At(n) >= 0.0
    }
  }

  ghost function CornerOf(verts: seq<Vec>): Corner
    requires |verts| == 4
  {
    Corner(verts[3], verts[2], verts[1], verts[0])
  }

  lemma Hff3InCorner(t: Corner)
    ensures Hff3(t.s1, t.s3, t.s4) <==> t.X() >= 0.0
    ensures Hff3(t.s1, t.s4, t.s2) <==> t.Y() >= 0.0
    ensures Hff3(t.s1, t.s2, t.s3) <==> t.Z() >= 0.0
  {}

  lemma DeterminantInCorner(t: Corner)
    ensures Determinant(t.C(), t.D(), t.B()) == Determinant(t.B(), t.C(), t.D()) == t.Det()
  {}

  /** The origin, seen from s1, resolved along the three edges and dotted with any f. */
  lemma OriginInCorner(t: Corner, f: Vec)
    ensures t.Det() * -Dot(t.s1, f) == t.X() * Dot(t.B(), f) + (t.Y() * Dot(t.C(), f) + t.Z() * Dot(t.D(), f))
  {
    hide Dot, Cross, Sub, Scale, Add;
    var b, c, d, o := t.B(), t.C(), t.D(), Scale(-1.0, t.s1);
    Cramer(o, b, c, d);
    DotScale(f, t.Det(), o);
    DotScale(f, -1.0, t.s1);
    DotScale(Cross(c, d), -1.0, t.s1);
    DotScale(Cross(d, b), -1.0, t.s1);
    DotScale(Cross(b, c), -1.0, t.s1);
    assert Dot(o, Cross(c, d)) == t.X() && Dot(o, Cross(d, b)) == t.Y() && Dot(o, Cross(b, c)) == t.Z();
    DotAdd(f, Scale(t.X(), b), Add(Scale(t.Y(), c), Scale(t.Z(), d)));
    DotAdd(f, Scale(t.Y(), c), Scale(t.Z(), d));
    DotScale(f, t.X(), b);
    DotScale(f, t.Y(), c);
    DotScale(f, t.Z(), d);
    DotCommutes(t.s1, f);
    DotCommutes(b, f);
    DotCommutes(c, f);
    DotCommutes(d, f);
    assert Dot(f, o) == -Dot(t.s1, f);
  }

  /** Four affinely independent vertices. */
  ghost predicate Solid(verts: seq<Vec>) {
    |verts| == 4 && CornerOf(verts).Det() != 0.0
  }

  ghost predicate Ahead(verts: seq<Vec>, n: nat)
    requires |verts| == 4 && n < 3
  {
    Hff1(verts[3], verts[n])
  }

  ghost predicate Beyond(verts: seq<Vec>, n: nat, m: nat)
    requires |verts| == 4 && n < 3 && m < 3
  {
    Hff2(verts[3], verts[n], verts[m])
  }

  ghost predicate IsInner(verts: seq<Vec>, n: nat)
    requires |verts| == 4 && n < 3
  {
    CornerOf(verts).Inner(n)
  }

  ghost predicate IsPermutation(i: nat, j: nat, k: nat) {
    i < 3 && j < 3 && k < 3 && i != j && j != k && i != k
  }

  /** The height of a vertex over s1 along f. */
  ghost function Height(verts: seq<Vec>, n: nat, f: Vec): real
    requires |verts| == 4 && n < 3
  {
    Dot(f, verts[n]) - Dot(f, verts[3])
  }

  lemma OriginHeights(verts: seq<Vec>, i: nat, j: nat, k: nat, f: Vec)
    requires |verts| == 4 && IsPermutation(i, j, k)
    ensures var t := CornerOf(verts);
      t.Det() * -Dot(f, verts[3])
        == t.At(i) * Height(verts, i, f) + (t.At(j) * Height(verts, j, f) + t.At(k) * Height(verts, k, f))
  {
    hide Dot, Cross, Sub, Corner.X, Corner.Y, Corner.Z, Corner.Det;
    var t := CornerOf(verts);
    OriginInCorner(t, f);
    forall n: nat | n < 3
      ensures Height(verts, n, f) == Dot(t.Edge(n), f)
    {
      DotSub(f, verts[n], verts[3]);
      DotCommutes(f, t.Edge(n));
    }
    DotCommutes(f, verts[3]);
    hide Height;
    assert t.Det() * -Dot(f, verts[3])
        == t.At(2) * Height(verts, 2, f) + (t.At(1) * Height(verts, 1, f) + t.At(0) * Height(verts, 0, f));
  }

  /** The heights of the three old vertices, weighted by the origin's coordinates, add up to that of the origin. */
  lemma WeightedHeights(verts: seq<Vec>, i: nat, j: nat, k: nat, f: Vec) returns (d: real, x: real, y: real, z: real)
    requires Solid(verts) && IsPermutation(i, j, k)
    ensures d > 0.0
    ensures if IsInner(verts, i) then x >= 0.0 else x <= 0.0
    ensures if IsInner(verts, j) then y >= 0.0 else y <= 0.0
    ensures if IsInner(verts, k) then z >= 0.0 else z <= 0.0
    ensures x * Height(verts, i, f) + y * Height(verts, j, f) + z * Height(verts, k, f) == -(d * Dot(f, verts[3]))
  {
    hide Dot, Height, Corner.At, Corner.Det, Corner.Inner;
    var t := CornerOf(verts);
    var det := t.Det();
    d, x, y, z := det * det, det * t.At(i), det * t.At(j), det * t.At(k);
    SquarePos(det, d);
    InnerSign(t, i);
    InnerSign(t, j);
    InnerSign(t, k);
    OriginHeights(verts, i, j, k, f);
    HeightScalars(det, d, Dot(f, verts[3]), t.At(i), t.At(j), t.At(k), x, y, z,
                  Height(verts, i, f), Height(verts, j, f), Height(verts, k, f));
  }

  lemma InnerSign(t: Corner, n: nat)
    ensures t.Inner(n) ==> t.Det() * t.At(n) >= 0.0
    ensures !t.Inner(n) ==> t.Det() * t.At(n) <= 0.0
  {
    hide Corner.X, Corner.Y, Corner.Z, Corner.Det;
    SignOfProduct(t.Det(), t.At(n));
  }

  lemma SignOfProduct(a: real, b: real)
    ensures (a <= 0.0 && b <= 0.0) || (a >= 0.0 && b >= 0.0) ==> a * b >= 0.0
    ensures (a <= 0.0 && b >= 0.0) || (a >= 0.0 && b <= 0.0) ==> a * b <= 0.0
  {}

  lemma HeightScalars(det: real, d: real, n: real, a: real, b: real, c: real, x: real, y: real, z: real,
                      e: real, f: real, g: real)
    requires det * -n == a * e + (b * f + c * g)
    requires d == det * det && x == det * a && y == det * b && z == det * c
    ensures x * e + y * f + z * g == -(d * n)
  {
    assert det * (det * -n) == det * (a * e) + (det * (b * f) + det * (c * g));
  }

  /** If the tests along every edge contradict those of the opposite faces, s1 itself is the origin. */
  lemma TestsDisagree(verts: seq<Vec>)
    requires Solid(verts)
    requires forall n :: 0 <= n < 3 ==> (Ahead(verts, n) <==> !IsInner(verts, n))
    ensures verts[3] == Zero && forall n :: 0 <= n < 3 ==> !Ahead(verts, n)
  {
    hide Dot, Norm2, Hff1, Corner.Inner, Height;
    var s1 := verts[3];
    var d, x, y, z := WeightedHeights(verts, 0, 1, 2, s1);
    HeightAhead(verts, 0);
    HeightAhead(verts, 1);
    HeightAhead(verts, 2);
    SignOfProduct(x, Height(verts, 0, s1));
    SignOfProduct(y, Height(verts, 1, s1));
    SignOfProduct(z, Height(verts, 2, s1));
    Norm2IsDot(s1);
    ProductSign(d, Dot(s1, s1));
  }

  lemma HeightAhead(verts: seq<Vec>, n: nat)
    requires |verts| == 4 && n < 3
    ensures Ahead(verts, n) <==> Height(verts, n, verts[3]) < 0.0
    ensures verts[3] == Zero ==> Height(verts, n, verts[3]) == 0.0
  {
    hide Dot, Hff1;
    Hff1Meaning(verts[3], verts[n]);
    DotZero(verts[n]);
    DotZero(verts[3]);
  }

  /** Outside all three faces at s1, the origin cannot be ahead of s1 along all three edges. */
  lemma NotOutsideAllFaces(verts: seq<Vec>)
    requires Solid(verts) && forall n :: 0 <= n < 3 ==> Ahead(verts, n)
    ensures IsInner(verts, 0) || IsInner(verts, 1) || IsInner(verts, 2)
  {
    hide Hff1, Corner.Inner;
    if !IsInner(verts, 0) && !IsInner(verts, 1) && !IsInner(verts, 2) {
      TestsDisagree(verts);
      assert false;
    }
  }

  /** With the origin on the inner side of one face only, two edges ahead include the one opposite to that face. */
  lemma InnerIsAhead(verts: seq<Vec>, i: nat, j: nat, k: nat)
    requires Solid(verts) && IsPermutation(i, j, k) && IsInner(verts, k) && !IsInner(verts, i) && !IsInner(verts, j)
    requires Ahead(verts, i) && Ahead(verts, j)
    ensures Ahead(verts, k)
  {
    hide Hff1, Corner.Inner;
    if !Ahead(verts, k) {
      forall n | 0 <= n < 3
        ensures Ahead(verts, n) <==> !IsInner(verts, n)
      {
        assert n == i || n == j || n == k;
      }
      TestsDisagree(verts);
      assert false;
    }
  }

  // ----- consequences of affine independence

  ghost predicate Spread(a: Vec, b: Vec, c: Vec) {
    && TriangleNormal(a, b, c) != Zero && TriangleNormal(a, c, b) != Zero && a != b && a != c
  }

  lemma FacesAreSpread(verts: seq<Vec>)
    requires Solid(verts)
    ensures Spread(verts[3], verts[1], verts[0]) && Spread(verts[3], verts[0], verts[2])
      && Spread(verts[3], verts[2], verts[1])
    ensures forall i, j :: 0 <= i < 3 && 0 <= j < 3 && i != j ==> Spread(verts[3], verts[i], verts[j])
  {
    hide Dot, Cross, Sub, TriangleNormal;
    var t := CornerOf(verts);
    TripleRotates(t.B(), t.C(), t.D());
    FaceIsSpread(t.s1, t.s3, t.s4, t.B());
    FaceIsSpread(t.s1, t.s4, t.s2, t.C());
    FaceIsSpread(t.s1, t.s2, t.s3, t.D());
  }

  lemma FaceIsSpread(a: Vec, b: Vec, c: Vec, e: Vec)
    requires Dot(e, Cross(Sub(b, a), Sub(c, a))) != 0.0
    ensures Spread(a, b, c)
  {}

  // ----- feet on the tetrahedron

  /** A point that is level with s1 and bounds the vertices on the inner side also bounds a vertex on the outer. */
  lemma OuterIsBounded(verts: seq<Vec>, i: nat, j: nat, k: nat, v: Vec)
    requires Solid(verts) && IsPermutation(i, j, k) && !IsInner(verts, k) && Dot(v, verts[3]) == Norm2(v)
    requires Dot(v, verts[i]) == Norm2(v) || (IsInner(verts, i) && Dot(v, verts[i]) >= Norm2(v))
    requires Dot(v, verts[j]) == Norm2(v) || (IsInner(verts, j) && Dot(v, verts[j]) >= Norm2(v))
    ensures Bounds(v, verts)
  {
    hide Dot, Norm2, Corner.Inner;
    var d, x, y, z := WeightedHeights(verts, i, j, k, v);
    var e, f, g := Dot(v, verts[i]) - Norm2(v), Dot(v, verts[j]) - Norm2(v), Dot(v, verts[k]) - Norm2(v);
    SignOfProduct(x, e);
    SignOfProduct(y, f);
    SignOfProduct(z, g);
    Norm2IsDot(v);
    ProductSign(d, Norm2(v));
    if g < 0.0 {
      DotZero(verts[k]);
      DotZero(v);
      assert false;
    }
    forall n | 0 <= n < |verts|
      ensures Dot(v, verts[n]) >= Norm2(v)
    {
      assert n == i || n == j || n == k || n == 3;
    }
  }

  /** The tests that make a face at s1 carry the nearest point of the cone: inside both its edges, outside the third. */
  lemma FaceFoot(verts: seq<Vec>, i: nat, j: nat, k: nat)
    requires Solid(verts) && IsPermutation(i, j, k) && !IsInner(verts, k) && FaceTests(verts[3], verts[i], verts[j])
    ensures TriangleNormal(verts[3], verts[i], verts[j]) != Zero && TriangleNormal(verts[3], verts[j], verts[i]) != Zero
    ensures ProjectOnPlane(verts[3], verts[i], verts[j]) == ProjectOnPlane(verts[3], verts[j], verts[i])
    ensures var kept, v := [verts[j], verts[i], verts[3]], ProjectOnPlane(verts[3], verts[i], verts[j]);
      Reduces(kept, v, verts) && IsFoot(v, kept, verts)
  {
    hide Dot, Norm2, TriangleNormal, ProjectOnPlane, Corner.Inner, InCone, Hff1, Hff2;
    FacesAreSpread(verts);
    PlaneMirrors(verts[3], verts[i], verts[j]);
    FaceCase(verts[3], verts[i], verts[j]);
    OuterIsBounded(verts, i, j, k, ProjectOnPlane(verts[3], verts[i], verts[j]));
  }

  lemma PlaneMirrors(a: Vec, b: Vec, c: Vec)
    requires TriangleNormal(a, b, c) != Zero
    ensures TriangleNormal(a, c, b) != Zero && ProjectOnPlane(a, b, c) == ProjectOnPlane(a, c, b)
  {
    hide Dot, TriangleNormal, Norm2, Scale;
    var n, m := TriangleNormal(a, b, c), TriangleNormal(a, c, b);
    NormalMirrors(a, b, c);
    Norm2IsDot(n);
    DotScale(a, -1.0, n);
    DotScale(m, -1.0, n);
    DotScale(n, -1.0, n);
    ScaleBack(Dot(n, a) / Dot(n, n), n);
    assert Dot(m, a) == -Dot(n, a) && Dot(m, m) == Dot(n, n);
    assert Dot(m, a) / Dot(m, m) == -(Dot(n, a) / Dot(n, n));
  }

  lemma ScaleBack(k: real, n: Vec)
    ensures Scale(-k, Scale(-1.0, n)) == Scale(k, n)
  {}

  /** The tests that make an edge at s1 carry it: ahead, beyond it as seen from one neighbour, and beyond it as seen
      from the other or outside the face between them. */
  lemma EdgeFoot(verts: seq<Vec>, i: nat, j: nat, k: nat)
    requires Solid(verts) && IsPermutation(i, j, k) && Ahead(verts, i) && Beyond(verts, i, k)
    requires Beyond(verts, i, j) || (IsInner(verts, k) && !IsInner(verts, j))
    ensures verts[3] != verts[i]
    ensures var kept, v := [verts[i], verts[3]], ProjectOnLine(verts[3], verts[i]);
      Reduces(kept, v, verts) && IsFoot(v, kept, verts)
  {
    hide Dot, Norm2, TriangleNormal, ProjectOnLine, Corner.Inner, InCone, Hff1, Hff2;
    EdgeCase(verts[3], verts[i], verts[k]);
    var v := ProjectOnLine(verts[3], verts[i]);
    if Beyond(verts, i, j) {
      EdgeCase(verts[3], verts[i], verts[j]);
      forall n | 0 <= n < |verts|
        ensures Dot(v, verts[n]) >= Norm2(v)
      {
        assert n == i || n == j || n == k || n == 3;
      }
    } else {
      OuterIsBounded(verts, i, k, j, v);
    }
  }

  /** Keeping edge k where the origin is beyond edge i of the face between them: vertex i is left strictly below. */
  lemma EdgeIsWrong(verts: seq<Vec>, i: nat, k: nat)
    requires Solid(verts) && i < 3 && k < 3 && i != k
    requires Ahead(verts, k) && !Beyond(verts, k, i) && Beyond(verts, i, k)
    ensures verts[3] != verts[k]
    ensures var kept, v := [verts[k], verts[3]], ProjectOnLine(verts[3], verts[k]);
      Reduces(kept, v, verts) && InCone(v, verts[3], kept) && Dot(v, verts[i]) < Norm2(v)
  {
    hide Dot, Norm2, TriangleNormal, ProjectOnLine, InCone, Hff1, Hff2;
    FacesAreSpread(verts);
    AlongEdge(verts[3], verts[k]);
    WrongEdge(verts[3], verts[k], verts[i]);
  }

  // ----- the origin enclosed

  lemma Enclosed(verts: seq<Vec>)
    requires Solid(verts) && forall n :: 0 <= n < 3 ==> IsInner(verts, n)
    ensures IsFoot(Zero, verts, verts)
  {
    hide Dot, Cross, Sub, Norm2, Add, Scale, InCone, TriangleNormal, Corner.X, Corner.Y, Corner.Z, Corner.Det;
    var t := CornerOf(verts);
    var det := t.Det();
    var x, y, z := t.X() / det, t.Y() / det, t.Z() / det;
    assert t.At(2) == t.X() && t.At(1) == t.Y() && t.At(0) == t.Z();
    assert IsInner(verts, 2) && IsInner(verts, 1) && IsInner(verts, 0);
    QuotientSign(t.X(), det);
    QuotientSign(t.Y(), det);
    QuotientSign(t.Z(), det);
    OriginIsCombination(t, x, y, z);
    FacesAreSpread(verts);
    ConeOfFour(z, y, x, t.s4, t.s3, t.s2, t.s1);
    assert verts == [t.s4, t.s3, t.s2, t.s1];
    ZeroSupports(verts);
  }

  lemma ZeroSupports(verts: seq<Vec>)
    ensures Supports(Zero, verts)
  {}

  lemma QuotientSign(x: real, det: real)
    requires det != 0.0 && (if det <= 0.0 then x < 0.0 else x >= 0.0)
    ensures x / det >= 0.0
  {}

  lemma OriginIsCombination(t: Corner, x: real, y: real, z: real)
    requires t.Det() != 0.0
    requires x == t.X() / t.Det() && y == t.Y() / t.Det() && z == t.Z() / t.Det()
    ensures Zero == Add(Scale(z, t.s4), Add(Scale(y, t.s3),
      Add(Scale(x, t.s2), Add(Scale(1.0 - x - y - z, t.s1), Zero))))
  {
    hide Cross, Norm2, Corner.X, Corner.Y, Corner.Z, Corner.Det;
    CombinationCoordinate(t, x, y, z, Vec(1.0, 0.0, 0.0), t.s1.x, t.s2.x, t.s3.x, t.s4.x);
    CombinationCoordinate(t, x, y, z, Vec(0.0, 1.0, 0.0), t.s1.y, t.s2.y, t.s3.y, t.s4.y);
    CombinationCoordinate(t, x, y, z, Vec(0.0, 0.0, 1.0), t.s1.z, t.s2.z, t.s3.z, t.s4.z);
  }

  lemma CombinationCoordinate(t: Corner, x: real, y: real, z: real, f: Vec, p1: real, p2: real, p3: real, p4: real)
    requires t.Det() != 0.0
    requires x == t.X() / t.Det() && y == t.Y() / t.Det() && z == t.Z() / t.Det()
    requires Dot(t.s1, f) == p1 && Dot(t.s2, f) == p2 && Dot(t.s3, f) == p3 && Dot(t.s4, f) == p4
    ensures 0.0 == z * p4 + (y * p3 + (x * p2 + ((1.0 - x - y - z) * p1 + 0.0)))
  {
    hide Dot, Cross, Sub, Norm2, Corner.X, Corner.Y, Corner.Z, Corner.Det;
    OriginInCorner(t, f);
    DotSub(f, t.s2, t.s1);
    DotSub(f, t.s3, t.s1);
    DotSub(f, t.s4, t.s1);
    CombinationScalar(t.Det(), t.X(), t.Y(), t.Z(), x, y, z, p1, p2, p3, p4);
  }

  lemma CombinationScalar(det: real, x': real, y': real, z': real, x: real, y: real, z: real,
                          p1: real, p2: real, p3: real, p4: real)
    requires det != 0.0 && x * det == x' && y * det == y' && z * det == z'
    requires det * -p1 == x' * (p2 - p1) + (y' * (p3 - p1) + z' * (p4 - p1))
    ensures 0.0 == z * p4 + (y * p3 + (x * p2 + ((1.0 - x - y - z) * p1 + 0.0)))
  {}

  // ----- one reduction

  ghost function Aheads(verts: seq<Vec>): int
    requires |verts| == 4
  {
    Flag(Ahead(verts, 0)) + Flag(Ahead(verts, 1)) + Flag(Ahead(verts, 2))
  }

  ghost predicate OnlyInner(verts: seq<Vec>, k: nat)
    requires |verts| == 4
  {
    k < 3 && forall n :: 0 <= n < 3 ==> (IsInner(verts, n) <==> n == k)
  }

  /** The guard of the branch that keeps edge k although the origin is beyond edge i of the face between them. */
  ghost predicate Misjudges(verts: seq<Vec>, i: nat, k: nat)
    requires |verts| == 4 && i < 3 && k < 3
  {
    Aheads(verts) == 2 && Ahead(verts, i) && !Beyond(verts, k, i) && Beyond(verts, i, k)
  }

  /** The tetrahedra that take this branch: only the face opposite to k has the origin on its inner side, and i is
      the vertex the code looks at first. */
  ghost predicate IsMisjudged(verts: seq<Vec>) {
    |verts| == 4 && exists k: nat :: k < 3 && OnlyInner(verts, k) && Misjudges(verts, (k + 2) % 3, k)
  }

  /** Those of them on which the kept foot lies beyond vertex k. */
  ghost predicate Overshoots(verts: seq<Vec>) {
    |verts| == 4 && exists k: nat ::
      OnlyInner(verts, k) && Misjudges(verts, (k + 2) % 3, k) && IsBeyondEnd(verts[3], verts[k])
  }

  ghost predicate IsBeyondEnd(a: Vec, b: Vec) {
    a != b && LineFraction(a, b) > 1.0
  }

  /** What is kept if only the face opposite to k has the origin on its inner side: a face at s1 lists k first and s1
      last, and the misjudging branch keeps edge k. */
  ghost predicate KeepsInner(kept: seq<Vec>, v: Vec, verts: seq<Vec>, k: nat)
    requires |verts| == 4 && k < 3
  {
    && (|kept| == 3 ==> kept[0] == verts[k] && kept[2] == verts[3])
    && (Misjudges(verts, (k + 2) % 3, k) ==>
          verts[3] != verts[k] && kept == [verts[k], verts[3]] && v == ProjectOnLine(verts[3], verts[k]))
  }

  lemma TwoAhead(verts: seq<Vec>, i: nat, j: nat, k: nat)
    requires Solid(verts) && IsPermutation(i, j, k) && OnlyInner(verts, k) && Aheads(verts) == 2
    ensures Ahead(verts, k) && (Ahead(verts, i) <==> !Ahead(verts, j))
  {
    hide Hff1, Corner.Inner;
    if Ahead(verts, i) && Ahead(verts, j) {
      InnerIsAhead(verts, i, j, k);
    }
  }

  /** One face at s1 has the origin on its inner side (case 1 of the switch): vertex k is opposite to it. */
  method ReduceOneInner(s: Simplex, ghost verts: seq<Vec>, i: nat, j: nat, k: nat,
                        hff1Tests: seq<int>, dotTotal: int, v0: Vec)
    returns (v: Vec)
    requires s.Valid() && s.vrtx[..] == verts && Solid(verts) && IsPermutation(i, j, k) && OnlyInner(verts, k)
    requires |hff1Tests| == 3 && forall n :: 0 <= n < 3 ==> hff1Tests[n] == Flag(Ahead(verts, n))
    requires dotTotal == Aheads(verts) != 0
    modifies s, s.vrtx
    ensures s.Valid() && s.nvrtx <= 3 && Reduces(s.Verts(), v, verts)
    ensures InCone(v, verts[3], s.Verts())
    ensures !Misjudges(verts, i, k) ==> IsFoot(v, s.Verts(), verts)
    ensures Misjudges(verts, i, k) ==> Dot(v, verts[i]) < Norm2(v)
    ensures i == (k + 2) % 3 ==> KeepsInner(s.Verts(), v, verts, k)
  {
    hide Dot, Norm2, Reduces, ProjectOnPlane, ProjectOnLine, Hff1, Hff2, Bounds, InCone, TriangleNormal, Corner.Inner,
         Corner.Det;
    var s1 := s.vrtx[3];
    var si, sj, sk := s.vrtx[i], s.vrtx[j], s.vrtx[k];
    v := v0;
    if dotTotal == 1 {
      if hff1Tests[k] != 0 {
        if !Hff2(s1, sk, si) {
          FaceFoot(verts, i, k, j);
          s.KeepFace(si, sk);
          v := ProjectOnPlane(s1, si, sk);
        } else if !Hff2(s1, sk, sj) {
          FaceFoot(verts, j, k, i);
          s.KeepFace(sj, sk);
          v := ProjectOnPlane(s1, sj, sk);
        } else {
          EdgeFoot(verts, k, i, j);
          s.KeepEdge(sk);
          v := ProjectOnLine(s1, sk);
        }
      } else if hff1Tests[i] != 0 {
        if !Hff2(s1, si, sk) {
          FaceFoot(verts, i, k, j);
          s.KeepFace(si, sk);
          v := ProjectOnPlane(s1, si, sk);
        } else {
          EdgeFoot(verts, i, j, k);
          s.KeepEdge(si);
          v := ProjectOnLine(s1, si);
        }
      } else {
        if !Hff2(s1, sj, sk) {
          FaceFoot(verts, j, k, i);
          s.KeepFace(sj, sk);
          v := ProjectOnPlane(s1, sj, sk);
        } else {
          EdgeFoot(verts, j, i, k);
          s.KeepEdge(sj);
          v := ProjectOnLine(s1, sj);
        }
      }
    } else if dotTotal == 2 {
      TwoAhead(verts, i, j, k);
      if hff1Tests[i] != 0 {
        if !Hff2(s1, sk, si) {
          if !Hff2(s1, si, sk) {
            FaceFoot(verts, i, k, j);
            s.KeepFace(si, sk);
            v := ProjectOnPlane(s1, si, sk);
          } else {
            EdgeIsWrong(verts, i, k);
            s.KeepEdge(sk);
            v := ProjectOnLine(s1, sk);
          }
        } else {
          if !Hff2(s1, sk, sj) {
            FaceFoot(verts, j, k, i);
            s.KeepFace(sj, sk);
            v := ProjectOnPlane(s1, sj, sk);
          } else {
            EdgeFoot(verts, k, i, j);
            s.KeepEdge(sk);
            v := ProjectOnLine(s1, sk);
          }
        }
      } else if hff1Tests[j] != 0 {
        if !Hff2(s1, sk, sj) {
          if !Hff2(s1, sj, sk) {
            FaceFoot(verts, j, k, i);
            s.KeepFace(sj, sk);
            v := ProjectOnPlane(s1, sj, sk);
          } else {
            EdgeFoot(verts, j, i, k);
            s.KeepEdge(sj);
            v := ProjectOnLine(s1, sj);
          }
        } else {
          if !Hff2(s1, sk, si) {
            FaceFoot(verts, i, k, j);
            s.KeepFace(si, sk);
            v := ProjectOnPlane(s1, si, sk);
          } else {
            EdgeFoot(verts, k, i, j);
            s.KeepEdge(sk);
            v := ProjectOnLine(s1, sk);
          }
        }
      } else {
        assert false;  // the branch the code marks as an error
      }
    } else if dotTotal == 3 {
      var hff2_ik, hff2_jk, hff2_ki, hff2_kj := Hff2(s1, si, sk), Hff2(s1, sj, sk), Hff2(s1, sk, si), Hff2(s1, sk, sj);
      if hff2_ki && hff2_kj {
        EdgeFoot(verts, k, i, j);
        s.KeepEdge(sk);
        v := ProjectOnLine(s1, sk);
      } else if hff2_ki {
        if hff2_jk {
          EdgeFoot(verts, j, i, k);
          s.KeepEdge(sj);
          v := ProjectOnLine(s1, sj);
        } else {
          FaceFoot(verts, j, k, i);
          s.KeepFace(sj, sk);
          v := ProjectOnPlane(s1, sk, sj);
        }
      } else {
        if hff2_ik {
          EdgeFoot(verts, i, j, k);
          s.KeepEdge(si);
          v := ProjectOnLine(s1, si);
        } else {
          FaceFoot(verts, i, k, j);
          s.KeepFace(si, sk);
          v := ProjectOnPlane(s1, sk, si);
        }
      }
    }
  }

  /** No face at s1 has the origin on its inner side (case 0 of the switch). */
  method ReduceNoneInner(s: Simplex, ghost verts: seq<Vec>, testLineThree: bool, testLineFour: bool,
                         dotTotal: int, v0: Vec)
    returns (v: Vec)
    requires s.Valid() && s.vrtx[..] == verts && Solid(verts) && forall n :: 0 <= n < 3 ==> !IsInner(verts, n)
    requires testLineThree == Ahead(verts, 1) && testLineFour == Ahead(verts, 0)
    requires dotTotal == Aheads(verts) && 1 <= dotTotal <= 2
    modifies s, s.vrtx
    ensures s.Valid() && s.nvrtx <= 3 && Reduces(s.Verts(), v, verts) && IsFoot(v, s.Verts(), verts)
  {
    hide Dot, Norm2, Reduces, ProjectOnPlane, ProjectOnLine, Hff1, Hff2, IsFoot, TriangleNormal, Corner.Inner,
         Corner.Det;
    var s1 := s.vrtx[3];
    v := v0;
    if dotTotal == 1 {
      var i, j, k := 2, 1, 0;
      if testLineThree {
        k, i, j := 2, 1, 0;
      } else if testLineFour {
        k, i, j := 1, 0, 2;
      }
      assert Ahead(verts, i) && !Ahead(verts, j) && !Ahead(verts, k);
      var si, sj, sk := s.vrtx[i], s.vrtx[j], s.vrtx[k];
      if !Hff2(s1, si, sj) {
        FaceFoot(verts, i, j, k);
        s.KeepFace(si, sj);
        v := ProjectOnPlane(s1, si, sj);
      } else if !Hff2(s1, si, sk) {
        FaceFoot(verts, i, k, j);
        s.KeepFace(si, sk);
        v := ProjectOnPlane(s1, si, sk);
      } else {
        EdgeFoot(verts, i, j, k);
        s.KeepEdge(si);
        v := ProjectOnLine(s1, si);
      }
    } else if dotTotal == 2 {
      s.nvrtx := 3;
      var i, j, k := 2, 1, 0;
      if !testLineThree {
        k, i, j := 2, 1, 0;
      } else if !testLineFour {
        k, i, j := 1, 0, 2;
      }
      assert !Ahead(verts, i) && Ahead(verts, j) && Ahead(verts, k);
      var si, sj, sk := s.vrtx[i], s.vrtx[j], s.vrtx[k];
      if !Hff2(s1, sj, sk) {
        if !Hff2(s1, sk, sj) {
          FaceFoot(verts, j, k, i);
          s.KeepFace(sj, sk);
          v := ProjectOnPlane(s1, sj, sk);
        } else if !Hff2(s1, sk, si) {
          FaceFoot(verts, i, k, j);
          s.KeepFace(si, sk);
          v := ProjectOnPlane(s1, sk, si);
        } else {
          EdgeFoot(verts, k, i, j);
          s.KeepEdge(sk);
          v := ProjectOnLine(s1, sk);
        }
      } else if !Hff2(s1, sj, si) {
        FaceFoot(verts, i, j, k);
        s.KeepFace(si, sj);
        v := ProjectOnPlane(s1, si, sj);
      } else {
        EdgeFoot(verts, j, i, k);
        s.KeepEdge(sj);
        v := ProjectOnLine(s1, sj);
      }
    }
  }

  /** Two faces at s1 have the origin on their inner side (case 2 of the switch): vertex k is opposite to the third. */
  method ReduceTwoInner(s: Simplex, ghost verts: seq<Vec>, testPlaneTwo: int, testPlaneThree: int, testPlaneFour: int,
                        ghost k: nat, v0: Vec)
    returns (v: Vec)
    requires s.Valid() && s.vrtx[..] == verts && Solid(verts)
    requires testPlaneTwo == Flag(IsInner(verts, 2)) && testPlaneThree == Flag(IsInner(verts, 1))
    requires testPlaneFour == Flag(IsInner(verts, 0))
    requires k < 3 && forall n :: 0 <= n < 3 ==> (IsInner(verts, n) <==> n != k)
    modifies s, s.vrtx
    ensures s.Valid() && s.nvrtx <= 3 && Reduces(s.Verts(), v, verts) && IsFoot(v, s.Verts(), verts)
  {
    hide Dot, Norm2, TriangleNormal, Corner.Inner, Corner.Det, InCone;
    FacesAreSpread(verts);
    s.nvrtx := 3;
    if testPlaneTwo == 0 {
      s.vrtx[2] := s.vrtx[3];
    } else if testPlaneThree == 0 {
      s.vrtx[1] := s.vrtx[2];
      s.vrtx[2] := s.vrtx[3];
    } else if testPlaneFour == 0 {
      s.vrtx[0] := s.vrtx[1];
      s.vrtx[1] := s.vrtx[2];
      s.vrtx[2] := s.vrtx[3];
    }
    ghost var i, j := if k == 2 then 1 else 2, if k == 0 then 1 else 0;
    ghost var face := [verts[j], verts[i], verts[3]];
    assert s.Verts() == face;
    v := S2D(s, v0);
    FaceIsEnough(verts, i, j, k, face, s.Verts(), v);
  }

  /** The foot on the only outer face is the foot on the tetrahedron. */
  lemma FaceIsEnough(verts: seq<Vec>, i: nat, j: nat, k: nat, face: seq<Vec>, kept: seq<Vec>, v: Vec)
    requires Solid(verts) && IsPermutation(i, j, k) && IsInner(verts, i) && IsInner(verts, j) && !IsInner(verts, k)
    requires face == [verts[j], verts[i], verts[3]] && Reduces(kept, v, face) && IsFoot(v, kept, face)
    ensures Reduces(kept, v, verts) && IsFoot(v, kept, verts)
  {
    hide Dot, Norm2, Corner.Inner, Corner.Det, InCone, Independent;
    assert face[0] == verts[j] && face[1] == verts[i] && face[2] == verts[3];
    OuterIsBounded(verts, i, j, k, v);
  }

  /** The origin lies strictly inside the three faces that meet at s1. */
  ghost predicate Interior(t: Corner) {
    if t.Det() > 0.0 then t.X() > 0.0 && t.Y() > 0.0 && t.Z() > 0.0
                     else t.X() < 0.0 && t.Y() < 0.0 && t.Z() < 0.0
  }

  lemma InteriorIsInner(verts: seq<Vec>)
    requires Solid(verts) && Interior(CornerOf(verts))
    ensures forall n :: 0 <= n < 3 ==> IsInner(verts, n)
    ensures Aheads(verts) != 0
  {
    hide Hff1, Corner.Det;
    if Aheads(verts) == 0 {
      TestsDisagree(verts);
      OriginAtCorner(CornerOf(verts));
      assert false;
    }
  }

  lemma OriginAtCorner(t: Corner)
    requires t.s1 == Zero
    ensures t.X() == 0.0
  {}

  /** The three face tests, as numbers 0 and 1. */
  method TestPlanes(s1: Vec, s2: Vec, s3: Vec, s4: Vec, ghost verts: seq<Vec>)
    returns (testPlaneTwo: int, testPlaneThree: int, testPlaneFour: int)
    requires verts == [s4, s3, s2, s1]
    ensures testPlaneTwo == Flag(IsInner(verts, 2)) && testPlaneThree == Flag(IsInner(verts, 1))
    ensures testPlaneFour == Flag(IsInner(verts, 0))
  {
    hide Dot, Sub, Cross, Determinant, Hff3, Corner.X, Corner.Y, Corner.Z, Corner.Det;
    ghost var t := CornerOf(verts);
    var s1s2, s1s3, s1s4 := Sub(s2, s1), Sub(s3, s1), Sub(s4, s1);
    DeterminantInCorner(t);
    Hff3InCorner(t);
    var det134 := Determinant(s1s3, s1s4, s1s2);
    var sss := Flag(det134 <= 0.0);
    testPlaneTwo := Flag(Hff3(s1, s3, s4)) - sss;
    testPlaneTwo := testPlaneTwo * testPlaneTwo;
    testPlaneThree := Flag(Hff3(s1, s4, s2)) - sss;
    testPlaneThree := testPlaneThree * testPlaneThree;
    testPlaneFour := Flag(Hff3(s1, s2, s3)) - sss;
    testPlaneFour := testPlaneFour * testPlaneFour;
  }

  /** The result is the nearest point of the cone at s1 except in the one misjudged case, where a vertex is left
      strictly below it. */
  method S3D(s: Simplex, v0: Vec) returns (v: Vec)
    requires s.Valid() && s.nvrtx == 4 && Independent(s.Verts())
    modifies s, s.vrtx
    ensures s.Valid()
    ensures Reduces(s.Verts(), v, old(s.Verts()))
    ensures s.nvrtx == 4 ==> v == Zero && s.Verts() == old(s.Verts())
    ensures Interior(CornerOf(old(s.Verts()))) ==> s.nvrtx == 4
    ensures InCone(v, old(s.vrtx[3]), s.Verts()) && (Bounds(v, old(s.Verts())) <==> !IsMisjudged(old(s.Verts())))
    ensures IsConeNearest(v, old(s.Verts())) <==> !IsMisjudged(old(s.Verts()))
    ensures IsMisjudged(old(s.Verts())) ==> !IsNearest(v, old(s.Verts()))
    ensures Improvable(v0, old(s.Verts())) ==>
      && (!IsMisjudged(old(s.Verts())) ==> IsNearest(v, old(s.Verts())))
      && (InHull(v, s.Verts()) <==> !Overshoots(old(s.Verts())))
    ensures forall k: nat :: OnlyInner(old(s.Verts()), k) ==> KeepsInner(s.Verts(), v, old(s.Verts()), k)
  {
    hide Dot, Norm2, Determinant, InHull, InCone, Hff1, Hff2, TriangleNormal, Corner.Inner, Corner.Det, Improvable,
         Interior, IsNearest, IsConeNearest, ProjectOnLine, Overshoots;
    ghost var verts := s.Verts();
    v := v0;
    var s1, s2, s3, s4 := s.vrtx[3], s.vrtx[2], s.vrtx[1], s.vrtx[0];
    assert verts == s.vrtx[..] == [s4, s3, s2, s1];
    SolidIsIndependent(verts);
    if Interior(CornerOf(verts)) {
      InteriorIsInner(verts);
    }

    var hff1Tests := [Flag(Hff1(s1, s4)), Flag(Hff1(s1, s3)), Flag(Hff1(s1, s2))];
    var testLineThree, testLineFour := Hff1(s1, s3), Hff1(s1, s4);
    var dotTotal := Flag(Hff1(s1, s2)) + Flag(testLineThree) + Flag(testLineFour);
    if dotTotal == 0 {
      v := s1;
      s.nvrtx := 1;
      s.vrtx[0] := s1;
      assert s.Verts() == [s1];
      VertexFoot(verts);
    } else {
      var testPlaneTwo, testPlaneThree, testPlaneFour := TestPlanes(s1, s2, s3, s4, verts);
      match testPlaneTwo + testPlaneThree + testPlaneFour
      case 3 =>
        v := Zero;
        s.nvrtx := 4;
        assert s.Verts() == verts;
        Enclosed(verts);
        ZeroSupports(verts);
      case 2 =>
        v := ReduceTwoInner(s, verts, testPlaneTwo, testPlaneThree, testPlaneFour,
                            if testPlaneTwo == 0 then 2 else if testPlaneThree == 0 then 1 else 0, v);
      case 1 =>
        s.nvrtx := 3;
        var i, j, k := 2, 1, 0;
        if testPlaneTwo != 0 {
          k, i, j := 2, 1, 0;
        } else if testPlaneThree != 0 {
          k, i, j := 1, 0, 2;
        }
        assert OnlyInner(verts, k) && i == (k + 2) % 3;
        v := ReduceOneInner(s, verts, i, j, k, hff1Tests, dotTotal, v);
      case 0 =>
        if dotTotal == 3 {
          NotOutsideAllFaces(verts);
        }
        v := ReduceNoneInner(s, verts, testLineThree, testLineFour, dotTotal, v);
      case _ =>
        assert false;
    }
    FootDecides(v0, v, s.Verts(), verts);
    HullDecides(v0, v, s.Verts(), verts);
  }

  lemma SolidIsIndependent(verts: seq<Vec>)
    requires |verts| == 4
    ensures Independent(verts) <==> Solid(verts)
  {
    hide Dot, Determinant, Corner.Det;
    DeterminantInCorner(CornerOf(verts));
  }

  lemma VertexFoot(verts: seq<Vec>)
    requires Solid(verts) && Aheads(verts) == 0
    ensures Reduces([verts[3]], verts[3], verts) && IsFoot(verts[3], [verts[3]], verts)
  {
    hide Dot, Norm2, InCone, Hff1, Corner.Det;
    VertexOutcome(verts[3], verts[0]);
    VertexOutcome(verts[3], verts[1]);
    VertexOutcome(verts[3], verts[2]);
    Norm2IsDot(verts[3]);
    ConeOfPoint(verts[3]);
  }

  /** The feet are the nearest points of the cone, and under the loop's invariant those of the tetrahedron. */
  lemma FootDecides(v0: Vec, v: Vec, kept: seq<Vec>, verts: seq<Vec>)
    requires Solid(verts) && Reduces(kept, v, verts) && InCone(v, verts[3], kept)
    ensures IsConeNearest(v, verts) <==> Bounds(v, verts)
    ensures Improvable(v0, verts) && Bounds(v, verts) ==> InHull(v, kept) && IsNearest(v, verts)
    ensures !Bounds(v, verts) ==> !IsNearest(v, verts)
  {
    hide Dot, Norm2, InHull, InCone, Improvable, Independent, IsNearest, IsConeNearest, TriangleNormal, Corner.Det;
    FacesAreSpread(verts);
    FootIffConeNearest(v, kept, verts);
    if Improvable(v0, verts) && Bounds(v, verts) {
      FootIsNearest(v0, v, kept, verts);
    }
    if IsNearest(v, verts) {
      NearestBounds(v, verts);
    }
  }

  /** A misjudged foot lies in the hull of what is kept if and only if it does not overshoot. */
  lemma HullDecides(v0: Vec, v: Vec, kept: seq<Vec>, verts: seq<Vec>)
    requires Solid(verts) && Reduces(kept, v, verts) && InCone(v, verts[3], kept)
    requires Bounds(v, verts) <==> !IsMisjudged(verts)
    requires forall k: nat :: OnlyInner(verts, k) ==> KeepsInner(kept, v, verts, k)
    ensures Improvable(v0, verts) ==> (InHull(v, kept) <==> !Overshoots(verts))
  {
    hide Dot, Norm2, InHull, InCone, Improvable, Bounds, Independent, IsNearest, Solid, Hff1, Beyond, IsInner,
         ProjectOnLine, LineFraction;
    if IsMisjudged(verts) {
      var k: nat :| k < 3 && OnlyInner(verts, k) && Misjudges(verts, (k + 2) % 3, k);
      var t := LineFraction(verts[3], verts[k]);
      TwoAhead(verts, (k + 2) % 3, (k + 1) % 3, k);
      EdgeHull(verts[3], verts[k], v);
      assert t > 1.0 <==> IsBeyondEnd(verts[3], verts[k]);
      OneInner(verts, k);
    } else if Improvable(v0, verts) {
      FootDecides(v0, v, kept, verts);
    }
  }

  lemma OneInner(verts: seq<Vec>, k: nat)
    requires |verts| == 4 && OnlyInner(verts, k)
    ensures forall k': nat :: OnlyInner(verts, k') ==> k' == k
  {
    hide IsInner;
    forall k': nat | OnlyInner(verts, k')
      ensures k' == k
    {
      assert IsInner(verts, k');
    }
  }

  /** A foot ahead on the line from a to b lies between them if and only if its fraction is at most one. */
  lemma EdgeHull(a: Vec, b: Vec, v: Vec)
    requires Hff1(a, b) && a != b && v == ProjectOnLine(a, b)
    ensures InHull(v, [b, a]) <==> LineFraction(a, b) <= 1.0
  {
    hide Dot, InHull, Hff1, Scale, Lerp;
    var e, t := Sub(a, b), LineFraction(a, b);
    Hff1Meaning(a, b);
    EdgeLength(a, b);
    PositiveFraction(Dot(a, e), Dot(e, e));
    LineProjection(a, b);
    if t <= 1.0 {
      HullMember(0, [b, a]);
      HullMember(1, [b, a]);
      HullMix(a, b, [b, a], t);
    } else {
      DotSub(e, a, b);
      DotLerp(e, a, b, t);
      if InHull(v, [b, a]) {
        HullBound(e, v, [b, a], Dot(e, b));
        MulPos(t - 1.0, Dot(e, e), (t - 1.0) * Dot(e, e));
        assert false;
      }
    }
  }
}
