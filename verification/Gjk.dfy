/** The parts of the GJK distance loop (openGJK.c, lines 600-639): support points of two vertex lists, and the dispatch
    to the sub-algorithm; and what is special about straight links. */
module Gjk {
  import opened Vectors
  import opened ConvexHull
  import opened GjkSimplex
  import opened GjkSubalgorithm
  import opened GjkTetrahedron
  import opened FiniteSets

  const DBL_EPSILON: real := 1.0 / 4503599627370496.0
  const EPS_REL: real := DBL_EPSILON * 10000.0
  const EPS_TOT: real := DBL_EPSILON * 100.0
  const MAX_ITERATIONS: nat := 25

  // ----- the three tests that end the loop

  predicate ClosesGap(exeedtol_rel: real, norm2: real) {
    exeedtol_rel <= EPS_REL * norm2 || exeedtol_rel < EPS_TOT
  }

  predicate IsNull(norm2: real) {
    norm2 < EPS_REL * EPS_REL
  }

  predicate IsSmall(norm2: real, norm2Wmax: real) {
    norm2 <= EPS_TOT * EPS_TOT * norm2Wmax
  }

  /** gkPolytope: the vertices, and the support point found last. */
  class Polytope {
    const coord: seq<Vec>
    var s: Vec

    constructor (coord: seq<Vec>)
      ensures this.coord == coord
    {
      this.coord := coord;
      s := Zero;
    }
  }

  // ----- links: two ends with their midpoint between them

  /** A vertex list (end, midpoint, end), the only shape the collision code builds. */
  ghost predicate IsLink(pts: seq<Vec>) {
    |pts| == 3 && pts[1] == Scale(0.5, Add(pts[0], pts[2]))
  }

  /** The vertices the support function can return, started from the first vertex. */
  ghost function Extremes(pts: seq<Vec>): set<Vec> {
    if IsLink(pts) then {pts[0], pts[2]} else set p | p in pts
  }

  lemma MidpointIsMean(pts: seq<Vec>, v: Vec)
    requires IsLink(pts)
    ensures 2.0 * Dot(pts[1], v) == Dot(pts[0], v) + Dot(pts[2], v)
  {}

  /** i is the first vertex of maximal extent in direction v, and it beats p. */
  ghost predicate FirstBest(pts: seq<Vec>, p: Vec, v: Vec, i: nat) {
    && i < |pts| && Dot(pts[i], v) > Dot(p, v)
    && (forall j :: 0 <= j < i ==> Dot(pts[j], v) < Dot(pts[i], v))
    && (forall j :: 0 <= j < |pts| ==> Dot(pts[j], v) <= Dot(pts[i], v))
  }

  /** The stored support point moves only if some vertex is strictly further along v. */
  method Support(body: Polytope, v: Vec)
    modifies body
    ensures forall j :: 0 <= j < |body.coord| ==> Dot(body.coord[j], v) <= Dot(body.s, v)
    ensures body.s == old(body.s) || exists i: nat ::
      FirstBest(body.coord, old(body.s), v, i) && body.s == body.coord[i]
    ensures old(body.s) in Extremes(body.coord) ==> body.s in Extremes(body.coord)
  {
    hide Dot;
    var better := -1;
    var maxs := Dot(body.s, v);
    for i := 0 to |body.coord|
      invariant -1 <= better < i
      invariant body.s == old(body.s)
      invariant maxs == if better == -1 then Dot(body.s, v) else Dot(body.coord[better], v)
      invariant better != -1 ==> maxs > Dot(body.s, v) && forall j :: 0 <= j < better ==> Dot(body.coord[j], v) < maxs
      invariant forall j :: 0 <= j < i ==> Dot(body.coord[j], v) <= maxs
    {
      var vrt := body.coord[i];
      var s := Dot(vrt, v);
      if s > maxs {
        maxs := s;
        better := i;
      }
    }
    if better != -1 {
      assert FirstBest(body.coord, body.s, v, better);
      if IsLink(body.coord) {
        MidpointIsMean(body.coord, v);
      }
      body.s := body.coord[better];
    }
  }

  /** What the sub-algorithm may keep of a simplex, the newest vertex last, and the point v it chooses. */
  ghost predicate IsChoice(kept: seq<Vec>, v: Vec, simplex: seq<Vec>) {
    && 2 <= |simplex| <= 4 && Reduces(kept, v, simplex) && InCone(v, simplex[|simplex| - 1], kept)
    && (Bounds(v, simplex) <==> !IsMisjudged(simplex))
    && (|simplex| == 2 ==> kept == SegmentKept(simplex[1], simplex[0]))
    && (|simplex| == 3 ==> kept == TriangleKept(simplex[2], simplex[1], simplex[0]))
    && (|simplex| == 4 ==> forall k: nat :: OnlyInner(simplex, k) ==> KeepsInner(kept, v, simplex, k))
    && (|kept| == 4 ==> v == Zero)
  }

  method Subalgorithm(s: Simplex, v0: Vec) returns (v: Vec)
    requires s.Valid() && 2 <= s.nvrtx && Independent(s.Verts())
    modifies s, s.vrtx
    ensures s.Valid() && IsChoice(s.Verts(), v, old(s.Verts()))
  {
    hide Dot, Norm2, Independent, Reduces, Bounds, InCone, Improvable, IsNearest, IsConeNearest, InHull, OnlyInner,
         Misjudges, KeepsInner, SegmentKept, TriangleKept;
    ghost var verts := s.Verts();
    match s.nvrtx
    case 4 => v := S3D(s, v0);
    case 3 =>
      v := S2D(s, v0);
      KeptSizes(verts[2], verts[1], verts[0]);
    case 2 =>
      v := S1D(s, v0);
      KeptSizes(verts[1], verts[0], verts[0]);
    case _ =>
      assert false;
  }

  lemma KeptSizes(a: Vec, b: Vec, c: Vec)
    ensures |SegmentKept(a, b)| <= 2 && |TriangleKept(a, b, c)| <= 3
  {}

  /** What a choice means: nearest point of the cone, and under the loop's invariant of the simplex, if and only if no
      tetrahedron is misjudged; within the hull of what is kept if and only if it does not overshoot. */
  lemma ChoiceMeans(v0: Vec, kept: seq<Vec>, v: Vec, simplex: seq<Vec>)
    requires Independent(simplex) && IsChoice(kept, v, simplex)
    ensures IsConeNearest(v, simplex) <==> !IsMisjudged(simplex)
    ensures IsMisjudged(simplex) ==> !IsNearest(v, simplex)
    ensures Improvable(v0, simplex) && !IsMisjudged(simplex) ==> IsNearest(v, simplex)
    ensures Improvable(v0, simplex) ==> (InHull(v, kept) <==> !Overshoots(simplex))
  {
    hide Dot, Norm2, TriangleNormal, Determinant, Reduces, Bounds, InCone, Improvable, IsNearest, IsConeNearest,
         InHull, OnlyInner, Misjudges, KeepsInner, SegmentKept, TriangleKept, Corner.Det;
    SimplexIsPointed(simplex);
    ReducesIsKept(kept, v, simplex);
    FootIffConeNearest(v, kept, simplex);
    if IsNearest(v, simplex) {
      NearestBounds(v, simplex);
    }
    if |simplex| == 4 {
      SolidIsIndependent(simplex);
      HullDecides(v0, v, kept, simplex);
    }
    if Improvable(v0, simplex) && !IsMisjudged(simplex) {
      FootIsNearest(v0, v, kept, simplex);
    }
  }

  lemma SimplexIsPointed(verts: seq<Vec>)
    requires Independent(verts)
    ensures IsPointed(verts)
  {
    hide TriangleNormal, Determinant;
    if |verts| == 3 {
      FlatEdges(verts[2], verts[1], verts[0]);
    } else if |verts| == 4 {
      SolidIsIndependent(verts);
      FacesAreSpread(verts);
    }
  }

  lemma ReducesIsKept(kept: seq<Vec>, v: Vec, verts: seq<Vec>)
    requires |verts| > 0 && Reduces(kept, v, verts)
    ensures IsKept(kept, v, verts) && Supports(v, kept) && 1 <= |kept| <= |verts| && Independent(kept)
  {}

  // ----- a new vertex below the supporting plane keeps the simplex independent

  lemma AddedVertexIsIndependent(verts: seq<Vec>, v: Vec, w: Vec)
    requires 1 <= |verts| <= 3 && Independent(verts) && Supports(v, verts) && Dot(v, w) < Norm2(v)
    ensures Independent(verts + [w])
  {
    hide Dot, Norm2, Sub, Cross, Determinant, TriangleNormal;
    var g := Norm2(v) - Dot(v, w);
    match |verts|
    case 1 =>
    case 2 =>
      AddedToEdge(verts[1], verts[0], v, w, g);
    case 3 =>
      AddedToTriangle(verts[2], verts[1], verts[0], v, w, g);
    case _ =>
  }

  lemma AddedToEdge(p: Vec, q: Vec, v: Vec, w: Vec, g: real)
    requires p != q && Dot(v, p) == Dot(v, q) == Dot(v, w) + g && g > 0.0
    ensures TriangleNormal(w, p, q) != Zero
  {}

  lemma AddedToTriangle(p: Vec, q: Vec, r: Vec, v: Vec, w: Vec, g: real)
    requires TriangleNormal(p, q, r) != Zero && g > 0.0
    requires Dot(v, p) == Dot(v, q) == Dot(v, r) == Dot(v, w) + g
    ensures Determinant(Sub(p, w), Sub(q, w), Sub(r, w)) != 0.0
  {}

  lemma NullCombination(x: Vec, y: Vec)
    ensures Sub(Scale(0.0, y), Scale(0.0, x)) == Zero
  {}

  lemma VanishingScale(g: real, v: Vec, n: Vec)
    requires g != 0.0 && Sub(Scale(0.0, v), Scale(g, n)) == Zero
    ensures n == Zero
  {}

  // ----- links span a plane: a third vertex closes the gap

  /** A displacement x D1 - y D2 in the plane of two links. */
  ghost function InPlane(d1: Vec, d2: Vec, x: real, y: real): Vec {
    Sub(Scale(x, d1), Scale(y, d2))
  }

  lemma TripleOfCombination(a: Vec, b: Vec, s: real, c: Vec, t: real, d: Vec)
    ensures Dot(a, Cross(b, Sub(Scale(s, c), Scale(t, d)))) == s * Dot(a, Cross(b, c)) - t * Dot(a, Cross(b, d))
  {
    hide Dot, Cross, Scale, Sub;
    CrossSub(b, Scale(s, c), Scale(t, d));
    CrossScale(b, s, c);
    CrossScale(b, t, d);
    DotSub(a, Scale(s, Cross(b, c)), Scale(t, Cross(b, d)));
    DotScale(a, s, Cross(b, c));
    DotScale(a, t, Cross(b, d));
  }

  lemma PlanarPair(d1: Vec, d2: Vec, x: real, y: real)
    ensures Dot(d2, Cross(d1, InPlane(d1, d2, x, y))) == 0.0 == Dot(d1, Cross(d2, InPlane(d1, d2, x, y)))
  {
    hide Dot, Cross, Scale, Sub;
    TripleOfCombination(d2, d1, x, d1, y, d2);
    TripleOfCombination(d1, d2, x, d1, y, d2);
    CrossSelf(d1);
    CrossSelf(d2);
    DotZero(d1);
    DotZero(d2);
    CrossIsOrthogonal(d1, d2);
    CrossIsOrthogonal(d2, d1);
    DotCommutes(d2, Cross(d1, d2));
    DotCommutes(d1, Cross(d2, d1));
  }

  lemma TwoInPlane(d1: Vec, d2: Vec, e: Vec, h: Vec, ex: real, ey: real, hx: real, hy: real)
    requires e == InPlane(d1, d2, ex, ey) && h == InPlane(d1, d2, hx, hy)
    ensures Dot(h, Cross(e, d1)) == 0.0 == Dot(h, Cross(e, d2))
  {
    hide Dot, Cross, Scale, Sub, Determinant;
    TripleRotates(h, e, d1);
    TripleRotates(h, e, d2);
    TripleOfCombination(d1, h, ex, d1, ey, d2);
    TripleOfCombination(d2, h, ex, d1, ey, d2);
    CrossIsOrthogonal(h, d1);
    CrossIsOrthogonal(h, d2);
    DotCommutes(d1, Cross(h, d1));
    DotCommutes(d2, Cross(h, d2));
    TripleRotates(d1, h, d2);
    TripleRotates(d2, h, d1);
    PlanarPair(d1, d2, hx, hy);
    MulEq(ex, Dot(d1, Cross(h, d1)), 0.0);
    MulEq(ey, Dot(d1, Cross(h, d2)), 0.0);
    MulEq(ex, Dot(d2, Cross(h, d1)), 0.0);
    MulEq(ey, Dot(d2, Cross(h, d2)), 0.0);
  }

  lemma PlanarTriple(d1: Vec, d2: Vec, e: Vec, f: Vec, h: Vec, ex: real, ey: real, fx: real, fy: real, hx: real,
                     hy: real)
    requires e == InPlane(d1, d2, ex, ey) && f == InPlane(d1, d2, fx, fy) && h == InPlane(d1, d2, hx, hy)
    ensures Dot(h, Cross(e, f)) == 0.0
  {
    hide Dot, Cross, Scale, Sub, Determinant;
    TwoInPlane(d1, d2, e, h, ex, ey, hx, hy);
    TripleOfCombination(h, e, fx, d1, fy, d2);
    MulEq(fx, Dot(h, Cross(e, d1)), 0.0);
    MulEq(fy, Dot(h, Cross(e, d2)), 0.0);
  }

  /** Differences of vertices the support function can return. */
  ghost predicate IsCorner(x: Vec, pts1: seq<Vec>, pts2: seq<Vec>) {
    exists p: Vec, q: Vec :: p in Extremes(pts1) && q in Extremes(pts2) && x == Sub(p, q)
  }

  lemma LinkDisplacement(pts: seq<Vec>, p: Vec, q: Vec) returns (x: real)
    requires IsLink(pts) && p in Extremes(pts) && q in Extremes(pts)
    ensures Sub(p, q) == Scale(x, Sub(pts[2], pts[0]))
  {
    if p == q {
      x := 0.0;
    } else if p == pts[2] {
      x := 1.0;
    } else {
      x := -1.0;
    }
  }

  lemma CornerDisplacement(pts1: seq<Vec>, pts2: seq<Vec>, a: Vec, b: Vec) returns (x: real, y: real)
    requires IsLink(pts1) && IsLink(pts2) && IsCorner(a, pts1, pts2) && IsCorner(b, pts1, pts2)
    ensures Sub(a, b) == InPlane(Sub(pts1[2], pts1[0]), Sub(pts2[2], pts2[0]), x, y)
  {
    hide Sub, Scale, Extremes, IsLink;
    var p, q :| p in Extremes(pts1) && q in Extremes(pts2) && a == Sub(p, q);
    var p', q' :| p' in Extremes(pts1) && q' in Extremes(pts2) && b == Sub(p', q');
    x := LinkDisplacement(pts1, p, p');
    y := LinkDisplacement(pts2, q, q');
    SubOfSubs(p, q, p', q');
  }

  lemma SubOfSubs(p: Vec, q: Vec, p': Vec, q': Vec)
    ensures Sub(Sub(p, q), Sub(p', q')) == Sub(Sub(p, p'), Sub(q, q'))
  {}

  /** For links, a triangle already spans the whole plane of differences, so no corner lies below it. */
  lemma TriangleClosesGap(verts: seq<Vec>, v: Vec, w: Vec, pts1: seq<Vec>, pts2: seq<Vec>)
    requires |verts| == 3 && Independent(verts) && Supports(v, verts)
    requires IsLink(pts1) && IsLink(pts2) && IsCorner(w, pts1, pts2)
    requires forall i :: 0 <= i < 3 ==> IsCorner(verts[i], pts1, pts2)
    ensures Dot(v, w) == Norm2(v)
  {
    hide Dot, Norm2, Sub, Cross, Scale, IsCorner, InPlane;
    var a, b, c := verts[2], verts[1], verts[0];
    var e, f, h := Sub(b, a), Sub(c, a), Sub(w, a);
    var n := Cross(e, f);
    NormalFlips(a, b, c);
    var ex, ey := CornerDisplacement(pts1, pts2, b, a);
    var fx, fy := CornerDisplacement(pts1, pts2, c, a);
    var hx, hy := CornerDisplacement(pts1, pts2, w, a);
    PlanarTriple(Sub(pts1[2], pts1[0]), Sub(pts2[2], pts2[0]), e, f, h, ex, ey, fx, fy, hx, hy);
    DotSub(v, b, a);
    DotSub(v, c, a);
    DotSub(v, w, a);
    TripleCross(v, e, f);
    NullCombination(f, e);
    TripleCross(h, v, n);
    ZeroCrosses(h, h);
    DotCommutes(h, v);
    if Dot(h, v) != 0.0 {
      VanishingScale(Dot(h, v), v, n);
    }
  }
}
