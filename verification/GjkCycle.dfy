/** A run that never ends by itself: five vertices against the origin on which the GJK loop (openGJK.c, lines 641-731)
    goes round in a circle of four simplices, one of them misjudged, until the iteration limit stops it. */
module GjkCycle {
  import opened Vectors
  import opened ConvexHull
  import opened GjkSimplex
  import opened GjkSubalgorithm
  import opened GjkTetrahedron
  import opened Gjk
  import opened GjkRun
  import opened GjkDistance

  function P(i: nat): Vec {
    match i
    case 0 => Vec(2.0, 0.0, 2.0)
    case 1 => Vec(-1.0, -1.0, 2.0)
    case 2 => Vec(-6.0, 4.0, 4.0)
    case 3 => Vec(9.0, 11.0, 2.0)
    case _ => Vec(4.0, 5.0, 1.0)
  }

  function Body(): (pts: seq<Vec>)
    ensures |pts| == 5
  {
    [P(0), P(1), P(2), P(3), P(4)]
  }

  function Origin(): (pts: seq<Vec>)
    ensures |pts| == 1
  {
    [Zero]
  }

  /** The points v of the run: at the start, and then round and round. */
  ghost function V(j: nat): Vec {
    match j
    case 0 => P(0)
    case 1 => Vec(6.0 / 7.0, 4.0 / 7.0, 16.0 / 7.0)
    case 2 => Vec(1.0 / 5.0, -3.0 / 5.0, 2.0)
    case 3 => Vec(0.0, 0.0, 2.0)
    case _ => Vec(28.0 / 15.0, -1.0 / 3.0, 31.0 / 15.0)
  }

  ghost function State(j: nat): Iterate {
    match j
    case 0 => Iterate([P(0)], V(0))
    case 1 => Iterate([P(0), P(2)], V(1))
    case 2 => Iterate([P(0), P(2), P(1)], V(2))
    case 3 => Iterate([P(1), P(0), P(3)], V(3))
    case _ => Iterate([P(0), P(4)], V(4))
  }

  /** The vertex that is furthest against V(j). */
  ghost function Furthest(j: nat): nat {
    match j
    case 0 => 2
    case 1 => 1
    case 2 => 3
    case 3 => 4
    case _ => 2
  }

  /** The state after n steps. */
  ghost function Phase(n: nat): nat {
    if n == 0 then 0 else 1 + (n - 1) % 4
  }

  // ----- numbers

  lemma DotIs(a: Vec, b: Vec, c: real)
    requires a.x * b.x + a.y * b.y + a.z * b.z == c
    ensures Dot(a, b) == c && Dot(b, a) == c
  {}

  /** The heights of the five vertices along V(j), and its square. */
  ghost function VertexHeight(j: nat, i: nat): real
    requires i < 5
  {
    match j
    case 0 => [8.0, 2.0, -4.0, 22.0, 10.0][i]
    case 1 => [44.0 / 7.0, 22.0 / 7.0, 44.0 / 7.0, 130.0 / 7.0, 60.0 / 7.0][i]
    case 2 => [22.0 / 5.0, 22.0 / 5.0, 22.0 / 5.0, -4.0 / 5.0, -1.0 / 5.0][i]
    case 3 => [4.0, 4.0, 8.0, 4.0, 2.0][i]
    case _ => [118.0 / 15.0, 13.0 / 5.0, -64.0 / 15.0, 259.0 / 15.0, 118.0 / 15.0][i]
  }

  ghost function Square(j: nat): real {
    match j
    case 0 => 8.0
    case 1 => 44.0 / 7.0
    case 2 => 22.0 / 5.0
    case 3 => 4.0
    case _ => 118.0 / 15.0
  }

  lemma HeightIs(j: nat, i: nat)
    requires j < 5 && i < 5
    ensures Dot(V(j), P(i)) == VertexHeight(j, i)
  {
    hide Dot;
    DotIs(V(j), P(i), VertexHeight(j, i));
  }

  lemma SquareIs(j: nat)
    requires j < 5
    ensures Norm2(V(j)) == Square(j)
  {
    hide Dot, Norm2;
    Norm2IsDot(V(j));
    DotIs(V(j), V(j), Square(j));
  }

  /** Only one vertex is furthest against V(j). */
  lemma SupportIsFurthest(j: nat, w: Vec)
    requires j < 5 && IsSupport(w, V(j), Body(), Origin())
    ensures w == P(Furthest(j))
  {
    hide Dot, Sub, P, V, VertexHeight;
    var body := Body();
    var p, q :| p in Extremes(body) && q in Extremes(Origin()) && w == Sub(p, q) && forall i :: 0 <= i < |body| ==>
      Dot(V(j), body[i]) >= Dot(V(j), p);
    assert q == Zero;
    SubNothing(p);
    var k := Furthest(j);
    assert body[k] == P(k);
    var i: nat :| i < 5 && p == P(i);
    HeightIs(j, i);
    HeightIs(j, k);
    if i != k {
      FurthestIsLower(j, i);
      assert false;
    }
  }

  lemma SubNothing(p: Vec)
    ensures Sub(p, Zero) == p
  {}

  lemma FurthestIsLower(j: nat, i: nat)
    requires j < 5 && i < 5 && i != Furthest(j)
    ensures VertexHeight(j, Furthest(j)) < VertexHeight(j, i)
  {}

  // ----- what the sub-algorithm keeps

  /** The nearest point of a cone is unique. */
  lemma OneFoot(u: Vec, v: Vec, apex: Vec, verts: seq<Vec>)
    requires InCone(u, apex, verts) && Bounds(u, verts) && Dot(u, apex) == Norm2(u)
    requires InCone(v, apex, verts) && Bounds(v, verts) && Dot(v, apex) == Norm2(v)
    ensures u == v
  {
    hide Dot, Norm2, Sub, InCone;
    ConeBound(u, v, apex, verts, Norm2(u));
    ConeBound(v, u, apex, verts, Norm2(v));
    DotCommutes(u, v);
    Norm2Sub(u, v);
    Norm2IsDot(Sub(u, v));
    SubZero(u, v);
  }

  lemma AheadIs(a: Vec, b: Vec, x: real, y: real)
    requires a.x * a.x + a.y * a.y + a.z * a.z == x && a.x * b.x + a.y * b.y + a.z * b.z == y
    ensures Hff1(a, b) <==> x > y
  {
    hide Dot, Hff1;
    DotIs(a, a, x);
    DotIs(a, b, y);
    Hff1Meaning(a, b);
  }

  lemma SideIs(p: Vec, q: Vec, r: Vec, e: Vec, f: Vec, n: Vec, m: Vec, x: real)
    requires e == Sub(q, p) && f == Sub(r, p) && n == Cross(e, f) && m == Cross(e, n) && x == Dot(p, m)
    ensures Hff2(p, q, r) <==> x < 0.0
  {}

  lemma FirstKept()
    ensures SegmentKept(P(2), P(0)) == [P(0), P(2)]
  {
    hide Hff1;
    AheadIs(P(2), P(0), 68.0, -4.0);
  }

  lemma SecondKept()
    ensures TriangleKept(P(1), P(2), P(0)) == [P(0), P(2), P(1)]
  {
    hide Hff1, Hff2;
    AheadIs(P(1), P(2), 6.0, 10.0);
    AheadIs(P(1), P(0), 6.0, 2.0);
    SecondSide();
  }

  lemma SecondSide()
    ensures !Hff2(P(1), P(0), P(2))
  {
    hide Hff2;
    SideIs(P(1), P(0), P(2), Vec(3.0, 1.0, 0.0), Vec(-5.0, 5.0, 2.0), Vec(2.0, -6.0, 20.0), Vec(20.0, -60.0, -20.0),
      0.0);
  }

  lemma FourthKept()
    ensures TriangleKept(P(2), P(4), P(0)) == [P(0), P(2)]
  {
    hide Hff1, Hff2;
    AheadIs(P(2), P(4), 68.0, 0.0);
    AheadIs(P(2), P(0), 68.0, -4.0);
    FourthInside();
    FourthBeyond();
  }

  lemma FourthInside()
    ensures !Hff2(P(2), P(4), P(0))
  {
    hide Hff2;
    SideIs(P(2), P(4), P(0), Vec(10.0, 1.0, -3.0), Vec(8.0, -4.0, -2.0), Vec(-14.0, -4.0, -48.0),
      Vec(-60.0, 522.0, -26.0), 2344.0);
  }

  lemma FourthBeyond()
    ensures Hff2(P(2), P(0), P(4))
  {
    hide Hff2;
    SideIs(P(2), P(0), P(4), Vec(8.0, -4.0, -2.0), Vec(10.0, 1.0, -3.0), Vec(14.0, 4.0, 48.0),
      Vec(-184.0, -412.0, 88.0), -192.0);
  }

  // the two tetrahedra

  ghost function Third(): (verts: seq<Vec>)
    ensures |verts| == 4
  {
    [P(0), P(2), P(1), P(3)]
  }

  ghost function Fourth(): (verts: seq<Vec>)
    ensures |verts| == 4
  {
    [P(1), P(0), P(3), P(4)]
  }

  /** Coordinates of the origin at a corner, from the edges and their cross products. */
  lemma CornerIs(t: Corner, cd: Vec, db: Vec, bc: Vec, det: real, x: real, y: real, z: real)
    requires cd == Cross(t.C(), t.D()) && db == Cross(t.D(), t.B()) && bc == Cross(t.B(), t.C())
    requires det == Dot(t.B(), cd) && x == -Dot(t.s1, cd) && y == -Dot(t.s1, db) && z == -Dot(t.s1, bc)
    ensures t.Det() == det && t.X() == x && t.Y() == y && t.Z() == z
  {
    hide Cross, Dot, Corner.B, Corner.C, Corner.D;
  }

  lemma CrossIs(a: Vec, b: Vec, c: Vec)
    requires c.x == a.y * b.z - a.z * b.y && c.y == a.z * b.x - a.x * b.z && c.z == a.x * b.y - a.y * b.x
    ensures Cross(a, b) == c
  {}

  lemma ThirdInner(verts: seq<Vec>)
    requires verts == Third()
    ensures OnlyInner(verts, 2)
  {
    hide Corner.X, Corner.Y, Corner.Z, Corner.Det, P;
    ThirdCorner(CornerOf(verts));
  }

  lemma ThirdCorner(t: Corner)
    requires t == Corner(P(3), P(1), P(2), P(0))
    ensures t.Det() == -52.0 && t.X() == -276.0 && t.Y() == 52.0 && t.Z() == 216.0
  {
    hide Cross, Dot, Corner.X, Corner.Y, Corner.Z, Corner.Det, Corner.B, Corner.C, Corner.D, P;
    var b, c, d := Vec(-10.0, -12.0, 0.0), Vec(-15.0, -7.0, 2.0), Vec(-7.0, -11.0, 0.0);
    var cd, db, bc := Vec(22.0, -14.0, 116.0), Vec(0.0, 0.0, -26.0), Vec(-24.0, 20.0, -110.0);
    ThirdEdges(t, b, c, d);
    CrossIs(c, d, cd);
    CrossIs(d, b, db);
    CrossIs(b, c, bc);
    DotIs(b, cd, -52.0);
    ThirdHeights(t.s1, cd, db, bc);
    CornerIs(t, cd, db, bc, -52.0, -276.0, 52.0, 216.0);
  }

  lemma ThirdEdges(t: Corner, b: Vec, c: Vec, d: Vec)
    requires t == Corner(P(3), P(1), P(2), P(0))
    requires b == Vec(-10.0, -12.0, 0.0) && c == Vec(-15.0, -7.0, 2.0) && d == Vec(-7.0, -11.0, 0.0)
    ensures t.B() == b && t.C() == c && t.D() == d
  {}

  lemma ThirdHeights(s1: Vec, cd: Vec, db: Vec, bc: Vec)
    requires s1 == P(3) && cd == Vec(22.0, -14.0, 116.0) && db == Vec(0.0, 0.0, -26.0) && bc == Vec(-24.0, 20.0, -110.0)
    ensures Dot(s1, cd) == 276.0 && Dot(s1, db) == -52.0 && Dot(s1, bc) == -216.0
  {
    hide Dot;
    DotIs(s1, cd, 276.0);
    DotIs(s1, db, -52.0);
    DotIs(s1, bc, -216.0);
  }

  lemma FourthInner(verts: seq<Vec>)
    requires verts == Fourth()
    ensures OnlyInner(verts, 1)
  {
    hide Corner.X, Corner.Y, Corner.Z, Corner.Det, P;
    FourthCorner(CornerOf(verts));
  }

  lemma FourthCorner(t: Corner)
    requires t == Corner(P(4), P(3), P(0), P(1))
    ensures t.Det() == -26.0 && t.X() == 24.0 && t.Y() == -2.0 && t.Z() == 4.0
  {
    hide Cross, Dot, Corner.X, Corner.Y, Corner.Z, Corner.Det;
    var s1, b, c, d := P(4), Vec(5.0, 6.0, 1.0), Vec(-2.0, -5.0, 1.0), Vec(-5.0, -6.0, 1.0);
    var cd, db, bc := Vec(1.0, -3.0, -13.0), Vec(-12.0, 10.0, 0.0), Vec(11.0, -7.0, -13.0);
    assert t.B() == b && t.C() == c && t.D() == d;
    CrossIs(c, d, cd);
    CrossIs(d, b, db);
    CrossIs(b, c, bc);
    DotIs(b, cd, -26.0);
    DotIs(s1, cd, -24.0);
    DotIs(s1, db, 2.0);
    DotIs(s1, bc, -4.0);
    CornerIs(t, cd, db, bc, -26.0, 24.0, -2.0, 4.0);
  }

  lemma ThirdAhead(verts: seq<Vec>)
    requires verts == Third()
    ensures Aheads(verts) == 3
  {
    hide Hff1;
    AheadIs(P(3), P(0), 206.0, 22.0);
    AheadIs(P(3), P(2), 206.0, -2.0);
    AheadIs(P(3), P(1), 206.0, -16.0);
  }

  lemma FourthAhead(verts: seq<Vec>)
    requires verts == Fourth()
    ensures Aheads(verts) == 2 && Ahead(verts, 0)
  {
    hide Hff1;
    AheadIs(P(4), P(1), 42.0, -7.0);
    AheadIs(P(4), P(0), 42.0, 10.0);
    AheadIs(P(4), P(3), 42.0, 93.0);
  }

  lemma FourthSides(verts: seq<Vec>)
    requires verts == Fourth()
    ensures !Beyond(verts, 1, 0) && Beyond(verts, 0, 1)
  {
    hide Hff2;
    FourthOne();
    FourthTwo();
  }

  lemma FourthOne()
    ensures !Hff2(P(4), P(0), P(1))
  {
    hide Hff2;
    SideIs(P(4), P(0), P(1), Vec(-2.0, -5.0, 1.0), Vec(-5.0, -6.0, 1.0), Vec(1.0, -3.0, -13.0), Vec(68.0, -25.0, 11.0),
      158.0);
  }

  lemma FourthTwo()
    ensures Hff2(P(4), P(1), P(0))
  {
    hide Hff2;
    SideIs(P(4), P(1), P(0), Vec(-5.0, -6.0, 1.0), Vec(-2.0, -5.0, 1.0), Vec(-1.0, 3.0, 13.0), Vec(-81.0, 64.0, -21.0),
      -25.0);
  }

  // ----- the steps

  lemma StateIsLevel(j: nat)
    requires j < 5
    ensures Supports(V(j), State(j).verts)
  {
    hide Dot, Norm2, P, V;
    SquareIs(j);
    HeightIs(j, 0);
    HeightIs(j, 1);
    HeightIs(j, 2);
    HeightIs(j, 3);
    HeightIs(j, 4);
  }

  /** The vertex that was added last. */
  ghost function Newest(j: nat): nat {
    if j == 0 then 0 else Furthest(j - 1)
  }

  lemma StateInCone(j: nat)
    requires j < 5
    ensures InCone(V(j), P(Newest(j)), State(j).verts)
  {
    hide Lerp, Add, Scale, InCone;
    match j
    case 0 => ConeOfPoint(P(0));
    case 1 =>
      LerpIs(P(2), P(0), 6.0 / 7.0, V(1));
      ConeOfEdge(P(2), P(0), 6.0 / 7.0);
    case 2 =>
      SumIs(2.0 / 5.0, P(0), 0.0, P(2), 3.0 / 5.0, P(1), V(2));
      ConeOfThree(2.0 / 5.0, 0.0, P(0), P(2), P(1));
    case 3 =>
      SumIs(11.0 / 13.0, P(1), 1.0 / 13.0, P(0), 1.0 / 13.0, P(3), V(3));
      ConeOfThree(11.0 / 13.0, 1.0 / 13.0, P(1), P(0), P(3));
    case _ =>
      LerpIs(P(4), P(0), 16.0 / 15.0, V(4));
      ConeOfEdge(P(4), P(0), 16.0 / 15.0);
  }

  lemma LerpIs(p: Vec, q: Vec, t: real, v: Vec)
    requires v.x == p.x - t * (p.x - q.x) && v.y == p.y - t * (p.y - q.y) && v.z == p.z - t * (p.z - q.z)
    ensures Lerp(p, q, t) == v
  {}

  lemma SumIs(a: real, p: Vec, b: real, q: Vec, c: real, r: Vec, v: Vec)
    requires v.x == a * p.x + (b * q.x + c * r.x)
    requires v.y == a * p.y + (b * q.y + c * r.y)
    requires v.z == a * p.z + (b * q.z + c * r.z)
    ensures Add(Scale(a, p), Add(Scale(b, q), Add(Scale(c, r), Zero))) == v
  {
    hide Scale;
    var x, y, z := Scale(a, p), Scale(b, q), Scale(c, r);
    ScaleIs(a, p);
    ScaleIs(b, q);
    ScaleIs(c, r);
    assert x.x + (y.x + z.x) == v.x && x.y + (y.y + z.y) == v.y && x.z + (y.z + z.z) == v.z;
  }

  lemma ScaleIs(k: real, p: Vec)
    ensures Scale(k, p) == Vec(k * p.x, k * p.y, k * p.z)
  {}

  lemma StepSimplex(j: nat, simplex: seq<Vec>, next: Iterate)
    requires j < 5 && IsStep(State(j), simplex, next, Body(), Origin())
    ensures simplex == State(j).verts + [P(Furthest(j))] && IsChoice(next.verts, next.v, simplex)
  {
    hide IsSound, IsSupport, IsChoice, ClosesGap, P, V, Furthest;
    SupportIsFurthest(j, simplex[|State(j).verts|]);
  }

  /** The kept vertices determine the state. */
  lemma NextIs(j: nat, simplex: seq<Vec>, next: Iterate)
    requires 1 <= j < 5 && |simplex| > 0 && simplex[|simplex| - 1] == P(Newest(j))
    requires IsChoice(next.verts, next.v, simplex) && next.verts == State(j).verts
    ensures next == State(j)
  {
    hide Dot, Norm2, Independent, InCone, Bounds, P, V, SegmentKept, TriangleKept, OnlyInner, KeepsInner, IsMisjudged;
    StateIsLevel(j);
    StateInCone(j);
    ReducesIsKept(next.verts, next.v, simplex);
    Levels(V(j), next.verts, P(Newest(j)));
    Levels(next.v, next.verts, P(Newest(j)));
    OneFoot(V(j), next.v, P(Newest(j)), next.verts);
  }

  lemma Levels(v: Vec, verts: seq<Vec>, a: Vec)
    requires Supports(v, verts) && a in verts
    ensures Bounds(v, verts) && Dot(v, a) == Norm2(v)
  {}

  lemma StepFromFirst(simplex: seq<Vec>, next: Iterate)
    requires IsStep(State(0), simplex, next, Body(), Origin())
    ensures next == State(1)
  {
    hide IsStep, IsSound, Reduces, InCone, Bounds, P, V, SegmentKept, TriangleKept, OnlyInner, KeepsInner, IsMisjudged;
    StepSimplex(0, simplex, next);
    FirstKept();
    NextIs(1, simplex, next);
  }

  lemma StepFromSegment(simplex: seq<Vec>, next: Iterate)
    requires IsStep(State(1), simplex, next, Body(), Origin())
    ensures next == State(2)
  {
    hide IsStep, IsSound, Reduces, InCone, Bounds, P, V, SegmentKept, TriangleKept, OnlyInner, KeepsInner, IsMisjudged;
    StepSimplex(1, simplex, next);
    SecondKept();
    NextIs(2, simplex, next);
  }

  lemma StepFromOvershoot(simplex: seq<Vec>, next: Iterate)
    requires IsStep(State(4), simplex, next, Body(), Origin())
    ensures next == State(1)
  {
    hide IsStep, IsSound, Reduces, InCone, Bounds, P, V, SegmentKept, TriangleKept, OnlyInner, KeepsInner, IsMisjudged;
    StepSimplex(4, simplex, next);
    FourthKept();
    NextIs(1, simplex, next);
  }

  /** The first tetrahedron is reduced to the face that carries the nearest point. */
  lemma StepFromTriangle(simplex: seq<Vec>, next: Iterate)
    requires IsStep(State(2), simplex, next, Body(), Origin())
    ensures next == State(3)
  {
    hide IsStep, Independent, Supports, InCone, Bounds, P, V, SegmentKept, TriangleKept, OnlyInner, IsInner, Ahead,
         Beyond;
    StepSimplex(2, simplex, next);
    assert simplex == Third();
    ThirdInner(simplex);
    ThirdAhead(simplex);
    ReducesIsKept(next.verts, next.v, simplex);
    ThirdFoot(simplex, next.verts, next.v);
    ThirdKept(simplex, next.verts, next.v);
    NextIs(3, simplex, next);
  }

  lemma ThirdFoot(simplex: seq<Vec>, kept: seq<Vec>, v: Vec)
    requires simplex == Third() && IsKept(kept, v, simplex) && InCone(v, P(3), kept) && Bounds(v, simplex)
    ensures v == V(3)
  {
    hide Dot, Norm2, InCone, V, Supports;
    var u := V(3);
    StateIsLevel(3);
    StateInCone(3);
    HeightIs(3, 2);
    SquareIs(3);
    ConeOfSubset(u, State(3).verts, simplex, 3);
    ConeOfSubset(v, kept, simplex, 3);
    Levels(u, State(3).verts, P(3));
    Levels(v, kept, P(3));
    assert State(3).verts[0] == simplex[2] && State(3).verts[1] == simplex[0] && State(3).verts[2] == simplex[3];
    OneFoot(u, v, P(3), simplex);
  }

  lemma ThirdKept(simplex: seq<Vec>, kept: seq<Vec>, v: Vec)
    requires simplex == Third() && v == V(3) && IsKept(kept, v, simplex) && InCone(v, P(3), kept) && Independent(kept)
    requires |kept| == 4 ==> v == Zero
    requires |kept| == 3 ==> kept[0] == P(1) && kept[2] == P(3)
    ensures kept == State(3).verts
  {
    hide Dot, Norm2, InCone, TriangleNormal, Determinant, P;
    HeightIs(3, 2);
    SquareIs(3);
    assert forall i :: 0 <= i < |kept| ==> kept[i] in [P(0), P(1), P(3)];
    NeedsFirst(kept, v);
    NeedsSecond(kept, v);
    Distinct();
    assert |kept| == 3;
    Repeated(kept[2], kept[0]);
  }

  lemma Distinct()
    ensures P(0) != P(1) && P(0) != P(3) && P(1) != P(3)
  {}

  lemma Repeated(a: Vec, b: Vec)
    ensures TriangleNormal(a, a, b) == Zero == TriangleNormal(a, b, b)
  {}

  lemma NeedsFirst(kept: seq<Vec>, v: Vec)
    requires v == V(3) && InCone(v, P(3), kept) && forall i :: 0 <= i < |kept| ==> kept[i] in [P(0), P(1), P(3)]
    ensures P(0) in kept
  {
    hide Dot, InCone;
    if P(0) !in kept {
      var f := Vec(-6.0, 5.0, 0.0);
      DotIs(f, P(3), 1.0);
      DotIs(f, P(1), 1.0);
      DotIs(f, V(3), 0.0);
      ConeBound(f, v, P(3), kept, 1.0);
      assert false;
    }
  }

  lemma NeedsSecond(kept: seq<Vec>, v: Vec)
    requires v == V(3) && InCone(v, P(3), kept) && forall i :: 0 <= i < |kept| ==> kept[i] in [P(0), P(1), P(3)]
    ensures P(1) in kept
  {
    hide Dot, InCone;
    if P(1) !in kept {
      var f := Vec(11.0, -7.0, 0.0);
      DotIs(f, P(3), 22.0);
      DotIs(f, P(0), 22.0);
      DotIs(f, V(3), 0.0);
      ConeBound(f, v, P(3), kept, 22.0);
      assert false;
    }
  }

  /** The second tetrahedron is misjudged: the kept edge is left beyond its end. */
  lemma StepFromNearest(simplex: seq<Vec>, next: Iterate)
    requires IsStep(State(3), simplex, next, Body(), Origin())
    ensures next == State(4)
  {
    hide IsStep, Reduces, InCone, Bounds, P, V, SegmentKept, TriangleKept, OnlyInner, IsMisjudged, Ahead, Beyond,
         ProjectOnLine;
    StepSimplex(3, simplex, next);
    assert simplex == Fourth();
    FourthInner(simplex);
    FourthAhead(simplex);
    FourthSides(simplex);
    assert KeepsInner(next.verts, next.v, simplex, 1);
    NextIs(4, simplex, next);
  }

  // ----- the run

  lemma Step(j: nat, simplex: seq<Vec>, next: Iterate)
    requires j < 5 && IsStep(State(j), simplex, next, Body(), Origin())
    ensures next == State(if j == 4 then 1 else j + 1)
    ensures simplex == State(j).verts + [P(Furthest(j))]
  {
    hide IsStep, State, P, Body, Origin;
    StepSimplex(j, simplex, next);
    match j
    case 0 => StepFromFirst(simplex, next);
    case 1 => StepFromSegment(simplex, next);
    case 2 => StepFromTriangle(simplex, next);
    case 3 => StepFromNearest(simplex, next);
    case _ => StepFromOvershoot(simplex, next);
  }

  /** Every run against the origin goes round the same four simplices. */
  lemma {:induction false} RunIsCycle(run: seq<Iterate>, simplices: seq<seq<Vec>>, n: nat)
    requires IsRun(run, simplices, Body(), Origin()) && n < |run|
    ensures run[n] == State(Phase(n))
    ensures n < |simplices| ==> simplices[n] == State(Phase(n)).verts + [P(Furthest(Phase(n)))]
  {
    hide IsStep, P, State, V, Furthest, Phase;
    PhaseMoves(n);
    if n == 0 {
      SubNothing(P(0));
      FirstState();
    } else {
      RunIsCycle(run, simplices, n - 1);
      PhaseMoves(n - 1);
      Step(Phase(n - 1), simplices[n - 1], run[n]);
    }
    if n < |simplices| {
      Step(Phase(n), simplices[n], run[n + 1]);
    }
  }

  lemma FirstState()
    ensures State(0) == Iterate([P(0)], P(0))
  {}

  lemma PhaseMoves(n: nat)
    ensures Phase(n) < 5 && Phase(0) == 0 && Phase(n + 1) == if Phase(n) == 4 then 1 else Phase(n) + 1
  {}

  lemma FourthOvershoots(simplex: seq<Vec>)
    requires simplex == State(3).verts + [P(4)]
    ensures IsMisjudged(simplex) && Overshoots(simplex)
  {
    hide P, V, OnlyInner, Ahead, Beyond, LineFraction;
    assert simplex == Fourth();
    FourthInner(simplex);
    FourthAhead(simplex);
    FourthSides(simplex);
    FourthFraction();
    assert OnlyInner(simplex, 1) && Misjudges(simplex, (1 + 2) % 3, 1) && IsBeyondEnd(simplex[3], simplex[1]);
  }

  lemma FourthFraction()
    ensures P(4) != P(0) && LineFraction(P(4), P(0)) == 32.0 / 30.0
  {
    hide Dot;
    var e := Vec(2.0, 5.0, -1.0);
    assert Sub(P(4), P(0)) == e;
    DotIs(P(4), e, 32.0);
    DotIs(e, e, 30.0);
  }

  lemma FourthIsOutside()
    ensures !InHull(V(4), State(4).verts)
  {
    hide Dot, InHull;
    var f := Vec(2.0, 5.0, -1.0);
    DotIs(f, P(0), 2.0);
    DotIs(f, P(4), 32.0);
    DotIs(f, V(4), 0.0);
    if InHull(V(4), State(4).verts) {
      HullBound(f, V(4), State(4).verts, 2.0);
      assert false;
    }
  }

  lemma ThirdIsInside()
    ensures InHull(V(3), State(3).verts)
  {
    hide Add, Scale, Sum, Combo;
    var w := [11.0 / 13.0, 1.0 / 13.0, 1.0 / 13.0];
    UnfoldThree(w, P(1), P(0), P(3));
    SumIs(w[0], P(1), w[1], P(0), w[2], P(3), V(3));
    assert IsWeighting(w, 3);
  }

  /** Once round, the step that misjudges leaves the point (0, 0, 2) of the hull for one outside of it that is
      farther from the origin. */
  lemma CycleMisjudges(run: seq<Iterate>, simplices: seq<seq<Vec>>)
    requires IsRun(run, simplices, Body(), Origin()) && |simplices| >= 4
    ensures IsMisjudged(simplices[3]) && Overshoots(simplices[3])
    ensures Norm2(run[3].v) == 4.0 && Norm2(run[4].v) == 118.0 / 15.0
    ensures InHull(run[3].v, run[3].verts) && !InHull(run[4].v, run[4].verts)
  {
    hide IsStep, P, V, Norm2, InHull, IsMisjudged, Overshoots;
    RunIsCycle(run, simplices, 3);
    RunIsCycle(run, simplices, 4);
    SquareIs(3);
    SquareIs(4);
    FourthOvershoots(simplices[3]);
    FourthIsOutside();
    ThirdIsInside();
  }

  // ----- only the limit ends it

  lemma SmallConstants()
    ensures 0.0 < EPS_REL < 0.01 && 0.0 < EPS_TOT < 0.01
    ensures 0.0 < EPS_REL * EPS_REL < 0.01 && 0.0 < EPS_TOT * EPS_TOT < 0.0001
  {}

  lemma SmallTolerance(n: real)
    requires 0.0 <= n <= 8.0
    ensures Tolerance(n) < 1.0
  {
    hide EPS_REL, EPS_TOT;
    SmallConstants();
    MulMonotone(n, EPS_REL, 0.01, n * EPS_REL, n * 0.01);
  }

  lemma SmallProduct(w: real)
    requires 0.0 <= w <= 206.0
    ensures EPS_TOT * EPS_TOT * w < 1.0
  {
    hide EPS_REL, EPS_TOT;
    SmallConstants();
    MulMonotone(w, EPS_TOT * EPS_TOT, 0.0001, w * (EPS_TOT * EPS_TOT), w * 0.0001);
  }

  lemma CornerNormIsSmall(n: real)
    requires IsCornerNorm(n, Body(), Origin())
    ensures 0.0 <= n <= 206.0
  {
    hide Norm2, Sub, P;
    var x :| IsCorner(x, Body(), Origin()) && n == Norm2(x);
    var p, q :| p in Extremes(Body()) && q in Extremes(Origin()) && x == Sub(p, q);
    SubNothing(p);
    assert q == Zero;
    var i: nat :| i < 5 && p == P(i);
    VertexNormIsSmall(i);
  }

  lemma VertexNormIsSmall(i: nat)
    requires i < 5
    ensures 0.0 <= Norm2(P(i)) <= 206.0
  {
    hide Norm2, Dot;
    var n := if i == 0 then 8.0 else if i == 1 then 6.0 else if i == 2 then 68.0 else if i == 3 then 206.0 else 42.0;
    Norm2IsDot(P(i));
    DotIs(P(i), P(i), n);
  }

  lemma GapStaysOpen(j: nat)
    requires j < 5
    ensures !Certifies(V(j), Body(), Origin())
  {
    hide Norm2, Dot, Sub, InHull, P, V, VertexHeight, Tolerance;
    var k := Furthest(j);
    HeightIs(j, k);
    SquareIs(j);
    SmallTolerance(Square(j));
    FurthestIsLow(j);
    HullMember(k, Body());
    HullMember(0, Origin());
    SubNothing(P(k));
    assert Body()[k] == P(k) && Origin()[0] == Zero;
  }

  lemma FurthestIsLow(j: nat)
    requires j < 5
    ensures VertexHeight(j, Furthest(j)) < Square(j) - 1.0
  {}

  lemma OnlyTheLimit(j: nat, exit: Exit, n: nat, wmax: real)
    requires j < 5 && IsExit(exit, V(j), n, wmax, Body(), Origin())
    ensures exit.IterationLimit?
  {
    hide Norm2, Certifies, IsCornerNorm, V, Body, Origin, EPS_REL, EPS_TOT;
    GapStaysOpen(j);
    SquareIs(j);
    SmallConstants();
    if exit.SmallVector? {
      CornerNormIsSmall(wmax);
      SmallProduct(wmax);
      assert false;
    }
  }

  /** The result is the length of V(1), but (0, 0, 2) is a point of the hull. */
  lemma CloserPointExists(d: real)
    requires d * d == Square(1)
    ensures !IsDistance(d, Body(), Origin()) && IsAttained(2.0, Body(), Origin())
  {
    hide Norm2, Sub, InHull, Slack, P, V, IsCornerNorm;
    var x := V(3);
    ThirdIsInside();
    HullOfSubset(x, State(3).verts, Body());
    HullMember(0, Origin());
    SubNothing(x);
    SquareIs(3);
    assert IsDifference(x, Body(), Origin());
    if IsDistance(d, Body(), Origin()) {
      var w :| IsCornerNorm(w, Body(), Origin()) &&
         forall x: Vec, y: Vec :: InHull(x, Body()) && InHull(y, Origin()) ==>
           Norm2(Sub(x, y)) >= d * d - Slack(d * d, w);
      CornerNormIsSmall(w);
      SmallSlack(d * d, w);
      assert false;
    }
  }

  lemma SmallSlack(n: real, w: real)
    requires 0.0 <= n <= 8.0 && 0.0 <= w <= 206.0
    ensures Slack(n, w) < 2.0
  {
    hide EPS_REL, EPS_TOT, Tolerance;
    SmallTolerance(n);
    SmallProduct(w);
    SmallConstants();
  }

  /** Called with these vertices and the origin, the function runs into its limit and returns a wrong distance: its
      square is 44/7, although a point of the hull has the squared distance 4. */
  method CyclingDistance(s: Simplex, root: real -> real) returns (d: real, ghost simplices: seq<seq<Vec>>)
    requires s.vrtx.Length == 4 && IsSquareRoot(root)
    modifies s, s.vrtx
    ensures |simplices| == MAX_ITERATIONS && d * d == 44.0 / 7.0
    ensures !IsDistance(d, Body(), Origin()) && IsAttained(2.0, Body(), Origin())
  {
    hide Norm2, IsLink, IsRun, IsExit, IsDistance, IsAttained, NeverFour, Body, Origin, P, V;
    var bd1 := new Polytope(Body());
    var bd2 := new Polytope(Origin());
    ghost var exit: Exit, run: seq<Iterate>, wmax: real;
    d, exit, run, simplices, wmax := ComputeMinimumDistance(bd1, bd2, s, root);
    CycleEnds(run, simplices, exit, wmax);
    SquareIs(1);
    CloserPointExists(d);
  }

  lemma CycleEnds(run: seq<Iterate>, simplices: seq<seq<Vec>>, exit: Exit, wmax: real)
    requires IsRun(run, simplices, Body(), Origin()) && |simplices| <= MAX_ITERATIONS
    requires IsExit(exit, run[|simplices|].v, |simplices|, wmax, Body(), Origin())
    ensures exit.IterationLimit? && |simplices| == MAX_ITERATIONS && run[|simplices|] == State(1)
  {
    hide IsStep, P, V, Furthest, Certifies, IsCornerNorm, IsNull, IsSmall, Body, Origin;
    var n := |simplices|;
    RunIsCycle(run, simplices, n);
    PhaseMoves(n);
    OnlyTheLimit(Phase(n), exit, n, wmax);
  }
}
