/** The sub-algorithm of the GJK code (openGJK.c, lines 250-639): it overwrites the simplex in place
    and moves v to a point of the affine hull of the vertices it keeps. */
module GjkSubalgorithm {
  import opened Vectors
  import opened ConvexHull
  import opened GjkSimplex

  /** gkSimplex: room for four vertices, of which the first nvrtx are in use, the newest one last. */
  class Simplex {
    var nvrtx: nat
    const vrtx: array<Vec>

    constructor ()
      ensures Valid() && nvrtx == 0 && fresh(vrtx)
    {
      nvrtx := 0;
      vrtx := new Vec[4](_ => Zero);
    }

    ghost predicate Valid()
      reads this
    {
      vrtx.Length == 4 && nvrtx <= 4
    }

    ghost function Verts(): seq<Vec>
      reads this, vrtx
      requires Valid()
    {
      vrtx[..nvrtx]
    }

    /** The select_1xy macros: keep the newest of four vertices and the two given ones. */
    method KeepFace(p: Vec, q: Vec)
      requires Valid()
      modifies this, vrtx
      ensures Valid() && Verts() == [q, p, old(vrtx[3])]
    {
      nvrtx := 3;
      vrtx[2] := vrtx[3];
      vrtx[1] := p;
      vrtx[0] := q;
    }

    /** The select_1x macros: keep the newest of four vertices and the given one. */
    method KeepEdge(p: Vec)
      requires Valid()
      modifies this, vrtx
      ensures Valid() && Verts() == [p, old(vrtx[3])]
    {
      nvrtx := 2;
      vrtx[1] := vrtx[3];
      vrtx[0] := p;
    }
  }

  /** What one call of the sub-algorithm leaves behind, whichever branch it took: the newest vertex
      and some older ones, affinely independent, with v orthogonal to their affine hull. */
  ghost predicate Reduces(kept: seq<Vec>, v: Vec, verts: seq<Vec>) {
    1 <= |kept| <= |verts| && Independent(kept) && IsKept(kept, v, verts)
  }

  // the vertices S1D and S2D keep, newest vertex first in the parameters

  function SegmentKept(a: Vec, b: Vec): seq<Vec> {
    if Hff1(a, b) then [b, a] else [a]
  }

  function TriangleKept(a: Vec, b: Vec, c: Vec): seq<Vec> {
    if Hff1(a, b) then
      if Hff2(a, b, c) then [a, b]
      else if Hff1(a, c) && Hff2(a, c, b) then [c, a] else [c, b, a]
    else if Hff1(a, c) then
      if Hff2(a, c, b) then [c, a] else [c, b, a]
    else [a]
  }

  method S1D(s: Simplex, ghost v0: Vec) returns (v: Vec)
    requires s.Valid() && s.nvrtx == 2
    modifies s, s.vrtx
    ensures s.Valid() && s.Verts() == SegmentKept(old(s.vrtx[1]), old(s.vrtx[0]))
    ensures Reduces(s.Verts(), v, old(s.Verts())) && IsFoot(v, s.Verts(), old(s.Verts()))
    ensures Independent(old(s.Verts())) ==> IsConeNearest(v, old(s.Verts()))
    ensures Improvable(v0, old(s.Verts())) ==> InHull(v, s.Verts()) && IsNearest(v, old(s.Verts()))
  {
    hide Dot, Norm2, Sub, Hff1, InHull, InCone, Improvable, IsNearest, IsConeNearest, ProjectOnLine;
    ghost var verts := s.Verts();
    var s1p, s2p := s.vrtx[1], s.vrtx[0];
    assert verts == [s2p, s1p];
    if Hff1(s1p, s2p) {
      AlongEdge(s1p, s2p);
      v := ProjectOnLine(s1p, s2p);
    } else {
      v := s.vrtx[1];
      s.nvrtx := 1;
      s.vrtx[0] := s.vrtx[1];
      assert s.Verts() == [s1p];
      VertexOutcome(s1p, s2p);
      Norm2IsDot(s1p);
      ConeOfPoint(s1p);
    }
    if s1p != s2p {
      FootIffConeNearest(v, s.Verts(), verts);
    }
    if Improvable(v0, verts) {
      FootIsNearest(v0, v, s.Verts(), verts);
    }
  }

  lemma VertexOutcome(a: Vec, b: Vec)
    requires !Hff1(a, b)
    ensures Dot(a, b) >= Norm2(a)
  {}

  method S2D(s: Simplex, ghost v0: Vec) returns (v: Vec)
    requires s.Valid() && s.nvrtx == 3 && Independent(s.Verts())
    modifies s, s.vrtx
    ensures s.Valid() && s.Verts() == TriangleKept(old(s.vrtx[2]), old(s.vrtx[1]), old(s.vrtx[0]))
    ensures Reduces(s.Verts(), v, old(s.Verts())) && IsFoot(v, s.Verts(), old(s.Verts()))
    ensures IsConeNearest(v, old(s.Verts()))
    ensures Improvable(v0, old(s.Verts())) ==> InHull(v, s.Verts()) && IsNearest(v, old(s.Verts()))
  {
    hide Dot, Norm2, Sub, Cross, InHull, InCone, Hff1, Hff2, TriangleNormal, Improvable, IsNearest, IsConeNearest,
         ProjectOnLine, ProjectOnPlane;
    ghost var verts := s.Verts();
    var s1p, s2p, s3p := s.vrtx[2], s.vrtx[1], s.vrtx[0];
    assert verts == [s3p, s2p, s1p];
    var hff1f_s12 := Hff1(s1p, s2p);
    var hff1f_s13 := Hff1(s1p, s3p);
    NormalMirrors(s1p, s2p, s3p);
    if hff1f_s12 {
      var hff2f_23 := !Hff2(s1p, s2p, s3p);
      if hff2f_23 {
        if hff1f_s13 {
          var hff2f_32 := !Hff2(s1p, s3p, s2p);
          if hff2f_32 {
            FaceCase(s1p, s2p, s3p);
            v := ProjectOnPlane(s1p, s2p, s3p);
          } else {
            EdgeCase(s1p, s3p, s2p);
            v := ProjectOnLine(s1p, s3p);
            s.nvrtx := 2;
            s.vrtx[1] := s.vrtx[2];
            assert s.Verts() == [s3p, s1p];
          }
        } else {
          FaceCase(s1p, s2p, s3p);
          v := ProjectOnPlane(s1p, s2p, s3p);
        }
      } else {
        EdgeCase(s1p, s2p, s3p);
        v := ProjectOnLine(s1p, s2p);
        s.nvrtx := 2;
        s.vrtx[0] := s.vrtx[2];
        assert s.Verts() == [s1p, s2p];
      }
    } else if hff1f_s13 {
      var hff2f_32 := !Hff2(s1p, s3p, s2p);
      if hff2f_32 {
        FaceCase(s1p, s2p, s3p);
        v := ProjectOnPlane(s1p, s2p, s3p);
      } else {
        EdgeCase(s1p, s3p, s2p);
        v := ProjectOnLine(s1p, s3p);
        s.nvrtx := 2;
        s.vrtx[1] := s.vrtx[2];
        assert s.Verts() == [s3p, s1p];
      }
    } else {
      v := s.vrtx[2];
      s.nvrtx := 1;
      s.vrtx[0] := s.vrtx[2];
      assert s.Verts() == [s1p];
      VertexOutcome(s1p, s2p);
      VertexOutcome(s1p, s3p);
      Norm2IsDot(s1p);
      ConeOfPoint(s1p);
    }
    FlatEdges(s1p, s2p, s3p);
    FootIffConeNearest(v, s.Verts(), verts);
    if Improvable(v0, verts) {
      FootIsNearest(v0, v, s.Verts(), verts);
    }
  }

  lemma NormalMirrors(a: Vec, b: Vec, c: Vec)
    ensures TriangleNormal(a, c, b) == Scale(-1.0, TriangleNormal(a, b, c))
    ensures TriangleNormal(a, c, b) == Zero <==> TriangleNormal(a, b, c) == Zero
  {}

  lemma EdgeCase(a: Vec, b: Vec, c: Vec)
    requires Hff1(a, b) && Hff2(a, b, c)
    ensures a != b
    ensures var v := ProjectOnLine(a, b);
      Dot(v, a) == Dot(v, b) == Norm2(v) <= Dot(v, c) && InCone(v, a, [b, a]) && InCone(v, a, [a, b])
  {
    hide Dot, Norm2, InCone, Hff1, Hff2, ProjectOnLine;
    AlongEdge(a, b);
    EdgeOutcome(a, b, c);
  }

  /** The tests that send the sub-algorithm to the face a, b, c. */
  predicate FaceTests(a: Vec, b: Vec, c: Vec) {
    if Hff1(a, b) then !Hff2(a, b, c) && (Hff1(a, c) ==> !Hff2(a, c, b)) else Hff1(a, c) && !Hff2(a, c, b)
  }

  lemma FaceCase(a: Vec, b: Vec, c: Vec)
    requires TriangleNormal(a, b, c) != Zero && FaceTests(a, b, c)
    ensures var v := ProjectOnPlane(a, b, c);
      Dot(v, a) == Dot(v, b) == Dot(v, c) == Norm2(v) && InCone(v, a, [c, b, a])
  {
    hide Dot, Norm2, Sub, InCone, Hff1, Hff2, TriangleNormal, ProjectOnPlane, Frame.Area2, Frame.Beta, Frame.Gamma;
    PlaneProjection(a, b, c);
    assert [c, b, a][0] == c && [c, b, a][1] == b && [c, b, a][2] == a;
    var f := FrameOf(a, b, c);
    Hff1InFrame(a, b);
    Hff1InFrame(a, c);
    Hff2InFrame(a, b, c);
    AreaInFrame(a, b, c);
    if !Hff1(a, c) {
      InsideOtherEdge(f);
    } else if !Hff1(a, b) {
      MirroredFrame(f);
      InsideOtherEdge(Mirrored(f));
    }
    FlatEdges(a, b, c);
    FaceOutcome(a, b, c);
  }

  lemma FlatEdges(a: Vec, b: Vec, c: Vec)
    requires TriangleNormal(a, b, c) != Zero
    ensures a != b && a != c
  {}
}
