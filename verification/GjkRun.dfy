/** Runs of the GJK loop (openGJK.c, lines 641-731): from one simplex and its point v to the next, and what holds over
    every run, however long. */
module GjkRun {
  import opened Vectors
  import opened ConvexHull
  import opened FiniteSets
  import opened GjkSimplex
  import opened GjkSubalgorithm
  import opened GjkTetrahedron
  import opened Gjk

  /** The simplex and the point v at the start of one iteration. */
  datatype Iterate = Iterate(verts: seq<Vec>, v: Vec)

  ghost predicate IsSound(it: Iterate, pts1: seq<Vec>, pts2: seq<Vec>) {
    && 1 <= |it.verts| <= 3
    && Independent(it.verts)
    && Supports(it.v, it.verts)
    && AreCorners(it.verts, pts1, pts2)
  }

  ghost predicate AreCorners(verts: seq<Vec>, pts1: seq<Vec>, pts2: seq<Vec>) {
    forall i :: 0 <= i < |verts| ==> IsCorner(verts[i], pts1, pts2)
  }

  /** w is a difference of two vertices, the one of body 1 furthest against v, the one of body 2 furthest along it. */
  ghost predicate IsSupport(w: Vec, v: Vec, pts1: seq<Vec>, pts2: seq<Vec>) {
    exists p: Vec, q: Vec :: p in Extremes(pts1) && q in Extremes(pts2) && w == Sub(p, q)
      && (forall j :: 0 <= j < |pts1| ==> Dot(v, pts1[j]) >= Dot(v, p))
      && (forall j :: 0 <= j < |pts2| ==> Dot(v, pts2[j]) <= Dot(v, q))
  }

  /** One iteration that does not leave the loop before the sub-algorithm: the simplex it hands over, and the next. */
  ghost predicate IsStep(it: Iterate, simplex: seq<Vec>, next: Iterate, pts1: seq<Vec>, pts2: seq<Vec>) {
    && IsSound(it, pts1, pts2) && |simplex| == |it.verts| + 1 && simplex[..|it.verts|] == it.verts
    && IsSupport(simplex[|it.verts|], it.v, pts1, pts2)
    && !ClosesGap(Norm2(it.v) - Dot(it.v, simplex[|it.verts|]), Norm2(it.v))
    && IsChoice(next.verts, next.v, simplex)
  }

  /** From the difference of the first vertices through the given simplices. */
  ghost predicate IsRun(run: seq<Iterate>, simplices: seq<seq<Vec>>, pts1: seq<Vec>, pts2: seq<Vec>) {
    && |pts1| > 0 && |pts2| > 0 && |run| == |simplices| + 1
    && run[0] == Iterate([Sub(pts1[0], pts2[0])], Sub(pts1[0], pts2[0]))
    && forall i :: 0 <= i < |simplices| ==> IsStep(run[i], simplices[i], run[i + 1], pts1, pts2)
  }

  lemma OpenGap(gap: real, n: real)
    requires !ClosesGap(gap, n)
    ensures gap > 0.0
  {}

  // ----- one step

  lemma SupportIsCorner(w: Vec, v: Vec, pts1: seq<Vec>, pts2: seq<Vec>)
    requires IsSupport(w, v, pts1, pts2)
    ensures IsCorner(w, pts1, pts2)
  {
    hide Sub, Dot;
  }

  /** A step hands over an independent simplex of vertex differences that its point supports but for the newest, which
      lies below. */
  lemma StepMeans(it: Iterate, simplex: seq<Vec>, next: Iterate, pts1: seq<Vec>, pts2: seq<Vec>)
    requires IsStep(it, simplex, next, pts1, pts2)
    ensures 2 <= |simplex| <= 4 && Independent(simplex) && AreCorners(simplex, pts1, pts2)
    ensures Supports(it.v, simplex[..|simplex| - 1]) && Dot(it.v, simplex[|simplex| - 1]) < Norm2(it.v)
    ensures IsKept(next.verts, next.v, simplex) && Independent(next.verts)
      && InCone(next.v, simplex[|simplex| - 1], next.verts)
    ensures AreCorners(next.verts, pts1, pts2)
    ensures |next.verts| <= 3 ==> IsSound(next, pts1, pts2)
  {
    hide Dot, Norm2, Independent, Supports, IsCorner, IsSupport, Reduces, Bounds, InCone, InHull, ClosesGap,
         SegmentKept, TriangleKept, KeepsInner, OnlyInner, IsMisjudged;
    var n := |it.verts|;
    var w := simplex[n];
    OpenGap(Norm2(it.v) - Dot(it.v, w), Norm2(it.v));
    SupportIsCorner(w, it.v, pts1, pts2);
    assert simplex == it.verts + [w];
    AddedVertexIsIndependent(it.verts, it.v, w);
    forall i | 0 <= i < |simplex|
      ensures IsCorner(simplex[i], pts1, pts2)
    {
      if i < n {
        assert simplex[i] == it.verts[i];
      }
    }
    ReducesIsKept(next.verts, next.v, simplex);
  }

  /** The next point lies in the hull of its simplex, or farther from the origin than the last one. */
  lemma StepReachesHull(it: Iterate, simplex: seq<Vec>, next: Iterate, pts1: seq<Vec>, pts2: seq<Vec>)
    requires IsStep(it, simplex, next, pts1, pts2)
    ensures IsDifference(next.v, pts1, pts2) || Norm2(next.v) > Norm2(it.v)
  {
    hide Dot, Norm2, Independent, Supports, IsCorner, IsStep, InCone, InHull, IsDifference, IsKept;
    StepMeans(it, simplex, next, pts1, pts2);
    InHullOrFarther(it.v, next.v, next.verts, simplex);
    if InHull(next.v, next.verts) {
      CornersAreDifferences(next.verts, pts1, pts2);
      HullOfDifferences(next.v, next.verts, pts1, pts2);
    }
  }

  lemma CornersAreDifferences(verts: seq<Vec>, pts1: seq<Vec>, pts2: seq<Vec>)
    requires AreCorners(verts, pts1, pts2)
    ensures forall i :: 0 <= i < |verts| ==> IsDifference(verts[i], pts1, pts2)
  {
    hide Sub, InHull, Extremes;
    forall i | 0 <= i < |verts|
      ensures IsDifference(verts[i], pts1, pts2)
    {
      assert IsCorner(verts[i], pts1, pts2);
      var p: Vec, q: Vec :| p in Extremes(pts1) && q in Extremes(pts2) && verts[i] == Sub(p, q);
      ExtremeInHull(p, pts1);
      ExtremeInHull(q, pts2);
    }
  }

  lemma ExtremeInHull(p: Vec, pts: seq<Vec>)
    requires p in Extremes(pts)
    ensures InHull(p, pts)
  {
    hide InHull, Scale, Add;
    assert p in pts;
    var i :| 0 <= i < |pts| && pts[i] == p;
    HullMember(i, pts);
  }

  /** Within the hull, a step stays in it if and only if it does not overshoot, chooses the nearest point if and only if
      it does not misjudge, and then comes strictly closer. */
  lemma StepInHull(it: Iterate, simplex: seq<Vec>, next: Iterate, pts1: seq<Vec>, pts2: seq<Vec>)
    requires IsStep(it, simplex, next, pts1, pts2) && InHull(it.v, it.verts)
    ensures InHull(next.v, next.verts) <==> !Overshoots(simplex)
    ensures IsNearest(next.v, simplex) <==> !IsMisjudged(simplex)
    ensures !IsMisjudged(simplex) ==> Norm2(next.v) < Norm2(it.v)
  {
    hide Dot, Norm2, Independent, Supports, Reduces, Bounds, IsCorner, IsSupport, InCone, InHull, IsNearest,
         IsMisjudged, Overshoots, ClosesGap, SegmentKept, TriangleKept, KeepsInner, OnlyInner, IsConeNearest;
    StepMeans(it, simplex, next, pts1, pts2);
    assert simplex[..|simplex| - 1] == it.verts;
    ChoiceMeans(it.v, next.verts, next.v, simplex);
    if !IsMisjudged(simplex) {
      var n := |it.verts|;
      assert simplex == it.verts + [simplex[n]];
      HullGrows(it.v, it.verts, simplex[n]);
      NearestIsCloser(next.v, it.v, simplex, n);
    }
  }

  lemma MisjudgedNeverNearest(it: Iterate, simplex: seq<Vec>, next: Iterate, pts1: seq<Vec>, pts2: seq<Vec>)
    requires IsStep(it, simplex, next, pts1, pts2) && IsMisjudged(simplex)
    ensures !IsNearest(next.v, simplex)
  {
    hide Dot, Norm2, Independent, Supports, Reduces, Bounds, IsCorner, IsSupport, InCone, InHull, IsNearest,
         IsMisjudged, Overshoots, ClosesGap, SegmentKept, TriangleKept, KeepsInner, OnlyInner, IsConeNearest;
    StepMeans(it, simplex, next, pts1, pts2);
    ChoiceMeans(it.v, next.verts, next.v, simplex);
  }

  // ----- all runs

  /** Whatever was misjudged, v is never nearer to the origin than the bodies are to each other. */
  lemma {:induction false} RunStaysOutside(run: seq<Iterate>, simplices: seq<seq<Vec>>, pts1: seq<Vec>, pts2: seq<Vec>,
                                           i: nat) returns (x: Vec)
    requires IsRun(run, simplices, pts1, pts2) && i < |run|
    ensures IsDifference(x, pts1, pts2) && Norm2(x) <= Norm2(run[i].v)
  {
    hide Norm2, IsDifference, IsStep, Extremes, Sub;
    if i == 0 {
      x := run[0].v;
      FirstIsCorner(pts1, pts2);
      CornersAreDifferences([x], pts1, pts2);
      assert [x][0] == x;
    } else {
      x := RunStaysOutside(run, simplices, pts1, pts2, i - 1);
      StepReachesHull(run[i - 1], simplices[i - 1], run[i], pts1, pts2);
      if IsDifference(run[i].v, pts1, pts2) {
        x := run[i].v;
      }
    }
  }

  lemma FirstIsCorner(pts1: seq<Vec>, pts2: seq<Vec>)
    requires |pts1| > 0 && |pts2| > 0
    ensures IsCorner(Sub(pts1[0], pts2[0]), pts1, pts2)
    ensures pts1[0] in Extremes(pts1) && pts2[0] in Extremes(pts2)
  {
    hide Scale, Add;
  }

  /** Every simplex of a run, the last one included, is independent, made of vertex differences, and level with v. */
  lemma RunIsSound(run: seq<Iterate>, simplices: seq<seq<Vec>>, pts1: seq<Vec>, pts2: seq<Vec>, i: nat)
    requires IsRun(run, simplices, pts1, pts2) && i < |run|
    ensures |run[i].verts| > 0 && Independent(run[i].verts) && Supports(run[i].v, run[i].verts)
      && AreCorners(run[i].verts, pts1, pts2)
    ensures |run[i].verts| <= 3 ==> IsSound(run[i], pts1, pts2)
  {
    hide Norm2, Dot, IsStep, Extremes, Sub, IsCorner;
    if i == 0 {
      FirstIsCorner(pts1, pts2);
      Norm2IsDot(run[0].v);
    } else {
      StepMeans(run[i - 1], simplices[i - 1], run[i], pts1, pts2);
    }
  }

  ghost predicate NeverMisjudged(simplices: seq<seq<Vec>>) {
    forall i :: 0 <= i < |simplices| ==> !IsMisjudged(simplices[i])
  }

  ghost predicate NeverOvershoots(simplices: seq<seq<Vec>>) {
    forall i :: 0 <= i < |simplices| ==> !Overshoots(simplices[i])
  }

  /** No tetrahedron was reduced at all. */
  ghost predicate NeverFour(simplices: seq<seq<Vec>>) {
    forall i :: 0 <= i < |simplices| ==> |simplices[i]| <= 3
  }

  lemma Weaker(simplices: seq<seq<Vec>>)
    ensures NeverFour(simplices) ==> NeverMisjudged(simplices)
    ensures NeverMisjudged(simplices) ==> NeverOvershoots(simplices)
  {
    hide Misjudges, OnlyInner, IsBeyondEnd;
    forall i | 0 <= i < |simplices|
      ensures Overshoots(simplices[i]) ==> IsMisjudged(simplices[i])
    {
      OvershootIsMisjudged(simplices[i]);
    }
  }

  lemma OvershootIsMisjudged(simplex: seq<Vec>)
    ensures Overshoots(simplex) ==> IsMisjudged(simplex)
  {
    hide Misjudges, IsInner, IsBeyondEnd;
  }

  /** As long as nothing overshoots, every v lies in the hull of its simplex, and every step that does not misjudge
      comes strictly closer. */
  lemma {:induction false} RunInHull(run: seq<Iterate>, simplices: seq<seq<Vec>>, pts1: seq<Vec>, pts2: seq<Vec>,
                                     i: nat)
    requires IsRun(run, simplices, pts1, pts2) && NeverOvershoots(simplices) && i < |run|
    ensures InHull(run[i].v, run[i].verts)
    ensures i > 0 && !IsMisjudged(simplices[i - 1]) ==> Norm2(run[i].v) < Norm2(run[i - 1].v)
  {
    hide Norm2, InHull, IsStep, Overshoots, IsMisjudged, Sub;
    if i == 0 {
      HullMember(0, run[0].verts);
    } else {
      RunInHull(run, simplices, pts1, pts2, i - 1);
      StepInHull(run[i - 1], simplices[i - 1], run[i], pts1, pts2);
    }
  }

  /** The first step that overshoots leaves the hull. */
  lemma OvershootLeavesHull(run: seq<Iterate>, simplices: seq<seq<Vec>>, pts1: seq<Vec>, pts2: seq<Vec>)
    requires IsRun(run, simplices, pts1, pts2)
    ensures NeverOvershoots(simplices) <==> forall i :: 0 <= i < |run| ==> InHull(run[i].v, run[i].verts)
  {
    hide Norm2, InHull, IsStep, Overshoots, Sub;
    if NeverOvershoots(simplices) {
      forall i | 0 <= i < |run|
        ensures InHull(run[i].v, run[i].verts)
      {
        RunInHull(run, simplices, pts1, pts2, i);
      }
    } else if forall i :: 0 <= i < |run| ==> InHull(run[i].v, run[i].verts) {
      var i :| 0 <= i < |simplices| && Overshoots(simplices[i]);
      StepInHull(run[i], simplices[i], run[i + 1], pts1, pts2);
      assert false;
    }
  }

  /** Every chosen point is the nearest of its simplex if and only if no tetrahedron is misjudged. */
  lemma RunIsNearestIff(run: seq<Iterate>, simplices: seq<seq<Vec>>, pts1: seq<Vec>, pts2: seq<Vec>)
    requires IsRun(run, simplices, pts1, pts2)
    ensures NeverMisjudged(simplices) <==> forall i :: 0 <= i < |simplices| ==> IsNearest(run[i + 1].v, simplices[i])
  {
    hide Norm2, InHull, IsStep, IsMisjudged, IsNearest, Sub;
    Weaker(simplices);
    forall i | 0 <= i < |simplices|
      ensures NeverMisjudged(simplices) ==> IsNearest(run[i + 1].v, simplices[i])
      ensures IsMisjudged(simplices[i]) ==> !IsNearest(run[i + 1].v, simplices[i])
    {
      if NeverMisjudged(simplices) {
        RunInHull(run, simplices, pts1, pts2, i);
        StepInHull(run[i], simplices[i], run[i + 1], pts1, pts2);
      }
      if IsMisjudged(simplices[i]) {
        MisjudgedNeverNearest(run[i], simplices[i], run[i + 1], pts1, pts2);
      }
    }
  }

  /** |v| strictly decreases. */
  ghost predicate IsDescent(run: seq<Iterate>) {
    forall i, j :: 0 <= i < j < |run| ==> Norm2(run[j].v) < Norm2(run[i].v)
  }

  lemma RunDescends(run: seq<Iterate>, simplices: seq<seq<Vec>>, pts1: seq<Vec>, pts2: seq<Vec>)
    requires IsRun(run, simplices, pts1, pts2) && NeverMisjudged(simplices)
    ensures IsDescent(run)
  {
    hide Norm2, InHull, IsRun, IsMisjudged;
    forall i, j | 0 <= i < j < |run|
      ensures Norm2(run[j].v) < Norm2(run[i].v)
    {
      DescendsTo(run, simplices, pts1, pts2, i, j);
    }
  }

  lemma {:induction false} DescendsTo(run: seq<Iterate>, simplices: seq<seq<Vec>>, pts1: seq<Vec>, pts2: seq<Vec>,
                                      i: nat, j: nat)
    requires IsRun(run, simplices, pts1, pts2) && NeverMisjudged(simplices) && i < j < |run|
    ensures Norm2(run[j].v) < Norm2(run[i].v)
    decreases j
  {
    hide Norm2, InHull, IsStep, IsMisjudged, Sub;
    Weaker(simplices);
    RunInHull(run, simplices, pts1, pts2, j);
    if i < j - 1 {
      DescendsTo(run, simplices, pts1, pts2, i, j - 1);
    }
  }

  /** The nearest point is determined by the vertex set, whatever the order. */
  lemma SameVerticesSameNorm(a: Iterate, b: Iterate)
    requires Elements(a.verts) == Elements(b.verts)
    requires InHull(a.v, a.verts) && Supports(a.v, a.verts) && InHull(b.v, b.verts) && Supports(b.v, b.verts)
    ensures Norm2(a.v) == Norm2(b.v)
  {
    hide InHull, Norm2, Dot;
    OneBoundsOther(a, b);
    OneBoundsOther(b, a);
  }

  lemma OneBoundsOther(a: Iterate, b: Iterate)
    requires Elements(a.verts) == Elements(b.verts)
    requires Supports(a.v, a.verts) && InHull(b.v, b.verts)
    ensures Norm2(a.v) <= Norm2(b.v)
  {
    hide InHull, Norm2, Dot;
    forall i | 0 <= i < |b.verts|
      ensures Dot(a.v, b.verts[i]) >= Norm2(a.v)
    {
      assert b.verts[i] in Elements(b.verts);
      assert b.verts[i] in a.verts;
    }
    BoundingIsBelow(a.v, b.v, b.verts);
  }

  /** Only a misjudged tetrahedron can bring a set of vertices back. */
  lemma RunNeverRepeats(run: seq<Iterate>, simplices: seq<seq<Vec>>, pts1: seq<Vec>, pts2: seq<Vec>, i: nat, j: nat)
    requires IsRun(run, simplices, pts1, pts2) && NeverMisjudged(simplices) && i < j < |run|
    ensures Elements(run[i].verts) != Elements(run[j].verts)
  {
    hide Norm2, InHull, IsRun, IsMisjudged, Supports, Elements, AreCorners, Independent;
    Weaker(simplices);
    DescendsTo(run, simplices, pts1, pts2, i, j);
    RunInHull(run, simplices, pts1, pts2, i);
    RunInHull(run, simplices, pts1, pts2, j);
    RunIsSound(run, simplices, pts1, pts2, i);
    RunIsSound(run, simplices, pts1, pts2, j);
    if Elements(run[i].verts) == Elements(run[j].verts) {
      SameVerticesSameNorm(run[i], run[j]);
    }
  }

  // ----- links: a triangle of two links has no gap left

  lemma LinksStopAtTriangles(it: Iterate, simplex: seq<Vec>, next: Iterate, pts1: seq<Vec>, pts2: seq<Vec>)
    requires IsStep(it, simplex, next, pts1, pts2) && IsLink(pts1) && IsLink(pts2)
    ensures |simplex| <= 3
  {
    hide Dot, Norm2, IsLink, Independent, Supports, IsCorner, IsSupport, IsChoice, ClosesGap;
    var w := simplex[|it.verts|];
    OpenGap(Norm2(it.v) - Dot(it.v, w), Norm2(it.v));
    SupportIsCorner(w, it.v, pts1, pts2);
    if |it.verts| == 3 {
      TriangleClosesGap(it.verts, it.v, w, pts1, pts2);
    }
  }

  // ----- links need at most eleven iterations

  /** The vertex sets of the segments and points that links can put in the simplex. */
  ghost function LinkFaces(pts1: seq<Vec>, pts2: seq<Vec>): seq<set<Vec>>
    requires IsLink(pts1) && IsLink(pts2)
  {
    var a, b := Sub(pts1[0], pts2[0]), Sub(pts1[0], pts2[2]);
    var c, d := Sub(pts1[2], pts2[0]), Sub(pts1[2], pts2[2]);
    [{a}, {b}, {c}, {d}, {a, b}, {a, c}, {a, d}, {b, c}, {b, d}, {c, d}]
  }

  lemma SmallSimplexIsLinkFace(it: Iterate, pts1: seq<Vec>, pts2: seq<Vec>)
    requires IsLink(pts1) && IsLink(pts2) && IsSound(it, pts1, pts2) && |it.verts| <= 2
    ensures Elements(it.verts) in LinkFaces(pts1, pts2)
  {
    hide Sub, Norm2, Dot, Add, Scale;
    var a, b := Sub(pts1[0], pts2[0]), Sub(pts1[0], pts2[2]);
    var c, d := Sub(pts1[2], pts2[0]), Sub(pts1[2], pts2[2]);
    var faces := LinkFaces(pts1, pts2);
    var x := it.verts[0];
    CornerCases(x, pts1, pts2);
    if |it.verts| == 1 {
      assert Elements(it.verts) == {x};
      assert faces[0] == {a} && faces[1] == {b} && faces[2] == {c} && faces[3] == {d};
    } else {
      var y := it.verts[1];
      CornerCases(y, pts1, pts2);
      assert Elements(it.verts) == {x, y};
      PairOfFour(x, y, a, b, c, d);
      assert faces[4] == {a, b} && faces[5] == {a, c} && faces[6] == {a, d};
      assert faces[7] == {b, c} && faces[8] == {b, d} && faces[9] == {c, d};
    }
  }

  lemma PairOfFour<T>(x: T, y: T, a: T, b: T, c: T, d: T)
    requires x in {a, b, c, d} && y in {a, b, c, d} && x != y
    ensures {x, y} == {a, b} || {x, y} == {a, c} || {x, y} == {a, d} || {x, y} == {b, c} || {x, y} == {b, d}
      || {x, y} == {c, d}
  {}

  lemma CornerCases(x: Vec, pts1: seq<Vec>, pts2: seq<Vec>)
    requires IsLink(pts1) && IsLink(pts2) && IsCorner(x, pts1, pts2)
    ensures x in {Sub(pts1[0], pts2[0]), Sub(pts1[0], pts2[2]), Sub(pts1[2], pts2[0]), Sub(pts1[2], pts2[2])}
  {}

  lemma TenLinkFaces(pts1: seq<Vec>, pts2: seq<Vec>)
    requires IsLink(pts1) && IsLink(pts2)
    ensures |LinkFaces(pts1, pts2)| == 10
  {}

  /** A run between two links never sees a tetrahedron and has at most ten steps. */
  lemma LinkRuns(run: seq<Iterate>, simplices: seq<seq<Vec>>, pts1: seq<Vec>, pts2: seq<Vec>)
    requires IsRun(run, simplices, pts1, pts2) && IsLink(pts1) && IsLink(pts2)
    ensures NeverFour(simplices) && |simplices| <= 10
  {
    hide Dot, Norm2, Sub, Elements, IsLink, IsSound, IsChoice, IsSupport, ClosesGap, LinkFaces;
    forall i | 0 <= i < |simplices|
      ensures |simplices[i]| <= 3
    {
      LinksStopAtTriangles(run[i], simplices[i], run[i + 1], pts1, pts2);
    }
    Weaker(simplices);
    LinkRunIsShort(run, simplices, pts1, pts2);
  }

  /** Its segments and points are all different, and links have ten. */
  lemma LinkRunIsShort(run: seq<Iterate>, simplices: seq<seq<Vec>>, pts1: seq<Vec>, pts2: seq<Vec>)
    requires IsRun(run, simplices, pts1, pts2) && IsLink(pts1) && IsLink(pts2)
    requires NeverFour(simplices) && NeverMisjudged(simplices)
    ensures |simplices| <= 10
  {
    hide Dot, Norm2, Sub, IsLink, IsSound, IsChoice, IsSupport, IsMisjudged, ClosesGap, LinkFaces;
    var faces := seq(|simplices|, i requires 0 <= i < |simplices| => Elements(run[i].verts));
    forall i, j | 0 <= i < j < |faces|
      ensures faces[i] != faces[j]
    {
      RunNeverRepeats(run, simplices, pts1, pts2, i, j);
    }
    ElementsBound(faces);
    var all := LinkFaces(pts1, pts2);
    forall f | f in Elements(faces)
      ensures f in Elements(all)
    {
      var i :| 0 <= i < |faces| && faces[i] == f;
      assert IsStep(run[i], simplices[i], run[i + 1], pts1, pts2);
      SmallSimplexIsLinkFace(run[i], pts1, pts2);
    }
    ElementsBound(all);
    SubsetBound(Elements(faces), Elements(all));
    TenLinkFaces(pts1, pts2);
  }
}
