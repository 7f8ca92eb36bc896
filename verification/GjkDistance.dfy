/** compute_minimum_distance (openGJK.c, lines 641-731) and what its result means. */
module GjkDistance {
  import opened Vectors
  import opened ConvexHull
  import opened GjkSimplex
  import opened GjkSubalgorithm
  import opened GjkTetrahedron
  import opened Gjk
  import opened GjkRun

  datatype Exit = GapClosed | NullVector | SmallVector | IterationLimit

  /** The slack of the gap test for a point of squared norm n. */
  ghost function Tolerance(n: real): real {
    if EPS_REL * n < EPS_TOT then EPS_TOT else EPS_REL * n
  }

  /** v bounds every difference of hull points from below, up to the gap tolerance. */
  ghost predicate Certifies(v: Vec, pts1: seq<Vec>, pts2: seq<Vec>) {
    forall x: Vec, y: Vec :: InHull(x, pts1) && InHull(y, pts2) ==> Dot(v, Sub(x, y)) >= Norm2(v) - Tolerance(Norm2(v))
  }

  lemma GapTestCertifies(v: Vec, w: Vec, pts1: seq<Vec>, pts2: seq<Vec>)
    requires IsSupport(w, v, pts1, pts2) && ClosesGap(Norm2(v) - Dot(v, w), Norm2(v))
    ensures Certifies(v, pts1, pts2)
  {
    hide Dot, Norm2, Sub, Scale, InHull, Extremes;
    var p, q :| p in Extremes(pts1) && q in Extremes(pts2) && w == Sub(p, q)
      && (forall j :: 0 <= j < |pts1| ==> Dot(v, pts1[j]) >= Dot(v, p))
      && (forall j :: 0 <= j < |pts2| ==> Dot(v, pts2[j]) <= Dot(v, q));
    var v' := Scale(-1.0, v);
    forall x: Vec, y: Vec | InHull(x, pts1) && InHull(y, pts2)
      ensures Dot(v, Sub(x, y)) >= Norm2(v) - Tolerance(Norm2(v))
    {
      HullBound(v, x, pts1, Dot(v, p));
      forall j | 0 <= j < |pts2|
        ensures Dot(v', pts2[j]) >= Dot(v', q)
      {
        DotScale(pts2[j], -1.0, v);
        DotScale(q, -1.0, v);
        DotCommutes(pts2[j], v);
        DotCommutes(q, v);
      }
      HullBound(v', y, pts2, Dot(v', q));
      DotScale(y, -1.0, v);
      DotScale(q, -1.0, v);
      DotCommutes(y, v);
      DotCommutes(q, v);
      DotSub(v, x, y);
      DotSub(v, p, q);
    }
  }

  /** A certified point is within twice the tolerance of the true squared distance. */
  lemma CertifiedIsNearlyNearest(v: Vec, x: Vec, y: Vec, pts1: seq<Vec>, pts2: seq<Vec>)
    requires Certifies(v, pts1, pts2) && InHull(x, pts1) && InHull(y, pts2)
    ensures Norm2(Sub(x, y)) >= Norm2(v) - 2.0 * Tolerance(Norm2(v))
  {
    hide Dot, Norm2, Sub, InHull, Tolerance;
    Norm2Sub(v, Sub(x, y));
    Norm2IsDot(Sub(v, Sub(x, y)));
  }

  // ----- the result is the distance of two points

  /** Some two points of the hulls are exactly d apart. */
  ghost predicate IsAttained(d: real, pts1: seq<Vec>, pts2: seq<Vec>) {
    exists v: Vec :: IsDifference(v, pts1, pts2) && Norm2(v) == d * d
  }

  /** Between two points, one nearer to the origin and one farther, lies one at the given distance. */
  lemma NormBetween(x: Vec, y: Vec, c: real, root: real -> real) returns (t: real)
    requires Norm2(x) <= c <= Norm2(y) && IsSquareRoot(root)
    ensures 0.0 <= t <= 1.0 && Norm2(Lerp(x, y, t)) == c
  {
    hide Dot, Norm2, Sub, Scale;
    var e, h := Sub(x, y), c - Norm2(x);
    var a, b := Norm2(e), Dot(x, e);
    Norm2IsDot(e);
    SubZero(x, y);
    Norm2Sub(x, e);
    SubBack(x, y);
    if h == 0.0 {
      t := 0.0;
      NoStep(x, e);
    } else {
      MulPos(a, h, a * h);
      SquareNonNeg(b);
      var s := root(b * b + a * h);
      t := (b + s) / a;
      assert t * a == b + s;
      RootInUnit(a, b, h, s, t);
      Norm2Sub(x, Scale(t, e));
      DotScale(x, t, e);
      Norm2Scale(t, e);
    }
  }

  lemma SubBack(x: Vec, y: Vec)
    ensures Sub(x, Sub(x, y)) == y
  {}

  lemma NoStep(x: Vec, e: Vec)
    ensures Sub(x, Scale(0.0, e)) == x
  {}

  /** The larger root of a t^2 - 2 b t - h, which is not positive at 0 and not negative at 1. */
  lemma RootInUnit(a: real, b: real, h: real, s: real, t: real)
    requires a > 0.0 && h > 0.0 && s >= 0.0 && s * s == b * b + a * h && t * a == b + s && a - 2.0 * b - h >= 0.0
    ensures 0.0 <= t <= 1.0 && t * (t * a) - 2.0 * (t * b) == h
  {
    MulPos(a, h, a * h);
    MulNonNeg(a, a - 2.0 * b - h, a * (a - 2.0 * b - h));
    assert a * (a - 2.0 * b - h) == a * a - 2.0 * (a * b) - a * h;
    assert (a - b) * (a - b) == a * a - 2.0 * (a * b) + b * b;
    SquaresInOrder(-b, s);
    SquaresInOrder(s, a - b);
    InUnit(a, b + s, t);
    RootEquation(a, b, h, s, t);
  }

  lemma SquaresInOrder(x: real, y: real)
    requires y >= 0.0 && x * x <= y * y
    ensures x <= y
  {
    if x > y {
      MulMonotone(x, y, x, x * y, x * x);
      MulMonotone(y, y, x, y * y, y * x);
      MulPos(x - y, x, (x - y) * x);
      assert false;
    }
  }

  lemma InUnit(a: real, n: real, t: real)
    requires a > 0.0 && t * a == n && 0.0 <= n <= a
    ensures 0.0 <= t <= 1.0
  {
    if t < 0.0 {
      MulPos(-t, a, -t * a);
    }
    if t > 1.0 {
      MulPos(t - 1.0, a, (t - 1.0) * a);
    }
  }

  lemma RootEquation(a: real, b: real, h: real, s: real, t: real)
    requires a > 0.0 && s * s == b * b + a * h && t * a == b + s
    ensures t * (t * a) - 2.0 * (t * b) == h
  {
    var e := t * (t * a) - 2.0 * (t * b) - h;
    MulEq(t * a, t * a, b + s);
    MulEq(b + s, t * a, b + s);
    assert (b + s) * (b + s) == b * b + 2.0 * (b * s) + s * s;
    MulEq(b, t * a, b + s);
    assert a * e == (t * a) * (t * a) - 2.0 * (b * (t * a)) - a * h;
    ZeroFactor(a, e);
  }

  /** At every point of a run some two points of the bodies are as far apart as v is from the origin. */
  lemma RunIsAttained(run: seq<Iterate>, simplices: seq<seq<Vec>>, pts1: seq<Vec>, pts2: seq<Vec>, i: nat, d: real,
                      root: real -> real)
    requires IsRun(run, simplices, pts1, pts2) && i < |run| && d * d == Norm2(run[i].v) && IsSquareRoot(root)
    ensures IsAttained(d, pts1, pts2)
  {
    hide Dot, Norm2, Sub, IsRun, Independent, IsDifference, IsCorner, Lerp;
    var v := run[i].v;
    var x := RunStaysOutside(run, simplices, pts1, pts2, i);
    RunIsSound(run, simplices, pts1, pts2, i);
    var y := run[i].verts[0];
    CornersAreDifferences(run[i].verts, pts1, pts2);
    LevelIsFarther(v, y);
    var t := NormBetween(x, y, Norm2(v), root);
    DifferenceMix(x, y, pts1, pts2, t);
  }

  ghost predicate IsCornerNorm(n: real, pts1: seq<Vec>, pts2: seq<Vec>) {
    exists x: Vec :: IsCorner(x, pts1, pts2) && n == Norm2(x)
  }

  /** The largest squared vertex norm seen so far. */
  method UpdateMaxNorm(s: Simplex, norm2Wmax: real, ghost pts1: seq<Vec>, ghost pts2: seq<Vec>) returns (m: real)
    requires s.Valid() && s.nvrtx > 0 && AreCorners(s.Verts(), pts1, pts2)
    requires norm2Wmax >= 0.0 && (norm2Wmax == 0.0 || IsCornerNorm(norm2Wmax, pts1, pts2))
    ensures m >= 0.0 && IsCornerNorm(m, pts1, pts2)
    ensures m >= norm2Wmax && forall i :: 0 <= i < s.nvrtx ==> Norm2(s.Verts()[i]) <= m
  {
    hide Norm2, IsCorner, IsCornerNorm, Dot, Sub, Add, Scale, Cross;
    ghost var verts := s.Verts();
    m := norm2Wmax;
    for jj := 0 to s.nvrtx
      invariant m >= norm2Wmax && (m == 0.0 || IsCornerNorm(m, pts1, pts2))
      invariant forall i :: 0 <= i < jj ==> Norm2(verts[i]) <= m
    {
      var tesnorm := Norm2(s.vrtx[jj]);
      CornerNormOf(verts[jj], pts1, pts2);
      if tesnorm > m {
        m := tesnorm;
      }
    }
    if m == 0.0 {
      Norm2IsDot(verts[0]);
      CornerNormOf(verts[0], pts1, pts2);
    }
  }

  lemma CornerNormOf(x: Vec, pts1: seq<Vec>, pts2: seq<Vec>)
    requires IsCorner(x, pts1, pts2)
    ensures IsCornerNorm(Norm2(x), pts1, pts2)
  {}

  // ----- the loop

  /** The vertex difference furthest against v. */
  method SupportPoint(bd1: Polytope, bd2: Polytope, v: Vec) returns (w: Vec)
    requires bd1 != bd2 && bd1.s in Extremes(bd1.coord) && bd2.s in Extremes(bd2.coord)
    modifies bd1, bd2
    ensures bd1.s in Extremes(bd1.coord) && bd2.s in Extremes(bd2.coord)
    ensures IsSupport(w, v, bd1.coord, bd2.coord)
  {
    hide Dot, Norm2, Scale, Sub, Extremes;
    var vminus := Scale(-1.0, v);
    Support(bd1, vminus);
    Support(bd2, v);
    w := Sub(bd1.s, bd2.s);
    forall j | 0 <= j < |bd1.coord|
      ensures Dot(v, bd1.coord[j]) >= Dot(v, bd1.s)
    {
      DotScale(bd1.coord[j], -1.0, v);
      DotScale(bd1.s, -1.0, v);
      DotCommutes(bd1.coord[j], v);
      DotCommutes(bd1.s, v);
    }
    forall j | 0 <= j < |bd2.coord|
      ensures Dot(v, bd2.coord[j]) <= Dot(v, bd2.s)
    {
      DotCommutes(bd2.coord[j], v);
      DotCommutes(bd2.s, v);
    }
  }

  /** The simplex starts with the difference of the first vertices. */
  method FirstDifference(bd1: Polytope, bd2: Polytope, s: Simplex) returns (v: Vec)
    requires bd1 != bd2 && |bd1.coord| > 0 && |bd2.coord| > 0 && s.vrtx.Length == 4
    modifies bd1, bd2, s, s.vrtx
    ensures s.Valid() && s.nvrtx == 1 && bd1.s in Extremes(bd1.coord) && bd2.s in Extremes(bd2.coord)
    ensures IsRun([Iterate(s.Verts(), v)], [], bd1.coord, bd2.coord)
  {
    hide Sub, Extremes, IsStep;
    v := Sub(bd1.coord[0], bd2.coord[0]);
    s.nvrtx := 1;
    s.vrtx[0] := v;
    bd1.s := bd1.coord[0];
    bd2.s := bd2.coord[0];
    assert s.Verts() == [v];
    FirstIsCorner(bd1.coord, bd2.coord);
  }

  /** The part of an iteration that adds the support point and runs the sub-algorithm. */
  method Refine(s: Simplex, v: Vec, w: Vec, ghost pts1: seq<Vec>, ghost pts2: seq<Vec>) returns (v': Vec)
    requires s.Valid() && IsSound(Iterate(s.Verts(), v), pts1, pts2) && IsSupport(w, v, pts1, pts2)
    requires !ClosesGap(Norm2(v) - Dot(v, w), Norm2(v))
    modifies s, s.vrtx
    ensures s.Valid() && IsStep(Iterate(old(s.Verts()), v), old(s.Verts()) + [w], Iterate(s.Verts(), v'), pts1, pts2)
    ensures s.nvrtx == 4 ==> v' == Zero
  {
    hide Dot, Norm2, Independent, Supports, AreCorners, IsSupport, ClosesGap, Reduces, Bounds, InCone, IsMisjudged,
         OnlyInner, KeepsInner, SegmentKept, TriangleKept;
    ghost var verts := s.Verts();
    OpenGap(Norm2(v) - Dot(v, w), Norm2(v));
    AddedVertexIsIndependent(verts, v, w);
    s.vrtx[s.nvrtx] := w;
    s.nvrtx := s.nvrtx + 1;
    assert s.Verts() == verts + [w];
    v' := Subalgorithm(s, v);
    assert (verts + [w])[..|verts|] == verts;
  }

  lemma RunGrows(run: seq<Iterate>, simplices: seq<seq<Vec>>, simplex: seq<Vec>, next: Iterate, pts1: seq<Vec>,
                 pts2: seq<Vec>)
    requires IsRun(run, simplices, pts1, pts2) && IsStep(run[|simplices|], simplex, next, pts1, pts2)
    ensures IsRun(run + [next], simplices + [simplex], pts1, pts2)
  {
    hide IsStep;
  }

  /** How the loop was left, with v at its end after n reductions. */
  ghost predicate IsExit(exit: Exit, v: Vec, n: nat, wmax: real, pts1: seq<Vec>, pts2: seq<Vec>) {
    match exit
    case GapClosed => Certifies(v, pts1, pts2)
    case NullVector => IsNull(Norm2(v))
    case SmallVector => IsSmall(Norm2(v), wmax) && IsCornerNorm(wmax, pts1, pts2)
    case IterationLimit => n == MAX_ITERATIONS
  }

  method ComputeMinimumDistance(bd1: Polytope, bd2: Polytope, s: Simplex, root: real -> real)
    returns (d: real, ghost exit: Exit, ghost run: seq<Iterate>, ghost simplices: seq<seq<Vec>>, ghost wmax: real)
    requires bd1 != bd2 && |bd1.coord| > 0 && |bd2.coord| > 0 && s.vrtx.Length == 4 && IsSquareRoot(root)
    modifies bd1, bd2, s, s.vrtx
    // a run of at most 25 reductions, left through one of the exits; the result is the length of its last v
    ensures IsRun(run, simplices, bd1.coord, bd2.coord) && |simplices| <= MAX_ITERATIONS
    ensures d >= 0.0 && d * d == Norm2(run[|simplices|].v)
    ensures IsExit(exit, run[|simplices|].v, |simplices|, wmax, bd1.coord, bd2.coord)
    // two points of the bodies are that far apart, and unless the limit ended the run, no two are closer
    ensures IsAttained(d, bd1.coord, bd2.coord)
    ensures !exit.IterationLimit? ==> IsDistance(d, bd1.coord, bd2.coord)
    ensures IsLink(bd1.coord) && IsLink(bd2.coord) ==>
      !exit.IterationLimit? && |simplices| <= 10 && NeverFour(simplices)
  {
    hide Dot, Norm2, Sub, Scale, Add, IsCorner, AreCorners, Extremes, IsLink, Independent, Supports, IsCornerNorm,
         Certifies, IsRun, IsStep, IsSupport, NeverFour, IsDistance, IsAttained, ClosesGap, IsNull, IsSmall;
    ghost var pts1, pts2 := bd1.coord, bd2.coord;
    var k := 0;
    var norm2Wmax := 0.0;
    var v := FirstDifference(bd1, bd2, s);
    run, simplices, exit := [Iterate(s.Verts(), v)], [], IterationLimit;
    while true
      invariant s.Valid() && 1 <= s.nvrtx <= 3 && k == |simplices| < MAX_ITERATIONS
      invariant bd1.s in Extremes(pts1) && bd2.s in Extremes(pts2)
      invariant IsRun(run, simplices, pts1, pts2) && |run| == k + 1 && run[k] == Iterate(s.Verts(), v)
      invariant norm2Wmax >= 0.0 && (norm2Wmax == 0.0 || IsCornerNorm(norm2Wmax, pts1, pts2))
      decreases MAX_ITERATIONS - k
    {
      RunIsSound(run, simplices, pts1, pts2, k);
      k := k + 1;
      var w := SupportPoint(bd1, bd2, v);

      var exeedtol_rel := Norm2(v) - Dot(v, w);
      if ClosesGap(exeedtol_rel, Norm2(v)) {
        exit := GapClosed;
        GapTestCertifies(v, w, pts1, pts2);
        break;
      }
      if IsNull(Norm2(v)) {
        exit := NullVector;
        break;
      }

      ghost var simplex := s.Verts() + [w];
      v := Refine(s, v, w, pts1, pts2);
      RunGrows(run, simplices, simplex, Iterate(s.Verts(), v), pts1, pts2);
      run, simplices := run + [Iterate(s.Verts(), v)], simplices + [simplex];
      RunIsSound(run, simplices, pts1, pts2, k);

      norm2Wmax := UpdateMaxNorm(s, norm2Wmax, pts1, pts2);
      ZeroIsSmall(norm2Wmax);
      if IsSmall(Norm2(v), norm2Wmax) {
        exit := SmallVector;
        break;
      }
      if !(s.nvrtx != 4 && k != MAX_ITERATIONS) {
        break;
      }
    }
    wmax := norm2Wmax;
    Norm2IsDot(v);
    d := root(Norm2(v));
    RunIsAttained(run, simplices, pts1, pts2, |simplices|, d, root);
    if !exit.IterationLimit? {
      ExitsAreAccurate(d, v, exit, |simplices|, wmax, pts1, pts2);
    }
    if IsLink(pts1) && IsLink(pts2) {
      LinkRuns(run, simplices, pts1, pts2);
    }
  }

  lemma ZeroIsSmall(n: real)
    requires n >= 0.0
    ensures IsSmall(Norm2(Zero), n)
  {}

  lemma CornerIsCorner(w: Vec, p: Vec, q: Vec, pts1: seq<Vec>, pts2: seq<Vec>)
    requires p in Extremes(pts1) && q in Extremes(pts2) && w == Sub(p, q)
    ensures IsCorner(w, pts1, pts2)
  {}

  // ----- the distance

  ghost function Larger(a: real, b: real): real {
    if a < b then b else a
  }

  /** How far a squared result n may lie above the true squared distance, for vertices of squared norm up to w. */
  ghost function Slack(n: real, w: real): real {
    Larger(2.0 * Tolerance(n), Larger(EPS_REL * EPS_REL, EPS_TOT * EPS_TOT * w))
  }

  /** The tolerances in figures: for squared distances and vertex norms up to 100 the slack stays below 10^-9. */
  lemma SlackIsSmall(n: real, w: real)
    requires 0.0 <= n <= 100.0 && 0.0 <= w <= 100.0
    ensures 4503599627370496.0 * EPS_TOT == 100.0 && 4503599627370496.0 * EPS_REL == 10000.0
    ensures 0.00000000000004 <= Slack(n, w) <= 0.000000001
  {
    hide EPS_REL, EPS_TOT;
    TolerancesAre();
    MulMonotone(n, EPS_REL, 0.0000000000023, n * EPS_REL, n * 0.0000000000023);
    MulMonotone(EPS_REL, EPS_REL, 0.1, EPS_REL * EPS_REL, EPS_REL * 0.1);
    MulMonotone(EPS_TOT, EPS_TOT, 0.1, EPS_TOT * EPS_TOT, EPS_TOT * 0.1);
    MulNonNeg(EPS_TOT, EPS_TOT, EPS_TOT * EPS_TOT);
    MulMonotone(EPS_TOT * EPS_TOT, w, 100.0, EPS_TOT * EPS_TOT * w, EPS_TOT * EPS_TOT * 100.0);
  }

  lemma TolerancesAre()
    ensures 4503599627370496.0 * EPS_TOT == 100.0 && 4503599627370496.0 * EPS_REL == 10000.0
    ensures 0.000000000000022 < EPS_TOT < 0.000000000000023 && 0.0000000000022 < EPS_REL < 0.0000000000023
  {}

  /** d is the distance of two points of the hulls, and no two points are closer than the slack allows. */
  ghost predicate IsDistance(d: real, pts1: seq<Vec>, pts2: seq<Vec>) {
    && d >= 0.0
    && IsAttained(d, pts1, pts2)
    && (exists w: real :: IsCornerNorm(w, pts1, pts2) &&
         forall x: Vec, y: Vec :: InHull(x, pts1) && InHull(y, pts2) ==> Norm2(Sub(x, y)) >= d * d - Slack(d * d, w))
  }

  method CalculateDistance(link1: seq<Vec>, link2: seq<Vec>, root: real -> real) returns (dd: real)
    requires |link1| > 0 && |link2| > 0 && IsSquareRoot(root)
    ensures dd >= 0.0 && IsAttained(dd, link1, link2)
    ensures IsLink(link1) && IsLink(link2) ==> IsDistance(dd, link1, link2)
  {
    hide Norm2, IsLink, IsExit, IsRun, IsDistance, IsAttained, NeverFour;
    var lk1 := new Polytope(link1);
    var lk2 := new Polytope(link2);
    var s := new Simplex();
    ghost var exit: Exit, run: seq<Iterate>, simplices: seq<seq<Vec>>, wmax: real;
    dd, exit, run, simplices, wmax := ComputeMinimumDistance(lk1, lk2, s, root);
  }

  lemma ExitsAreAccurate(d: real, v: Vec, exit: Exit, n: nat, wmax: real, pts1: seq<Vec>, pts2: seq<Vec>)
    requires |pts1| > 0 && |pts2| > 0 && d >= 0.0 && d * d == Norm2(v) && IsAttained(d, pts1, pts2)
    requires IsExit(exit, v, n, wmax, pts1, pts2) && !exit.IterationLimit?
    ensures IsDistance(d, pts1, pts2)
  {
    hide Dot, Norm2, Sub, InHull, IsAttained, Certifies, EPS_REL, EPS_TOT, Tolerance, IsCorner;
    var p, q := pts1[0], pts2[0];
    assert p in Extremes(pts1) && q in Extremes(pts2);
    CornerIsCorner(Sub(p, q), p, q, pts1, pts2);
    var w := if exit.SmallVector? then wmax else Norm2(Sub(p, q));
    assert IsCornerNorm(w, pts1, pts2);
    forall x: Vec, y: Vec | InHull(x, pts1) && InHull(y, pts2)
      ensures Norm2(Sub(x, y)) >= d * d - Slack(d * d, w)
    {
      Norm2IsDot(Sub(x, y));
      if exit.GapClosed? {
        CertifiedIsNearlyNearest(v, x, y, pts1, pts2);
      }
    }
  }
}
