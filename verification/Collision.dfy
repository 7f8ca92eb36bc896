/** Clearance between the two arms (redundancy_resolution.cpp, lines 398-424): each link of one arm
    against every link of the other. */
module Collision {
  import opened Vectors
  import opened ConvexHull
  import opened Gjk
  import opened GjkDistance
  import opened Kinematics

  /** The three columns the code hands to the distance routine: joint i, the midpoint, joint i + 1. */
  function ArmLink(positions: seq<Vec>, i: nat): seq<Vec>
    requires i + 1 < |positions|
  {
    [positions[i], Scale(0.5, Add(positions[i], positions[i + 1])), positions[i + 1]]
  }

  lemma ArmLinkIsLink(positions: seq<Vec>, i: nat)
    requires i + 1 < |positions|
    ensures IsLink(ArmLink(positions, i))
  {}

  ghost predicate AreDistances(distances: seq<real>, link: seq<Vec>, others: seq<Vec>) {
    |distances| < |others| && forall j :: 0 <= j < |distances| ==> IsDistance(distances[j], link, ArmLink(others, j))
  }

  /** d is the least of the limit and the distances from the link to the first links of the other arm. */
  ghost predicate IsLeast(d: real, distances: seq<real>, limit: real) {
    && d <= limit
    && (forall j :: 0 <= j < |distances| ==> d <= distances[j])
    && (d == limit || d in distances)
  }

  ghost predicate IsClearance(d: real, link: seq<Vec>, others: seq<Vec>, limit: real) {
    exists distances: seq<real> :: |distances| == 7 && AreDistances(distances, link, others)
      && IsLeast(d, distances, limit)
  }

  /** The joint positions of one arm, as a matrix of eight columns. */
  ghost function Positions(m: Trig, q: seq<real>, isRightArm: bool): (positions: seq<Vec>)
    requires |q| == 17
    ensures |positions| == 8
  {
    seq(8, i requires 0 <= i < 8 => JointPosition(m, q, isRightArm, i))
  }

  method LinkClearance(link: seq<Vec>, others: seq<Vec>, limit: real, root: real -> real) returns (least: real)
    requires IsLink(link) && |others| == 8 && IsSquareRoot(root)
    ensures IsClearance(least, link, others, limit)
  {
    hide IsDistance, Scale, Add;
    least := limit;
    ghost var distances: seq<real> := [];
    for j := 0 to 7
      invariant |distances| == j && AreDistances(distances, link, others) && IsLeast(least, distances, limit)
    {
      ArmLinkIsLink(others, j);
      var dist := CalculateDistance(link, ArmLink(others, j), root);
      least := if dist < least then dist else least;
      distances := distances + [dist];
    }
  }

  method CollisionAvoidanceDistances(m: Trig, q: seq<real>, isRightArm: bool, limit: real, root: real -> real)
    returns (minDistances: array<real>)
    requires |q| == 17 && IsSquareRoot(root)
    ensures fresh(minDistances) && minDistances.Length == 7
    ensures forall i :: 0 <= i < 7 ==>
      IsClearance(minDistances[i], ArmLink(Positions(m, q, isRightArm), i), Positions(m, q, !isRightArm), limit)
  {
    hide JointPosition, IsClearance, ArmLink;
    minDistances := new real[7](_ => limit);
    var columns := GetJointsPositions(m, q, isRightArm);
    var columnsOther := GetJointsPositions(m, q, !isRightArm);
    var positions, others := columns[..], columnsOther[..];
    assert positions == Positions(m, q, isRightArm) && others == Positions(m, q, !isRightArm);
    for i := 0 to 7
      invariant forall k :: 0 <= k < i ==> IsClearance(minDistances[k], ArmLink(positions, k), others, limit)
    {
      ArmLinkIsLink(positions, i);
      minDistances[i] := LinkClearance(ArmLink(positions, i), others, limit, root);
    }
  }

  // ----- what a clearance means for the arms

  /** n minus its slack grows with n, so the least distance has the least guarantee. */
  lemma SlackIsMonotone(n: real, n': real, w: real)
    requires 0.0 <= n <= n'
    ensures n - Slack(n, w) <= n' - Slack(n', w)
  {}

  ghost predicate IsBetween(x: Vec, p: Vec, q: Vec) {
    exists t: real :: 0.0 <= t <= 1.0 && x == Lerp(p, q, t)
  }

  /** x lies on the straight line from joint i to joint i + 1. */
  ghost predicate OnSegment(x: Vec, positions: seq<Vec>, i: nat)
    requires i + 1 < |positions|
  {
    IsBetween(x, positions[i], positions[i + 1])
  }

  lemma SegmentInHull(x: Vec, positions: seq<Vec>, i: nat)
    requires i + 1 < |positions| && OnSegment(x, positions, i)
    ensures InHull(x, ArmLink(positions, i))
  {
    hide InHull, Lerp, Scale, Add;
    var t :| 0.0 <= t <= 1.0 && x == Lerp(positions[i], positions[i + 1], t);
    var link := ArmLink(positions, i);
    HullMember(0, link);
    HullMember(2, link);
    HullMix(link[0], link[2], link, t);
  }

  /** The midpoint adds nothing: the hull of a link is the line between its two joints. */
  lemma HullIsSegment(x: Vec, positions: seq<Vec>, i: nat)
    requires i + 1 < |positions| && InHull(x, ArmLink(positions, i))
    ensures OnSegment(x, positions, i)
  {
    hide Lerp, Scale, Add, Sum, Combo;
    var p, q := positions[i], positions[i + 1];
    var w :| IsWeighting(w, 3) && x == Combo(w, ArmLink(positions, i));
    UnfoldThree(w, p, Scale(0.5, Add(p, q)), q);
    var t := 0.5 * w[1] + w[2];
    MidpointFolds(w[0], w[1], w[2], p, q, t);
    assert 0.0 <= t <= 1.0;
  }

  lemma MidpointFolds(a: real, b: real, c: real, p: Vec, q: Vec, t: real)
    requires a + b + c == 1.0 && t == 0.5 * b + c
    ensures Add(Scale(a, p), Add(Scale(b, Scale(0.5, Add(p, q))), Add(Scale(c, q), Zero))) == Lerp(p, q, t)
  {
    hide Lerp, Mixed;
    LerpIsMixed(p, q, t);
    MidpointFoldsAt(a, b, c, p.x, q.x, t);
    MidpointFoldsAt(a, b, c, p.y, q.y, t);
    MidpointFoldsAt(a, b, c, p.z, q.z, t);
  }

  lemma MidpointFoldsAt(a: real, b: real, c: real, p: real, q: real, t: real)
    requires a + b + c == 1.0 && t == 0.5 * b + c
    ensures a * p + (b * (0.5 * (p + q)) + (c * q + 0.0)) == Mixed(p, q, t)
  {}

  /** No point of link i comes closer to any link of the other arm than the clearance, up to the slack;
      and unless the clearance is the limit, two points of the links are exactly that far apart. */
  lemma ClearanceSeparates(d: real, positions: seq<Vec>, i: nat, others: seq<Vec>, limit: real)
    requires |positions| == |others| == 8 && i < 7 && limit >= 0.0
    requires IsClearance(d, ArmLink(positions, i), others, limit)
    ensures d >= 0.0
    ensures forall j :: 0 <= j < 7 ==> KeepsAway(d, positions, i, others, j)
    ensures d == limit || exists j :: 0 <= j < 7 && Touches(d, positions, i, others, j)
  {
    hide IsDistance, ArmLink, KeepsAway, Touches;
    var link := ArmLink(positions, i);
    var distances :| |distances| == 7 && AreDistances(distances, link, others) && IsLeast(d, distances, limit);
    forall j | 0 <= j < 7
      ensures distances[j] >= 0.0 && d <= distances[j] && Touches(distances[j], positions, i, others, j)
    {
      DistanceIsTouched(distances[j], positions, i, others, j);
    }
    if d != limit {
      var j :| 0 <= j < 7 && distances[j] == d;
      assert Touches(d, positions, i, others, j);
    }
    forall j | 0 <= j < 7
      ensures KeepsAway(d, positions, i, others, j)
    {
      DistanceKeepsAway(d, distances[j], positions, i, others, j);
    }
  }

  /** Every two points of the two segments are at least d apart, up to the slack. */
  ghost predicate KeepsAway(d: real, positions: seq<Vec>, i: nat, others: seq<Vec>, j: nat)
    requires i + 1 < |positions| && j + 1 < |others|
  {
    exists w: real :: IsCornerNorm(w, ArmLink(positions, i), ArmLink(others, j)) &&
      forall x: Vec, y: Vec :: OnSegment(x, positions, i) && OnSegment(y, others, j) ==>
        Norm2(Sub(x, y)) >= d * d - Slack(d * d, w)
  }

  /** Some two points of the links are exactly d apart. */
  ghost predicate Touches(d: real, positions: seq<Vec>, i: nat, others: seq<Vec>, j: nat)
    requires i + 1 < |positions| && j + 1 < |others|
  {
    exists x: Vec, y: Vec :: OnSegment(x, positions, i) && OnSegment(y, others, j) && Norm2(Sub(x, y)) == d * d
  }

  lemma DistanceIsTouched(d: real, positions: seq<Vec>, i: nat, others: seq<Vec>, j: nat)
    requires i + 1 < |positions| && j + 1 < |others|
    requires IsDistance(d, ArmLink(positions, i), ArmLink(others, j))
    ensures d >= 0.0 && Touches(d, positions, i, others, j)
  {
    hide InHull, Norm2, Sub, OnSegment, ArmLink, IsCornerNorm, Slack;
    var v :| IsDifference(v, ArmLink(positions, i), ArmLink(others, j)) && Norm2(v) == d * d;
    var x, y :| InHull(x, ArmLink(positions, i)) && InHull(y, ArmLink(others, j)) && v == Sub(x, y);
    HullIsSegment(x, positions, i);
    HullIsSegment(y, others, j);
  }

  lemma DistanceKeepsAway(d: real, d': real, positions: seq<Vec>, i: nat, others: seq<Vec>, j: nat)
    requires 0.0 <= d <= d' && i + 1 < |positions| && j + 1 < |others|
    requires IsDistance(d', ArmLink(positions, i), ArmLink(others, j))
    ensures KeepsAway(d, positions, i, others, j)
  {
    hide InHull, Norm2, Sub, OnSegment, ArmLink, IsCornerNorm, Slack, IsDifference;
    var pts1, pts2 := ArmLink(positions, i), ArmLink(others, j);
    var w :| IsCornerNorm(w, pts1, pts2) &&
      forall x: Vec, y: Vec :: InHull(x, pts1) && InHull(y, pts2) ==> Norm2(Sub(x, y)) >= d' * d' - Slack(d' * d', w);
    SquareNonNeg(d);
    MulMonotone(d, d, d', d * d, d * d');
    MulMonotone(d', d, d', d' * d, d' * d');
    SlackIsMonotone(d * d, d' * d', w);
    forall x: Vec, y: Vec | OnSegment(x, positions, i) && OnSegment(y, others, j)
      ensures Norm2(Sub(x, y)) >= d * d - Slack(d * d, w)
    {
      SegmentInHull(x, positions, i);
      SegmentInHull(y, others, j);
    }
  }
}
