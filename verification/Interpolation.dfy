/** Piecewise-linear interpolation of waypoints: the bisecting form of impedance_bridge_node.py
    (lines 152-172) against a plain scan. */
module Interpolation {
  import opened Basics
  import opened Vectors

  ghost predicate Sorted(times: seq<real>) {
    forall i, j :: 0 <= i <= j < |times| ==> times[i] <= times[j]
  }

  /** bisect.bisect_right on a[lo..hi]. */
  function BisectRight(a: seq<real>, x: real, lo: nat, hi: nat): (r: nat)
    requires lo <= hi <= |a|
    ensures lo <= r <= hi
    decreases hi - lo
  {
    if lo == hi then lo else
      var mid := (lo + hi) / 2;
      if x < a[mid] then BisectRight(a, x, lo, mid) else BisectRight(a, x, mid + 1, hi)
  }

  /** In a sorted list it separates the entries up to x from those beyond. */
  lemma {:induction false} BisectSeparates(a: seq<real>, x: real, lo: nat, hi: nat)
    requires Sorted(a) && lo <= hi <= |a|
    requires (forall i :: 0 <= i < lo ==> a[i] <= x) && (forall i :: hi <= i < |a| ==> x < a[i])
    ensures var r := BisectRight(a, x, lo, hi);
      (forall i :: 0 <= i < r ==> a[i] <= x) && (forall i :: r <= i < |a| ==> x < a[i])
    decreases hi - lo
  {
    if lo < hi {
      var mid := (lo + hi) / 2;
      if x < a[mid] {
        BisectSeparates(a, x, lo, mid);
      } else {
        BisectSeparates(a, x, mid + 1, hi);
      }
    }
  }

  // ----- joint names

  /** dict(zip(names, positions))[name]: the last entry of that name. */
  function Lookup(names: seq<string>, positions: seq<real>, name: string): Option<real> {
    var n := Min(|names|, |positions|);
    if n == 0 then None
    else if names[n - 1] == name then Some(positions[n - 1])
    else Lookup(names[..n - 1], positions[..n - 1], name)
  }

  /** The positions in the controller's order, or a missing key. */
  function Reorder(order: seq<string>, names: seq<string>, positions: seq<real>): Option<seq<real>> {
    if forall j :: 0 <= j < |order| ==> Lookup(names, positions, order[j]).Some? then
      Some(seq(|order|, j requires 0 <= j < |order| => Lookup(names, positions, order[j]).value))
    else None
  }

  /** The last place of a name in a list. */
  ghost function LastIndex(names: seq<string>, name: string): (i: nat)
    requires name in names
    ensures i < |names| && names[i] == name && name !in names[i + 1..]
  {
    var n := |names| - 1;
    if names[n] == name then n else
      assert name in names[..n];
      var i := LastIndex(names[..n], name);
      assert names[i + 1..] == names[..n][i + 1..] + [names[n]];
      i
  }

  /** The names that have a position. */
  ghost function Zipped(names: seq<string>, positions: seq<real>): (n: seq<string>)
    ensures n <= names && |n| <= |positions| && (|positions| == |names| ==> n == names)
  {
    names[..Min(|names|, |positions|)]
  }

  lemma {:induction false} LookupIsLast(names: seq<string>, positions: seq<real>, name: string)
    ensures Lookup(names, positions, name).Some? <==> name in Zipped(names, positions)
    ensures name in Zipped(names, positions) ==>
      Lookup(names, positions, name).value == positions[LastIndex(Zipped(names, positions), name)]
  {
    var n := Min(|names|, |positions|);
    if n > 0 {
      var front := Zipped(names, positions)[..n - 1];
      assert Zipped(names[..n - 1], positions[..n - 1]) == front;
      assert Zipped(names, positions) == front + [names[n - 1]];
      LookupIsLast(names[..n - 1], positions[..n - 1], name);
    }
  }

  /** The reordering fails if and only if some name of the order has no position; otherwise entry j is the position
      listed last under the name order[j]. */
  lemma ReorderPicks(order: seq<string>, names: seq<string>, positions: seq<real>)
    ensures var r, zipped := Reorder(order, names, positions), Zipped(names, positions);
      && (r.Some? <==> forall j :: 0 <= j < |order| ==> order[j] in zipped)
      && (r.Some? ==> |r.value| == |order| && forall j :: 0 <= j < |order| ==>
            r.value[j] == positions[LastIndex(zipped, order[j])])
  {
    hide Lookup, LastIndex, Zipped;
    forall j | 0 <= j < |order|
      ensures var zipped := Zipped(names, positions);
        && (Lookup(names, positions, order[j]).Some? <==> order[j] in zipped)
        && (order[j] in zipped ==> Lookup(names, positions, order[j]).value == positions[LastIndex(zipped, order[j])])
    {
      LookupIsLast(names, positions, order[j]);
    }
  }

  lemma {:induction false} LookupFinds(names: seq<string>, positions: seq<real>, name: string, i: nat)
    requires AreDistinct(names) && |names| == |positions| && i < |names| && names[i] == name
    ensures Lookup(names, positions, name) == Some(positions[i])
  {
    if i < |names| - 1 {
      LookupFinds(names[..|names| - 1], positions[..|names| - 1], name, i);
    }
  }

  lemma {:induction false} LookupMisses(names: seq<string>, positions: seq<real>, name: string)
    requires name !in names
    ensures Lookup(names, positions, name) == None
  {
    var n := Min(|names|, |positions|);
    if n > 0 {
      LookupMisses(names[..n - 1], positions[..n - 1], name);
    }
  }

  /** names' are the same names in another order: each is found at a place of its own, and none is left out. */
  ghost predicate IsReordering(names: seq<string>, names': seq<string>, place: seq<nat>) {
    && |names| == |names'| == |place| && AreDistinct(names) && AreDistinct(names')
    && (forall i :: 0 <= i < |place| ==> place[i] < |names| && names'[i] == names[place[i]])
    && (forall i :: 0 <= i < |names| ==> names[i] in names')
  }

  /** The positions go with their names. */
  ghost predicate GoesAlong(positions: seq<real>, positions': seq<real>, place: seq<nat>) {
    && |positions| == |positions'| == |place|
    && forall i :: 0 <= i < |place| ==> place[i] < |positions| && positions'[i] == positions[place[i]]
  }

  /** The same named positions in another order are reordered to the same list. */
  lemma OrderDoesNotMatter(order: seq<string>, names: seq<string>, positions: seq<real>,
                           names': seq<string>, positions': seq<real>, place: seq<nat>)
    requires IsReordering(names, names', place) && GoesAlong(positions, positions', place)
    ensures Reorder(order, names, positions) == Reorder(order, names', positions')
  {
    forall j | 0 <= j < |order|
      ensures Lookup(names, positions, order[j]) == Lookup(names', positions', order[j])
    {
      if i :| 0 <= i < |names'| && names'[i] == order[j] {
        LookupFinds(names', positions', order[j], i);
        LookupFinds(names, positions, order[j], place[i]);
      } else {
        LookupMisses(names', positions', order[j]);
        LookupMisses(names, positions, order[j]);
      }
    }
    if Reorder(order, names, positions).Some? {
      assert Reorder(order, names, positions).value == Reorder(order, names', positions').value;
    }
  }

  // ----- the two forms of interpolation

  function Segment(t0: real, t1: real, a: real, b: real, t: real): real {
    var alpha := if t1 == t0 then 0.0 else (t - t0) / (t1 - t0);
    a + alpha * (b - a)
  }

  function InterpolateAt(order: seq<string>, names: seq<string>, points: seq<seq<real>>, times: seq<real>,
                         t: real): Option<seq<real>>
    requires |points| == |times| > 0
  {
    if t <= times[0] then Reorder(order, names, points[0])
    else if t >= times[|times| - 1] then Reorder(order, names, points[|times| - 1])
    else
      var i := BisectRight(times, t, 0, |times|) - 1;
      var idx := Max(0, Min(i, |times| - 2));
      var p0, p1 := Reorder(order, names, points[idx]), Reorder(order, names, points[idx + 1]);
      if p0.None? || p1.None? then None
      else Some(seq(|order|, j requires 0 <= j < |order| => Segment(times[idx], times[idx + 1], p0.value[j],
        p1.value[j], t)))
  }

  /** A trajectory that lists its joints in another order, at every waypoint, is interpolated to the same positions. */
  lemma TrajectoryOrderDoesNotMatter(order: seq<string>, names: seq<string>, points: seq<seq<real>>,
                                     names': seq<string>, points': seq<seq<real>>, place: seq<nat>, times: seq<real>,
                                       t: real)
    requires |points| == |points'| == |times| > 0 && IsReordering(names, names', place)
    requires forall k :: 0 <= k < |points| ==> GoesAlong(points[k], points'[k], place)
    ensures InterpolateAt(order, names, points, times, t) == InterpolateAt(order, names', points', times, t)
  {
    hide IsReordering, GoesAlong, Reorder, Segment;
    forall k | 0 <= k < |points|
      ensures Reorder(order, names, points[k]) == Reorder(order, names', points'[k])
    {
      OrderDoesNotMatter(order, names, points[k], names', points'[k], place);
    }
  }

  /** Linear interpolation of one joint's values, scanning for the segment. */
  ghost function Scan(times: seq<real>, v: seq<real>, t: real): real
    requires |times| == |v| >= 2 && times[0] <= t < times[|times| - 1]
  {
    if t < times[1] then v[0] + (t - times[0]) / (times[1] - times[0]) * (v[1] - v[0])
    else Scan(times[1..], v[1..], t)
  }

  /** The piecewise-linear curve through the waypoints, held constant before the first and after the last. */
  ghost function LinearAt(times: seq<real>, v: seq<real>, t: real): real
    requires |times| == |v| > 0
  {
    if t <= times[0] then v[0]
    else if t >= times[|times| - 1] then v[|times| - 1]
    else Scan(times, v, t)
  }

  lemma {:induction false} ScanFindsSegment(times: seq<real>, v: seq<real>, t: real, k: nat)
    requires |times| == |v| && Sorted(times) && k + 1 < |times| && times[k] <= t < times[k + 1]
    ensures times[0] <= t < times[|times| - 1] && Scan(times, v, t)
      == Segment(times[k], times[k + 1], v[k], v[k + 1], t)
    decreases k
  {
    if k > 0 {
      ScanFindsSegment(times[1..], v[1..], t, k - 1);
    }
  }

  /** Every waypoint has a position for every joint of the controller. */
  ghost predicate AllNamed(order: seq<string>, names: seq<string>, points: seq<seq<real>>) {
    forall k, j :: 0 <= k < |points| && 0 <= j < |order| ==> order[j] in Zipped(names, points[k])
  }

  /** The values of joint j at the waypoints, each listed last under its name. */
  ghost function Column(order: seq<string>, names: seq<string>, points: seq<seq<real>>, j: nat): (v: seq<real>)
    requires AllNamed(order, names, points) && j < |order|
    ensures |v| == |points|
    ensures forall k :: 0 <= k < |v| ==> v[k] == points[k][LastIndex(Zipped(names, points[k]), order[j])]
  {
    seq(|points|, k requires 0 <= k < |points| => points[k][LastIndex(Zipped(names, points[k]), order[j])])
  }

  /** For distinct names with a position each, it is the column of the name. */
  lemma ColumnIsRaw(order: seq<string>, names: seq<string>, points: seq<seq<real>>, j: nat, i: nat)
    requires AreDistinct(names) && (forall k :: 0 <= k < |points| ==> |points[k]| == |names|)
    requires AllNamed(order, names, points) && j < |order| && i < |names| && names[i] == order[j]
    ensures forall k :: 0 <= k < |points| ==> Column(order, names, points, j)[k] == points[k][i]
  {}

  lemma ColumnIsReordered(order: seq<string>, names: seq<string>, points: seq<seq<real>>, k: nat)
    requires AllNamed(order, names, points) && k < |points|
    ensures var r := Reorder(order, names, points[k]);
      && r.Some? && |r.value| == |order|
      && forall j :: 0 <= j < |order| ==> r.value[j] == Column(order, names, points, j)[k]
  {
    hide Reorder, LastIndex, Zipped;
    ReorderPicks(order, names, points[k]);
  }

  lemma SegmentOf(times: seq<real>, t: real) returns (k: nat)
    requires Sorted(times) && |times| > 0 && times[0] <= t < times[|times| - 1]
    ensures k == BisectRight(times, t, 0, |times|) - 1 && k + 1 < |times| && times[k] <= t < times[k + 1]
  {
    BisectSeparates(times, t, 0, |times|);
    k := BisectRight(times, t, 0, |times|) - 1;
  }

  /** For waypoints in order of time, the bisecting form computes the piecewise-linear curve of every joint. */
  lemma BisectionIsLinear(order: seq<string>, names: seq<string>, points: seq<seq<real>>, times: seq<real>, t: real)
    requires |points| == |times| > 0 && Sorted(times) && AllNamed(order, names, points)
    ensures InterpolateAt(order, names, points, times, t).Some?
    ensures var r := InterpolateAt(order, names, points, times, t).value;
      |r| == |order| && forall j :: 0 <= j < |order| ==> r[j] == LinearAt(times, Column(order, names, points, j), t)
  {
    hide Reorder, Column, BisectRight, Scan, Segment, AllNamed, LastIndex, Zipped;
    var n := |times| - 1;
    ColumnIsReordered(order, names, points, 0);
    ColumnIsReordered(order, names, points, n);
    if times[0] < t < times[n] {
      var k := SegmentOf(times, t);
      ColumnIsReordered(order, names, points, k);
      ColumnIsReordered(order, names, points, k + 1);
      forall j | 0 <= j < |order|
        ensures InterpolateAt(order, names, points, times, t).value[j]
          == LinearAt(times, Column(order, names, points, j), t)
      {
        ScanFindsSegment(times, Column(order, names, points, j), t, k);
      }
    }
  }

  /** The curve goes through every waypoint that is not directly followed by another one at the same time. */
  lemma CurveHitsWaypoints(times: seq<real>, v: seq<real>, k: nat)
    requires |times| == |v| && Sorted(times) && k < |times|
    requires k + 1 < |times| ==> times[0] < times[k] < times[k + 1] || (k == 0 && times[0] < times[1])
    requires k + 1 == |times| ==> k == 0 || times[0] < times[k]
    ensures LinearAt(times, v, times[k]) == v[k]
  {
    if times[0] < times[k] && k + 1 < |times| {
      ScanFindsSegment(times, v, times[k], k);
      SegmentEnds(times[k], times[k + 1], v[k], v[k + 1]);
    }
  }

  // ----- how fast the curve moves

  /** Going from a to b between times t and t' needs no slope beyond s. */
  ghost predicate Close(a: real, b: real, s: real, t: real, t': real) {
    -(s * (t' - t)) <= b - a <= s * (t' - t)
  }

  /** No segment is steeper than s; two waypoints of the same time have the same value. */
  ghost predicate SlopeAtMost(times: seq<real>, v: seq<real>, s: real)
    requires |times| == |v|
  {
    s >= 0.0 && forall k :: 0 < k < |times| ==> Close(v[k - 1], v[k], s, times[k - 1], times[k])
  }

  lemma CloseChain(a: real, b: real, c: real, s: real, t: real, t': real, t'': real)
    requires Close(a, b, s, t, t') && Close(b, c, s, t', t'')
    ensures Close(a, c, s, t, t'')
  {}

  lemma CloseToItself(a: real, s: real, t: real, t': real)
    requires s >= 0.0 && t <= t'
    ensures Close(a, a, s, t, t')
  {}

  lemma {:induction false} WaypointsClose(times: seq<real>, v: seq<real>, s: real, i: nat, k: nat)
    requires |times| == |v| && SlopeAtMost(times, v, s) && i <= k < |times|
    ensures Close(v[i], v[k], s, times[i], times[k])
    decreases k
  {
    hide Close;
    if i == k {
      CloseToItself(v[i], s, times[i], times[i]);
    } else {
      WaypointsClose(times, v, s, i, k - 1);
      CloseChain(v[i], v[k - 1], v[k], s, times[i], times[k - 1], times[k]);
    }
  }

  /** Within one segment the curve keeps to the slope. */
  lemma SegmentClose(t0: real, t1: real, a: real, b: real, s: real, t: real, t': real)
    requires t0 < t1 && s >= 0.0 && Close(a, b, s, t0, t1) && t0 <= t <= t' <= t1
    ensures Close(Segment(t0, t1, a, b, t), Segment(t0, t1, a, b, t'), s, t, t')
  {
    var len := t1 - t0;
    var x, y := (t - t0) / len, (t' - t0) / len;
    assert x * len == t - t0 && y * len == t' - t0;
    FractionOfSlope(len, b - a, s, x, y, t' - t, s * len, s * (t' - t), (y - x) * (b - a));
    assert y * (b - a) - x * (b - a) == (y - x) * (b - a);
  }

  lemma SegmentEnds(t0: real, t1: real, a: real, b: real)
    requires t0 < t1
    ensures Segment(t0, t1, a, b, t0) == a && Segment(t0, t1, a, b, t1) == b
  {}

  lemma FractionOfSlope(len: real, d: real, s: real, x: real, y: real, dt: real, full: real, part: real, move: real)
    requires len > 0.0 && dt >= 0.0 && (y - x) * len == dt && full == s * len && part == s * dt && move == (y - x) * d
    requires -full <= d <= full
    ensures -part <= move <= part
  {}

  lemma CurveNearWaypoints(times: seq<real>, v: seq<real>, s: real, t: real, k: nat)
    requires |times| == |v| && Sorted(times) && SlopeAtMost(times, v, s)
    requires k + 1 < |times| && times[0] < t && times[k] <= t < times[k + 1]
    ensures Close(v[k], LinearAt(times, v, t), s, times[k], t)
    ensures Close(LinearAt(times, v, t), v[k + 1], s, t, times[k + 1])
  {
    hide Scan, Segment, Close;
    ScanFindsSegment(times, v, t, k);
    assert Close(v[k + 1 - 1], v[k + 1], s, times[k + 1 - 1], times[k + 1]);
    SegmentEnds(times[k], times[k + 1], v[k], v[k + 1]);
    SegmentClose(times[k], times[k + 1], v[k], v[k + 1], s, times[k], t);
    SegmentClose(times[k], times[k + 1], v[k], v[k + 1], s, t, times[k + 1]);
  }

  lemma CurveFromStart(times: seq<real>, v: seq<real>, s: real, t: real)
    requires |times| == |v| > 0 && Sorted(times) && SlopeAtMost(times, v, s) && times[0] < t
    ensures Close(v[0], LinearAt(times, v, t), s, times[0], t)
  {
    hide Scan, Close, SlopeAtMost;
    SlopeIsNonNeg(times, v, s);
    var n := |times| - 1;
    if t >= times[n] {
      WaypointsClose(times, v, s, 0, n);
      CloseToItself(v[n], s, times[n], t);
      CloseChain(v[0], v[n], v[n], s, times[0], times[n], t);
    } else {
      var k := SegmentOf(times, t);
      WaypointsClose(times, v, s, 0, k);
      CurveNearWaypoints(times, v, s, t, k);
      CloseChain(v[0], v[k], LinearAt(times, v, t), s, times[0], times[k], t);
    }
  }

  lemma SlopeIsNonNeg(times: seq<real>, v: seq<real>, s: real)
    requires |times| == |v| && SlopeAtMost(times, v, s)
    ensures s >= 0.0
  {}

  lemma CurveToWaypoint(times: seq<real>, v: seq<real>, s: real, t: real, k: nat)
    requires |times| == |v| > 0 && Sorted(times) && SlopeAtMost(times, v, s) && times[0] < t < times[|times| - 1]
    requires k < |times| && t < times[k]
    ensures Close(LinearAt(times, v, t), v[k], s, t, times[k])
  {
    hide Scan, Close, SlopeAtMost, LinearAt;
    var i := SegmentOf(times, t);
    WaypointsClose(times, v, s, i + 1, k);
    CurveNearWaypoints(times, v, s, t, i);
    CloseChain(LinearAt(times, v, t), v[i + 1], v[k], s, t, times[i + 1], times[k]);
  }

  lemma CurveInside(times: seq<real>, v: seq<real>, s: real, t: real, t': real)
    requires |times| == |v| > 0 && Sorted(times) && SlopeAtMost(times, v, s) && times[0] < t <= t' < times[|times| - 1]
    ensures Close(LinearAt(times, v, t), LinearAt(times, v, t'), s, t, t')
  {
    hide Scan, Close, Segment;
    var k := SegmentOf(times, t');
    if t < times[k] {
      CurveToWaypoint(times, v, s, t, k);
      CurveNearWaypoints(times, v, s, t', k);
      CloseChain(LinearAt(times, v, t), v[k], LinearAt(times, v, t'), s, t, times[k], t');
    } else {
      ScanFindsSegment(times, v, t, k);
      ScanFindsSegment(times, v, t', k);
      assert Close(v[k + 1 - 1], v[k + 1], s, times[k + 1 - 1], times[k + 1]);
      SegmentClose(times[k], times[k + 1], v[k], v[k + 1], s, t, t');
    }
  }

  /** Over any time the curve of a joint moves no further than the steepest segment would. */
  lemma CurveKeepsSlope(times: seq<real>, v: seq<real>, s: real, t: real, t': real)
    requires |times| == |v| > 0 && Sorted(times) && SlopeAtMost(times, v, s) && t <= t'
    ensures Close(LinearAt(times, v, t), LinearAt(times, v, t'), s, t, t')
  {
    hide Scan, Close, SlopeAtMost;
    SlopeIsNonNeg(times, v, s);
    var n := |times| - 1;
    if t' <= times[0] || (t > times[0] && t >= times[n]) {
      CloseToItself(LinearAt(times, v, t), s, t, t');
    } else if t <= times[0] {
      CurveFromStart(times, v, s, t');
      CloseToItself(v[0], s, t, times[0]);
      CloseChain(v[0], v[0], LinearAt(times, v, t'), s, t, times[0], t');
    } else if t' >= times[n] {
      CurveToWaypoint(times, v, s, t, n);
      CloseToItself(v[n], s, times[n], t');
      CloseChain(LinearAt(times, v, t), v[n], v[n], s, t, times[n], t');
    } else {
      CurveInside(times, v, s, t, t');
    }
  }
}
