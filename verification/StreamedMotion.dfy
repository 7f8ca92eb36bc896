/** A minimum-jerk trajectory sent to the bridge: both sides agree about the times of the waypoints, and what is
    streamed ends at the target (franka_ik_solver.py, lines 357-381; impedance_bridge_node.py, lines 135-172). */
module StreamedMotion {
  import opened Basics
  import opened Interpolation
  import opened ImpedanceBridge
  import MinimumJerk

  /** The message field of a waypoint. */
  ghost function Sent(w: MinimumJerk.Waypoint): TrajectoryPoint
    requires w.timeFromStart.nanosec >= 0
  {
    TrajectoryPoint(w.positions, w.timeFromStart.sec, w.timeFromStart.nanosec)
  }

  ghost function Trajectory(current: seq<real>, target: seq<real>, duration: real,
                            n: nat): (points: seq<TrajectoryPoint>)
    requires duration > 0.0 && 0 < n
    ensures |points| == n + 1
  {
    seq(n + 1, i requires 0 <= i <= n =>
      StampIsSent(current, target, duration, n, i); Sent(MinimumJerk.WaypointAt(current, target, duration, n, i)))
  }

  lemma StampIsSent(current: seq<real>, target: seq<real>, duration: real, n: nat, i: nat)
    requires duration > 0.0 && 0 < n && i <= n
    ensures MinimumJerk.WaypointAt(current, target, duration, n, i).timeFromStart.nanosec >= 0
  {
    MinimumJerk.TimeNonNeg(duration, n, i);
    MinimumJerk.NanosecondsCarry(MinimumJerk.WaypointTime(duration, n, i));
  }

  /** The bridge reads a waypoint's time back to within half a nanosecond. */
  lemma TimeSurvives(current: seq<real>, target: seq<real>, duration: real, n: nat, i: nat)
    requires duration > 0.0 && 0 < n && i <= n
    ensures var read := TimeOf(Trajectory(current, target, duration, n)[i]);
      -0.0000000005 <= read - duration * i as real / n as real <= 0.0000000005
  {
    MinimumJerk.TimeNonNeg(duration, n, i);
    MinimumJerk.StampIsClose(MinimumJerk.WaypointTime(duration, n, i));
    SentStamp(current, target, duration, n, i);
  }

  lemma SentStamp(current: seq<real>, target: seq<real>, duration: real, n: nat, i: nat)
    requires duration > 0.0 && 0 < n && i <= n
    ensures TimeOf(Trajectory(current, target, duration, n)[i]) * 1000000000.0
      == MinimumJerk.StampOf(current, target, duration, n, i) as real
  {}

  /** With increasing stamps the bridge finds its waypoints in order of time. */
  lemma TimesAreSorted(current: seq<real>, target: seq<real>, duration: real, n: nat, times: seq<real>)
    requires duration > 0.0 && 0 < n && MinimumJerk.StampsIncrease(current, target, duration, n) && |times| == n + 1
    requires forall i :: 0 <= i <= n ==> times[i] == TimeOf(Trajectory(current, target, duration, n)[i])
    ensures Sorted(times) && forall i, k :: 0 <= i < k <= n ==> times[i] < times[k]
  {
    hide MinimumJerk.StampOf, TimeOf;
    forall i, k | 0 <= i < k <= n
      ensures times[i] < times[k]
    {
      SentStamp(current, target, duration, n, i);
      SentStamp(current, target, duration, n, k);
    }
  }

  /** The last setpoint of the run is the target, joint by joint as the names say. */
  lemma ArrivesAtTarget(current: seq<real>, target: seq<real>, duration: real, n: nat, order: seq<string>,
                        names: seq<string>, points: seq<seq<real>>, times: seq<real>, period: real)
    requires duration > 0.0 && 0 < n && MinimumJerk.StampsIncrease(current, target, duration, n) && period > 0.0
    requires AreDistinct(names) && |names| == |current| == |target| && forall j :: 0 <= j < |order| ==>
      order[j] in names
    requires |points| == |times| == n + 1 && forall i :: 0 <= i <= n ==>
      var p := Trajectory(current, target, duration, n)[i]; points[i] == p.positions && times[i] == TimeOf(p)
    ensures var r := InterpolateAt(order, names, points, times,
      (Count(period, times[|times| - 1]) - 1) as real * period);
      r.Some? && |r.value| == |order| && IsTarget(order, names, target, r.value)
  {
    hide InterpolateAt, Count, Reorder, Sorted, TimeOf, MinimumJerk.StampsIncrease, LastIndex, Trajectory, IsTarget;
    TimesAreSorted(current, target, duration, n, times);
    RunEndsAtLastWaypoint(order, names, points, times, period);
    var last := points[n];
    LastIsTarget(current, target, duration, n);
    assert Zipped(names, last) == names;
    var r := InterpolateAt(order, names, points, times, (Count(period, times[|times| - 1]) - 1) as real * period);
    PicksTarget(order, names, target, last, r.value);
  }

  /** Position j belongs to the joint order[j]. */
  ghost predicate IsTarget(order: seq<string>, names: seq<string>, target: seq<real>, positions: seq<real>)
    requires |positions| == |order| && |names| == |target|
  {
    forall j, i :: 0 <= j < |order| && 0 <= i < |names| && order[j] == names[i] ==> positions[j] == target[i]
  }

  lemma LastIsTarget(current: seq<real>, target: seq<real>, duration: real, n: nat)
    requires duration > 0.0 && 0 < n && |current| == |target|
    ensures Trajectory(current, target, duration, n)[n].positions == target
  {
    hide MinimumJerk.WaypointTime, MinimumJerk.TimeStamp;
    var last := Trajectory(current, target, duration, n)[n].positions;
    assert |last| == |target|;
    forall i | 0 <= i < |target|
      ensures last[i] == target[i]
    {
      MinimumJerk.TrajectoryEnds(current, target, duration, n, i);
    }
  }

  lemma PicksTarget(order: seq<string>, names: seq<string>, target: seq<real>, last: seq<real>, positions: seq<real>)
    requires AreDistinct(names) && |names| == |target| && last == target && |positions| == |order|
    requires forall j :: 0 <= j < |order| ==> order[j] in names && positions[j] == last[LastIndex(names, order[j])]
    ensures IsTarget(order, names, target, positions)
  {}
}
