/** Streaming a loaded trajectory as setpoints (impedance_bridge_node.py, lines 108-150 and 174-196), and the
    controller that receives them (joint_impedance_controller.cpp, lines 130-137). */
module ImpedanceBridge {
  import opened Basics
  import opened Vectors
  import opened Interpolation

  const NUDGE: real := 0.000001
  const NUM_JOINTS: nat := 7

  datatype TrajectoryPoint = TrajectoryPoint(positions: seq<real>, sec: int, nanosec: nat)

  function TimeOf(p: TrajectoryPoint): real {
    p.sec as real + p.nanosec as real * 0.000000001
  }

  /** The workaround for the controller's guard: the first position is never exactly zero. */
  function Nudged(positions: seq<real>): seq<real>
    requires positions != []
  {
    if positions[0] == 0.0 then positions[0 := NUDGE] else positions
  }

  /** The time within the trajectory, and whether it is still being played. */
  datatype Clock = Clock(elapsed: real, active: bool)

  function Advance(c: Clock, period: real, end: real): Clock {
    if !c.active then c else
      var elapsed := c.elapsed + period;
      Clock(elapsed, !(elapsed > end + period))
  }

  class Bridge {
    const jointOrder: seq<string>
    const period: real
    var trajPoints: seq<TrajectoryPoint>
    var trajJointNames: seq<string>
    var times: seq<real>
    var elapsed: real
    var active: bool

    ghost predicate Valid()
      reads this
    {
      && jointOrder != [] && period > 0.0
      && |times| == |trajPoints| && forall k :: 0 <= k < |times| ==> times[k] == TimeOf(trajPoints[k])
    }

    ghost function ClockNow(): Clock
      reads this
    {
      Clock(elapsed, active)
    }

    function Points(): (points: seq<seq<real>>)
      reads this
      ensures |points| == |trajPoints|
    {
      seq(|trajPoints|, k requires 0 <= k < |trajPoints| reads this => trajPoints[k].positions)
    }

    constructor (jointOrder: seq<string>, publishRate: real)
      requires jointOrder != [] && publishRate > 0.0
      ensures Valid() && !active && this.jointOrder == jointOrder && period == 1.0 / publishRate
    {
      this.jointOrder := jointOrder;
      period := 1.0 / publishRate;
      trajPoints, trajJointNames, times := [], [], [];
      elapsed, active := 0.0, false;
      new;
      var p := 1.0 / publishRate;
      if p < 0.0 {
        MulPos(-p, publishRate, -p * publishRate);
      }
    }

    method SendTrajectoryFromMsg(jointNames: seq<string>, points: seq<TrajectoryPoint>)
      requires Valid()
      modifies this
      ensures Valid() && ClockNow() == Clock(0.0, true)
      ensures trajJointNames == jointNames && trajPoints == points
    {
      LoadTrajectory(jointNames, points);
      elapsed := 0.0;
      active := true;
    }

    method LoadTrajectory(jointNames: seq<string>, points: seq<TrajectoryPoint>)
      requires Valid()
      modifies this
      ensures Valid() && ClockNow() == old(ClockNow())
      ensures trajJointNames == jointNames && trajPoints == points
    {
      trajJointNames := jointNames;
      trajPoints := points;
      if trajPoints == [] {
        times := [];
        return;
      }
      times := seq(|points|, k requires 0 <= k < |points| => TimeOf(points[k]));
    }

    /** The positions at time t of the loaded trajectory, in the controller's order. */
    ghost function At(t: real): Option<seq<real>>
      reads this
      requires Valid() && trajPoints != []
    {
      InterpolateAt(jointOrder, trajJointNames, Points(), times, t)
    }

    /** What the next timer callback would publish before nudging. */
    ghost function Setpoint(): Option<seq<real>>
      reads this
      requires Valid()
    {
      if active && trajPoints != [] then At(elapsed) else None
    }

    /** One timer callback and the message it publishes, if any. A missing joint name raises before anything
        is published or changed. */
    method Tick() returns (message: Option<seq<real>>)
      requires Valid()
      modifies this
      ensures Valid() && trajPoints == old(trajPoints) && trajJointNames == old(trajJointNames) && times == old(times)
      ensures match old(Setpoint())
        case None => message == None && ClockNow() == old(ClockNow())
        case Some(p) =>
          p != [] && message == Some(Nudged(p)) && ClockNow() == Advance(old(ClockNow()), period, times[|times| - 1])
      ensures old(active) && trajPoints != [] && Sorted(times) && AllNamed(jointOrder, trajJointNames, Points()) ==>
        && message.Some? && |message.value| == |jointOrder|
        && forall j :: 0 <= j < |jointOrder| ==>
            var x := LinearAt(times, Column(jointOrder, trajJointNames, Points(), j), old(elapsed));
            message.value[j] == if j == 0 && x == 0.0 then 0.000001 else x
    {
      hide InterpolateAt, LinearAt, Column, AllNamed, Sorted;
      ghost var points := Points();
      if trajPoints != [] && Sorted(times) && AllNamed(jointOrder, trajJointNames, points) {
        BisectionIsLinear(jointOrder, trajJointNames, points, times, elapsed);
      }
      if !active || trajPoints == [] {
        return None;
      }
      var p := InterpolateAt(jointOrder, trajJointNames, Points(), times, elapsed);
      if p.None? {
        return None;
      }
      var positions := p.value;
      SetpointLength(jointOrder, trajJointNames, Points(), times, elapsed);
      if positions[0] == 0.0 {
        positions := positions[0 := NUDGE];
      }
      message := Some(positions);
      elapsed := elapsed + period;
      if elapsed > times[|times| - 1] + period {
        active := false;
      }
      assert Points() == points;
    }
  }

  lemma SetpointLength(order: seq<string>, names: seq<string>, points: seq<seq<real>>, times: seq<real>, t: real)
    requires |points| == |times| > 0 && InterpolateAt(order, names, points, times, t).Some?
    ensures |InterpolateAt(order, names, points, times, t).value| == |order|
  {}

  // ----- the receiving controller

  class JointImpedanceController {
    const qD: array<real>

    constructor ()
      ensures qD.Length == 7 && fresh(qD)
    {
      qD := new real[NUM_JOINTS](_ => 0.0);
    }

    /** The guard tests the first number for truth, so a message starting with zero is dropped. */
    method DesiredJointCallback(data: seq<real>)
      requires qD.Length == 7 && |data| >= 7
      modifies qD
      ensures qD[..] == if data[0] != 0.0 then data[..7] else old(qD[..])
    {
      if data[0] != 0.0 {
        for i := 0 to NUM_JOINTS
          invariant qD[..i] == data[..i]
        {
          qD[i] := data[i];
        }
        assert qD[..] == qD[..NUM_JOINTS];
      }
    }
  }

  /** What the bridge publishes is never dropped, and differs from the setpoint by at most the nudge. */
  lemma NudgedIsAccepted(positions: seq<real>)
    requires positions != []
    ensures Nudged(positions)[0] != 0.0 && |Nudged(positions)| == |positions|
    ensures forall j :: 0 <= j < |positions| ==> 0.0 <= Nudged(positions)[j] - positions[j] <= NUDGE
  {}

  // ----- a whole run

  /** The clock after n callbacks that all find their joints. */
  ghost function ClockAfter(n: nat, period: real, end: real): Clock {
    if n == 0 then Clock(0.0, true) else Advance(ClockAfter(n - 1, period, end), period, end)
  }

  /** How many setpoints a trajectory that ends at `end` takes. */
  ghost function Count(period: real, end: real): nat
    requires period > 0.0
  {
    var n := (end / period).Floor + 2;
    if n < 1 then 1 else n
  }

  lemma CountSeparates(period: real, end: real, n: nat)
    requires period > 0.0
    ensures n >= 1 ==> (n < Count(period, end) <==> (n - 1) as real * period <= end)
  {
    var q := end / period;
    assert q * period == end;
    var m := (n - 1) as real;
    if n >= 1 {
      if n - 1 <= q.Floor {
        MulMonotone(period, m, q, period * m, period * q);
      } else {
        MulPos(period, m - q, period * (m - q));
      }
    }
  }

  /** The first Count callbacks publish, at 0, period, 2 period, ...; all later ones find the run over. */
  lemma {:induction false} RunPublishes(n: nat, period: real, end: real)
    requires period > 0.0
    ensures ClockAfter(n, period, end).active <==> n < Count(period, end)
    ensures n <= Count(period, end) ==> ClockAfter(n, period, end).elapsed == n as real * period
  {
    hide Count;
    CountIsPositive(period, end);
    if n > 0 {
      RunPublishes(n - 1, period, end);
      CountSeparates(period, end, n);
      assert n as real * period == (n - 1) as real * period + period;
    }
  }

  lemma CountIsPositive(period: real, end: real)
    requires period > 0.0
    ensures Count(period, end) >= 1 && (end >= 0.0 ==> Count(period, end) == (end / period).Floor + 2)
  {}

  /** The last setpoint of a run is the last waypoint. */
  lemma RunEndsAtLastWaypoint(order: seq<string>, names: seq<string>, points: seq<seq<real>>, times: seq<real>,
                              period: real)
    requires |points| == |times| > 0 && Sorted(times) && period > 0.0
    ensures var r := InterpolateAt(order, names, points, times,
      (Count(period, times[|times| - 1]) - 1) as real * period);
      var last := points[|points| - 1];
      && (r.Some? <==> forall j :: 0 <= j < |order| ==> order[j] in Zipped(names, last))
      && (r.Some? ==> |r.value| == |order| && forall j :: 0 <= j < |order| ==>
            r.value[j] == last[LastIndex(Zipped(names, last), order[j])])
  {
    hide Reorder, BisectRight, Count, LastIndex, Zipped;
    var end := times[|times| - 1];
    CountIsPositive(period, end);
    CountSeparates(period, end, Count(period, end));
    ReorderPicks(order, names, points[|points| - 1]);
  }

  /** The setpoint of callback n, before nudging. */
  ghost function NthSetpoint(order: seq<string>, names: seq<string>, points: seq<seq<real>>, times: seq<real>,
                             period: real, n: nat): Option<seq<real>>
    requires |points| == |times| > 0
  {
    InterpolateAt(order, names, points, times, n as real * period)
  }

  lemma NthIsAt(order: seq<string>, names: seq<string>, points: seq<seq<real>>, times: seq<real>, period: real, n: nat,
                t: real)
    requires |points| == |times| > 0
    ensures t == n as real * period ==>
      NthSetpoint(order, names, points, times, period, n) == InterpolateAt(order, names, points, times, t)
  {}

  /** The timer: any number of callbacks after a trajectory has been loaded. The messages are the setpoints
      at 0, period, 2 period, ..., and they stop after exactly Count of them. */
  method PlayOut(b: Bridge, callbacks: nat) returns (messages: seq<seq<real>>)
    requires b.Valid() && b.ClockNow() == Clock(0.0, true) && b.trajPoints != []
    requires AllNamed(b.jointOrder, b.trajJointNames, b.Points()) && Sorted(b.times)
    modifies b
    ensures b.Valid() && b.trajPoints == old(b.trajPoints) && b.trajJointNames == old(b.trajJointNames)
      && b.times == old(b.times)
    ensures var count := Count(b.period, b.times[|b.times| - 1]); |messages| == if callbacks < count then callbacks
      else count
    ensures forall i :: 0 <= i < |messages| ==>
      IsMessage(messages[i], NthSetpoint(b.jointOrder, b.trajJointNames, b.Points(), b.times, b.period, i))
  {
    hide InterpolateAt, Count, Nudged, Advance, IsMessage, NthSetpoint;
    messages := [];
    ghost var names, points, times := b.trajJointNames, b.Points(), b.times;
    ghost var end := times[|times| - 1];
    CountIsPositive(b.period, end);
    for i := 0 to callbacks
      invariant b.Valid() && b.trajPoints == old(b.trajPoints) && b.trajJointNames == names && b.Points() == points
        && b.times == times
      invariant b.ClockNow() == ClockAfter(i, b.period, end)
      invariant |messages| == if i < Count(b.period, end) then i else Count(b.period, end)
      invariant forall k :: 0 <= k < |messages| ==>
        IsMessage(messages[k], NthSetpoint(b.jointOrder, names, points, times, b.period, k))
    {
      RunPublishes(i, b.period, end);
      BisectionIsLinear(b.jointOrder, names, points, times, b.elapsed);
      InactiveStays(b.ClockNow(), b.period, end);
      ghost var setpoint := b.Setpoint();
      assert b.active ==> setpoint == NthSetpoint(b.jointOrder, names, points, times, b.period, i) by {
        NthIsAt(b.jointOrder, names, points, times, b.period, i, b.elapsed);
      }
      var message := b.Tick();
      if message.Some? {
        assert |messages| == i;
        NudgedIsMessage(message.value, setpoint);
        messages := messages + [message.value];
      }
    }
  }

  lemma NudgedIsMessage(m: seq<real>, p: Option<seq<real>>)
    requires p.Some? && p.value != [] && m == Nudged(p.value)
    ensures IsMessage(m, p)
  {}

  ghost predicate IsMessage(m: seq<real>, p: Option<seq<real>>) {
    p.Some? && p.value != [] && m == Nudged(p.value)
  }

  lemma InactiveStays(c: Clock, period: real, end: real)
    ensures !c.active ==> Advance(c, period, end) == c
  {}

  /** Consecutive setpoints of one joint, as published: no further apart than the steepest segment allows in
      one period, plus the nudge. */
  lemma StepIsBounded(order: seq<string>, names: seq<string>, points: seq<seq<real>>, times: seq<real>, t: real,
                      period: real, j: nat, s: real)
    requires |points| == |times| > 0 && Sorted(times) && AllNamed(order, names, points) && period > 0.0 && j < |order|
    requires SlopeAtMost(times, Column(order, names, points, j), s)
    ensures InterpolateAt(order, names, points, times, t).Some?
      && InterpolateAt(order, names, points, times, t + period).Some?
    ensures var p, p' := InterpolateAt(order, names, points, times, t).value,
      InterpolateAt(order, names, points, times, t + period).value;
      |p| == |p'| == |order| && -(s * period + NUDGE) <= Nudged(p')[j] - Nudged(p)[j] <= s * period + NUDGE
  {
    hide InterpolateAt, LinearAt, SlopeAtMost, Sorted, AllNamed, Nudged, Close;
    var v := Column(order, names, points, j);
    BisectionIsLinear(order, names, points, times, t);
    BisectionIsLinear(order, names, points, times, t + period);
    var p, p' := InterpolateAt(order, names, points, times, t).value,
      InterpolateAt(order, names, points, times, t + period).value;
    CurveKeepsSlope(times, v, s, t, t + period);
    NudgedBy(p, j);
    NudgedBy(p', j);
    StepScalars(p[j], p'[j], Nudged(p)[j], Nudged(p')[j], s, t, period);
  }

  lemma NudgedBy(p: seq<real>, j: nat)
    requires j < |p|
    ensures |Nudged(p)| == |p| && 0.0 <= Nudged(p)[j] - p[j] <= NUDGE
  {}

  lemma StepScalars(a: real, b: real, a': real, b': real, s: real, t: real, period: real)
    requires Close(a, b, s, t, t + period) && 0.0 <= a' - a <= NUDGE && 0.0 <= b' - b <= NUDGE
    ensures -(s * period + NUDGE) <= b' - a' <= s * period + NUDGE
  {
    assert t + period - t == period;
  }
}
