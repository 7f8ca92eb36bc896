/** The seven-joint motion generator (motion_generator.cpp, lines 25-126): it fills its per-joint arrays
    once and then answers where every joint should be at a given time. */
module MotionGenerator {
  import opened Basics
  import opened Vectors
  import opened MotionPlan
  import opened MotionPath

  const JOINTS: nat := 7
  const DQ_MAX: seq<real> := [2.0, 2.0, 2.0, 2.0, 2.5, 2.5, 2.5]
  const DDQ_MAX: seq<real> := [5.0, 5.0, 5.0, 5.0, 5.0, 5.0, 5.0]

  class Generator {
    const qStart: seq<real>
    const deltaQ: seq<real>
    var dqMax: seq<real>
    var ddqMaxStart: seq<real>
    var ddqMaxGoal: seq<real>
    const dqMaxSync: array<real>
    const t1Sync: array<real>
    const t2Sync: array<real>
    const tfSync: array<real>
    const q1: array<real>
    var time: real
    /** max_t_f, a local of the code. */
    ghost var maxTf: real

    ghost predicate Shaped()
      reads `dqMax, `ddqMaxStart, `ddqMaxGoal
    {
      && |qStart| == |deltaQ| == |dqMax| == |ddqMaxStart| == |ddqMaxGoal| == JOINTS
      && dqMaxSync.Length == t1Sync.Length == t2Sync.Length == tfSync.Length == q1.Length == JOINTS
      && dqMaxSync !in {t1Sync, t2Sync, tfSync, q1} && t1Sync !in {t2Sync, tfSync, q1}
      && t2Sync !in {tfSync, q1} && tfSync != q1
      && forall i :: 0 <= i < JOINTS ==> LimitsOf(i).IsPositive()
    }

    function LimitsOf(i: nat): Limits
      reads `dqMax, `ddqMaxStart, `ddqMaxGoal
      requires |dqMax| == |ddqMaxStart| == |ddqMaxGoal| == JOINTS && i < JOINTS
    {
      Limits(dqMax[i], ddqMaxStart[i], ddqMaxGoal[i])
    }

    function PlanOf(i: nat): Plan
      reads `dqMax, `ddqMaxStart, `ddqMaxGoal, dqMaxSync, t1Sync, t2Sync, tfSync, q1
      requires Shaped() && i < JOINTS
    {
      Plan(deltaQ[i], dqMaxSync[i], t1Sync[i], t2Sync[i], tfSync[i], q1[i])
    }

    /** The joints the synchronisation plans for. */
    predicate Moves(i: nat)
      requires |deltaQ| == JOINTS && i < JOINTS
    {
      Abs(deltaQ[i]) > DELTA_Q_MOTION_FINISHED
    }

    /** The joints the path leaves where they are. */
    predicate Rests(i: nat)
      requires |deltaQ| == JOINTS && i < JOINTS
    {
      Abs(deltaQ[i]) < DELTA_Q_MOTION_FINISHED
    }

    /** Every moving joint arrives at max_t_f within its speed limit, and some joint cannot arrive sooner. */
    ghost predicate Synchronised()
      reads this, dqMaxSync, t1Sync, t2Sync, tfSync, q1
      requires Shaped()
    {
      && (forall i :: 0 <= i < JOINTS && Moves(i) ==> Arrives(PlanOf(i), LimitsOf(i), maxTf))
      && ((maxTf == 0.0 && forall i :: 0 <= i < JOINTS ==> !Moves(i))
          || exists i :: 0 <= i < JOINTS && Moves(i) && NeedsAtLeast(Abs(deltaQ[i]), LimitsOf(i), maxTf))
    }

    constructor (speedFactor: real, qStart: seq<real>, qGoal: seq<real>, root: real -> real)
      requires 0.0 < speedFactor <= 1.0 && |qStart| == |qGoal| == JOINTS && IsSquareRoot(root)
      ensures Shaped() && Synchronised()
      ensures this.qStart == qStart && forall i :: 0 <= i < JOINTS ==> deltaQ[i] == qGoal[i] - qStart[i]
      ensures forall i :: 0 <= i < JOINTS ==>
        LimitsOf(i) == Limits((if i < 4 then 2.0 else 2.5) * speedFactor, 5.0 * speedFactor, 5.0 * speedFactor)
    {
      hide LimitsOf, Synchronised, ScaledBy, Limits.IsPositive;
      this.qStart := qStart;
      deltaQ := seq(JOINTS, i requires 0 <= i < JOINTS => qGoal[i] - qStart[i]);
      dqMax := ScaledBy(DQ_MAX, speedFactor);
      ddqMaxStart := ScaledBy(DDQ_MAX, speedFactor);
      ddqMaxGoal := ScaledBy(DDQ_MAX, speedFactor);
      dqMaxSync := new real[JOINTS];
      t1Sync := new real[JOINTS];
      t2Sync := new real[JOINTS];
      tfSync := new real[JOINTS];
      q1 := new real[JOINTS];
      time := 0.0;
      new;
      ScaledLimits(speedFactor);
      CalculateSynchronizedValues(root);
    }

    lemma ScaledLimits(speedFactor: real)
      requires 0.0 < speedFactor
      requires dqMax == ScaledBy(DQ_MAX, speedFactor) && ddqMaxStart == ddqMaxGoal == ScaledBy(DDQ_MAX, speedFactor)
      ensures |dqMax| == |ddqMaxStart| == |ddqMaxGoal| == JOINTS
      ensures forall i :: 0 <= i < JOINTS ==> LimitsOf(i).IsPositive()
      ensures forall i :: 0 <= i < JOINTS ==>
        LimitsOf(i) == Limits((if i < 4 then 2.0 else 2.5) * speedFactor, 5.0 * speedFactor, 5.0 * speedFactor)
    {}

    method CalculateSynchronizedValues(root: real -> real)
      requires Shaped() && IsSquareRoot(root)
      modifies this`maxTf, dqMaxSync, t1Sync, t2Sync, tfSync, q1
      ensures Shaped() && Synchronised()
    {
      hide Duration, IsReach, Abs, Arrives, NeedsAtLeast, IsFastest, Limits.IsPositive;
      var tf;
      ghost var reach;
      tf, reach := FastestDurations(root);
      ghost var times := tf[..];
      var max := MaxCoeff(tf);
      maxTf := max;
      for i := 0 to JOINTS
        invariant Shaped() && maxTf == max
        invariant forall j :: 0 <= j < JOINTS && Moves(j) ==> IsFastest(Abs(deltaQ[j]), LimitsOf(j), reach[j], times[j])
        invariant forall j :: 0 <= j < i && Moves(j) ==> Arrives(PlanOf(j), LimitsOf(j), maxTf)
      {
        if Abs(deltaQ[i]) > DELTA_Q_MOTION_FINISHED {
          var p := SynchronisedMotion(deltaQ[i], LimitsOf(i), max, root, reach[i], times[i]);
          Store(i, p);
        }
      }
      SlowestNeedsMax(reach, times);
    }

    /** The first loop: how long each moving joint needs by itself. */
    method FastestDurations(root: real -> real) returns (tf: array<real>, ghost reach: seq<real>)
      requires Shaped() && IsSquareRoot(root)
      ensures fresh(tf) && tf.Length == |reach| == JOINTS
      ensures forall j :: 0 <= j < JOINTS && !Moves(j) ==> tf[j] == 0.0
      ensures forall j :: 0 <= j < JOINTS && Moves(j) ==> IsFastest(Abs(deltaQ[j]), LimitsOf(j), reach[j], tf[j])
    {
      hide Duration, IsReach, Abs, IsFastest, Limits.IsPositive;
      var dqMaxReach := new real[JOINTS](i reads this requires |dqMax| == JOINTS && 0 <= i < JOINTS => dqMax[i]);
      tf := new real[JOINTS](_ => 0.0);
      for i := 0 to JOINTS
        invariant forall j :: 0 <= j < JOINTS && !Moves(j) ==> tf[j] == 0.0
        invariant forall j :: 0 <= j < i && Moves(j) ==> IsFastest(Abs(deltaQ[j]), LimitsOf(j), dqMaxReach[j], tf[j])
      {
        if Abs(deltaQ[i]) > DELTA_Q_MOTION_FINISHED {
          dqMaxReach[i], tf[i] := FastestMotion(deltaQ[i], LimitsOf(i), root);
        }
      }
      reach := dqMaxReach[..];
    }

    method Store(i: nat, p: Plan)
      requires Shaped() && i < JOINTS && p.delta == deltaQ[i]
      modifies dqMaxSync, t1Sync, t2Sync, tfSync, q1
      ensures PlanOf(i) == p && forall j :: 0 <= j < JOINTS && j != i ==> PlanOf(j) == old(PlanOf(j))
    {
      hide LimitsOf;
      dqMaxSync[i], t1Sync[i], t2Sync[i], tfSync[i], q1[i] := p.speed, p.t1, p.t2, p.tf, p.q1;
    }

    /** The joint with the largest duration cannot be sped up. */
    lemma SlowestNeedsMax(reach: seq<real>, tf: seq<real>)
      requires Shaped() && |reach| == |tf| == JOINTS
      requires forall j :: 0 <= j < JOINTS && !Moves(j) ==> tf[j] == 0.0
      requires forall j :: 0 <= j < JOINTS && Moves(j) ==> IsFastest(Abs(deltaQ[j]), LimitsOf(j), reach[j], tf[j])
      requires maxTf in tf && forall j :: 0 <= j < JOINTS ==> tf[j] <= maxTf
      ensures (maxTf == 0.0 && forall i :: 0 <= i < JOINTS ==> !Moves(i))
           || exists i :: 0 <= i < JOINTS && Moves(i) && NeedsAtLeast(Abs(deltaQ[i]), LimitsOf(i), maxTf)
    {
      hide IsFastest, NeedsAtLeast, Abs;
      var k :| 0 <= k < JOINTS && tf[k] == maxTf;
      if i :| 0 <= i < JOINTS && Moves(i) {
        FastestIsPositive(Abs(deltaQ[i]), LimitsOf(i), reach[i], tf[i]);
        FastestNeedsIt(Abs(deltaQ[k]), LimitsOf(k), reach[k], tf[k]);
      }
    }

    method CalculateDesiredValues(t: real, deltaQD: array<real>) returns (finished: bool)
      requires Shaped() && deltaQD.Length == JOINTS && deltaQD !in {dqMaxSync, t1Sync, t2Sync, tfSync, q1}
      requires forall i :: 0 <= i < JOINTS && !Rests(i) && t < t1Sync[i] ==> t1Sync[i] != 0.0
      modifies deltaQD
      ensures forall i :: 0 <= i < JOINTS ==>
        deltaQD[i] == if Rests(i) then 0.0 else Displacement(PlanOf(i), t)
      ensures finished <==> forall i :: 0 <= i < JOINTS ==> Rests(i) || IsOver(PlanOf(i), t)
    {
      hide Abs, Cube, Sign;
      var jointMotionFinished := new bool[JOINTS](_ => false);
      for i := 0 to JOINTS
        invariant forall j :: 0 <= j < i ==> deltaQD[j] == if Rests(j) then 0.0 else Displacement(PlanOf(j), t)
        invariant forall j :: 0 <= j < i ==> (jointMotionFinished[j] <==> Rests(j) || IsOver(PlanOf(j), t))
      {
        if Abs(deltaQ[i]) < DELTA_Q_MOTION_FINISHED {
          deltaQD[i] := 0.0;
          jointMotionFinished[i] := true;
        } else {
          deltaQD[i] := Displacement(PlanOf(i), t);
          jointMotionFinished[i] := IsOver(PlanOf(i), t);
        }
      }
      finished := forall i :: 0 <= i < JOINTS ==> jointMotionFinished[i];
    }

    /** Where every joint should be at time t, and whether all of them have arrived. */
    method GetDesiredJointPositions(t: real) returns (positions: seq<real>, finished: bool)
      requires Shaped() && Synchronised() && t >= 0.0
      modifies this`time
      ensures Shaped() && Synchronised() && |positions| == JOINTS
      ensures forall i :: 0 <= i < JOINTS ==>
        positions[i] == qStart[i] + if Rests(i) then 0.0 else Displacement(PlanOf(i), t)
      // the common arrival time decides, except for joints whose distance is exactly the threshold
      ensures finished <==> t >= maxTf && forall i :: 0 <= i < JOINTS && !Moves(i) && !Rests(i) ==> IsOver(PlanOf(i), t)
      ensures (forall i :: 0 <= i < JOINTS ==> Moves(i) || Rests(i)) ==> (finished <==> t >= maxTf)
      ensures (forall i :: 0 <= i < JOINTS ==> Moves(i) || Rests(i)) && finished ==>
        forall i :: 0 <= i < JOINTS ==> Abs(qStart[i] + deltaQ[i] - positions[i]) < 0.000001
    {
      hide Displacement, IsTimed, NeedsAtLeast;
      time := t;
      var deltaQD := new real[JOINTS];
      forall i | 0 <= i < JOINTS && !Rests(i) && t < t1Sync[i]
        ensures t1Sync[i] != 0.0
      {}
      finished := CalculateDesiredValues(time, deltaQD);
      positions := seq(JOINTS, i requires 0 <= i < JOINTS reads this, deltaQD => qStart[i] + deltaQD[i]);
      forall i | 0 <= i < JOINTS && Moves(i)
        ensures IsOver(PlanOf(i), t) <==> t >= maxTf
        ensures t >= maxTf ==> Displacement(PlanOf(i), t) == deltaQ[i]
      {
        PathIsSafe(PlanOf(i), t, t);
      }
    }
  }

  /** r is the best speed for distance d, and t the time it takes. */
  ghost predicate IsFastest(d: real, l: Limits, r: real, t: real) {
    l.IsPositive() && d > 0.0 && IsReach(d, l, r) && t == Duration(d, l, r)
  }

  /** The plan is in order, ends at the given time and keeps to the limits. */
  ghost predicate Arrives(p: Plan, l: Limits, t: real) {
    IsTimed(p) && FitsRamps(p, l) && p.tf == t && p.speed <= l.speed
  }

  /** No speed within the limit covers d in less than t. */
  ghost predicate NeedsAtLeast(d: real, l: Limits, t: real) {
    && l.IsPositive()
    && forall r: real :: 0.0 < r <= l.speed ==> t <= Duration(d, l, r)
  }

  function ScaledBy(v: seq<real>, k: real): (w: seq<real>)
    ensures |w| == |v| && forall i :: 0 <= i < |v| ==> w[i] == v[i] * k
  {
    seq(|v|, i requires 0 <= i < |v| => v[i] * k)
  }

  /** The first loop's work for one joint: its best speed and the time that takes. */
  method FastestMotion(delta: real, l: Limits, root: real -> real) returns (dqMaxReach: real, tf: real)
    requires l.IsPositive() && Abs(delta) > DELTA_Q_MOTION_FINISHED && IsSquareRoot(root)
    ensures IsFastest(Abs(delta), l, dqMaxReach, tf)
  {
    hide RampDistance, ShortSpeedSquared, Duration, IsReach, IsFastest;
    dqMaxReach := l.speed;
    if Abs(delta) < RampDistance(l) {
      dqMaxReach := root(ShortSpeedSquared(delta, l));
    }
    ReachSpeedIsReach(delta, l, root);
    ReachIsPositive(Abs(delta), l, dqMaxReach);
    var t1 := 1.5 * dqMaxReach / l.start;
    var deltaT2 := 1.5 * dqMaxReach / l.goal;
    tf := t1 / 2.0 + deltaT2 / 2.0 + Abs(delta) / dqMaxReach;
    FastestTime(Abs(delta), l, dqMaxReach, t1, deltaT2, tf);
  }

  /** The second loop's work for one joint: its entries in the five arrays. */
  method SynchronisedMotion(delta: real, l: Limits, maxTf: real, root: real -> real, ghost reach: real, ghost tf: real)
    returns (p: Plan)
    requires l.IsPositive() && Abs(delta) > DELTA_Q_MOTION_FINISHED && IsSquareRoot(root)
    requires IsFastest(Abs(delta), l, reach, tf) && maxTf >= tf
    ensures p.delta == delta && Arrives(p, l, maxTf)
  {
    hide SyncSpeed, Duration, IsReach, Discriminant, Ramps, Sign, IsTimed;
    FastestIsReach(Abs(delta), l, reach, tf);
    var dqMaxSync := SyncSpeed(Abs(delta), l, maxTf, root);
    SyncSpeedSynchronises(Abs(delta), l, reach, maxTf, root);
    var t1Sync := 1.5 * dqMaxSync / l.start;
    var deltaT2Sync := 1.5 * dqMaxSync / l.goal;
    var tfSync := t1Sync / 2.0 + deltaT2Sync / 2.0 + Abs(delta / dqMaxSync);
    p := Plan(delta, dqMaxSync, t1Sync, tfSync - deltaT2Sync, tfSync, dqMaxSync * Sign(delta) * (0.5 * t1Sync));
    PlanIsTimed(p, l, reach, maxTf, root);
  }

  method MaxCoeff(a: array<real>) returns (m: real)
    requires a.Length > 0
    ensures m in a[..] && forall i :: 0 <= i < a.Length ==> a[i] <= m
  {
    m := a[0];
    for i := 1 to a.Length
      invariant m in a[..] && forall j :: 0 <= j < i ==> a[j] <= m
    {
      if a[i] > m {
        m := a[i];
      }
    }
  }

  lemma ReachIsPositive(d: real, l: Limits, r: real)
    requires l.IsPositive() && IsReach(d, l, r)
    ensures r > 0.0
  {}

  lemma FastestTime(d: real, l: Limits, r: real, t1: real, dt2: real, tf: real)
    requires l.IsPositive() && d > 0.0 && IsReach(d, l, r) && r > 0.0
    requires t1 == 1.5 * r / l.start && dt2 == 1.5 * r / l.goal && tf == t1 / 2.0 + dt2 / 2.0 + d / r
    ensures IsFastest(d, l, r, tf)
  {}

  lemma FastestIsReach(d: real, l: Limits, r: real, t: real)
    requires IsFastest(d, l, r, t)
    ensures l.IsPositive() && d > 0.0 && IsReach(d, l, r) && r > 0.0 && t == Duration(d, l, r)
  {}

  lemma FastestIsPositive(d: real, l: Limits, r: real, t: real)
    requires IsFastest(d, l, r, t)
    ensures t > 0.0
  {}

  lemma FastestNeedsIt(d: real, l: Limits, r: real, t: real)
    requires IsFastest(d, l, r, t)
    ensures NeedsAtLeast(d, l, t)
  {
    hide Ramps, Duration;
    forall r': real | 0.0 < r' <= l.speed
      ensures t <= Duration(d, l, r')
    {
      ReachIsFastest(d, l, r, r');
    }
  }
}
