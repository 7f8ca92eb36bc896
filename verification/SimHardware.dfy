/** Mode switching in simulation (franka_mj_hardware_system.cpp, lines 141-146 and 311-579): gains and
    biases of three actuator families per arm, in two flat arrays with ten entries per actuator. */
module SimHardware {
  import opened Basics
  import opened CommandModes

  const STRIDE: nat := 10

  /** One arm, with the actuator numbers of its three families. */
  datatype Arm = Arm(name: string, actTrq: seq<nat>, actPos: seq<nat>, actVel: seq<nat>, state: ArmState)

  ghost function Actuators(arm: Arm): seq<nat> {
    arm.actTrq + arm.actPos + arm.actVel
  }

  ghost predicate IsArm(arm: Arm, count: nat) {
    && |arm.actTrq| == |arm.actPos| == |arm.actVel| == NUMBER_OF_JOINTS
    && forall n :: n in Actuators(arm) ==> n < count
  }

  /** Entry x of the flat arrays belongs to one of the arm's actuators. */
  ghost predicate Belongs(x: nat, arm: Arm) {
    x / STRIDE in Actuators(arm)
  }

  /** No actuator serves two joints, families or arms. */
  ghost predicate HaveOwnActuators(arms: seq<Arm>) {
    && (forall i :: 0 <= i < |arms| ==> AreDistinct(Actuators(arms[i])))
    && forall i, j, n :: 0 <= i < j < |arms| && n in Actuators(arms[i]) ==> n !in Actuators(arms[j])
  }

  /** The gains the three families get in a mode. */
  function TorqueGain(mode: ControlMode): real {
    if mode == JointTorque then 1.0 else 0.0
  }

  function PositionGain(mode: ControlMode): real {
    if mode == JointPosition then 100.0 else 0.0
  }

  function VelocityGain(mode: ControlMode): real {
    if mode == JointVelocity then 10.0 else 0.0
  }

  /** All gains and biases of the arm are those of the mode. */
  ghost predicate Shows(arm: Arm, mode: ControlMode, gain: seq<real>, bias: seq<real>)
    requires IsArm(arm, |gain| / STRIDE) && |bias| == |gain|
  {
    forall j :: 0 <= j < NUMBER_OF_JOINTS ==> JointShows(arm.actTrq[j], arm.actPos[j], arm.actVel[j], mode, gain, bias)
  }

  ghost predicate JointShows(trq: nat, pos: nat, vel: nat, mode: ControlMode, gain: seq<real>, bias: seq<real>) {
    && |gain| == |bias| && STRIDE * trq < |gain| && STRIDE * pos + 1 < |gain| && STRIDE * vel + 2 < |gain|
    && gain[STRIDE * trq] == TorqueGain(mode)
    && gain[STRIDE * pos] == PositionGain(mode)
    && gain[STRIDE * vel] == VelocityGain(mode)
    && bias[STRIDE * pos + 1] == -PositionGain(mode)
    && bias[STRIDE * vel + 2] == -VelocityGain(mode)
  }

  ghost predicate AllOff(actuators: seq<nat>, gain: seq<real>) {
    forall n :: n in actuators ==> STRIDE * n < |gain| && gain[STRIDE * n] == 0.0
  }

  /** At most one actuator family of the arm has a gain. */
  ghost predicate IsExclusive(arm: Arm, gain: seq<real>) {
    || (AllOff(arm.actPos, gain) && AllOff(arm.actVel, gain))
    || (AllOff(arm.actTrq, gain) && AllOff(arm.actVel, gain))
    || (AllOff(arm.actTrq, gain) && AllOff(arm.actPos, gain))
  }

  lemma ShowingIsExclusive(arm: Arm, mode: ControlMode, gain: seq<real>, bias: seq<real>)
    requires IsArm(arm, |gain| / STRIDE) && |bias| == |gain| && Shows(arm, mode, gain, bias)
    ensures IsExclusive(arm, gain)
  {}

  /** The gains tell the modes apart. */
  lemma ShowsOneMode(arm: Arm, mode: ControlMode, mode': ControlMode, gain: seq<real>, bias: seq<real>)
    requires IsArm(arm, |gain| / STRIDE) && |bias| == |gain| && Shows(arm, mode, gain, bias)
      && Shows(arm, mode', gain, bias)
    requires mode !in {CartesianVelocity, CartesianPose} && mode' !in {CartesianVelocity, CartesianPose}
    ensures mode == mode'
  {
    assert JointShows(arm.actTrq[0], arm.actPos[0], arm.actVel[0], mode, gain, bias);
    assert JointShows(arm.actTrq[0], arm.actPos[0], arm.actVel[0], mode', gain, bias);
  }

  lemma ShowsIgnoresState(arm: Arm, state: ArmState, mode: ControlMode, gain: seq<real>, bias: seq<real>)
    requires IsArm(arm, |gain| / STRIDE) && |bias| == |gain|
    ensures IsArm(arm.(state := state), |gain| / STRIDE)
    ensures Shows(arm.(state := state), mode, gain, bias) <==> Shows(arm, mode, gain, bias)
  {
    hide JointShows;
    var arm' := arm.(state := state);
    assert Actuators(arm') == Actuators(arm);
    assert arm'.actTrq == arm.actTrq && arm'.actPos == arm.actPos && arm'.actVel == arm.actVel;
  }

  /** An arm without a pending switch shows the gains and biases of its mode. */
  ghost predicate IsInStep(arm: Arm, gain: seq<real>, bias: seq<real>) {
    IsArm(arm, |gain| / STRIDE) && |bias| == |gain| && (arm.state.switchCm || Shows(arm, arm.state.mode, gain, bias))
  }

  /** Resetting the mode without marking the arm takes it out of step unless a switch is pending or it was off. */
  lemma ResetKeepsStepIff(arm: Arm, state: ArmState, gain: seq<real>, bias: seq<real>)
    requires IsInStep(arm, gain, bias) && arm.state.mode !in {CartesianVelocity, CartesianPose}
    requires state.mode == Off && state.switchCm == arm.state.switchCm
    ensures IsInStep(arm.(state := state), gain, bias) <==> arm.state.switchCm || arm.state.mode == Off
  {
    hide Shows;
    ShowsIgnoresState(arm, state, Off, gain, bias);
    if !arm.state.switchCm && Shows(arm, Off, gain, bias) {
      ShowsOneMode(arm, arm.state.mode, Off, gain, bias);
    }
  }

  /** None of the arm's entries differs. */
  ghost predicate SameEntries(arm: Arm, gain: seq<real>, bias: seq<real>, gain': seq<real>, bias': seq<real>)
    requires |gain| == |bias| == |gain'| == |bias'|
  {
    forall x: nat :: x < |gain| && Belongs(x, arm) ==> gain[x] == gain'[x] && bias[x] == bias'[x]
  }

  lemma SameEntriesKeepShowing(arm: Arm, mode: ControlMode, gain: seq<real>, bias: seq<real>, gain': seq<real>,
                               bias': seq<real>)
    requires |gain| == |bias| == |gain'| == |bias'| && IsArm(arm, |gain| / STRIDE)
    requires SameEntries(arm, gain, bias, gain', bias') && Shows(arm, mode, gain, bias)
    ensures Shows(arm, mode, gain', bias')
  {
    hide JointShows, SameEntries;
    forall j | 0 <= j < NUMBER_OF_JOINTS
      ensures JointShows(arm.actTrq[j], arm.actPos[j], arm.actVel[j], mode, gain', bias')
    {
      JointActuators(arm, j);
      SameJointEntries(arm, arm.actTrq[j], arm.actPos[j], arm.actVel[j], mode, gain, bias, gain', bias');
    }
  }

  lemma SameJointEntries(arm: Arm, trq: nat, pos: nat, vel: nat, mode: ControlMode,
                         gain: seq<real>, bias: seq<real>, gain': seq<real>, bias': seq<real>)
    requires |gain| == |bias| == |gain'| == |bias'| && SameEntries(arm, gain, bias, gain', bias')
    requires trq in Actuators(arm) && pos in Actuators(arm) && vel in Actuators(arm)
    requires JointShows(trq, pos, vel, mode, gain, bias)
    ensures JointShows(trq, pos, vel, mode, gain', bias')
  {}

  /** Writes confined to one arm's entries leave every other arm's alone. */
  lemma OthersUntouched(arms: seq<Arm>, k: nat, i: nat, gain: seq<real>, bias: seq<real>, gain': seq<real>,
                        bias': seq<real>)
    requires HaveOwnActuators(arms) && k < |arms| && i < |arms| && k != i
    requires |gain| == |bias| == |gain'| == |bias'|
    requires forall x: nat :: x < |gain| && !Belongs(x, arms[i]) ==> gain'[x] == gain[x] && bias'[x] == bias[x]
    ensures SameEntries(arms[k], gain, bias, gain', bias')
  {}

  class MjHardwareSystem {
    const arms: array<Arm>
    const gainprm: array<real>
    const biasprm: array<real>

    ghost predicate Valid()
      reads this, arms, gainprm, biasprm
    {
      && gainprm.Length == biasprm.Length && gainprm != biasprm
      && HaveOwnActuators(arms[..])
      && (forall i :: 0 <= i < arms.Length ==> IsArm(arms[i], gainprm.Length / STRIDE))
      && (forall i :: 0 <= i < arms.Length ==> arms[i].state.mode !in {CartesianVelocity, CartesianPose})
      && forall i :: 0 <= i < arms.Length ==> IsExclusive(arms[i], gainprm[..])
    }

    ghost predicate InStep()
      reads this, arms, gainprm, biasprm
    {
      forall i :: 0 <= i < arms.Length ==> IsInStep(arms[i], gainprm[..], biasprm[..])
    }

    ghost function States(): seq<ArmState>
      reads arms
    {
      seq(arms.Length, i requires 0 <= i < arms.Length reads arms => arms[i].state)
    }

    ghost function Mine(interfaces: seq<string>): (mine: seq<seq<string>>)
      reads arms
      ensures |mine| == arms.Length
    {
      seq(arms.Length, i requires 0 <= i < arms.Length reads arms => NamingJointsOf(interfaces, arms[i].name))
    }

    /** initSim: all actuators of all arms are switched off. */
    constructor (initial: seq<Arm>, gain: array<real>, bias: array<real>)
      requires gain.Length == bias.Length && gain != bias && HaveOwnActuators(initial)
      requires forall i :: 0 <= i < |initial| ==>
        IsArm(initial[i], gain.Length / STRIDE) && initial[i].state.mode == Off
      modifies gain, bias
      ensures Valid() && InStep() && fresh(arms) && arms[..] == initial && gainprm == gain && biasprm == bias
      ensures forall i :: 0 <= i < arms.Length ==> Shows(arms[i], Off, gainprm[..], biasprm[..])
    {
      gainprm, biasprm := gain, bias;
      arms := new Arm[|initial|](i requires 0 <= i < |initial| => initial[i]);
      new;
      hide Shows, IsExclusive, IsArm, HaveOwnActuators;
      assert arms[..] == initial;
      SwitchAllOff();
      forall i | 0 <= i < arms.Length
        ensures IsExclusive(arms[i], gainprm[..])
      {
        ShowingIsExclusive(arms[i], Off, gainprm[..], biasprm[..]);
      }
    }

    method SwitchAllOff()
      requires gainprm.Length == biasprm.Length && gainprm != biasprm && HaveOwnActuators(arms[..])
      requires forall i :: 0 <= i < arms.Length ==> IsArm(arms[i], gainprm.Length / STRIDE)
      modifies gainprm, biasprm
      ensures forall i :: 0 <= i < arms.Length ==> Shows(arms[i], Off, gainprm[..], biasprm[..])
    {
      hide Shows, Belongs, IsArm, AreDistinct, Actuators, SameEntries;
      for i := 0 to arms.Length
        invariant forall k :: 0 <= k < i ==> Shows(arms[k], Off, gainprm[..], biasprm[..])
      {
        ghost var before, before' := gainprm[..], biasprm[..];
        assert arms[..][i] == arms[i];
        ApplyMode(arms[i], Off);
        forall k | 0 <= k < i
          ensures Shows(arms[k], Off, gainprm[..], biasprm[..])
        {
          OthersUntouched(arms[..], k, i, before, before', gainprm[..], biasprm[..]);
          SameEntriesKeepShowing(arms[k], Off, before, before', gainprm[..], biasprm[..]);
        }
      }
    }

    method SetTorqueControl(actuator: nat, flag: int)
      requires STRIDE * actuator < gainprm.Length
      modifies gainprm
      ensures gainprm[..] == old(gainprm[..])[STRIDE * actuator := if flag == 0 then 0.0 else 1.0]
    {
      if flag == 0 {
        gainprm[STRIDE * actuator + 0] := 0.0;
      } else {
        gainprm[STRIDE * actuator + 0] := 1.0;
      }
    }

    method SetPositionServo(actuator: nat, kp: real)
      requires STRIDE * actuator + 1 < gainprm.Length == biasprm.Length && gainprm != biasprm
      modifies gainprm, biasprm
      ensures gainprm[..] == old(gainprm[..])[STRIDE * actuator := kp]
      ensures biasprm[..] == old(biasprm[..])[STRIDE * actuator + 1 := -kp]
    {
      gainprm[STRIDE * actuator + 0] := kp;
      biasprm[STRIDE * actuator + 1] := -kp;
    }

    method SetVelocityServo(actuator: nat, kv: real)
      requires STRIDE * actuator + 2 < gainprm.Length == biasprm.Length && gainprm != biasprm
      modifies gainprm, biasprm
      ensures gainprm[..] == old(gainprm[..])[STRIDE * actuator := kv]
      ensures biasprm[..] == old(biasprm[..])[STRIDE * actuator + 2 := -kv]
    {
      gainprm[STRIDE * actuator + 0] := kv;
      biasprm[STRIDE * actuator + 2] := -kv;
    }

    /** The seven joints of one arm get the gains of the mode; nobody else's entries change. */
    method ApplyMode(arm: Arm, mode: ControlMode)
      requires gainprm.Length == biasprm.Length && gainprm != biasprm && IsArm(arm, gainprm.Length / STRIDE)
      requires AreDistinct(Actuators(arm))
      modifies gainprm, biasprm
      ensures Shows(arm, mode, gainprm[..], biasprm[..])
      ensures forall x: nat :: x < gainprm.Length && !Belongs(x, arm) ==>
        gainprm[x] == old(gainprm[x]) && biasprm[x] == old(biasprm[x])
    {
      hide JointShows, AreDistinct, Belongs;
      for j := 0 to NUMBER_OF_JOINTS
        invariant forall k :: 0 <= k < j ==>
          JointShows(arm.actTrq[k], arm.actPos[k], arm.actVel[k], mode, gainprm[..], biasprm[..])
        invariant forall x: nat :: x < gainprm.Length && !Belongs(x, arm) ==>
          gainprm[x] == old(gainprm[x]) && biasprm[x] == old(biasprm[x])
      {
        ghost var before, before' := gainprm[..], biasprm[..];
        var trq, pos, vel := arm.actTrq[j], arm.actPos[j], arm.actVel[j];
        JointActuators(arm, j);
        SetJoint(trq, pos, vel, mode);
        forall k | 0 <= k < j
          ensures JointShows(arm.actTrq[k], arm.actPos[k], arm.actVel[k], mode, gainprm[..], biasprm[..])
        {
          OtherJoint(arm, k, j);
          JointKeepsShowing(arm.actTrq[k], arm.actPos[k], arm.actVel[k], trq, pos, vel, mode, before, before',
            gainprm[..], biasprm[..]);
        }
        forall x: nat | x < gainprm.Length && !Belongs(x, arm)
          ensures gainprm[x] == before[x] && biasprm[x] == before'[x]
        {
          NotBelonging(x, arm, trq, pos, vel);
        }
      }
    }

    /** The three setters for one joint; the flags and gains of perform_command_mode_switch. */
    method SetJoint(trq: nat, pos: nat, vel: nat, mode: ControlMode)
      requires gainprm.Length == biasprm.Length && gainprm != biasprm
      requires trq < gainprm.Length / STRIDE && pos < gainprm.Length / STRIDE && vel < gainprm.Length / STRIDE
      requires AreDistinct([trq, pos, vel])
      modifies gainprm, biasprm
      ensures JointShows(trq, pos, vel, mode, gainprm[..], biasprm[..])
      ensures OnlyThese(trq, pos, vel, old(gainprm[..]), old(biasprm[..]), gainprm[..], biasprm[..])
    {
      SetTorqueControl(trq, if mode == JointTorque then 1 else 0);
      SetPositionServo(pos, if mode == JointPosition then 100.0 else 0.0);
      SetVelocityServo(vel, if mode == JointVelocity then 10.0 else 0.0);
      assert [trq, pos, vel][0] != [trq, pos, vel][1] && [trq, pos, vel][1] != [trq, pos, vel][2]
        && [trq, pos, vel][0] != [trq, pos, vel][2];
    }

    method OnActivate()
      requires Valid()
      modifies arms
      ensures Valid() && forall i :: 0 <= i < arms.Length ==>
        arms[i] == old(arms[i]).(state := old(arms[i].state).(mode := Off, effort := Zeros(7)))
      ensures old(InStep()) ==>
        (InStep() <==> forall i :: 0 <= i < arms.Length ==>
          old(arms[i].state.switchCm) || old(arms[i].state.mode) == Off)
    {
      hide IsInStep, IsArm, IsExclusive, HaveOwnActuators;
      for i := 0 to arms.Length
        invariant forall j :: 0 <= j < i ==>
          arms[j] == old(arms[j]).(state := old(arms[j].state).(mode := Off, effort := Zeros(7)))
        invariant forall j :: i <= j < arms.Length ==> arms[j] == old(arms[j])
      {
        arms[i] := arms[i].(state := arms[i].state.(mode := Off, effort := Zeros(7)));
      }
      SameActuatorsSameValid(old(arms[..]), arms[..]);
      if old(InStep()) {
        ResetKeepsSteps(old(arms[..]), arms[..]);
      }
    }

    method OnDeactivate()
      requires Valid()
      modifies arms
      ensures Valid() && forall i :: 0 <= i < arms.Length ==>
        arms[i] == old(arms[i]).(state := old(arms[i].state).(mode := Off))
      ensures old(InStep()) ==>
        (InStep() <==> forall i :: 0 <= i < arms.Length ==>
          old(arms[i].state.switchCm) || old(arms[i].state.mode) == Off)
    {
      hide IsInStep, IsArm, IsExclusive, HaveOwnActuators;
      for i := 0 to arms.Length
        invariant forall j :: 0 <= j < i ==> arms[j] == old(arms[j]).(state := old(arms[j].state).(mode := Off))
        invariant forall j :: i <= j < arms.Length ==> arms[j] == old(arms[j])
      {
        arms[i] := arms[i].(state := arms[i].state.(mode := Off));
      }
      SameActuatorsSameValid(old(arms[..]), arms[..]);
      if old(InStep()) {
        ResetKeepsSteps(old(arms[..]), arms[..]);
      }
    }

    lemma ResetKeepsSteps(before: seq<Arm>, after: seq<Arm>)
      requires |before| == |after|
      requires forall i :: 0 <= i < |before| ==> IsInStep(before[i], gainprm[..], biasprm[..])
      requires forall i :: 0 <= i < |before| ==> before[i].state.mode !in {CartesianVelocity, CartesianPose}
      requires forall i :: 0 <= i < |before| ==> after[i] == before[i].(state := after[i].state)
      requires forall i :: 0 <= i < |before| ==>
        after[i].state.mode == Off && after[i].state.switchCm == before[i].state.switchCm
      ensures (forall i :: 0 <= i < |after| ==> IsInStep(after[i], gainprm[..], biasprm[..])) <==>
        forall i :: 0 <= i < |before| ==> before[i].state.switchCm || before[i].state.mode == Off
    {
      hide IsInStep;
      forall i | 0 <= i < |before|
        ensures IsInStep(after[i], gainprm[..], biasprm[..]) <==>
          before[i].state.switchCm || before[i].state.mode == Off
      {
        ResetKeepsStepIff(before[i], after[i].state, gainprm[..], biasprm[..]);
      }
    }

    /** Validity does not depend on the arms' states, as long as no mode is Cartesian. */
    lemma SameActuatorsSameValid(before: seq<Arm>, after: seq<Arm>)
      requires |before| == |after| && HaveOwnActuators(before)
      requires forall i :: 0 <= i < |before| ==> after[i] == before[i].(state := after[i].state)
      requires forall i :: 0 <= i < |before| ==>
        IsArm(before[i], gainprm.Length / STRIDE) && IsExclusive(before[i], gainprm[..])
      ensures HaveOwnActuators(after)
      ensures forall i :: 0 <= i < |after| ==>
        IsArm(after[i], gainprm.Length / STRIDE) && IsExclusive(after[i], gainprm[..])
    {}

    method Naming(interfaces: seq<string>, name: string) returns (mine: seq<string>)
      ensures mine == NamingJointsOf(interfaces, name)
    {
      mine := [];
      for i := 0 to |interfaces|
        invariant mine == NamingJointsOf(interfaces[..i], name)
      {
        assert interfaces[..i + 1][..i] == interfaces[..i];
        if StartsWith(interfaces[i], name + "_joint") {
          mine := mine + [interfaces[i]];
        }
      }
      assert interfaces[..|interfaces|] == interfaces;
    }

    /** Any prepare, failed ones included, changes nothing but arm states, and never gains. */
    method PrepareCommandModeSwitch(starts: seq<string>, stops: seq<string>) returns (ok: bool)
      requires Valid()
      modifies arms
      ensures Valid() && forall i :: 0 <= i < arms.Length ==> arms[i] == old(arms[i]).(state := arms[i].state)
      ensures exists k: nat ::
        Outcome(old(States()), States(), ok, old(Mine(starts)), old(Mine(stops)), Request(starts, stops, false), k)
      ensures old(InStep()) ==> InStep()
    {
      hide Stop, Start, Outcome, StoppedUpTo, StartedUpTo, HaveOwnActuators, IsArm, IsExclusive, IsInStep;
      ghost var before, startMine, stopMine := States(), Mine(starts), Mine(stops);
      var r := Request(starts, stops, false);
      var k := StopAll(r);
      ghost var mid := States();
      ok := k == arms.Length;
      if ok {
        assert Mine(starts) == startMine;
        k := StartAll(r);
        ok := k == arms.Length;
      }
      ComposedOutcome(before, mid, States(), ok, startMine, stopMine, r, k);
      SameActuatorsSameValid(old(arms[..]), arms[..]);
      forall i | 0 <= i < arms.Length
        ensures arms[i].state.mode !in {CartesianVelocity, CartesianPose}
      {
        assert before[i] == old(arms[i].state) && States()[i] == arms[i].state;
        JointModesOnly(before, States(), ok, startMine, stopMine, r, k, i);
      }
      if old(InStep()) {
        forall i | 0 <= i < arms.Length
          ensures IsInStep(arms[i], gainprm[..], biasprm[..])
        {
          assert before[i] == old(arms[i].state) && States()[i] == arms[i].state;
          assert IsInStep(old(arms[i]), gainprm[..], biasprm[..]);
          PrepareMarks(before, States(), ok, startMine, stopMine, r, k, i);
          MarkedStaysInStep(old(arms[i]), arms[i].state, gainprm[..], biasprm[..]);
        }
      }
    }

    method StopAll(r: Request) returns (k: nat)
      modifies arms
      ensures k <= arms.Length && forall i :: 0 <= i < arms.Length ==> arms[i] == old(arms[i]).(state := arms[i].state)
      ensures StoppedUpTo(old(States()), States(), old(Mine(r.stops)), r, k)
    {
      hide Stop, NamingJointsOf;
      for i := 0 to arms.Length
        invariant forall j :: 0 <= j < i ==> arms[j] == old(arms[j]).(state := arms[j].state)
        invariant forall j :: 0 <= j < i ==> Stop(old(States())[j], old(Mine(r.stops))[j], r) == Some(arms[j].state)
        invariant forall j :: i <= j < arms.Length ==> arms[j] == old(arms[j])
      {
        var mine := Naming(r.stops, arms[i].name);
        var state := Stop(arms[i].state, mine, r);
        if state.None? {
          return i;
        }
        arms[i] := arms[i].(state := state.value);
      }
      return arms.Length;
    }

    method StartAll(r: Request) returns (k: nat)
      modifies arms
      ensures k <= arms.Length && forall i :: 0 <= i < arms.Length ==> arms[i] == old(arms[i]).(state := arms[i].state)
      ensures StartedUpTo(old(States()), States(), old(Mine(r.starts)), r, k)
    {
      hide Start, NamingJointsOf;
      for i := 0 to arms.Length
        invariant forall j :: 0 <= j < i ==> arms[j] == old(arms[j]).(state := arms[j].state)
        invariant forall j :: 0 <= j < i ==> Start(old(States())[j], old(Mine(r.starts))[j], r) == Some(arms[j].state)
        invariant forall j :: i <= j < arms.Length ==> arms[j] == old(arms[j])
      {
        var mine := Naming(r.starts, arms[i].name);
        var state := Start(arms[i].state, mine, r);
        if state.None? {
          return i;
        }
        arms[i] := arms[i].(state := state.value);
      }
      return arms.Length;
    }

    /** Pending arms show the gains of their mode; the entries of all other arms stay as they are. */
    method PerformCommandModeSwitch()
      requires Valid()
      modifies arms, gainprm, biasprm
      ensures Valid()
      ensures forall i :: 0 <= i < arms.Length ==>
        && arms[i] == old(arms[i]).(state := old(arms[i].state).(switchCm := false))
        && (old(arms[i].state.switchCm) ==> Shows(arms[i], arms[i].state.mode, gainprm[..], biasprm[..]))
        && (!old(arms[i].state.switchCm) ==>
             SameEntries(arms[i], old(gainprm[..]), old(biasprm[..]), gainprm[..], biasprm[..]))
      ensures old(InStep()) ==> InStep()
    {
      hide Shows, Belongs, IsArm, HaveOwnActuators, Actuators, SameEntries, IsExclusive;
      ghost var initial, gain, bias := arms[..], gainprm[..], biasprm[..];
      forall j | 0 <= j < arms.Length
        ensures Switched(initial[j], false, gain, bias, gain, bias)
      {
        NotYetSwitched(initial[j], gain, bias);
      }
      for i := 0 to arms.Length
        invariant forall j :: i <= j < arms.Length ==> arms[j] == initial[j]
        invariant forall j :: 0 <= j < i ==> arms[j] == initial[j].(state := initial[j].state.(switchCm := false))
        invariant forall j :: 0 <= j < arms.Length ==> Switched(initial[j], j < i, gain, bias, gainprm[..], biasprm[..])
      {
        ghost var before, before' := gainprm[..], biasprm[..];
        var arm := arms[i];
        DistinctAt(initial, i);
        if arm.state.switchCm {
          ApplyMode(arm, arm.state.mode);
          arms[i] := arm.(state := arm.state.(switchCm := false));
        }
        forall j | 0 <= j < arms.Length
          ensures Switched(initial[j], j < i + 1, gain, bias, gainprm[..], biasprm[..])
        {
          if j != i {
            OthersUntouched(initial, j, i, before, before', gainprm[..], biasprm[..]);
            SwitchedStays(initial[j], j < i, gain, bias, before, before', gainprm[..], biasprm[..]);
          }
        }
      }
      SwitchedIsValid(initial, arms[..], gain, bias, gainprm[..], biasprm[..]);
      if old(InStep()) {
        SwitchedIsInStep(initial, arms[..], gain, bias, gainprm[..], biasprm[..]);
      }
    }
  }

  /** A change of mode that is marked keeps the arm in step. */
  lemma MarkedStaysInStep(arm: Arm, state: ArmState, gain: seq<real>, bias: seq<real>)
    requires IsInStep(arm, gain, bias) && Marked(arm.state, state)
    ensures IsInStep(arm.(state := state), gain, bias)
  {
    hide Shows;
    ShowsIgnoresState(arm, state, state.mode, gain, bias);
  }

  lemma UnmarkedStaysInStep(arm: Arm, state: ArmState, gain: seq<real>, bias: seq<real>, gain': seq<real>,
                            bias': seq<real>)
    requires IsInStep(arm, gain, bias) && !arm.state.switchCm && state == arm.state.(switchCm := false)
    requires |gain'| == |bias'| == |gain| && SameEntries(arm, gain, bias, gain', bias')
    ensures IsInStep(arm.(state := state), gain', bias')
  {
    hide Shows, SameEntries;
    SameEntriesKeepShowing(arm, arm.state.mode, gain, bias, gain', bias');
    ShowsIgnoresState(arm, state, state.mode, gain', bias');
  }

  /** How far the switch has got with one arm. */
  ghost predicate Switched(arm: Arm, done: bool, gain: seq<real>, bias: seq<real>, gain': seq<real>, bias': seq<real>) {
    && |gain| == |bias| == |gain'| == |bias'| && IsArm(arm, |gain| / STRIDE)
    && if done && arm.state.switchCm then Shows(arm, arm.state.mode, gain', bias')
         else SameEntries(arm, gain, bias, gain', bias')
  }

  lemma NotYetSwitched(arm: Arm, gain: seq<real>, bias: seq<real>)
    requires |gain| == |bias| && IsArm(arm, |gain| / STRIDE)
    ensures Switched(arm, false, gain, bias, gain, bias)
  {}

  lemma DistinctAt(arms: seq<Arm>, i: nat)
    requires HaveOwnActuators(arms) && i < |arms|
    ensures AreDistinct(Actuators(arms[i]))
  {}

  lemma SwitchedStays(arm: Arm, done: bool, gain: seq<real>, bias: seq<real>, mid: seq<real>, mid': seq<real>,
                      gain': seq<real>, bias': seq<real>)
    requires Switched(arm, done, gain, bias, mid, mid') && |gain'| == |bias'| == |gain|
    requires SameEntries(arm, mid, mid', gain', bias')
    ensures Switched(arm, done, gain, bias, gain', bias')
  {
    hide Shows, Belongs, IsArm;
    if done && arm.state.switchCm {
      SameEntriesKeepShowing(arm, arm.state.mode, mid, mid', gain', bias');
    }
  }

  lemma SwitchedIsValid(initial: seq<Arm>, arms: seq<Arm>, gain: seq<real>, bias: seq<real>, gain': seq<real>,
                        bias': seq<real>)
    requires |arms| == |initial| && HaveOwnActuators(initial) && |gain| == |bias| == |gain'| == |bias'|
    requires forall j :: 0 <= j < |arms| ==> arms[j] == initial[j].(state := initial[j].state.(switchCm := false))
    requires forall j :: 0 <= j < |arms| ==>
      Switched(initial[j], true, gain, bias, gain', bias') && IsExclusive(initial[j], gain)
    ensures HaveOwnActuators(arms)
    ensures forall j :: 0 <= j < |arms| ==> IsArm(arms[j], |gain'| / STRIDE) && IsExclusive(arms[j], gain')
    ensures forall j :: 0 <= j < |arms| ==>
      && (initial[j].state.switchCm ==> Shows(arms[j], initial[j].state.mode, gain', bias'))
      && (!initial[j].state.switchCm ==> SameEntries(arms[j], gain, bias, gain', bias'))
  {}

  lemma SwitchedIsInStep(initial: seq<Arm>, arms: seq<Arm>, gain: seq<real>, bias: seq<real>, gain': seq<real>,
                         bias': seq<real>)
    requires |arms| == |initial| && |gain| == |bias| == |gain'| == |bias'|
    requires forall j :: 0 <= j < |arms| ==> arms[j] == initial[j].(state := initial[j].state.(switchCm := false))
    requires forall j :: 0 <= j < |arms| ==> Switched(initial[j], true, gain, bias, gain', bias')
    requires forall j :: 0 <= j < |arms| ==> IsInStep(initial[j], gain, bias)
    ensures forall j :: 0 <= j < |arms| ==> IsInStep(arms[j], gain', bias')
  {
    hide Shows, SameEntries;
    forall j | 0 <= j < |arms|
      ensures IsInStep(arms[j], gain', bias')
    {
      if initial[j].state.switchCm {
        ShowsIgnoresState(initial[j], arms[j].state, arms[j].state.mode, gain', bias');
      } else {
        UnmarkedStaysInStep(initial[j], arms[j].state, gain, bias, gain', bias');
      }
    }
  }

  /** Only the first three entries of the three actuators may differ. */
  ghost predicate OnlyThese(trq: nat, pos: nat, vel: nat, gain: seq<real>, bias: seq<real>, gain': seq<real>,
                            bias': seq<real>) {
    && |gain| == |bias| == |gain'| == |bias'|
    && (forall x :: 0 <= x < |gain| && x !in {STRIDE * trq, STRIDE * pos, STRIDE * vel} ==> gain'[x] == gain[x])
    && (forall x :: 0 <= x < |bias| && x !in {STRIDE * pos + 1, STRIDE * vel + 2} ==> bias'[x] == bias[x])
  }

  lemma JointActuators(arm: Arm, j: nat)
    requires |arm.actTrq| == |arm.actPos| == |arm.actVel| == NUMBER_OF_JOINTS && j < NUMBER_OF_JOINTS
    ensures var all := Actuators(arm); arm.actTrq[j] in all && arm.actPos[j] in all && arm.actVel[j] in all
    ensures AreDistinct(Actuators(arm)) ==> AreDistinct([arm.actTrq[j], arm.actPos[j], arm.actVel[j]])
  {
    var all := Actuators(arm);
    assert all[j] == arm.actTrq[j] && all[7 + j] == arm.actPos[j] && all[14 + j] == arm.actVel[j];
  }

  lemma OtherJoint(arm: Arm, k: nat, j: nat)
    requires |arm.actTrq| == |arm.actPos| == |arm.actVel| == NUMBER_OF_JOINTS && k < j < NUMBER_OF_JOINTS
    requires AreDistinct(Actuators(arm))
    ensures {arm.actTrq[k], arm.actPos[k], arm.actVel[k]} !! {arm.actTrq[j], arm.actPos[j], arm.actVel[j]}
  {
    var all := Actuators(arm);
    assert all[j] == arm.actTrq[j] && all[7 + j] == arm.actPos[j] && all[14 + j] == arm.actVel[j];
    assert all[k] == arm.actTrq[k] && all[7 + k] == arm.actPos[k] && all[14 + k] == arm.actVel[k];
  }

  lemma JointKeepsShowing(trq: nat, pos: nat, vel: nat, trq': nat, pos': nat, vel': nat, mode: ControlMode,
                          gain: seq<real>, bias: seq<real>, gain': seq<real>, bias': seq<real>)
    requires JointShows(trq, pos, vel, mode, gain, bias) && OnlyThese(trq', pos', vel', gain, bias, gain', bias')
    requires {trq, pos, vel} !! {trq', pos', vel'}
    ensures JointShows(trq, pos, vel, mode, gain', bias')
  {}

  lemma NotBelonging(x: nat, arm: Arm, trq: nat, pos: nat, vel: nat)
    requires !Belongs(x, arm) && trq in Actuators(arm) && pos in Actuators(arm) && vel in Actuators(arm)
    ensures x !in {STRIDE * trq, STRIDE * pos, STRIDE * vel, STRIDE * pos + 1, STRIDE * vel + 2}
  {}

  /** The interfaces that start with the arm's joint prefix, in order. */
  ghost function NamingJointsOf(interfaces: seq<string>, name: string): seq<string> {
    if interfaces == [] then [] else
      var last := interfaces[|interfaces| - 1];
      NamingJointsOf(interfaces[..|interfaces| - 1], name) + if StartsWith(last, name + "_joint") then [last] else []
  }

  // ----- isolation

  /** An interface belongs to at most one arm, if no arm's name contains the joint infix. */
  lemma PrefixesAreExclusive(s: string, a: string, b: string)
    requires StartsWith(s, a + "_joint") && StartsWith(s, b + "_joint")
    requires !Has(a, "_joint") && !Has(b, "_joint")
    ensures a == b
  {
    if |a| < |b| {
      ShorterPrefix(s, a, b);
    } else if |b| < |a| {
      ShorterPrefix(s, b, a);
    } else {
      assert s[..|a|] == (a + "_joint")[..|a|] == a && s[..|b|] == (b + "_joint")[..|b|] == b;
    }
  }

  lemma OneUnderscore(t: string, d: nat)
    requires t == "_joint" && 1 <= d && (d < 6 ==> t[d] == '_')
    ensures d >= 6
  {}

  lemma ShorterPrefix(s: string, a: string, b: string)
    requires StartsWith(s, a + "_joint") && StartsWith(s, b + "_joint") && |a| < |b|
    ensures Has(b, "_joint")
  {
    var n, d := |a|, |b| - |a|;
    assert s[n..n + 6] == s[..n + 6][n..] == (a + "_joint")[n..] == "_joint";
    assert s[n + d] == s[..|b| + 6][|b|] == (b + "_joint")[|b|] == '_';
    OneUnderscore(s[n..n + 6], d);
    assert s[..|b|] == (b + "_joint")[..|b|] == b;
    assert b[n..][..6] == s[n..n + 6];
    assert StartsWith(b[n..], "_joint");
  }

  lemma {:induction false} NobodyElseNamed(interfaces: seq<string>, a: string, b: string)
    requires a != b && !Has(a, "_joint") && !Has(b, "_joint")
    requires forall s :: s in interfaces ==> StartsWith(s, a + "_joint")
    ensures NamingJointsOf(interfaces, b) == []
  {
    hide Has, StartsWith;
    if interfaces != [] {
      var last := interfaces[|interfaces| - 1];
      NobodyElseNamed(interfaces[..|interfaces| - 1], a, b);
      if StartsWith(last, b + "_joint") {
        PrefixesAreExclusive(last, a, b);
      }
    }
  }

  /** A request whose interfaces all name one arm leaves every other arm's mode, commands and marks alone,
      and with them, at the next perform, its gains and biases. */
  lemma RequestsAreIsolated(names: seq<string>, before: seq<ArmState>, after: seq<ArmState>, ok: bool, r: Request,
                            k: nat, a: string, i: nat)
    requires |names| == |before| && forall n :: n in names + [a] ==> !Has(n, "_joint")
    requires var startMine := seq(|names|, j requires 0 <= j < |names| => NamingJointsOf(r.starts, names[j]));
      var stopMine := seq(|names|, j requires 0 <= j < |names| => NamingJointsOf(r.stops, names[j]));
      Outcome(before, after, ok, startMine, stopMine, r, k)
    requires forall s :: s in r.starts + r.stops ==> StartsWith(s, a + "_joint")
    requires i < |before| && names[i] != a
    ensures i < |after| && after[i] == before[i]
  {
    hide Has, StartsWith, NamingJointsOf, Stop, Start;
    var startMine := seq(|names|, j requires 0 <= j < |names| => NamingJointsOf(r.starts, names[j]));
    var stopMine := seq(|names|, j requires 0 <= j < |names| => NamingJointsOf(r.stops, names[j]));
    NobodyElseNamed(r.starts, a, names[i]);
    NobodyElseNamed(r.stops, a, names[i]);
    PrepareMarks(before, after, ok, startMine, stopMine, r, k, i);
  }

  lemma {:induction false} AllName(interfaces: seq<string>, name: string)
    requires forall i :: 0 <= i < |interfaces| ==> StartsWith(interfaces[i], name + "_joint")
    ensures NamingJointsOf(interfaces, name) == interfaces
  {
    hide StartsWith;
    if interfaces != [] {
      var n := |interfaces| - 1;
      AllName(interfaces[..n], name);
      assert interfaces[..n] + [interfaces[n]] == interfaces;
    }
  }

  /** A claim on one simulated arm reaches it in full, since all its joint interfaces carry its prefix, and switches
      it to the mode of their kind if it is off and its name is not confusing; otherwise it is refused. */
  lemma ClaimSwitchesArm(arm: string, kind: Kind, a: ArmState)
    ensures var mine := JointInterfaces(arm, kind);
      Start(a, NamingJointsOf(mine, arm), Request(mine, [], false)) ==
        if a.mode == Off && Unconfused(arm, kind) then Some(a.(mode := JointMode(kind), switchCm := true)) else None
  {
    hide StartsWith, JointInterface, NamingJointsOf, Start, Unconfused;
    var mine := JointInterfaces(arm, kind);
    forall i | 0 <= i < |mine|
      ensures StartsWith(mine[i], arm + "_joint")
    {
      InterfacePrefix(arm, i, kind);
    }
    AllName(mine, arm);
    ClaimAndRelease(a, arm, kind, false);
    StartIgnoresStops(a, mine, mine, false);
  }

  lemma InterfacePrefix(arm: string, i: nat, kind: Kind)
    requires i < NUMBER_OF_JOINTS
    ensures StartsWith(JointInterface(arm, i, kind), arm + "_joint")
  {
    hide Word;
    assert JointInterface(arm, i, kind) == (arm + "_joint") + ("1234567"[i..i + 1] + "/" + Word(kind));
  }

  // ----- from the claimed interfaces to the gains

  /** Gains and biases of the three actuator families of an arm. */
  ghost predicate HasGains(arm: Arm, trq: real, pos: real, vel: real, gain: seq<real>, bias: seq<real>)
    requires IsArm(arm, |gain| / 10) && |bias| == |gain|
  {
    forall j :: 0 <= j < 7 ==>
      IsServo(arm.actTrq[j], trq, 0, 0.0, gain, bias) && IsServo(arm.actPos[j], pos, 1, -pos, gain, bias)
      && IsServo(arm.actVel[j], vel, 2, -vel, gain, bias)
  }

  /** The first of an actuator's ten gain entries, and unless it is a torque actuator one of its biases. */
  ghost predicate IsServo(n: nat, kp: real, entry: nat, kb: real, gain: seq<real>, bias: seq<real>) {
    && 10 * n < |gain| && gain[10 * n] == kp
    && (entry != 0 ==> 10 * n + entry < |bias| && bias[10 * n + entry] == kb)
  }

  lemma ShownGains(arm: Arm, mode: ControlMode, gain: seq<real>, bias: seq<real>)
    requires IsArm(arm, |gain| / STRIDE) && |bias| == |gain| && Shows(arm, mode, gain, bias)
    ensures mode == JointTorque ==> HasGains(arm, 1.0, 0.0, 0.0, gain, bias)
    ensures mode == JointPosition ==> HasGains(arm, 0.0, 100.0, 0.0, gain, bias)
    ensures mode == JointVelocity ==> HasGains(arm, 0.0, 0.0, 10.0, gain, bias)
    ensures mode == Off ==> HasGains(arm, 0.0, 0.0, 0.0, gain, bias)
  {
    forall j | 0 <= j < 7
      ensures JointShows(arm.actTrq[j], arm.actPos[j], arm.actVel[j], mode, gain, bias)
    {}
  }

  ghost predicate IsNamedBy(name: string, interfaces: seq<string>) {
    exists s :: s in interfaces && StartsWith(s, name + "_joint")
  }

  /** The mode of an arm after an accepted prepare, by the interfaces, and that it is marked for the next perform. */
  ghost predicate Commands(b: ArmState, name: string, starts: seq<string>, stops: seq<string>) {
    && (starts == JointInterfaces(name, Effort) ==> b.mode == JointTorque && b.switchCm)
    && (starts == JointInterfaces(name, Position) ==> b.mode == JointPosition && b.switchCm)
    && (starts == JointInterfaces(name, Velocity) ==> b.mode == JointVelocity && b.switchCm)
    && (IsNamedBy(name, stops) && !IsNamedBy(name, starts) ==> b.mode == Off && b.switchCm)
  }

  lemma SwitchedMode(a: ArmState, b: ArmState, name: string, starts: seq<string>, stops: seq<string>)
    requires Both(a, NamingJointsOf(starts, name), NamingJointsOf(stops, name), Request(starts, stops, false))
      == Some(b)
    ensures Commands(b, name, starts, stops)
  {
    hide StartsWith, NamingJointsOf, Stop, Start, JointInterfaces, Unconfused;
    var r := Request(starts, stops, false);
    var mid := Stop(a, NamingJointsOf(stops, name), r).value;
    StopMarks(a, NamingJointsOf(stops, name), r);
    StartMarks(mid, NamingJointsOf(starts, name), r);
    NamedIff(starts, name);
    NamedIff(stops, name);
    StartIgnoresStops(mid, NamingJointsOf(starts, name), stops, false);
    ClaimSwitchesArm(name, Effort, mid);
    ClaimSwitchesArm(name, Position, mid);
    ClaimSwitchesArm(name, Velocity, mid);
    StartOfAll(mid, name, starts, stops);
  }

  lemma StartOfAll(mid: ArmState, name: string, starts: seq<string>, stops: seq<string>)
    ensures Start(mid, NamingJointsOf(starts, name), Request(starts, stops, false))
      == Start(mid, NamingJointsOf(starts, name), Request(starts, [], false))
  {}

  lemma {:induction false} NamedIff(interfaces: seq<string>, name: string)
    ensures NamingJointsOf(interfaces, name) != [] <==> IsNamedBy(name, interfaces)
  {
    hide StartsWith;
    if interfaces != [] {
      var front, last := interfaces[..|interfaces| - 1], interfaces[|interfaces| - 1];
      NamedIff(front, name);
      assert interfaces == front + [last];
    }
  }

  /** Prepare, and if that succeeds, perform: each arm whose interfaces were claimed has the gains of these commands and
      no others, and an arm that was stopped and not started has none. */
  method Switch(h: MjHardwareSystem, starts: seq<string>, stops: seq<string>) returns (ok: bool)
    requires h.Valid()
    modifies h.arms, h.gainprm, h.biasprm
    ensures h.Valid() && forall i :: 0 <= i < h.arms.Length ==> h.arms[i] == old(h.arms[i]).(state := h.arms[i].state)
    ensures !ok ==> h.gainprm[..] == old(h.gainprm[..]) && h.biasprm[..] == old(h.biasprm[..])
    ensures ok ==> forall i :: 0 <= i < h.arms.Length ==>
      var arm, gain, bias := h.arms[i], h.gainprm[..], h.biasprm[..];
      && (starts == JointInterfaces(arm.name, Effort) ==> HasGains(arm, 1.0, 0.0, 0.0, gain, bias))
      && (starts == JointInterfaces(arm.name, Position) ==> HasGains(arm, 0.0, 100.0, 0.0, gain, bias))
      && (starts == JointInterfaces(arm.name, Velocity) ==> HasGains(arm, 0.0, 0.0, 10.0, gain, bias))
      && (IsNamedBy(arm.name, stops) && !IsNamedBy(arm.name, starts) ==> HasGains(arm, 0.0, 0.0, 0.0, gain, bias))
  {
    hide IsNamedBy, NamingJointsOf, Outcome, JointInterfaces, HasGains, Shows, HaveOwnActuators, IsExclusive, IsArm,
         SameEntries, IsInStep;
    ghost var before, startMine, stopMine := h.States(), h.Mine(starts), h.Mine(stops);
    ok := h.PrepareCommandModeSwitch(starts, stops);
    if ok {
      ghost var after := h.States();
      ghost var r := Request(starts, stops, false);
      ghost var k: nat :| Outcome(before, after, ok, startMine, stopMine, r, k);
      OkMeansAllAccept(before, after, ok, startMine, stopMine, r, k);
      forall i | 0 <= i < h.arms.Length
        ensures Commands(h.arms[i].state, h.arms[i].name, starts, stops)
      {
        SwitchedMode(before[i], after[i], h.arms[i].name, starts, stops);
      }
      h.PerformCommandModeSwitch();
      forall i | 0 <= i < h.arms.Length && after[i].switchCm
        ensures after[i].mode == JointTorque ==> HasGains(h.arms[i], 1.0, 0.0, 0.0, h.gainprm[..], h.biasprm[..])
        ensures after[i].mode == JointPosition ==> HasGains(h.arms[i], 0.0, 100.0, 0.0, h.gainprm[..], h.biasprm[..])
        ensures after[i].mode == JointVelocity ==> HasGains(h.arms[i], 0.0, 0.0, 10.0, h.gainprm[..], h.biasprm[..])
        ensures after[i].mode == Off ==> HasGains(h.arms[i], 0.0, 0.0, 0.0, h.gainprm[..], h.biasprm[..])
      {
        ShownGains(h.arms[i], after[i].mode, h.gainprm[..], h.biasprm[..]);
      }
    }
  }
}
