/** Mode switching on real robots: the loop a robot runs (robot.cpp, lines 87-299) and the interface that
    starts and stops those loops (franka_multi_hardware_interface.cpp, lines 217-242 and 313-543). */
module RealHardware {
  import opened Basics
  import opened CommandModes

  datatype Loop = Reading | Torque | JointPositions | JointVelocities | CartesianVelocities | CartesianPoses

  function LoopOf(mode: ControlMode): Loop {
    match mode
    case Off => Reading
    case JointTorque => Torque
    case JointPosition => JointPositions
    case JointVelocity => JointVelocities
    case CartesianVelocity => CartesianVelocities
    case CartesianPose => CartesianPoses
  }

  class Robot {
    var finish: bool
    var stopped: bool
    /** The loop the control thread is in, until it has been joined. */
    var running: Option<Loop>

    ghost predicate Valid()
      reads this
    {
      !finish && (stopped <==> running.None?)
    }

    constructor ()
      ensures Valid() && stopped
    {
      finish, stopped, running := false, true, None;
    }

    method StopRobot()
      requires Valid()
      modifies this
      ensures Valid() && stopped
    {
      if !stopped {
        finish := true;
        Join();
        finish := false;
        stopped := true;
      }
    }

    /** Every loop ends once it sees the finish flag. */
    method Join()
      requires finish && running.Some?
      modifies this`running
      ensures running.None?
    {
      running := None;
    }

    /** The six initialize functions, which differ in the loop they hand to the thread; each asserts that
        the robot is stopped. */
    method Initialize(loop: Loop)
      requires Valid() && stopped
      modifies this
      ensures Valid() && running == Some(loop)
    {
      stopped := false;
      running := Some(loop);
    }
  }

  datatype Arm = Arm(name: string, robot: Robot, state: ArmState)

  class MultiHardwareInterface {
    /** arms_, in the order of its keys. */
    const arms: array<Arm>
    /** Between activation and deactivation. */
    ghost var isActive: bool

    ghost function Robots(): set<Robot>
      reads arms
    {
      set i | 0 <= i < arms.Length :: arms[i].robot
    }

    ghost function Names(): seq<string>
      reads arms
    {
      seq(arms.Length, i requires 0 <= i < arms.Length reads arms => arms[i].name)
    }

    ghost function States(): seq<ArmState>
      reads arms
    {
      seq(arms.Length, i requires 0 <= i < arms.Length reads arms => arms[i].state)
    }

    ghost predicate Valid()
      reads this, arms, Robots()
    {
      && (forall i, j :: 0 <= i < j < arms.Length ==> arms[i].robot != arms[j].robot)
      && forall i :: 0 <= i < arms.Length ==> Consistent(arms[i], isActive)
    }

    /** An arm's robot is stopped while inactive; while active it runs a loop, and unless a switch is
        pending it is the loop of the arm's mode. */
    static ghost predicate Consistent(arm: Arm, isActive: bool)
      reads arm.robot
    {
      && arm.robot.Valid()
      && (isActive <==> !arm.robot.stopped)
      && (isActive && !arm.state.switchCm ==> arm.robot.running == Some(LoopOf(arm.state.mode)))
    }

    constructor (names: seq<string>)
      ensures Valid() && !isActive && fresh(Robots())
      ensures arms.Length == |names| && forall i :: 0 <= i < |names| ==>
        arms[i].name == names[i] && !arms[i].state.switchCm
    {
      isActive := false;
      var robot := new Robot();
      var state := ArmState(Off, false, Zeros(7), Zeros(7), Zeros(6));
      var all := new Arm[|names|](_ => Arm("", robot, state));
      arms := all;
      new;
      for i := 0 to |names|
        invariant !isActive
        invariant forall j :: 0 <= j < i ==> arms[j].name == names[j] && arms[j].state == state
        invariant forall j :: 0 <= j < i ==> fresh(arms[j].robot) && arms[j].robot.Valid() && arms[j].robot.stopped
        invariant forall j, k :: 0 <= j < k < i ==> arms[j].robot != arms[k].robot
      {
        var r := new Robot();
        arms[i] := Arm(names[i], r, state);
      }
    }

    method OnActivate()
      requires Valid() && !isActive
      modifies this, arms, Robots()
      ensures Valid() && isActive
      ensures forall i :: 0 <= i < arms.Length ==>
        && arms[i] == old(arms[i]).(state := old(arms[i].state).(mode := Off, effort := Zeros(7)))
        && arms[i].robot.running == Some(Reading)
    {
      for i := 0 to arms.Length
        invariant forall j :: i <= j < arms.Length ==> arms[j] == old(arms[j]) && Consistent(arms[j], false)
        invariant forall j :: 0 <= j < i ==>
          && arms[j] == old(arms[j]).(state := old(arms[j].state).(mode := Off, effort := Zeros(7)))
          && arms[j].robot.Valid() && arms[j].robot.running == Some(Reading)
      {
        assert arms[i] == old(arms[i]);
        arms[i] := arms[i].(state := arms[i].state.(mode := Off));
        arms[i].robot.Initialize(Reading);
        arms[i] := arms[i].(state := arms[i].state.(effort := Zeros(7)));
      }
      isActive := true;
    }

    /** The loop variable is a copy of the container: the mode set to Off is the copy's, the robot is shared. */
    method OnDeactivate()
      requires Valid() && isActive
      modifies this, Robots()
      ensures Valid() && !isActive && arms[..] == old(arms[..])
    {
      for i := 0 to arms.Length
        invariant forall j :: i <= j < arms.Length ==> Consistent(arms[j], true)
        invariant forall j :: 0 <= j < i ==> arms[j].robot.Valid() && arms[j].robot.stopped
      {
        var arm := arms[i];
        arm := arm.(state := arm.state.(mode := Off));
        arm.robot.StopRobot();
      }
      isActive := false;
    }

    method Naming(interfaces: seq<string>, name: string) returns (mine: seq<string>)
      ensures mine == Mentioning(interfaces, name)
    {
      mine := [];
      for i := 0 to |interfaces|
        invariant mine == Mentioning(interfaces[..i], name)
      {
        assert interfaces[..i + 1][..i] == interfaces[..i];
        if Has(interfaces[i], name) {
          mine := mine + [interfaces[i]];
        }
      }
      assert interfaces[..|interfaces|] == interfaces;
    }

    ghost function Mine(interfaces: seq<string>): (mine: seq<seq<string>>)
      reads arms
      ensures |mine| == arms.Length
    {
      seq(arms.Length, i requires 0 <= i < arms.Length reads arms => Mentioning(interfaces, arms[i].name))
    }

    /** Any prepare, failed ones included, leaves the interface consistent. */
    method PrepareCommandModeSwitch(starts: seq<string>, stops: seq<string>) returns (ok: bool)
      requires Valid() && isActive
      modifies arms
      ensures Valid() && forall i :: 0 <= i < arms.Length ==> arms[i] == old(arms[i]).(state := arms[i].state)
      ensures exists k: nat ::
        Outcome(old(States()), States(), ok, old(Mine(starts)), old(Mine(stops)), Request(starts, stops, true), k)
    {
      hide Stop, Start, Outcome, StoppedUpTo, StartedUpTo;
      ghost var before, startMine, stopMine := States(), Mine(starts), Mine(stops);
      var r := Request(starts, stops, true);
      var k := StopAll(r);
      ghost var mid := States();
      ok := k == arms.Length;
      if ok {
        assert Mine(starts) == startMine;
        k := StartAll(r);
        ok := k == arms.Length;
      }
      ComposedOutcome(before, mid, States(), ok, startMine, stopMine, r, k);
      forall i | 0 <= i < arms.Length
        ensures Consistent(arms[i], isActive)
      {
        PrepareMarks(before, States(), ok, startMine, stopMine, r, k, i);
        assert old(Consistent(arms[i], isActive));
        assert before[i] == old(arms[i].state) && States()[i] == arms[i].state;
      }
    }

    /** The stop loop, up to the first arm that refuses. */
    method StopAll(r: Request) returns (k: nat)
      modifies arms
      ensures k <= arms.Length && forall i :: 0 <= i < arms.Length ==> arms[i] == old(arms[i]).(state := arms[i].state)
      ensures StoppedUpTo(old(States()), States(), old(Mine(r.stops)), r, k)
    {
      hide Stop, Mentioning;
      for i := 0 to arms.Length
        invariant forall j :: 0 <= j < i ==> arms[j] == old(arms[j]).(state := arms[j].state)
        invariant forall j :: 0 <= j < i ==> Stop(old(States())[j], old(Mine(r.stops))[j], r) == Some(arms[j].state)
        invariant forall j :: i <= j < arms.Length ==> arms[j] == old(arms[j])
      {
        var mine := Naming(r.stops, arms[i].name);
        var state := Stop(arms[i].state, mine, r);
        if state.None? {
          return i;
        }
        arms[i] := arms[i].(state := state.value);
      }
      return arms.Length;
    }

    /** The start loop, likewise. */
    method StartAll(r: Request) returns (k: nat)
      modifies arms
      ensures k <= arms.Length && forall i :: 0 <= i < arms.Length ==> arms[i] == old(arms[i]).(state := arms[i].state)
      ensures StartedUpTo(old(States()), States(), old(Mine(r.starts)), r, k)
    {
      hide Start, Mentioning;
      for i := 0 to arms.Length
        invariant forall j :: 0 <= j < i ==> arms[j] == old(arms[j]).(state := arms[j].state)
        invariant forall j :: 0 <= j < i ==> Start(old(States())[j], old(Mine(r.starts))[j], r) == Some(arms[j].state)
        invariant forall j :: i <= j < arms.Length ==> arms[j] == old(arms[j])
      {
        var mine := Naming(r.starts, arms[i].name);
        var state := Start(arms[i].state, mine, r);
        if state.None? {
          return i;
        }
        arms[i] := arms[i].(state := state.value);
      }
      return arms.Length;
    }

    /** Pending arms move to the loop of their mode, all others are left alone. */
    method PerformCommandModeSwitch()
      requires Valid() && isActive
      modifies arms, Robots()
      ensures Valid()
      ensures forall i :: 0 <= i < arms.Length ==>
        && arms[i] == old(arms[i]).(state := old(arms[i].state).(switchCm := false))
        && arms[i].robot.running == Some(LoopOf(arms[i].state.mode))
        && (!old(arms[i].state.switchCm) ==> unchanged(arms[i].robot))
    {
      for i := 0 to arms.Length
        invariant forall j :: i <= j < arms.Length ==>
          arms[j] == old(arms[j]) && Consistent(arms[j], true) && unchanged(arms[j].robot)
        invariant forall j :: 0 <= j < i ==>
          && arms[j] == old(arms[j]).(state := old(arms[j].state).(switchCm := false))
          && Consistent(arms[j], true)
          && (!old(arms[j].state.switchCm) ==> unchanged(arms[j].robot))
      {
        if arms[i].state.switchCm {
          arms[i].robot.StopRobot();
          match arms[i].state.mode {
            case Off => arms[i].robot.Initialize(Reading);
            case JointTorque => arms[i].robot.Initialize(Torque);
            case JointPosition => arms[i].robot.Initialize(JointPositions);
            case JointVelocity => arms[i].robot.Initialize(JointVelocities);
            case CartesianPose => arms[i].robot.Initialize(CartesianPoses);
            case CartesianVelocity => arms[i].robot.Initialize(CartesianVelocities);
          }
          arms[i] := arms[i].(state := arms[i].state.(switchCm := false));
        }
      }
    }
  }

  /** The interfaces that contain the name, in order. */
  ghost function Mentioning(interfaces: seq<string>, name: string): seq<string> {
    if interfaces == [] then [] else
      var last := interfaces[|interfaces| - 1];
      Mentioning(interfaces[..|interfaces| - 1], name) + if Has(last, name) then [last] else []
  }

  lemma {:induction false} AllMention(interfaces: seq<string>, name: string)
    ensures |Mentioning(interfaces, name)| <= |interfaces|
    ensures |Mentioning(interfaces, name)| == |interfaces| <==> forall s :: s in interfaces ==> Has(s, name)
    ensures |Mentioning(interfaces, name)| == |interfaces| ==> Mentioning(interfaces, name) == interfaces
  {
    hide Has;
    if interfaces != [] {
      var first, last := interfaces[..|interfaces| - 1], interfaces[|interfaces| - 1];
      AllMention(first, name);
      assert interfaces == first + [last];
    }
  }

  /** A controller's claim on one arm switches that arm to the mode of the claimed interfaces, if it is off and its
      name is not confusing, and is refused otherwise. */
  lemma ClaimSwitchesArm(arm: string, kind: Kind, a: ArmState)
    ensures var mine := JointInterfaces(arm, kind);
      Start(a, Mentioning(mine, arm), Request(mine, [], true)) ==
        if a.mode == Off && Unconfused(arm, kind) then Some(a.(mode := JointMode(kind), switchCm := true)) else None
  {
    hide Start, Has, JointInterfaces;
    var mine := JointInterfaces(arm, kind);
    InterfacesMentionArm(arm, kind);
    AllMention(mine, arm);
    ClaimAndRelease(a, arm, kind, true);
    StartIgnoresStops(a, mine, mine, true);
  }

  lemma InterfacesMentionArm(arm: string, kind: Kind)
    ensures forall s :: s in JointInterfaces(arm, kind) ==> Has(s, arm)
  {
    forall s | s in JointInterfaces(arm, kind)
      ensures Has(s, arm)
    {
      var i :| 0 <= i < NUMBER_OF_JOINTS && s == JointInterface(arm, i, kind);
      assert StartsWith(s[0..], arm);
    }
  }

  // ----- from the claimed interfaces to the running loop

  /** What a controller manager does with a request: prepare, and if that succeeds, perform. Each arm whose interfaces
      were claimed then runs the loop that takes these commands, whatever was stopped before; an arm that was stopped
      and not started reads. */
  method Switch(h: MultiHardwareInterface, starts: seq<string>, stops: seq<string>) returns (ok: bool)
    requires h.Valid() && h.isActive
    modifies h.arms, h.Robots()
    ensures h.Valid() && forall i :: 0 <= i < h.arms.Length ==>
      h.arms[i].name == old(h.arms[i].name) && h.arms[i].robot == old(h.arms[i].robot)
    ensures !ok ==> forall i :: 0 <= i < h.arms.Length ==> unchanged(h.arms[i].robot)
    ensures forall i, kind :: 0 <= i < h.arms.Length && IsClaimOf(starts, stops, old(h.Names()), i, kind) ==>
      (ok <==> old(h.arms[i].state.mode) == Off && Unconfused(h.arms[i].name, kind))
    ensures ok ==> forall i :: 0 <= i < h.arms.Length ==>
      var name, running := h.arms[i].name, h.arms[i].robot.running;
      && (starts == JointInterfaces(name, Effort) ==> running == Some(Torque))
      && (starts == JointInterfaces(name, Position) ==> running == Some(JointPositions))
      && (starts == JointInterfaces(name, Velocity) ==> running == Some(JointVelocities))
      && (starts == PoseInterfaces(name) ==> running == Some(CartesianPoses))
      && (starts == TwistInterfaces(name) ==> running == Some(CartesianVelocities))
      && (IsNamedBy(name, stops) && !IsNamedBy(name, starts) ==> running == Some(Reading))
      && (!IsNamedBy(name, stops) && !IsNamedBy(name, starts) && !old(h.arms[i].state.switchCm) ==>
            running == old(h.arms[i].robot.running))
  {
    hide IsNamedBy, Mentioning, Outcome, JointInterfaces, PoseInterfaces, TwistInterfaces, Zeros;
    ghost var before, startMine, stopMine := h.States(), h.Mine(starts), h.Mine(stops);
    ghost var names := h.Names();
    ok := h.PrepareCommandModeSwitch(starts, stops);
    ghost var after := h.States();
    ghost var r := Request(starts, stops, true);
    ghost var k: nat :| Outcome(before, after, ok, startMine, stopMine, r, k);
    OkMeansAllAccept(before, after, ok, startMine, stopMine, r, k);
    forall i, kind | 0 <= i < |names| && IsClaimOf(starts, stops, names, i, kind)
      ensures ok <==> before[i].mode == Off && Unconfused(names[i], kind)
    {
      ClaimAccepted(before, names, startMine, stopMine, i, kind, starts, stops);
    }
    if ok {
      forall i | 0 <= i < h.arms.Length
        ensures Commands(before[i], after[i], h.arms[i].name, starts, stops)
      {
        SwitchedMode(before[i], after[i], h.arms[i].name, starts, stops);
      }
      h.PerformCommandModeSwitch();
    }
  }

  /** The request claims the joint interfaces of arm i and no interface that contains another arm's name. */
  ghost predicate IsClaimOf(starts: seq<string>, stops: seq<string>, names: seq<string>, i: nat, kind: Kind)
    requires i < |names|
  {
    && stops == [] && starts == JointInterfaces(names[i], kind)
    && forall j :: 0 <= j < |names| && j != i ==> !IsNamedBy(names[j], starts)
  }

  lemma ClaimAccepted(before: seq<ArmState>, names: seq<string>, startMine: seq<seq<string>>,
                      stopMine: seq<seq<string>>,
                      i: nat, kind: Kind, starts: seq<string>, stops: seq<string>)
    requires |before| == |names| == |startMine| == |stopMine| && i < |names|
    requires IsClaimOf(starts, stops, names, i, kind)
    requires forall j :: 0 <= j < |names| ==>
      startMine[j] == Mentioning(starts, names[j]) && stopMine[j] == Mentioning(stops, names[j])
    ensures (forall j :: 0 <= j < |names| ==>
      Both(before[j], startMine[j], stopMine[j], Request(starts, stops, true)).Some?)
      <==> before[i].mode == Off && Unconfused(names[i], kind)
  {
    hide Has, Stop, Start, JointInterfaces, Unconfused;
    var r := Request(starts, stops, true);
    forall j | 0 <= j < |names|
      ensures Both(before[j], startMine[j], stopMine[j], r) == Start(before[j], startMine[j], r)
      ensures j != i ==> Start(before[j], startMine[j], r) == Some(before[j])
    {
      NothingNamed(before[j], r);
      MentionedIff(starts, names[j]);
    }
    InterfacesMentionArm(names[i], kind);
    AllMention(starts, names[i]);
    ClaimSwitchesArm(names[i], kind, before[i]);
  }

  /** The mode after an accepted prepare, by the interfaces. */
  ghost predicate Commands(a: ArmState, b: ArmState, name: string, starts: seq<string>, stops: seq<string>) {
    && (starts == JointInterfaces(name, Effort) ==> b.mode == JointTorque)
    && (starts == JointInterfaces(name, Position) ==> b.mode == JointPosition)
    && (starts == JointInterfaces(name, Velocity) ==> b.mode == JointVelocity)
    && (starts == PoseInterfaces(name) ==> b.mode == CartesianPose)
    && (starts == TwistInterfaces(name) ==> b.mode == CartesianVelocity)
    && (IsNamedBy(name, stops) && !IsNamedBy(name, starts) ==> b.mode == Off)
    && (!IsNamedBy(name, stops) && !IsNamedBy(name, starts) ==> b == a)
  }

  ghost predicate IsNamedBy(name: string, interfaces: seq<string>) {
    exists s :: s in interfaces && Has(s, name)
  }

  lemma SwitchedMode(a: ArmState, b: ArmState, name: string, starts: seq<string>, stops: seq<string>)
    requires Both(a, Mentioning(starts, name), Mentioning(stops, name), Request(starts, stops, true)) == Some(b)
    ensures Commands(a, b, name, starts, stops)
  {
    hide Has, Mentioning, Stop, Start, JointInterfaces, PoseInterfaces, TwistInterfaces, Unconfused;
    var r := Request(starts, stops, true);
    var mid := Stop(a, Mentioning(stops, name), r).value;
    StopMarks(a, Mentioning(stops, name), r);
    StartMarks(mid, Mentioning(starts, name), r);
    MentionedIff(starts, name);
    MentionedIff(stops, name);
    AllMention(starts, name);
    StartIgnoresStops(mid, starts, stops, true);
    StartIgnoresStops(mid, starts, starts, true);
    InterfacesMentionArm(name, Effort);
    InterfacesMentionArm(name, Position);
    InterfacesMentionArm(name, Velocity);
    ClaimAndRelease(mid, name, Effort, true);
    ClaimAndRelease(mid, name, Position, true);
    ClaimAndRelease(mid, name, Velocity, true);
    CartesianInterfacesMentionArm(name);
    CartesianClaimAndRelease(mid, name, true);
  }

  lemma CartesianInterfacesMentionArm(arm: string)
    ensures forall s :: s in PoseInterfaces(arm) || s in TwistInterfaces(arm) ==> Has(s, arm)
  {
    hide Has;
    forall s | s in PoseInterfaces(arm)
      ensures Has(s, arm)
    {
      var i :| 0 <= i < 16 && s == CartesianInterface(arm, "position", POSE_ENTRIES[i]);
      StartsWithArm(arm, "position", POSE_ENTRIES[i]);
    }
    forall s | s in TwistInterfaces(arm)
      ensures Has(s, arm)
    {
      var i :| 0 <= i < 6 && s == CartesianInterface(arm, "velocity", TWIST_ENTRIES[i]);
      StartsWithArm(arm, "velocity", TWIST_ENTRIES[i]);
    }
  }

  lemma StartsWithArm(arm: string, word: string, entry: string)
    ensures Has(CartesianInterface(arm, word, entry), arm)
  {
    assert StartsWith(CartesianInterface(arm, word, entry)[0..], arm);
  }

  // ----- which arms a request reaches

  lemma {:induction false} MentionedIff(interfaces: seq<string>, name: string)
    ensures Mentioning(interfaces, name) == [] <==> forall i :: 0 <= i < |interfaces| ==> !Has(interfaces[i], name)
    ensures forall s :: s in Mentioning(interfaces, name) ==> s in interfaces
  {
    hide Has;
    if interfaces != [] {
      MentionedIff(interfaces[..|interfaces| - 1], name);
    }
  }

  /** An arm is out of reach of a request in whose interfaces its name does not occur, however prepare ends. */
  lemma RequestsAreIsolated(names: seq<string>, before: seq<ArmState>, after: seq<ArmState>, ok: bool, r: Request,
                            k: nat, i: nat)
    requires |names| == |before| && i < |before|
    requires var startMine := seq(|names|, j requires 0 <= j < |names| => Mentioning(r.starts, names[j]));
      var stopMine := seq(|names|, j requires 0 <= j < |names| => Mentioning(r.stops, names[j]));
      Outcome(before, after, ok, startMine, stopMine, r, k)
    requires forall s :: s in r.starts + r.stops ==> !Has(s, names[i])
    ensures i < |after| && after[i] == before[i]
  {
    hide Has, Mentioning, Stop, Start;
    var startMine := seq(|names|, j requires 0 <= j < |names| => Mentioning(r.starts, names[j]));
    var stopMine := seq(|names|, j requires 0 <= j < |names| => Mentioning(r.stops, names[j]));
    MentionedIff(r.starts, names[i]);
    MentionedIff(r.stops, names[i]);
    PrepareMarks(before, after, ok, startMine, stopMine, r, k, i);
  }

  /** A claim on arm a leaves arm b alone if and only if b's name occurs in none of a's interfaces; otherwise b is
      switched too, or the claim refused. */
  lemma ClaimIsIsolatedIff(a: string, kind: Kind, b: string, state: ArmState)
    ensures var mine := JointInterfaces(a, kind);
      Start(state, Mentioning(mine, b), Request(mine, [], true)) == Some(state) <==>
        forall i :: 0 <= i < NUMBER_OF_JOINTS ==> !Has(JointInterface(a, i, kind), b)
  {
    hide Has, JointInterface, Mentioning, CommonKind;
    var mine := JointInterfaces(a, kind);
    var named := Mentioning(mine, b);
    MentionedIff(mine, b);
    assert forall i :: 0 <= i < NUMBER_OF_JOINTS ==> mine[i] == JointInterface(a, i, kind);
    if named != [] {
      forall s | s in named
        ensures Has(s, "joint")
      {
        var i :| 0 <= i < |mine| && mine[i] == s;
        InterfaceKind(a, i, kind, kind);
      }
      JointStartShows(state, named, Request(mine, [], true));
    } else {
      NothingNamed(state, Request(mine, [], true));
    }
  }

  /** What releasing arm a's interfaces does to arm b, which is named by the interfaces its name occurs in. */
  lemma ReleaseReaches(a: string, kind: Kind, b: string, state: ArmState)
    ensures var mine := JointInterfaces(a, kind);
      Stop(state, Mentioning(mine, b), Request([], mine, true)) ==
        if forall i :: 0 <= i < NUMBER_OF_JOINTS ==> !Has(JointInterface(a, i, kind), b) then Some(state)
        else if (forall i :: 0 <= i < NUMBER_OF_JOINTS ==> Has(JointInterface(a, i, kind), b)) && Unconfused(a, kind)
          then Some(Released(state, kind)) else None
  {
    hide Has, JointInterface, Mentioning, CommonKind, Unconfused, Zeros;
    var mine := JointInterfaces(a, kind);
    var named := Mentioning(mine, b);
    var r := Request([], mine, true);
    MentionedIff(mine, b);
    AllMention(mine, b);
    assert forall i :: 0 <= i < NUMBER_OF_JOINTS ==> mine[i] == JointInterface(a, i, kind);
    if named == [] {
      NothingNamed(state, r);
    } else if |named| == NUMBER_OF_JOINTS {
      ClaimAndRelease(state, a, kind, true);
      StopIgnoresStarts(state, mine, mine, [], true);
    } else {
      forall s | s in named
        ensures Has(s, "joint")
      {
        var i :| 0 <= i < |mine| && mine[i] == s;
        InterfaceKind(a, i, kind, kind);
      }
      PartlyNamed(state, named, r);
    }
  }

  /** Releasing arm a's interfaces leaves arm b alone if and only if b's name occurs in none of them, or in all of
      them and b already is as it would be left. */
  lemma ReleaseIsIsolatedIff(a: string, kind: Kind, b: string, state: ArmState)
    ensures var mine := JointInterfaces(a, kind);
      Stop(state, Mentioning(mine, b), Request([], mine, true)) == Some(state) <==>
        || (forall i :: 0 <= i < NUMBER_OF_JOINTS ==> !Has(JointInterface(a, i, kind), b))
        || ((forall i :: 0 <= i < NUMBER_OF_JOINTS ==> Has(JointInterface(a, i, kind), b)) && Unconfused(a, kind)
            && state == Released(state, kind))
  {
    hide Has, JointInterface, JointInterfaces, Mentioning, Stop, Unconfused, Released;
    ReleaseReaches(a, kind, b, state);
  }

  lemma PartlyNamed(a: ArmState, mine: seq<string>, r: Request)
    requires 0 < |mine| < NUMBER_OF_JOINTS && forall s :: s in mine ==> Has(s, "joint")
    ensures Stop(a, mine, r).None?
  {
    hide Has, CommonKind;
    assert CheckCommandModeType(mine) == 1;
  }

  lemma JointStartShows(a: ArmState, mine: seq<string>, r: Request)
    requires mine != [] && forall s :: s in mine ==> Has(s, "joint")
    ensures Start(a, mine, r) != Some(a)
  {
    hide Has, CommonKind;
    assert CheckCommandModeType(mine) == 1;
  }

  /** For a name without separators the interfaces add only the words they are built from to the name of their arm. */
  lemma NameReaches(a: string, i: nat, kind: Kind, b: string)
    requires i < NUMBER_OF_JOINTS && b != [] && '_' !in b && '/' !in b
    ensures Has(JointInterface(a, i, kind), b) <==>
      Has(a, b) || Has("joint" + "1234567"[i..i + 1], b) || Has(Word(kind), b)
  {
    hide Has;
    var joint := "joint" + "1234567"[i..i + 1];
    HasAcross(a, "_", joint + "/" + Word(kind), b);
    HasAcross(joint, "/", Word(kind), b);
  }

  /** Handing the torque interfaces from the left arm to the right fails if the right is in use, but leaves the left
      arm switched off. */
  lemma PrepareIsNotAtomic() returns (before: seq<ArmState>, after: seq<ArmState>)
    ensures before == [ArmState(JointTorque, false, Zeros(7), Zeros(7), Zeros(6)),
      ArmState(JointPosition, false, Zeros(7), Zeros(7), Zeros(6))]
    ensures after == [before[0].(mode := Off, switchCm := true), before[1]]
    ensures var r := Request(JointInterfaces("right", Effort), JointInterfaces("left", Effort), true);
      Outcome(before, after, false, [Mentioning(r.starts, "left"), Mentioning(r.starts, "right")],
              [Mentioning(r.stops, "left"), Mentioning(r.stops, "right")], r, 1)
  {
    hide Has, JointInterfaces, Mentioning, Stop, Start, Zeros, Unconfused;
    var left, right := JointInterfaces("left", Effort), JointInterfaces("right", Effort);
    before := [ArmState(JointTorque, false, Zeros(7), Zeros(7), Zeros(6)),
      ArmState(JointPosition, false, Zeros(7), Zeros(7), Zeros(6))];
    after := [before[0].(mode := Off, switchCm := true), before[1]];
    ShortNamesAreSeparate();
    InterfacesMentionArm("left", Effort);
    InterfacesMentionArm("right", Effort);
    AllMention(left, "left");
    AllMention(right, "right");
    ClaimAndRelease(before[0], "left", Effort, true);
    ClaimAndRelease(before[1], "right", Effort, true);
    StartIgnoresStops(before[1], right, right, true);
    StartIgnoresStops(before[1], right, left, true);
    StopIgnoresStarts(before[0], left, left, right, true);
    NothingNamed(after[0], Request(right, left, true));
    NothingNamed(before[1], Request(right, left, true));
    assert Stop(before[0], left, Request(right, left, true)) == Some(after[0]);
    assert Start(before[1], right, Request(right, left, true)) == None;
  }

  lemma StopIgnoresStarts(a: ArmState, mine: seq<string>, starts: seq<string>, starts': seq<string>, cartesian: bool)
    ensures Stop(a, mine, Request(starts, mine, cartesian)) == Stop(a, mine, Request(starts', mine, cartesian))
  {}

  lemma NothingNamed(a: ArmState, r: Request)
    ensures Stop(a, [], r) == Some(a) == Start(a, [], r)
  {}

  lemma ShortNamesAreSeparate()
    ensures Unconfused("left", Effort) && Unconfused("right", Effort)
    ensures Mentioning(JointInterfaces("left", Effort), "right") == []
      == Mentioning(JointInterfaces("right", Effort), "left")
  {
    hide Has, Mentioning, JointInterface, Unconfused;
    SidesAreSeparate();
    forall i: nat | i < NUMBER_OF_JOINTS
      ensures !Has(JointInterface("left", i, Effort), "right") && !Has(JointInterface("right", i, Effort), "left")
    {
      JointIsNoSide(i);
      NameReaches("left", i, Effort, "right");
      NameReaches("right", i, Effort, "left");
    }
    MentionedIff(JointInterfaces("left", Effort), "right");
    MentionedIff(JointInterfaces("right", Effort), "left");
  }

  lemma SidesAreSeparate()
    ensures !Has("left", "right") && !Has("right", "left") && !Has("effort", "left") && !Has("effort", "right")
    ensures Unconfused("left", Effort) && Unconfused("right", Effort)
  {
    hide Has;
    FirstLetterDecides("left", "right");
    FirstLetterDecides("right", "left");
    FirstLetterDecides("effort", "left");
    FirstLetterDecides("effort", "right");
    forall kind
      ensures !Has("left", Word(kind)) && !Has("right", Word(kind))
    {
      FirstLetterDecides("left", Word(kind));
      FirstLetterDecides("right", Word(kind));
    }
  }

  lemma JointIsNoSide(i: nat)
    requires i < NUMBER_OF_JOINTS
    ensures !Has("joint" + "1234567"[i..i + 1], "left") && !Has("joint" + "1234567"[i..i + 1], "right")
  {
    hide Has;
    var s := "joint" + "1234567"[i..i + 1];
    assert s[0] == 'j' && s[1] == 'o' && s[2] == 'i';
    FirstLetterDecides(s, "left");
    FirstLetterDecides(s, "right");
  }
}
