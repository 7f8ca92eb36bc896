/** The controller that swaps sets of controllers over the arms (multi_mode_controller.cpp): loading,
    the set_controllers service, and the cycle that writes the commanded torques. */
module MultiModeController {
  import opened Basics
  import opened ResourceNames
  import opened ControlSets

  const NUM_JOINTS: nat := 7

  /** One entry of a set_controllers request. */
  datatype Request = Request(name: string, resources: seq<string>)

  ghost function PairsOf(r: Request): seq<Control> {
    seq(|r.resources|, i requires 0 <= i < |r.resources| => Control(r.name, r.resources[i]))
  }

  ghost function Pairs(requests: seq<Request>): seq<Control> {
    if requests == [] then [] else Pairs(requests[..|requests| - 1]) + PairsOf(requests[|requests| - 1])
  }

  /** What setupControlSet counts: every arm's entry in resource_usage, found through its name, is one. */
  ghost predicate PassesCount(arms: Arms, controls: seq<Control>) {
    forall i :: 0 <= i < |arms| ==> Uses(arms, controls)[RobotIndex(arms, arms[i])] == 1
  }

  predicate IsLoadedIn(controlMap: map<string, set<string>>, c: Control) {
    c.name in controlMap && c.resource in controlMap[c.name]
  }

  ghost predicate Accepts(arms: Arms, controlMap: map<string, set<string>>, active: seq<Control>, info: seq<Control>) {
    && (forall i :: 0 <= i < |info| ==> IsLoadedIn(controlMap, info[i]))
    && PassesCount(arms, Merge(arms, info, active))
  }

  /** The active set after one call of the service: all or nothing. */
  ghost function Next(arms: Arms, controlMap: map<string, set<string>>, active: seq<Control>,
                      call: seq<Request>): seq<Control> {
    var info := Pairs(call);
    if Accepts(arms, controlMap, active, info) then Merge(arms, info, active) else active
  }

  /** The torque standing in an arm's array after a cycle: the last active controller of that arm wins. */
  ghost function Commanded(arms: Arms, active: seq<Control>, torque: (Control, nat, nat) -> real, n: nat, i: nat,
                           stale: real): real {
    if active == [] then stale
    else
      var last := active[|active| - 1];
      if n in Tau(arms, last.resource) then torque(last, n, i)
      else Commanded(arms, active[..|active| - 1], torque, n, i, stale)
  }

  class Controller {
    const arms: Arms
    /** control_map_: the resources each loaded controller was created for. */
    const controlMap: map<string, set<string>>
    var active: seq<Control>
    /** The controllers the switch engines have started and not stopped. */
    var running: multiset<Control>
    const tau: array2<real>
    const commands: array<real>

    ghost predicate Valid()
      reads this
    {
      && tau.Length0 == |arms| && tau.Length1 == NUM_JOINTS
      && commands.Length == NUM_JOINTS * |arms|
      && running == multiset(active)
    }

    predicate IsLoaded(c: Control) {
      IsLoadedIn(controlMap, c)
    }

    ghost predicate AllLoaded(info: seq<Control>) {
      forall i :: 0 <= i < |info| ==> IsLoaded(info[i])
    }

    /** Configuration, with whatever start set the parameters name, and activation. */
    constructor (arms: Arms, controlMap: map<string, set<string>>, start: seq<Control>)
      ensures Valid() && this.arms == arms && this.controlMap == controlMap
      ensures active == if AllLoaded(start) then start else []
    {
      this.arms := arms;
      this.controlMap := controlMap;
      active := [];
      running := multiset{};
      tau := new real[|arms|, NUM_JOINTS]((_, _) => 0.0);
      commands := new real[NUM_JOINTS * |arms|];
      new;
      var controls := GetControlSetFromInfo(start);
      if controls.Some? {
        active := controls.value;
      }
      StartActive();
    }

    method GetControlSetFromInfo(info: seq<Control>) returns (controls: Option<seq<Control>>)
      ensures controls == if AllLoaded(info) then Some(info) else None
    {
      var out := [];
      for i := 0 to |info|
        invariant out == info[..i] && forall j :: 0 <= j < i ==> IsLoaded(info[j])
      {
        if info[i].name !in controlMap {
          return None;
        } else if info[i].resource in controlMap[info[i].name] {
          out := out + [info[i]];
        } else {
          return None;
        }
      }
      assert info[..|info|] == info;
      return Some(out);
    }

    /** The requested controllers, and every old one that shares no arm with those collected before it. */
    method CarryOver(info: seq<Control>) returns (out: seq<Control>)
      ensures out == Merge(arms, info, active)
    {
      out := info;
      for i := 0 to |active|
        invariant Merge(arms, out, active[i..]) == Merge(arms, info, active)
      {
        var old' := active[i];
        var add := true;
        for k := 0 to |out|
          invariant add && forall j :: 0 <= j < k ==> !Shares(arms, old', out[j])
        {
          if Shares(arms, old', out[k]) {
            add := false;
            break;
          }
        }
        assert active[i..][0] == old' && active[i..][1..] == active[i + 1..];
        assert add == !Overlaps(arms, old', out);
        if add {
          out := out + [old'];
        }
      }
    }

    method CountUsage(controls: seq<Control>) returns (usage: array<int>)
      ensures fresh(usage) && usage.Length == |arms|
      ensures forall k: nat :: k < |arms| ==> usage[k] == Uses(arms, controls)[k]
    {
      hide Tau, Uses;
      usage := new int[|arms|](_ => 0);
      EmptyUses(controls[..0]);
      for i := 0 to |controls|
        invariant forall k: nat :: k < |arms| ==> usage[k] == Uses(arms, controls[..i])[k]
      {
        CountResource(usage, controls[i].resource);
        assert controls[..i + 1] == controls[..i] + [controls[i]];
        UsesOfConcat(arms, controls[..i], [controls[i]]);
        UsesOfOne(arms, controls[i]);
      }
      assert controls[..|controls|] == controls;
    }

    lemma EmptyUses(controls: seq<Control>)
      requires controls == []
      ensures Uses(arms, controls) == multiset{}
    {}

    method CountResource(usage: array<int>, resource: string)
      requires usage.Length == |arms|
      modifies usage
      ensures forall k: nat :: k < |arms| ==> usage[k] == old(usage[k]) + multiset(Tau(arms, resource))[k]
    {
      var tau := Tau(arms, resource);
      hide Tau;
      for j := 0 to |tau|
        invariant forall k: nat :: k < |arms| ==> usage[k] == old(usage[k]) + multiset(tau[..j])[k]
      {
        assert tau[..j + 1] == tau[..j] + [tau[j]];
        assert tau[j] in tau;
        usage[tau[j]] := usage[tau[j]] + 1;
      }
      assert tau[..|tau|] == tau;
    }

    method SetupControlSet(info: seq<Control>) returns (controls: Option<seq<Control>>)
      ensures var next := Merge(arms, info, active);
        controls == if AllLoaded(info) && PassesCount(arms, next) then Some(next) else None
    {
      hide RobotIndex, Merge, Uses;
      var out := GetControlSetFromInfo(info);
      if out.None? {
        return None;
      }
      var next := CarryOver(out.value);
      var usage := CountUsage(next);
      for i := 0 to |arms|
        invariant forall j :: 0 <= j < i ==> Uses(arms, next)[RobotIndex(arms, arms[j])] == 1
      {
        if usage[RobotIndex(arms, arms[i])] > 1 {
          return None;
        } else if usage[RobotIndex(arms, arms[i])] < 1 {
          return None;
        }
      }
      return Some(next);
    }

    method Flatten(requests: seq<Request>) returns (info: seq<Control>)
      ensures info == Pairs(requests)
    {
      info := [];
      for i := 0 to |requests|
        invariant info == Pairs(requests[..i])
      {
        var r := requests[i];
        for j := 0 to |r.resources|
          invariant info == Pairs(requests[..i]) + PairsOf(r)[..j]
        {
          info := info + [Control(r.name, r.resources[j])];
        }
        assert requests[..i + 1][..i] == requests[..i] && PairsOf(r)[..|r.resources|] == PairsOf(r);
      }
      assert requests[..|requests|] == requests;
    }

    method StopActive()
      requires running == multiset(active)
      modifies this`running
      ensures running == multiset{}
    {
      assert active[0..] == active;
      for i := 0 to |active|
        invariant running == multiset(active[i..])
      {
        assert active[i..] == [active[i]] + active[i + 1..];
        // every engine is told to stop a controller it is running
        assert active[i] in running;
        running := running - multiset{active[i]};
      }
    }

    method StartActive()
      requires running == multiset{}
      modifies this`running
      ensures running == multiset(active)
    {
      for i := 0 to |active|
        invariant running == multiset(active[..i])
      {
        assert active[..i + 1] == active[..i] + [active[i]];
        running := running + multiset{active[i]};
      }
      assert active[..|active|] == active;
    }

    /** The service: all or nothing. */
    method SetControllers(requests: seq<Request>) returns (ok: bool)
      requires Valid()
      modifies this`active, this`running
      ensures Valid()
      ensures ok <==> Accepts(arms, controlMap, old(active), Pairs(requests))
      ensures active == Next(arms, controlMap, old(active), requests)
    {
      hide Merge, Pairs, PassesCount;
      var info := Flatten(requests);
      var controls := SetupControlSet(info);
      if controls.None? {
        return false;
      }
      StopActive();
      active := controls.value;
      StartActive();
      return true;
    }

    /** One cycle: every active controller computes its arms' torques, then all are written out. */
    method Update(torque: (Control, nat, nat) -> real)
      requires Valid()
      modifies tau, commands
      ensures forall n: nat, i: nat :: n < |arms| && i < 7 ==>
        commands[7 * n + i] == Commanded(arms, active, torque, n, i, old(tau[n, i]))
    {
      hide RobotIndex, ResourceToVector;
      for c := 0 to |active|
        invariant forall n: nat, i: nat :: n < |arms| && i < NUM_JOINTS ==>
          tau[n, i] == Commanded(arms, active[..c], torque, n, i, old(tau[n, i]))
      {
        ComputeTau(active[c], torque);
        assert active[..c + 1][..c] == active[..c];
      }
      assert active[..|active|] == active;
      WriteCommands();
    }

    /** The torques of arm n go to the seven slots of its own block. */
    method WriteCommands()
      requires Valid()
      modifies commands
      ensures forall n: nat, i: nat :: n < |arms| && i < NUM_JOINTS ==> commands[NUM_JOINTS * n + i] == tau[n, i]
    {
      var k := 0;
      for n := 0 to |arms|
        invariant k == NUM_JOINTS * n
        invariant forall m: nat, i: nat :: m < n && i < NUM_JOINTS ==> commands[NUM_JOINTS * m + i] == tau[m, i]
      {
        for j := 0 to NUM_JOINTS
          invariant k == NUM_JOINTS * n + j
          invariant forall m: nat, i: nat :: m < n && i < NUM_JOINTS ==> commands[NUM_JOINTS * m + i] == tau[m, i]
          invariant forall i: nat :: i < j ==> commands[NUM_JOINTS * n + i] == tau[n, i]
        {
          commands[k] := tau[n, j];
          k := k + 1;
        }
      }
    }

    /** A controller writes the torque arrays it points to, and nothing else. */
    method ComputeTau(c: Control, torque: (Control, nat, nat) -> real)
      requires Valid()
      modifies tau
      ensures forall n: nat, i: nat :: n < |arms| && i < NUM_JOINTS ==>
        tau[n, i] == if n in Tau(arms, c.resource) then torque(c, n, i) else old(tau[n, i])
    {
      hide RobotIndex, ResourceToVector;
      var targets := Tau(arms, c.resource);
      for t := 0 to |targets|
        invariant forall n: nat, i: nat :: n < |arms| && i < NUM_JOINTS ==>
          tau[n, i] == if n in targets[..t] then torque(c, n, i) else old(tau[n, i])
      {
        assert targets[..t + 1] == targets[..t] + [targets[t]];
        forall i | 0 <= i < NUM_JOINTS {
          tau[targets[t], i] := torque(c, targets[t], i);
        }
      }
      assert targets[..|targets|] == targets;
    }
  }

  // ----- what the count means, and what holds over whole runs

  /** An arm that is not the first of its name is driven by nobody: every name leads to the first. */
  lemma LaterNameIsHidden(arms: Arms, controls: seq<Control>, i: nat, j: nat)
    requires i < j < |arms| && arms[i] == arms[j]
    ensures Uses(arms, controls)[j] == 0
  {
    hide Uses, ResourceToVector, RobotIndex;
    UsedBySomeone(arms, controls, j);
    forall c | 0 <= c < |controls|
      ensures j !in Tau(arms, controls[c].resource)
    {}
  }

  /** The count checks that every arm is driven exactly once if and only if no two arms share a name. */
  lemma CountIsExactCover(arms: Arms, controls: seq<Control>)
    ensures ExactCover(arms, controls) <==> PassesCount(arms, controls) && AreDistinct(arms)
  {
    hide Uses;
    if AreDistinct(arms) {
      forall i: nat | i < |arms|
        ensures RobotIndex(arms, arms[i]) == i
      {}
      if PassesCount(arms, controls) {
        forall k: nat | k < |arms|
          ensures Uses(arms, controls)[k] == 1
        {
          assert RobotIndex(arms, arms[k]) == k;
        }
      }
    } else {
      var i, j :| 0 <= i < j < |arms| && arms[i] == arms[j];
      LaterNameIsHidden(arms, controls, i, j);
    }
  }

  /** With two arms of one name the count passes although the second is driven by nobody. */
  lemma SameNameHidesAnArm()
    ensures PassesCount(["panda", "panda"], [Control("c", "panda")])
    ensures !ExactCover(["panda", "panda"], [Control("c", "panda")])
  {
    var arms := ["panda", "panda"];
    var c := Control("c", "panda");
    assert FindSeparator("panda") == 5 by {
      SeparatorAfterName("panda", "");
    }
    assert ResourceToVector("panda") == ["panda"];
    assert RobotIndex(arms, "panda") == 0;
    assert Tau(arms, "panda") == [0];
    UsesOfOne(arms, c);
    assert Uses(arms, [c])[0] == 1 && Uses(arms, [c])[1] == 0;
  }

  /** The start set is never counted: one that leaves an arm undriven is taken as it is. */
  method StartSetMayMissAnArm() returns (c: Controller)
    ensures c.Valid() && c.active == [Control("c", "left")] && !ExactCover(c.arms, c.active)
  {
    hide ExactCover;
    c := new Controller(["left", "right"], map["c" := {"left"}], [Control("c", "left")]);
    RightIsUndriven();
  }

  lemma RightIsUndriven()
    ensures !ExactCover(["left", "right"], [Control("c", "left")])
  {
    var arms := ["left", "right"];
    var c := Control("c", "left");
    assert FindSeparator("left") == 4 by {
      SeparatorAfterName("left", "");
    }
    assert ResourceToVector("left") == ["left"];
    assert RobotIndex(arms, "left") == 0;
    assert Tau(arms, "left") == [0];
    UsesOfOne(arms, c);
    assert Uses(arms, [c])[1] == 0;
  }

  /** The active set after a sequence of calls of the service. */
  ghost function Run(arms: Arms, controlMap: map<string, set<string>>, active: seq<Control>,
                     calls: seq<seq<Request>>): seq<Control> {
    if calls == [] then active
    else Next(arms, controlMap, Run(arms, controlMap, active, calls[..|calls| - 1]), calls[|calls| - 1])
  }

  /** Clients of the service, one call after another. */
  method Serve(c: Controller, calls: seq<seq<Request>>) returns (replies: seq<bool>)
    requires c.Valid()
    modifies c
    ensures c.Valid() && c.active == Run(c.arms, c.controlMap, old(c.active), calls)
    ensures |replies| == |calls| && forall i :: 0 <= i < |calls| ==>
      (replies[i] <==> Accepts(c.arms, c.controlMap, Run(c.arms, c.controlMap, old(c.active), calls[..i]),
        Pairs(calls[i])))
    ensures ExactCover(c.arms, old(c.active)) ==> ExactCover(c.arms, c.active)
  {
    hide Accepts, Next, ExactCover;
    replies := [];
    for i := 0 to |calls|
      invariant c.Valid() && c.active == Run(c.arms, c.controlMap, old(c.active), calls[..i])
      invariant |replies| == i && forall k :: 0 <= k < i ==>
        (replies[k] <==> Accepts(c.arms, c.controlMap, Run(c.arms, c.controlMap, old(c.active), calls[..k]),
          Pairs(calls[k])))
    {
      assert calls[..i + 1][..i] == calls[..i];
      var ok := c.SetControllers(calls[i]);
      replies := replies + [ok];
    }
    assert calls[..|calls|] == calls;
    RunKeepsExactCover(c.arms, c.controlMap, old(c.active), calls);
  }

  /** Over any run an exact cover stays one; and whatever the start set, a changed set is one if and only if no two
      arms share a name. */
  lemma {:induction false} RunKeepsExactCover(arms: Arms, controlMap: map<string, set<string>>, active: seq<Control>,
                                              calls: seq<seq<Request>>)
    ensures var end := Run(arms, controlMap, active, calls);
      && (ExactCover(arms, active) ==> ExactCover(arms, end))
      && (end != active ==> (ExactCover(arms, end) <==> AreDistinct(arms)))
  {
    hide PassesCount, ExactCover, AreDistinct, Merge, Pairs;
    if calls != [] {
      var front, call := calls[..|calls| - 1], calls[|calls| - 1];
      RunKeepsExactCover(arms, controlMap, active, front);
      CountIsExactCover(arms, Run(arms, controlMap, active, front));
      CountIsExactCover(arms, Merge(arms, Pairs(call), Run(arms, controlMap, active, front)));
    }
  }

  /** Under an exact cover every arm's torques come from its one controller, whatever stood there before. */
  lemma OwnerCommands(arms: Arms, active: seq<Control>, j: nat, torque: (Control, nat, nat) -> real, n: nat, i: nat,
                      stale: real)
    requires ExactCover(arms, active) && j < |active| && n in Tau(arms, active[j].resource)
    ensures Commanded(arms, active, torque, n, i, stale) == torque(active[j], n, i)
  {
    hide Tau, Uses;
    TauInRange(arms, active[j].resource, n);
    var k := OwnerOf(arms, active, n);
    LastWriter(arms, active, k, torque, n, i, stale);
  }

  lemma TauInRange(arms: Arms, resource: string, n: nat)
    requires n in Tau(arms, resource)
    ensures n < |arms|
  {}

  lemma {:induction false} LastWriter(arms: Arms, active: seq<Control>, k: nat, torque: (Control, nat, nat) -> real,
                                      n: nat, i: nat, stale: real)
    requires k < |active| && n in Tau(arms, active[k].resource)
    requires forall j :: 0 <= j < |active| && n in Tau(arms, active[j].resource) ==> j == k
    ensures Commanded(arms, active, torque, n, i, stale) == torque(active[k], n, i)
  {
    hide Tau;
    if k < |active| - 1 {
      LastWriter(arms, active[..|active| - 1], k, torque, n, i, stale);
    }
  }

  /** No switch engine runs two controllers, and none runs one twice, unless it serves no arm at all. */
  lemma EnginesRunOneController(arms: Arms, active: seq<Control>, c: Control, d: Control)
    requires ExactCover(arms, active) && Tau(arms, c.resource) != [] && c.resource == d.resource
    requires c in active && d in active
    ensures c == d && multiset(active)[c] == 1
  {
    hide Tau, Uses, ExactCover;
    var i :| 0 <= i < |active| && active[i] == c;
    var j :| 0 <= j < |active| && active[j] == d;
    if i < j {
      OneControllerPerEngine(arms, active, i, j);
    } else if j < i {
      OneControllerPerEngine(arms, active, j, i);
    }
    if c in active[..i] {
      var k :| 0 <= k < i && active[k] == c;
      OneControllerPerEngine(arms, active, k, i);
    }
    if c in active[i + 1..] {
      var k :| 0 <= k < |active| - i - 1 && active[i + 1..][k] == c;
      OneControllerPerEngine(arms, active, i, i + 1 + k);
    }
    assert active == active[..i] + [c] + active[i + 1..];
  }
}
