/** Classifying command interfaces and preparing a mode switch: what the real and the simulated hardware
    share (helper_functions.cpp, lines 5-39, and the two prepare_command_mode_switch functions). */
module CommandModes {
  import opened Basics

  datatype ControlMode = Off | JointTorque | JointPosition | JointVelocity | CartesianVelocity | CartesianPose

  const NUMBER_OF_JOINTS: nat := 7

  predicate StartsWith(mainStr: string, toMatch: string) {
    |toMatch| <= |mainStr| && mainStr[..|toMatch|] == toMatch
  }

  /** find(content) != npos */
  predicate Has(s: string, content: string) {
    exists i :: 0 <= i <= |s| - |content| && StartsWith(s[i..], content)
  }

  predicate AllOfElementHasString(v: seq<string>, content: string) {
    v != [] && forall e :: e in v ==> Has(e, content)
  }

  function CheckCommandModeType(interfaces: seq<string>): int {
    if interfaces != [] then
      var isCartesian := AllOfElementHasString(interfaces, "ee_cartesian");
      var isJoint := AllOfElementHasString(interfaces, "joint");
      if !(isCartesian || isJoint) then -1 else if isJoint then 1 else 2
    else 0
  }

  datatype Kind = Effort | Position | Velocity

  /** The one kind all interfaces of a list have; none if they have no kind in common, or several. */
  function CommonKind(interfaces: seq<string>): Option<Kind> {
    var isEffort := AllOfElementHasString(interfaces, "effort");
    var isPosition := AllOfElementHasString(interfaces, "position");
    var isVelocity := AllOfElementHasString(interfaces, "velocity");
    var isDuplicate := (isEffort && isPosition) || (isEffort && isVelocity) || (isVelocity && isPosition);
    if !(isEffort || isPosition || isVelocity) || isDuplicate then None
    else if isEffort then Some(Effort) else if isPosition then Some(Position) else Some(Velocity)
  }

  /** The part of an arm container that mode switches touch. */
  datatype ArmState = ArmState(mode: ControlMode, switchCm: bool, effort: seq<real>, velocity: seq<real>,
                               cartesianVelocity: seq<real>)

  function Zeros(n: nat): (z: seq<real>)
    ensures |z| == n && forall i :: 0 <= i < n ==> z[i] == 0.0
  {
    seq(n, _ => 0.0)
  }

  /** What stopping does to one arm: `mine` are the stop interfaces naming it, `all` the whole list. */
  function Stopped(a: ArmState, mine: seq<string>, all: seq<string>, cartesian: bool): Option<ArmState> {
    var stopType := CheckCommandModeType(mine);
    if stopType == 0 then Some(a)
    else if stopType == -1 || CommonKind(all).None? then None
    else
      var kind := CommonKind(all).value;
      var off := a.(mode := Off, switchCm := true);
      if stopType == 1 then
        if |mine| != NUMBER_OF_JOINTS then None
        else match kind
          case Effort => Some(off.(effort := Zeros(7)))
          case Velocity => Some(off.(velocity := Zeros(7)))
          case Position => Some(off)
      else if !cartesian || (kind.Position? && |all| != 16) || (kind.Velocity? && |all| != 6) then None
      else Some(if kind.Velocity? then off.(cartesianVelocity := Zeros(6)) else off)
  }

  /** What starting does to one arm. */
  function Started(a: ArmState, mine: seq<string>, all: seq<string>, cartesian: bool): Option<ArmState> {
    var startType := CheckCommandModeType(mine);
    if startType == 0 then Some(a)
    else if startType == -1 || CommonKind(all).None? || a.mode != Off then None
    else
      var kind := CommonKind(all).value;
      if startType == 1 then
        if |mine| != NUMBER_OF_JOINTS then None
        else match kind
          case Effort => Some(a.(mode := JointTorque, switchCm := true))
          case Position => Some(a.(mode := JointPosition, switchCm := true))
          case Velocity => Some(a.(mode := JointVelocity, switchCm := true))
      else if !cartesian || (|mine| != 16 && |mine| != 6) then None
      else match kind
        case Effort => Some(a)
        case Position => Some(a.(mode := CartesianPose, switchCm := true))
        case Velocity => Some(a.(mode := CartesianVelocity, switchCm := true))
  }

  /** The interfaces of both lists that name one arm. */
  datatype Request = Request(starts: seq<string>, stops: seq<string>, cartesian: bool)

  function Stop(a: ArmState, mine: seq<string>, r: Request): Option<ArmState> {
    Stopped(a, mine, r.stops, r.cartesian)
  }

  function Start(a: ArmState, mine: seq<string>, r: Request): Option<ArmState> {
    Started(a, mine, r.starts, r.cartesian)
  }

  /** Both halves of a successful prepare. */
  ghost function Both(a: ArmState, startMine: seq<string>, stopMine: seq<string>, r: Request): Option<ArmState> {
    match Stop(a, stopMine, r)
    case None => None
    case Some(mid) => Start(mid, startMine, r)
  }

  /** The outcome of prepare on all arms in turn: everything done; or the stop loop given up at arm k, with
      the arms before it stopped; or the start loop given up at arm k, with all arms stopped. */
  ghost predicate Outcome(before: seq<ArmState>, after: seq<ArmState>, ok: bool,
                          startMine: seq<seq<string>>, stopMine: seq<seq<string>>, r: Request, k: nat)
  {
    && |before| == |after| == |startMine| == |stopMine| && k <= |before| && (ok <==> k == |before|)
    && if k < |before| && Stop(before[k], stopMine[k], r).None? then
         && (forall i :: 0 <= i < k ==> Stop(before[i], stopMine[i], r) == Some(after[i]))
         && (forall i :: k <= i < |before| ==> after[i] == before[i])
       else
         && (forall i :: 0 <= i < k ==> Both(before[i], startMine[i], stopMine[i], r) == Some(after[i]))
         && (forall i :: k <= i < |before| ==> Stop(before[i], stopMine[i], r) == Some(after[i]))
         && (k < |before| ==> Both(before[k], startMine[k], stopMine[k], r).None?)
  }

  /** The stop loop reached arm k, and if that was the end, the start loop did. */
  lemma ComposedOutcome(before: seq<ArmState>, mid: seq<ArmState>, after: seq<ArmState>, ok: bool,
                        startMine: seq<seq<string>>, stopMine: seq<seq<string>>, r: Request, k: nat)
    requires |before| == |mid| == |after| == |startMine| == |stopMine| && k <= |before| && (ok <==> k == |before|)
    requires (StoppedUpTo(before, mid, stopMine, r, k) && k < |before| && after == mid)
          || (StoppedUpTo(before, mid, stopMine, r, |before|) && StartedUpTo(mid, after, startMine, r, k))
    ensures Outcome(before, after, ok, startMine, stopMine, r, k)
  {}

  ghost predicate StoppedUpTo(before: seq<ArmState>, mid: seq<ArmState>, stopMine: seq<seq<string>>, r: Request, k: nat)
    requires |before| == |mid| == |stopMine| && k <= |before|
  {
    && (forall i :: 0 <= i < k ==> Stop(before[i], stopMine[i], r) == Some(mid[i]))
    && (forall i :: k <= i < |before| ==> mid[i] == before[i])
    && (k < |before| ==> Stop(before[k], stopMine[k], r).None?)
  }

  ghost predicate StartedUpTo(mid: seq<ArmState>, after: seq<ArmState>, startMine: seq<seq<string>>, r: Request, k: nat)
    requires |after| == |mid| == |startMine| && k <= |mid|
  {
    && (forall i :: 0 <= i < k ==> Start(mid[i], startMine[i], r) == Some(after[i]))
    && (forall i :: k <= i < |mid| ==> after[i] == mid[i])
    && (k < |mid| ==> Start(mid[k], startMine[k], r).None?)
  }

  // ----- which lists an arm accepts

  ghost predicate AllHave(interfaces: seq<string>, word: string) {
    forall s :: s in interfaces ==> Has(s, word)
  }

  /** One of the three words, and only this one, occurs in all of them. */
  ghost predicate IsOfKind(interfaces: seq<string>, kind: Kind) {
    && AllHave(interfaces, match kind case Effort => "effort" case Position => "position" case Velocity => "velocity")
    && (kind == Effort || !AllHave(interfaces, "effort"))
    && (kind == Position || !AllHave(interfaces, "position"))
    && (kind == Velocity || !AllHave(interfaces, "velocity"))
  }

  /** Seven joint interfaces, or Cartesian interfaces on real hardware, of which all stops must be as many as the kind
      has. */
  ghost predicate IsFullStop(mine: seq<string>, r: Request, kind: Kind) {
    && (AllHave(mine, "joint") ==> |mine| == 7)
    && (!AllHave(mine, "joint") ==> AllHave(mine, "ee_cartesian") && r.cartesian)
    && (!AllHave(mine, "joint") && kind == Position ==> |r.stops| == 16)
    && (!AllHave(mine, "joint") && kind == Velocity ==> |r.stops| == 6)
  }

  /** Seven joint interfaces, or sixteen or six Cartesian interfaces on real hardware. */
  ghost predicate IsFullStart(mine: seq<string>, r: Request) {
    if AllHave(mine, "joint") then |mine| == 7
    else AllHave(mine, "ee_cartesian") && r.cartesian && (|mine| == 16 || |mine| == 6)
  }

  /** An arm accepts its share of the stops if and only if it is empty, or all stops have one kind in common and the
      share is full. */
  lemma StopAcceptedIff(a: ArmState, mine: seq<string>, r: Request)
    requires forall s :: s in mine ==> s in r.stops
    ensures Stop(a, mine, r).Some? <==>
      mine == [] || exists kind :: IsOfKind(r.stops, kind) && IsFullStop(mine, r, kind)
  {
    hide Has;
    if mine != [] {
      assert mine[0] in mine;
      KindIsCommon(r.stops);
    }
  }

  /** It accepts its share of the starts if and only if it is empty, or the arm is off, all starts have one kind in
      common and the share is full. */
  lemma StartAcceptedIff(a: ArmState, mine: seq<string>, r: Request)
    requires forall s :: s in mine ==> s in r.starts
    ensures Start(a, mine, r).Some? <==>
      mine == [] || (a.mode == Off && IsFullStart(mine, r) && exists kind :: IsOfKind(r.starts, kind))
  {
    hide Has;
    if mine != [] {
      assert mine[0] in mine;
      KindIsCommon(r.starts);
    }
  }

  lemma KindIsCommon(all: seq<string>)
    requires all != []
    ensures forall kind :: CommonKind(all) == Some(kind) <==> IsOfKind(all, kind)
    ensures CommonKind(all).Some? ==> IsOfKind(all, CommonKind(all).value)
  {
    hide Has;
  }

  // ----- what every prepare, failed or not, leaves true

  /** Prepare succeeds exactly when every arm accepts its share of both lists. */
  lemma OkMeansAllAccept(before: seq<ArmState>, after: seq<ArmState>, ok: bool,
                         startMine: seq<seq<string>>, stopMine: seq<seq<string>>, r: Request, k: nat)
    requires Outcome(before, after, ok, startMine, stopMine, r, k)
    ensures ok <==> forall i :: 0 <= i < |before| ==> Both(before[i], startMine[i], stopMine[i], r).Some?
    ensures ok ==> forall i :: 0 <= i < |before| ==> Both(before[i], startMine[i], stopMine[i], r) == Some(after[i])
  {}

  /** The change of a mode is always marked as pending, and a pending mark is never lost. */
  ghost predicate Marked(a: ArmState, b: ArmState) {
    (a.switchCm ==> b.switchCm) && (a.mode != b.mode ==> b.switchCm)
  }

  /** How prepare may move the mode: a mode is only ever entered from Off, possibly switched off by this request. */
  ghost predicate EntersFromOff(a: ArmState, b: ArmState, stopMine: seq<string>) {
    b.mode == a.mode || b.mode == Off || a.mode == Off || stopMine != []
  }

  lemma StopMarks(a: ArmState, mine: seq<string>, r: Request)
    requires Stop(a, mine, r).Some?
    ensures var b := Stop(a, mine, r).value;
      Marked(a, b) && (mine == [] ==> b == a) && (mine != [] ==> b.mode == Off && b.switchCm)
  {}

  lemma StartMarks(a: ArmState, mine: seq<string>, r: Request)
    requires Start(a, mine, r).Some?
    ensures var b := Start(a, mine, r).value;
      Marked(a, b) && (mine == [] ==> b == a) && (mine != [] ==> a.mode == Off)
        && b == a.(mode := b.mode, switchCm := b.switchCm)
  {}

  lemma PrepareMarks(before: seq<ArmState>, after: seq<ArmState>, ok: bool,
                     startMine: seq<seq<string>>, stopMine: seq<seq<string>>, r: Request, k: nat, i: nat)
    requires Outcome(before, after, ok, startMine, stopMine, r, k) && i < |before|
    ensures Marked(before[i], after[i]) && EntersFromOff(before[i], after[i], stopMine[i])
    ensures startMine[i] == [] && stopMine[i] == [] ==> after[i] == before[i]
    ensures stopMine[i] == [] && before[i].mode != Off ==> after[i] == before[i]
    ensures stopMine[i] == [] && before[i].mode != Off && startMine[i] != [] ==> !ok
  {
    hide Stop, Start;
    if Stop(before[i], stopMine[i], r).Some? {
      var mid := Stop(before[i], stopMine[i], r).value;
      StopMarks(before[i], stopMine[i], r);
      if Start(mid, startMine[i], r).Some? {
        StartMarks(mid, startMine[i], r);
      }
    }
  }

  /** A Cartesian effort start is accepted and does nothing. */
  ghost predicate IsIdleStart(mine: seq<string>, starts: seq<string>) {
    mine == [] || (CheckCommandModeType(mine) == 2 && CommonKind(starts) == Some(Effort))
  }

  lemma StartKeepsIff(a: ArmState, mine: seq<string>, r: Request)
    requires !a.switchCm && Start(a, mine, r).Some?
    ensures Start(a, mine, r).value == a <==> IsIdleStart(mine, r.starts)
  {
    hide AllOfElementHasString, CommonKind;
  }

  /** Prepare is not atomic. With no switch pending, a prepare that fails at arm k leaves all arms as they were if and
      only if no stop named an arm the stop loop got past, and no start took effect on an arm the start
      loop got past. */
  lemma FailedPrepareIsHarmlessIff(before: seq<ArmState>, after: seq<ArmState>,
                                   startMine: seq<seq<string>>, stopMine: seq<seq<string>>, r: Request, k: nat)
    requires Outcome(before, after, false, startMine, stopMine, r, k)
    requires forall i :: 0 <= i < |before| ==> !before[i].switchCm
    ensures k < |before|
    ensures var stopsFail := Stop(before[k], stopMine[k], r).None?;
      after == before <==>
        && (forall i :: 0 <= i < (if stopsFail then k else |before|) ==> stopMine[i] == [])
        && (stopsFail || forall i :: 0 <= i < k ==> IsIdleStart(startMine[i], r.starts))
  {
    hide Stop, Start, IsIdleStart;
    var stopsFail := Stop(before[k], stopMine[k], r).None?;
    forall i | 0 <= i < |before|
      ensures after[i] == before[i] <==>
        (i < (if stopsFail then k else |before|) ==> stopMine[i] == [])
          && (!stopsFail && i < k ==> IsIdleStart(startMine[i], r.starts))
    {
      if i < k || !stopsFail {
        StopMarks(before[i], stopMine[i], r);
        var mid := Stop(before[i], stopMine[i], r).value;
        if !stopsFail && i < k {
          StartMarks(mid, startMine[i], r);
          if stopMine[i] == [] {
            StartKeepsIff(before[i], startMine[i], r);
          }
        }
      }
    }
  }

  /** The simulation refuses every Cartesian interface, so its arms never enter a Cartesian mode. */
  lemma JointModesOnly(before: seq<ArmState>, after: seq<ArmState>, ok: bool,
                       startMine: seq<seq<string>>, stopMine: seq<seq<string>>, r: Request, k: nat, i: nat)
    requires Outcome(before, after, ok, startMine, stopMine, r, k) && i < |before| && !r.cartesian
    requires before[i].mode !in {CartesianVelocity, CartesianPose}
    ensures after[i].mode !in {CartesianVelocity, CartesianPose}
  {
    hide AllOfElementHasString, CommonKind, Zeros;
  }

  // ----- what a controller that claims an arm's seven joints switches to

  function Word(kind: Kind): string {
    match kind
    case Effort => "effort"
    case Position => "position"
    case Velocity => "velocity"
  }

  /** The name of one joint's command interface. */
  function JointInterface(arm: string, i: nat, kind: Kind): string
    requires i < NUMBER_OF_JOINTS
  {
    arm + "_" + ("joint" + "1234567"[i..i + 1] + "/" + Word(kind))
  }

  ghost function JointInterfaces(arm: string, kind: Kind): (v: seq<string>)
    ensures |v| == NUMBER_OF_JOINTS
  {
    seq(NUMBER_OF_JOINTS, i requires 0 <= i < NUMBER_OF_JOINTS => JointInterface(arm, i, kind))
  }

  /** The arm's name contains the word of no other kind of command. */
  ghost predicate Unconfused(arm: string, kind: Kind) {
    forall other :: Has(arm, Word(other)) ==> other == kind
  }

  /** A word without the separator occurs in a joined string only if it occurs in one of the parts. */
  lemma HasAcross(a: string, sep: string, b: string, w: string)
    requires |sep| == 1 && sep[0] !in w && w != []
    ensures Has(a + sep + b, w) <==> Has(a, w) || Has(b, w)
  {
    var s := a + sep + b;
    if Has(s, w) {
      var i :| 0 <= i <= |s| - |w| && StartsWith(s[i..], w);
      assert s[i..][..|w|] == s[i..i + |w|];
      if i + |w| <= |a| {
        assert a[i..][..|w|] == s[i..i + |w|];
        assert StartsWith(a[i..], w);
      } else if i > |a| {
        assert b[i - |a| - 1..][..|w|] == s[i..i + |w|];
        assert StartsWith(b[i - |a| - 1..], w);
      } else {
        MatchCovers(s, w, i, |a|);
        assert false;
      }
    }
    if Has(a, w) {
      var i :| 0 <= i <= |a| - |w| && StartsWith(a[i..], w);
      assert s[i..][..|w|] == a[i..][..|w|];
      assert StartsWith(s[i..], w);
    }
    if Has(b, w) {
      var i :| 0 <= i <= |b| - |w| && StartsWith(b[i..], w);
      assert s[|a| + 1 + i..][..|w|] == b[i..][..|w|];
      assert StartsWith(s[|a| + 1 + i..], w);
    }
  }

  lemma MatchCovers(s: string, w: string, i: nat, p: nat)
    requires i + |w| <= |s| && s[i..i + |w|] == w && i <= p < i + |w|
    ensures s[p] in w
  {
    assert s[p] == s[i..i + |w|][p - i];
  }

  lemma FirstLetterDecides(s: string, w: string)
    requires w != [] && forall i :: 0 <= i <= |s| - |w| ==> s[i] != w[0]
    ensures !Has(s, w)
  {
    forall i | 0 <= i <= |s| - |w|
      ensures !StartsWith(s[i..], w)
    {
      assert s[i..][..|w|][0] == s[i];
    }
  }

  lemma WordsDiffer(kind: Kind, other: Kind)
    ensures Has(Word(kind), Word(other)) <==> kind == other
  {
    var s, w := Word(kind), Word(other);
    if kind == other {
      assert s[0..] == s && StartsWith(s[0..], w);
    } else {
      forall i | 0 <= i <= |s| - |w|
        ensures !StartsWith(s[i..], w)
      {
        assert s[i] != w[0] || s[i + 1] != w[1];
      }
    }
  }

  lemma JointHasNoKind(i: nat, kind: Kind)
    requires i < NUMBER_OF_JOINTS
    ensures !Has("joint" + "1234567"[i..i + 1], Word(kind))
  {
    var s, w := "joint" + "1234567"[i..i + 1], Word(kind);
    assert |s| == 6 && s[0] == 'j' != w[0] && |w| >= 6;
    assert !StartsWith(s[0..], w);
  }

  lemma InterfaceKind(arm: string, i: nat, kind: Kind, other: Kind)
    requires i < NUMBER_OF_JOINTS
    ensures Has(JointInterface(arm, i, kind), Word(other)) <==> kind == other || Has(arm, Word(other))
    ensures Has(JointInterface(arm, i, kind), "joint")
  {
    hide Has;
    var joint := "joint" + "1234567"[i..i + 1];
    HasAcross(arm, "_", joint + "/" + Word(kind), Word(other));
    HasAcross(joint, "/", Word(kind), Word(other));
    JointHasNoKind(i, other);
    WordsDiffer(kind, other);
    HasAcross(arm, "_", joint + "/" + Word(kind), "joint");
    HasAcross(joint, "/", Word(kind), "joint");
    JointHasJoint(joint);
  }

  lemma JointHasJoint(joint: string)
    requires |joint| == 6 && joint[..5] == "joint"
    ensures Has(joint, "joint")
  {
    assert StartsWith(joint[0..], "joint");
  }

  /** The seven joint interfaces of an arm are joint interfaces, and have the one kind they were written with unless
      the arm's name contains another kind's word; then they count as confusing. */
  lemma InterfacesHaveOneKind(arm: string, kind: Kind)
    ensures CheckCommandModeType(JointInterfaces(arm, kind)) == 1
    ensures CommonKind(JointInterfaces(arm, kind)) == if Unconfused(arm, kind) then Some(kind) else None
  {
    hide Has, JointInterface, CommonKind;
    var v := JointInterfaces(arm, kind);
    forall e | e in v
      ensures Has(e, "joint") && forall other :: Has(e, Word(other)) <==> kind == other || Has(arm, Word(other))
    {
      var i :| 0 <= i < |v| && v[i] == e;
      InterfaceKind(arm, i, kind, Effort);
      InterfaceKind(arm, i, kind, Position);
      InterfaceKind(arm, i, kind, Velocity);
    }
    assert v[0] in v;
    OneKind(v, arm, kind);
  }

  lemma OneKind(v: seq<string>, arm: string, kind: Kind)
    requires v != [] && forall e, other :: e in v ==> (Has(e, Word(other)) <==> kind == other || Has(arm, Word(other)))
    ensures CommonKind(v) == if Unconfused(arm, kind) then Some(kind) else None
  {
    hide Has;
    forall other
      ensures AllOfElementHasString(v, Word(other)) <==> kind == other || Has(arm, Word(other))
    {
      assert v[0] in v;
    }
    assert Word(Effort) == "effort" && Word(Position) == "position" && Word(Velocity) == "velocity";
    assert AllOfElementHasString(v, Word(Effort)) <==> kind == Effort || Has(arm, Word(Effort));
    assert AllOfElementHasString(v, Word(Position)) <==> kind == Position || Has(arm, Word(Position));
    assert AllOfElementHasString(v, Word(Velocity)) <==> kind == Velocity || Has(arm, Word(Velocity));
  }

  /** The mode in which interfaces of a kind command the joints. */
  ghost function JointMode(kind: Kind): ControlMode {
    match kind
    case Effort => JointTorque
    case Position => JointPosition
    case Velocity => JointVelocity
  }

  /** An arm whose joint interfaces of one kind have been given back. */
  ghost function Released(a: ArmState, kind: Kind): ArmState {
    a.(mode := Off, switchCm := true,
       effort := if kind == Effort then Zeros(7) else a.effort,
       velocity := if kind == Velocity then Zeros(7) else a.velocity)
  }

  /** Claiming an arm's seven joint interfaces of one kind enters that kind's mode if and only if the arm is off and
      its name is not confusing. Releasing them switches such an arm off and zeroes efforts or velocities, never
      positions; with a confusing name that is refused too. */
  lemma ClaimAndRelease(a: ArmState, arm: string, kind: Kind, cartesian: bool)
    ensures var mine := JointInterfaces(arm, kind); var r := Request(mine, mine, cartesian);
      && Start(a, mine, r) == (if a.mode == Off && Unconfused(arm, kind)
                               then Some(a.(mode := JointMode(kind), switchCm := true)) else None)
      && Stop(a, mine, r) == (if Unconfused(arm, kind) then Some(Released(a, kind)) else None)
  {
    hide AllOfElementHasString, JointInterface, Zeros, CommonKind, CheckCommandModeType, Unconfused;
    InterfacesHaveOneKind(arm, kind);
  }

  lemma StartIgnoresStops(a: ArmState, mine: seq<string>, stops: seq<string>, cartesian: bool)
    ensures Start(a, mine, Request(mine, stops, cartesian)) == Start(a, mine, Request(mine, [], cartesian))
  {}

  // ----- and with the Cartesian interfaces of its hand

  const POSE_ENTRIES: seq<string> :=
    ["00", "01", "02", "03", "04", "05", "06", "07", "08", "09", "10", "11", "12", "13", "14", "15"]
  const TWIST_ENTRIES: seq<string> := ["tx", "ty", "tz", "omega_x", "omega_y", "omega_z"]

  function CartesianInterface(arm: string, word: string, entry: string): string {
    arm + "_ee_cartesian_" + word + "/" + entry
  }

  lemma CartesianInterfaceParts(arm: string, word: string, entry: string)
    ensures CartesianInterface(arm, word, entry)
      == arm + "_" + ("ee" + "_" + ("cartesian" + "_" + (word + "/" + entry)))
  {
    var rest := word + "/" + entry;
    assert "_ee_cartesian_" == "_" + ("ee" + "_" + ("cartesian" + "_"));
    assert arm + "_ee_cartesian_" + word + "/" + entry == arm + "_ee_cartesian_" + rest;
    assert "_ee_cartesian_" + rest == "_" + ("ee" + "_" + ("cartesian" + "_" + rest));
    assert arm + "_ee_cartesian_" + rest == arm + ("_ee_cartesian_" + rest);
  }

  /** The sixteen entries of the commanded pose. */
  ghost function PoseInterfaces(arm: string): (v: seq<string>)
    ensures |v| == 16
  {
    seq(16, i requires 0 <= i < 16 => CartesianInterface(arm, "position", POSE_ENTRIES[i]))
  }

  /** The six entries of the commanded twist. */
  ghost function TwistInterfaces(arm: string): (v: seq<string>)
    ensures |v| == 6
  {
    seq(6, i requires 0 <= i < 6 => CartesianInterface(arm, "velocity", TWIST_ENTRIES[i]))
  }

  /** A word occurs in such a name if it is the one it was written with, or occurs in the arm's name. */
  lemma CartesianInterfaceHas(arm: string, kind: Kind, entry: string, w: string)
    requires kind != Effort && (entry in POSE_ENTRIES || entry in TWIST_ENTRIES)
    requires w in {"effort", "position", "velocity", "joint"}
    ensures Has(CartesianInterface(arm, Word(kind), entry), w) <==> w == Word(kind) || Has(arm, w)
    ensures Has(CartesianInterface(arm, Word(kind), entry), "ee_cartesian")
  {
    hide Has, CartesianInterface;
    var word := Word(kind);
    CartesianInterfaceParts(arm, word, entry);
    HasAcross(arm, "_", "ee" + "_" + ("cartesian" + "_" + (word + "/" + entry)), w);
    HasAcross("ee", "_", "cartesian" + "_" + (word + "/" + entry), w);
    HasAcross("cartesian", "_", word + "/" + entry, w);
    HasAcross(word, "/", entry, w);
    FirstLetterDecides("ee", w);
    FirstLetterDecides("cartesian", w);
    FirstLetterDecides(entry, w);
    WordHas(kind, w);
    HandHasCartesian(arm, word + "/" + entry);
  }

  lemma WordHas(kind: Kind, w: string)
    requires kind != Effort && w in {"effort", "position", "velocity", "joint"}
    ensures Has(Word(kind), w) <==> w == Word(kind)
  {
    hide Has;
    WordsDiffer(kind, Effort);
    WordsDiffer(kind, Position);
    WordsDiffer(kind, Velocity);
    if w == "joint" {
      FirstLetterDecides(Word(kind), w);
    }
  }

  lemma HandHasCartesian(arm: string, rest: string)
    ensures Has(arm + "_" + ("ee" + "_" + ("cartesian" + "_" + rest)), "ee_cartesian")
  {
    var s := arm + "_" + ("ee" + "_" + ("cartesian" + "_" + rest));
    assert s[|arm| + 1..] == "ee_cartesian" + "_" + rest;
    assert StartsWith(s[|arm| + 1..], "ee_cartesian");
  }

  lemma CartesianHaveOneKind(arm: string, kind: Kind, v: seq<string>)
    requires (kind == Position && v == PoseInterfaces(arm)) || (kind == Velocity && v == TwistInterfaces(arm))
    ensures CheckCommandModeType(v) == if Has(arm, "joint") then 1 else 2
    ensures CommonKind(v) == if Unconfused(arm, kind) then Some(kind) else None
  {
    hide Has, CartesianInterface, CommonKind;
    forall e, w | e in v && w in {"effort", "position", "velocity", "joint"}
      ensures (Has(e, w) <==> w == Word(kind) || Has(arm, w)) && Has(e, "ee_cartesian")
    {
      var i :| 0 <= i < |v| && v[i] == e;
      var entry := if kind == Position then POSE_ENTRIES[i] else TWIST_ENTRIES[i];
      CartesianInterfaceHas(arm, kind, entry, w);
    }
    assert v[0] in v;
    forall other
      ensures Word(other) in {"effort", "position", "velocity", "joint"}
      ensures Word(other) == Word(kind) <==> other == kind
    {
      WordsDiffer(kind, other);
      WordsDiffer(kind, kind);
    }
    OneKind(v, arm, kind);
  }

  /** An arm's Cartesian interfaces can be claimed, on real hardware only, if and only if the arm is off and its name
      contains neither the word of another kind nor "joint"; sixteen enter the pose mode, six the velocity mode.
      Releasing them needs the same of the name, and zeroes the commanded velocity only. */
  lemma CartesianClaimAndRelease(a: ArmState, arm: string, cartesian: bool)
    ensures var mine := PoseInterfaces(arm); var r := Request(mine, mine, cartesian);
      var accepted := cartesian && Unconfused(arm, Position) && !Has(arm, "joint");
      && Start(a, mine, r) == (if accepted && a.mode == Off then Some(a.(mode := CartesianPose, switchCm := true))
           else None)
      && Stop(a, mine, r) == (if accepted then Some(a.(mode := Off, switchCm := true)) else None)
    ensures var mine := TwistInterfaces(arm); var r := Request(mine, mine, cartesian);
      var accepted := cartesian && Unconfused(arm, Velocity) && !Has(arm, "joint");
      && Start(a, mine, r) == (if accepted && a.mode == Off then Some(a.(mode := CartesianVelocity, switchCm := true))
           else None)
      && Stop(a, mine, r) == (if accepted then Some(a.(mode := Off, switchCm := true, cartesianVelocity := Zeros(6)))
           else None)
  {
    hide AllOfElementHasString, CartesianInterface, Zeros, CommonKind, CheckCommandModeType, Unconfused, Has;
    CartesianHaveOneKind(arm, Position, PoseInterfaces(arm));
    CartesianHaveOneKind(arm, Velocity, TwistInterfaces(arm));
  }
}
