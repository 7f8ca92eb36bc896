/** The allocation of controllers in terms of the names the users write: which arms a resource of several names drives,
    and which requests the set_controllers service accepts (multi_mode_controller.cpp, lines 205-226 and 330-374). */
module ArmNames {
  import opened Basics
  import opened ResourceNames
  import opened ControlSets
  import opened MultiModeController

  /** Names that survive joining and splitting. */
  ghost predicate AreNames(names: seq<string>) {
    (forall i :: 0 <= i < |names| ==> '&' !in names[i]) && (names == [] || names[|names| - 1] != "")
  }

  /** They are arms' names. */
  ghost predicate AreArms(arms: Arms, names: seq<string>) {
    AreNames(names) && forall i :: 0 <= i < |names| ==> names[i] in arms
  }

  ghost predicate IsFirstOf(arms: Arms, name: string, n: nat) {
    n < |arms| && if name in arms then arms[n] == name && name !in arms[..n] else n == 0
  }

  /** Entry k of a resource of several names is the first arm of name k, or arm zero if no arm has this name. */
  lemma DrivesInOrder(arms: Arms, names: seq<string>)
    requires AreNames(names)
    ensures var tau := Tau(arms, Joined(names));
      && |tau| == |names|
      && forall k :: 0 <= k < |names| ==> IsFirstOf(arms, names[k], tau[k])
  {
    hide ResourceToVector;
    SplitOfJoin(names);
  }

  /** Of distinct arms it drives arm i exactly as often as its name occurs. */
  lemma DrivesByName(arms: Arms, names: seq<string>, i: nat)
    requires AreDistinct(arms) && AreArms(arms, names) && i < |arms|
    ensures multiset(Tau(arms, Joined(names)))[i] == multiset(names)[arms[i]]
  {
    hide Tau;
    DrivesInOrder(arms, names);
    SameCounts(Tau(arms, Joined(names)), names, arms, i);
  }

  lemma {:induction false} SameCounts(tau: seq<nat>, names: seq<string>, arms: Arms, i: nat)
    requires AreDistinct(arms) && i < |arms| && |tau| == |names|
    requires forall k :: 0 <= k < |tau| ==> tau[k] < |arms| && arms[tau[k]] == names[k]
    ensures multiset(tau)[i] == multiset(names)[arms[i]]
  {
    hide AreDistinct;
    if tau != [] {
      SameCounts(tau[1..], names[1..], arms, i);
      CountFirst(tau, i);
      CountFirst(names, arms[i]);
      SameArm(arms, tau[0], i);
    }
  }

  lemma CountFirst<T>(xs: seq<T>, x: T)
    requires xs != []
    ensures multiset(xs)[x] == multiset(xs[1..])[x] + if xs[0] == x then 1 else 0
  {
    assert xs == [xs[0]] + xs[1..];
  }

  lemma SameArm(arms: Arms, n: nat, i: nat)
    requires AreDistinct(arms) && n < |arms| && i < |arms|
    ensures n == i <==> arms[n] == arms[i]
  {}

  // ----- sets of controllers, written with the names of their arms

  /** A controller with the names of its arms. */
  datatype Named = Named(name: string, arms: seq<string>)

  ghost function Written(controls: seq<Named>): (r: seq<Control>)
    ensures |r| == |controls|
    ensures forall k :: 0 <= k < |controls| ==> r[k] == Control(controls[k].name, Joined(controls[k].arms))
  {
    seq(|controls|, k requires 0 <= k < |controls| => Control(controls[k].name, Joined(controls[k].arms)))
  }

  ghost predicate AllArms(arms: Arms, controls: seq<Named>) {
    forall k :: 0 <= k < |controls| ==> AreArms(arms, controls[k].arms)
  }

  /** All names, one controller after the other. */
  ghost function AllNames(controls: seq<Named>): seq<string> {
    if controls == [] then [] else controls[0].arms + AllNames(controls[1..])
  }

  lemma {:induction false} UsesByName(arms: Arms, controls: seq<Named>, i: nat)
    requires AreDistinct(arms) && AllArms(arms, controls) && i < |arms|
    ensures Uses(arms, Written(controls))[i] == multiset(AllNames(controls))[arms[i]]
  {
    hide Tau, AreDistinct;
    if controls != [] {
      UsesByName(arms, controls[1..], i);
      DrivesByName(arms, controls[0].arms, i);
      assert Written(controls)[1..] == Written(controls[1..]);
    }
  }

  lemma {:induction false} AllAreArms(arms: Arms, controls: seq<Named>)
    requires AllArms(arms, controls)
    ensures forall s :: s in AllNames(controls) ==> s in arms
  {
    if controls != [] {
      AllAreArms(arms, controls[1..]);
    }
  }

  /** A set is an exact cover if and only if its names are the arms, in some order. */
  lemma CoverIsPermutation(arms: Arms, controls: seq<Named>)
    requires AreDistinct(arms) && AllArms(arms, controls)
    ensures ExactCover(arms, Written(controls)) <==> multiset(AllNames(controls)) == multiset(arms)
  {
    hide Uses, AreDistinct;
    AllAreArms(arms, controls);
    forall i: nat | i < |arms|
      ensures Uses(arms, Written(controls))[i] == multiset(AllNames(controls))[arms[i]] && multiset(arms)[arms[i]] == 1
    {
      UsesByName(arms, controls, i);
      OccursOnce(arms, i);
    }
    if ExactCover(arms, Written(controls)) {
      forall s
        ensures multiset(AllNames(controls))[s] == multiset(arms)[s]
      {
        if s in arms {
          var i :| 0 <= i < |arms| && arms[i] == s;
        } else {
          assert s !in AllNames(controls);
        }
      }
    }
  }

  lemma OccursOnce(arms: Arms, i: nat)
    requires AreDistinct(arms) && i < |arms|
    ensures multiset(arms)[arms[i]] == 1
  {
    var a, b := arms[..i], arms[i + 1..];
    assert arms == a + [arms[i]] + b;
    assert arms[i] !in a && arms[i] !in b;
  }

  // ----- requests, written with names

  ghost predicate Disjoint(a: seq<string>, b: seq<string>) {
    forall s :: s in a ==> s !in b
  }

  /** The controllers none of whose arms is named. */
  ghost function Unnamed(controls: seq<Named>, names: seq<string>): seq<Named> {
    if controls == [] then []
    else (if Disjoint(controls[0].arms, names) then [controls[0]] else []) + Unnamed(controls[1..], names)
  }

  lemma DrivesNamed(arms: Arms, names: seq<string>, n: nat)
    requires AreDistinct(arms) && AreArms(arms, names)
    ensures n in Tau(arms, Joined(names)) <==> n < |arms| && arms[n] in names
  {
    hide Tau, AreDistinct;
    if n < |arms| {
      DrivesByName(arms, names, n);
    } else {
      assert n !in Tau(arms, Joined(names));
    }
  }

  lemma UsesNamed(arms: Arms, controls: seq<Named>, n: nat)
    requires AreDistinct(arms) && AllArms(arms, controls)
    ensures n in Uses(arms, Written(controls)) <==> n < |arms| && arms[n] in AllNames(controls)
  {
    hide Uses, AreDistinct;
    if n < |arms| {
      UsesByName(arms, controls, n);
    } else {
      OutOfRange(arms, Written(controls), n);
    }
  }

  lemma TouchesNamed(arms: Arms, c: Named, request: seq<Named>)
    requires AreDistinct(arms) && AreArms(arms, c.arms) && AllArms(arms, request)
    ensures Touches(arms, Control(c.name, Joined(c.arms)), Uses(arms, Written(request)))
      <==> !Disjoint(c.arms, AllNames(request))
  {
    hide Tau, Uses, AreDistinct, AreArms;
    var w, u := Control(c.name, Joined(c.arms)), Uses(arms, Written(request));
    if Touches(arms, w, u) {
      var n :| n in Tau(arms, w.resource) && n in u;
      DrivesNamed(arms, c.arms, n);
      UsesNamed(arms, request, n);
    }
    if !Disjoint(c.arms, AllNames(request)) {
      var s :| s in c.arms && s in AllNames(request);
      var n := PlaceOf(arms, c.arms, s);
      DrivesNamed(arms, c.arms, n);
      UsesNamed(arms, request, n);
    }
  }

  lemma PlaceOf(arms: Arms, names: seq<string>, s: string) returns (n: nat)
    requires AreArms(arms, names) && s in names
    ensures n < |arms| && arms[n] == s
  {
    n :| n < |arms| && arms[n] == s;
  }

  lemma {:induction false} KeptIsUnnamed(arms: Arms, active: seq<Named>, request: seq<Named>)
    requires AreDistinct(arms) && AllArms(arms, active) && AllArms(arms, request)
    ensures Kept(arms, Written(active), Uses(arms, Written(request))) == Written(Unnamed(active, AllNames(request)))
  {
    hide Tau, Uses, Touches, AreDistinct, AreArms, Disjoint;
    if active != [] {
      KeptIsUnnamed(arms, active[1..], request);
      TouchesNamed(arms, active[0], request);
      assert Written(active)[1..] == Written(active[1..]);
    }
  }

  /** No name twice, and every controller losing one of its arms has all of them named. */
  ghost predicate IsFairInNames(request: seq<Named>, active: seq<Named>) {
    && AreDistinct(AllNames(request))
    && forall k :: 0 <= k < |active| ==>
        Disjoint(active[k].arms, AllNames(request)) || forall s :: s in active[k].arms ==> s in AllNames(request)
  }

  lemma FairInNames(arms: Arms, request: seq<Named>, active: seq<Named>)
    requires AreDistinct(arms) && AllArms(arms, request) && AllArms(arms, active)
    ensures IsFair(arms, Written(request), Written(active)) <==> IsFairInNames(request, active)
  {
    hide Tau, Uses, Touches, AreDistinct, AreArms, AtMostOnce, Disjoint, AllNames;
    OnceInNames(arms, request);
    var u := Uses(arms, Written(request));
    var w := Written(active);
    assert forall k :: 0 <= k < |active| ==> w[k] in w;
    forall k | 0 <= k < |active|
      ensures LosesAll(arms, w[k], u) <==>
        Disjoint(active[k].arms, AllNames(request)) || forall s :: s in active[k].arms ==> s in AllNames(request)
    {
      TouchesNamed(arms, active[k], request);
      WithinNamed(arms, active[k], request);
    }
    assert IsFair(arms, Written(request), w) <==> AtMostOnce(u) && forall c :: c in w ==> LosesAll(arms, c, u);
    assert (forall c :: c in w ==> LosesAll(arms, c, u)) <==> forall k :: 0 <= k < |w| ==> LosesAll(arms, w[k], u);
  }

  /** If the controller loses an arm, it loses all of them. */
  ghost predicate LosesAll(arms: Arms, c: Control, u: multiset<nat>) {
    Touches(arms, c, u) ==> forall n: nat :: n in Tau(arms, c.resource) ==> n in u
  }

  lemma WithinNamed(arms: Arms, c: Named, request: seq<Named>)
    requires AreDistinct(arms) && AreArms(arms, c.arms) && AllArms(arms, request)
    ensures (forall n: nat :: n in Tau(arms, Joined(c.arms)) ==> n in Uses(arms, Written(request)))
      <==> forall s :: s in c.arms ==> s in AllNames(request)
  {
    hide Tau, Uses, AreDistinct, AreArms;
    forall n: nat
      ensures n in Tau(arms, Joined(c.arms)) <==> n < |arms| && arms[n] in c.arms
      ensures n in Uses(arms, Written(request)) <==> n < |arms| && arms[n] in AllNames(request)
    {
      DrivesNamed(arms, c.arms, n);
      UsesNamed(arms, request, n);
    }
    if forall n: nat :: n in Tau(arms, Joined(c.arms)) ==> n in Uses(arms, Written(request)) {
      forall s | s in c.arms
        ensures s in AllNames(request)
      {
        var n := PlaceOf(arms, c.arms, s);
      }
    }
  }

  lemma OnceInNames(arms: Arms, request: seq<Named>)
    requires AreDistinct(arms) && AllArms(arms, request)
    ensures AtMostOnce(Uses(arms, Written(request))) <==> AreDistinct(AllNames(request))
  {
    hide Uses, AreArms, AllNames;
    var names, u := AllNames(request), Uses(arms, Written(request));
    AllAreArms(arms, request);
    forall n: nat | n < |arms|
      ensures u[n] == multiset(names)[arms[n]]
    {
      UsesByName(arms, request, n);
    }
    if AtMostOnce(u) {
      forall i, j | 0 <= i < j < |names|
        ensures names[i] != names[j]
      {
        if names[i] == names[j] {
          assert names[i] in names;
          var n: nat :| n < |arms| && arms[n] == names[i];
          assert n in u;
          OccursTwice(names, i, j);
        }
      }
    } else {
      var n :| n in u && u[n] != 1;
      UsesInRange(arms, Written(request), n);
      var i, j := FindTwice(names, arms[n]);
    }
  }

  lemma OccursTwice(names: seq<string>, i: nat, j: nat)
    requires i < j < |names| && names[i] == names[j]
    ensures multiset(names)[names[i]] >= 2
  {
    assert names == names[..i] + [names[i]] + names[i + 1..];
    assert names[i + 1..][j - i - 1] == names[i];
  }

  lemma FindTwice(names: seq<string>, s: string) returns (i: nat, j: nat)
    requires multiset(names)[s] >= 2
    ensures i < j < |names| && names[i] == names[j] == s
  {
    i := FirstIndex(names, s);
    assert s in names;
    var front, rest := names[..i], names[i + 1..];
    assert s !in front;
    assert names == front + [s] + rest;
    assert multiset(names)[s] == multiset(front)[s] + 1 + multiset(rest)[s];
    assert s in rest;
    var k: nat :| k < |rest| && rest[k] == s;
    j := i + 1 + k;
  }

  /** The pairs of several requests are those of each in turn. */
  lemma {:induction false} PairsOfConcat(a: seq<Request>, b: seq<Request>)
    ensures Pairs(a + b) == Pairs(a) + Pairs(b)
  {
    hide PairsOf;
    if b == [] {
      assert a + b == a;
    } else {
      var front, last := b[..|b| - 1], b[|b| - 1];
      PairsOfConcat(a, front);
      assert b == front + [last] && a + b == (a + front) + [last];
      PairsOfSnoc(front, last);
      PairsOfSnoc(a + front, last);
    }
  }

  lemma PairsOfSnoc(front: seq<Request>, last: Request)
    ensures Pairs(front + [last]) == Pairs(front) + PairsOf(last)
  {
    hide PairsOf;
    assert (front + [last])[..|front|] == front;
  }

  /** Those of one request pair its name with its resources, in order. */
  lemma PairsOfOne(r: Request)
    ensures var p := Pairs([r]);
      |p| == |r.resources| && forall j :: 0 <= j < |p| ==> p[j] == Control(r.name, r.resources[j])
  {
    assert [r][..0] == [];
  }

  /** Every requested controller has been loaded for its arms. */
  ghost predicate AreLoaded(controlMap: map<string, set<string>>, request: seq<Named>) {
    forall k :: 0 <= k < |request| ==>
      request[k].name in controlMap && Joined(request[k].arms) in controlMap[request[k].name]
  }

  /** The whole service in names: from an exact cover a request is accepted if and only if its pairs are loaded and it
      names no arm twice, and all arms of whom it takes one from; then the active set is the request and, in their
      order, the controllers none of whose arms it names. Otherwise nothing changes. */
  lemma ServiceInNames(arms: Arms, controlMap: map<string, set<string>>, active: seq<Named>, request: seq<Named>,
                       calls: seq<Request>)
    requires AreDistinct(arms) && AllArms(arms, request) && AllArms(arms, active)
    requires ExactCover(arms, Written(active)) && Pairs(calls) == Written(request)
    ensures var accepted := AreLoaded(controlMap, request) && IsFairInNames(request, active);
      && (Accepts(arms, controlMap, Written(active), Pairs(calls)) <==> accepted)
      && Next(arms, controlMap, Written(active), calls)
          == Written(if accepted then request + Unnamed(active, AllNames(request)) else active)
  {
    hide Tau, Uses, Merge, PassesCount, ExactCover, AreDistinct, AllArms, IsFairInNames, IsFair, Unnamed, AllNames,
         Kept, Joined;
    var a, r := Written(active), Written(request);
    CoverUsesOnce(arms, a);
    MergeIsFilter(arms, r, a);
    KeptIsUnnamed(arms, active, request);
    AcceptedIffFair(arms, r, a);
    FairInNames(arms, request, active);
    CountIsExactCover(arms, Merge(arms, r, a));
    WrittenConcat(request, Unnamed(active, AllNames(request)));
    assert AreLoaded(controlMap, request) <==> forall k :: 0 <= k < |r| ==> IsLoadedIn(controlMap, r[k]);
  }

  lemma WrittenConcat(a: seq<Named>, b: seq<Named>)
    ensures Written(a + b) == Written(a) + Written(b)
  {}

  /** A controller loaded for all arms can take over from any exact cover; it is then the only one, but for those that
      drive no arm at all. */
  lemma OneTakesAll(arms: Arms, controlMap: map<string, set<string>>, active: seq<Control>, name: string)
    requires AreDistinct(arms) && AreNames(arms) && ExactCover(arms, active)
    requires name in controlMap && Joined(arms) in controlMap[name]
    ensures var calls, all := [Request(name, [Joined(arms)])], Control(name, Joined(arms));
      var next := Next(arms, controlMap, active, calls);
      && Accepts(arms, controlMap, active, Pairs(calls)) && |next| > 0 && next[0] == all
      && (forall d :: d in next[1..] <==> d in active && d.resource == "")
      && (next == [all] <==> forall d :: d in active ==> d.resource != "")
  {
    hide Tau, Uses, Merge, PassesCount, ExactCover, AreDistinct, IsFair, Kept, Joined, ResourceToVector;
    var calls, all := [Request(name, [Joined(arms)])], Control(name, Joined(arms));
    PairsOfOne(calls[0]);
    assert Pairs(calls) == [all];
    var u := Uses(arms, [all]);
    AllUsedOnce(arms, all);
    EveryoneIsEvicted(arms, active, u);
    CoverUsesOnce(arms, active);
    MergeIsFilter(arms, [all], active);
    FairToAll(arms, active, all);
    AcceptedIffFair(arms, [all], active);
    CountIsExactCover(arms, Merge(arms, [all], active));
    var kept := Kept(arms, active, u);
    assert ([all] + kept)[1..] == kept;
    assert kept != [] ==> kept[0] in kept;
  }

  lemma AllUsedOnce(arms: Arms, all: Control)
    requires AreDistinct(arms) && AreNames(arms) && all.resource == Joined(arms)
    ensures forall n: nat :: Uses(arms, [all])[n] == if n < |arms| then 1 else 0
  {
    hide Tau, Uses, AreDistinct, Joined;
    UsesOfOne(arms, all);
    forall n: nat
      ensures Uses(arms, [all])[n] == if n < |arms| then 1 else 0
    {
      if n < |arms| {
        DrivesByName(arms, arms, n);
        OccursOnce(arms, n);
      } else {
        OutOfRange(arms, [all], n);
      }
    }
  }

  lemma FairToAll(arms: Arms, active: seq<Control>, all: Control)
    requires forall n: nat :: Uses(arms, [all])[n] == if n < |arms| then 1 else 0
    ensures IsFair(arms, [all], active)
  {
    hide Uses, ResourceToVector, RobotIndex;
  }

  lemma EveryoneIsEvicted(arms: Arms, active: seq<Control>, u: multiset<nat>)
    requires forall n: nat :: u[n] == if n < |arms| then 1 else 0
    ensures forall d :: d in Kept(arms, active, u) <==> d in active && d.resource == ""
  {
    hide Tau, Kept;
    forall d
      ensures d in Kept(arms, active, u) <==> d in active && d.resource == ""
    {
      KeptMeans(arms, active, u, d);
      DrivesNothing(arms, d.resource);
      var tau := Tau(arms, d.resource);
      if tau != [] {
        assert tau[0] in tau && tau[0] in u;
      }
    }
  }

  lemma DrivesNothing(arms: Arms, resource: string)
    ensures Tau(arms, resource) == [] <==> resource == ""
  {
    NonEmptyHasPieces(resource);
  }

  /** Under an exact cover each arm's torques come from the controller written with its name. */
  lemma TorquesByName(arms: Arms, active: seq<Named>, j: nat, torque: (Control, nat, nat) -> real, n: nat, i: nat,
                      stale: real)
    requires AreDistinct(arms) && AllArms(arms, active) && ExactCover(arms, Written(active))
    requires j < |active| && n < |arms| && arms[n] in active[j].arms
    ensures Commanded(arms, Written(active), torque, n, i, stale)
      == torque(Control(active[j].name, Joined(active[j].arms)), n, i)
  {
    hide Tau, Uses, ExactCover, AreDistinct, Commanded, Joined;
    DrivesNamed(arms, active[j].arms, n);
    OwnerCommands(arms, Written(active), j, torque, n, i, stale);
  }

  /** One controller for both of two arms replaces the two that drove them: its resource of two names evicts both. */
  lemma DualReplacesBoth(a: string, b: string, controlMap: map<string, set<string>>, c: string, d: string, e: string)
    requires a != b && '&' !in a && '&' !in b && b != "" && a != ""
    requires e in controlMap && a + "&" + b in controlMap[e]
    ensures var active, dual := [Control(c, a), Control(d, b)], Control(e, a + "&" + b);
      ExactCover([a, b], active) && Next([a, b], controlMap, active, [Request(e, [dual.resource])]) == [dual]
  {
    hide Next, ExactCover, Joined, AllNames, Unnamed, IsFairInNames, AllArms;
    var first, second, dual := Named(c, [a]), Named(d, [b]), Named(e, [a, b]);
    JoinedTwo(a, b);
    assert Written([first, second]) == [Control(c, a), Control(d, b)];
    assert Written([dual]) == [Control(e, a + "&" + b)];
    NamesOfTwo(first, second, dual, a, b);
    CoverIsPermutation([a, b], [first, second]);
    PairsOfOne(Request(e, [a + "&" + b]));
    ServiceInNames([a, b], controlMap, [first, second], [dual], [Request(e, [a + "&" + b])]);
  }

  lemma JoinedTwo(a: string, b: string)
    ensures Joined([a]) == a && Joined([b]) == b && Joined([a, b]) == a + "&" + b
  {
    assert [a, b][1..] == [b];
  }

  lemma NamesOfTwo(first: Named, second: Named, dual: Named, a: string, b: string)
    requires first.arms == [a] && second.arms == [b] && dual.arms == [a, b]
    requires a != b && '&' !in a && '&' !in b && b != "" && a != ""
    ensures AllNames([first, second]) == [a, b] == AllNames([dual]) && AreDistinct([a, b])
    ensures AllArms([a, b], [first, second]) && AllArms([a, b], [dual])
    ensures IsFairInNames([dual], [first, second]) && Unnamed([first, second], [a, b]) == []
    ensures [dual] + [] == [dual]
  {
    assert [first, second][1..] == [second] && [second][1..] == [] && [dual][1..] == [];
    assert AllNames([second]) == [b] && AllNames([first, second]) == [a] + [b] && AllNames([dual]) == [a, b];
    assert [a][0] == a && [b][0] == b && a in [a, b] && b in [a, b];
    assert !Disjoint([a], [a, b]) && !Disjoint([b], [a, b]);
    assert Unnamed([second], [a, b]) == [];
  }
}
