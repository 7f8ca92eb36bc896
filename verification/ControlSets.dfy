/** Which controllers drive which arms: the set arithmetic behind a set_controllers request
    (multi_mode_controller.cpp, lines 330-374). */
module ControlSets {
  import opened ResourceNames

  /** ControllerInfo. The pointers the code stores with it are functions of the name and the resource. */
  datatype Control = Control(name: string, resource: string)

  type Arms = s: seq<string> | s != [] witness ["panda"]

  function FirstIndex(arms: seq<string>, name: string): (k: nat)
    ensures k <= |arms| && (k < |arms| <==> name in arms) && (k < |arms| ==> arms[k] == name)
    ensures forall j :: 0 <= j < k ==> arms[j] != name
  {
    if arms == [] || arms[0] == name then 0 else 1 + FirstIndex(arms[1..], name)
  }

  /** robot_index_[name]: the first arm of that name; looking up an unknown name inserts index zero. */
  function RobotIndex(arms: Arms, name: string): (k: nat)
    ensures k < |arms| && (name in arms ==> arms[k] == name) && (name !in arms ==> k == 0)
    ensures forall j :: 0 <= j < k ==> arms[j] != name
  {
    var k := FirstIndex(arms, name);
    if k == |arms| then 0 else k
  }

  /** The arms whose torque arrays a controller of this resource points to. */
  function Tau(arms: Arms, resource: string): (tau: seq<nat>)
    ensures forall n :: n in tau ==> n < |arms|
  {
    var names := ResourceToVector(resource);
    seq(|names|, i requires 0 <= i < |names| => RobotIndex(arms, names[i]))
  }

  /** Some torque array is written by both. */
  predicate Shares(arms: Arms, c: Control, d: Control) {
    exists n :: n in Tau(arms, c.resource) && n in Tau(arms, d.resource)
  }

  predicate Overlaps(arms: Arms, c: Control, controls: seq<Control>) {
    exists i :: 0 <= i < |controls| && Shares(arms, c, controls[i])
  }

  /** How often each arm is named by a set of controllers. */
  ghost function Uses(arms: Arms, controls: seq<Control>): multiset<nat> {
    if controls == [] then multiset{} else multiset(Tau(arms, controls[0].resource)) + Uses(arms, controls[1..])
  }

  ghost predicate ExactCover(arms: Arms, controls: seq<Control>) {
    forall k: nat :: k < |arms| ==> Uses(arms, controls)[k] == 1
  }

  /** The loop that carries old controllers over: each is checked against everything collected so far. */
  function Merge(arms: Arms, out: seq<Control>, active: seq<Control>): seq<Control>
    decreases active
  {
    if active == [] then out
    else if Overlaps(arms, active[0], out) then Merge(arms, out, active[1..])
    else Merge(arms, out + [active[0]], active[1..])
  }

  // ----- filtering by the arms a request names

  ghost predicate Touches(arms: Arms, c: Control, u: multiset<nat>) {
    exists n :: n in Tau(arms, c.resource) && n in u
  }

  ghost function Kept(arms: Arms, controls: seq<Control>, u: multiset<nat>): seq<Control> {
    if controls == [] then []
    else (if Touches(arms, controls[0], u) then [] else [controls[0]]) + Kept(arms, controls[1..], u)
  }

  ghost function Evicted(arms: Arms, controls: seq<Control>, u: multiset<nat>): seq<Control> {
    if controls == [] then []
    else (if Touches(arms, controls[0], u) then [controls[0]] else []) + Evicted(arms, controls[1..], u)
  }

  lemma {:induction false} UsesOfConcat(arms: Arms, a: seq<Control>, b: seq<Control>)
    ensures Uses(arms, a + b) == Uses(arms, a) + Uses(arms, b)
  {
    hide Tau;
    if a == [] {
      assert a + b == b;
    } else {
      assert (a + b)[1..] == a[1..] + b;
      UsesOfConcat(arms, a[1..], b);
    }
  }

  lemma {:induction false} UsesInRange(arms: Arms, controls: seq<Control>, n: nat)
    requires n in Uses(arms, controls)
    ensures n < |arms|
  {
    if n in Tau(arms, controls[0].resource) {
    } else {
      UsesInRange(arms, controls[1..], n);
    }
  }

  lemma {:induction false} UsedBySomeone(arms: Arms, controls: seq<Control>, n: nat)
    ensures n in Uses(arms, controls) <==> exists i :: 0 <= i < |controls| && n in Tau(arms, controls[i].resource)
  {
    hide Tau;
    if controls != [] {
      UsedBySomeone(arms, controls[1..], n);
      if i :| 0 <= i < |controls| && n in Tau(arms, controls[i].resource) {
        if i > 0 {
          assert controls[1..][i - 1] == controls[i];
        } else {
          assert n in multiset(Tau(arms, controls[0].resource));
        }
      }
      if n in Uses(arms, controls[1..]) {
        var i :| 0 <= i < |controls| - 1 && n in Tau(arms, controls[1..][i].resource);
        assert controls[i + 1] == controls[1..][i];
      }
    }
  }

  lemma OverlapsIsTouches(arms: Arms, c: Control, out: seq<Control>)
    ensures Overlaps(arms, c, out) <==> Touches(arms, c, Uses(arms, out))
  {
    hide Tau, Uses;
    if Overlaps(arms, c, out) {
      var i :| 0 <= i < |out| && Shares(arms, c, out[i]);
      var n :| n in Tau(arms, c.resource) && n in Tau(arms, out[i].resource);
      UsedBySomeone(arms, out, n);
    }
    if Touches(arms, c, Uses(arms, out)) {
      var n :| n in Tau(arms, c.resource) && n in Uses(arms, out);
      UsedBySomeone(arms, out, n);
      var i :| 0 <= i < |out| && n in Tau(arms, out[i].resource);
      assert Shares(arms, c, out[i]);
    }
  }

  lemma {:induction false} KeptAndEvicted(arms: Arms, controls: seq<Control>, u: multiset<nat>)
    ensures Uses(arms, Kept(arms, controls, u)) + Uses(arms, Evicted(arms, controls, u)) == Uses(arms, controls)
  {
    hide Tau, Touches;
    if controls != [] {
      KeptAndEvicted(arms, controls[1..], u);
      KeptOrEvicted(arms, controls, u);
    }
  }

  lemma KeptOrEvicted(arms: Arms, controls: seq<Control>, u: multiset<nat>)
    requires controls != []
    ensures var kept, gone := Uses(arms, Kept(arms, controls[1..], u)), Uses(arms, Evicted(arms, controls[1..], u));
      Uses(arms, Kept(arms, controls, u)) + Uses(arms, Evicted(arms, controls, u))
      == multiset(Tau(arms, controls[0].resource)) + (kept + gone)
  {
    hide Tau, Touches, Uses;
    var c, rest, gone := controls[0], Kept(arms, controls[1..], u), Evicted(arms, controls[1..], u);
    UsesOfOne(arms, c);
    if Touches(arms, c, u) {
      assert [] + rest == rest;
      UsesOfConcat(arms, [c], gone);
    } else {
      assert [] + gone == gone;
      UsesOfConcat(arms, [c], rest);
    }
  }

  lemma {:induction false} KeptMeans(arms: Arms, controls: seq<Control>, u: multiset<nat>, c: Control)
    ensures c in Kept(arms, controls, u) <==> c in controls && !Touches(arms, c, u)
    ensures c in Evicted(arms, controls, u) <==> c in controls && Touches(arms, c, u)
  {
    hide Tau, Touches;
    if controls != [] {
      KeptMeans(arms, controls[1..], u, c);
    }
  }

  /** Whoever is kept drives none of the named arms. */
  lemma KeptAvoids(arms: Arms, controls: seq<Control>, u: multiset<nat>, n: nat)
    requires n in u
    ensures n !in Uses(arms, Kept(arms, controls, u))
  {
    hide Tau, Uses, Kept;
    var kept := Kept(arms, controls, u);
    UsedBySomeone(arms, kept, n);
    if i :| 0 <= i < |kept| && n in Tau(arms, kept[i].resource) {
      KeptMeans(arms, controls, u, kept[i]);
      assert false;
    }
  }

  lemma {:induction false} KeptOfConcat(arms: Arms, a: seq<Control>, b: seq<Control>, u: multiset<nat>)
    ensures Kept(arms, a + b, u) == Kept(arms, a, u) + Kept(arms, b, u)
  {
    hide Touches;
    if a == [] {
      assert a + b == b;
    } else {
      assert (a + b)[1..] == a[1..] + b;
      KeptOfConcat(arms, a[1..], b, u);
    }
  }

  lemma {:induction false} KeptByBoth(arms: Arms, controls: seq<Control>, u: multiset<nat>, v: multiset<nat>)
    ensures Kept(arms, Kept(arms, controls, u), v) == Kept(arms, controls, u + v)
  {
    if controls != [] {
      KeptByBoth(arms, controls[1..], u, v);
      var c, rest := controls[0], Kept(arms, controls[1..], u);
      TouchesEither(arms, c, u, v);
      KeptOfConcat(arms, [c], rest, v);
      assert [] + rest == rest;
    }
  }

  lemma TouchesEither(arms: Arms, c: Control, u: multiset<nat>, v: multiset<nat>)
    ensures Touches(arms, c, u + v) <==> Touches(arms, c, u) || Touches(arms, c, v)
  {}

  lemma {:induction false} AllKept(arms: Arms, controls: seq<Control>, u: multiset<nat>)
    requires forall c :: c in controls ==> !Touches(arms, c, u)
    ensures Kept(arms, controls, u) == controls
  {
    hide Touches;
    if controls != [] {
      AllKept(arms, controls[1..], u);
    }
  }

  // ----- the loop is a filter when no arm is used twice

  ghost predicate AtMostOnce(u: multiset<nat>) {
    forall n :: n in u ==> u[n] == 1
  }

  lemma RestUsesOnce(u: multiset<nat>, v: multiset<nat>)
    requires AtMostOnce(u + v)
    ensures AtMostOnce(v) && forall n :: n in u ==> n !in v
  {
    forall n | n in v
      ensures v[n] == 1 && n !in u
    {
      assert (u + v)[n] == u[n] + v[n];
    }
  }

  lemma {:induction false} MergeIsFilter(arms: Arms, out: seq<Control>, active: seq<Control>)
    requires AtMostOnce(Uses(arms, active))
    ensures Merge(arms, out, active) == out + Kept(arms, active, Uses(arms, out))
    decreases active
  {
    hide Tau, Touches, Overlaps, Shares, AtMostOnce;
    if active != [] {
      var c, rest := active[0], active[1..];
      OverlapsIsTouches(arms, c, out);
      RestUsesOnce(multiset(Tau(arms, c.resource)), Uses(arms, rest));
      if Overlaps(arms, c, out) {
        MergeIsFilter(arms, out, rest);
        assert [] + Kept(arms, rest, Uses(arms, out)) == Kept(arms, rest, Uses(arms, out));
      } else {
        MergeIsFilter(arms, out + [c], rest);
        KeptDespiteFirst(arms, out, active);
      }
    }
  }

  lemma KeptDespiteFirst(arms: Arms, out: seq<Control>, active: seq<Control>)
    requires active != [] && AtMostOnce(Uses(arms, active))
    ensures Kept(arms, active[1..], Uses(arms, out + [active[0]])) == Kept(arms, active[1..], Uses(arms, out))
  {
    hide Tau, Touches, AtMostOnce, Uses, Kept;
    var c, rest := active[0], active[1..];
    FirstSharesNothing(arms, active);
    AllKept(arms, rest, Uses(arms, [c]));
    KeptByBoth(arms, rest, Uses(arms, [c]), Uses(arms, out));
    UsesOfConcat(arms, out, [c]);
    assert Uses(arms, out) + Uses(arms, [c]) == Uses(arms, [c]) + Uses(arms, out);
  }

  lemma UsesOfOne(arms: Arms, c: Control)
    ensures Uses(arms, [c]) == multiset(Tau(arms, c.resource))
  {}

  lemma FirstSharesNothing(arms: Arms, active: seq<Control>)
    requires active != [] && AtMostOnce(Uses(arms, active))
    ensures forall d :: d in active[1..] ==> !Touches(arms, d, Uses(arms, [active[0]]))
  {
    hide Tau, AtMostOnce;
    var c, rest := active[0], active[1..];
    var own := Uses(arms, [c]);
    UsesOfOne(arms, c);
    RestUsesOnce(own, Uses(arms, rest));
    forall d | d in rest && Touches(arms, d, own)
      ensures false
    {
      var n :| n in Tau(arms, d.resource) && n in own;
      UsedBySomeone(arms, rest, n);
    }
  }

  lemma CoverUsesOnce(arms: Arms, controls: seq<Control>)
    requires ExactCover(arms, controls)
    ensures AtMostOnce(Uses(arms, controls))
  {
    forall n | n in Uses(arms, controls)
      ensures Uses(arms, controls)[n] == 1
    {
      UsesInRange(arms, controls, n);
    }
  }

  // ----- when a request is accepted

  /** No arm is named twice, and every controller losing one arm has all its arms named. */
  ghost predicate IsFair(arms: Arms, request: seq<Control>, active: seq<Control>) {
    && AtMostOnce(Uses(arms, request))
    && forall c :: c in active && Touches(arms, c, Uses(arms, request)) ==>
        forall n :: n in Tau(arms, c.resource) ==> n in Uses(arms, request)
  }

  lemma Pointwise(a: multiset<nat>, b: multiset<nat>, c: multiset<nat>, n: nat)
    requires a + b == c
    ensures a[n] + b[n] == c[n]
  {}

  lemma TakesOverExactly(arms: Arms, request: seq<Control>, active: seq<Control>)
    requires ExactCover(arms, active)
    ensures ExactCover(arms, Merge(arms, request, active))
        <==> Uses(arms, request) == Uses(arms, Evicted(arms, active, Uses(arms, request)))
  {
    hide Tau, Uses, Merge, Kept, Evicted;
    var u := Uses(arms, request);
    var kept, gone := Uses(arms, Kept(arms, active, u)), Uses(arms, Evicted(arms, active, u));
    CoverUsesOnce(arms, active);
    MergeIsFilter(arms, request, active);
    UsesOfConcat(arms, request, Kept(arms, active, u));
    KeptAndEvicted(arms, active, u);
    var next := Uses(arms, Merge(arms, request, active));
    assert next == u + kept;
    if u == gone {
      assert next == Uses(arms, active);
    }
    if ExactCover(arms, Merge(arms, request, active)) {
      forall n: nat
        ensures u[n] == gone[n]
      {
        Pointwise(kept, gone, Uses(arms, active), n);
        Pointwise(u, kept, next, n);
        if n >= |arms| {
          OutOfRange(arms, request, n);
          OutOfRange(arms, Evicted(arms, active, u), n);
        }
      }
      assert u == gone;
    }
  }

  lemma OutOfRange(arms: Arms, controls: seq<Control>, n: nat)
    requires n >= |arms|
    ensures Uses(arms, controls)[n] == 0
  {}

  /** From an exact cover, a request keeps the cover exact if and only if it is fair. */
  lemma AcceptedIffFair(arms: Arms, request: seq<Control>, active: seq<Control>)
    requires ExactCover(arms, active)
    ensures ExactCover(arms, Merge(arms, request, active)) <==> IsFair(arms, request, active)
  {
    hide Tau, Uses, Merge, Kept, Evicted;
    var u := Uses(arms, request);
    var gone := Evicted(arms, active, u);
    TakesOverExactly(arms, request, active);
    CoverUsesOnce(arms, active);
    KeptAndEvicted(arms, active, u);
    if u == Uses(arms, gone) {
      forall n | n in u
        ensures u[n] == 1
      {
        Pointwise(Uses(arms, Kept(arms, active, u)), u, Uses(arms, active), n);
      }
      forall c, n | c in active && Touches(arms, c, u) && n in Tau(arms, c.resource)
        ensures n in u
      {
        EvictedIsUsed(arms, active, u, c, n);
      }
    }
    if IsFair(arms, request, active) {
      forall n: nat
        ensures u[n] == Uses(arms, gone)[n]
      {
        FairUse(arms, request, active, n);
      }
      assert u == Uses(arms, gone);
    }
  }

  lemma EvictedIsUsed(arms: Arms, active: seq<Control>, u: multiset<nat>, c: Control, n: nat)
    requires c in active && Touches(arms, c, u) && n in Tau(arms, c.resource)
    ensures n in Uses(arms, Evicted(arms, active, u))
  {
    hide Tau, Uses, Touches;
    var gone := Evicted(arms, active, u);
    KeptMeans(arms, active, u, c);
    var i :| 0 <= i < |gone| && gone[i] == c;
    UsedBySomeone(arms, gone, n);
  }

  lemma FairUse(arms: Arms, request: seq<Control>, active: seq<Control>, n: nat)
    requires ExactCover(arms, active) && IsFair(arms, request, active)
    ensures var u := Uses(arms, request); u[n] == Uses(arms, Evicted(arms, active, u))[n]
  {
    hide Tau, Uses, Kept, Evicted, Touches;
    var u := Uses(arms, request);
    var gone := Evicted(arms, active, u);
    KeptAndEvicted(arms, active, u);
    Pointwise(Uses(arms, Kept(arms, active, u)), Uses(arms, gone), Uses(arms, active), n);
    if n in u {
      UsesInRange(arms, request, n);
      KeptAvoids(arms, active, u, n);
    } else if n in Uses(arms, gone) {
      UsedBySomeone(arms, gone, n);
      var i :| 0 <= i < |gone| && n in Tau(arms, gone[i].resource);
      KeptMeans(arms, active, u, gone[i]);
    }
  }

  /** In an exact cover two entries of the same resource can only be entries that drive no arm. */
  lemma OneControllerPerEngine(arms: Arms, controls: seq<Control>, i: nat, j: nat)
    requires ExactCover(arms, controls) && i < j < |controls| && controls[i].resource == controls[j].resource
    ensures Tau(arms, controls[i].resource) == []
  {
    hide Tau, Uses;
    var tau := Tau(arms, controls[i].resource);
    if tau != [] {
      var n := tau[0];
      assert n in Tau(arms, controls[i].resource);
      UsedTwice(arms, controls, i, j, n);
    }
  }

  lemma UsedTwice(arms: Arms, controls: seq<Control>, i: nat, j: nat, n: nat)
    requires i < j < |controls| && n in Tau(arms, controls[i].resource) && n in Tau(arms, controls[j].resource)
    ensures Uses(arms, controls)[n] >= 2
  {
    hide Tau;
    var head, tail := controls[..j], controls[j..];
    assert controls == head + tail;
    UsesOfConcat(arms, head, tail);
    assert head[i] == controls[i];
    UsedBySomeone(arms, head, n);
    assert tail[0] == controls[j];
    UsedBySomeone(arms, tail, n);
  }

  /** Exactly one position of an exact cover drives a given arm. */
  lemma OwnerOf(arms: Arms, controls: seq<Control>, n: nat) returns (i: nat)
    requires ExactCover(arms, controls) && n < |arms|
    ensures i < |controls| && n in Tau(arms, controls[i].resource)
    ensures forall j :: 0 <= j < |controls| && n in Tau(arms, controls[j].resource) ==> j == i
  {
    hide Tau, Uses;
    UsedBySomeone(arms, controls, n);
    i :| 0 <= i < |controls| && n in Tau(arms, controls[i].resource);
    forall j | 0 <= j < |controls| && n in Tau(arms, controls[j].resource)
      ensures j == i
    {
      if i < j {
        UsedTwice(arms, controls, i, j, n);
      } else if j < i {
        UsedTwice(arms, controls, j, i, n);
      }
    }
  }

  // ----- independent requests commute

  /** No active controller loses an arm to both requests. */
  ghost predicate EvictSeparately(arms: Arms, a: seq<Control>, b: seq<Control>, active: seq<Control>) {
    forall c :: c in active ==> !(Touches(arms, c, Uses(arms, a)) && Touches(arms, c, Uses(arms, b)))
  }

  lemma BothTouch(arms: Arms, c: Control, u: multiset<nat>, v: multiset<nat>, n: nat)
    requires n in Tau(arms, c.resource) && n in u && n in v
    ensures Touches(arms, c, u) && Touches(arms, c, v)
  {}

  lemma SeparateRequestsAreDisjoint(arms: Arms, a: seq<Control>, b: seq<Control>, active: seq<Control>, n: nat)
    requires ExactCover(arms, active) && EvictSeparately(arms, a, b, active)
    requires n in Uses(arms, a)
    ensures n !in Uses(arms, b)
  {
    hide Tau, Uses;
    if n in Uses(arms, b) {
      UsesInRange(arms, a, n);
      var i := OwnerOf(arms, active, n);
      BothTouch(arms, active[i], Uses(arms, a), Uses(arms, b), n);
      assert false;
    }
  }

  /** The second of two separate requests takes its own arms, and leaves the first one's controllers alone. */
  lemma SecondRequest(arms: Arms, a: seq<Control>, b: seq<Control>, active: seq<Control>)
    requires ExactCover(arms, active) && EvictSeparately(arms, a, b, active)
    requires ExactCover(arms, Merge(arms, a, active))
    ensures Merge(arms, b, Merge(arms, a, active)) == b + (a + Kept(arms, active, Uses(arms, a) + Uses(arms, b)))
  {
    hide Tau, Uses, Kept, Merge, Touches;
    var first, ua, ub := Merge(arms, a, active), Uses(arms, a), Uses(arms, b);
    CoverUsesOnce(arms, active);
    MergeIsFilter(arms, a, active);
    CoverUsesOnce(arms, first);
    MergeIsFilter(arms, b, first);
    KeptOfConcat(arms, a, Kept(arms, active, ua), ub);
    KeptByBoth(arms, active, ua, ub);
    forall c | c in a
      ensures !Touches(arms, c, ub)
    {
      RequestAvoids(arms, a, b, active, c);
    }
    AllKept(arms, a, ub);
  }

  lemma RequestAvoids(arms: Arms, a: seq<Control>, b: seq<Control>, active: seq<Control>, c: Control)
    requires ExactCover(arms, active) && EvictSeparately(arms, a, b, active) && c in a
    ensures !Touches(arms, c, Uses(arms, b))
  {
    hide Tau, Uses, EvictSeparately;
    if Touches(arms, c, Uses(arms, b)) {
      var n :| n in Tau(arms, c.resource) && n in Uses(arms, b);
      UsedBySomeone(arms, a, n);
      SeparateRequestsAreDisjoint(arms, a, b, active, n);
    }
  }

  /** Two acceptable requests that evict different controllers may be sent in either order, or as one:
      all are accepted, and they end in the same pairs. */
  lemma SeparateRequestsCommute(arms: Arms, a: seq<Control>, b: seq<Control>, active: seq<Control>)
    requires ExactCover(arms, active) && EvictSeparately(arms, a, b, active)
    requires ExactCover(arms, Merge(arms, a, active)) && ExactCover(arms, Merge(arms, b, active))
    ensures var ab, ba, both := Merge(arms, b, Merge(arms, a, active)), Merge(arms, a, Merge(arms, b, active)),
      Merge(arms, a + b, active);
      && ExactCover(arms, ab) && ExactCover(arms, ba) && ExactCover(arms, both)
      && multiset(ab) == multiset(ba) == multiset(both)
  {
    hide Tau, Uses, Kept, Evicted, Merge, Touches;
    var ua, ub := Uses(arms, a), Uses(arms, b);
    var rest := Kept(arms, active, ua + ub);
    SecondRequest(arms, a, b, active);
    SecondRequest(arms, b, a, active);
    assert ub + ua == ua + ub;
    CoverUsesOnce(arms, active);
    MergeIsFilter(arms, a + b, active);
    UsesOfConcat(arms, a, b);
    assert multiset(b + (a + rest)) == multiset(a) + multiset(b) + multiset(rest);
    SeparateUses(arms, a, b, active);
    UsesOfThree(arms, a, b, rest);
    UsesOfThree(arms, b, a, rest);
    assert a + (b + rest) == (a + b) + rest;
    SameUses(arms, b + (a + rest), active);
    SameUses(arms, a + (b + rest), active);
  }

  lemma UsesOfThree(arms: Arms, a: seq<Control>, b: seq<Control>, c: seq<Control>)
    ensures Uses(arms, a + (b + c)) == Uses(arms, a) + Uses(arms, b) + Uses(arms, c)
  {
    hide Uses;
    UsesOfConcat(arms, a, b + c);
    UsesOfConcat(arms, b, c);
  }

  lemma SameUses(arms: Arms, a: seq<Control>, b: seq<Control>)
    requires Uses(arms, a) == Uses(arms, b) && ExactCover(arms, b)
    ensures ExactCover(arms, a)
  {}

  lemma SeparateUses(arms: Arms, a: seq<Control>, b: seq<Control>, active: seq<Control>)
    requires ExactCover(arms, active) && EvictSeparately(arms, a, b, active)
    requires ExactCover(arms, Merge(arms, a, active)) && ExactCover(arms, Merge(arms, b, active))
    ensures var ua, ub := Uses(arms, a), Uses(arms, b);
      ua + ub + Uses(arms, Kept(arms, active, ua + ub)) == Uses(arms, active)
  {
    hide Tau, Uses, Kept, Evicted, Merge, Touches;
    var ua, ub := Uses(arms, a), Uses(arms, b);
    TakesOverExactly(arms, a, active);
    TakesOverExactly(arms, b, active);
    KeptAndEvicted(arms, active, ua);
    KeptAndEvicted(arms, Kept(arms, active, ua), ub);
    KeptByBoth(arms, active, ua, ub);
    EvictedLater(arms, active, ua, ub);
  }

  lemma {:induction false} EvictedLater(arms: Arms, controls: seq<Control>, u: multiset<nat>, v: multiset<nat>)
    requires forall c :: c in controls ==> !(Touches(arms, c, u) && Touches(arms, c, v))
    ensures Evicted(arms, Kept(arms, controls, u), v) == Evicted(arms, controls, v)
  {
    hide Touches;
    if controls != [] {
      EvictedLater(arms, controls[1..], u, v);
      var c, rest := controls[0], Kept(arms, controls[1..], u);
      assert ([c] + rest)[1..] == rest && [] + rest == rest;
    }
  }

  // ----- repeating a request

  /** An accepted request, sent again, changes nothing exactly when each of its controllers drives an arm. */
  lemma RepeatChangesNothing(arms: Arms, request: seq<Control>, active: seq<Control>)
    requires ExactCover(arms, active) && ExactCover(arms, Merge(arms, request, active))
    ensures var next := Merge(arms, request, active);
      Merge(arms, request, next) == next <==> forall c :: c in request ==> Tau(arms, c.resource) != []
  {
    hide Tau, Uses, Kept, Merge, Touches;
    var u := Uses(arms, request);
    var kept, next := Kept(arms, active, u), Merge(arms, request, active);
    CoverUsesOnce(arms, active);
    MergeIsFilter(arms, request, active);
    CoverUsesOnce(arms, next);
    MergeIsFilter(arms, request, next);
    KeptOfConcat(arms, request, kept, u);
    KeptByBoth(arms, active, u, u);
    SameTouches(arms, active, u);
    var again := Kept(arms, request, u);
    assert Merge(arms, request, next) == request + (again + kept) && next == request + kept;
    assert |Merge(arms, request, next)| == |next| + |again|;
    forall c
      ensures c in again <==> c in request && Tau(arms, c.resource) == []
    {
      KeptMeans(arms, request, u, c);
      if c in request {
        OwnArmsTouch(arms, request, c);
      }
    }
    if again == [] {
      assert [] + kept == kept;
      forall c | c in request
        ensures Tau(arms, c.resource) != []
      {
        assert c !in again;
      }
    } else {
      assert again[0] in again;
    }
  }

  lemma {:induction false} SameTouches(arms: Arms, controls: seq<Control>, u: multiset<nat>)
    ensures Kept(arms, controls, u + u) == Kept(arms, controls, u)
  {
    hide Touches;
    if controls != [] {
      TouchesEither(arms, controls[0], u, u);
      SameTouches(arms, controls[1..], u);
    }
  }

  lemma OwnArmsTouch(arms: Arms, request: seq<Control>, c: Control)
    requires c in request
    ensures Touches(arms, c, Uses(arms, request)) <==> Tau(arms, c.resource) != []
  {
    hide Tau, Uses;
    var i :| 0 <= i < |request| && request[i] == c;
    var tau := Tau(arms, c.resource);
    if tau != [] {
      UsedBySomeone(arms, request, tau[0]);
      assert tau[0] in tau;
    }
  }
}
