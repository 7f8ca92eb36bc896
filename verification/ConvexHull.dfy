/** Convex hulls of finite point lists, as weighted means. The distance code works on the convex hulls
    of two vertex lists without ever building them; its results are stated with these definitions. */
module ConvexHull {
  import opened Vectors

  ghost function Sum(w: seq<real>): real {
    if w == [] then 0.0 else w[0] + Sum(w[1..])
  }

  ghost function Combo(w: seq<real>, pts: seq<Vec>): Vec
    requires |w| == |pts|
  {
    if w == [] then Zero else Add(Scale(w[0], pts[0]), Combo(w[1..], pts[1..]))
  }

  ghost predicate IsWeighting(w: seq<real>, n: nat) {
    |w| == n && (forall i :: 0 <= i < n ==> w[i] >= 0.0) && Sum(w) == 1.0
  }

  ghost predicate InHull(x: Vec, pts: seq<Vec>) {
    exists w: seq<real> :: IsWeighting(w, |pts|) && x == Combo(w, pts)
  }

  /** v = p - q for a point p of the first hull and a point q of the second. */
  ghost predicate IsDifference(v: Vec, pts1: seq<Vec>, pts2: seq<Vec>) {
    exists p: Vec, q: Vec :: InHull(p, pts1) && InHull(q, pts2) && v == Sub(p, q)
  }

  // ----- linear bounds carry over from the vertices to the hull

  /** Points that are not level with m may only get non-negative weights. */
  lemma {:induction false} ComboBound(f: Vec, w: seq<real>, pts: seq<Vec>, m: real)
    requires |w| == |pts|
    requires forall i :: 0 <= i < |pts| ==> Dot(f, pts[i]) == m || (w[i] >= 0.0 && Dot(f, pts[i]) >= m)
    ensures Dot(f, Combo(w, pts)) >= m * Sum(w)
  {
    hide Dot, Add, Scale;
    if w == [] {
      DotZero(f);
    } else {
      ComboBound(f, w[1..], pts[1..], m);
      DotAdd(f, Scale(w[0], pts[0]), Combo(w[1..], pts[1..]));
      DotScale(f, w[0], pts[0]);
      if Dot(f, pts[0]) != m {
        MulMonotone(w[0], m, Dot(f, pts[0]), w[0] * m, w[0] * Dot(f, pts[0]));
      }
      assert m * Sum(w) == w[0] * m + m * Sum(w[1..]);
    }
  }

  lemma HullBound(f: Vec, x: Vec, pts: seq<Vec>, m: real)
    requires InHull(x, pts)
    requires forall i :: 0 <= i < |pts| ==> Dot(f, pts[i]) >= m
    ensures Dot(f, x) >= m
  {
    var w :| IsWeighting(w, |pts|) && x == Combo(w, pts);
    ComboBound(f, w, pts, m);
  }

  // ----- vertices belong to the hull, and the hull is convex

  lemma ScaledTerms(p: Vec, x: Vec)
    ensures Add(Scale(0.0, p), x) == x && Add(Scale(1.0, p), Zero) == p
  {}

  lemma {:induction false} ZeroWeights(pts: seq<Vec>)
    ensures var w := seq(|pts|, _ => 0.0); Sum(w) == 0.0 && Combo(w, pts) == Zero
  {
    hide Add, Scale;
    var w := seq(|pts|, _ => 0.0);
    if pts != [] {
      ZeroWeights(pts[1..]);
      assert w[1..] == seq(|pts[1..]|, _ => 0.0);
      ScaledTerms(pts[0], Zero);
    }
  }

  ghost function Unit(k: nat, n: nat): seq<real> {
    seq(n, i => if i == k then 1.0 else 0.0)
  }

  lemma {:induction false} UnitCombo(k: nat, pts: seq<Vec>)
    requires k < |pts|
    ensures Sum(Unit(k, |pts|)) == 1.0 && Combo(Unit(k, |pts|), pts) == pts[k]
  {
    hide Add, Scale;
    var w := Unit(k, |pts|);
    if k == 0 {
      ZeroWeights(pts[1..]);
      assert w[1..] == seq(|pts| - 1, _ => 0.0);
      ScaledTerms(pts[0], Zero);
    } else {
      UnitCombo(k - 1, pts[1..]);
      assert w[1..] == Unit(k - 1, |pts| - 1);
      ScaledTerms(pts[0], pts[k]);
    }
  }

  lemma HullMember(i: nat, pts: seq<Vec>)
    requires i < |pts|
    ensures InHull(pts[i], pts)
  {
    UnitCombo(i, pts);
    assert IsWeighting(Unit(i, |pts|), |pts|);
  }

  lemma {:induction false} AppendedCombo(w: seq<real>, pts: seq<Vec>, a: real, p: Vec)
    requires |w| == |pts|
    ensures Sum(w + [a]) == Sum(w) + a
    ensures a == 0.0 ==> Combo(w + [a], pts + [p]) == Combo(w, pts)
  {
    hide Add, Scale;
    if w == [] {
      assert w + [a] == [a] && pts + [p] == [p];
      assert Sum([a]) == a + Sum([]) && Combo([a], [p]) == Add(Scale(a, p), Combo([], []));
      ScaledTerms(p, Zero);
    } else {
      AppendedCombo(w[1..], pts[1..], a, p);
      assert (w + [a])[1..] == w[1..] + [a] && (pts + [p])[1..] == pts[1..] + [p];
    }
  }

  lemma HullGrows(x: Vec, pts: seq<Vec>, p: Vec)
    requires InHull(x, pts)
    ensures InHull(x, pts + [p])
  {
    hide Sum, Combo;
    var w :| IsWeighting(w, |pts|) && x == Combo(w, pts);
    AppendedCombo(w, pts, 0.0, p);
    assert IsWeighting(w + [0.0], |pts + [p]|);
  }

  ghost function Mixed(a: real, b: real, t: real): real {
    (1.0 - t) * a + t * b
  }

  ghost function MixWeights(a: seq<real>, b: seq<real>, t: real): seq<real>
    requires |a| == |b|
  {
    seq(|a|, i requires 0 <= i < |a| => Mixed(a[i], b[i], t))
  }

  lemma MixedSums(a: real, x: real, b: real, y: real, t: real)
    ensures Mixed(a, b, t) + Mixed(x, y, t) == Mixed(a + x, b + y, t)
  {}

  lemma {:induction false} MixCombo(a: seq<real>, b: seq<real>, t: real, pts: seq<Vec>)
    requires |a| == |b| == |pts|
    ensures Sum(MixWeights(a, b, t)) == Mixed(Sum(a), Sum(b), t)
    ensures Combo(MixWeights(a, b, t), pts) == Lerp(Combo(a, pts), Combo(b, pts), t)
  {
    hide Mixed, Add, Scale, Lerp;
    if pts == [] {
      assert Mixed(0.0, 0.0, t) == 0.0 && Lerp(Zero, Zero, t) == Zero by {
        MixedZero(t);
      }
    } else {
      var w := MixWeights(a, b, t);
      MixCombo(a[1..], b[1..], t, pts[1..]);
      assert w[1..] == MixWeights(a[1..], b[1..], t);
      MixedSums(a[0], Sum(a[1..]), b[0], Sum(b[1..]), t);
      LerpOfSums(a[0], b[0], t, pts[0], Combo(a[1..], pts[1..]), Combo(b[1..], pts[1..]));
    }
  }

  lemma MixedZero(t: real)
    ensures Mixed(0.0, 0.0, t) == 0.0 && Mixed(1.0, 1.0, t) == 1.0 && Lerp(Zero, Zero, t) == Zero
  {}

  lemma MixedNonNeg(a: real, b: real, t: real)
    requires a >= 0.0 && b >= 0.0 && 0.0 <= t <= 1.0
    ensures Mixed(a, b, t) >= 0.0
  {
    MulNonNeg(1.0 - t, a, (1.0 - t) * a);
    MulNonNeg(t, b, t * b);
  }

  lemma LerpOfSums(a: real, b: real, t: real, p: Vec, x: Vec, y: Vec)
    ensures Add(Scale(Mixed(a, b, t), p), Lerp(x, y, t))
         == Lerp(Add(Scale(a, p), x), Add(Scale(b, p), y), t)
  {
    hide Mixed, Lerp;
    var u, v := Add(Scale(a, p), x), Add(Scale(b, p), y);
    LerpIsMixed(x, y, t);
    LerpIsMixed(u, v, t);
    LerpOfSumsAt(a, b, t, p.x, x.x, y.x, u.x, v.x);
    LerpOfSumsAt(a, b, t, p.y, x.y, y.y, u.y, v.y);
    LerpOfSumsAt(a, b, t, p.z, x.z, y.z, u.z, v.z);
  }

  lemma LerpIsMixed(p: Vec, q: Vec, t: real)
    ensures Lerp(p, q, t) == Vec(Mixed(p.x, q.x, t), Mixed(p.y, q.y, t), Mixed(p.z, q.z, t))
  {}

  lemma LerpOfSumsAt(a: real, b: real, t: real, p: real, x: real, y: real, u: real, v: real)
    requires u == a * p + x && v == b * p + y
    ensures Mixed(a, b, t) * p + Mixed(x, y, t) == Mixed(u, v, t)
  {}

  lemma HullMix(p: Vec, q: Vec, pts: seq<Vec>, t: real)
    requires InHull(p, pts) && InHull(q, pts) && 0.0 <= t <= 1.0
    ensures InHull(Lerp(p, q, t), pts)
  {
    hide Mixed, Lerp, Combo, Sum;
    var a :| IsWeighting(a, |pts|) && p == Combo(a, pts);
    var b :| IsWeighting(b, |pts|) && q == Combo(b, pts);
    var w := MixWeights(a, b, t);
    MixCombo(a, b, t, pts);
    MixedZero(t);
    forall i | 0 <= i < |w|
      ensures w[i] >= 0.0
    {
      MixedNonNeg(a[i], b[i], t);
    }
    assert IsWeighting(w, |pts|);
  }

  lemma UnfoldTwo(w: seq<real>, p: Vec, q: Vec)
    requires |w| == 2
    ensures Sum(w) == w[0] + w[1]
    ensures Combo(w, [p, q]) == Add(Scale(w[0], p), Add(Scale(w[1], q), Zero))
  {
    hide Add, Scale;
    var pts := [p, q];
    assert pts[1..] == [q] && pts[1..][1..] == [];
    assert w[1..] == [w[1]] && w[1..][1..] == [];
    assert Sum(w[1..]) == w[1] + Sum([]);
    assert Combo(w[1..], pts[1..]) == Add(Scale(w[1], q), Combo([], []));
  }

  lemma LerpOfTwo(a: real, b: real, p: Vec, q: Vec)
    requires a + b == 1.0
    ensures Add(Scale(a, p), Add(Scale(b, q), Zero)) == Lerp(p, q, b)
  {
    hide Lerp, Mixed;
    LerpIsMixed(p, q, b);
    LerpOfTwoAt(a, b, p.x, q.x);
    LerpOfTwoAt(a, b, p.y, q.y);
    LerpOfTwoAt(a, b, p.z, q.z);
  }

  lemma LerpOfTwoAt(a: real, b: real, p: real, q: real)
    requires a + b == 1.0
    ensures a * p + b * q == Mixed(p, q, b)
  {}

  lemma UnfoldThree(w: seq<real>, p: Vec, q: Vec, r: Vec)
    requires |w| == 3
    ensures Sum(w) == w[0] + w[1] + w[2]
    ensures Combo(w, [p, q, r]) == Add(Scale(w[0], p), Add(Scale(w[1], q), Add(Scale(w[2], r), Zero)))
  {
    hide Add, Scale;
    var pts := [p, q, r];
    assert pts[1..] == [q, r];
    UnfoldTwo(w[1..], q, r);
    assert Combo(w, pts) == Add(Scale(w[0], p), Combo(w[1..], pts[1..]));
  }

  lemma UnfoldFour(w: seq<real>, p: Vec, q: Vec, r: Vec, s: Vec)
    requires |w| == 4
    ensures Sum(w) == w[0] + w[1] + w[2] + w[3]
    ensures Combo(w, [p, q, r, s]) == Add(Scale(w[0], p),
      Add(Scale(w[1], q), Add(Scale(w[2], r), Add(Scale(w[3], s), Zero))))
  {
    hide Add, Scale;
    var pts := [p, q, r, s];
    assert pts[1..] == [q, r, s];
    UnfoldThree(w[1..], q, r, s);
    assert Combo(w, pts) == Add(Scale(w[0], p), Combo(w[1..], pts[1..]));
  }

  // ----- the cone at one of the points, spanned by the edges to the others

  ghost predicate IsConic(w: seq<real>, k: nat, pts: seq<Vec>) {
    && |w| == |pts| && k < |w| && Sum(w) == 1.0
    && forall i :: 0 <= i < |w| && i != k ==> w[i] >= 0.0 && pts[i] != pts[k]
  }

  ghost predicate InCone(x: Vec, apex: Vec, pts: seq<Vec>) {
    exists w: seq<real>, k: nat :: IsConic(w, k, pts) && pts[k] == apex && x == Combo(w, pts)
  }

  lemma ConeOfPoint(a: Vec)
    ensures InCone(a, a, [a])
  {
    hide Add, Scale;
    var w, pts := [1.0], [a];
    assert w[1..] == [] && pts[1..] == [];
    assert Combo(w, pts) == Add(Scale(1.0, a), Combo([], []));
    ScaledTerms(a, Zero);
    assert IsConic(w, 0, pts);
  }

  lemma ConeOfEdge(a: Vec, b: Vec, t: real)
    requires a != b && t >= 0.0
    ensures InCone(Lerp(a, b, t), a, [b, a]) && InCone(Lerp(a, b, t), a, [a, b])
  {
    hide Add, Scale, Lerp, Sum, Combo;
    UnfoldTwo([t, 1.0 - t], b, a);
    UnfoldTwo([1.0 - t, t], a, b);
    LerpOfTwo(1.0 - t, t, a, b);
    LerpOfTwo(t, 1.0 - t, b, a);
    LerpReverses(a, b, t);
    assert IsConic([t, 1.0 - t], 1, [b, a]) && IsConic([1.0 - t, t], 0, [a, b]);
  }

  lemma LerpReverses(a: Vec, b: Vec, t: real)
    ensures Lerp(b, a, 1.0 - t) == Lerp(a, b, t)
  {
    hide Lerp;
    LerpIsMixed(b, a, 1.0 - t);
    LerpIsMixed(a, b, t);
  }

  lemma ConeOfThree(p: real, q: real, x: Vec, y: Vec, a: Vec)
    requires p >= 0.0 && q >= 0.0 && x != a && y != a
    ensures InCone(Add(Scale(p, x), Add(Scale(q, y), Add(Scale(1.0 - q - p, a), Zero))), a, [x, y, a])
  {
    hide Add, Scale, Sum, Combo;
    var w := [p, q, 1.0 - q - p];
    UnfoldThree(w, x, y, a);
    assert IsConic(w, 2, [x, y, a]);
  }

  lemma ConeOfFour(p: real, q: real, r: real, x: Vec, y: Vec, z: Vec, a: Vec)
    requires p >= 0.0 && q >= 0.0 && r >= 0.0 && x != a && y != a && z != a
    ensures InCone(Add(Scale(p, x), Add(Scale(q, y), Add(Scale(r, z), Add(Scale(1.0 - r - q - p, a), Zero)))), a,
      [x, y, z, a])
  {
    hide Add, Scale, Sum, Combo;
    var w := [p, q, r, 1.0 - r - q - p];
    UnfoldFour(w, x, y, z, a);
    assert IsConic(w, 3, [x, y, z, a]);
  }

  /** A bound on all points that the apex attains carries over to the cone. */
  lemma ConeBound(f: Vec, x: Vec, apex: Vec, pts: seq<Vec>, m: real)
    requires InCone(x, apex, pts) && Dot(f, apex) == m
    requires forall i :: 0 <= i < |pts| ==> Dot(f, pts[i]) >= m
    ensures Dot(f, x) >= m
  {
    hide Dot, Combo, Sum;
    var w, k: nat :| IsConic(w, k, pts) && pts[k] == apex && x == Combo(w, pts);
    ComboBound(f, w, pts, m);
  }

  lemma ConeMember(i: nat, k: nat, pts: seq<Vec>)
    requires i < |pts| && k < |pts| && forall j :: 0 <= j < |pts| && j != k ==> pts[j] != pts[k]
    ensures InCone(pts[i], pts[k], pts)
  {
    UnitCombo(i, pts);
    assert IsConic(Unit(i, |pts|), k, pts);
  }

  /** The cone is convex. */
  lemma ConeMix(x: Vec, y: Vec, apex: Vec, pts: seq<Vec>, t: real)
    requires InCone(x, apex, pts) && InCone(y, apex, pts) && 0.0 <= t <= 1.0
    ensures InCone(Lerp(x, y, t), apex, pts)
  {
    hide Mixed, Lerp, Combo, Sum;
    var a, k: nat :| IsConic(a, k, pts) && pts[k] == apex && x == Combo(a, pts);
    var b, k': nat :| IsConic(b, k', pts) && pts[k'] == apex && y == Combo(b, pts);
    MixCombo(a, b, t, pts);
    MixedZero(t);
    var w := MixWeights(a, b, t);
    forall i | 0 <= i < |w| && i != k
      ensures w[i] >= 0.0
    {
      MixedNonNeg(a[i], b[i], t);
    }
    assert IsConic(w, k, pts);
  }

  // ----- weights on some of the points, as weights on all of them

  lemma {:induction false} AddWeight(u: seq<real>, pts: seq<Vec>, j: nat, c: real)
    requires |u| == |pts| && j < |u|
    ensures Sum(u[j := u[j] + c]) == Sum(u) + c
    ensures Combo(u[j := u[j] + c], pts) == Add(Scale(c, pts[j]), Combo(u, pts))
  {
    hide Add, Scale;
    var u' := u[j := u[j] + c];
    if j == 0 {
      assert u'[1..] == u[1..];
      ScaleAdds(u[0], c, pts[0], Combo(u[1..], pts[1..]));
    } else {
      AddWeight(u[1..], pts[1..], j - 1, c);
      assert u'[1..] == u[1..][j - 1 := u[1..][j - 1] + c];
      AddSwaps(Scale(u[0], pts[0]), Scale(c, pts[j]), Combo(u[1..], pts[1..]));
    }
  }

  lemma ScaleAdds(a: real, c: real, p: Vec, x: Vec)
    ensures Add(Scale(a + c, p), x) == Add(Scale(c, p), Add(Scale(a, p), x))
  {}

  lemma AddSwaps(p: Vec, q: Vec, x: Vec)
    ensures Add(p, Add(q, x)) == Add(q, Add(p, x))
  {}

  lemma {:induction false} SpreadWeights(w: seq<real>, kept: seq<Vec>, pts: seq<Vec>) returns (u: seq<real>)
    requires |w| == |kept| && forall i :: 0 <= i < |kept| ==> kept[i] in pts
    ensures |u| == |pts| && Sum(u) == Sum(w) && Combo(u, pts) == Combo(w, kept)
    ensures forall i :: 0 <= i < |u| && u[i] < 0.0 ==> exists j :: 0 <= j < |w| && w[j] < 0.0 && kept[j] == pts[i]
  {
    hide Add, Scale;
    if w == [] {
      ZeroWeights(pts);
      u := seq(|pts|, _ => 0.0);
    } else {
      var rest := SpreadWeights(w[1..], kept[1..], pts);
      var j :| 0 <= j < |pts| && pts[j] == kept[0];
      u := rest[j := rest[j] + w[0]];
      AddWeight(rest, pts, j, w[0]);
      forall i | 0 <= i < |u| && u[i] < 0.0
        ensures exists j :: 0 <= j < |w| && w[j] < 0.0 && kept[j] == pts[i]
      {
        if rest[i] < 0.0 {
          var n :| 0 <= n < |w| - 1 && w[1..][n] < 0.0 && kept[1..][n] == pts[i];
          assert w[n + 1] < 0.0 && kept[n + 1] == pts[i];
        } else {
          assert w[0] < 0.0 && kept[0] == pts[i];
        }
      }
    }
  }

  lemma HullOfSubset(v: Vec, kept: seq<Vec>, pts: seq<Vec>)
    requires InHull(v, kept)
    requires forall i :: 0 <= i < |kept| ==> kept[i] in pts
    ensures InHull(v, pts)
  {
    hide Combo, Sum;
    var w :| IsWeighting(w, |kept|) && v == Combo(w, kept);
    var u := SpreadWeights(w, kept, pts);
    assert IsWeighting(u, |pts|);
  }

  lemma ConeOfSubset(v: Vec, kept: seq<Vec>, pts: seq<Vec>, k: nat)
    requires k < |pts| && InCone(v, pts[k], kept)
    requires forall i :: 0 <= i < |kept| ==> kept[i] in pts
    requires forall i :: 0 <= i < |pts| && i != k ==> pts[i] != pts[k]
    ensures InCone(v, pts[k], pts)
  {
    hide Combo, Sum;
    var w, n: nat :| IsConic(w, n, kept) && kept[n] == pts[k] && v == Combo(w, kept);
    var u := SpreadWeights(w, kept, pts);
    assert IsConic(u, k, pts);
  }

  /** If all points but one lie at height m along f, the height of a combination shows the weight of that one. */
  lemma {:induction false} ComboHeight(f: Vec, w: seq<real>, pts: seq<Vec>, k: nat, m: real)
    requires |w| == |pts| && k <= |w|
    requires forall i :: 0 <= i < |w| && i != k ==> Dot(f, pts[i]) == m
    ensures Dot(f, Combo(w, pts)) == m * Sum(w) + if k < |w| then w[k] * (Dot(f, pts[k]) - m) else 0.0
  {
    hide Dot, Add, Scale;
    if w == [] {
      DotZero(f);
    } else {
      ComboHeight(f, w[1..], pts[1..], if k == 0 then |w| - 1 else k - 1, m);
      DotAdd(f, Scale(w[0], pts[0]), Combo(w[1..], pts[1..]));
      DotScale(f, w[0], pts[0]);
      assert m * Sum(w) == w[0] * m + m * Sum(w[1..]);
      if k == 0 {
        assert w[0] * Dot(f, pts[0]) == w[0] * m + w[0] * (Dot(f, pts[0]) - m);
      }
    }
  }

  lemma NonNegFactor(a: real, b: real)
    requires b > 0.0 && a * -b <= 0.0
    ensures a >= 0.0
  {
    if a < 0.0 {
      MulPos(-a, b, -a * b);
      assert false;
    }
  }

  /** A point of the cone that stays on the apex's side of the opposite face lies in the hull. */
  lemma ConeInHull(x: Vec, apex: Vec, pts: seq<Vec>, f: Vec, m: real)
    requires InCone(x, apex, pts) && Dot(f, x) <= m && Dot(f, apex) < m
    requires forall i :: 0 <= i < |pts| && pts[i] != apex ==> Dot(f, pts[i]) == m
    ensures InHull(x, pts)
  {
    hide Dot, Combo, Sum;
    var w, k: nat :| IsConic(w, k, pts) && pts[k] == apex && x == Combo(w, pts);
    ComboHeight(f, w, pts, k, m);
    NonNegFactor(w[k], m - Dot(f, apex));
    assert IsWeighting(w, |pts|);
  }

  // ----- differences of hull points form a convex set

  lemma DifferenceMix(u: Vec, v: Vec, pts1: seq<Vec>, pts2: seq<Vec>, t: real)
    requires IsDifference(u, pts1, pts2) && IsDifference(v, pts1, pts2) && 0.0 <= t <= 1.0
    ensures IsDifference(Lerp(u, v, t), pts1, pts2)
  {
    hide Lerp, Sub, InHull;
    var a, b :| InHull(a, pts1) && InHull(b, pts2) && u == Sub(a, b);
    var c, d :| InHull(c, pts1) && InHull(d, pts2) && v == Sub(c, d);
    HullMix(a, c, pts1, t);
    HullMix(b, d, pts2, t);
    LerpOfDifferences(a, b, c, d, t);
  }

  lemma LerpOfDifferences(a: Vec, b: Vec, c: Vec, d: Vec, t: real)
    ensures Lerp(Sub(a, b), Sub(c, d), t) == Sub(Lerp(a, c, t), Lerp(b, d, t))
  {}

  ghost function Times(k: real, a: real): real {
    k * a
  }

  ghost function Rescaled(w: seq<real>, k: real): seq<real> {
    seq(|w|, i requires 0 <= i < |w| => Times(k, w[i]))
  }

  lemma {:induction false} RescaledCombo(w: seq<real>, k: real, pts: seq<Vec>)
    requires |w| == |pts|
    ensures Sum(Rescaled(w, k)) == Times(k, Sum(w))
    ensures Combo(Rescaled(w, k), pts) == Scale(k, Combo(w, pts))
  {
    hide Add, Scale, Times;
    if w == [] {
      ScaleSum(k, 0.0, 0.0, Zero, Zero);
      assert Rescaled(w, k) == [];
    } else {
      RescaledCombo(w[1..], k, pts[1..]);
      var kw := Rescaled(w, k);
      assert kw[1..] == Rescaled(w[1..], k);
      ScaleSum(k, w[0], Sum(w[1..]), pts[0], Combo(w[1..], pts[1..]));
    }
  }

  lemma ScaleSum(k: real, a: real, b: real, p: Vec, x: Vec)
    ensures Times(k, a) + Times(k, b) == Times(k, a + b)
    ensures Scale(k, Add(Scale(a, p), x)) == Add(Scale(Times(k, a), p), Scale(k, x))
    ensures Scale(k, Zero) == Zero && Times(k, 0.0) == 0.0
  {}

  lemma {:induction false} SumNonNeg(w: seq<real>)
    requires forall i :: 0 <= i < |w| ==> w[i] >= 0.0
    ensures Sum(w) >= 0.0
    ensures Sum(w) == 0.0 ==> forall i :: 0 <= i < |w| ==> w[i] == 0.0
  {
    if w != [] {
      SumNonNeg(w[1..]);
      assert forall i :: 1 <= i < |w| ==> w[i] == w[1..][i - 1];
    }
  }

  ghost predicate IsConvex(holds: Vec -> bool) {
    forall p: Vec, q: Vec, t: real :: holds(p) && holds(q) && 0.0 <= t <= 1.0 ==> holds(Lerp(p, q, t))
  }

  /** A convex set that contains the vertices contains their hull. */
  lemma {:induction false} ComboInConvexSet(w: seq<real>, verts: seq<Vec>, holds: Vec -> bool)
    requires IsWeighting(w, |verts|) && IsConvex(holds)
    requires forall i :: 0 <= i < |verts| ==> holds(verts[i])
    ensures holds(Combo(w, verts))
    decreases |verts|
  {
    hide Lerp, Add, Scale, IsConvex, Rescaled, Times;
    assert w != [];
    var rest := Sum(w[1..]);
    SumNonNeg(w[1..]);
    if rest == 0.0 {
      assert w[1..] == seq(|verts[1..]|, _ => 0.0);
      ZeroWeights(verts[1..]);
      ScaledTerms(verts[0], Zero);
    } else {
      var w' := Rescaled(w[1..], 1.0 / rest);
      RescaledWeighting(w[1..], verts[1..], rest);
      ComboInConvexSet(w', verts[1..], holds);
      ConvexPoint(verts[0], Combo(w', verts[1..]), rest, holds);
      SplitFirst(w[0], rest, 1.0 / rest, verts[0], Combo(w[1..], verts[1..]));
    }
  }

  lemma ConvexPoint(p: Vec, q: Vec, t: real, holds: Vec -> bool)
    requires IsConvex(holds) && holds(p) && holds(q) && 0.0 <= t <= 1.0
    ensures holds(Lerp(p, q, t))
  {}

  lemma RescaledWeighting(w: seq<real>, pts: seq<Vec>, total: real)
    requires |w| == |pts| && (forall i :: 0 <= i < |w| ==> w[i] >= 0.0)
    requires Sum(w) == total > 0.0
    ensures IsWeighting(Rescaled(w, 1.0 / total), |pts|)
    ensures Combo(Rescaled(w, 1.0 / total), pts) == Scale(1.0 / total, Combo(w, pts))
  {
    hide Sum, Combo;
    RescaledCombo(w, 1.0 / total, pts);
    var w' := Rescaled(w, 1.0 / total);
    forall i | 0 <= i < |w'|
      ensures w'[i] >= 0.0
    {
      MulNonNeg(1.0 / total, w[i], w'[i]);
    }
  }

  lemma SplitFirst(a: real, rest: real, k: real, p: Vec, x: Vec)
    requires a + rest == 1.0 && rest * k == 1.0
    ensures Add(Scale(a, p), x) == Lerp(p, Scale(k, x), rest)
  {}

  /** Any point of the hull of differences is itself a difference. */
  lemma HullOfDifferences(v: Vec, verts: seq<Vec>, pts1: seq<Vec>, pts2: seq<Vec>)
    requires InHull(v, verts)
    requires forall i :: 0 <= i < |verts| ==> IsDifference(verts[i], pts1, pts2)
    ensures IsDifference(v, pts1, pts2)
  {
    hide Lerp, Combo, Sum, IsDifference;
    var holds := (x: Vec) => IsDifference(x, pts1, pts2);
    forall p: Vec, q: Vec, t: real | holds(p) && holds(q) && 0.0 <= t <= 1.0
      ensures holds(Lerp(p, q, t))
    {
      DifferenceMix(p, q, pts1, pts2, t);
    }
    var w :| IsWeighting(w, |verts|) && v == Combo(w, verts);
    ComboInConvexSet(w, verts, holds);
  }
}
