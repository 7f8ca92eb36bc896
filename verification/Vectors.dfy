/** Three-dimensional vectors over the reals: the operations the distance code performs coordinate by
    coordinate, and the laws of dot and cross products that its proofs rest on. */
module Vectors {

  datatype Vec = Vec(x: real, y: real, z: real)

  function Add(a: Vec, b: Vec): Vec {
    Vec(a.x + b.x, a.y + b.y, a.z + b.z)
  }

  function Sub(a: Vec, b: Vec): Vec {
    Vec(a.x - b.x, a.y - b.y, a.z - b.z)
  }

  function Scale(k: real, a: Vec): Vec {
    Vec(k * a.x, k * a.y, k * a.z)
  }

  function Dot(a: Vec, b: Vec): real {
    a.x * b.x + a.y * b.y + a.z * b.z
  }

  function Norm2(a: Vec): real {
    a.x * a.x + a.y * a.y + a.z * a.z
  }

  function Cross(a: Vec, b: Vec): Vec {
    Vec(a.y * b.z - a.z * b.y, a.z * b.x - a.x * b.z, a.x * b.y - a.y * b.x)
  }

  function Determinant(p: Vec, q: Vec, r: Vec): real {
    p.x * (q.y * r.z - r.y * q.z) - p.y * (q.x * r.z - r.x * q.z) + p.z * (q.x * r.y - r.x * q.y)
  }

  const Zero := Vec(0.0, 0.0, 0.0)

  /** The point at fraction t of the way from p to q. */
  function Lerp(p: Vec, q: Vec, t: real): Vec {
    Sub(p, Scale(t, Sub(p, q)))
  }

  /** The coordinate of a vector by index. */
  ghost function At(v: Vec, i: nat): real {
    if i == 0 then v.x else if i == 1 then v.y else v.z
  }

  /** `root` behaves like the C library's sqrt on every argument that has a square root. */
  ghost predicate IsSquareRoot(root: real -> real) {
    forall x: real :: x >= 0.0 ==> root(x) >= 0.0 && root(x) * root(x) == x
  }

  // ----- scalar facts

  lemma MulEq(k: real, e: real, f: real)
    requires e == f
    ensures k * e == k * f
  {}

  // Products are passed by name: the solver reasons about a named product far better than about
  // a repeated nonlinear term.

  lemma MulNonNeg(a: real, b: real, ab: real)
    requires a >= 0.0 && b >= 0.0 && ab == a * b
    ensures ab >= 0.0
  {}

  lemma MulPos(a: real, b: real, ab: real)
    requires a > 0.0 && b > 0.0 && ab == a * b
    ensures ab > 0.0
  {}

  lemma ZeroFactor(d: real, e: real)
    requires d != 0.0 && d * e == 0.0
    ensures e == 0.0
  {}

  lemma MulMonotone(k: real, a: real, b: real, ka: real, kb: real)
    requires k >= 0.0 && a <= b && ka == k * a && kb == k * b
    ensures ka <= kb
  {}

  lemma SquareNonNeg(a: real)
    ensures a * a >= 0.0
  {}

  lemma SquarePos(a: real, aa: real)
    requires a != 0.0 && aa == a * a
    ensures aa > 0.0
  {
    if a > 0.0 {
      MulPos(a, a, aa);
    } else {
      MulPos(-a, -a, aa);
    }
  }

  // ----- linearity

  lemma DotCommutes(a: Vec, b: Vec)
    ensures Dot(a, b) == Dot(b, a)
  {}

  lemma DotZero(a: Vec)
    ensures Dot(a, Zero) == 0.0 == Dot(Zero, a)
  {}

  lemma DotSub(a: Vec, b: Vec, c: Vec)
    ensures Dot(a, Sub(b, c)) == Dot(a, b) - Dot(a, c)
    ensures Dot(Sub(b, c), a) == Dot(b, a) - Dot(c, a)
  {}

  lemma DotAdd(a: Vec, b: Vec, c: Vec)
    ensures Dot(a, Add(b, c)) == Dot(a, b) + Dot(a, c)
  {}

  lemma DotScale(a: Vec, k: real, b: Vec)
    ensures Dot(a, Scale(k, b)) == k * Dot(a, b)
    ensures Dot(Scale(k, b), a) == k * Dot(b, a)
  {}

  lemma DotLerp(a: Vec, p: Vec, q: Vec, t: real)
    ensures Dot(a, Lerp(p, q, t)) == (1.0 - t) * Dot(a, p) + t * Dot(a, q)
  {}

  lemma Norm2IsDot(a: Vec)
    ensures Norm2(a) == Dot(a, a) >= 0.0
    ensures Norm2(a) == 0.0 <==> a == Zero
  {
    SumOfSquares(a.x, a.y, a.z, a.x * a.x, a.y * a.y, a.z * a.z);
  }

  lemma SumOfSquares(x: real, y: real, z: real, xx: real, yy: real, zz: real)
    requires xx == x * x && yy == y * y && zz == z * z
    ensures xx + yy + zz >= 0.0
    ensures xx + yy + zz == 0.0 <==> x == y == z == 0.0
  {
    if x != 0.0 {
      SquarePos(x, xx);
    }
    if y != 0.0 {
      SquarePos(y, yy);
    }
    if z != 0.0 {
      SquarePos(z, zz);
    }
  }

  /** |a - b|^2, expanded. */
  lemma Norm2Sub(a: Vec, b: Vec)
    ensures Norm2(Sub(a, b)) == Norm2(a) - 2.0 * Dot(a, b) + Norm2(b)
  {}

  // ----- cross products

  lemma CrossIsOrthogonal(a: Vec, b: Vec)
    ensures Dot(Cross(a, b), a) == 0.0 && Dot(Cross(a, b), b) == 0.0
  {}

  lemma CrossSelf(a: Vec)
    ensures Cross(a, a) == Zero
  {}

  lemma CrossSwaps(a: Vec, b: Vec)
    ensures Cross(a, b) == Scale(-1.0, Cross(b, a))
  {}

  lemma TripleRotates(a: Vec, b: Vec, c: Vec)
    ensures Dot(a, Cross(b, c)) == Dot(b, Cross(c, a)) == Dot(c, Cross(a, b)) == Determinant(a, b, c)
  {
    TripleIsDeterminant(a, b, c);
    TripleIsDeterminant(b, c, a);
    TripleIsDeterminant(c, a, b);
  }

  lemma TripleIsDeterminant(a: Vec, b: Vec, c: Vec)
    ensures Dot(a, Cross(b, c)) == Determinant(a, b, c)
  {}

  /** Lagrange's identity: the squared area of a parallelogram is its Gram determinant. */
  lemma Lagrange(a: Vec, b: Vec)
    ensures Norm2(Cross(a, b)) == Dot(a, a) * Dot(b, b) - Dot(a, b) * Dot(a, b)
  {}

  /** One coordinate of a x (b x c) = b (a.c) - c (a.b). */
  lemma TripleCrossAt(a1: real, a2: real, a3: real, b1: real, b2: real, b3: real, c1: real, c2: real, c3: real,
                      m: real, n: real, p: real, q: real)
    requires m == b1 * c2 - b2 * c1 && n == b3 * c1 - b1 * c3
    requires p == a1 * c1 + a2 * c2 + a3 * c3 && q == a1 * b1 + a2 * b2 + a3 * b3
    ensures a2 * m - a3 * n == p * b1 - q * c1
  {
    MulEq(a2, m, b1 * c2 - b2 * c1);
    MulEq(a3, n, b3 * c1 - b1 * c3);
    MulEq(b1, p, a1 * c1 + a2 * c2 + a3 * c3);
    MulEq(c1, q, a1 * b1 + a2 * b2 + a3 * b3);
  }

  function Rotated(a: Vec): Vec {
    Vec(a.y, a.z, a.x)
  }

  lemma RotationCommutes(a: Vec, b: Vec)
    ensures Cross(Rotated(a), Rotated(b)) == Rotated(Cross(a, b))
    ensures Dot(Rotated(a), Rotated(b)) == Dot(a, b)
  {}

  /** a x (b x c) = b (a.c) - c (a.b). */
  lemma TripleCross(a: Vec, b: Vec, c: Vec)
    ensures Cross(a, Cross(b, c)) == Sub(Scale(Dot(a, c), b), Scale(Dot(a, b), c))
  {
    hide Cross, Dot;
    TripleCrossX(a, b, c);
    TripleCrossY(a, b, c);
    TripleCrossZ(a, b, c);
  }

  lemma TripleCrossX(a: Vec, b: Vec, c: Vec)
    ensures Cross(a, Cross(b, c)).x == Dot(a, c) * b.x - Dot(a, b) * c.x
  {
    var m := Cross(b, c);
    TripleCrossAt(a.x, a.y, a.z, b.x, b.y, b.z, c.x, c.y, c.z, m.z, m.y, Dot(a, c), Dot(a, b));
  }

  lemma TripleCrossY(a: Vec, b: Vec, c: Vec)
    ensures Cross(a, Cross(b, c)).y == Dot(a, c) * b.y - Dot(a, b) * c.y
  {
    var m := Cross(b, c);
    TripleCrossAt(a.y, a.z, a.x, b.y, b.z, b.x, c.y, c.z, c.x, m.x, m.z, Dot(a, c), Dot(a, b));
  }

  lemma TripleCrossZ(a: Vec, b: Vec, c: Vec)
    ensures Cross(a, Cross(b, c)).z == Dot(a, c) * b.z - Dot(a, b) * c.z
  {
    var m := Cross(b, c);
    TripleCrossAt(a.z, a.x, a.y, b.z, b.x, b.y, c.z, c.x, c.y, m.y, m.x, Dot(a, c), Dot(a, b));
  }

  /** Dotted with a, the doubled cross product b x (b x c) is a Gram expression. */
  lemma DotDoubleCross(a: Vec, b: Vec, c: Vec)
    ensures Dot(a, Cross(b, Cross(b, c))) == Dot(b, c) * Dot(a, b) - Dot(b, b) * Dot(a, c)
  {
    TripleCross(b, b, c);
    DotSub(a, Scale(Dot(b, c), b), Scale(Dot(b, b), c));
    DotScale(a, Dot(b, c), b);
    DotScale(a, Dot(b, b), c);
  }

  lemma CrossSub(n: Vec, b: Vec, c: Vec)
    ensures Cross(n, Sub(b, c)) == Sub(Cross(n, b), Cross(n, c))
  {
    hide Cross;
    CrossSubX(n, b, c);
    CrossSubY(n, b, c);
    CrossSubZ(n, b, c);
  }

  lemma CrossSubX(n: Vec, b: Vec, c: Vec)
    ensures Cross(n, Sub(b, c)).x == Cross(n, b).x - Cross(n, c).x
  {}

  lemma CrossSubY(n: Vec, b: Vec, c: Vec)
    ensures Cross(n, Sub(b, c)).y == Cross(n, b).y - Cross(n, c).y
  {}

  lemma CrossSubZ(n: Vec, b: Vec, c: Vec)
    ensures Cross(n, Sub(b, c)).z == Cross(n, b).z - Cross(n, c).z
  {}

  lemma CrossScale(n: Vec, s: real, b: Vec)
    ensures Cross(n, Scale(s, b)) == Scale(s, Cross(n, b))
  {
    hide Cross;
    CrossScaleX(n, s, b);
    CrossScaleY(n, s, b);
    CrossScaleZ(n, s, b);
  }

  lemma CrossScaleX(n: Vec, s: real, b: Vec)
    ensures Cross(n, Scale(s, b)).x == s * Cross(n, b).x
  {}

  lemma CrossScaleY(n: Vec, s: real, b: Vec)
    ensures Cross(n, Scale(s, b)).y == s * Cross(n, b).y
  {}

  lemma CrossScaleZ(n: Vec, s: real, b: Vec)
    ensures Cross(n, Scale(s, b)).z == s * Cross(n, b).z
  {}

  /** a resolved into its parts along b, c and their common normal n = b x c, scaled by n.n. */
  lemma NormalDecomposition(a: Vec, b: Vec, c: Vec)
    ensures var n := Cross(b, c);
      Scale(Dot(n, n), a) ==
      Add(Scale(Dot(n, a), n),
          Sub(Scale(Dot(a, c), Sub(Scale(Dot(b, b), c), Scale(Dot(b, c), b))),
              Scale(Dot(a, b), Sub(Scale(Dot(b, c), c), Scale(Dot(c, c), b)))))
  {
    hide Dot, Sub, Scale, Cross, Add;
    var n := Cross(b, c);
    TripleCross(n, a, n);
    TripleCross(a, b, c);
    CrossSub(n, Scale(Dot(a, c), b), Scale(Dot(a, b), c));
    CrossScale(n, Dot(a, c), b);
    CrossScale(n, Dot(a, b), c);
    FlippedTriple(b, b, c);
    FlippedTriple(c, b, c);
    DotCommutes(c, b);
    AddBack(Scale(Dot(n, n), a), Scale(Dot(n, a), n));
  }

  lemma FlippedTriple(x: Vec, b: Vec, c: Vec)
    ensures Cross(Cross(b, c), x) == Sub(Scale(Dot(x, b), c), Scale(Dot(x, c), b))
  {
    hide Dot, Scale, Cross;
    CrossSwaps(Cross(b, c), x);
    TripleCross(x, b, c);
    FlipSub(Scale(Dot(x, c), b), Scale(Dot(x, b), c));
  }

  lemma FlipSub(x: Vec, y: Vec)
    ensures Scale(-1.0, Sub(x, y)) == Sub(y, x)
  {}

  lemma AddBack(x: Vec, y: Vec)
    ensures Add(y, Sub(x, y)) == x
  {}

  /** Cramer's rule: o in the frame b, c, d, scaled by the frame's determinant. */
  lemma Cramer(o: Vec, b: Vec, c: Vec, d: Vec)
    ensures Scale(Dot(b, Cross(c, d)), o)
         == Add(Scale(Dot(o, Cross(c, d)), b), Add(Scale(Dot(o, Cross(d, b)), c), Scale(Dot(o, Cross(b, c)), d)))
  {
    hide Dot, Cross, Scale, Add, Sub, Determinant;
    var m, u := Cross(c, d), Cross(o, b);
    FlippedTriple(m, o, b);
    TripleCross(u, c, d);
    DotCommutes(m, b);
    DotCommutes(m, o);
    TripleRotates(o, b, d);
    TripleRotates(o, b, c);
    DotCommutes(u, c);
    DotCommutes(u, d);
    CrossSwaps(d, b);
    DotScale(o, -1.0, Cross(b, d));
    var x, y, z, det := Dot(o, m), Dot(o, Cross(d, b)), Dot(o, Cross(b, c)), Dot(b, m);
    assert -y == Dot(u, d) && z == Dot(u, c);
    CramerRearranged(x, b, det, o, y, c, z, d);
  }

  lemma CramerRearranged(x: real, b: Vec, det: real, o: Vec, y: real, c: Vec, z: real, d: Vec)
    requires Sub(Scale(x, b), Scale(det, o)) == Sub(Scale(-y, c), Scale(z, d))
    ensures Scale(det, o) == Add(Scale(x, b), Add(Scale(y, c), Scale(z, d)))
  {}
}
