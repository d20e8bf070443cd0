/** Three-component vectors used as points, directions and colours
    (src/vec3.rs). `f64` is modelled as `real`; `f64::sqrt` is foreign
    code and is passed in as a parameter `sqrt`, constrained where a
    property needs a true square root.

    The operations carry no postconditions of their own: their properties
    are lemmas, so that a proof only pays for the facts it calls on. */
module Vectors {

  datatype Vec3 = Vec3(x: real, y: real, z: real)

  type Color = Vec3
  type Point3 = Vec3

  /** `Vec3::default()`. */
  const Zero: Vec3 := Vec3(0.0, 0.0, 0.0)

  /** `sqrt` returns the non-negative square root of `x`. */
  predicate SqrtAt(sqrt: real -> real, x: real) {
    0.0 <= sqrt(x) && sqrt(x) * sqrt(x) == x
  }

  /** `sqrt` is the square root on every non-negative argument. */
  ghost predicate IsSqrt(sqrt: real -> real) {
    forall x: real {:trigger sqrt(x)} :: 0.0 <= x ==> SqrtAt(sqrt, x)
  }

  function Abs(a: real): real {
    if a < 0.0 then -a else a
  }

  /** `f64::min` (NaN aside). */
  function Min(a: real, b: real): real {
    if a < b then a else b
  }

  // ----- Operators (src/vec3.rs:120-198) -----

  /** `-v`. */
  function Neg(v: Vec3): Vec3 {
    Vec3(-v.x, -v.y, -v.z)
  }

  /** `a + b`. */
  function Add(a: Vec3, b: Vec3): Vec3 {
    Vec3(a.x + b.x, a.y + b.y, a.z + b.z)
  }

  /** `a - b`, which the source computes as `a + (-b)`. */
  function Sub(a: Vec3, b: Vec3): Vec3 {
    Add(a, Neg(b))
  }

  /** `s * v` (scalar on the left). */
  function Scale(s: real, v: Vec3): Vec3 {
    Vec3(s * v.x, s * v.y, s * v.z)
  }

  /** `v * s` (scalar on the right), which delegates to `s * v`. */
  function MulScalar(v: Vec3, s: real): Vec3 {
    Scale(s, v)
  }

  /** `a * b`, the component-wise product used to tint colours. */
  function MulComp(a: Vec3, b: Vec3): Vec3 {
    Vec3(a.x * b.x, a.y * b.y, a.z * b.z)
  }

  /** `v / s`, computed as `v * (1/s)`. */
  function DivScalar(v: Vec3, s: real): Vec3
    requires s != 0.0
  {
    MulScalar(v, 1.0 / s)
  }

  /** `s / v`, computed as `(1/s) * v`: it scales `v` down by `s` rather
      than dividing `s` by each component. */
  function ScalarDiv(s: real, v: Vec3): Vec3
    requires s != 0.0
  {
    Scale(1.0 / s, v)
  }

  // ----- Methods (src/vec3.rs:63-106) -----

  function Dot(a: Vec3, b: Vec3): real {
    a.x * b.x + a.y * b.y + a.z * b.z
  }

  function LengthSquared(v: Vec3): real {
    v.x * v.x + v.y * v.y + v.z * v.z
  }

  function Length(v: Vec3, sqrt: real -> real): real {
    sqrt(LengthSquared(v))
  }

  function Cross(a: Vec3, b: Vec3): Vec3 {
    Vec3(a.y * b.z - a.z * b.y,
         a.z * b.x - a.x * b.z,
         a.x * b.y - a.y * b.x)
  }

  /** `v / |v|`; the source divides by zero (giving NaN) for a zero vector. */
  function UnitVector(v: Vec3, sqrt: real -> real): Vec3
    requires Length(v, sqrt) != 0.0
  {
    DivScalar(v, Length(v, sqrt))
  }

  /** Every component of `v` is below `1e-8` in absolute value. */
  function NearZero(v: Vec3): bool {
    var s := 0.00000001;
    Abs(v.x) < s && Abs(v.y) < s && Abs(v.z) < s
  }

  /** Mirror `v` about the plane with normal `n`. */
  function Reflect(v: Vec3, n: Vec3): Vec3 {
    Sub(v, Scale(2.0 * Dot(v, n), n))
  }

  /** The component of the refracted direction perpendicular to `n`. */
  function RefractPerp(v: Vec3, n: Vec3, etaiOverEtat: real): Vec3 {
    var cosTheta := Min(Dot(Neg(v), n), 1.0);
    Scale(etaiOverEtat, Add(v, Scale(cosTheta, n)))
  }

  /** Snell's law: the perpendicular part plus a parallel part along `-n`. */
  function Refract(v: Vec3, n: Vec3, etaiOverEtat: real, sqrt: real -> real): Vec3 {
    var rOutPerp := RefractPerp(v, n, etaiOverEtat);
    var rOutParallel := Scale(-sqrt(Abs(1.0 - LengthSquared(rOutPerp))), n);
    Add(rOutPerp, rOutParallel)
  }

  // ----- Algebraic properties and the unit-test values -----

  /** `-v` negates each component and is the additive inverse. */
  lemma NegInverse(v: Vec3)
    ensures Neg(v) == Vec3(-v.x, -v.y, -v.z)
    ensures Add(v, Neg(v)) == Zero
    ensures Neg(Vec3(1.0, -3.0, 0.0)) == Vec3(-1.0, 3.0, 0.0)
  {
  }

  /** `Zero` is the identity of addition. */
  lemma AddZero(v: Vec3)
    ensures Add(v, Zero) == v && Add(Zero, v) == v
  {
  }

  lemma AddExample()
    ensures Add(Vec3(1.0, -3.0, 0.0), Vec3(4.0, -5.0, -1.0)) == Vec3(5.0, -8.0, -1.0)
  {
  }

  /** Subtraction is component-wise and undoes addition. */
  lemma SubComponents(a: Vec3, b: Vec3)
    ensures Sub(a, b) == Vec3(a.x - b.x, a.y - b.y, a.z - b.z)
    ensures Add(Sub(a, b), b) == a
    ensures Sub(Vec3(1.0, -3.0, 0.0), Vec3(4.0, -5.0, -1.0)) == Vec3(-3.0, 2.0, 1.0)
  {
  }

  lemma MulScalarCommutes(v: Vec3, s: real)
    ensures MulScalar(v, s) == Scale(s, v)
    ensures MulScalar(v, s) == Vec3(v.x * s, v.y * s, v.z * s)
    ensures MulScalar(Vec3(1.0, -3.0, 0.0), 2.0) == Vec3(2.0, -6.0, 0.0)
  {
  }

  lemma MulCompCommutes(a: Vec3, b: Vec3)
    ensures MulComp(a, b) == MulComp(b, a)
  {
  }

  /** Dividing by `s` divides each component, and multiplying back by `s`
      restores the vector; `s / v` is the same vector as `v / s`. */
  lemma DivScalarInverse(v: Vec3, s: real)
    requires s != 0.0
    ensures DivScalar(v, s) == Vec3(v.x / s, v.y / s, v.z / s)
    ensures MulScalar(DivScalar(v, s), s) == v
    ensures ScalarDiv(s, v) == DivScalar(v, s)
  {
  }

  lemma DivScalarExample()
    ensures DivScalar(Vec3(1.0, -3.0, 0.0), 2.0) == Vec3(0.5, -1.5, 0.0)
    ensures ScalarDiv(2.0, Vec3(1.0, -3.0, 0.0)) == Vec3(0.5, -1.5, 0.0)
  {
  }

  lemma DotSymmetric(a: Vec3, b: Vec3)
    ensures Dot(a, b) == Dot(b, a)
    ensures Dot(a, a) == LengthSquared(a)
    ensures Dot(Vec3(1.0, 2.0, 3.0), Vec3(1.0, 3.0, 3.0)) == 16.0
  {
  }

  /** The cross product is orthogonal to both factors. */
  lemma CrossOrthogonal(a: Vec3, b: Vec3)
    ensures Dot(Cross(a, b), a) == 0.0 && Dot(Cross(a, b), b) == 0.0
    ensures Cross(Vec3(1.0, 2.0, 3.0), Vec3(1.0, 3.0, 3.0)) == Vec3(-3.0, 0.0, 1.0)
  {
  }

  // ----- Bilinearity of the dot product -----

  lemma DotAddLeft(a: Vec3, b: Vec3, c: Vec3)
    ensures Dot(Add(a, b), c) == Dot(a, c) + Dot(b, c)
  {
  }

  lemma DotScaleLeft(k: real, a: Vec3, b: Vec3)
    ensures Dot(Scale(k, a), b) == k * Dot(a, b)
  {
    assert (k * a.x) * b.x + (k * a.y) * b.y + (k * a.z) * b.z
        == k * (a.x * b.x + a.y * b.y + a.z * b.z);
  }

  lemma DotNegLeft(a: Vec3, b: Vec3)
    ensures Dot(Neg(a), b) == -Dot(a, b)
  {
  }

  /** `|a + b|^2 == |a|^2 + 2 a.b + |b|^2`. */
  lemma LengthSquaredAdd(a: Vec3, b: Vec3)
    ensures LengthSquared(Add(a, b)) == Dot(a, a) + 2.0 * Dot(a, b) + Dot(b, b)
  {
    DotAddLeft(a, b, Add(a, b));
    assert Dot(a, Add(a, b)) == Dot(a, a) + Dot(a, b);
    assert Dot(b, Add(a, b)) == Dot(a, b) + Dot(b, b);
  }

  lemma DotScaleRight(a: Vec3, k: real, b: Vec3)
    ensures Dot(a, Scale(k, b)) == k * Dot(a, b)
  {
    DotScaleLeft(k, b, a);
    DotSymmetric(a, Scale(k, b));
    DotSymmetric(a, b);
  }

  /** `|k v|^2 == k^2 |v|^2`. */
  lemma LengthSquaredScale(k: real, v: Vec3)
    ensures LengthSquared(Scale(k, v)) == k * (k * LengthSquared(v))
  {
    DotScaleLeft(k, v, Scale(k, v));
    DotScaleRight(v, k, v);
    DotSymmetric(Scale(k, v), Scale(k, v));
    DotSymmetric(v, v);
  }

  // ----- Lengths -----

  /** Squared lengths are never negative, and only the zero vector has
      squared length zero. */
  lemma {:induction false} LengthSquaredZero(v: Vec3)
    ensures 0.0 <= LengthSquared(v)
    ensures v == Zero <==> LengthSquared(v) == 0.0
  {
    SumOfSquaresPositive(v.x, v.y, v.z, LengthSquared(v));
  }

  /** A vector of positive squared length has a non-zero length. */
  lemma LengthNonZero(v: Vec3, sqrt: real -> real)
    requires SqrtAt(sqrt, LengthSquared(v)) && LengthSquared(v) != 0.0
    ensures Length(v, sqrt) != 0.0
  {
  }

  lemma NegPreservesLength(v: Vec3)
    ensures LengthSquared(Neg(v)) == LengthSquared(v)
  {
    assert (-v.x) * (-v.x) == v.x * v.x;
    assert (-v.y) * (-v.y) == v.y * v.y;
    assert (-v.z) * (-v.z) == v.z * v.z;
  }

  /** Dividing a vector by its length gives a unit vector. */
  lemma {:induction false} UnitLength(v: Vec3, len: real)
    requires len != 0.0 && len * len == LengthSquared(v)
    ensures LengthSquared(DivScalar(v, len)) == 1.0
  {
    var r := DivScalar(v, len);
    calc {
      LengthSquared(r) * (len * len);
      (r.x * len) * (r.x * len) + (r.y * len) * (r.y * len) + (r.z * len) * (r.z * len);
      { assert r.x * len == v.x && r.y * len == v.y && r.z * len == v.z; }
      LengthSquared(v);
      1.0 * (len * len);
    }
  }

  /** `unit_vector` returns a vector of length 1 whenever `sqrt` is a true
      square root at `|v|^2`. */
  lemma {:induction false} UnitVectorLength(v: Vec3, sqrt: real -> real)
    requires Length(v, sqrt) != 0.0 && SqrtAt(sqrt, LengthSquared(v))
    ensures LengthSquared(UnitVector(v, sqrt)) == 1.0
  {
    UnitLength(v, Length(v, sqrt));
  }

  /** A non-zero vector has a unit vector, given a true square root. */
  lemma {:induction false} UnitVectorDefined(v: Vec3, sqrt: real -> real)
    requires IsSqrt(sqrt) && v != Zero
    ensures Length(v, sqrt) != 0.0
    ensures LengthSquared(UnitVector(v, sqrt)) == 1.0
  {
    LengthSquaredZero(v);
    assert SqrtAt(sqrt, LengthSquared(v));
    LengthNonZero(v, sqrt);
    UnitVectorLength(v, sqrt);
  }

  /** `near_zero` holds for the zero vector, and only for vectors shorter
      than `sqrt(3) * 1e-8`. */
  lemma {:induction false} NearZeroSmall(v: Vec3)
    ensures NearZero(Zero)
    ensures NearZero(v) ==> LengthSquared(v) < 0.0000000000000003
    ensures !NearZero(v) ==> v != Zero
  {
    var s := 0.00000001;
    if NearZero(v) {
      SquareBelow(v.x, s);
      SquareBelow(v.y, s);
      SquareBelow(v.z, s);
    }
  }

  // ----- Reflection and refraction -----

  /** About a unit normal, reflection flips the normal component and keeps
      the length. */
  lemma {:induction false} ReflectFlipsNormal(v: Vec3, n: Vec3)
    requires Dot(n, n) == 1.0
    ensures Dot(Reflect(v, n), n) == -Dot(v, n)
    ensures LengthSquared(Reflect(v, n)) == LengthSquared(v)
  {
    var k := -2.0 * Dot(v, n);
    var q := Scale(k, n);
    assert Reflect(v, n) == Add(v, q);
    DotAddLeft(v, q, n);
    DotScaleLeft(k, n, n);
    LengthSquaredAdd(v, q);
    DotSymmetric(v, q);
    DotScaleLeft(k, n, v);
    DotSymmetric(n, v);
    DotScaleLeft(k, n, q);
    DotSymmetric(n, q);
    ReflectLengthArithmetic(Dot(v, n), k, Dot(v, q), Dot(q, q), Dot(n, q));
  }

  /** Linear bookkeeping for `ReflectFlipsNormal`, with products named. */
  lemma ReflectLengthArithmetic(vn: real, k: real, vq: real, qq: real, nq: real)
    requires k == -2.0 * vn && vq == k * vn
    requires qq == k * nq && nq == k * 1.0
    ensures 2.0 * vq + qq == 0.0
  {
  }

  /** Reflecting twice about a unit normal gives back the original vector. */
  lemma {:induction false} ReflectInvolution(v: Vec3, n: Vec3)
    requires Dot(n, n) == 1.0
    ensures Reflect(Reflect(v, n), n) == v
  {
    ReflectFlipsNormal(v, n);
    var r := Reflect(v, n);
    assert r == Sub(v, Scale(2.0 * Dot(v, n), n));
  }

  /** For a unit normal and an unclamped cosine, the perpendicular part of
      `refract` is orthogonal to the normal. */
  lemma {:induction false} RefractPerpOrthogonal(v: Vec3, n: Vec3, eta: real)
    requires Dot(n, n) == 1.0 && -Dot(v, n) <= 1.0
    ensures Dot(RefractPerp(v, n, eta), n) == 0.0
  {
    var c := -Dot(v, n);
    assert Dot(Neg(v), n) == c;
    var w := Add(v, Scale(c, n));
    assert Dot(w, n) == Dot(v, n) + c * Dot(n, n);
  }

  /** Unit vectors have a dot product within [-1, 1]. */
  lemma {:induction false} UnitDotBounds(u: Vec3, n: Vec3)
    requires Dot(u, u) == 1.0 && Dot(n, n) == 1.0
    ensures -1.0 <= Dot(u, n) <= 1.0
  {
    LengthSquaredAdd(u, n);
    LengthSquaredAdd(u, Neg(n));
    LengthSquaredZero(Add(u, n));
    LengthSquaredZero(Add(u, Neg(n)));
    assert Dot(u, Neg(n)) == -Dot(u, n);
    assert Dot(Neg(n), Neg(n)) == Dot(n, n);
  }

  /** Lagrange's identity: `|a x b|^2 == |a|^2 |b|^2 - (a . b)^2`. */
  lemma CrossLength(a: Vec3, b: Vec3)
    ensures LengthSquared(Cross(a, b)) == LengthSquared(a) * LengthSquared(b) - Dot(a, b) * Dot(a, b)
  {
  }

  /** A vector with a positive component along some direction is not zero. */
  lemma DotPositiveNonZero(v: Vec3, n: Vec3)
    requires 0.0 < Dot(v, n)
    ensures v != Zero && 0.0 < LengthSquared(v)
  {
    NonZeroOfDot(v, n);
    LengthSquaredZero(v);
  }

  lemma NonZeroOfDot(v: Vec3, n: Vec3)
    requires 0.0 < Dot(v, n)
    ensures v != Zero
  {
    DotZeroLeft(v, n);
  }

  lemma DotZeroLeft(v: Vec3, n: Vec3)
    ensures v == Zero ==> Dot(v, n) == 0.0
  {
  }

  /** Refracting a unit vector through a unit normal gives a direction whose
      squared length is `|perp|^2 + |1 - |perp|^2|`, never less than 1; in
      particular, it is a unit vector when no total internal reflection occurs. */
  lemma {:induction false} RefractLength(u: Vec3, n: Vec3, eta: real, sqrt: real -> real)
    requires Dot(u, u) == 1.0 && Dot(n, n) == 1.0
    requires SqrtAt(sqrt, Abs(1.0 - LengthSquared(RefractPerp(u, n, eta))))
    ensures LengthSquared(RefractPerp(u, n, eta)) <= 1.0 ==>
              LengthSquared(Refract(u, n, eta, sqrt)) == 1.0
    ensures LengthSquared(Refract(u, n, eta, sqrt)) >= 1.0
  {
    UnitDotBounds(u, n);
    RefractPerpOrthogonal(u, n, eta);
    var p := RefractPerp(u, n, eta);
    LengthSquaredZero(p);
    var k := -sqrt(Abs(1.0 - LengthSquared(p)));
    var q := Scale(k, n);
    DotScaleLeft(k, n, p);
    DotSymmetric(p, q);
    DotSymmetric(n, p);
    assert Dot(p, q) == 0.0;
    DotScaleLeft(k, n, q);
    DotSymmetric(n, q);
    DotScaleLeft(k, n, n);
    assert Dot(q, q) == k * k;
    assert k * k == Abs(1.0 - LengthSquared(p));
    LengthSquaredAdd(p, q);
    DotSymmetric(p, p);
  }

  // ----- Sign rules for products -----
  // Each helper names its products (`p == a * b`) so that every square is
  // mentioned once; the solver then only needs one sign rule at a time.

  lemma MulPositive(a: real, b: real)
    requires 0.0 < a && 0.0 < b
    ensures 0.0 < a * b
  {
  }

  lemma ProductPositive(a: real, b: real, p: real)
    requires p == a * b
    requires 0.0 < a && 0.0 < b
    ensures 0.0 < p
  {
  }

  lemma ProductZero(a: real, b: real, p: real)
    requires p == a * b
    ensures p == 0.0 <==> a == 0.0 || b == 0.0
  {
    if a > 0.0 && b > 0.0 {
      ProductPositive(a, b, p);
    } else if a < 0.0 && b < 0.0 {
      ProductPositive(-a, -b, p);
    } else if a < 0.0 && b > 0.0 {
      ProductPositive(-a, b, -p);
    } else if a > 0.0 && b < 0.0 {
      ProductPositive(a, -b, -p);
    }
  }

  lemma SquarePositive(a: real, q: real)
    requires q == a * a
    requires a != 0.0
    ensures 0.0 < q
  {
    if a < 0.0 {
      ProductPositive(-a, -a, q);
    } else {
      ProductPositive(a, a, q);
    }
  }

  lemma SquareNonNegative(a: real, q: real)
    requires q == a * a
    ensures 0.0 <= q
  {
    if a != 0.0 {
      SquarePositive(a, q);
    }
  }

  lemma SumOfSquaresPositive(a: real, b: real, c: real, p: real)
    requires p == a * a + b * b + c * c
    ensures 0.0 <= p
    ensures a != 0.0 || b != 0.0 || c != 0.0 ==> 0.0 < p
  {
    var qa, qb, qc := a * a, b * b, c * c;
    SquareNonNegative(a, qa);
    SquareNonNegative(b, qb);
    SquareNonNegative(c, qc);
    if a != 0.0 {
      SquarePositive(a, qa);
    } else if b != 0.0 {
      SquarePositive(b, qb);
    } else if c != 0.0 {
      SquarePositive(c, qc);
    }
  }

  lemma SquareBelow(a: real, s: real)
    requires Abs(a) < s
    ensures a * a < s * s
  {
    var b := Abs(a);
    assert a * a == b * b;
    assert s * s - b * b == (s - b) * (s + b);
    MulPositive(s - b, s + b);
  }

  /** A non-negative square root of `x` is the only one: it is `q` when `q*q == x`. */
  lemma {:induction false} SqrtUnique(sqrt: real -> real, q: real)
    requires 0.0 <= q && SqrtAt(sqrt, q * q)
    ensures sqrt(q * q) == q
  {
    var s := sqrt(q * q);
    var p := (s - q) * (s + q);
    DifferenceOfSquares(s, q, p);
    assert p == 0.0;
    ProductZero(s - q, s + q, p);
  }

  lemma DifferenceOfSquares(a: real, b: real, p: real)
    requires p == (a - b) * (a + b)
    ensures p == a * a - b * b
  {
  }

  /** A square root is at least 1 exactly when its argument is. */
  lemma {:induction false} SqrtAtLeastOne(sqrt: real -> real, x: real)
    requires SqrtAt(sqrt, x)
    ensures sqrt(x) >= 1.0 <==> x >= 1.0
  {
    var s := sqrt(x);
    if s >= 1.0 {
      assert s * s >= 1.0 * s;
    } else {
      assert s * s <= 1.0 * s;
    }
  }
}
