/** Ray–sphere intersection (src/sphere.rs). */
module Spheres {
  import opened Vectors
  import opened Rays
  import opened MaterialKinds
  import opened Hittable

  datatype Sphere = Sphere(center: Point3, radius: real, material: Material)

  // The quadratic `a t^2 + 2 half_b t + c == 0` whose roots are the ray
  // parameters at which the ray meets the sphere.

  function Oc(s: Sphere, r: Ray): Vec3 {
    Sub(r.origin, s.center)
  }

  function QuadA(r: Ray): real {
    LengthSquared(r.direction)
  }

  function HalfB(s: Sphere, r: Ray): real {
    Dot(Oc(s, r), r.direction)
  }

  function QuadC(s: Sphere, r: Ray): real {
    LengthSquared(Oc(s, r)) - s.radius * s.radius
  }

  function Discriminant(s: Sphere, r: Ray): real {
    HalfB(s, r) * HalfB(s, r) - QuadA(r) * QuadC(s, r)
  }

  /** `t` is a root of the quadratic. */
  predicate SolvesQuadratic(s: Sphere, r: Ray, t: real) {
    IsRoot(QuadA(r), HalfB(s, r), QuadC(s, r), t)
  }

  /** `t` is a root of `a t^2 + 2 b t + c`. */
  predicate IsRoot(a: real, b: real, c: real, t: real) {
    a * t * t + 2.0 * b * t + c == 0.0
  }

  /** `p` lies on the surface of the sphere. */
  predicate OnSphere(s: Sphere, p: Point3) {
    LengthSquared(Sub(p, s.center)) == s.radius * s.radius
  }

  /** The smaller root `(-half_b - sqrtd) / a`. */
  function NearRoot(s: Sphere, r: Ray, sqrt: real -> real): real
    requires QuadA(r) != 0.0
  {
    (-HalfB(s, r) - sqrt(Discriminant(s, r))) / QuadA(r)
  }

  /** The larger root `(-half_b + sqrtd) / a`. */
  function FarRoot(s: Sphere, r: Ray, sqrt: real -> real): real
    requires QuadA(r) != 0.0
  {
    (-HalfB(s, r) + sqrt(Discriminant(s, r))) / QuadA(r)
  }

  /** The root `hit` settles on: none when the discriminant is negative,
      else the smaller root when it is in range, else the larger one when
      it is in range. */
  function NearestRoot(s: Sphere, r: Ray, tMin: real, tMax: Bound, sqrt: real -> real): (root: Option<real>)
    requires QuadA(r) != 0.0
    ensures root.Some? ==> InRange(root.value, tMin, tMax)
  {
    if Discriminant(s, r) < 0.0 then
      None
    else
      PickRoot(NearRoot(s, r, sqrt), FarRoot(s, r, sqrt), tMin, tMax)
  }

  /** The first of the two candidate roots that lies in range, if any. */
  function PickRoot(near: real, far: real, tMin: real, tMax: Bound): Option<real> {
    if InRange(near, tMin, tMax) then
      Some(near)
    else if InRange(far, tMin, tMax) then
      Some(far)
    else
      None
  }

  /** The quadratic's roots are exactly the parameters at which the ray is
      on the sphere. */
  lemma {:induction false} QuadraticIsSphere(s: Sphere, r: Ray, t: real)
    ensures SolvesQuadratic(s, r, t) <==> OnSphere(s, At(r, t))
  {
    var oc, d := Oc(s, r), r.direction;
    assert Sub(At(r, t), s.center) == Add(oc, Scale(t, d));
    SphereEquation(oc, d, t, s.radius * s.radius);
  }

  /** `|oc + t d|^2 == rr` is the quadratic `|d|^2 t^2 + 2 (oc.d) t + |oc|^2 - rr == 0`. */
  lemma {:induction false} SphereEquation(oc: Vec3, d: Vec3, t: real, rr: real)
    ensures IsRoot(LengthSquared(d), Dot(oc, d), LengthSquared(oc) - rr, t)
        <==> LengthSquared(Add(oc, Scale(t, d))) == rr
  {
    var q := Scale(t, d);
    LengthSquaredAdd(oc, q);
    DotSymmetric(oc, oc);
    DotSymmetric(q, q);
    DotScaleRight(oc, t, d);
    LengthSquaredScale(t, d);
    ExpandSquare(LengthSquared(d), Dot(oc, d), LengthSquared(oc) - rr, rr, t,
                 LengthSquared(Add(oc, q)), LengthSquared(oc), Dot(oc, q), LengthSquared(q));
  }

  /** Linear bookkeeping for `SphereEquation`, with every product named. */
  lemma ExpandSquare(a: real, halfB: real, c: real, r2: real, t: real,
                     ls: real, ococ: real, ocq: real, qq: real)
    requires ls == ococ + 2.0 * ocq + qq
    requires ocq == t * halfB
    requires qq == t * (t * a)
    requires c == ococ - r2
    ensures IsRoot(a, halfB, c, t) <==> ls == r2
  {
    assert qq == a * t * t;
  }

  /** A negative discriminant means no hit; otherwise the smaller root is
      taken whenever it is in range, and the larger one only when it is not. */
  lemma NearestRootPrefersNear(s: Sphere, r: Ray, tMin: real, tMax: Bound, sqrt: real -> real)
    requires QuadA(r) != 0.0
    ensures Discriminant(s, r) < 0.0 ==> NearestRoot(s, r, tMin, tMax, sqrt) == None
    ensures Discriminant(s, r) >= 0.0 && InRange(NearRoot(s, r, sqrt), tMin, tMax) ==>
              NearestRoot(s, r, tMin, tMax, sqrt) == Some(NearRoot(s, r, sqrt))
    ensures NearestRoot(s, r, tMin, tMax, sqrt).Some? &&
            NearestRoot(s, r, tMin, tMax, sqrt).value != NearRoot(s, r, sqrt) ==>
              !InRange(NearRoot(s, r, sqrt), tMin, tMax) &&
              NearestRoot(s, r, tMin, tMax, sqrt).value == FarRoot(s, r, sqrt)
  {
  }

  /** With `disc == b^2 - a c` and `q` its square root, the roots of
      `a t^2 + 2 b t + c` are exactly `(-b - q) / a` and `(-b + q) / a`. */
  lemma QuadraticRoots(a: real, b: real, c: real, disc: real, q: real, t: real)
    requires a != 0.0 && disc == b * b - a * c
    requires 0.0 <= q && q * q == disc
    ensures a * t * t + 2.0 * b * t + c == 0.0 <==> t == (-b - q) / a || t == (-b + q) / a
  {
    var e := a * t * t + 2.0 * b * t + c;
    var u := a * t + b;
    assert a * e == u * u - disc;
    ProductZero(a, e, a * e);
    assert u * u - q * q == (u - q) * (u + q);
    ProductZero(u - q, u + q, (u - q) * (u + q));
    assert u == q <==> t == (-b + q) / a;
    assert u == -q <==> t == (-b - q) / a;
  }

  /** A negative discriminant leaves the quadratic without real roots. */
  lemma NoRealRoots(a: real, b: real, c: real, disc: real, t: real)
    requires a != 0.0 && disc == b * b - a * c && disc < 0.0
    ensures a * t * t + 2.0 * b * t + c != 0.0
  {
    var e := a * t * t + 2.0 * b * t + c;
    var u := a * t + b;
    assert a * e == u * u - disc;
    SquareNonNegative(u, u * u);
    ProductZero(a, e, a * e);
  }

  /** Dividing by a positive number keeps the order. */
  lemma DivideMonotone(x: real, y: real, a: real)
    requires x <= y && 0.0 < a
    ensures x / a <= y / a
  {
    var qx, qy := x / a, y / a;
    assert qx * a == x && qy * a == y;
    if qy < qx {
      ProductPositive(qx - qy, a, (qx - qy) * a);
    }
  }

  /** Given the two roots of a quadratic with a positive leading
      coefficient, `PickRoot` yields the least root in range, or nothing
      exactly when no root is in range. */
  lemma {:induction false} PickRootIsLeast(a: real, b: real, c: real, disc: real, q: real,
                                           tMin: real, tMax: Bound)
    requires 0.0 < a && disc == b * b - a * c
    requires 0.0 <= q && q * q == disc
    ensures PickRoot((-b - q) / a, (-b + q) / a, tMin, tMax).Some? ==>
              IsRoot(a, b, c, PickRoot((-b - q) / a, (-b + q) / a, tMin, tMax).value)
    ensures PickRoot((-b - q) / a, (-b + q) / a, tMin, tMax).Some? ==>
              forall t :: InRange(t, tMin, tMax) && IsRoot(a, b, c, t) ==>
                PickRoot((-b - q) / a, (-b + q) / a, tMin, tMax).value <= t
    ensures PickRoot((-b - q) / a, (-b + q) / a, tMin, tMax).None? <==>
              forall t :: InRange(t, tMin, tMax) ==> !IsRoot(a, b, c, t)
  {
    var near, far := (-b - q) / a, (-b + q) / a;
    QuadraticRoots(a, b, c, disc, q, near);
    QuadraticRoots(a, b, c, disc, q, far);
    DivideMonotone(-b - q, -b + q, a);
    forall t | IsRoot(a, b, c, t) ensures t == near || t == far {
      QuadraticRoots(a, b, c, disc, q, t);
    }
  }

  /** `NearestRoot` is the least root of the quadratic inside the interval,
      and there is none exactly when no root lies inside it. */
  lemma {:induction false} NearestRootIsNearest(s: Sphere, r: Ray, tMin: real, tMax: Bound, sqrt: real -> real)
    requires QuadA(r) != 0.0
    requires Discriminant(s, r) >= 0.0 ==> SqrtAt(sqrt, Discriminant(s, r))
    ensures NearestRoot(s, r, tMin, tMax, sqrt).Some? ==>
              SolvesQuadratic(s, r, NearestRoot(s, r, tMin, tMax, sqrt).value)
    ensures NearestRoot(s, r, tMin, tMax, sqrt).Some? ==>
              forall t :: InRange(t, tMin, tMax) && SolvesQuadratic(s, r, t) ==>
                NearestRoot(s, r, tMin, tMax, sqrt).value <= t
    ensures NearestRoot(s, r, tMin, tMax, sqrt).None? <==>
              forall t :: InRange(t, tMin, tMax) ==> !SolvesQuadratic(s, r, t)
  {
    var a, b, c, disc := QuadA(r), HalfB(s, r), QuadC(s, r), Discriminant(s, r);
    if disc < 0.0 {
      forall t ensures !IsRoot(a, b, c, t) {
        NoRealRoots(a, b, c, disc, t);
      }
    } else {
      PickRootIsLeast(a, b, c, disc, sqrt(disc), tMin, tMax);
    }
  }

  /** `(p - center) / radius`: the normal pointing away from the centre
      (towards it for a negative radius). */
  function OutwardNormal(s: Sphere, p: Point3): Vec3
    requires s.radius != 0.0
  {
    DivScalar(Sub(p, s.center), s.radius)
  }

  /** On the surface the outward normal has unit length. */
  lemma OutwardNormalUnit(s: Sphere, p: Point3)
    requires s.radius != 0.0 && OnSphere(s, p)
    ensures LengthSquared(OutwardNormal(s, p)) == 1.0
  {
    UnitLength(Sub(p, s.center), s.radius);
  }

  /** The record `hit` writes on success, as a value: the point at the
      nearest root, the sphere's material and the oriented normal. */
  function SphereHit(s: Sphere, r: Ray, tMin: real, tMax: Bound, sqrt: real -> real): Option<Hit>
    requires QuadA(r) != 0.0 && s.radius != 0.0
  {
    match NearestRoot(s, r, tMin, tMax, sqrt)
    case None => None
    case Some(t) =>
      var p := At(r, t);
      var outward := OutwardNormal(s, p);
      Some(Hittable.Hit(p, OrientedNormal(r, outward), t, FrontFace(r, outward), s.material))
  }

  /** A hit exists exactly when a root lies in range; it records that root,
      the point the ray reaches there, the sphere's material and a normal
      facing against the ray. */
  lemma SphereHitFields(s: Sphere, r: Ray, tMin: real, tMax: Bound, sqrt: real -> real)
    requires QuadA(r) != 0.0 && s.radius != 0.0
    ensures var h := SphereHit(s, r, tMin, tMax, sqrt);
      && (h.Some? <==> NearestRoot(s, r, tMin, tMax, sqrt).Some?)
      && (h.Some? ==> h.value.t == NearestRoot(s, r, tMin, tMax, sqrt).value)
      && (h.Some? ==> InRange(h.value.t, tMin, tMax) && h.value.p == At(r, h.value.t))
      && (h.Some? ==> h.value.material == s.material)
      && (h.Some? ==> Dot(r.direction, h.value.normal) <= 0.0)
  {
  }

  /** With a true square root the recorded point lies on the sphere and the
      recorded normal has unit length. */
  lemma SphereHitOnSurface(s: Sphere, r: Ray, tMin: real, tMax: Bound, sqrt: real -> real)
    requires QuadA(r) != 0.0 && s.radius != 0.0 && SqrtAt(sqrt, Discriminant(s, r))
    requires SphereHit(s, r, tMin, tMax, sqrt).Some?
    ensures OnSphere(s, SphereHit(s, r, tMin, tMax, sqrt).value.p)
    ensures LengthSquared(SphereHit(s, r, tMin, tMax, sqrt).value.normal) == 1.0
  {
    var t := NearestRoot(s, r, tMin, tMax, sqrt).value;
    NearestRootIsNearest(s, r, tMin, tMax, sqrt);
    QuadraticIsSphere(s, r, t);
    OutwardNormalUnit(s, At(r, t));
  }

  /** The hit recorded at a root `t` the selection returned. */
  lemma SphereHitAt(s: Sphere, r: Ray, tMin: real, tMax: Bound, sqrt: real -> real, t: real)
    requires QuadA(r) != 0.0 && s.radius != 0.0
    requires NearestRoot(s, r, tMin, tMax, sqrt) == Some(t)
    ensures var outward := OutwardNormal(s, At(r, t));
      SphereHit(s, r, tMin, tMax, sqrt)
        == Some(Hittable.Hit(At(r, t), OrientedNormal(r, outward), t, FrontFace(r, outward), s.material))
  {
  }

  /** `Sphere::hit`: on success the record holds the nearest hit in range
      (as `SphereHit` describes it); on failure the record is untouched. */
  method Hit(s: Sphere, r: Ray, tMin: real, tMax: Bound, rec: HitRecord, sqrt: real -> real)
    returns (hit: bool)
    requires LengthSquared(r.direction) != 0.0 && s.radius != 0.0
    modifies rec
    ensures hit == NearestRoot(s, r, tMin, tMax, sqrt).Some?
    ensures hit ==> rec.Value() == SphereHit(s, r, tMin, tMax, sqrt).value
    ensures !hit ==> unchanged(rec)
  {
    var oc := Sub(r.origin, s.center);
    var a := LengthSquared(r.direction);
    var halfB := Dot(oc, r.direction);
    var c := LengthSquared(oc) - s.radius * s.radius;
    var discriminant := halfB * halfB - a * c;
    assert a == QuadA(r) && halfB == HalfB(s, r) && c == QuadC(s, r);
    assert discriminant == Discriminant(s, r);
    if discriminant < 0.0 {
      return false;
    }
    var sqrtd := sqrt(discriminant);
    var root := (-halfB - sqrtd) / a;
    if root < tMin || (tMax.Bounded? && tMax.value < root) {
      root := (-halfB + sqrtd) / a;
      if root < tMin || (tMax.Bounded? && tMax.value < root) {
        return false;
      }
    }
    assert NearestRoot(s, r, tMin, tMax, sqrt) == Some(root);
    SphereHitAt(s, r, tMin, tMax, sqrt, root);
    rec.t := root;
    rec.p := At(r, rec.t);
    rec.material := s.material;
    var outward := DivScalar(Sub(rec.p, s.center), s.radius);
    rec.SetFaceNormal(r, outward);
    return true;
  }
}
