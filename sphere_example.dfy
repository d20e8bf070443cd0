/** A worked example of ray–sphere intersection (src/sphere.rs): a ray
    from the origin down the negative z axis meets the unit sphere centred
    at `(0, 0, -5)` at `t == 4`. */
module SphereExample {
  import opened Vectors
  import opened Rays
  import opened MaterialKinds
  import opened Hittable
  import opened Spheres

  /** The worked example: a ray from the origin straight down the negative
      z axis, and a unit sphere centred at `(0, 0, -5)`. */
  predicate IsExample(s: Sphere, r: Ray) {
    s.center == Vec3(0.0, 0.0, -5.0) && s.radius == 1.0 &&
    r.origin == Zero && r.direction == Vec3(0.0, 0.0, -1.0)
  }

  /** The example's quadratic has `a == 1`, `half_b == -5` and discriminant 1. */
  lemma ExampleQuadratic(s: Sphere, r: Ray)
    requires IsExample(s, r)
    ensures QuadA(r) == 1.0 && HalfB(s, r) == -5.0 && Discriminant(s, r) == 1.0
  {
    assert Oc(s, r) == Vec3(0.0, 0.0, 5.0);
    assert QuadC(s, r) == 24.0;
  }

  /** For a unit direction (`a == 1`) the smaller root is `-half_b - sqrtd`. */
  lemma NearRootOf(s: Sphere, r: Ray, sqrt: real -> real, b: real, q: real)
    requires QuadA(r) == 1.0 && HalfB(s, r) == b && sqrt(Discriminant(s, r)) == q
    ensures NearRoot(s, r, sqrt) == -b - q
  {
  }

  /** A unit-direction quadratic with `half_b == -5` and discriminant 1 has
      roots 4 and 6; on `[0.001, inf)` the smaller one, 4, is selected. */
  lemma UnitQuadraticRoot(s: Sphere, r: Ray, sqrt: real -> real)
    requires QuadA(r) == 1.0 && HalfB(s, r) == -5.0 && Discriminant(s, r) == 1.0
    requires sqrt(1.0) == 1.0
    ensures NearestRoot(s, r, 0.001, Unbounded, sqrt) == Some(4.0)
  {
    NearRootOf(s, r, sqrt, -5.0, 1.0);
    NearestRootPrefersNear(s, r, 0.001, Unbounded, sqrt);
  }

  /** On `[0.001, inf)` the example selects its nearer root, `t == 4`. */
  lemma ExampleRoot(s: Sphere, r: Ray, sqrt: real -> real)
    requires IsExample(s, r) && sqrt(1.0) == 1.0
    ensures NearestRoot(s, r, 0.001, Unbounded, sqrt) == Some(4.0)
  {
    ExampleQuadratic(s, r);
    UnitQuadraticRoot(s, r, sqrt);
  }

  /** At `t == 4` the example ray reaches `(0, 0, -4)`. */
  lemma ExamplePoint(r: Ray)
    requires r.origin == Zero && r.direction == Vec3(0.0, 0.0, -1.0)
    ensures At(r, 4.0) == Vec3(0.0, 0.0, -4.0)
  {
  }

  /** There the outward normal of the example sphere is `(0, 0, 1)`. */
  lemma ExampleOutward(s: Sphere)
    requires s.center == Vec3(0.0, 0.0, -5.0) && s.radius == 1.0
    ensures OutwardNormal(s, Vec3(0.0, 0.0, -4.0)) == Vec3(0.0, 0.0, 1.0)
  {
  }

  /** That normal faces the example ray, so it is stored as it is. */
  lemma ExampleFacing(r: Ray)
    requires r.direction == Vec3(0.0, 0.0, -1.0)
    ensures FrontFace(r, Vec3(0.0, 0.0, 1.0))
    ensures OrientedNormal(r, Vec3(0.0, 0.0, 1.0)) == Vec3(0.0, 0.0, 1.0)
  {
    assert Dot(r.direction, Vec3(0.0, 0.0, 1.0)) == -1.0;
  }

  /** With that root the example's record is the point `(0, 0, -4)` with
      normal `(0, 0, 1)`, seen from the front, and the sphere's material. */
  lemma ExampleRecord(s: Sphere, r: Ray, sqrt: real -> real)
    requires IsExample(s, r) && sqrt(1.0) == 1.0
    ensures SphereHit(s, r, 0.001, Unbounded, sqrt)
      == Some(Hittable.Hit(Vec3(0.0, 0.0, -4.0), Vec3(0.0, 0.0, 1.0), 4.0, true, s.material))
  {
    ExampleRoot(s, r, sqrt);
    SphereHitAt(s, r, 0.001, Unbounded, sqrt, 4.0);
    ExamplePoint(r);
    ExampleOutward(s);
    ExampleFacing(r);
  }

  /** Calling `hit` on the example returns true and fills the record with
      `t == 4`, the point `(0, 0, -4)`, the normal `(0, 0, 1)`, the front
      face and the sphere's material. */
  method HitExample(s: Sphere, r: Ray, sqrt: real -> real)
    returns (hit: bool, t: real, p: Point3, normal: Vec3, frontFace: bool, material: Material)
    requires IsExample(s, r) && sqrt(1.0) == 1.0
    ensures hit && t == 4.0 && p == Vec3(0.0, 0.0, -4.0)
    ensures normal == Vec3(0.0, 0.0, 1.0) && frontFace && material == s.material
  {
    var rec := new HitRecord.Default();
    ExampleQuadratic(s, r);
    ExampleRecord(s, r, sqrt);
    hit := Spheres.Hit(s, r, 0.001, Unbounded, rec, sqrt);
    t, p, normal, frontFace, material := rec.t, rec.p, rec.normal, rec.frontFace, rec.material;
  }
}
