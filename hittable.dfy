/** Hit records and face-normal orientation (src/hittable.rs). */
module Hittable {
  import opened Vectors
  import opened Rays
  import opened MaterialKinds

  /** An immutable snapshot of a `HitRecord`, as handed to the materials
      and to the integrator. */
  datatype Hit = Hit(p: Point3, normal: Vec3, t: real, frontFace: bool, material: Material)

  /** Upper end of the accepted `t` interval: a finite `t_max`, or
      `f64::INFINITY`. */
  datatype Bound = Bounded(value: real) | Unbounded

  /** A hit, or none. */
  datatype Option<T> = None | Some(value: T)

  /** `t` lies in `[tMin, tMax]`; the source rejects `t < t_min || t_max < t`. */
  predicate InRange(t: real, tMin: real, tMax: Bound) {
    !(t < tMin || (tMax.Bounded? && tMax.value < t))
  }

  /** Whether the ray meets the surface from outside (against the outward normal). */
  function FrontFace(r: Ray, outward: Vec3): bool {
    Dot(r.direction, outward) < 0.0
  }

  /** The normal stored in the record: the outward normal turned, if need
      be, to oppose the ray. */
  function OrientedNormal(r: Ray, outward: Vec3): (n: Vec3)
    ensures Dot(r.direction, n) <= 0.0
    ensures LengthSquared(n) == LengthSquared(outward)
    ensures n == outward || n == Neg(outward)
  {
    if FrontFace(r, outward) then
      outward
    else
      NegPreservesLength(outward);
      Neg(outward)
  }

  /** The stored normal equals the outward normal exactly when the ray
      comes from outside, and is its negation otherwise. */
  lemma {:induction false} OrientedNormalFront(r: Ray, outward: Vec3)
    requires outward != Zero
    ensures OrientedNormal(r, outward) == outward <==> FrontFace(r, outward)
    ensures OrientedNormal(r, outward) == Neg(outward) <==> !FrontFace(r, outward)
  {
    if FrontFace(r, outward) {
      assert Neg(outward) != outward;
    }
  }

  /** The record filled in by `Hittable::hit` (src/hittable.rs:7-14). */
  class HitRecord {
    var p: Point3
    var normal: Vec3
    var t: real
    var frontFace: bool
    var material: Material

    /** `HitRecord::default()`. */
    constructor Default()
      ensures p == Zero && normal == Zero && t == 0.0
      ensures !frontFace && material == DefaultLambertian
    {
      p := Zero;
      normal := Zero;
      t := 0.0;
      frontFace := false;
      material := DefaultLambertian;
    }

    /** `HitRecord::new`. */
    constructor (p: Point3, normal: Vec3, t: real, frontFace: bool, material: Material)
      ensures this.p == p && this.normal == normal && this.t == t
      ensures this.frontFace == frontFace && this.material == material
    {
      this.p := p;
      this.normal := normal;
      this.t := t;
      this.frontFace := frontFace;
      this.material := material;
    }

    /** The current contents of the record, as a value. */
    function Value(): Hit
      reads this
    {
      Hit(p, normal, t, frontFace, material)
    }

    /** `set_face_normal`: records which side the ray came from and stores
        the normal turned against the ray; nothing else changes. */
    method SetFaceNormal(r: Ray, outward: Vec3)
      modifies this
      ensures frontFace == (Dot(r.direction, outward) < 0.0)
      ensures normal == (if frontFace then outward else Neg(outward))
      ensures normal == OrientedNormal(r, outward)
      ensures Dot(r.direction, normal) <= 0.0
      ensures LengthSquared(normal) == LengthSquared(outward)
      ensures p == old(p) && t == old(t) && material == old(material)
    {
      frontFace := Dot(r.direction, outward) < 0.0;
      if frontFace {
        normal := outward;
      } else {
        normal := Neg(outward);
      }
    }
  }
}
