/** Rays `origin + t * direction` (src/ray.rs). */
module Rays {
  import opened Vectors

  datatype Ray = Ray(origin: Point3, direction: Vec3)

  /** `Ray::default()`: both fields are the default vector. */
  function DefaultRay(): (r: Ray)
    ensures r.origin == Zero && r.direction == Zero
    ensures forall t: real :: At(r, t) == Zero
  {
    Ray(Zero, Zero)
  }

  /** `Ray::at`: the point reached after travelling `t` along the ray. */
  function At(r: Ray, t: real): (p: Point3)
    ensures Sub(p, r.origin) == Scale(t, r.direction)
  {
    Add(r.origin, Scale(t, r.direction))
  }

  /** The ray starts at its origin and reaches `origin + direction` at `t == 1`. */
  lemma AtEndpoints(r: Ray)
    ensures At(r, 0.0) == r.origin
    ensures At(r, 1.0) == Add(r.origin, r.direction)
  {
  }

  /** Travelling `t1 + t2` is travelling `t1` and then `t2` more. */
  lemma AtAdditive(r: Ray, t1: real, t2: real)
    ensures At(r, t1 + t2) == Add(At(r, t1), Scale(t2, r.direction))
  {
  }

  /** Points along the ray differ by a multiple of the direction. */
  lemma AtDifference(r: Ray, t1: real, t2: real)
    ensures Sub(At(r, t2), At(r, t1)) == Scale(t2 - t1, r.direction)
  {
  }
}
