/** The recursive colour integrator `ray_color` and the row flip of the
    image writer (src/main.rs). The scene query `world.hit` is a parameter
    (the scene list is not part of this model), as are the random draws of
    each bounce. */
module Render {
  import opened Vectors
  import opened Rays
  import opened MaterialKinds
  import opened Hittable
  import opened Materials

  /** `world.hit(r, t_min, t_max, &mut rec)`: the record of the nearest hit
      in `[t_min, t_max]`, if any. */
  type Scene = (Ray, real, Bound) -> Option<Hit>

  /** The lower end of every scene query; it keeps a scattered ray from
      hitting the surface it leaves. */
  const TMin: real := 0.001

  /** A material whose scattering arithmetic is defined on a face. */
  predicate MaterialDefined(m: Material, frontFace: bool) {
    m.Dielectric? ==> DielectricDefined(m.ir, frontFace)
  }

  /** Every record the scene reports has a unit normal and a usable
      material. Spheres of non-zero radius with a well-defined material
      produce such records, given a true square root. Nothing here asks
      for the nearest hit. */
  ghost predicate ValidScene(world: Scene) {
    forall r: Ray, tMin: real, tMax: Bound {:trigger world(r, tMin, tMax)} ::
      world(r, tMin, tMax).Some? ==>
        var rec := world(r, tMin, tMax).value;
        Dot(rec.normal, rec.normal) == 1.0 && MaterialDefined(rec.material, rec.frontFace)
  }

  /** The sky: a vertical blend from white (looking down) to light blue
      (looking up), by the height `t` in `[0, 1]`. */
  function Gradient(t: real): Color {
    Add(Scale(1.0 - t, Vec3(1.0, 1.0, 1.0)), Scale(t, Vec3(0.5, 0.7, 1.0)))
  }

  /** The background seen along a direction. */
  function Sky(direction: Vec3, sqrt: real -> real): Color
    requires Length(direction, sqrt) != 0.0
  {
    var unitDirection := UnitVector(direction, sqrt);
    Gradient(0.5 * (unitDirection.y + 1.0))
  }

  /** What `ray_color` returns: black once the depth budget is spent, the
      sky on a miss, black when the surface absorbs the ray, and otherwise
      the attenuation times the colour seen along the scattered ray. The
      bounce at depth `d` uses the draws `draws(d)`. */
  function Radiance(world: Scene, r: Ray, depth: int, draws: int -> Draw, sqrt: real -> real): Color
    requires IsSqrt(sqrt) && ValidScene(world)
    requires depth > 0 ==> r.direction != Zero
    decreases depth
  {
    if depth <= 0 then Zero
    else
      UnitVectorDefined(r.direction, sqrt);
      match world(r, TMin, Unbounded)
      case None => Sky(r.direction, sqrt)
      case Some(rec) =>
        var s := ScatterResult(rec.material, r, rec, draws(depth), sqrt);
        if s.ok then
          ScatteredDirectionNonZero(rec.material, r, rec, draws(depth), sqrt);
          LengthSquaredZero(s.scattered.direction);
          MulComp(s.attenuation, Radiance(world, s.scattered, depth - 1, draws, sqrt))
        else
          Zero
  }

  /** `ray_color`: fills the hit record from the scene, lets the material
      scatter into its out-parameters, and recurses with one less bounce. */
  method RayColor(r: Ray, world: Scene, depth: int, draws: int -> Draw, sqrt: real -> real)
    returns (color: Color)
    requires IsSqrt(sqrt) && ValidScene(world)
    requires depth > 0 ==> r.direction != Zero
    ensures color == Radiance(world, r, depth, draws, sqrt)
    decreases depth
  {
    if depth <= 0 {
      return Zero;
    }
    UnitVectorDefined(r.direction, sqrt);
    var hit := world(r, TMin, Unbounded);
    if hit.Some? {
      var rec := hit.value;
      var ok, attenuation, scattered := Scatter(rec.material, r, rec, draws(depth), sqrt);
      if ok {
        ScatteredDirectionNonZero(rec.material, r, rec, draws(depth), sqrt);
        LengthSquaredZero(scattered.direction);
        var incoming := RayColor(scattered, world, depth - 1, draws, sqrt);
        return MulComp(attenuation, incoming);
      }
      return Zero;
    }
    var unitDirection := UnitVector(r.direction, sqrt);
    var t := 0.5 * (unitDirection.y + 1.0);
    return Add(Scale(1.0 - t, Vec3(1.0, 1.0, 1.0)), Scale(t, Vec3(0.5, 0.7, 1.0)));
  }

  // ----- Properties of the integrator -----

  /** With no depth left the result is black, whatever the ray and scene. */
  lemma DepthExhausted(world: Scene, r: Ray, depth: int, draws: int -> Draw, sqrt: real -> real)
    requires IsSqrt(sqrt) && ValidScene(world) && depth <= 0
    ensures Radiance(world, r, depth, draws, sqrt) == Zero
  {
  }

  /** One step of the recursion: the scene is queried on `[0.001, inf)`; a
      miss shows the sky, an absorbed ray is black and a scattered one is
      the attenuation times the colour one bounce deeper. */
  lemma RadianceStep(world: Scene, r: Ray, depth: int, draws: int -> Draw, sqrt: real -> real)
    requires IsSqrt(sqrt) && ValidScene(world) && depth > 0 && r.direction != Zero
    ensures Length(r.direction, sqrt) != 0.0
    ensures world(r, TMin, Unbounded).None? ==>
              Radiance(world, r, depth, draws, sqrt) == Sky(r.direction, sqrt)
    ensures world(r, TMin, Unbounded).Some? ==>
              var rec := world(r, TMin, Unbounded).value;
              ScatterDefined(rec.material, r, rec, sqrt) &&
              var s := ScatterResult(rec.material, r, rec, draws(depth), sqrt);
              && (!s.ok ==> Radiance(world, r, depth, draws, sqrt) == Zero)
              && (s.ok ==> s.scattered.direction != Zero)
              && (s.ok ==> Radiance(world, r, depth, draws, sqrt)
                             == MulComp(s.attenuation, Radiance(world, s.scattered, depth - 1, draws, sqrt)))
  {
    UnitVectorDefined(r.direction, sqrt);
    if world(r, TMin, Unbounded).Some? {
      var rec := world(r, TMin, Unbounded).value;
      ScatteredDirectionNonZero(rec.material, r, rec, draws(depth), sqrt);
      LengthSquaredZero(ScatterResult(rec.material, r, rec, draws(depth), sqrt).scattered.direction);
    }
  }

  /** Two scenes that answer every query on `[0.001, inf)` alike give the
      same colour: nothing else of the scene is ever looked at. */
  lemma {:induction false} RadianceDependsOnQueries(world1: Scene, world2: Scene, r: Ray, depth: int,
                                                    draws: int -> Draw, sqrt: real -> real)
    requires IsSqrt(sqrt) && ValidScene(world1) && ValidScene(world2)
    requires depth > 0 ==> r.direction != Zero
    requires forall q: Ray {:trigger world1(q, TMin, Unbounded)} {:trigger world2(q, TMin, Unbounded)} ::
               world1(q, TMin, Unbounded) == world2(q, TMin, Unbounded)
    ensures Radiance(world1, r, depth, draws, sqrt) == Radiance(world2, r, depth, draws, sqrt)
    decreases depth
  {
    if depth > 0 {
      UnitVectorDefined(r.direction, sqrt);
      var hit := world1(r, TMin, Unbounded);
      assert hit == world2(r, TMin, Unbounded);
      if hit.Some? {
        var rec := hit.value;
        var s := ScatterResult(rec.material, r, rec, draws(depth), sqrt);
        if s.ok {
          ScatteredDirectionNonZero(rec.material, r, rec, draws(depth), sqrt);
          LengthSquaredZero(s.scattered.direction);
          RadianceDependsOnQueries(world1, world2, s.scattered, depth - 1, draws, sqrt);
        }
      }
    }
  }

  // ----- Colour bounds -----

  /** Every channel lies in `[0, 1]`. */
  predicate InUnitCube(c: Color) {
    0.0 <= c.x <= 1.0 && 0.0 <= c.y <= 1.0 && 0.0 <= c.z <= 1.0
  }

  /** The material never amplifies light. */
  predicate Dimming(m: Material) {
    match m
    case Lambertian(albedo) => InUnitCube(albedo)
    case Metal(albedo, _) => InUnitCube(albedo)
    case Dielectric(_) => true
  }

  /** Every material in the scene is dimming. */
  ghost predicate DimmingScene(world: Scene) {
    forall r: Ray, tMin: real, tMax: Bound {:trigger world(r, tMin, tMax)} ::
      world(r, tMin, tMax).Some? ==> Dimming(world(r, tMin, tMax).value.material)
  }

  /** Looking straight down (`unit_y == -1`) shows white. */
  lemma SkyDown(y: real)
    requires y == -1.0
    ensures Gradient(0.5 * (y + 1.0)) == Vec3(1.0, 1.0, 1.0)
  {
  }

  /** Looking straight up (`unit_y == 1`) shows `(0.5, 0.7, 1.0)`. */
  lemma SkyUp(y: real)
    requires y == 1.0
    ensures Gradient(0.5 * (y + 1.0)) == Vec3(0.5, 0.7, 1.0)
  {
  }

  /** Every height in `[-1, 1]` gives a colour in the unit cube. */
  lemma SkyHeightBounded(y: real)
    requires -1.0 <= y <= 1.0
    ensures InUnitCube(Gradient(0.5 * (y + 1.0)))
  {
  }

  /** The sky along any non-zero direction: white straight down, light
      blue straight up, and always in the unit cube. */
  lemma {:induction false} SkyColour(direction: Vec3, sqrt: real -> real)
    requires IsSqrt(sqrt) && direction != Zero
    ensures Length(direction, sqrt) != 0.0
    ensures UnitVector(direction, sqrt).y == -1.0 ==> Sky(direction, sqrt) == Vec3(1.0, 1.0, 1.0)
    ensures UnitVector(direction, sqrt).y == 1.0 ==> Sky(direction, sqrt) == Vec3(0.5, 0.7, 1.0)
    ensures InUnitCube(Sky(direction, sqrt))
  {
    UnitVectorDefined(direction, sqrt);
    var u := UnitVector(direction, sqrt);
    UnitComponentBound(u);
    if u.y == -1.0 {
      SkyDown(u.y);
    } else if u.y == 1.0 {
      SkyUp(u.y);
    }
    SkyHeightBounded(u.y);
  }

  /** A component of a unit vector lies in `[-1, 1]`. */
  lemma UnitComponentBound(u: Vec3)
    requires LengthSquared(u) == 1.0
    ensures -1.0 <= u.y <= 1.0
  {
    SquareNonNegative(u.x, u.x * u.x);
    SquareNonNegative(u.z, u.z * u.z);
    if 1.0 < Abs(u.y) {
      SquareBelow(1.0, Abs(u.y));
      SquareOfAbs(u.y, u.y * u.y);
    }
  }

  lemma SquareOfAbs(a: real, q: real)
    requires q == a * a
    ensures Abs(a) * Abs(a) == q
  {
  }

  /** What a material multiplies the incoming colour by stays in the unit
      cube. */
  lemma AttenuationDims(m: Material, r: Ray, rec: Hit, d: Draw, sqrt: real -> real)
    requires ScatterDefined(m, r, rec, sqrt) && Dimming(m)
    ensures InUnitCube(ScatterResult(m, r, rec, d, sqrt).attenuation)
  {
  }

  /** Products of unit-cube colours stay in the unit cube. */
  lemma MulCompDims(a: Color, b: Color)
    requires InUnitCube(a) && InUnitCube(b)
    ensures InUnitCube(MulComp(a, b))
  {
    UnitProduct(a.x, b.x);
    UnitProduct(a.y, b.y);
    UnitProduct(a.z, b.z);
  }

  /** In a scene of dimming materials every colour `ray_color` returns lies
      in the unit cube: the sky is, and each bounce can only darken it. */
  lemma {:induction false} RadianceBounded(world: Scene, r: Ray, depth: int, draws: int -> Draw,
                                           sqrt: real -> real)
    requires IsSqrt(sqrt) && ValidScene(world) && DimmingScene(world)
    requires depth > 0 ==> r.direction != Zero
    ensures InUnitCube(Radiance(world, r, depth, draws, sqrt))
    decreases depth
  {
    if depth > 0 {
      RadianceStep(world, r, depth, draws, sqrt);
      var hit := world(r, TMin, Unbounded);
      if hit.None? {
        SkyColour(r.direction, sqrt);
      } else {
        var rec := hit.value;
        var s := ScatterResult(rec.material, r, rec, draws(depth), sqrt);
        if s.ok {
          AttenuationDims(rec.material, r, rec, draws(depth), sqrt);
          RadianceBounded(world, s.scattered, depth - 1, draws, sqrt);
          MulCompDims(s.attenuation, Radiance(world, s.scattered, depth - 1, draws, sqrt));
        }
      }
    }
  }

  // ----- Image rows -----

  /** `(image_height - j - 1).abs()`: row `j` counted from the bottom
      becomes a row counted from the top. */
  function FlipRow(j: int, imageHeight: int): int {
    var k := imageHeight - j - 1;
    if k < 0 then -k else k
  }

  /** On `[0, imageHeight)` the flip stays in range, undoes itself and so
      is a bijection. */
  lemma FlipRowBijection(j: int, i: int, imageHeight: int)
    requires 0 <= j < imageHeight && 0 <= i < imageHeight
    ensures 0 <= FlipRow(j, imageHeight) < imageHeight
    ensures FlipRow(FlipRow(j, imageHeight), imageHeight) == j
    ensures FlipRow(j, imageHeight) == FlipRow(i, imageHeight) ==> j == i
  {
  }
}
