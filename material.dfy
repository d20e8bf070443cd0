/** Surface materials, held by value (src/material.rs:9-94). Kept apart from
    the scattering code so that hit records can carry a material while the
    scattering code reads hit records. */
module MaterialKinds {
  import opened Vectors

  datatype Material =
    | Lambertian(albedo: Color)
    | Metal(albedo: Color, fuzz: real)
    | Dielectric(ir: real)

  /** `Lambertian::default()`, the material of a default hit record. */
  const DefaultLambertian: Material := Lambertian(Zero)
}

/** Scattering at a surface (src/material.rs). Each `scatter` method writes
    its two out-parameters and returns whether the ray goes on; it is proved
    equal to a function of its inputs, and the properties of scattering are
    lemmas about those functions. The random draws are passed in. */
module Materials {
  import opened Vectors
  import opened Rays
  import opened MaterialKinds
  import opened Hittable

  /** The random samples one scattering event may consume: a unit vector
      (`random_unit_vector`), a point inside the unit sphere
      (`random_in_unit_sphere`) and a uniform number in `[0, 1)`
      (`rng.gen::<f64>()`). */
  datatype Draw = Draw(unitSample: Vec3, sphereSample: Vec3, uniform: real)

  /** What `scatter` returns and writes: whether the ray goes on, the
      attenuation, and the scattered ray. */
  datatype Scattering = Scattering(ok: bool, attenuation: Color, scattered: Ray)

  // ----- Lambertian -----

  /** `normal + sample`, or `normal` itself when that sum is nearly zero. */
  function LambertianDirection(normal: Vec3, sample: Vec3): Vec3 {
    var d := Add(normal, sample);
    if NearZero(d) then normal else d
  }

  function LambertianResult(albedo: Color, rec: Hit, d: Draw): Scattering {
    Scattering(true, albedo, Ray(rec.p, LambertianDirection(rec.normal, d.unitSample)))
  }

  /** `Lambertian::scatter`: always scatters, from the hit point, with the
      albedo as attenuation. */
  method LambertianScatter(albedo: Color, r: Ray, rec: Hit, d: Draw)
    returns (ok: bool, attenuation: Color, scattered: Ray)
    ensures ok && attenuation == albedo && scattered.origin == rec.p
    ensures NearZero(Add(rec.normal, d.unitSample)) ==> scattered.direction == rec.normal
    ensures !NearZero(Add(rec.normal, d.unitSample)) ==>
              scattered.direction == Add(rec.normal, d.unitSample)
    ensures Scattering(ok, attenuation, scattered) == LambertianResult(albedo, rec, d)
  {
    var scatterDirection := Add(rec.normal, d.unitSample);
    if NearZero(scatterDirection) {
      scatterDirection := rec.normal;
    }
    scattered := Ray(rec.p, scatterDirection);
    attenuation := albedo;
    ok := true;
  }

  /** The near-zero guard keeps the scattered direction away from zero:
      with a unit normal it is never the zero vector. */
  lemma {:induction false} LambertianDirectionNonZero(normal: Vec3, sample: Vec3)
    requires Dot(normal, normal) == 1.0
    ensures 0.0 < LengthSquared(LambertianDirection(normal, sample))
  {
    var d := Add(normal, sample);
    if NearZero(d) {
      DotSymmetric(normal, normal);
    } else {
      NearZeroSmall(d);
      LengthSquaredZero(d);
    }
  }

  // ----- Metal -----

  /** The mirror reflection of the unit incoming direction, perturbed by
      `fuzz` times the sphere sample. */
  function MetalDirection(r: Ray, normal: Vec3, fuzz: real, sample: Vec3, sqrt: real -> real): Vec3
    requires Length(r.direction, sqrt) != 0.0
  {
    Add(Reflect(UnitVector(r.direction, sqrt), normal), Scale(fuzz, sample))
  }

  function MetalResult(albedo: Color, fuzz: real, r: Ray, rec: Hit, d: Draw, sqrt: real -> real): Scattering
    requires Length(r.direction, sqrt) != 0.0
  {
    var direction := MetalDirection(r, rec.normal, fuzz, d.sphereSample, sqrt);
    Scattering(Dot(direction, rec.normal) > 0.0, albedo, Ray(rec.p, direction))
  }

  /** `Metal::scatter`: the out-parameters are written in every case; the
      ray goes on exactly when the scattered direction leaves the surface
      on the side of the normal. */
  method MetalScatter(albedo: Color, fuzz: real, r: Ray, rec: Hit, d: Draw, sqrt: real -> real)
    returns (ok: bool, attenuation: Color, scattered: Ray)
    requires Length(r.direction, sqrt) != 0.0
    ensures attenuation == albedo && scattered.origin == rec.p
    ensures ok <==> Dot(scattered.direction, rec.normal) > 0.0
    ensures Scattering(ok, attenuation, scattered) == MetalResult(albedo, fuzz, r, rec, d, sqrt)
  {
    var reflected := Reflect(UnitVector(r.direction, sqrt), rec.normal);
    scattered := Ray(rec.p, Add(reflected, Scale(fuzz, d.sphereSample)));
    attenuation := albedo;
    ok := Dot(scattered.direction, rec.normal) > 0.0;
  }

  /** A metal without fuzz is a perfect mirror: the sample is ignored. */
  lemma MetalMirror(r: Ray, normal: Vec3, sample: Vec3, sqrt: real -> real)
    requires Length(r.direction, sqrt) != 0.0
    ensures MetalDirection(r, normal, 0.0, sample, sqrt) == Reflect(UnitVector(r.direction, sqrt), normal)
  {
  }

  /** A perfect mirror with a unit normal scatters exactly the rays that
      arrive against the normal. */
  lemma {:induction false} MirrorScatters(albedo: Color, r: Ray, rec: Hit, d: Draw, sqrt: real -> real)
    requires SqrtAt(sqrt, LengthSquared(r.direction)) && r.direction != Zero
    requires Dot(rec.normal, rec.normal) == 1.0
    ensures Length(r.direction, sqrt) != 0.0
    ensures MetalResult(albedo, 0.0, r, rec, d, sqrt).ok <==> Dot(r.direction, rec.normal) < 0.0
  {
    LengthSquaredZero(r.direction);
    LengthNonZero(r.direction, sqrt);
    var len := Length(r.direction, sqrt);
    var u := UnitVector(r.direction, sqrt);
    MetalMirror(r, rec.normal, d.sphereSample, sqrt);
    ReflectFlipsNormal(u, rec.normal);
    DivScalarInverse(r.direction, len);
    DotScaleLeft(1.0 / len, r.direction, rec.normal);
    assert u == Scale(1.0 / len, r.direction);
    SignOfQuotient(Dot(r.direction, rec.normal), len);
  }

  /** Dividing by a positive number keeps the sign. */
  lemma SignOfQuotient(a: real, len: real)
    requires 0.0 < len
    ensures (1.0 / len) * a < 0.0 <==> a < 0.0
  {
    assert 0.0 < 1.0 / len;
    if a < 0.0 {
      assert (1.0 / len) * a < 0.0;
    } else {
      assert 0.0 <= (1.0 / len) * a;
    }
  }

  // ----- Dielectric -----

  /** The ratio of refractive indices across the surface: `1 / ir` entering
      the material (front face), `ir` leaving it. */
  function RefractionRatio(ir: real, frontFace: bool): real
    requires frontFace ==> ir != 0.0
  {
    if frontFace then 1.0 / ir else ir
  }

  /** `x.powi(n)`. */
  function Powi(x: real, n: nat): real {
    if n == 0 then 1.0 else x * Powi(x, n - 1)
  }

  /** Schlick's approximation of the reflectance at incidence cosine
      `cosine` for the index ratio `refIdx`. */
  function Reflectance(cosine: real, refIdx: real): real
    requires refIdx != -1.0
  {
    var r0 := (1.0 - refIdx) / (1.0 + refIdx);
    var r0Squared := r0 * r0;
    r0Squared + (1.0 - r0Squared) * Powi(1.0 - cosine, 5)
  }

  /** At normal incidence the reflectance is `r0^2`; at grazing incidence
      it is total. */
  lemma ReflectanceEndpoints(refIdx: real)
    requires refIdx != -1.0
    ensures var r0 := (1.0 - refIdx) / (1.0 + refIdx);
      Reflectance(1.0, refIdx) == r0 * r0
    ensures Reflectance(0.0, refIdx) == 1.0
  {
    assert Powi(0.0, 5) == 0.0;
    assert Powi(1.0, 5) == 1.0;
  }

  /** Powers of a number in `[0, 1]` stay in `[0, 1]`. */
  lemma {:induction false} PowiUnit(x: real, n: nat)
    requires 0.0 <= x <= 1.0
    ensures 0.0 <= Powi(x, n) <= 1.0
  {
    if n != 0 {
      PowiUnit(x, n - 1);
      UnitProduct(x, Powi(x, n - 1));
    }
  }

  lemma UnitProduct(a: real, b: real)
    requires 0.0 <= a <= 1.0 && 0.0 <= b <= 1.0
    ensures 0.0 <= a * b <= b
  {
  }

  /** For a positive index ratio and a cosine in `[0, 1]`, the reflectance
      is a probability no smaller than the normal-incidence value `r0^2`. */
  lemma {:induction false} ReflectanceBounds(cosine: real, refIdx: real)
    requires 0.0 < refIdx && 0.0 <= cosine <= 1.0
    ensures var r0 := (1.0 - refIdx) / (1.0 + refIdx);
      r0 * r0 <= Reflectance(cosine, refIdx) <= 1.0
  {
    var r0 := (1.0 - refIdx) / (1.0 + refIdx);
    R0Bounds(refIdx, r0);
    var q := r0 * r0;
    SquareNonNegative(r0, q);
    SquareBelow(r0, 1.0);
    PowiUnit(1.0 - cosine, 5);
    UnitProduct(Powi(1.0 - cosine, 5), 1.0 - q);
  }

  lemma R0Bounds(refIdx: real, r0: real)
    requires 0.0 < refIdx && r0 == (1.0 - refIdx) / (1.0 + refIdx)
    ensures Abs(r0) < 1.0
  {
    assert r0 * (1.0 + refIdx) == 1.0 - refIdx;
  }

  /** The conditions under which the source's arithmetic stays finite:
      entering needs `ir != 0`, and the ratio handed to `reflectance` must
      not be `-1`. */
  predicate DielectricDefined(ir: real, frontFace: bool) {
    (frontFace ==> ir != 0.0) && ir != -1.0
  }

  lemma RatioDefined(ir: real, frontFace: bool)
    requires DielectricDefined(ir, frontFace)
    ensures RefractionRatio(ir, frontFace) != -1.0
  {
    if frontFace {
      assert ir * RefractionRatio(ir, frontFace) == 1.0;
    }
  }

  /** `min(dot(-unit_direction, normal), 1)`. */
  function CosTheta(unitDirection: Vec3, normal: Vec3): real {
    Min(Dot(Neg(unitDirection), normal), 1.0)
  }

  /** `sqrt(1 - cos_theta^2)`. */
  function SinTheta(cosTheta: real, sqrt: real -> real): real {
    sqrt(1.0 - cosTheta * cosTheta)
  }

  /** Snell's law has no solution: `ratio * sin_theta > 1`. */
  predicate CannotRefract(ratio: real, sinTheta: real) {
    ratio * sinTheta > 1.0
  }

  /** The reflectance that the ray sees at this hit, against which the
      draw is compared. */
  function DielectricReflectance(ir: real, r: Ray, rec: Hit, sqrt: real -> real): real
    requires Length(r.direction, sqrt) != 0.0 && DielectricDefined(ir, rec.frontFace)
  {
    RatioDefined(ir, rec.frontFace);
    Reflectance(CosTheta(UnitVector(r.direction, sqrt), rec.normal), RefractionRatio(ir, rec.frontFace))
  }

  /** Reflect when refraction is impossible or when the draw falls below
      the reflectance; refract otherwise. */
  function DielectricDirection(ir: real, r: Ray, rec: Hit, uniform: real, sqrt: real -> real): Vec3
    requires Length(r.direction, sqrt) != 0.0 && DielectricDefined(ir, rec.frontFace)
  {
    var ratio := RefractionRatio(ir, rec.frontFace);
    var unitDirection := UnitVector(r.direction, sqrt);
    var cosTheta := CosTheta(unitDirection, rec.normal);
    RatioDefined(ir, rec.frontFace);
    if CannotRefract(ratio, SinTheta(cosTheta, sqrt)) || Reflectance(cosTheta, ratio) > uniform then
      Reflect(unitDirection, rec.normal)
    else
      Refract(unitDirection, rec.normal, ratio, sqrt)
  }

  function DielectricResult(ir: real, r: Ray, rec: Hit, d: Draw, sqrt: real -> real): Scattering
    requires Length(r.direction, sqrt) != 0.0 && DielectricDefined(ir, rec.frontFace)
  {
    Scattering(true, Vec3(1.0, 1.0, 1.0), Ray(rec.p, DielectricDirection(ir, r, rec, d.uniform, sqrt)))
  }

  /** `Dielectric::scatter`: always scatters, without attenuation, from the
      hit point. */
  method DielectricScatter(ir: real, r: Ray, rec: Hit, d: Draw, sqrt: real -> real)
    returns (ok: bool, attenuation: Color, scattered: Ray)
    requires Length(r.direction, sqrt) != 0.0 && DielectricDefined(ir, rec.frontFace)
    ensures ok && attenuation == Vec3(1.0, 1.0, 1.0) && scattered.origin == rec.p
    ensures Scattering(ok, attenuation, scattered) == DielectricResult(ir, r, rec, d, sqrt)
  {
    attenuation := Vec3(1.0, 1.0, 1.0);
    var refractionRatio := if rec.frontFace then 1.0 / ir else ir;
    var unitDirection := UnitVector(r.direction, sqrt);
    var cosTheta := Min(Dot(Neg(unitDirection), rec.normal), 1.0);
    var sinTheta := SinTheta(cosTheta, sqrt);
    var cannotRefract := CannotRefract(refractionRatio, sinTheta);
    RatioDefined(ir, rec.frontFace);
    assert refractionRatio == RefractionRatio(ir, rec.frontFace);
    assert cosTheta == CosTheta(unitDirection, rec.normal);
    var direction;
    if cannotRefract || Reflectance(cosTheta, refractionRatio) > d.uniform {
      direction := Reflect(unitDirection, rec.normal);
    } else {
      direction := Refract(unitDirection, rec.normal, refractionRatio, sqrt);
    }
    assert direction == DielectricDirection(ir, r, rec, d.uniform, sqrt);
    scattered := Ray(rec.p, direction);
    ok := true;
  }

  /** Under total internal reflection the ray is reflected whatever the draw. */
  lemma TotalInternalReflection(ir: real, r: Ray, rec: Hit, sqrt: real -> real)
    requires Length(r.direction, sqrt) != 0.0 && DielectricDefined(ir, rec.frontFace)
    requires CannotRefract(RefractionRatio(ir, rec.frontFace),
                           SinTheta(CosTheta(UnitVector(r.direction, sqrt), rec.normal), sqrt))
    ensures forall uniform: real {:trigger DielectricDirection(ir, r, rec, uniform, sqrt)} ::
              DielectricDirection(ir, r, rec, uniform, sqrt)
                == Reflect(UnitVector(r.direction, sqrt), rec.normal)
  {
  }

  /** When Snell's law has a solution the draw decides: the ray is refracted
      exactly when the draw is at least the reflectance, and reflected
      otherwise. */
  lemma RefractsWhenPossible(ir: real, r: Ray, rec: Hit, uniform: real, sqrt: real -> real)
    requires Length(r.direction, sqrt) != 0.0 && DielectricDefined(ir, rec.frontFace)
    requires !CannotRefract(RefractionRatio(ir, rec.frontFace),
                            SinTheta(CosTheta(UnitVector(r.direction, sqrt), rec.normal), sqrt))
    ensures DielectricReflectance(ir, r, rec, sqrt) <= uniform ==>
              DielectricDirection(ir, r, rec, uniform, sqrt)
                == Refract(UnitVector(r.direction, sqrt), rec.normal, RefractionRatio(ir, rec.frontFace), sqrt)
    ensures uniform < DielectricReflectance(ir, r, rec, sqrt) ==>
              DielectricDirection(ir, r, rec, uniform, sqrt)
                == Reflect(UnitVector(r.direction, sqrt), rec.normal)
  {
  }

  /** For a positive index ratio and a cosine in `(0, 1]` the reflectance
      is below 1. */
  lemma {:induction false} ReflectanceBelowOne(cosine: real, refIdx: real)
    requires 0.0 < refIdx && 0.0 < cosine <= 1.0
    ensures Reflectance(cosine, refIdx) < 1.0
  {
    var r0 := (1.0 - refIdx) / (1.0 + refIdx);
    R0Bounds(refIdx, r0);
    var q := r0 * r0;
    SquareNonNegative(r0, q);
    SquareBelow(r0, 1.0);
    PowiBelowOne(1.0 - cosine, 5);
    MixBelowOne(q, Powi(1.0 - cosine, 5));
  }

  /** Positive powers of a number in `[0, 1)` stay in `[0, 1)`. */
  lemma {:induction false} PowiBelowOne(x: real, n: nat)
    requires 0.0 <= x < 1.0 && 1 <= n
    ensures 0.0 <= Powi(x, n) < 1.0
  {
    if n == 1 {
      assert Powi(x, 0) == 1.0;
    } else {
      PowiBelowOne(x, n - 1);
      UnitProduct(x, Powi(x, n - 1));
    }
  }

  /** `q + (1 - q) p < 1` for `q` and `p` in `[0, 1)`. */
  lemma MixBelowOne(q: real, p: real)
    requires 0.0 <= q < 1.0 && 0.0 <= p < 1.0
    ensures q + (1.0 - q) * p < 1.0
  {
    MulPositive(1.0 - q, 1.0 - p);
    assert (1.0 - q) * (1.0 - p) == (1.0 - q) - (1.0 - q) * p;
  }

  /** A ray that can refract and does not graze the surface is refracted by
      every draw from the reflectance up, and that reflectance lies in
      `[0, 1)`: some draw of `rng.gen::<f64>()` reaches the refraction branch. */
  lemma SomeDrawRefracts(ir: real, r: Ray, rec: Hit, sqrt: real -> real)
    requires Length(r.direction, sqrt) != 0.0 && DielectricDefined(ir, rec.frontFace)
    requires 0.0 < RefractionRatio(ir, rec.frontFace)
    requires 0.0 < CosTheta(UnitVector(r.direction, sqrt), rec.normal)
    requires !CannotRefract(RefractionRatio(ir, rec.frontFace),
                            SinTheta(CosTheta(UnitVector(r.direction, sqrt), rec.normal), sqrt))
    ensures 0.0 <= DielectricReflectance(ir, r, rec, sqrt) < 1.0
    ensures forall uniform: real {:trigger DielectricDirection(ir, r, rec, uniform, sqrt)} ::
              DielectricReflectance(ir, r, rec, sqrt) <= uniform ==>
                DielectricDirection(ir, r, rec, uniform, sqrt)
                  == Refract(UnitVector(r.direction, sqrt), rec.normal, RefractionRatio(ir, rec.frontFace), sqrt)
  {
    var cosine := CosTheta(UnitVector(r.direction, sqrt), rec.normal);
    var ratio := RefractionRatio(ir, rec.frontFace);
    assert cosine <= 1.0;
    ReflectanceBounds(cosine, ratio);
    ReflectanceBelowOne(cosine, ratio);
    var r0 := (1.0 - ratio) / (1.0 + ratio);
    SquareNonNegative(r0, r0 * r0);
    forall uniform: real | DielectricReflectance(ir, r, rec, sqrt) <= uniform
      ensures DielectricDirection(ir, r, rec, uniform, sqrt)
                == Refract(UnitVector(r.direction, sqrt), rec.normal, ratio, sqrt)
    {
      RefractsWhenPossible(ir, r, rec, uniform, sqrt);
    }
  }

  // ----- Dispatch on the material -----

  /** The source's arithmetic is defined for this material, ray and record. */
  predicate ScatterDefined(m: Material, r: Ray, rec: Hit, sqrt: real -> real) {
    match m
    case Lambertian(_) => true
    case Metal(_, _) => Length(r.direction, sqrt) != 0.0
    case Dielectric(ir) => Length(r.direction, sqrt) != 0.0 && DielectricDefined(ir, rec.frontFace)
  }

  function ScatterResult(m: Material, r: Ray, rec: Hit, d: Draw, sqrt: real -> real): Scattering
    requires ScatterDefined(m, r, rec, sqrt)
  {
    match m
    case Lambertian(albedo) => LambertianResult(albedo, rec, d)
    case Metal(albedo, fuzz) => MetalResult(albedo, fuzz, r, rec, d, sqrt)
    case Dielectric(ir) => DielectricResult(ir, r, rec, d, sqrt)
  }

  /** `rec.material.scatter(..)`: the dynamic dispatch of the source. */
  method Scatter(m: Material, r: Ray, rec: Hit, d: Draw, sqrt: real -> real)
    returns (ok: bool, attenuation: Color, scattered: Ray)
    requires ScatterDefined(m, r, rec, sqrt)
    ensures Scattering(ok, attenuation, scattered) == ScatterResult(m, r, rec, d, sqrt)
  {
    match m
    case Lambertian(albedo) =>
      ok, attenuation, scattered := LambertianScatter(albedo, r, rec, d);
    case Metal(albedo, fuzz) =>
      ok, attenuation, scattered := MetalScatter(albedo, fuzz, r, rec, d, sqrt);
    case Dielectric(ir) =>
      ok, attenuation, scattered := DielectricScatter(ir, r, rec, d, sqrt);
  }

  /** Every scattered ray starts at the hit point, and a dielectric or
      Lambertian surface always lets the ray go on. */
  lemma ScatterFromHitPoint(m: Material, r: Ray, rec: Hit, d: Draw, sqrt: real -> real)
    requires ScatterDefined(m, r, rec, sqrt)
    ensures ScatterResult(m, r, rec, d, sqrt).scattered.origin == rec.p
    ensures !m.Metal? ==> ScatterResult(m, r, rec, d, sqrt).ok
  {
  }

  /** A metal that lets the ray go on sends it along a non-zero direction. */
  lemma MetalOkNonZero(albedo: Color, fuzz: real, r: Ray, rec: Hit, d: Draw, sqrt: real -> real)
    requires Length(r.direction, sqrt) != 0.0
    ensures var result := MetalResult(albedo, fuzz, r, rec, d, sqrt);
      result.ok ==> 0.0 < LengthSquared(result.scattered.direction)
  {
    var dir := MetalDirection(r, rec.normal, fuzz, d.sphereSample, sqrt);
    if Dot(dir, rec.normal) > 0.0 {
      DotPositiveNonZero(dir, rec.normal);
    }
  }

  /** A dielectric scatters a unit-length incoming direction into one of
      squared length at least 1: exactly 1 when reflected. */
  lemma {:induction false} DielectricDirectionLength(ir: real, r: Ray, rec: Hit, uniform: real, sqrt: real -> real)
    requires IsSqrt(sqrt) && Dot(rec.normal, rec.normal) == 1.0 && r.direction != Zero
    requires DielectricDefined(ir, rec.frontFace)
    ensures Length(r.direction, sqrt) != 0.0
    ensures 1.0 <= LengthSquared(DielectricDirection(ir, r, rec, uniform, sqrt))
  {
    UnitVectorDefined(r.direction, sqrt);
    var u := UnitVector(r.direction, sqrt);
    var ratio := RefractionRatio(ir, rec.frontFace);
    DotSymmetric(u, u);
    var dir := DielectricDirection(ir, r, rec, uniform, sqrt);
    if dir == Reflect(u, rec.normal) {
      ReflectFlipsNormal(u, rec.normal);
    } else {
      assert dir == Refract(u, rec.normal, ratio, sqrt);
      var perp := RefractPerp(u, rec.normal, ratio);
      LengthSquaredZero(perp);
      assert SqrtAt(sqrt, Abs(1.0 - LengthSquared(perp)));
      RefractLength(u, rec.normal, ratio, sqrt);
    }
  }

  /** With a true square root, a unit normal and a non-zero incoming
      direction, a ray that goes on leaves along a non-zero direction, so
      it can be normalised again at the next bounce. */
  lemma {:induction false} ScatteredDirectionNonZero(m: Material, r: Ray, rec: Hit, d: Draw, sqrt: real -> real)
    requires IsSqrt(sqrt) && Dot(rec.normal, rec.normal) == 1.0 && r.direction != Zero
    requires ScatterDefined(m, r, rec, sqrt)
    ensures ScatterResult(m, r, rec, d, sqrt).ok ==>
              0.0 < LengthSquared(ScatterResult(m, r, rec, d, sqrt).scattered.direction)
  {
    match m
    case Lambertian(_) =>
      LambertianDirectionNonZero(rec.normal, d.unitSample);
    case Metal(albedo, fuzz) =>
      MetalOkNonZero(albedo, fuzz, r, rec, d, sqrt);
    case Dielectric(ir) =>
      DielectricDirectionLength(ir, r, rec, d.uniform, sqrt);
  }
}
