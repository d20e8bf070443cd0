# A verified model of a small Monte Carlo ray tracer

This project models the geometric and decision logic of a small Rust path
tracer of the "Ray Tracing in One Weekend" kind. It renders a scene of
spheres made of three materials: diffuse (Lambertian), metal and glass
(dielectric). The parts modelled:

- **Vectors** (`Vectors`, src/vec3.rs): the `Vec3` operators (negation,
  addition, subtraction, scalar multiplication on either side,
  component-wise multiplication, both division forms) and `dot`,
  `length_squared`, `length`, `cross`, `unit_vector`, `near_zero`,
  `reflect` and `refract`.
- **Rays** (`Rays`, src/ray.rs): the default ray and `Ray::at`.
- **Hit records** (`Hittable`, src/hittable.rs):
  - `HitRecord` is a class whose `SetFaceNormal` updates its fields in
    place, turning the stored normal against the incoming ray.
  - `Hit` is the value snapshot of a record that the rest of the model
    reads.
- **Spheres** (`Spheres`, src/sphere.rs): `Sphere::hit`, with the same steps
  as the source:
  - set up the half-b quadratic;
  - test the discriminant;
  - pick the nearer root inside `[t_min, t_max]`, falling back to the
    farther one;
  - write `t`, `p`, the material and the face normal into the record.

  The choice of root is proved to give the least root of the ray–sphere
  equation in the interval. A worked example (`SphereExample`) follows
  one ray through `hit` to its record.
- **Materials** (`MaterialKinds` and `Materials`, src/material.rs): the
  materials form a closed datatype. Lambertian, metal and
  dielectric `scatter`, as methods that return their out-parameters. Each
  is proved equal to a specification function. Also modelled: Schlick's
  `reflectance` and the choice between reflection and refraction.
- **Camera** (`Cameras`, src/camera.rs): `Camera::new` and
  `Camera::get_ray`, the thin-lens camera.
- **Pixels** (`Colors`, src/color.rs): `clamp` and `format_pixel_color`,
  which average the samples, gamma-correct with a square root and
  quantise to 8 bits.
- **Integrator** (`Render`, src/main.rs): the recursive `ray_color` with
  its depth budget, and the row flip used when pixels are stored.

Modelling choices:

- `f64` is modelled as `real`. Rounding, NaN and infinities are not
  modelled.
- The square root is a parameter `sqrt: real -> real`. A property that
  needs a true square root requires one of two predicates:
  - `SqrtAt(sqrt, x)`: `sqrt(x)` is the non-negative root of `x`;
  - `IsSqrt(sqrt)`: this holds at every `x >= 0`.
- Every random draw is an explicit parameter:
  - the unit-vector, in-sphere and uniform samples of one scattering
    event are a `Draw`;
  - the bounce at depth `d` uses `draws(d)`;
  - the lens sample of `get_ray` is `disk`.
- `world.hit` is an oracle `Scene`: a function from a ray and an interval
  to an optional record. In the source it is the nearest hit over the
  list of spheres; the model does not assume that, and no property
  depends on it.
- A division by zero in the source yields an infinity or NaN. The model
  makes its absence a precondition instead (`DivScalar`, `UnitVector`,
  `CameraDefined`, `DielectricDefined`, `ScatterDefined`).

## Model

| member | source | states |
|---|---|---|
| Vectors.NegInverse | src/vec3.rs:120-130 | `-v` negates every component and is the additive inverse of `v`; `-(1,-3,0) == (-1,3,0)` as in the unit test |
| Vectors.AddZero | src/vec3.rs:132-142 | `Zero` is the identity of `+` on both sides |
| Vectors.AddExample | src/vec3.rs:216-225 | `(1,-3,0) + (4,-5,-1) == (5,-8,-1)` |
| Vectors.SubComponents | src/vec3.rs:192-198 | `a - b` (computed as `a + (-b)`) is component-wise subtraction and undoes `+ b`; `(1,-3,0) - (4,-5,-1) == (-3,2,1)` |
| Vectors.MulScalarCommutes | src/vec3.rs:144-162 | `v * s == s * v`, both component-wise scaling; `(1,-3,0) * 2 == (2,-6,0)` |
| Vectors.MulCompCommutes | src/vec3.rs:164-174 | the component-wise product is commutative |
| Vectors.DivScalarInverse | src/vec3.rs:176-190 | `v / s` divides each component by `s` and is undone by `* s`; `s / v` is the same vector as `v / s`, so it scales rather than dividing `s` component-wise |
| Vectors.DivScalarExample | src/vec3.rs:255-264 | `(1,-3,0) / 2 == (0.5,-1.5,0)`, and likewise for `2 / (1,-3,0)` |
| Vectors.Dot | src/vec3.rs:73-75 | `a.x b.x + a.y b.y + a.z b.z`; its algebra is pinned down by `DotSymmetric`, `DotAddLeft`, `DotScaleLeft`, `DotScaleRight` and `DotNegLeft` |
| Vectors.Cross | src/vec3.rs:77-83 | the component formula of `cross`; pinned down by `CrossOrthogonal` and `CrossLength` |
| Vectors.UnitVector | src/vec3.rs:85-87 | `v / length(v)`; pinned down by `UnitVectorLength` and `UnitVectorDefined` |
| Vectors.NearZero | src/vec3.rs:89-93 | every component's magnitude is below `1e-8`; pinned down by `NearZeroSmall` |
| Vectors.Reflect | src/vec3.rs:95-97 | `v - 2 (v·n) n`; pinned down by `ReflectFlipsNormal` and `ReflectInvolution` |
| Vectors.RefractPerp | src/vec3.rs:100-102 | `eta (v + min(-v·n, 1) n)`; pinned down by `RefractPerpOrthogonal` |
| Vectors.Refract | src/vec3.rs:99-106 | `perp - sqrt(abs(1 - ‖perp‖²)) n`; pinned down by `RefractLength` |
| Vectors.DotSymmetric | src/vec3.rs:69-75 | `dot` is symmetric and `dot(v,v) == length_squared(v)`; `(1,2,3)·(1,3,3) == 16` |
| Vectors.CrossOrthogonal | src/vec3.rs:77-83 | `cross(a,b)` is orthogonal to `a` and to `b`; `(1,2,3)×(1,3,3) == (-3,0,1)` |
| Vectors.CrossLength | src/vec3.rs:77-83 | Lagrange's identity: `‖a×b‖² == ‖a‖²‖b‖² - (a·b)²` |
| Vectors.DotAddLeft | src/vec3.rs:73-75 | `dot` distributes over `+` on the left |
| Vectors.DotScaleLeft | src/vec3.rs:73-75 | `dot(k a, b) == k dot(a, b)` |
| Vectors.DotScaleRight | src/vec3.rs:73-75 | `dot(a, k b) == k dot(a, b)` |
| Vectors.DotNegLeft | src/vec3.rs:73-75 | `dot(-a, b) == -dot(a, b)` |
| Vectors.LengthSquaredAdd | src/vec3.rs:69-75 | `‖a+b‖² == a·a + 2 a·b + b·b` |
| Vectors.LengthSquaredScale | src/vec3.rs:69-71 | `‖k v‖² == k² ‖v‖²` |
| Vectors.LengthSquaredZero | src/vec3.rs:69-71 | `length_squared` is non-negative and is zero exactly for the zero vector |
| Vectors.LengthNonZero | src/vec3.rs:63-67 | with a true square root, a non-zero squared length gives a non-zero length |
| Vectors.NegPreservesLength | src/vec3.rs:120-130 | negation keeps the squared length |
| Vectors.UnitLength | src/vec3.rs:85-87 | dividing by a non-zero length `len` with `len² == ‖v‖²` gives a unit vector |
| Vectors.UnitVectorLength | src/vec3.rs:85-87 | with a true square root at `‖v‖²`, `unit_vector(v)` has length 1 |
| Vectors.UnitVectorDefined | src/vec3.rs:85-87 | with a true square root, any non-zero vector has a non-zero length and a unit `unit_vector` |
| Vectors.NearZeroSmall | src/vec3.rs:89-93 | the zero vector is near zero; a near-zero vector has squared length below `3e-16`; a vector that is not near zero is not the zero vector |
| Vectors.ReflectFlipsNormal | src/vec3.rs:95-97 | for a unit `n`, `dot(reflect(v,n), n) == -dot(v,n)`, and reflection keeps the squared length |
| Vectors.ReflectInvolution | src/vec3.rs:95-97 | for a unit `n`, `reflect(reflect(v,n), n) == v` |
| Vectors.RefractPerpOrthogonal | src/vec3.rs:99-102 | for a unit `n` and `-dot(v,n) <= 1`, the perpendicular part of `refract` is orthogonal to `n` |
| Vectors.RefractLength | src/vec3.rs:99-106 | refracting a unit vector through a unit normal never gives less than unit length, and gives exactly unit length when the perpendicular part is at most unit length |
| Vectors.UnitDotBounds | src/vec3.rs:73-75 | the dot product of two unit vectors lies in `[-1, 1]` |
| Vectors.DotPositiveNonZero | src/vec3.rs:69-75 | a vector with a positive dot product against some vector is non-zero and has positive squared length |
| Vectors.SqrtUnique | src/vec3.rs:63-67 | a true square root of `q²` with `q >= 0` is `q` |
| Vectors.SqrtAtLeastOne | src/vec3.rs:63-67 | a true square root is at least 1 exactly when its argument is |
| Rays.DefaultRay | src/ray.rs:9-13 | the default ray has zero origin and zero direction, so it stays at the origin for every `t` |
| Rays.At | src/ray.rs:23-25 | `at(t) - origin == t * direction` for every `t` |
| Rays.AtEndpoints | src/ray.rs:23-25 | `at(0) == origin` and `at(1) == origin + direction` |
| Rays.AtAdditive | src/ray.rs:23-25 | `at(t1 + t2) == at(t1) + t2 * direction` |
| Rays.AtDifference | src/ray.rs:23-25 | `at(t2) - at(t1) == (t2 - t1) * direction` |
| Hittable.OrientedNormal | src/hittable.rs:17-25 | the oriented normal is `±outward`, never points along the ray (`dot <= 0`) and has the length of `outward` |
| Hittable.OrientedNormalFront | src/hittable.rs:17-25 | for a non-zero outward normal, the normal is `outward` exactly when the ray hits the front face and `-outward` exactly when it does not |
| Hittable.HitRecord.Default | src/hittable.rs:46-56 | the default record has zero `p` and `normal`, `t == 0`, `front_face == false` and the default Lambertian material |
| Hittable.HitRecord.constructor | src/hittable.rs:28-44 | `HitRecord::new` stores its five arguments |
| Hittable.HitRecord.SetFaceNormal | src/hittable.rs:16-25 | afterwards `front_face == (dot(dir, outward) < 0)`, `normal` is `outward` on the front face and `-outward` otherwise, `dot(dir, normal) <= 0`, the squared length is that of `outward`, and `p`, `t` and `material` are unchanged |
| Spheres.Oc | src/sphere.rs:27 | `origin - center`; with `QuadA`, `HalfB`, `QuadC` and `Discriminant` it is pinned down by `QuadraticIsSphere`, `QuadraticRoots` and `NoRealRoots` |
| Spheres.HalfB | src/sphere.rs:29 | `oc · direction`; pinned down by `QuadraticIsSphere` |
| Spheres.Discriminant | src/sphere.rs:32 | `half_b² - a c`; pinned down by `QuadraticRoots` and `NoRealRoots` |
| Spheres.PickRoot | src/sphere.rs:41-48 | the near root when in range, else the far root when in range, else none; pinned down by `PickRootIsLeast` |
| Spheres.NearestRoot | src/sphere.rs:34-48 | a selected root lies in `[t_min, t_max]` |
| Spheres.NearestRootPrefersNear | src/sphere.rs:34-48 | a negative discriminant gives no root; the smaller root is taken whenever it is in range; the larger root is taken only when the smaller is out of range |
| Spheres.QuadraticIsSphere | src/sphere.rs:27-32 | `t` solves `a t² + 2 half_b t + c == 0` exactly when `at(t)` lies on the sphere |
| Spheres.SphereEquation | src/sphere.rs:27-32 | the same equivalence over plain vectors: the quadratic in `t` with coefficients `‖d‖²`, `oc·d` and `‖oc‖² - r²` vanishes exactly when `‖oc + t d‖² == r²` |
| Spheres.QuadraticRoots | src/sphere.rs:34-44 | with a non-negative square root `q` of the discriminant, the roots are exactly `(-half_b ∓ q)/a` |
| Spheres.NoRealRoots | src/sphere.rs:34-36 | a negative discriminant leaves the quadratic without roots |
| Spheres.PickRootIsLeast | src/sphere.rs:41-48 | for `a > 0` the picked value is a root, no root in range is smaller, and nothing is picked exactly when no root lies in range |
| Spheres.NearestRootIsNearest | src/sphere.rs:27-48 | with a true square root of the discriminant, a selected `t` solves the ray–sphere quadratic, is the least solution in `[t_min, t_max]`, and there is none exactly when no solution lies in range |
| Spheres.OutwardNormalUnit | src/sphere.rs:53-54 | at a point on the sphere, `(p - center)/radius` has unit length |
| Spheres.SphereHit | src/sphere.rs:25-58 | the record `hit` writes, as a value; pinned down by `SphereHitFields`, `SphereHitAt` and `SphereHitOnSurface` |
| Spheres.SphereHitFields | src/sphere.rs:25-58 | there is a hit exactly when a root is selected; then `t` is that root and lies in range, `p == at(t)`, the material is the sphere's and the normal opposes the ray |
| Spheres.SphereHitOnSurface | src/sphere.rs:25-58 | with a true square root, the recorded point lies on the sphere and the recorded normal has unit length |
| Spheres.SphereHitAt | src/sphere.rs:51-55 | when root `t` is selected, the record is `at(t)`, the oriented `(p - center)/radius`, `t`, the face flag and the sphere's material |
| Spheres.Hit | src/sphere.rs:25-58 | returns true exactly when a root lies in range, then leaves in the record the hit that `SphereHit` describes; on false the record is untouched |
| SphereExample.ExampleQuadratic | src/sphere.rs:27-36 | for the ray from the origin along `-z` against the unit sphere at `(0,0,-5)`: `a == 1`, `half_b == -5`, discriminant `1` |
| SphereExample.NearRootOf | src/sphere.rs:38 | for a unit direction the smaller root is `-half_b - sqrtd` |
| SphereExample.UnitQuadraticRoot | src/sphere.rs:32-48 | a unit-direction quadratic with `half_b == -5` and discriminant 1 selects the root 4 on `[0.001, ∞)` |
| SphereExample.ExampleRoot | src/sphere.rs:38-48 | that example selects `t == 4` on `[0.001, ∞)` |
| SphereExample.ExamplePoint | src/ray.rs:23-25 | that example ray is at `(0,0,-4)` when `t == 4` |
| SphereExample.ExampleOutward | src/sphere.rs:53 | the outward normal there is `(0,0,1)` |
| SphereExample.ExampleFacing | src/hittable.rs:17-25 | the ray meets that normal on the front face, and the normal stays `(0,0,1)` |
| SphereExample.ExampleRecord | src/sphere.rs:25-58 | the example hit records `p == (0,0,-4)`, `normal == (0,0,1)`, `t == 4`, front face and the sphere's material |
| SphereExample.HitExample | src/sphere.rs:25-58 | calling `hit` on the example with a fresh default record returns true and leaves `t == 4`, `p == (0,0,-4)`, normal `(0,0,1)`, `front_face` and the sphere's material in the record |
| Materials.LambertianDirection | src/material.rs:29-33 | `normal + sample`, or `normal` when that is near zero; pinned down by `LambertianScatter` and `LambertianDirectionNonZero` |
| Materials.MetalDirection | src/material.rs:68-70 | `reflect(unit(dir), normal) + fuzz·sample`; pinned down by `MetalScatter` and `MetalMirror` |
| Materials.Reflectance | src/material.rs:96-101 | Schlick's `r0² + (1 - r0²)(1 - cos)⁵`; pinned down by `ReflectanceEndpoints`, `ReflectanceBounds` and `ReflectanceBelowOne` |
| Materials.DielectricDirection | src/material.rs:107-121 | reflect when refraction is impossible or the draw is below the reflectance, refract otherwise; pinned down by `DielectricScatter`, `TotalInternalReflection`, `RefractsWhenPossible` and `SomeDrawRefracts` |
| Materials.LambertianScatter | src/material.rs:28-43 | always returns true, with `attenuation == albedo` and the ray leaving from `rec.p` along `normal + sample`, or exactly `normal` when that sum is near zero |
| Materials.LambertianDirectionNonZero | src/material.rs:29-33 | with a unit normal the Lambertian direction is never the zero vector |
| Materials.MetalScatter | src/material.rs:67-75 | `attenuation == albedo`, the ray leaves from `rec.p`, and the result is true exactly when the scattered direction points above the surface; the out-parameters are written either way |
| Materials.MetalMirror | src/material.rs:68-70 | with `fuzz == 0` the direction is exactly `reflect(unit(dir), normal)` |
| Materials.MirrorScatters | src/material.rs:67-75 | a perfect mirror with a unit normal lets the ray go on exactly when the ray arrives against the normal |
| Materials.MetalOkNonZero | src/material.rs:67-75 | a metal that lets the ray go on sends it along a direction of positive squared length |
| Materials.ReflectanceEndpoints | src/material.rs:96-101 | `reflectance(1, idx) == ((1-idx)/(1+idx))²` and `reflectance(0, idx) == 1` |
| Materials.PowiUnit | src/material.rs:100 | powers of a number in `[0, 1]` stay in `[0, 1]` |
| Materials.ReflectanceBounds | src/material.rs:96-101 | for `idx > 0` and a cosine in `[0, 1]`, the reflectance lies between `r0²` and 1 |
| Materials.RatioDefined | src/material.rs:107 | when the dielectric is well defined, the refraction ratio handed to `reflectance` is not `-1` |
| Materials.DielectricScatter | src/material.rs:105-126 | always returns true with `attenuation == (1,1,1)` and the ray leaving from `rec.p`; the ratio is `1/ir` on the front face and `ir` otherwise; the ray reflects when it cannot refract or the draw falls below `reflectance(cos_theta, refraction_ratio)`, and refracts otherwise |
| Materials.TotalInternalReflection | src/material.rs:113-118 | when `refraction_ratio * sin_theta > 1` the direction is the reflection, whatever the draw |
| Materials.DielectricReflectance | src/material.rs:107-117 | the reflectance `reflectance(cos_theta, refraction_ratio)` the ray sees; pinned down by `RefractsWhenPossible` and `SomeDrawRefracts` |
| Materials.RefractsWhenPossible | src/material.rs:113-121 | when refraction is possible, the direction is the refraction exactly when the draw is at least the reflectance, and the reflection when it is below |
| Materials.ReflectanceBelowOne | src/material.rs:96-101 | for `idx > 0` and a cosine in `(0, 1]` the reflectance is below 1 |
| Materials.PowiBelowOne | src/material.rs:100 | positive powers of a number in `[0, 1)` stay in `[0, 1)` |
| Materials.SomeDrawRefracts | src/material.rs:105-121 | for a positive ratio, a cosine above 0 and no total internal reflection, the reflectance lies in `[0, 1)` and every draw from it up refracts, so some draw of `rng.gen::<f64>()` in `[0, 1)` reaches the refraction branch |
| Materials.DielectricDirectionLength | src/material.rs:109-121 | with a true square root and a unit normal, the dielectric direction has squared length at least 1 |
| Materials.ScatterResult | src/material.rs:28-126 | the scattering of each material kind; pinned down by `Scatter`, `ScatterFromHitPoint` and `ScatteredDirectionNonZero` |
| Materials.Scatter | src/material.rs:28-126 | the dispatch on the material gives the scattering of that material |
| Materials.ScatterFromHitPoint | src/material.rs:35-38 | every scattered ray leaves from the hit point; Lambertian and dielectric surfaces always let the ray go on |
| Materials.ScatteredDirectionNonZero | src/material.rs:28-126 | with a true square root, a unit normal and a non-zero incoming direction, a ray that goes on has a non-zero direction |
| Cameras.NewCamera | src/camera.rs:18-47 | the camera fields as `Camera::new` computes them from `h`; pinned down by `NewCameraFields`, `CameraFrameOrthogonal`, `CameraFrameUnit` and `ViewportCentre` |
| Cameras.LensOffset | src/camera.rs:52-53 | `u·rd.x + v·rd.y` with `rd = lens_radius·disk`; pinned down by `LensOffsetComponents` |
| Cameras.GetRay | src/camera.rs:51-56 | the ray from `origin + offset` towards the viewport point; pinned down by `RaysConverge`, `PinholeOrigin` and `PinholeCamera` |
| Cameras.NewCameraFields | src/camera.rs:18-47 | the camera sits at `lookfrom`; `lens_radius == aperture/2`; `horizontal == focus_dist·aspect_ratio·2h·u`; `vertical == focus_dist·2h·v` |
| Cameras.CameraFrameOrthogonal | src/camera.rs:24-26 | `v = w × u` is orthogonal to `w` and to `u`, and `u` is orthogonal to `w` |
| Cameras.CameraFrameUnit | src/camera.rs:24-26 | with true square roots `w`, `u` and `v` all have unit length, so the frame is orthonormal |
| Cameras.UnitCross | src/camera.rs:26 | the cross product of orthogonal unit vectors is a unit vector |
| Cameras.ViewportCentre | src/camera.rs:33 | `lower_left_corner + horizontal/2 + vertical/2 == origin - focus_dist·w` |
| Cameras.LensOffsetComponents | src/camera.rs:52-53 | the lens offset is `lens_radius·disk.x` along `u` plus `lens_radius·disk.y` along `v`, and it vanishes for a zero lens radius |
| Cameras.RaysConverge | src/camera.rs:51-56 | the ray starts at `origin + offset`, and `origin + direction` is `lower_left_corner + s·horizontal + t·vertical` for every lens sample |
| Cameras.PinholeOrigin | src/camera.rs:52-55 | with zero lens radius every ray starts at the camera origin |
| Cameras.PinholeCamera | src/camera.rs:18-56 | with zero aperture every ray starts at `lookfrom`, and the ray for `(0.5, 0.5)` aims at `lookfrom - focus_dist·w` |
| Colors.Clamp | src/color.rs:3-14 | `min` below the range, `max` above it, `x` otherwise; pinned down by `ClampCases`, `ClampBounds` and `ClampIdempotent` |
| Colors.Channel | src/color.rs:17-26 | one channel of `format_pixel_color`; pinned down by `ChannelIsFloor` and `ChannelExtremes` |
| Colors.FormatPixelColor | src/color.rs:16-28 | the three channels of a pixel; pinned down by `PixelInRange` |
| Colors.ClampCases | src/color.rs:3-14 | below the range `clamp` gives `min`, above it `max`, and inside it `x` unchanged |
| Colors.ClampBounds | src/color.rs:3-14 | with `min <= max` the result lies in `[min, max]` |
| Colors.ClampIdempotent | src/color.rs:3-14 | clamping twice is clamping once |
| Colors.CastU8 | src/color.rs:24-26 | the saturating `as u8` cast lies in `[0, 255]` and is the floor on `[0, 256)` |
| Colors.ChannelIsFloor | src/color.rs:16-28 | each channel is `floor(256·clamp(sqrt(component/spp), 0, 0.999))` and lies in `[0, 255]` |
| Colors.ChannelExtremes | src/color.rs:16-28 | with a true square root, a zero component gives 0 and a component with `component/spp >= 1` gives 255 |
| Colors.PixelInRange | src/color.rs:16-28 | every channel of every pixel lies in `[0, 255]` |
| Render.Radiance | src/main.rs:89-114 | the recursive colour `ray_color` returns; pinned down by `DepthExhausted`, `RadianceStep`, `RadianceDependsOnQueries` and `RadianceBounded` |
| Render.Sky | src/main.rs:110-113 | the blend from white to `(0.5, 0.7, 1.0)` by `0.5 (unit_y + 1)`; pinned down by `SkyDown`, `SkyUp`, `SkyHeightBounded` and `SkyColour` |
| Render.RayColor | src/main.rs:89-114 | `ray_color` computes `Radiance`, the recursive colour defined by depth |
| Render.DepthExhausted | src/main.rs:92-94 | with `depth <= 0` the colour is black, whatever the ray and scene |
| Render.RadianceStep | src/main.rs:96-107 | the scene is queried on `[0.001, ∞)`; a miss shows the sky; an absorbed ray is black; a scattered ray has a non-zero direction and gives `attenuation * colour(scattered, depth-1)` |
| Render.RadianceDependsOnQueries | src/main.rs:89-114 | two scenes that answer every query on `[0.001, ∞)` alike give the same colour |
| Render.SkyDown | src/main.rs:110-113 | `unit_y == -1` gives white |
| Render.SkyUp | src/main.rs:110-113 | `unit_y == 1` gives `(0.5, 0.7, 1.0)` |
| Render.SkyHeightBounded | src/main.rs:110-113 | for `unit_y` in `[-1, 1]` the sky colour lies in the unit cube |
| Render.SkyColour | src/main.rs:110-113 | for any non-zero direction the sky colour is white looking straight down, `(0.5, 0.7, 1.0)` looking straight up, and always in the unit cube |
| Render.UnitComponentBound | src/main.rs:110-111 | a component of a unit vector lies in `[-1, 1]` |
| Render.AttenuationDims | src/material.rs:28-126 | a material whose albedo lies in the unit cube attenuates into the unit cube |
| Render.MulCompDims | src/main.rs:104 | the component-wise product of two colours in the unit cube stays in it |
| Render.RadianceBounded | src/main.rs:89-114 | when every albedo in the scene lies in the unit cube, every colour `ray_color` returns lies in it too: light is never amplified |
| Render.FlipRow | src/main.rs:173 | `abs(image_height - j - 1)`; pinned down by `FlipRowBijection` |
| Render.FlipRowBijection | src/main.rs:173 | `j ↦ abs(image_height - j - 1)` maps `[0, image_height)` into itself, undoes itself and is injective, so it is a bijection |

Schlick's `r0` is computed from `refraction_ratio` (src/material.rs:117),
so on the front face it uses `1/ir`; the model follows the code.

## Left out

- Random number generation is left out:
  - `random`, `random_range` and the rejection loops of
    `random_in_unit_sphere` and `random_in_unit_disk`;
  - `random_hemisphere`;
  - the uniform draw of the dielectric;
  - the pixel jitter in `main`.

  Their samples are parameters. The model does not constrain a sample
  (for example, to lie inside the unit sphere), so every property holds
  for any sample.
- `random_scene` builds the world from random draws and is not modelled.
- `main` is not modelled: its thread pool, channel, image buffer and
  `img.save` are concurrency and I/O. Of `main`, only the row flip is
  modelled.
- `HittableList` is not part of this model. `ray_color` sees the scene
  only as an oracle `Scene`, which `ValidScene` requires to report unit
  normals and usable materials. Spheres of non-zero radius with a
  well-defined material produce such records, given a true square root.
  Nothing requires the reported record to be the nearest hit.
- The material pointers (`Rc<dyn Material>` and `Arc<dyn Material>`)
  become a closed `Material` datatype held by value.
- Floating point is not modelled:
  - rounding, NaN and infinities;
  - the square root of a negative number;
  - `NaN as u8`;
  - the bit-exact `unit_vector` test value at src/vec3.rs:287.

  `f64::INFINITY` as `t_max` is the `Unbounded` bound.
- `to_radians` and `tan` in `Camera::new` are replaced by the input `h`.
  `sqrt` is an input as well. Properties that need a true square root
  require `SqrtAt` or `IsSqrt`.
- Spheres.Hit: requires a non-zero direction and radius. The source would
  divide by zero there and produce NaN.
- Materials.DielectricScatter: requires `DielectricDefined`: `ir != 0` on
  the front face and `ir != -1`. This keeps `1/ir` and the Schlick
  quotient finite.
- Materials.MetalScatter: requires a direction of non-zero length. The
  dielectric needs the same, for `unit_vector`.
- Cameras.NewCameraFields: the camera lemmas require `CameraDefined`.
  This means `lookfrom != lookat`, and `vup` not parallel to the view
  direction.
- Colors.ChannelIsFloor: requires `samples_per_pixel != 0`. The `i32` to
  `f64` conversion is exact and is modelled as such.
- Render.RayColor: requires a non-zero ray direction while depth
  remains. Each bounce uses the draws `draws(depth)` instead of a fresh
  generator state.
- Materials.DielectricDirectionLength: states a squared length of at
  least 1. A reflected direction has exactly unit length; a refracted one
  has unit length only when the perpendicular part is no longer than 1.
- The `scatter` out-parameters (`&mut attenuation`, `&mut scattered`)
  become method results. The record passed to `scatter` is the `Hit`
  value of the `HitRecord`.
