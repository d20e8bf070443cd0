/** The thin-lens camera (src/camera.rs). `tan(to_radians(vfov) / 2)` is
    passed in as `h`, and the point on the unit disk that `get_ray` draws
    is passed in as `disk`. */
module Cameras {
  import opened Vectors
  import opened Rays

  datatype Camera = Camera(
    origin: Point3,
    horizontal: Vec3,
    vertical: Vec3,
    lowerLeftCorner: Point3,
    w: Vec3,
    u: Vec3,
    v: Vec3,
    lensRadius: real)

  /** The source normalises `lookfrom - lookat` and `vup x w`; both must be
      non-zero for the camera to be finite. */
  predicate CameraDefined(lookfrom: Point3, lookat: Point3, vup: Vec3, sqrt: real -> real) {
    var back := Sub(lookfrom, lookat);
    Length(back, sqrt) != 0.0 && Length(Cross(vup, UnitVector(back, sqrt)), sqrt) != 0.0
  }

  /** `Camera::new`: an orthonormal frame `(u, v, w)` with `w` pointing
      back from the target, and a viewport of height `2h` and width
      `aspectRatio * 2h` placed on the focus plane. */
  function NewCamera(lookfrom: Point3, lookat: Point3, vup: Vec3, h: real, aspectRatio: real,
                     aperture: real, focusDist: real, sqrt: real -> real): Camera
    requires CameraDefined(lookfrom, lookat, vup, sqrt)
  {
    var viewportHeight := 2.0 * h;
    var viewportWidth := aspectRatio * viewportHeight;
    var w := UnitVector(Sub(lookfrom, lookat), sqrt);
    var u := UnitVector(Cross(vup, w), sqrt);
    var v := Cross(w, u);
    var origin := lookfrom;
    var horizontal := Scale(focusDist * viewportWidth, u);
    var vertical := Scale(focusDist * viewportHeight, v);
    var lowerLeftCorner :=
      Sub(Sub(Sub(origin, DivScalar(horizontal, 2.0)), DivScalar(vertical, 2.0)), Scale(focusDist, w));
    Camera(origin, horizontal, vertical, lowerLeftCorner, w, u, v, aperture / 2.0)
  }

  /** The camera sits at `lookfrom`, its lens radius is half the aperture,
      and the viewport edges are `u` and `v` scaled to the viewport size at
      the focus distance. */
  lemma NewCameraFields(lookfrom: Point3, lookat: Point3, vup: Vec3, h: real, aspectRatio: real,
                        aperture: real, focusDist: real, sqrt: real -> real)
    requires CameraDefined(lookfrom, lookat, vup, sqrt)
    ensures var cam := NewCamera(lookfrom, lookat, vup, h, aspectRatio, aperture, focusDist, sqrt);
      && cam.origin == lookfrom
      && cam.lensRadius == aperture / 2.0
      && cam.horizontal == Scale(focusDist * aspectRatio * 2.0 * h, cam.u)
      && cam.vertical == Scale(focusDist * 2.0 * h, cam.v)
  {
    var cam := NewCamera(lookfrom, lookat, vup, h, aspectRatio, aperture, focusDist, sqrt);
    assert focusDist * (aspectRatio * (2.0 * h)) == focusDist * aspectRatio * 2.0 * h;
  }

  /** `v = w x u` is orthogonal to both `w` and `u`, and `u` is orthogonal
      to `w`. */
  lemma {:induction false} CameraFrameOrthogonal(lookfrom: Point3, lookat: Point3, vup: Vec3, h: real,
                                                 aspectRatio: real, aperture: real, focusDist: real,
                                                 sqrt: real -> real)
    requires CameraDefined(lookfrom, lookat, vup, sqrt)
    ensures var cam := NewCamera(lookfrom, lookat, vup, h, aspectRatio, aperture, focusDist, sqrt);
      Dot(cam.v, cam.w) == 0.0 && Dot(cam.v, cam.u) == 0.0 && Dot(cam.u, cam.w) == 0.0
  {
    var cam := NewCamera(lookfrom, lookat, vup, h, aspectRatio, aperture, focusDist, sqrt);
    CrossOrthogonal(cam.w, cam.u);
    var c := Cross(vup, cam.w);
    CrossOrthogonal(vup, cam.w);
    var len := Length(c, sqrt);
    DivScalarInverse(c, len);
    assert cam.u == Scale(1.0 / len, c);
    DotScaleLeft(1.0 / len, c, cam.w);
  }

  /** With a true square root the frame is orthonormal: `w`, `u` and
      `v` all have unit length. */
  lemma {:induction false} CameraFrameUnit(lookfrom: Point3, lookat: Point3, vup: Vec3, h: real,
                                           aspectRatio: real, aperture: real, focusDist: real,
                                           sqrt: real -> real)
    requires CameraDefined(lookfrom, lookat, vup, sqrt)
    requires SqrtAt(sqrt, LengthSquared(Sub(lookfrom, lookat)))
    requires SqrtAt(sqrt, LengthSquared(Cross(vup, UnitVector(Sub(lookfrom, lookat), sqrt))))
    ensures var cam := NewCamera(lookfrom, lookat, vup, h, aspectRatio, aperture, focusDist, sqrt);
      LengthSquared(cam.w) == 1.0 && LengthSquared(cam.u) == 1.0 && LengthSquared(cam.v) == 1.0
  {
    var cam := NewCamera(lookfrom, lookat, vup, h, aspectRatio, aperture, focusDist, sqrt);
    UnitVectorLength(Sub(lookfrom, lookat), sqrt);
    UnitVectorLength(Cross(vup, cam.w), sqrt);
    CameraFrameOrthogonal(lookfrom, lookat, vup, h, aspectRatio, aperture, focusDist, sqrt);
    DotSymmetric(cam.u, cam.w);
    UnitCross(cam.w, cam.u);
  }

  /** The cross product of orthogonal unit vectors is a unit vector. */
  lemma UnitCross(a: Vec3, b: Vec3)
    requires LengthSquared(a) == 1.0 && LengthSquared(b) == 1.0 && Dot(a, b) == 0.0
    ensures LengthSquared(Cross(a, b)) == 1.0
  {
    CrossLength(a, b);
  }

  /** The lower-left corner is half a viewport left of and below the point
      `focusDist` in front of the camera, so the viewport is centred on
      that point. */
  lemma ViewportCentre(lookfrom: Point3, lookat: Point3, vup: Vec3, h: real, aspectRatio: real,
                       aperture: real, focusDist: real, sqrt: real -> real)
    requires CameraDefined(lookfrom, lookat, vup, sqrt)
    ensures var cam := NewCamera(lookfrom, lookat, vup, h, aspectRatio, aperture, focusDist, sqrt);
      Add(Add(cam.lowerLeftCorner, Scale(0.5, cam.horizontal)), Scale(0.5, cam.vertical))
        == Sub(cam.origin, Scale(focusDist, cam.w))
  {
  }

  /** `Camera::get_ray`: the ray leaves from a point of the lens, offset by
      `lensRadius * disk` along `u` and `v`, towards the viewport point at
      `(s, t)`. */
  function GetRay(cam: Camera, s: real, t: real, disk: Vec3): Ray {
    var offset := LensOffset(cam, disk);
    Ray(Add(cam.origin, offset), Sub(Sub(ViewportPoint(cam, s, t), cam.origin), offset))
  }

  /** `u * rd.x + v * rd.y` with `rd = lensRadius * disk`. */
  function LensOffset(cam: Camera, disk: Vec3): Vec3 {
    var rd := Scale(cam.lensRadius, disk);
    Add(MulScalar(cam.u, rd.x), MulScalar(cam.v, rd.y))
  }

  /** `lower_left_corner + s * horizontal + t * vertical`. */
  function ViewportPoint(cam: Camera, s: real, t: real): Point3 {
    Add(Add(cam.lowerLeftCorner, Scale(s, cam.horizontal)), Scale(t, cam.vertical))
  }

  /** The lens offset is `lensRadius * disk.x` along `u` plus
      `lensRadius * disk.y` along `v`; it vanishes for a pinhole. */
  lemma LensOffsetComponents(cam: Camera, disk: Vec3)
    ensures LensOffset(cam, disk)
              == Add(Scale(cam.lensRadius * disk.x, cam.u), Scale(cam.lensRadius * disk.y, cam.v))
    ensures cam.lensRadius == 0.0 ==> LensOffset(cam, disk) == Zero
  {
    var rd := Scale(cam.lensRadius, disk);
    assert rd.x == cam.lensRadius * disk.x && rd.y == cam.lensRadius * disk.y;
    MulScalarCommutes(cam.u, rd.x);
    MulScalarCommutes(cam.v, rd.y);
    if cam.lensRadius == 0.0 {
      assert rd.x == 0.0 && rd.y == 0.0;
      assert Scale(rd.x, cam.u) == Zero && Scale(rd.y, cam.v) == Zero;
    }
  }

  /** Every ray for `(s, t)` leaves from the lens and, one direction length
      later, reaches the same viewport point on the focus plane, whatever
      the lens sample: this is what keeps the focus plane sharp. */
  lemma {:induction false} RaysConverge(cam: Camera, s: real, t: real, disk: Vec3)
    ensures GetRay(cam, s, t, disk).origin == Add(cam.origin, LensOffset(cam, disk))
    ensures Add(GetRay(cam, s, t, disk).origin, GetRay(cam, s, t, disk).direction)
              == ViewportPoint(cam, s, t)
  {
    ReturnToTarget(cam.origin, LensOffset(cam, disk), ViewportPoint(cam, s, t));
  }

  /** `(o + d) + ((p - o) - d) == p`. */
  lemma ReturnToTarget(o: Vec3, d: Vec3, p: Vec3)
    ensures Add(Add(o, d), Sub(Sub(p, o), d)) == p
  {
  }

  /** A pinhole camera (zero lens radius) shoots every ray from its origin. */
  lemma {:induction false} PinholeOrigin(cam: Camera, s: real, t: real, disk: Vec3)
    requires cam.lensRadius == 0.0
    ensures GetRay(cam, s, t, disk).origin == cam.origin
  {
    var offset := LensOffset(cam, disk);
    assert offset == Zero by {
      LensOffsetComponents(cam, disk);
    }
    assert GetRay(cam, s, t, disk).origin == Add(cam.origin, offset);
    AddZero(cam.origin);
  }

  /** With zero aperture every ray starts at `lookfrom`; the centre of the
      image, `(0.5, 0.5)`, is aimed at the point `focusDist` in front of it. */
  lemma {:induction false} PinholeCamera(lookfrom: Point3, lookat: Point3, vup: Vec3, h: real,
                                         aspectRatio: real, focusDist: real, sqrt: real -> real,
                                         s: real, t: real, disk: Vec3)
    requires CameraDefined(lookfrom, lookat, vup, sqrt)
    ensures var cam := NewCamera(lookfrom, lookat, vup, h, aspectRatio, 0.0, focusDist, sqrt);
      GetRay(cam, s, t, disk).origin == lookfrom
    ensures var cam := NewCamera(lookfrom, lookat, vup, h, aspectRatio, 0.0, focusDist, sqrt);
      Add(GetRay(cam, 0.5, 0.5, disk).origin, GetRay(cam, 0.5, 0.5, disk).direction)
        == Sub(lookfrom, Scale(focusDist, cam.w))
  {
    var cam := NewCamera(lookfrom, lookat, vup, h, aspectRatio, 0.0, focusDist, sqrt);
    NewCameraFields(lookfrom, lookat, vup, h, aspectRatio, 0.0, focusDist, sqrt);
    PinholeOrigin(cam, s, t, disk);
    RaysConverge(cam, 0.5, 0.5, disk);
    ViewportCentre(lookfrom, lookat, vup, h, aspectRatio, 0.0, focusDist, sqrt);
  }
}
