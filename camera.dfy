/**
 * `Camera`: the fields `look_at` and `look_at_temporal` compute, and
 * `get_ray`. The tangent of the half field of view and the constant pi
 * are inputs; so are the unit-disk sample and the shutter draw of
 * `get_ray`.
 */
module Cameras {
  import opened Numerics
  import opened Vectors
  import opened Rays

  datatype Camera = Camera(
    origin: Vec3,
    lowerLeftCorner: Vec3,
    horizontal: Vec3,
    vertical: Vec3,
    u: Vec3,
    v: Vec3,
    w: Vec3,
    lensRadius: real,
    time0: real,
    time1: real)

  /** The view is defined: the camera is not at its target and `up` is not along the view axis. */
  predicate ViewDefined(pos: Vec3, target: Vec3, up: Vec3)
    requires SqrtTotal()
  {
    Sub(pos, target) != Zero && Cross(up, UnitVector(Sub(pos, target))) != Zero
  }

  /** `(u, v, w)` is an orthonormal frame. */
  predicate Orthonormal(u: Vec3, v: Vec3, w: Vec3) {
    && SquaredLength(u) == 1.0 && SquaredLength(v) == 1.0 && SquaredLength(w) == 1.0
    && Dot(u, v) == 0.0 && Dot(v, w) == 0.0 && Dot(u, w) == 0.0
  }

  /** The camera's frame: `w` points back from the target, `u` to the right, `v` up. */
  datatype Frame = Frame(u: Vec3, v: Vec3, w: Vec3)

  function ViewFrame(pos: Vec3, target: Vec3, up: Vec3): (f: Frame)
    requires SqrtTotal() && ViewDefined(pos, target, up)
    ensures f.w == UnitVector(Sub(pos, target))
    ensures Orthonormal(f.u, f.v, f.w)
  {
    var w := UnitVector(Sub(pos, target));
    var u := UnitVector(Cross(up, w));
    FrameIsOrthonormal(up, w);
    Frame(u, Cross(w, u), w)
  }

  /** Half the height of the view at unit distance: `tan(fovy/2)`, `fovy` in degrees. */
  function HalfHeight(fovy: real, tan: real -> real, pi: real): real {
    var theta := fovy * pi / 180.0;
    tan(0.5 * theta)
  }

  /**
   * `look_at_temporal(pos, target, up, fovy, aspect, aperture, focus_dist,
   * t0, t1)`, with `tan` the tangent function and `pi` the constant.
   */
  function LookAtTemporal(pos: Vec3, target: Vec3, up: Vec3, fovy: real, aspect: real,
                          aperture: real, focusDist: real, t0: real, t1: real,
                          tan: real -> real, pi: real): (c: Camera)
    requires SqrtTotal() && ViewDefined(pos, target, up)
    ensures c.origin == pos && c.lensRadius == 0.5 * aperture && c.time0 == t0 && c.time1 == t1
    ensures Frame(c.u, c.v, c.w) == ViewFrame(pos, target, up)
    // The viewport spans `2 * half_width` focus distances along `u` and `2 * half_height` along `v`,
    ensures c.horizontal == ScalarMul(2.0 * (aspect * HalfHeight(fovy, tan, pi)) * focusDist, c.u)
    ensures c.vertical == ScalarMul(2.0 * HalfHeight(fovy, tan, pi) * focusDist, c.v)
    // and its corner sits half of each span and one focus distance back from `pos`.
    ensures c.lowerLeftCorner
         == Sub(Sub(Sub(pos, ScalarMul(aspect * HalfHeight(fovy, tan, pi) * focusDist, c.u)),
                    ScalarMul(HalfHeight(fovy, tan, pi) * focusDist, c.v)),
                ScalarMul(focusDist, c.w))
  {
    var halfHeight := HalfHeight(fovy, tan, pi);
    var f := ViewFrame(pos, target, up);
    CameraAround(pos, f.u, f.v, f.w, aspect * halfHeight, halfHeight, focusDist, 0.5 * aperture, t0, t1)
  }

  /**
   * The fields `look_at_temporal` sets around the frame `(u, v, w)`, for a
   * view `2 halfWidth` by `2 halfHeight` at unit distance.
   */
  function CameraAround(pos: Vec3, u: Vec3, v: Vec3, w: Vec3, halfWidth: real, halfHeight: real,
                        focusDist: real, lensRadius: real, t0: real, t1: real): (c: Camera)
    // These name the fields as whole terms, so that the caller proves its contract
    // without unfolding the frame's nonlinear orthonormality facts.
    ensures c.origin == pos && c.u == u && c.v == v && c.w == w
    ensures c.lensRadius == lensRadius && c.time0 == t0 && c.time1 == t1
    ensures c.horizontal == ScalarMul(2.0 * halfWidth * focusDist, u)
    ensures c.vertical == ScalarMul(2.0 * halfHeight * focusDist, v)
    ensures c.lowerLeftCorner
         == Sub(Sub(Sub(pos, ScalarMul(halfWidth * focusDist, u)), ScalarMul(halfHeight * focusDist, v)),
                ScalarMul(focusDist, w))
  {
    Camera(
      pos,
      Sub(Sub(Sub(pos, ScalarMul(halfWidth * focusDist, u)), ScalarMul(halfHeight * focusDist, v)),
          ScalarMul(focusDist, w)),
      ScalarMul(2.0 * halfWidth * focusDist, u),
      ScalarMul(2.0 * halfHeight * focusDist, v),
      u, v, w, lensRadius, t0, t1)
  }

  /** `u = unit(up × w)` and `v = w × u` complete the unit vector `w` to an orthonormal frame. */
  lemma FrameIsOrthonormal(up: Vec3, w: Vec3)
    requires SqrtTotal() && SquaredLength(w) == 1.0 && Cross(up, w) != Zero
    ensures Orthonormal(UnitVector(Cross(up, w)), Cross(w, UnitVector(Cross(up, w))), w)
  {
    var c := Cross(up, w);
    var u := UnitVector(c);
    var v := Cross(w, u);
    var len := Length(c);
    assert MulScalar(u, len) == c;
    assert Dot(c, w) == Dot(u, w) * len;
    CrossLength(w, u);
    assert Square(Dot(w, u)) == 0.0;
  }

  /** `look_at`: as `look_at_temporal` with the shutter fixed at time 0. */
  function LookAt(pos: Vec3, target: Vec3, up: Vec3, fovy: real, aspect: real,
                  aperture: real, focusDist: real, tan: real -> real, pi: real): (c: Camera)
    requires SqrtTotal() && ViewDefined(pos, target, up)
    ensures c.time0 == 0.0 && c.time1 == 0.0
    ensures c == LookAtTemporal(pos, target, up, fovy, aspect, aperture, focusDist, 0.0, 0.0, tan, pi)
  {
    LookAtTemporal(pos, target, up, fovy, aspect, aperture, focusDist, 0.0, 0.0, tan, pi)
  }

  /** The lens offset of `get_ray`: the disk sample scaled by the lens radius, in the `u`/`v` plane. */
  function LensOffset(cam: Camera, disk: Vec3): Vec3 {
    var rd := ScalarMul(cam.lensRadius, disk);
    Add(MulScalar(cam.u, rd.x), MulScalar(cam.v, rd.y))
  }

  /**
   * `get_ray(s, t)` with `disk` the unit-disk sample and `timeDraw` the
   * shutter draw: from the lens point towards the point `(s, t)` of the
   * focus plane, at a time between `time0` and `time1`.
   */
  function GetRay(cam: Camera, s: real, t: real, disk: Vec3, timeDraw: real): (r: Ray)
    ensures r.a == Add(cam.origin, LensOffset(cam, disk))
    ensures Add(r.a, r.b)
         == Add(Add(cam.lowerLeftCorner, ScalarMul(s, cam.horizontal)), ScalarMul(t, cam.vertical))
    ensures r.t - cam.time0 == timeDraw * (cam.time1 - cam.time0)
  {
    var offset := LensOffset(cam, disk);
    var time := cam.time0 + timeDraw * (cam.time1 - cam.time0);
    Ray(Add(cam.origin, offset),
        Sub(Sub(Add(Add(cam.lowerLeftCorner, ScalarMul(s, cam.horizontal)), ScalarMul(t, cam.vertical)), cam.origin),
            offset),
        time)
  }

  /**
   * The focus plane is centred on the view axis: the middle of the image,
   * `lower_left_corner + horizontal/2 + vertical/2`, lies `focus_dist`
   * in front of `pos`, along `-w`.
   */
  lemma ViewCentredOnAxis(pos: Vec3, target: Vec3, up: Vec3, fovy: real, aspect: real,
                          aperture: real, focusDist: real, t0: real, t1: real,
                          tan: real -> real, pi: real)
    requires SqrtTotal() && ViewDefined(pos, target, up)
    ensures var c := LookAtTemporal(pos, target, up, fovy, aspect, aperture, focusDist, t0, t1, tan, pi);
      Add(Add(c.lowerLeftCorner, ScalarMul(0.5, c.horizontal)), ScalarMul(0.5, c.vertical))
        == Sub(pos, ScalarMul(focusDist, c.w))
  {
    var c := LookAtTemporal(pos, target, up, fovy, aspect, aperture, focusDist, t0, t1, tan, pi);
    var hh := HalfHeight(fovy, tan, pi);
    CentreOfView(pos, c.u, c.v, c.w, aspect * hh, hh, focusDist);
  }

  /** Vector algebra behind `ViewCentredOnAxis`. */
  lemma CentreOfView(pos: Vec3, u: Vec3, v: Vec3, w: Vec3, a: real, b: real, d: real)
    ensures Add(Add(Sub(Sub(Sub(pos, ScalarMul(a * d, u)), ScalarMul(b * d, v)), ScalarMul(d, w)),
                    ScalarMul(0.5, ScalarMul(2.0 * a * d, u))),
                ScalarMul(0.5, ScalarMul(2.0 * b * d, v)))
         == Sub(pos, ScalarMul(d, w))
  {
    assert 0.5 * (2.0 * a * d) == a * d && 0.5 * (2.0 * b * d) == b * d;
  }

  /** A draw in `[0, 1)` puts the ray's time inside the shutter interval. */
  lemma RayTimeInShutter(cam: Camera, s: real, t: real, disk: Vec3, timeDraw: real)
    requires 0.0 <= timeDraw < 1.0 && cam.time0 <= cam.time1
    ensures cam.time0 <= GetRay(cam, s, t, disk, timeDraw).t <= cam.time1
  {
    var d := cam.time1 - cam.time0;
    ProductNonNegative(1.0 - timeDraw, d);
    ProductNonNegative(timeDraw, d);
    assert d - timeDraw * d == (1.0 - timeDraw) * d;
  }

  /** Every ray of a `look_at` camera is at time 0. */
  lemma LookAtRaysAtTimeZero(pos: Vec3, target: Vec3, up: Vec3, fovy: real, aspect: real,
                             aperture: real, focusDist: real, tan: real -> real, pi: real,
                             s: real, t: real, disk: Vec3, timeDraw: real)
    requires SqrtTotal() && ViewDefined(pos, target, up)
    ensures GetRay(LookAt(pos, target, up, fovy, aspect, aperture, focusDist, tan, pi), s, t, disk, timeDraw).t == 0.0
  {
  }

  /**
   * For a camera with an orthonormal frame (as `look_at_temporal` builds),
   * the lens point lies within the lens radius of the camera origin, since
   * the sample is in the unit disk.
   */
  lemma RayStartsOnLens(cam: Camera, s: real, t: real, disk: Vec3, timeDraw: real)
    requires Orthonormal(cam.u, cam.v, cam.w)
    requires disk.z == 0.0 && SquaredLength(disk) < 1.0
    ensures SquaredLength(Sub(GetRay(cam, s, t, disk, timeDraw).a, cam.origin)) <= Square(cam.lensRadius)
  {
    var r := GetRay(cam, s, t, disk, timeDraw);
    var k := cam.lensRadius;
    var a := k * disk.x;
    var b := k * disk.y;
    assert Sub(r.a, cam.origin) == LensOffset(cam, disk);
    OffsetLength(cam.u, cam.v, a, b);
    SquareOfProduct(k, disk.x);
    SquareOfProduct(k, disk.y);
    SquareNonNegative(disk.z);
    SquareNonNegative(k);
    assert Square(disk.x) + Square(disk.y) <= 1.0;
    assert Square(a) + Square(b) == Square(k) * (Square(disk.x) + Square(disk.y));
    ProductNonNegative(Square(k), 1.0 - (Square(disk.x) + Square(disk.y)));
  }

  /** A camera with lens radius 0 is a pinhole: every ray starts at its origin. */
  lemma PinholeRaysStartAtOrigin(cam: Camera, s: real, t: real, disk: Vec3, timeDraw: real)
    requires cam.lensRadius == 0.0
    ensures GetRay(cam, s, t, disk, timeDraw).a == cam.origin
  {
    PinholeHasNoOffset(cam, disk);
  }

  lemma PinholeHasNoOffset(cam: Camera, disk: Vec3)
    requires cam.lensRadius == 0.0
    ensures LensOffset(cam, disk) == Zero
  {
  }

  /** With aperture 0, `look_at_temporal` builds a pinhole camera at `pos`. */
  lemma ZeroApertureRaysStartAtPos(pos: Vec3, target: Vec3, up: Vec3, fovy: real, aspect: real,
                                                      focusDist: real, t0: real, t1: real,
                                                      tan: real -> real, pi: real,
                                                      s: real, t: real, disk: Vec3, timeDraw: real)
    requires SqrtTotal() && ViewDefined(pos, target, up)
    ensures GetRay(LookAtTemporal(pos, target, up, fovy, aspect, 0.0, focusDist, t0, t1, tan, pi),
                   s, t, disk, timeDraw).a == pos
  {
    var cam := LookAtTemporal(pos, target, up, fovy, aspect, 0.0, focusDist, t0, t1, tan, pi);
    PinholeRaysStartAtOrigin(cam, s, t, disk, timeDraw);
  }

  lemma SquareOfProduct(u: real, v: real)
    ensures Square(u * v) == Square(u) * Square(v)
  {
  }

  /** In an orthonormal pair, `|u*a + v*b|² = a² + b²`. */
  lemma OffsetLength(u: Vec3, v: Vec3, a: real, b: real)
    requires SquaredLength(u) == 1.0 && SquaredLength(v) == 1.0 && Dot(u, v) == 0.0
    ensures SquaredLength(Add(MulScalar(u, a), MulScalar(v, b))) == Square(a) + Square(b)
  {
    var o := Add(MulScalar(u, a), MulScalar(v, b));
    assert o == Vec3(u.x * a + v.x * b, u.y * a + v.y * b, u.z * a + v.z * b);
    OffsetExpansion(u, v, a, b);
  }

  /** The coordinate form of `OffsetLength`. */
  lemma OffsetExpansion(u: Vec3, v: Vec3, a: real, b: real)
    requires SquaredLength(u) == 1.0 && SquaredLength(v) == 1.0 && Dot(u, v) == 0.0
    ensures Square(u.x * a + v.x * b) + Square(u.y * a + v.y * b) + Square(u.z * a + v.z * b) == Square(a) + Square(b)
  {
    var lu, lv, d := u.x * u.x + u.y * u.y + u.z * u.z, v.x * v.x + v.y * v.y + v.z * v.z, u.x * v.x + u.y * v.y + u.z * v.z;
    assert lu == 1.0 && lv == 1.0 && d == 0.0;
    OffsetPolynomial(u.x, u.y, u.z, v.x, v.y, v.z, a, b);
    MulCongruence(a * a, a * a, lu, 1.0);
    MulCongruence(2.0 * a * b, 2.0 * a * b, d, 0.0);
    MulCongruence(b * b, b * b, lv, 1.0);
  }

  lemma OffsetPolynomial(ux: real, uy: real, uz: real, vx: real, vy: real, vz: real, a: real, b: real)
    ensures (ux * a + vx * b) * (ux * a + vx * b) + (uy * a + vy * b) * (uy * a + vy * b)
          + (uz * a + vz * b) * (uz * a + vz * b)
         == (a * a) * (ux * ux + uy * uy + uz * uz) + (2.0 * a * b) * (ux * vx + uy * vy + uz * vz)
          + (b * b) * (vx * vx + vy * vy + vz * vz)
  {
  }
}
