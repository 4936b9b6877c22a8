/**
 * `Sphere::hit`, `MovableSphere::center` and `MovableSphere::hit`. With
 * `oc = origin - center`, a point `origin + t*direction` is on the sphere
 * exactly when `a*t*t + 2*b*t + c == 0`, where `a = dot(d, d)`,
 * `b = dot(oc, d)` and `c = dot(oc, oc) - radius*radius`; the source tries
 * the smaller root `(-b - sqrt(b*b - a*c)) / a` first.
 */
module Spheres {
  import opened Numerics
  import opened Vectors
  import opened Rays
  import opened Hitables

  function QuadA(r: Ray): real {
    Dot(r.Direction(), r.Direction())
  }

  function QuadB(center: Vec3, r: Ray): real {
    Dot(Sub(r.Origin(), center), r.Direction())
  }

  function QuadC(center: Vec3, radius: real, r: Ray): real {
    var oc := Sub(r.Origin(), center);
    Dot(oc, oc) - Square(radius)
  }

  /** `b*b - a*c` */
  function Discriminant(center: Vec3, radius: real, r: Ray): real {
    Square(QuadB(center, r)) - QuadA(r) * QuadC(center, radius, r)
  }

  /** `p` lies on the sphere. */
  predicate OnSphere(p: Vec3, center: Vec3, radius: real) {
    SquaredLength(Sub(p, center)) == Square(radius)
  }

  /** The two roots, nearer first; they exist when the discriminant is positive. */
  function NearRoot(center: Vec3, radius: real, r: Ray): real
    requires SqrtTotal() && Discriminant(center, radius, r) > 0.0
  {
    NonDegenerate(center, radius, r);
    (-QuadB(center, r) - Sqrt(Discriminant(center, radius, r))) / QuadA(r)
  }

  function FarRoot(center: Vec3, radius: real, r: Ray): real
    requires SqrtTotal() && Discriminant(center, radius, r) > 0.0
  {
    NonDegenerate(center, radius, r);
    (-QuadB(center, r) + Sqrt(Discriminant(center, radius, r))) / QuadA(r)
  }

  /** The record built for an accepted root: the point, the outward normal `(p - center)/radius`, the material. */
  function RecordAt(center: Vec3, radius: real, material: Material, r: Ray, t: real): (rec: HitRecord)
    requires radius != 0.0
    ensures rec.t == t && rec.p == PointAtParameter(r, t) && rec.material == material
    ensures MulScalar(rec.normal, radius) == Sub(rec.p, center)
  {
    var p := PointAtParameter(r, t);
    HitRecord(t, p, DivScalar(Sub(p, center), radius), material)
  }

  predicate InOpenInterval(t: real, tMin: real, tMax: real) {
    t < tMax && t > tMin
  }

  /** The root `hit` accepts: the near one inside `(tMin, tMax)`, else the far one inside it, else none. */
  function ChooseRoot(near: real, far: real, tMin: real, tMax: real): (c: Option<real>)
    ensures c.Some? ==> (c.value == near || c.value == far) && InOpenInterval(c.value, tMin, tMax)
    ensures c.None? ==> !InOpenInterval(near, tMin, tMax) && !InOpenInterval(far, tMin, tMax)
  {
    if InOpenInterval(near, tMin, tMax) then Some(near)
    else if InOpenInterval(far, tMin, tMax) then Some(far)
    else None
  }

  /**
   * The body shared by `Sphere::hit` and `MovableSphere::hit`. The result
   * is the nearest point of the sphere strictly inside `(tMin, tMax)`; a
   * tangent ray (discriminant zero) is a miss.
   */
  function SphereHitAt(center: Vec3, radius: real, material: Material, r: Ray, tMin: real, tMax: real)
    : (h: Option<HitRecord>)
    requires SqrtTotal()
    ensures HonoursInterval(h, tMin, tMax)
    ensures h.Some? ==> h.value.p == PointAtParameter(r, h.value.t) && OnSphere(h.value.p, center, radius)
    ensures h.Some? ==> radius != 0.0 && h.value.normal == DivScalar(Sub(h.value.p, center), radius)
    ensures h.Some? ==> SquaredLength(h.value.normal) == 1.0 && h.value.material == material
    ensures Discriminant(center, radius, r) <= 0.0 ==> h.None?
  {
    if Discriminant(center, radius, r) > 0.0 then
      match ChooseRoot(NearRoot(center, radius, r), FarRoot(center, radius, r), tMin, tMax)
      case Some(temp) =>
        RootIsOnSphere(center, radius, r, temp);
        Some(RecordAt(center, radius, material, r, temp))
      case None => None
    else
      None
  }

  lemma SquareOfSum(u: real, v: real)
    ensures Square(u + v) == Square(u) + 2.0 * u * v + Square(v)
  {
  }

  lemma SquareOfProduct(u: real, v: real)
    ensures Square(u * v) == Square(u) * Square(v)
  {
  }

  /** Along the ray, the squared distance to the center minus `radius²` is the quadratic `a*t*t + 2*b*t + c`. */
  lemma SphereQuadratic(center: Vec3, radius: real, r: Ray, t: real)
    ensures SquaredLength(Sub(PointAtParameter(r, t), center)) - Square(radius)
         == QuadA(r) * Square(t) + 2.0 * QuadB(center, r) * t + QuadC(center, radius, r)
  {
    var o := Sub(r.Origin(), center);
    var d := r.Direction();
    var px, py, pz := o.x + t * d.x, o.y + t * d.y, o.z + t * d.z;
    assert Sub(PointAtParameter(r, t), center) == Vec3(px, py, pz);
    SquaredLengthOf(px, py, pz);
    MulCongruence(QuadA(r), d.x * d.x + d.y * d.y + d.z * d.z, Square(t), t * t);
    MulCongruence(2.0 * QuadB(center, r), 2.0 * (o.x * d.x + o.y * d.y + o.z * d.z), t, t);
    QuadraticExpansion(o.x, o.y, o.z, d.x, d.y, d.z, t);
  }

  /** The point at `t` is on the sphere exactly when `t` solves the quadratic. */
  lemma OnSphereIffRoot(center: Vec3, radius: real, r: Ray, t: real)
    ensures OnSphere(PointAtParameter(r, t), center, radius)
        <==> QuadA(r) * Square(t) + 2.0 * QuadB(center, r) * t + QuadC(center, radius, r) == 0.0
  {
    SphereQuadratic(center, radius, r, t);
  }

  lemma SquaredLengthOf(x: real, y: real, z: real)
    ensures SquaredLength(Vec3(x, y, z)) == x * x + y * y + z * z
  {
  }

  /** The polynomial identity behind `SphereQuadratic`, coordinate by coordinate. */
  lemma QuadraticExpansion(ox: real, oy: real, oz: real, dx: real, dy: real, dz: real, t: real)
    ensures (ox + t * dx) * (ox + t * dx) + (oy + t * dy) * (oy + t * dy) + (oz + t * dz) * (oz + t * dz)
         == (dx * dx + dy * dy + dz * dz) * (t * t)
          + 2.0 * (ox * dx + oy * dy + oz * dz) * t
          + (ox * ox + oy * oy + oz * oz)
  {
  }

  /**
   * `a * (a*t*t + 2*b*t + c) == (a*t + b)² - (b² - a*c)`: the quadratic
   * vanishes exactly at `a*t == -b ± sqrt(b² - a*c)`.
   */
  lemma QuadraticRoots(a: real, b: real, c: real, s: real, t: real)
    requires a != 0.0 && s >= 0.0 && Square(s) == Square(b) - a * c
    ensures a * Square(t) + 2.0 * b * t + c == 0.0 <==> (a * t == -b - s || a * t == -b + s)
  {
    var q := a * Square(t) + 2.0 * b * t + c;
    var u := a * t + b;
    calc {
      a * q;
    ==
      Square(u) - Square(s);
    ==
      (u - s) * (u + s);
    }
    if q == 0.0 {
      ProductZero(u - s, u + s);
    } else if a * t == -b - s || a * t == -b + s {
      assert (u - s) * (u + s) == 0.0;
      ProductZero(a, q);
    }
  }

  /**
   * A positive discriminant needs a nonzero direction (so `a != 0`) and a
   * nonzero radius (so the normal's division is defined): with radius 0,
   * `b² <= a*c` is Cauchy–Schwarz.
   */
  lemma NonDegenerate(center: Vec3, radius: real, r: Ray)
    requires Discriminant(center, radius, r) > 0.0
    ensures QuadA(r) > 0.0 && radius != 0.0
  {
    var oc := Sub(r.a, center);
    var d := r.b;
    if d == Zero {
      assert false;
    }
    SquaredLengthSign(d);
    assert QuadA(r) == SquaredLength(d) > 0.0;
    if radius == 0.0 {
      assert QuadC(center, radius, r) == SquaredLength(oc);
      MulCongruence(QuadA(r), SquaredLength(d), QuadC(center, radius, r), SquaredLength(oc));
      CauchySchwarz(oc, d);
      assert false;
    }
  }

  /** Lagrange's identity gives `dot(u, v)² <= |u|² |v|²`. */
  lemma CauchySchwarz(u: Vec3, v: Vec3)
    ensures Square(Dot(u, v)) <= SquaredLength(u) * SquaredLength(v)
  {
    var lu := u.x * u.x + u.y * u.y + u.z * u.z;
    var lv := v.x * v.x + v.y * v.y + v.z * v.z;
    var d := u.x * v.x + u.y * v.y + u.z * v.z;
    MulCongruence(SquaredLength(u), lu, SquaredLength(v), lv);
    MulCongruence(Dot(u, v), d, Dot(u, v), d);
    Lagrange(u.x, u.y, u.z, v.x, v.y, v.z);
    SquareNonNegative(u.y * v.z - u.z * v.y);
    SquareNonNegative(u.z * v.x - u.x * v.z);
    SquareNonNegative(u.x * v.y - u.y * v.x);
  }

  lemma RootIsOnSphere(center: Vec3, radius: real, r: Ray, t: real)
    requires SqrtTotal() && Discriminant(center, radius, r) > 0.0
    requires t == NearRoot(center, radius, r) || t == FarRoot(center, radius, r)
    ensures OnSphere(PointAtParameter(r, t), center, radius)
    ensures radius != 0.0 && SquaredLength(DivScalar(Sub(PointAtParameter(r, t), center), radius)) == 1.0
  {
    RootOfQuadratic(center, radius, r, t);
    OnSphereIffRoot(center, radius, r, t);
    NonDegenerate(center, radius, r);
    UnitNormal(Sub(PointAtParameter(r, t), center), radius);
  }

  /** The near and far roots solve the quadratic. */
  lemma RootOfQuadratic(center: Vec3, radius: real, r: Ray, t: real)
    requires SqrtTotal() && Discriminant(center, radius, r) > 0.0
    requires t == NearRoot(center, radius, r) || t == FarRoot(center, radius, r)
    ensures QuadA(r) * Square(t) + 2.0 * QuadB(center, r) * t + QuadC(center, radius, r) == 0.0
  {
    NonDegenerate(center, radius, r);
    RootSolves(QuadA(r), QuadB(center, r), QuadC(center, radius, r), Sqrt(Discriminant(center, radius, r)), t);
  }

  /** A point at distance `radius` from the center, divided by `radius`, has unit length. */
  lemma UnitNormal(q: Vec3, radius: real)
    requires radius != 0.0 && SquaredLength(q) == Square(radius)
    ensures SquaredLength(DivScalar(q, radius)) == 1.0
  {
    var k := Recip(radius);
    assert DivScalar(q, radius) == MulScalar(q, k);
    ScaledSquaredLength(q, k);
    MulCongruence(SquaredLength(q), Square(radius), Square(k), Square(k));
    SquareOfProduct(radius, k);
    assert radius * k == 1.0;
  }

  /** `|v k|² == |v|² k²` */
  lemma ScaledSquaredLength(v: Vec3, k: real)
    ensures SquaredLength(MulScalar(v, k)) == SquaredLength(v) * Square(k)
  {
    MulCongruence(SquaredLength(v), v.x * v.x + v.y * v.y + v.z * v.z, Square(k), k * k);
    ScaledSumOfSquares(v.x, v.y, v.z, k);
  }

  lemma ScaledSumOfSquares(a: real, b: real, c: real, k: real)
    ensures (a * a + b * b + c * c) * (k * k) == (a * k) * (a * k) + (b * k) * (b * k) + (c * k) * (c * k)
  {
  }

  /** The nearer root comes first: when the discriminant is positive the near root is at most the far one. */
  lemma RootsOrdered(center: Vec3, radius: real, r: Ray)
    requires SqrtTotal() && Discriminant(center, radius, r) > 0.0
    ensures NearRoot(center, radius, r) <= FarRoot(center, radius, r)
  {
    NonDegenerate(center, radius, r);
    var a := QuadA(r);
    var b := QuadB(center, r);
    var s := Sqrt(Discriminant(center, radius, r));
    var k := Recip(a);
    assert NearRoot(center, radius, r) == (-b - s) * k;
    assert FarRoot(center, radius, r) == (-b + s) * k;
    assert (-b + s) * k - (-b - s) * k == 2.0 * s * k;
  }

  /** Every point of the ray on the sphere is at one of the two roots. */
  lemma CrossingIsRoot(center: Vec3, radius: real, r: Ray, t: real)
    requires SqrtTotal() && Discriminant(center, radius, r) > 0.0
    requires OnSphere(PointAtParameter(r, t), center, radius)
    ensures t == NearRoot(center, radius, r) || t == FarRoot(center, radius, r)
  {
    NonDegenerate(center, radius, r);
    var a := QuadA(r);
    var b := QuadB(center, r);
    var s := Sqrt(Discriminant(center, radius, r));
    OnSphereIffRoot(center, radius, r, t);
    SolutionIsRoot(a, b, QuadC(center, radius, r), s, t);
  }

  /** Each of `(-b ± s) / a` solves the quadratic. */
  lemma RootSolves(a: real, b: real, c: real, s: real, t: real)
    requires a != 0.0 && s >= 0.0 && Square(s) == Square(b) - a * c
    requires t == (-b - s) / a || t == (-b + s) / a
    ensures a * Square(t) + 2.0 * b * t + c == 0.0
  {
    assert a * t == -b - s || a * t == -b + s;
    QuadraticRoots(a, b, c, s, t);
  }

  /** Every solution of the quadratic is one of `(-b ± s) / a`. */
  lemma SolutionIsRoot(a: real, b: real, c: real, s: real, t: real)
    requires a != 0.0 && s >= 0.0 && Square(s) == Square(b) - a * c
    requires a * Square(t) + 2.0 * b * t + c == 0.0
    ensures t == (-b - s) / a || t == (-b + s) / a
  {
    QuadraticRoots(a, b, c, s, t);
    assert t == (a * t) / a;
  }

  /**
   * The returned hit is the nearest point of the sphere strictly inside
   * the interval: when the discriminant is positive, any crossing there
   * produces a hit no farther away.
   */
  lemma SphereHitIsNearest(center: Vec3, radius: real, material: Material, r: Ray,
                                              tMin: real, tMax: real, t: real)
    requires SqrtTotal() && Discriminant(center, radius, r) > 0.0
    requires tMin < t < tMax && OnSphere(PointAtParameter(r, t), center, radius)
    ensures SphereHitAt(center, radius, material, r, tMin, tMax).Some?
    ensures SphereHitAt(center, radius, material, r, tMin, tMax).value.t <= t
  {
    CrossingIsRoot(center, radius, r, t);
    RootsOrdered(center, radius, r);
  }

  /** The smaller root wins whenever it is in the interval; the larger one is taken only otherwise. */
  lemma SphereHitRootOrder(center: Vec3, radius: real, material: Material, r: Ray,
                                              tMin: real, tMax: real)
    requires SqrtTotal() && Discriminant(center, radius, r) > 0.0
    ensures var h := SphereHitAt(center, radius, material, r, tMin, tMax);
            var near := NearRoot(center, radius, r);
            var far := FarRoot(center, radius, r);
            && (InOpenInterval(near, tMin, tMax) ==> h.Some? && h.value.t == near)
            && (!InOpenInterval(near, tMin, tMax) && InOpenInterval(far, tMin, tMax) ==> h.Some? && h.value.t == far)
            && (!InOpenInterval(near, tMin, tMax) && !InOpenInterval(far, tMin, tMax) ==> h.None?)
  {
  }

  /** Narrowing the interval to `(tMin, c)` keeps the chosen root if it lies before `c`, and chooses none otherwise. */
  lemma ChooseRootNarrows(near: real, far: real, tMin: real, tMax: real, c: real)
    requires near <= far && c <= tMax
    ensures var wide := ChooseRoot(near, far, tMin, tMax);
            ChooseRoot(near, far, tMin, c) == if wide.Some? && wide.value < c then wide else None
  {
  }

  /**
   * Querying a narrower interval `(tMin, c)` finds the hit of the wider
   * one if it lies before `c`, and nothing otherwise: the far root is only
   * reached when the near one is at or below `tMin`.
   */
  lemma SphereHitNarrows(center: Vec3, radius: real, material: Material, r: Ray,
                                            tMin: real, tMax: real, c: real)
    requires SqrtTotal() && c <= tMax
    ensures SphereHitAt(center, radius, material, r, tMin, c)
         == Narrowed(SphereHitAt(center, radius, material, r, tMin, tMax), c)
  {
    if Discriminant(center, radius, r) > 0.0 {
      var near := NearRoot(center, radius, r);
      var far := FarRoot(center, radius, r);
      RootsOrdered(center, radius, r);
      ChooseRootNarrows(near, far, tMin, tMax, c);
    }
  }

  /** `MovableSphere::center(time)`: linear motion from `center0` at `time0` to `center1` at `time1`. */
  function MovingCenter(center0: Vec3, center1: Vec3, time0: real, time1: real, time: real): (c: Vec3)
    requires time1 != time0
    ensures time == time0 ==> c == center0
    ensures time == time1 ==> c == center1
  {
    assert (time1 - time0) / (time1 - time0) == 1.0;
    Add(center0, ScalarMul((time - time0) / (time1 - time0), Sub(center1, center0)))
  }

  /** `Sphere::hit` */
  function SphereHit(s: Surface, r: Ray, tMin: real, tMax: real): (h: Option<HitRecord>)
    requires SqrtTotal() && s.Sphere?
    ensures HonoursInterval(h, tMin, tMax)
    ensures h.Some? ==> OnSphere(h.value.p, s.center, s.radius) && h.value.material == s.material
  {
    SphereHitAt(s.center, s.radius, s.material, r, tMin, tMax)
  }

  /** `MovableSphere::center` */
  function Center(s: Surface, time: real): (c: Vec3)
    requires s.MovableSphere? && s.time1 != s.time0
    ensures time == s.time0 ==> c == s.center0
    ensures time == s.time1 ==> c == s.center1
  {
    MovingCenter(s.center0, s.center1, s.time0, s.time1, time)
  }

  /** `MovableSphere::hit`: the sphere test against the center at the ray's time. */
  function MovableSphereHit(s: Surface, r: Ray, tMin: real, tMax: real): (h: Option<HitRecord>)
    requires SqrtTotal() && s.MovableSphere? && s.time1 != s.time0
    ensures HonoursInterval(h, tMin, tMax)
    ensures h.Some? ==> OnSphere(h.value.p, Center(s, r.Time()), s.radius) && h.value.material == s.material
  {
    SphereHitAt(Center(s, r.Time()), s.radius, s.material, r, tMin, tMax)
  }
}
