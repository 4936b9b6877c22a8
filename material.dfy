/**
 * Scattering at a hit. `reflect` is a function; each `scatter` is a method
 * that writes the attenuation and the scattered ray through its out-
 * parameters and returns whether the ray scatters, specified by a function
 * computing the same three results. The unit-sphere sample of the
 * Lambertian scatter is a parameter.
 */
module Materials {
  import opened Numerics
  import opened Vectors
  import opened Rays
  import opened Hitables

  /** `reflect(v, n)`: `v` minus twice its component along `n`. */
  function Reflect(v: Vec3, n: Vec3): (r: Vec3)
    ensures Add(r, ScalarMul(2.0 * Dot(v, n), n)) == v
  {
    Sub(v, ScalarMul(2.0 * Dot(v, n), n))
  }

  /** Against a unit normal, reflection flips the normal component. */
  lemma ReflectFlipsNormalComponent(v: Vec3, n: Vec3)
    requires SquaredLength(n) == 1.0
    ensures Dot(Reflect(v, n), n) == -Dot(v, n)
  {
    var d := Dot(v, n);
    calc {
      Dot(Reflect(v, n), n);
    ==
      Dot(v, n) - 2.0 * d * Dot(n, n);
    ==
      d - 2.0 * d * 1.0;
    }
  }

  /** Reflecting twice about the same unit normal gives the vector back. */
  lemma ReflectIsInvolution(v: Vec3, n: Vec3)
    requires SquaredLength(n) == 1.0
    ensures Reflect(Reflect(v, n), n) == v
  {
    ReflectFlipsNormalComponent(v, n);
    var r := Reflect(v, n);
    var k := 2.0 * Dot(v, n);
    assert Dot(r, n) == -Dot(v, n);
    assert Reflect(r, n) == Sub(r, ScalarMul(-k, n));
  }

  lemma ReflectZero(n: Vec3)
    ensures Reflect(Zero, n) == Zero
  {
  }

  /** Reflection about a unit normal never sends a non-zero vector to zero. */
  lemma ReflectNonZero(v: Vec3, n: Vec3)
    requires SquaredLength(n) == 1.0 && v != Zero
    ensures Reflect(v, n) != Zero
  {
    ReflectIsInvolution(v, n);
    ReflectZero(n);
  }

  /** What a `scatter` call leaves in its out-parameters, and its result. */
  datatype Scatter = Scatter(attenuation: Vec3, scattered: Ray, scatters: bool)

  /**
   * `Lambertian::scatter`: always scatters, attenuating by the albedo, from
   * the hit point towards the normal displaced by the sample. The scattered
   * ray keeps the incoming ray's time.
   */
  function LambertianOutcome(albedo: Vec3, rIn: Ray, rec: HitRecord, sample: Vec3): (s: Scatter)
    ensures s.scatters && s.attenuation == albedo
    ensures s.scattered.a == rec.p && s.scattered.b == Add(rec.normal, sample) && s.scattered.t == rIn.t
  {
    var target := Add(Add(rec.p, rec.normal), sample);
    Scatter(albedo, Ray(rec.p, Sub(target, rec.p), rIn.t), true)
  }

  /**
   * With a unit normal and a sample strictly inside the unit sphere, the
   * scattered direction is never zero.
   */
  lemma LambertianDirectionNonZero(albedo: Vec3, rIn: Ray, rec: HitRecord, sample: Vec3)
    requires SquaredLength(rec.normal) == 1.0 && SquaredLength(sample) < 1.0
    ensures LambertianOutcome(albedo, rIn, rec, sample).scattered.b != Zero
  {
  }

  method LambertianScatter(albedo: Vec3, rIn: Ray, rec: HitRecord, sample: Vec3)
    returns (attenuation: Vec3, scattered: Ray, scatters: bool)
    ensures Scatter(attenuation, scattered, scatters) == LambertianOutcome(albedo, rIn, rec, sample)
  {
    var outcome := LambertianOutcome(albedo, rIn, rec, sample);
    attenuation, scattered, scatters := outcome.attenuation, outcome.scattered, outcome.scatters;
  }

  /**
   * `Metal::scatter`: reflects the normalised incoming direction about the
   * normal, from the hit point, attenuating by the albedo; it reports a
   * scatter only when the reflection leaves on the normal's side. Both
   * out-parameters are written either way.
   */
  function MetalOutcome(albedo: Vec3, rIn: Ray, rec: HitRecord): (s: Scatter)
    requires SqrtTotal() && rIn.b != Zero
    ensures s.attenuation == albedo
    ensures s.scattered.a == rec.p && s.scattered.b == Reflect(UnitVector(rIn.b), rec.normal) && s.scattered.t == rIn.t
    ensures s.scatters <==> Dot(s.scattered.b, rec.normal) > 0.0
  {
    var reflected := Reflect(UnitVector(rIn.b), rec.normal);
    Scatter(albedo, Ray(rec.p, reflected, rIn.t), Dot(reflected, rec.normal) > 0.0)
  }

  /** With a unit normal, metal scatters exactly the rays that arrive against the normal. */
  lemma MetalScattersIffIncoming(albedo: Vec3, rIn: Ray, rec: HitRecord)
    requires SqrtTotal() && rIn.b != Zero && SquaredLength(rec.normal) == 1.0
    ensures MetalOutcome(albedo, rIn, rec).scatters <==> Dot(rIn.b, rec.normal) < 0.0
  {
    var u := UnitVector(rIn.b);
    var len := Length(rIn.b);
    ReflectFlipsNormalComponent(u, rec.normal);
    assert MulScalar(u, len) == rIn.b;
    DotScaled(u, len, rec.normal);
    ScaledSign(Dot(u, rec.normal), len);
  }

  /** A unit vector is its own unit vector. */
  lemma UnitVectorOfUnit(n: Vec3)
    requires SqrtTotal() && SquaredLength(n) == 1.0
    ensures n != Zero && UnitVector(n) == n
  {
    SqrtOfSquare(1.0);
    assert Square(1.0) == 1.0;
    assert Length(n) == 1.0;
    assert MulScalar(UnitVector(n), 1.0) == n;
  }

  /** A ray arriving head-on against a unit normal is sent straight back along it, and scatters. */
  lemma MetalHeadOn(albedo: Vec3, origin: Vec3, time: real, rec: HitRecord)
    requires SqrtTotal() && SquaredLength(rec.normal) == 1.0
    ensures ScalarMul(-1.0, rec.normal) != Zero
    ensures var s := MetalOutcome(albedo, Ray(origin, ScalarMul(-1.0, rec.normal), time), rec);
      s.scattered.b == rec.normal && s.scatters
  {
    var n := rec.normal;
    var m := ScalarMul(-1.0, n);
    assert SquaredLength(m) == SquaredLength(n) by {
      assert Square(m.x) == Square(n.x) && Square(m.y) == Square(n.y) && Square(m.z) == Square(n.z);
    }
    UnitVectorOfUnit(m);
    assert Dot(m, n) == -Dot(n, n) == -1.0;
    assert ScalarMul(2.0 * Dot(m, n), n) == ScalarMul(-2.0, n);
    assert Reflect(m, n) == Sub(m, ScalarMul(-2.0, n)) == n;
  }

  method MetalScatter(albedo: Vec3, rIn: Ray, rec: HitRecord)
    returns (attenuation: Vec3, scattered: Ray, scatters: bool)
    requires SqrtTotal() && rIn.b != Zero
    ensures Scatter(attenuation, scattered, scatters) == MetalOutcome(albedo, rIn, rec)
  {
    var unitVector := new Vec3Mut(rIn.Direction());
    unitVector.Normalize();
    var reflected := Reflect(unitVector.Value(), rec.normal);
    scattered := Ray(rec.p, reflected, rIn.t);
    attenuation := albedo;
    scatters := Dot(scattered.Direction(), rec.normal) > 0.0;
  }

  /** `Material::scatter`: the variant's own scatter. */
  function Outcome(m: Material, rIn: Ray, rec: HitRecord, sample: Vec3): (s: Scatter)
    requires SqrtTotal() && (m.Metal? ==> rIn.b != Zero)
    ensures m.Lambertian? ==> s == LambertianOutcome(m.albedo, rIn, rec, sample)
    ensures m.Metal? ==> s == MetalOutcome(m.albedo, rIn, rec)
  {
    match m
    case Lambertian(albedo) => LambertianOutcome(albedo, rIn, rec, sample)
    case Metal(albedo) => MetalOutcome(albedo, rIn, rec)
  }

  /**
   * Every material attenuates by its albedo, and for an incoming ray with a
   * direction, a unit normal and a sample inside the unit sphere, the
   * scattered ray has a direction too.
   */
  lemma ScatteredDirectionNonZero(m: Material, rIn: Ray, rec: HitRecord, sample: Vec3)
    requires SqrtTotal() && rIn.b != Zero
    requires SquaredLength(rec.normal) == 1.0 && SquaredLength(sample) < 1.0
    ensures Outcome(m, rIn, rec, sample).attenuation == m.albedo
    ensures Outcome(m, rIn, rec, sample).scattered.b != Zero
  {
    match m
    case Lambertian(albedo) =>
      LambertianDirectionNonZero(albedo, rIn, rec, sample);
    case Metal(albedo) =>
      var u := UnitVector(rIn.b);
      assert u != Zero by {
        assert SquaredLength(u) == 1.0;
      }
      ReflectNonZero(u, rec.normal);
  }

  method MaterialScatter(m: Material, rIn: Ray, rec: HitRecord, sample: Vec3)
    returns (attenuation: Vec3, scattered: Ray, scatters: bool)
    requires SqrtTotal() && (m.Metal? ==> rIn.b != Zero)
    ensures Scatter(attenuation, scattered, scatters) == Outcome(m, rIn, rec, sample)
  {
    match m
    case Lambertian(albedo) =>
      attenuation, scattered, scatters := LambertianScatter(albedo, rIn, rec, sample);
    case Metal(albedo) =>
      attenuation, scattered, scatters := MetalScatter(albedo, rIn, rec);
  }
}
