/**
 * The records shared by every surface: the materials a hit can carry, the
 * `HitRecord` a query returns, and the scene's surfaces as one datatype
 * with a constructor per `Hitable` implementation.
 */
module Hitables {
  import opened Vectors
  import opened Boxes

  /** Rust's `Option`, the result of every `hit`. */
  datatype Option<T> = None | Some(value: T)

  /** `Material`: only the Lambertian and Metal variants exist. */
  datatype Material = Lambertian(albedo: Vec3) | Metal(albedo: Vec3)

  /** `HitRecord`: the ray parameter, the point, the surface normal and the material hit. */
  datatype HitRecord = HitRecord(t: real, p: Vec3, normal: Vec3, material: Material)

  /** `HitRecord::new()`: the placeholder record. */
  function HitRecordNew(): HitRecord {
    HitRecord(0.0, Zero, UnitZ, Lambertian(Zero))
  }

  /** `HitRecord::default()` delegates to `new`. */
  function HitRecordDefault(): HitRecord {
    HitRecordNew()
  }

  lemma HitRecordNewFields()
    ensures HitRecordNew().t == 0.0 && HitRecordNew().p == Vec3(0.0, 0.0, 0.0)
    ensures HitRecordNew().normal == Vec3(0.0, 0.0, 1.0)
    ensures HitRecordNew().material == Lambertian(Vec3(0.0, 0.0, 0.0))
    ensures HitRecordDefault() == HitRecordNew()
  {
  }

  /**
   * What every `Hitable::hit` promises its caller: a reported hit lies
   * strictly inside the query interval.
   */
  predicate HonoursInterval(h: Option<HitRecord>, tMin: real, tMax: real) {
    h.Some? ==> tMin < h.value.t < tMax
  }

  /** What a query on `(tMin, c)` keeps of a hit found on a wider interval `(tMin, tMax)`. */
  function Narrowed(h: Option<HitRecord>, c: real): (n: Option<HitRecord>)
    ensures n.Some? ==> n == h && h.value.t < c
    ensures h.Some? && h.value.t < c ==> n == h
  {
    if h.Some? && h.value.t < c then h else None
  }

  /**
   * The scene's surfaces. `List` is a `HitableList` and `BvhNode` a
   * `BVHNode` with its cached box; the boxes of the other surfaces are
   * supplied from outside (see `Bvh.BoundingBox`).
   */
  datatype Surface =
    | Sphere(center: Vec3, radius: real, material: Material)
    | MovableSphere(center0: Vec3, center1: Vec3, radius: real, time0: real, time1: real, material: Material)
    | List(items: seq<Surface>)
    | BvhNode(left: Surface, right: Surface, box: Aabb)
}
