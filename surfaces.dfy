/**
 * `Hitable::hit` for every kind of surface, as one function over the
 * `Surface` datatype. A list query is the scan of `HitableList::hit`
 * (`Scan`, the loop as a fold over its first `k` elements); a BVH node
 * first tests its box and then keeps the nearer child hit.
 */
module Surfaces {
  import opened Numerics
  import opened Vectors
  import opened Rays
  import opened Boxes
  import opened Hitables
  import opened Spheres

  /**
   * The divisions the query performs are defined: a moving sphere's
   * shutter interval is not empty, and a BVH box is only tested with a
   * direction that has no zero component.
   */
  predicate HitDefined(s: Surface, r: Ray) {
    match s
    case Sphere(_, _, _) => true
    case MovableSphere(_, _, _, time0, time1, _) => time1 != time0
    case List(items) => forall i :: 0 <= i < |items| ==> HitDefined(items[i], r)
    case BvhNode(left, right, _) => NoZeroComponent(r.b) && HitDefined(left, r) && HitDefined(right, r)
  }

  /** The materials of the spheres in `s`. */
  function Materials(s: Surface): set<Material> {
    match s
    case Sphere(_, _, m) => {m}
    case MovableSphere(_, _, _, _, _, m) => {m}
    case List(items) => set i, m | 0 <= i < |items| && m in Materials(items[i]) :: m
    case BvhNode(left, right, _) => Materials(left) + Materials(right)
  }

  /** A hit record as every surface produces it: inside the interval, at the ray's point, with a unit normal. */
  predicate WellFormedHit(h: Option<HitRecord>, s: Surface, r: Ray, tMin: real, tMax: real) {
    h.Some? ==>
      && tMin < h.value.t < tMax
      && h.value.p == PointAtParameter(r, h.value.t)
      && SquaredLength(h.value.normal) == 1.0
      && h.value.material in Materials(s)
  }

  /** BVH traversal's choice: the hit with the smaller `t`, the right one on ties, or the only one. */
  function Nearer(left: Option<HitRecord>, right: Option<HitRecord>): (h: Option<HitRecord>)
    ensures h.None? <==> left.None? && right.None?
    ensures h == left || h == right
    ensures h.Some? && left.Some? ==> h.value.t <= left.value.t
    ensures h.Some? && right.Some? ==> h.value.t <= right.value.t
  {
    match (left, right)
    case (Some(l), Some(rt)) => if l.t < rt.t then left else right
    case (Some(_), None) => left
    case (None, Some(_)) => right
    case (None, None) => None
  }

  /** `hit(r, tMin, tMax)` on any surface. */
  function Hit(s: Surface, r: Ray, tMin: real, tMax: real): (h: Option<HitRecord>)
    requires SqrtTotal() && HitDefined(s, r)
    ensures WellFormedHit(h, s, r, tMin, tMax)
    decreases s, 1
  {
    match s
    case Sphere(_, _, _) => SphereHit(s, r, tMin, tMax)
    case MovableSphere(_, _, _, _, _, _) => MovableSphereHit(s, r, tMin, tMax)
    case List(items) => Scan(items, r, tMin, tMax, |items|)
    case BvhNode(left, right, box) =>
      if SlabHit(box, r, tMin, tMax) then Nearer(Hit(left, r, tMin, tMax), Hit(right, r, tMin, tMax))
      else None
  }

  /**
   * `HitableList::hit` after its first `k` iterations: each element is
   * queried on `(tMin, closest)`, where `closest` is the `t` of the best
   * hit so far (initially `tMax`), and a hit replaces the best one.
   */
  function Scan(items: seq<Surface>, r: Ray, tMin: real, tMax: real, k: nat): (h: Option<HitRecord>)
    requires SqrtTotal() && k <= |items|
    requires forall i :: 0 <= i < |items| ==> HitDefined(items[i], r)
    ensures WellFormedHit(h, List(items), r, tMin, tMax)
    decreases items, 0, k
  {
    if k == 0 then None
    else
      var best := Scan(items, r, tMin, tMax, k - 1);
      var closest := if best.Some? then best.value.t else tMax;
      var h := Hit(items[k - 1], r, tMin, closest);
      if h.Some? then h else best
  }

  /** A BVH box covers a hit when the hit point lies in it. */
  predicate CoversHit(box: Aabb, h: Option<HitRecord>) {
    h.Some? ==> Inside(h.value.p, box)
  }

  /**
   * Every BVH box in `s` has positive extent and covers the hits its
   * children report on `(tMin, tMax)`: the condition under which the slab
   * test never culls a hit.
   */
  predicate Admits(s: Surface, r: Ray, tMin: real, tMax: real)
    requires SqrtTotal() && HitDefined(s, r)
  {
    match s
    case Sphere(_, _, _) => true
    case MovableSphere(_, _, _, _, _, _) => true
    case List(items) => forall i :: 0 <= i < |items| ==> Admits(items[i], r, tMin, tMax)
    case BvhNode(left, right, box) =>
      && Thick(box)
      && CoversHit(box, Hit(left, r, tMin, tMax)) && CoversHit(box, Hit(right, r, tMin, tMax))
      && Admits(left, r, tMin, tMax) && Admits(right, r, tMin, tMax)
  }

  lemma NearerNarrows(left: Option<HitRecord>, right: Option<HitRecord>, c: real)
    ensures Nearer(Narrowed(left, c), Narrowed(right, c)) == Narrowed(Nearer(left, right), c)
  {
  }

  /**
   * The query is consistent across intervals: asking on `(tMin, c)` gives
   * what the query on `(tMin, tMax)` found if that lies before `c`, and no
   * hit otherwise. The list scan relies on this when it shrinks
   * `closest_so_far`.
   */
  lemma {:induction false} HitNarrows(s: Surface, r: Ray, tMin: real, tMax: real, c: real)
    requires SqrtTotal() && HitDefined(s, r) && Admits(s, r, tMin, tMax) && c <= tMax
    ensures Hit(s, r, tMin, c) == Narrowed(Hit(s, r, tMin, tMax), c)
    decreases s, 1
  {
    match s
    case Sphere(center, radius, material) =>
      SphereHitNarrows(center, radius, material, r, tMin, tMax, c);
    case MovableSphere(_, _, radius, _, _, material) =>
      SphereHitNarrows(Center(s, r.Time()), radius, material, r, tMin, tMax, c);
    case List(items) =>
      ScanNarrows(items, r, tMin, tMax, c, |items|);
    case BvhNode(left, right, box) =>
      HitNarrows(left, r, tMin, tMax, c);
      HitNarrows(right, r, tMin, tMax, c);
      var wide := Nearer(Hit(left, r, tMin, tMax), Hit(right, r, tMin, tMax));
      NearerNarrows(Hit(left, r, tMin, tMax), Hit(right, r, tMin, tMax), c);
      SlabHitMonotone(box, r, tMin, tMax, c);
      if !SlabHit(box, r, tMin, c) && SlabHit(box, r, tMin, tMax) && Narrowed(wide, c).Some? {
        SlabHitAdmitsCrossing(box, r, tMin, c, wide.value.t);
      }
  }

  lemma {:induction false} ScanNarrows(items: seq<Surface>, r: Ray, tMin: real, tMax: real, c: real, k: nat)
    requires SqrtTotal() && k <= |items| && c <= tMax
    requires forall i :: 0 <= i < |items| ==> HitDefined(items[i], r)
    requires forall i :: 0 <= i < |items| ==> Admits(items[i], r, tMin, tMax)
    ensures Scan(items, r, tMin, c, k) == Narrowed(Scan(items, r, tMin, tMax, k), c)
    decreases items, 0, k
  {
    if k > 0 {
      ScanNarrows(items, r, tMin, tMax, c, k - 1);
      var best := Scan(items, r, tMin, tMax, k - 1);
      var bestC := Scan(items, r, tMin, c, k - 1);
      var closest := if best.Some? then best.value.t else tMax;
      var closestC := if bestC.Some? then bestC.value.t else c;
      HitNarrows(items[k - 1], r, tMin, tMax, closest);
      HitNarrows(items[k - 1], r, tMin, tMax, closestC);
    }
  }
}
