/**
 * `AABB`: axis-aligned bounding boxes, their union and the slab test that
 * culls rays. The test reproduces the source's scoping: the narrowed
 * `t_min`/`t_max` of one axis are `let` bindings local to that loop
 * iteration, so every axis is tested against the caller's interval.
 */
module Boxes {
  import opened Numerics
  import opened Vectors
  import opened Rays

  datatype Aabb = Aabb(min: Vec3, max: Vec3) {
    function Min(): Vec3 { min }
    function Max(): Vec3 { max }
  }

  /** Componentwise `u <= v`. */
  predicate LessEq(u: Vec3, v: Vec3) {
    u.x <= v.x && u.y <= v.y && u.z <= v.z
  }

  /** A box whose corners are ordered. */
  predicate WellFormed(box: Aabb) {
    LessEq(box.min, box.max)
  }

  /** `outer` covers `inner`. */
  predicate Encloses(outer: Aabb, inner: Aabb) {
    LessEq(outer.min, inner.min) && LessEq(inner.max, outer.max)
  }

  /** `ffmin`: the smaller argument (the second on ties). */
  function FfMin(a: real, b: real): (m: real)
    ensures m == a || m == b
    ensures m <= a && m <= b
  {
    if a < b then a else b
  }

  /** `ffmax`: the larger argument (the second on ties). */
  function FfMax(a: real, b: real): (m: real)
    ensures m == a || m == b
    ensures m >= a && m >= b
  {
    if a > b then a else b
  }

  function MinCorner(u: Vec3, v: Vec3): (m: Vec3)
    ensures LessEq(m, u) && LessEq(m, v)
  {
    Vec3(FfMin(u.x, v.x), FfMin(u.y, v.y), FfMin(u.z, v.z))
  }

  function MaxCorner(u: Vec3, v: Vec3): (m: Vec3)
    ensures LessEq(u, m) && LessEq(v, m)
  {
    Vec3(FfMax(u.x, v.x), FfMax(u.y, v.y), FfMax(u.z, v.z))
  }

  /** `surrounding_box(box0, box1)`: the componentwise min/max of the corners. */
  function SurroundingBox(box0: Aabb, box1: Aabb): (r: Aabb)
    ensures Encloses(r, box0) && Encloses(r, box1)
  {
    Aabb(MinCorner(box0.min, box1.min), MaxCorner(box0.max, box1.max))
  }

  /** No box covering both inputs is smaller than their union. */
  lemma SurroundingBoxIsLeast(box0: Aabb, box1: Aabb, c: Aabb)
    requires Encloses(c, box0) && Encloses(c, box1)
    ensures Encloses(c, SurroundingBox(box0, box1))
  {
  }

  lemma SurroundingBoxIdempotent(b: Aabb)
    ensures SurroundingBox(b, b) == b
  {
  }

  lemma SurroundingBoxCommutes(box0: Aabb, box1: Aabb)
    ensures SurroundingBox(box0, box1) == SurroundingBox(box1, box0)
  {
  }

  lemma SurroundingBoxWellFormed(box0: Aabb, box1: Aabb)
    requires WellFormed(box0) && WellFormed(box1)
    ensures WellFormed(SurroundingBox(box0, box1))
  {
  }

  /**
   * The parameters at which a ray with origin component `o` and reciprocal
   * direction component `invD` crosses the planes `lo` and `hi`, swapped
   * when `invD` is negative so that entry comes first.
   */
  function Slab(lo: real, hi: real, o: real, invD: real): (iv: (real, real)) {
    var t0 := (lo - o) * invD;
    var t1 := (hi - o) * invD;
    if invD < 0.0 then (t1, t0) else (t0, t1)
  }

  /** The entry and exit parameters of ray `r` through the slab of `box` on `axis`. */
  function SlabInterval(box: Aabb, r: Ray, axis: nat): (iv: (real, real))
    requires axis < 3 && NoZeroComponent(r.b)
  {
    Slab(Index(box.min, axis), Index(box.max, axis), Index(r.a, axis), Recip(Index(r.b, axis)))
  }

  /** One axis of the slab test: the slab's interval, clipped to `(tMin, tMax)`, is non-empty. */
  predicate AxisOpen(box: Aabb, r: Ray, axis: nat, tMin: real, tMax: real)
    requires axis < 3 && NoZeroComponent(r.b)
  {
    var iv := SlabInterval(box, r, axis);
    FfMin(iv.1, tMax) > FfMax(iv.0, tMin)
  }

  /** What `AABB::hit` returns: every axis, each on the caller's interval, is open. */
  predicate SlabHit(box: Aabb, r: Ray, tMin: real, tMax: real)
    requires NoZeroComponent(r.b)
    // an input interval with `t_max <= t_min` is always rejected
    ensures SlabHit(box, r, tMin, tMax) ==> tMin < tMax
  {
    var open := forall axis :: 0 <= axis < 3 ==> AxisOpen(box, r, axis, tMin, tMax);
    assert open ==> AxisOpen(box, r, 0, tMin, tMax);
    open
  }

  /** `AABB::hit`: the loop over the three axes with its early `return false`. */
  method Hit(box: Aabb, r: Ray, tMin: real, tMax: real) returns (hit: bool)
    requires NoZeroComponent(r.b)
    ensures hit == SlabHit(box, r, tMin, tMax)
  {
    for a := 0 to 3
      invariant forall b :: 0 <= b < a ==> AxisOpen(box, r, b, tMin, tMax)
    {
      var open := AxisStep(box, r, a, tMin, tMax);
      if !open {
        return false;
      }
    }
    return true;
  }

  /** One iteration of the loop in `AABB::hit`: swap on a negative reciprocal, clip, compare. */
  method AxisStep(box: Aabb, r: Ray, a: nat, tMin: real, tMax: real) returns (open: bool)
    requires a < 3 && NoZeroComponent(r.b)
    ensures open == AxisOpen(box, r, a, tMin, tMax)
  {
    var invD := Recip(Index(r.Direction(), a));
    var lo, hi, o := Index(box.Min(), a), Index(box.Max(), a), Index(r.Origin(), a);
    var t0 := (lo - o) * invD;
    var t1 := (hi - o) * invD;
    if invD < 0.0 {
      t0, t1 := t1, t0;
    }
    assert t0 == Slab(lo, hi, o, invD).0 && t1 == Slab(lo, hi, o, invD).1;
    var tMinA := if t0 > tMin then t0 else tMin;
    var tMaxA := if t1 < tMax then t1 else tMax;
    open := !(tMaxA <= tMinA);
  }

  /** Scaling by a positive factor keeps an order; by a negative one it reverses it. */
  lemma ScaleOrder(x: real, y: real, k: real)
    requires x <= y
    ensures k > 0.0 ==> x * k <= y * k
    ensures k < 0.0 ==> y * k <= x * k
  {
    if k > 0.0 {
      assert (y - x) * k >= 0.0;
    } else if k < 0.0 {
      assert (y - x) * k <= 0.0;
    }
  }

  /** After the swap the slab interval is ordered, for a box with ordered corners. */
  lemma SlabIntervalOrdered(box: Aabb, r: Ray, axis: nat)
    requires axis < 3 && NoZeroComponent(r.b)
    requires Index(box.min, axis) <= Index(box.max, axis)
    ensures SlabInterval(box, r, axis).0 <= SlabInterval(box, r, axis).1
  {
    var o := Index(r.a, axis);
    ScaleOrder(Index(box.min, axis) - o, Index(box.max, axis) - o, Recip(Index(r.b, axis)));
  }

  /** `p` lies in the closed box. */
  predicate Inside(p: Vec3, box: Aabb) {
    LessEq(box.min, p) && LessEq(p, box.max)
  }

  /** The box has positive extent on every axis. */
  predicate Thick(box: Aabb) {
    box.min.x < box.max.x && box.min.y < box.max.y && box.min.z < box.max.z
  }

  lemma PointComponent(r: Ray, t: real, axis: nat)
    requires axis < 3
    ensures Index(PointAtParameter(r, t), axis) == Index(r.a, axis) + t * Index(r.b, axis)
  {
  }

  /** Scaling `x <= t * d` by the reciprocal `k` of `d` bounds `x * k` by `t`, in the direction of the sign of `k`. */
  lemma ScaleBelow(x: real, t: real, d: real, k: real)
    requires k * d == 1.0
    ensures x <= t * d && k > 0.0 ==> x * k <= t
    ensures x <= t * d && k < 0.0 ==> x * k >= t
    ensures x >= t * d && k > 0.0 ==> x * k >= t
    ensures x >= t * d && k < 0.0 ==> x * k <= t
  {
    assert (t * d) * k == t;
    if k > 0.0 {
      assert (t * d - x) * k == t - x * k;
    } else if k < 0.0 {
      assert (t * d - x) * k == t - x * k;
    }
  }

  /** A crossing between two distinct planes lies inside the slab's interval, which is not a single point. */
  lemma SlabAdmitsCrossing(lo: real, hi: real, o: real, d: real, k: real, t: real)
    requires k * d == 1.0 && lo <= o + t * d <= hi && lo < hi
    ensures Slab(lo, hi, o, k).0 <= t <= Slab(lo, hi, o, k).1
    ensures Slab(lo, hi, o, k).0 < Slab(lo, hi, o, k).1
  {
    ScaleBelow(lo - o, t, d, k);
    ScaleBelow(hi - o, t, d, k);
    assert k != 0.0;
    assert (hi - o) * k - (lo - o) * k == (hi - lo) * k;
  }

  lemma AxisAdmitsCrossing(box: Aabb, r: Ray, axis: nat, t: real, tMin: real, tMax: real)
    requires axis < 3 && NoZeroComponent(r.b) && tMin < t < tMax
    requires Index(box.min, axis) <= Index(PointAtParameter(r, t), axis) <= Index(box.max, axis)
    requires Index(box.min, axis) < Index(box.max, axis)
    ensures AxisOpen(box, r, axis, tMin, tMax)
  {
    PointComponent(r, t, axis);
    var d := Index(r.b, axis);
    SlabAdmitsCrossing(Index(box.min, axis), Index(box.max, axis), Index(r.a, axis), d, Recip(d), t);
  }

  /**
   * The slab test never culls a ray that meets a box of positive extent
   * inside the query interval: it over-approximates the true crossing.
   */
  lemma SlabHitAdmitsCrossing(box: Aabb, r: Ray, tMin: real, tMax: real, t: real)
    requires NoZeroComponent(r.b) && tMin < t < tMax
    requires Thick(box) && Inside(PointAtParameter(r, t), box)
    ensures SlabHit(box, r, tMin, tMax)
  {
    forall axis | 0 <= axis < 3
      ensures AxisOpen(box, r, axis, tMin, tMax)
    {
      AxisAdmitsCrossing(box, r, axis, t, tMin, tMax);
    }
  }

  /**
   * A box that is flat on some axis (`min == max` there, as the zero box
   * is on all three) rejects every ray: that axis's slab interval is a
   * single parameter, which no clipping leaves open.
   */
  lemma FlatBoxRejectsEveryRay(box: Aabb, r: Ray, axis: nat, tMin: real, tMax: real)
    requires NoZeroComponent(r.b) && axis < 3 && Index(box.min, axis) == Index(box.max, axis)
    ensures !SlabHit(box, r, tMin, tMax)
  {
    assert !AxisOpen(box, r, axis, tMin, tMax);
  }

  /** Shrinking the query interval can only turn an accepting test into a rejecting one. */
  lemma SlabHitMonotone(box: Aabb, r: Ray, tMin: real, tMax: real, c: real)
    requires NoZeroComponent(r.b) && c <= tMax
    ensures SlabHit(box, r, tMin, c) ==> SlabHit(box, r, tMin, tMax)
  {
    if SlabHit(box, r, tMin, c) {
      forall axis | 0 <= axis < 3
        ensures AxisOpen(box, r, axis, tMin, tMax)
      {
        assert AxisOpen(box, r, axis, tMin, c);
      }
    }
  }

  /** The unit box and a diagonal ray that passes beside it (see `PerAxisTestAcceptsMiss`). */
  const UnitBox := Aabb(Zero, One)
  const BesideUnitBox := Ray(Vec3(-2.0, 0.0, 0.5), One, 0.0)

  /** Each axis of the slab test, on its own, is open for `BesideUnitBox` on (-10, 10). */
  lemma BesideUnitBoxAccepted()
    ensures SlabHit(UnitBox, BesideUnitBox, -10.0, 10.0)
  {
    forall axis | 0 <= axis < 3
      ensures AxisOpen(UnitBox, BesideUnitBox, axis, -10.0, 10.0)
    {
      BesideUnitBoxSlab(axis);
    }
  }

  /** The slab intervals of `BesideUnitBox`: [2, 3] on x, [0, 1] on y, [-0.5, 0.5] on z. */
  lemma BesideUnitBoxSlab(axis: nat)
    requires axis < 3
    ensures SlabInterval(UnitBox, BesideUnitBox, axis)
         == (if axis == 0 then (2.0, 3.0) else if axis == 1 then (0.0, 1.0) else (-0.5, 0.5))
  {
    assert Recip(1.0) == 1.0;
  }

  /** `BesideUnitBox` is in the x slab only for `t` in [2, 3] and in the y slab only for `t` in [0, 1]. */
  lemma BesideUnitBoxMisses()
    ensures forall t :: !Inside(PointAtParameter(BesideUnitBox, t), UnitBox)
  {
    forall t
      ensures !Inside(PointAtParameter(BesideUnitBox, t), UnitBox)
    {
      var p := PointAtParameter(BesideUnitBox, t);
      assert p.x == t - 2.0 && p.y == t;
    }
  }

  /**
   * Because the narrowing does not carry over from one axis to the next,
   * the test also accepts rays that miss: `BesideUnitBox` enters the x slab
   * for `t` in [2, 3] and the y slab for `t` in [0, 1], so no point of it is
   * in the unit box, yet every axis on its own is open on (-10, 10).
   */
  lemma PerAxisTestAcceptsMiss()
    ensures SlabHit(UnitBox, BesideUnitBox, -10.0, 10.0)
    ensures forall t :: !Inside(PointAtParameter(BesideUnitBox, t), UnitBox)
  {
    BesideUnitBoxAccepted();
    BesideUnitBoxMisses();
  }
}
