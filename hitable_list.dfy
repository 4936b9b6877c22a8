/**
 * `HitableList::hit`: the loop that queries each element on
 * `(tMin, closest_so_far)` and keeps the last hit found, proved equal to the
 * fold `Surfaces.Scan`, and what that fold computes: the nearest hit, the
 * earliest element winning ties.
 */
module HitableLists {
  import opened Numerics
  import opened Rays
  import opened Hitables
  import opened Surfaces

  /** The loop of `HitableList::hit` over the list's elements. */
  method ListHit(items: seq<Surface>, r: Ray, tMin: real, tMax: real) returns (best: Option<HitRecord>)
    requires SqrtTotal()
    requires forall i :: 0 <= i < |items| ==> HitDefined(items[i], r)
    ensures best == Hit(List(items), r, tMin, tMax)
    ensures |items| == 0 ==> best.None?
  {
    var closest := tMax;
    best := None;
    for i := 0 to |items|
      invariant best == Scan(items, r, tMin, tMax, i)
      invariant closest == (if best.Some? then best.value.t else tMax)
      invariant closest <= tMax
    {
      var maybeHit := Hit(items[i], r, tMin, closest);
      match maybeHit {
        case Some(h) =>
          closest := h.t;
          best := maybeHit;
        case None =>
      }
    }
  }

  /** Each element's own answer to the query on `(tMin, tMax)`. */
  function ElementHits(items: seq<Surface>, r: Ray, tMin: real, tMax: real): (hits: seq<Option<HitRecord>>)
    requires SqrtTotal()
    requires forall i :: 0 <= i < |items| ==> HitDefined(items[i], r)
    ensures |hits| == |items|
    ensures forall i :: 0 <= i < |items| ==> hits[i] == Hit(items[i], r, tMin, tMax)
  {
    seq(|items|, i requires 0 <= i < |items| => Hit(items[i], r, tMin, tMax))
  }

  /**
   * `h` is what a first-nearest search over `hits[..k]` reports: nothing
   * exactly when none of them is a hit; otherwise `hits[j]` for some `j`, no
   * farther than any of them and strictly nearer than those before `j`.
   */
  predicate IsFirstNearest(h: Option<HitRecord>, hits: seq<Option<HitRecord>>, k: nat)
    requires k <= |hits|
  {
    && (h.None? <==> forall i :: 0 <= i < k ==> hits[i].None?)
    && (h.Some? ==>
          exists j :: 0 <= j < k && h == hits[j]
            && (forall i :: 0 <= i < k && hits[i].Some? ==> h.value.t <= hits[i].value.t)
            && (forall i :: 0 <= i < j && hits[i].Some? ==> h.value.t < hits[i].value.t))
  }

  /** The scan's update: a hit found this iteration replaces the best one. */
  function OrElse(h: Option<HitRecord>, best: Option<HitRecord>): Option<HitRecord> {
    if h.Some? then h else best
  }

  /**
   * One iteration keeps the answer first-nearest: the element is queried up
   * to the best `t` so far (`tMax` before any hit), which by narrowing keeps
   * its hit only if strictly nearer.
   */
  lemma FirstNearestStep(hits: seq<Option<HitRecord>>, k: nat, best: Option<HitRecord>, tMax: real)
    requires 0 < k <= |hits| && IsFirstNearest(best, hits, k - 1)
    requires hits[k - 1].Some? ==> hits[k - 1].value.t < tMax
    ensures IsFirstNearest(OrElse(Narrowed(hits[k - 1], if best.Some? then best.value.t else tMax), best),
                           hits, k)
  {
    var h := OrElse(Narrowed(hits[k - 1], if best.Some? then best.value.t else tMax), best);
    if h != best {
      assert h == hits[k - 1];
    } else if best.Some? {
      var j :| 0 <= j < k - 1 && best == hits[j]
        && (forall i :: 0 <= i < k - 1 && hits[i].Some? ==> best.value.t <= hits[i].value.t)
        && (forall i :: 0 <= i < j && hits[i].Some? ==> best.value.t < hits[i].value.t);
      assert h == hits[j];
    }
  }

  lemma {:induction false} ScanIsFirstNearest(items: seq<Surface>, r: Ray, tMin: real, tMax: real, k: nat)
    requires SqrtTotal() && k <= |items|
    requires forall i :: 0 <= i < |items| ==> HitDefined(items[i], r)
    requires forall i :: 0 <= i < |items| ==> Admits(items[i], r, tMin, tMax)
    ensures IsFirstNearest(Scan(items, r, tMin, tMax, k), ElementHits(items, r, tMin, tMax), k)
  {
    var hits := ElementHits(items, r, tMin, tMax);
    if k > 0 {
      ScanIsFirstNearest(items, r, tMin, tMax, k - 1);
      var best := Scan(items, r, tMin, tMax, k - 1);
      var closest := if best.Some? then best.value.t else tMax;
      assert Scan(items, r, tMin, tMax, k) == OrElse(Narrowed(hits[k - 1], closest), best) by {
        HitNarrows(items[k - 1], r, tMin, tMax, closest);
      }
      FirstNearestStep(hits, k, best, tMax);
    }
  }

  /**
   * `HitableList::hit` returns the nearest of its elements' hits on
   * `(tMin, tMax)`, the earliest element on ties, and nothing exactly when no
   * element hits. Every element must narrow consistently (`Admits`), as
   * spheres and lists of them always do.
   */
  lemma ListHitIsFirstNearest(items: seq<Surface>, r: Ray, tMin: real, tMax: real)
    requires SqrtTotal()
    requires forall i :: 0 <= i < |items| ==> HitDefined(items[i], r)
    requires forall i :: 0 <= i < |items| ==> Admits(items[i], r, tMin, tMax)
    ensures IsFirstNearest(Hit(List(items), r, tMin, tMax), ElementHits(items, r, tMin, tMax), |items|)
  {
    ScanIsFirstNearest(items, r, tMin, tMax, |items|);
  }
}
