/**
 * `BVHNode`: the box comparators, the bounding box of a surface, the
 * construction `BVHNode::new` (sort the caller's list along a random axis,
 * then make a leaf or split at the midpoint and recurse), and what the
 * traversal in `Surfaces.Hit` computes over the leaves of the tree.
 */
module Bvh {
  import opened Numerics
  import opened Vectors
  import opened Rays
  import opened Boxes
  import opened Hitables
  import opened Surfaces
  import opened HitableLists

  datatype Ordering = Less | Equal | Greater

  /**
   * `bounding_box(t0, t1)`: a BVH node reports its cached box; the boxes of
   * the other surfaces are not defined by the renderer's core and come from
   * `boxOf`.
   */
  function BoundingBox(s: Surface, boxOf: (Surface, real, real) -> Option<Aabb>, t0: real, t1: real): (b: Option<Aabb>)
    ensures s.BvhNode? ==> b == Some(s.box)
    ensures !s.BvhNode? ==> b == boxOf(s, t0, t1)
  {
    if s.BvhNode? then Some(s.box) else boxOf(s, t0, t1)
  }

  /**
   * `box_x_compare`, `box_y_compare` and `box_z_compare` (axis 0, 1, 2):
   * `Equal` when either box is missing, otherwise `Less` exactly when the
   * first box's lower corner is below the second's on the axis, and
   * `Greater` else, even for equal corners.
   */
  function BoxCompare(a: Surface, b: Surface, axis: nat,
                      boxOf: (Surface, real, real) -> Option<Aabb>, t0: real, t1: real): (o: Ordering)
    requires axis < 3
    ensures BoundingBox(a, boxOf, t0, t1).None? || BoundingBox(b, boxOf, t0, t1).None? ==> o == Equal
    ensures BoundingBox(a, boxOf, t0, t1).Some? && BoundingBox(b, boxOf, t0, t1).Some? ==>
              o != Equal
              && (o == Less <==> Index(BoundingBox(a, boxOf, t0, t1).value.min, axis)
                                   < Index(BoundingBox(b, boxOf, t0, t1).value.min, axis))
  {
    match (BoundingBox(a, boxOf, t0, t1), BoundingBox(b, boxOf, t0, t1))
    case (Some(boxLeft), Some(boxRight)) =>
      if Index(boxLeft.min, axis) - Index(boxRight.min, axis) < 0.0 then Less else Greater
    case _ => Equal
  }

  /** The sort key along `axis`: the lower corner of the box, if there is one. */
  function AxisKey(s: Surface, axis: nat, boxOf: (Surface, real, real) -> Option<Aabb>, t0: real, t1: real): Option<real>
    requires axis < 3
  {
    match BoundingBox(s, boxOf, t0, t1)
    case None => None
    case Some(b) => Some(Index(b.min, axis))
  }

  /**
   * The order the sort establishes: surfaces without a box first, the others
   * by key. It is total and transitive, unlike the comparator, which calls a
   * boxless surface equal to everything.
   */
  predicate KeyBefore(key: Surface -> Option<real>, a: Surface, b: Surface) {
    key(a).None? || (key(b).Some? && key(a).value <= key(b).value)
  }

  predicate SortedByKey(key: Surface -> Option<real>, s: seq<Surface>) {
    forall i, j :: 0 <= i < j < |s| ==> KeyBefore(key, s[i], s[j])
  }

  /** Inserts `x` before the first element it precedes; earlier equal keys stay first. */
  function Insert(key: Surface -> Option<real>, x: Surface, s: seq<Surface>): (t: seq<Surface>)
    requires SortedByKey(key, s)
    ensures multiset(t) == multiset(s) + multiset{x} && |t| == |s| + 1
    ensures SortedByKey(key, t)
  {
    if |s| == 0 then [x]
    else if KeyBefore(key, x, s[0]) then
      PrecedesSorted(key, x, s);
      ConsSorted(key, x, s);
      [x] + s
    else
      var rest := Insert(key, x, s[1..]);
      assert s == [s[0]] + s[1..];
      HeadPrecedesInserted(key, x, s, rest);
      ConsSorted(key, s[0], rest);
      [s[0]] + rest
  }

  lemma KeyBeforeTransitive(key: Surface -> Option<real>, a: Surface, b: Surface, c: Surface)
    requires KeyBefore(key, a, b) && KeyBefore(key, b, c)
    ensures KeyBefore(key, a, c)
  {
  }

  /** An element that precedes the head of a sorted sequence precedes all of it. */
  lemma PrecedesSorted(key: Surface -> Option<real>, x: Surface, s: seq<Surface>)
    requires |s| > 0 && SortedByKey(key, s) && KeyBefore(key, x, s[0])
    ensures forall i :: 0 <= i < |s| ==> KeyBefore(key, x, s[i])
  {
    forall i | 0 < i < |s|
      ensures KeyBefore(key, x, s[i])
    {
      KeyBeforeTransitive(key, x, s[0], s[i]);
    }
  }

  /** Prepending an element that precedes every element keeps a sequence sorted. */
  lemma ConsSorted(key: Surface -> Option<real>, a: Surface, rest: seq<Surface>)
    requires SortedByKey(key, rest)
    requires forall i :: 0 <= i < |rest| ==> KeyBefore(key, a, rest[i])
    ensures SortedByKey(key, [a] + rest)
  {
    var t := [a] + rest;
    forall i, j | 0 <= i < j < |t|
      ensures KeyBefore(key, t[i], t[j])
    {
      if i > 0 {
        assert t[i] == rest[i - 1] && t[j] == rest[j - 1];
      } else {
        assert t[j] == rest[j - 1];
      }
    }
  }

  /** When `x` does not go first, the old head precedes every element of the insertion into the tail. */
  lemma HeadPrecedesInserted(key: Surface -> Option<real>, x: Surface, s: seq<Surface>, rest: seq<Surface>)
    requires |s| > 0 && SortedByKey(key, s) && !KeyBefore(key, x, s[0])
    requires multiset(rest) == multiset(s[1..]) + multiset{x}
    ensures forall i :: 0 <= i < |rest| ==> KeyBefore(key, s[0], rest[i])
  {
    forall i | 0 <= i < |rest|
      ensures KeyBefore(key, s[0], rest[i])
    {
      assert rest[i] in multiset(rest);
      if rest[i] != x {
        assert rest[i] in multiset(s[1..]);
        var j :| 0 <= j < |s[1..]| && s[1..][j] == rest[i];
        assert s[j + 1] == rest[i];
      }
    }
  }

  /** A stable insertion sort by `key`. */
  function SortByKey(key: Surface -> Option<real>, s: seq<Surface>): (t: seq<Surface>)
    ensures multiset(t) == multiset(s) && |t| == |s|
    ensures SortedByKey(key, t)
  {
    if |s| == 0 then []
    else
      assert s == [s[0]] + s[1..];
      Insert(key, s[0], SortByKey(key, s[1..]))
  }

  /**
   * `list.sort_by(box_?_compare)` for `axis` 0, 1 or 2; any other axis leaves
   * the list as it is.
   */
  function SortedForAxis(s: seq<Surface>, axis: int,
                         boxOf: (Surface, real, real) -> Option<Aabb>, t0: real, t1: real): (t: seq<Surface>)
    ensures multiset(t) == multiset(s) && |t| == |s|
    ensures !(0 <= axis < 3) ==> t == s
  {
    if 0 <= axis < 3 then SortByKey(s' => AxisKey(s', axis, boxOf, t0, t1), s) else s
  }

  /**
   * After sorting along a valid axis no later element compares `Less` than
   * an earlier one under the source's comparator.
   */
  lemma SortedForAxisHasNoInversion(s: seq<Surface>, axis: nat,
                                    boxOf: (Surface, real, real) -> Option<Aabb>, t0: real, t1: real)
    requires axis < 3
    ensures var t := SortedForAxis(s, axis, boxOf, t0, t1);
      forall i, j :: 0 <= i < j < |t| ==> BoxCompare(t[j], t[i], axis, boxOf, t0, t1) != Less
  {
    var key := s' => AxisKey(s', axis, boxOf, t0, t1);
    var t := SortedForAxis(s, axis, boxOf, t0, t1);
    forall i, j | 0 <= i < j < |t|
      ensures BoxCompare(t[j], t[i], axis, boxOf, t0, t1) != Less
    {
      assert KeyBefore(key, t[i], t[j]);
    }
  }

  /** `list.sort_by(...)` on the caller's list, in place. */
  method SortInPlace(list: array<Surface>, axis: int,
                     boxOf: (Surface, real, real) -> Option<Aabb>, t0: real, t1: real)
    modifies list
    ensures list[..] == SortedForAxis(old(list[..]), axis, boxOf, t0, t1)
  {
    var sorted := SortedForAxis(list[..], axis, boxOf, t0, t1);
    forall i | 0 <= i < list.Length {
      list[i] := sorted[i];
    }
    assert list[..] == sorted;
  }

  /** The surfaces a query of `s` reaches through BVH nodes, left to right. */
  function Leaves(s: Surface): (l: seq<Surface>)
    ensures |l| > 0
  {
    match s
    case BvhNode(left, right, _) => Leaves(left) + Leaves(right)
    case _ => [s]
  }

  /** The leaves of every surface of `s`, in order. */
  function LeavesOfSeq(s: seq<Surface>): seq<Surface> {
    if |s| == 0 then [] else Leaves(s[0]) + LeavesOfSeq(s[1..])
  }

  lemma {:induction false} LeavesOfSeqConcat(a: seq<Surface>, b: seq<Surface>)
    ensures LeavesOfSeq(a + b) == LeavesOfSeq(a) + LeavesOfSeq(b)
  {
    if |a| == 0 {
      assert a + b == b;
    } else {
      assert (a + b)[0] == a[0];
      assert (a + b)[1..] == a[1..] + b;
      LeavesOfSeqConcat(a[1..], b);
    }
  }

  lemma SplitAround(b: seq<Surface>, k: nat)
    requires k < |b|
    ensures b == b[..k] + ([b[k]] + b[k + 1..])
  {
  }

  /** Taking the surface at `k` out of `b` takes its leaves out of the leaves of `b`. */
  lemma LeavesOfSeqRemove(b: seq<Surface>, k: nat)
    requires k < |b|
    ensures multiset(LeavesOfSeq(b))
         == multiset(Leaves(b[k])) + multiset(LeavesOfSeq(b[..k] + b[k + 1..]))
  {
    var c := [b[k]] + b[k + 1..];
    SplitAround(b, k);
    assert c[0] == b[k] && c[1..] == b[k + 1..];
    assert LeavesOfSeq(c) == Leaves(b[k]) + LeavesOfSeq(b[k + 1..]);
    LeavesOfSeqConcat(b[..k], c);
    LeavesOfSeqConcat(b[..k], b[k + 1..]);
  }

  /** Reordering the surfaces reorders their leaves. */
  lemma {:induction false} LeavesOfSeqPermutation(a: seq<Surface>, b: seq<Surface>)
    requires multiset(a) == multiset(b)
    ensures multiset(LeavesOfSeq(a)) == multiset(LeavesOfSeq(b))
    decreases |a|
  {
    if |a| > 0 {
      var x := a[0];
      assert x in multiset(b);
      var k :| 0 <= k < |b| && b[k] == x;
      var rest := b[..k] + b[k + 1..];
      assert b == b[..k] + [x] + b[k + 1..];
      assert a == [x] + a[1..];
      calc {
        multiset(a[1..]);
      ==
        multiset(a) - multiset{x};
      ==
        multiset(b) - multiset{x};
      ==
        (multiset(b[..k]) + multiset{x} + multiset(b[k + 1..])) - multiset{x};
      ==
        multiset(rest);
      }
      LeavesOfSeqPermutation(a[1..], rest);
      LeavesOfSeqRemove(b, k);
    }
  }

  /**
   * The leaves of `node` are those of the surfaces `s`: each of them occurs
   * at least as often as in `s` (a one-element list is duplicated), and
   * nothing else occurs.
   */
  predicate CoversLeaves(node: Surface, s: seq<Surface>) {
    && multiset(LeavesOfSeq(s)) <= multiset(Leaves(node))
    && forall x :: x in Leaves(node) ==> x in LeavesOfSeq(s)
  }

  lemma CoversLeavesPermutation(node: Surface, a: seq<Surface>, b: seq<Surface>)
    requires multiset(a) == multiset(b) && CoversLeaves(node, a)
    ensures CoversLeaves(node, b)
  {
    LeavesOfSeqPermutation(a, b);
    forall x | x in Leaves(node)
      ensures x in LeavesOfSeq(b)
    {
      assert x in multiset(LeavesOfSeq(a));
    }
  }

  lemma CoversLeavesOfSplit(left: Surface, right: Surface, box: Aabb, a: seq<Surface>, b: seq<Surface>)
    requires CoversLeaves(left, a) && CoversLeaves(right, b)
    ensures CoversLeaves(BvhNode(left, right, box), a + b)
  {
    LeavesOfSeqConcat(a, b);
  }

  lemma CoversLeavesOfLeaf(left: Surface, right: Surface, box: Aabb, s: seq<Surface>)
    requires (|s| == 1 && left == right == s[0]) || (|s| == 2 && left == s[0] && right == s[1])
    ensures CoversLeaves(BvhNode(left, right, box), s)
  {
    assert LeavesOfSeq(s[|s| - 1..]) == Leaves(s[|s| - 1]);
    if |s| == 2 {
      assert s[1..] == s[|s| - 1..];
    }
  }

  /** The box a new node caches: the union of its children's boxes, or the zero box. */
  function NodeBox(left: Surface, right: Surface,
                   boxOf: (Surface, real, real) -> Option<Aabb>, t0: real, t1: real): (b: Aabb)
    ensures BoundingBox(left, boxOf, t0, t1).Some? && BoundingBox(right, boxOf, t0, t1).Some? ==>
              Encloses(b, BoundingBox(left, boxOf, t0, t1).value)
              && Encloses(b, BoundingBox(right, boxOf, t0, t1).value)
    ensures BoundingBox(left, boxOf, t0, t1).None? || BoundingBox(right, boxOf, t0, t1).None? ==>
              b == Aabb(Zero, Zero)
  {
    match (BoundingBox(left, boxOf, t0, t1), BoundingBox(right, boxOf, t0, t1))
    case (Some(leftBox), Some(rightBox)) => SurroundingBox(leftBox, rightBox)
    case _ => Aabb(Zero, Zero)
  }

  /**
   * A node built over a child without a box caches the zero box, so it
   * rejects every ray and never reports a hit, whatever its children hold.
   */
  lemma BoxlessChildHidesNode(left: Surface, right: Surface, boxOf: (Surface, real, real) -> Option<Aabb>,
                              t0: real, t1: real, r: Ray, tMin: real, tMax: real)
    requires SqrtTotal() && HitDefined(BvhNode(left, right, NodeBox(left, right, boxOf, t0, t1)), r)
    requires BoundingBox(left, boxOf, t0, t1).None? || BoundingBox(right, boxOf, t0, t1).None?
    ensures Surfaces.Hit(BvhNode(left, right, NodeBox(left, right, boxOf, t0, t1)), r, tMin, tMax).None?
  {
    FlatBoxRejectsEveryRay(NodeBox(left, right, boxOf, t0, t1), r, 0, tMin, tMax);
  }

  /** A new vector holding `list[lo..hi]` (`split_at` followed by `extend`). */
  method CopyRange(list: array<Surface>, lo: nat, hi: nat) returns (part: array<Surface>)
    requires lo <= hi <= list.Length
    ensures fresh(part) && part[..] == list[lo..hi]
  {
    part := new Surface[hi - lo];
    forall i | 0 <= i < hi - lo {
      part[i] := list[lo + i];
    }
  }

  /** A constructed tree and the index of the next unused random draw. */
  datatype Built = Built(node: Surface, used: nat)

  /**
   * The tree `BVHNode::new` builds from the list `s`, and the index of the
   * first random draw it leaves unused. The random axis is `draws(next)`
   * scaled and cast as in the source; the left subtree takes the following
   * draws, then the right one. An empty list would split into two empty
   * halves forever, so the list must not be empty.
   */
  function BuildTree(s: seq<Surface>, t0: real, t1: real,
                     boxOf: (Surface, real, real) -> Option<Aabb>, draws: nat -> real, next: nat): (b: Built)
    requires |s| > 0
    // a node whose box is the union of its children's boxes
    ensures b.node.BvhNode?
    ensures b.node.box == NodeBox(b.node.left, b.node.right, boxOf, t0, t1)
    decreases |s|
  {
    var sorted := SortedForAxis(s, AsI32(3.0 * draws(next)), boxOf, t0, t1);
    var n := |s|;
    if n <= 2 then
      Built(BvhNode(sorted[0], sorted[n - 1], NodeBox(sorted[0], sorted[n - 1], boxOf, t0, t1)), next + 1)
    else
      var left := BuildTree(sorted[..n / 2], t0, t1, boxOf, draws, next + 1);
      var right := BuildTree(sorted[n / 2..], t0, t1, boxOf, draws, left.used);
      Built(BvhNode(left.node, right.node, NodeBox(left.node, right.node, boxOf, t0, t1)), right.used)
  }

  /**
   * The shape of the tree: one element is duplicated into both children,
   * two become the two children, more are split at `n / 2` into subtrees
   * over the two halves of the sorted list. Every call consumes at least
   * one draw.
   */
  lemma {:induction false} BuildTreeShape(s: seq<Surface>, t0: real, t1: real,
                                          boxOf: (Surface, real, real) -> Option<Aabb>,
                                          draws: nat -> real, next: nat)
    requires |s| > 0
    ensures var b := BuildTree(s, t0, t1, boxOf, draws, next);
      var sorted := SortedForAxis(s, AsI32(3.0 * draws(next)), boxOf, t0, t1);
      && b.used > next
      && (|s| == 1 ==> b.node.left == sorted[0] && b.node.right == sorted[0])
      && (|s| == 2 ==> b.node.left == sorted[0] && b.node.right == sorted[1])
      && (|s| >= 3 ==>
            && b.node.left == BuildTree(sorted[..|s| / 2], t0, t1, boxOf, draws, next + 1).node
            && b.node.right == BuildTree(sorted[|s| / 2..], t0, t1, boxOf, draws,
                                         BuildTree(sorted[..|s| / 2], t0, t1, boxOf, draws, next + 1).used).node)
    decreases |s|
  {
    var sorted := SortedForAxis(s, AsI32(3.0 * draws(next)), boxOf, t0, t1);
    if |s| >= 3 {
      var left := BuildTree(sorted[..|s| / 2], t0, t1, boxOf, draws, next + 1);
      BuildTreeShape(sorted[..|s| / 2], t0, t1, boxOf, draws, next + 1);
      BuildTreeShape(sorted[|s| / 2..], t0, t1, boxOf, draws, left.used);
    }
  }

  /**
   * The leaves of the tree are the leaves of the input surfaces, each at
   * least as often as in the input and nothing else.
   */
  lemma {:induction false} BuildTreeCoversLeaves(s: seq<Surface>, t0: real, t1: real,
                                                 boxOf: (Surface, real, real) -> Option<Aabb>,
                                                 draws: nat -> real, next: nat)
    requires |s| > 0
    ensures CoversLeaves(BuildTree(s, t0, t1, boxOf, draws, next).node, s)
    decreases |s|
  {
    var sorted := SortedForAxis(s, AsI32(3.0 * draws(next)), boxOf, t0, t1);
    var n := |s|;
    var node := BuildTree(s, t0, t1, boxOf, draws, next).node;
    BuildTreeShape(s, t0, t1, boxOf, draws, next);
    if n <= 2 {
      CoversLeavesOfLeaf(node.left, node.right, node.box, sorted);
    } else {
      var left := BuildTree(sorted[..n / 2], t0, t1, boxOf, draws, next + 1);
      BuildTreeCoversLeaves(sorted[..n / 2], t0, t1, boxOf, draws, next + 1);
      BuildTreeCoversLeaves(sorted[n / 2..], t0, t1, boxOf, draws, left.used);
      assert sorted == sorted[..n / 2] + sorted[n / 2..];
      CoversLeavesOfSplit(node.left, node.right, node.box, sorted[..n / 2], sorted[n / 2..]);
    }
    CoversLeavesPermutation(node, sorted, s);
  }

  /**
   * `BVHNode::new(list, t0, t1)`: sorts the caller's list in place, copies
   * the halves into new lists and recurses on them.
   */
  method Build(list: array<Surface>, t0: real, t1: real,
               boxOf: (Surface, real, real) -> Option<Aabb>, draws: nat -> real, next: nat)
    returns (node: Surface, used: nat)
    requires list.Length > 0
    modifies list
    ensures list[..] == SortedForAxis(old(list[..]), AsI32(3.0 * draws(next)), boxOf, t0, t1)
    ensures Built(node, used) == BuildTree(old(list[..]), t0, t1, boxOf, draws, next)
    decreases list.Length
  {
    var axis := AsI32(3.0 * draws(next));
    var n := list.Length;
    ghost var input := list[..];
    SortInPlace(list, axis, boxOf, t0, t1);
    ghost var sorted := list[..];
    assert |sorted| == n && sorted == SortedForAxis(input, axis, boxOf, t0, t1);
    var left, right;
    if n <= 2 {
      left, right := list[0], list[n - 1];
      used := next + 1;
    } else {
      var half := n / 2;
      var listLeft := CopyRange(list, 0, half);
      var listRight := CopyRange(list, half, n);
      assert listLeft[..] == sorted[..half] && listRight[..] == sorted[half..];
      var usedLeft;
      left, usedLeft := Build(listLeft, t0, t1, boxOf, draws, next + 1);
      assert listRight[..] == sorted[half..];
      right, used := Build(listRight, t0, t1, boxOf, draws, usedLeft);
      assert Built(left, usedLeft) == BuildTree(sorted[..half], t0, t1, boxOf, draws, next + 1);
      assert Built(right, used) == BuildTree(sorted[half..], t0, t1, boxOf, draws, usedLeft);
    }
    node := BvhNode(left, right, NodeBox(left, right, boxOf, t0, t1));
  }

  /**
   * `h` is a nearest of `hits`: nothing exactly when none of them is a hit,
   * otherwise one of them with no larger `t` than any other.
   */
  predicate IsNearest(h: Option<HitRecord>, hits: seq<Option<HitRecord>>) {
    && (h.None? <==> forall i :: 0 <= i < |hits| ==> hits[i].None?)
    && (h.Some? ==>
          && (exists j :: 0 <= j < |hits| && h == hits[j])
          && forall i :: 0 <= i < |hits| && hits[i].Some? ==> h.value.t <= hits[i].value.t)
  }

  lemma FirstNearestIsNearest(h: Option<HitRecord>, hits: seq<Option<HitRecord>>)
    requires IsFirstNearest(h, hits, |hits|)
    ensures IsNearest(h, hits)
  {
    if h.Some? {
      var j :| 0 <= j < |hits| && h == hits[j]
        && (forall i :: 0 <= i < |hits| && hits[i].Some? ==> h.value.t <= hits[i].value.t)
        && (forall i :: 0 <= i < j && hits[i].Some? ==> h.value.t < hits[i].value.t);
    }
  }

  /** Two nearest hits of the same candidates agree on whether there is a hit and on its `t`. */
  lemma NearestIsUnique(h1: Option<HitRecord>, h2: Option<HitRecord>, hits: seq<Option<HitRecord>>)
    requires IsNearest(h1, hits) && IsNearest(h2, hits)
    ensures h1.None? <==> h2.None?
    ensures h1.Some? && h2.Some? ==> h1.value.t == h2.value.t
  {
    if h1.Some? && h2.Some? {
      var j1 :| 0 <= j1 < |hits| && h1 == hits[j1];
      var j2 :| 0 <= j2 < |hits| && h2 == hits[j2];
    }
  }

  /** The answers of the leaves of `s` to the query, in leaf order. */
  function LeafHits(s: Surface, r: Ray, tMin: real, tMax: real): (hits: seq<Option<HitRecord>>)
    requires SqrtTotal() && HitDefined(s, r)
    ensures |hits| == |Leaves(s)|
  {
    match s
    case BvhNode(left, right, _) => LeafHits(left, r, tMin, tMax) + LeafHits(right, r, tMin, tMax)
    case _ => [Surfaces.Hit(s, r, tMin, tMax)]
  }

  /** The nearer of two nearest hits is a nearest hit of both candidate lists together. */
  lemma NearerOfNearest(left: Option<HitRecord>, leftHits: seq<Option<HitRecord>>,
                        right: Option<HitRecord>, rightHits: seq<Option<HitRecord>>)
    requires IsNearest(left, leftHits) && IsNearest(right, rightHits)
    ensures IsNearest(Nearer(left, right), leftHits + rightHits)
  {
    var h := Nearer(left, right);
    var hits := leftHits + rightHits;
    if h.Some? {
      if h == left {
        var j :| 0 <= j < |leftHits| && left == leftHits[j];
        assert h == hits[j];
      } else {
        var j :| 0 <= j < |rightHits| && right == rightHits[j];
        assert h == hits[|leftHits| + j];
      }
    }
    forall i | 0 <= i < |hits| && hits[i].Some?
      ensures h.Some? && h.value.t <= hits[i].value.t
    {
      if i < |leftHits| {
        assert hits[i] == leftHits[i];
      } else {
        assert hits[i] == rightHits[i - |leftHits|];
      }
    }
  }

  /**
   * Given that every box covers the hits of its subtrees (`Admits`),
   * traversal of a BVH returns a nearest of its leaves' hits: the box test
   * never culls a hit, and each node keeps the nearer child hit.
   */
  lemma {:induction false} BvhHitIsNearest(s: Surface, r: Ray, tMin: real, tMax: real)
    requires SqrtTotal() && HitDefined(s, r) && Admits(s, r, tMin, tMax)
    ensures IsNearest(Surfaces.Hit(s, r, tMin, tMax), LeafHits(s, r, tMin, tMax))
  {
    match s
    case BvhNode(left, right, box) =>
      BvhHitIsNearest(left, r, tMin, tMax);
      BvhHitIsNearest(right, r, tMin, tMax);
      var leftHit := Surfaces.Hit(left, r, tMin, tMax);
      var rightHit := Surfaces.Hit(right, r, tMin, tMax);
      NearerOfNearest(leftHit, LeafHits(left, r, tMin, tMax), rightHit, LeafHits(right, r, tMin, tMax));
      if !SlabHit(box, r, tMin, tMax) {
        if leftHit.Some? {
          SlabHitAdmitsCrossing(box, r, tMin, tMax, leftHit.value.t);
        }
        if rightHit.Some? {
          SlabHitAdmitsCrossing(box, r, tMin, tMax, rightHit.value.t);
        }
      }
    case _ =>
      var hits := LeafHits(s, r, tMin, tMax);
      assert hits == [Surfaces.Hit(s, r, tMin, tMax)];
      assert hits[0] == Surfaces.Hit(s, r, tMin, tMax);
  }

  /** The leaves of a queryable tree form a queryable list. */
  lemma {:induction false} LeavesDefined(s: Surface, r: Ray)
    requires HitDefined(s, r)
    ensures HitDefined(List(Leaves(s)), r)
  {
    if s.BvhNode? {
      LeavesDefined(s.left, r);
      LeavesDefined(s.right, r);
      var ls := Leaves(s.left) + Leaves(s.right);
      forall i | 0 <= i < |ls|
        ensures HitDefined(ls[i], r)
      {
        if i < |Leaves(s.left)| {
          assert ls[i] == Leaves(s.left)[i];
        } else {
          assert ls[i] == Leaves(s.right)[i - |Leaves(s.left)|];
        }
      }
    }
  }

  /** ... and if every box admits its subtrees' hits, the leaves narrow consistently. */
  lemma {:induction false} LeavesAdmit(s: Surface, r: Ray, tMin: real, tMax: real)
    requires SqrtTotal() && HitDefined(s, r) && Admits(s, r, tMin, tMax)
    ensures HitDefined(List(Leaves(s)), r) && Admits(List(Leaves(s)), r, tMin, tMax)
  {
    LeavesDefined(s, r);
    if s.BvhNode? {
      LeavesAdmit(s.left, r, tMin, tMax);
      LeavesAdmit(s.right, r, tMin, tMax);
      var ls := Leaves(s.left) + Leaves(s.right);
      forall i | 0 <= i < |ls|
        ensures Admits(ls[i], r, tMin, tMax)
      {
        if i < |Leaves(s.left)| {
          assert ls[i] == Leaves(s.left)[i];
        } else {
          assert ls[i] == Leaves(s.right)[i - |Leaves(s.left)|];
        }
      }
    }
  }

  /** Querying the elements of a concatenation answers for each part in turn. */
  lemma ElementHitsConcat(a: seq<Surface>, b: seq<Surface>, r: Ray, tMin: real, tMax: real)
    requires SqrtTotal()
    requires forall i :: 0 <= i < |a| ==> HitDefined(a[i], r)
    requires forall i :: 0 <= i < |b| ==> HitDefined(b[i], r)
    ensures forall i :: 0 <= i < |a + b| ==> HitDefined((a + b)[i], r)
    ensures ElementHits(a + b, r, tMin, tMax) == ElementHits(a, r, tMin, tMax) + ElementHits(b, r, tMin, tMax)
  {
    forall i | 0 <= i < |a + b|
      ensures HitDefined((a + b)[i], r)
    {
      if i >= |a| {
        assert (a + b)[i] == b[i - |a|];
      }
    }
  }

  /** The leaves' answers, read off the tree or the list of leaves, agree. */
  lemma {:induction false} LeafHitsAreElementHits(s: Surface, r: Ray, tMin: real, tMax: real)
    requires SqrtTotal() && HitDefined(s, r)
    ensures HitDefined(List(Leaves(s)), r)
    ensures ElementHits(Leaves(s), r, tMin, tMax) == LeafHits(s, r, tMin, tMax)
  {
    LeavesDefined(s, r);
    if s.BvhNode? {
      LeafHitsAreElementHits(s.left, r, tMin, tMax);
      LeafHitsAreElementHits(s.right, r, tMin, tMax);
      LeavesDefined(s.left, r);
      LeavesDefined(s.right, r);
      ElementHitsConcat(Leaves(s.left), Leaves(s.right), r, tMin, tMax);
    } else {
      assert Leaves(s) == [s];
    }
  }

  /**
   * Under the same hypothesis, a BVH and a plain list of its leaves report a
   * hit for the same rays, at the same `t`.
   */
  lemma BvhMatchesLinearScan(s: Surface, r: Ray, tMin: real, tMax: real)
    requires SqrtTotal() && HitDefined(s, r) && Admits(s, r, tMin, tMax)
    ensures HitDefined(List(Leaves(s)), r)
    ensures Surfaces.Hit(s, r, tMin, tMax).None? <==> Surfaces.Hit(List(Leaves(s)), r, tMin, tMax).None?
    ensures Surfaces.Hit(s, r, tMin, tMax).Some? ==>
              Surfaces.Hit(s, r, tMin, tMax).value.t == Surfaces.Hit(List(Leaves(s)), r, tMin, tMax).value.t
  {
    LeavesAdmit(s, r, tMin, tMax);
    LeafHitsAreElementHits(s, r, tMin, tMax);
    BvhHitIsNearest(s, r, tMin, tMax);
    var leaves := Leaves(s);
    ListHitIsFirstNearest(leaves, r, tMin, tMax);
    FirstNearestIsNearest(Surfaces.Hit(List(leaves), r, tMin, tMax), ElementHits(leaves, r, tMin, tMax));
    NearestIsUnique(Surfaces.Hit(s, r, tMin, tMax), Surfaces.Hit(List(leaves), r, tMin, tMax), LeafHits(s, r, tMin, tMax));
  }
}
