# A verified model of the raytracing-rust path tracer core

This project models the value-level core of `raytracing-rust`, a small path tracer after *Ray Tracing in One Weekend*. It covers:

- **Vectors and rays.** `Vec3` with its operators and their compound-assignment forms, `Index`/`IndexMut`, `dot`, `cross`, `length`, `normalize`, `unit_vector`; `Ray` and `point_at_parameter`.
- **Bounding boxes.** `AABB` with its slab test `hit`, `ffmin`/`ffmax`, `surrounding_box`.
- **Surfaces.** The `Hitable` query on spheres and moving spheres, on a `HitableList`, and on a `BVHNode`, including its construction `BVHNode::new`.
- **Materials.** `reflect` and the Lambertian and Metal `scatter`.
- **Camera.** `look_at`, `look_at_temporal` and `get_ray`.
- **Image.** The buffer, `set_pixel`, and the plain PPM (Netpbm `P3`) text that `save_as` writes.
- **The example renderer** (`examples/one_weekend/main.rs`). The recursive radiance estimate `color`, and the pixel loop that averages the samples and applies the square-root gamma.

Arithmetic is idealised to `real`. The square root is `Numerics.Sqrt`, the unique non-negative root. It is defined under the hypothesis `SqrtTotal()` (every non-negative real has a root), which every member that takes a root carries. Every random draw is an input:

- the BVH axis is a stream `draws: nat -> real`;
- the Lambertian unit-sphere sample is a parameter;
- each pixel sample has its jitter, lens-disk sample and shutter draw (`PixelDraw`);
- each bounce depth has a unit-sphere sample (`bounce: nat -> Vec3`).

Modules follow the source files:

| module | file | source |
|---|---|---|
| `Numerics` | `numerics.dfy` | square root, `as i32` cast, `f32::MAX` |
| `Vectors` | `vec3.dfy` | `vec3.rs`. Pure operators are functions; `Vec3Mut` is a class over the three-element array `e`, whose methods are the in-place operations. |
| `Rays` | `ray.dfy` | `ray.rs` |
| `Boxes` | `aabb.dfy` | `aabb.rs` |
| `Hitables` | `hitable.dfy` | `hitable.rs`, plus the `Material` enum and the `Surface` datatype with one constructor per `Hitable` implementation |
| `Spheres` | `sphere.dfy` | `sphere.rs` |
| `Surfaces` | `surfaces.dfy` | one `Hit` dispatch over all surfaces |
| `HitableLists` | `hitable_list.dfy` | the scan loop as a method |
| `Bvh` | `bvh.dfy` | `bvh.rs`. Construction is a method over arrays, specified by a function. |
| `Materials` | `material.dfy` | `material.rs`. Each `scatter` is a method with out-parameters, specified by a function. |
| `Cameras` | `camera.dfy` | `camera.rs` |
| `Images` | `image.dfy` | `image.rs`. `Image` is a class over an array. |
| `OneWeekend` | `one_weekend.dfy` | the example's `color` and pixel loops |

Points where the code's behaviour is easy to misread, and what the model does about each:

- **A miss returns the sky at every depth.** The depth test sits only on the hit branch (`examples/one_weekend/main.rs:17-33`). So a hit at depth 50 or more is black, but a miss is the sky whatever the depth; `OneWeekend.Color` states both.
- **There are two materials.** `Material` has only `Lambertian` and `Metal` (`src/core/material.rs:58-61`).
- **The scene query's upper bound is `f32::MAX`** (`examples/one_weekend/main.rs:17`), not infinity.
- **The slab test does not narrow across axes.** In `AABB::hit` the narrowed `t_min`/`t_max` are `let` bindings local to one loop iteration (`src/core/aabb.rs:31-32`), so every axis is tested against the caller's interval. The model reproduces this, and `Boxes.PerAxisTestAcceptsMiss` exhibits a ray the test accepts although it misses the box.
- **A scattered ray keeps the incoming ray's time.** `src/core/material.rs:24,50` call `Ray::new` with two arguments, while `src/core/ray.rs:11` takes a third, the time. The model passes the incoming ray's time.
- **There is no `bounding_box` for spheres.** Sphere and moving-sphere boxes are not defined in the code, so `Bvh.BoundingBox` takes them from a parameter `boxOf`.

## Model

| member | source | states |
|---|---|---|
| Numerics.Recip | src/core/aabb.rs:25 | `1.0 / d` is the inverse of `d`, and it has the sign of `d` |
| Numerics.Sqrt | src/core/vec3.rs:60-62 | `f32::sqrt` of a non-negative value: the non-negative number whose square is the argument (unique) |
| Numerics.SqrtOfSquare | examples/one_weekend/main.rs:104 | the root of the square of a non-negative number is that number |
| Numerics.SqrtInUnitInterval | examples/one_weekend/main.rs:104 | the gamma root maps `[0, 1]` into `[0, 1]` |
| Numerics.Trunc | src/core/image.rs:53-55 | float-to-integer conversion rounds toward zero: within 1 of `x`, on the side of zero |
| Numerics.AsI32 | src/core/image.rs:53-55 | `as i32` stays within the `i32` bounds, equals truncation toward zero whenever that is in range, and saturates: at least `i32::MAX + 1` gives `i32::MAX`, below `i32::MIN` gives `i32::MIN` |
| Vectors.Index | src/core/vec3.rs:243-249 | `v[0]`, `v[1]`, `v[2]` are the elements `e[0..2]` that `x()/y()/z()` (vec3.rs:36-46) and `r()/g()/b()` (vec3.rs:48-58) also read |
| Vectors.Add | src/core/vec3.rs:84-86 | element `i` of `a + b` is the sum of the operands' elements `i` |
| Vectors.AddScalar | src/core/vec3.rs:92-94 | `v + k` adds `k` to every component |
| Vectors.ScalarAdd | src/core/vec3.rs:100-102 | `k + v` is `v + k` |
| Vectors.Sub | src/core/vec3.rs:124-126 | `a - b` is the vector that gives `a` when `b` is added back |
| Vectors.SubScalar | src/core/vec3.rs:132-134 | `v - k` gives `v` when `k` is added back to every component |
| Vectors.ScalarSub | src/core/vec3.rs:140-142 | `k - v` plus `v` is `k` in every component |
| Vectors.AddCommutes | src/core/vec3.rs:84-86 | vector addition is commutative |
| Vectors.AddThenSub | src/core/vec3.rs:124-126 | subtracting `b` undoes adding `b` |
| Vectors.Mul | src/core/vec3.rs:164-166 | element `i` of `a * b` is the product of the operands' elements `i` |
| Vectors.MulScalar | src/core/vec3.rs:172-174 | `v * k` is the componentwise product with `(k, k, k)` |
| Vectors.ScalarMul | src/core/vec3.rs:180-182 | `k * v` is `v * k` |
| Vectors.MulCommutes | src/core/vec3.rs:164-166 | the componentwise product is commutative |
| Vectors.Div | src/core/vec3.rs:204-206 | `a / b` multiplied back by `b` gives `a` (no zero component in `b`) |
| Vectors.DivScalar | src/core/vec3.rs:212-215 | `v / k`, computed by multiplying with `1 / k`, gives `v` back when multiplied by `k` |
| Vectors.ScalarDiv | src/core/vec3.rs:221-223 | `k / v` multiplied by `v` is `k` in every component |
| Vectors.DotSymmetric | src/core/vec3.rs:257-259 | `dot` is symmetric |
| Vectors.DotByElements | src/core/vec3.rs:257-259 | `dot(a, b)` is the sum over `i` of `a[i] b[i]` |
| Vectors.Cross | src/core/vec3.rs:261-266 | `cross(a, b)` is orthogonal to both `a` and `b` |
| Vectors.DotScaled | src/core/vec3.rs:257-259 | scaling one argument by `k` scales the dot product by `k` |
| Vectors.CrossLength | src/core/vec3.rs:261-266 | Lagrange's identity: `|a × b|² = |a|²|b|² - (a·b)²` |
| Vectors.SquaredLength | src/core/vec3.rs:64-66 | `squared_length(v) == dot(v, v)` |
| Vectors.SquaredLengthSign | src/core/vec3.rs:64-66 | the squared length is non-negative, and zero exactly for the zero vector |
| Vectors.Length | src/core/vec3.rs:60-62 | `length` is the non-negative root of `squared_length`; zero exactly for the zero vector |
| Vectors.UnitVector | src/core/vec3.rs:76-79 | `unit_vector(v)` of a non-zero `v` has squared length 1, and scaled by `length(v)` it gives `v` back |
| Vectors.UnitLength | src/core/vec3.rs:76-79 | dividing each component by a positive root of the squared length gives squared length 1 |
| Vectors.Vec3Mut.constructor | src/core/vec3.rs:12-14 | `Vec3::new` stores the three components in a fresh array `e` |
| Vectors.Vec3Mut.AddAssign | src/core/vec3.rs:106-110 | after `x += y`, `x` holds `old x + y` |
| Vectors.Vec3Mut.AddAssignScalar | src/core/vec3.rs:114-118 | after `x += k`, `x` holds `old x + k` |
| Vectors.Vec3Mut.SubAssign | src/core/vec3.rs:146-150 | after `x -= y`, `x` holds `old x - y` |
| Vectors.Vec3Mut.SubAssignScalar | src/core/vec3.rs:154-158 | after `x -= k`, `x` holds `old x - k` |
| Vectors.Vec3Mut.MulAssign | src/core/vec3.rs:186-190 | after `x *= y`, `x` holds `old x * y` |
| Vectors.Vec3Mut.MulAssignScalar | src/core/vec3.rs:194-198 | after `x *= k`, `x` holds `old x * k` |
| Vectors.Vec3Mut.DivAssign | src/core/vec3.rs:227-231 | after `x /= y`, `x` holds `old x / y` |
| Vectors.Vec3Mut.DivAssignScalar | src/core/vec3.rs:235-240 | after `x /= k`, `x` holds `old x / k`, computed through the reciprocal as `/` does |
| Vectors.Vec3Mut.SetIndex | src/core/vec3.rs:252-254 | writing through `IndexMut(i)` sets component `i` and leaves the other two unchanged |
| Vectors.Vec3Mut.Normalize | src/core/vec3.rs:68-73 | `normalize` leaves exactly the components `unit_vector` returns for the old value |
| Rays.AccessorsReturnConstructorArguments | src/core/ray.rs:11-29 | `origin()`, `direction()`, `time()` return the `a`, `b`, `t` given to `new` |
| Rays.PointAtParameter | src/core/ray.rs:23-25 | `point_at_parameter(t)` is reached from the origin by `t` times the direction |
| Rays.PointAtZero | src/core/ray.rs:23-25 | `point_at_parameter(0) == origin()` |
| Rays.PointDifference | src/core/ray.rs:23-25 | `point_at_parameter(t1) - point_at_parameter(t2) == (t1 - t2) * direction()` |
| Hitables.HitRecordNewFields | src/core/hitable.rs:14-27 | `HitRecord::new()` has `t == 0`, `p == (0,0,0)`, normal `(0,0,1)` and a Lambertian material with albedo `(0,0,0)`; `default()` equals `new()` |
| Spheres.ChooseRoot | src/core/sphere.rs:29-52 | the accepted root is the near or the far root, strictly inside `(t_min, t_max)`; none exactly when neither is inside |
| Spheres.RecordAt | src/core/sphere.rs:32-37 | the record of an accepted root `t` holds `t`, the point `point_at_parameter(t)`, the sphere's material, and a normal that times `radius` is `p - center` |
| Spheres.SphereHitAt | src/core/sphere.rs:21-56 | the hit lies strictly inside the interval, at `point_at_parameter(t)`, on the sphere, with normal `(p - center)/radius` of unit length and the sphere's material; a discriminant `<= 0` (tangency included) gives `None` |
| Spheres.SphereQuadratic | src/core/sphere.rs:22-26 | along the ray, `|p(t) - center|² - radius²` is `a t² + 2 b t + c` with the `a`, `b`, `c` of the code |
| Spheres.OnSphereIffRoot | src/core/sphere.rs:22-26 | the point at `t` is on the sphere if and only if `t` solves the quadratic |
| Spheres.QuadraticRoots | src/core/sphere.rs:29-41 | with `s² = b² - a c`, the quadratic vanishes at `t` if and only if `a t = -b ± s` |
| Spheres.NonDegenerate | src/core/sphere.rs:26-29 | a positive discriminant forces `a > 0` and `radius != 0`, so both divisions of `hit` are defined |
| Spheres.RootOfQuadratic | src/core/sphere.rs:29-41 | both `(-b ± sqrt(b² - a c)) / a` solve the quadratic |
| Spheres.RootIsOnSphere | src/core/sphere.rs:29-48 | each root's point is on the sphere, and its normal `(p - center)/radius` has unit length |
| Spheres.UnitNormal | src/core/sphere.rs:36 | a point at distance `radius` from the center, divided by `radius`, has unit length |
| Spheres.RootsOrdered | src/core/sphere.rs:29-41 | the root tried first is never larger than the second |
| Spheres.CrossingIsRoot | src/core/sphere.rs:22-41 | every parameter at which the ray meets the sphere is one of the two roots |
| Spheres.RootSolves | src/core/sphere.rs:29-41 | each of `(-b ± s)/a` solves `a t² + 2 b t + c = 0` |
| Spheres.SolutionIsRoot | src/core/sphere.rs:29-41 | every solution of `a t² + 2 b t + c = 0` is one of `(-b ± s)/a` |
| Spheres.SphereHitIsNearest | src/core/sphere.rs:21-56 | if the ray meets the sphere strictly inside the interval, `hit` reports a hit no farther than that crossing |
| Spheres.SphereHitRootOrder | src/core/sphere.rs:29-52 | the smaller root is returned whenever it is inside the interval; the larger one only otherwise |
| Spheres.ChooseRootNarrows | src/core/sphere.rs:29-52 | on a narrower interval `(t_min, c)` the root choice keeps the wider choice if it lies below `c`, else chooses none |
| Spheres.SphereHitNarrows | src/core/sphere.rs:21-56 | querying `(t_min, c)` finds the hit of `(t_min, t_max)` if it lies below `c`, and nothing otherwise |
| Spheres.MovingCenter | src/core/sphere.rs:80-82 | the centre is `center0` at `time0` and `center1` at `time1` (when `time1 != time0`) |
| Spheres.Center | src/core/sphere.rs:80-82 | `MovableSphere::center` is at the sphere's `center0` at `time0` and at its `center1` at `time1` |
| Spheres.SphereHit | src/core/sphere.rs:21-56 | `Sphere::hit` reports only points of the sphere strictly inside the interval, with the sphere's material |
| Spheres.MovableSphereHit | src/core/sphere.rs:86-121 | `MovableSphere::hit` is the sphere test against `center(r.time())`: its hits lie on that sphere, inside the interval |
| Boxes.FfMin | src/core/aabb.rs:46-48 | `ffmin` returns one of its arguments, no greater than either |
| Boxes.FfMax | src/core/aabb.rs:42-44 | `ffmax` returns one of its arguments, no smaller than either |
| Boxes.MinCorner | src/core/aabb.rs:51-55 | the `small` corner is componentwise below both minimum corners |
| Boxes.MaxCorner | src/core/aabb.rs:57-61 | the `big` corner is componentwise above both maximum corners |
| Boxes.SurroundingBox | src/core/aabb.rs:50-64 | `surrounding_box` contains both inputs |
| Boxes.SurroundingBoxIsLeast | src/core/aabb.rs:50-64 | every box containing both inputs contains their `surrounding_box` |
| Boxes.SurroundingBoxIdempotent | src/core/aabb.rs:50-64 | `surrounding_box(b, b) == b` |
| Boxes.SurroundingBoxCommutes | src/core/aabb.rs:50-64 | `surrounding_box` is commutative |
| Boxes.SurroundingBoxWellFormed | src/core/aabb.rs:50-64 | the union of boxes with `min <= max` has `min <= max` |
| Boxes.Hit | src/core/aabb.rs:23-39 | `hit` is true exactly when every axis, each clipped against the caller's `(t_min, t_max)`, leaves a non-empty interval |
| Boxes.AxisStep | src/core/aabb.rs:25-36 | one loop iteration: the slab interval (swapped when `1/d < 0`), clipped, is non-empty |
| Boxes.SlabIntervalOrdered | src/core/aabb.rs:26-30 | after the swap `t0 <= t1` on an axis where `min <= max` |
| Boxes.SlabHit | src/core/aabb.rs:23-39 | what `hit` returns never holds for an input interval with `t_max <= t_min` |
| Boxes.SlabAdmitsCrossing | src/core/aabb.rs:26-30 | a crossing between two distinct planes lies inside the slab's interval, which is not a single point |
| Boxes.AxisAdmitsCrossing | src/core/aabb.rs:25-35 | an axis whose slab the ray is inside at some `t` in the interval passes the test |
| Boxes.SlabHitAdmitsCrossing | src/core/aabb.rs:23-39 | the test never rejects a ray that meets a box of positive extent inside the interval |
| Boxes.SlabHitMonotone | src/core/aabb.rs:23-39 | if the test accepts a narrower interval it accepts the wider one |
| Boxes.FlatBoxRejectsEveryRay | src/core/aabb.rs:23-39 | a box whose `min` and `max` agree on some axis, as the zero box does, is rejected by every ray the slab test is defined for (no zero direction component) |
| Boxes.BesideUnitBoxSlab | src/core/aabb.rs:26-30 | the slab intervals of the witness ray against the unit box are `[2, 3]`, `[0, 1]`, `[-0.5, 0.5]` |
| Boxes.BesideUnitBoxAccepted | src/core/aabb.rs:23-39 | the test accepts the witness ray on `(-10, 10)` |
| Boxes.BesideUnitBoxMisses | src/core/aabb.rs:23-39 | no point of the witness ray is in the unit box |
| Boxes.PerAxisTestAcceptsMiss | src/core/aabb.rs:31-35 | because the narrowed bounds do not carry over between axes, the test accepts a ray that misses the box |
| HitableLists.ListHit | src/core/hitable_list.rs:21-37 | the loop returns the fold `Scan` over all elements; an empty list returns `None` |
| HitableLists.FirstNearestStep | src/core/hitable_list.rs:25-33 | querying the next element on `(t_min, closest_so_far)` and keeping its hit keeps the answer the first nearest |
| HitableLists.ScanIsFirstNearest | src/core/hitable_list.rs:25-34 | after `k` iterations the best hit is the nearest of the first `k` elements' own hits, the earliest on ties, and `None` exactly when none hits, given every element admits its hits (spheres and lists always do) |
| HitableLists.ListHitIsFirstNearest | src/core/hitable_list.rs:21-37 | `HitableList::hit` returns the nearest element hit on `(t_min, t_max)`, the earlier element on equal `t`, and `None` exactly when no element hits, given every element admits its hits (spheres and lists always do) |
| Surfaces.Hit | src/core/hitable.rs:29-31 | every surface's `hit` honours the `Hitable` contract: a reported hit is strictly inside the interval, at the ray's point, with a unit normal and one of the surface's materials |
| Surfaces.Scan | src/core/hitable_list.rs:22-34 | the scan's best hit after `k` iterations honours the same contract as a single surface |
| Surfaces.Nearer | src/core/bvh.rs:97-102 | the traversal keeps the child hit with the smaller `t` (the right one on ties) or the only one; `None` exactly when neither child hits |
| Surfaces.NearerNarrows | src/core/bvh.rs:97-102 | choosing the nearer child commutes with narrowing the interval |
| Surfaces.HitNarrows | src/core/hitable_list.rs:25-33 | a query on `(t_min, c)` returns the hit of `(t_min, t_max)` if it lies below `c`, else nothing, given every BVH box admits its subtrees' hits |
| Surfaces.ScanNarrows | src/core/hitable_list.rs:25-33 | the list scan narrows the same way |
| Bvh.BoundingBox | src/core/bvh.rs:108-110 | a BVH node's `bounding_box` is its cached box |
| Bvh.BoxCompare | src/core/bvh.rs:16-44 | `Equal` if either box is missing; otherwise `Less` exactly when the first lower corner is below the second on the axis, else `Greater`, even for equal corners |
| Bvh.Insert | src/core/bvh.rs:52-54 | inserting into a sorted list keeps it sorted and adds exactly that element |
| Bvh.SortByKey | src/core/bvh.rs:52-54 | the sort is a permutation of its input, sorted by the axis key |
| Bvh.SortedForAxis | src/core/bvh.rs:48-56 | `sort_by` along axis 0, 1 or 2 permutes the list; any other axis leaves it unchanged |
| Bvh.SortedForAxisHasNoInversion | src/core/bvh.rs:52-54 | after the sort no later element compares `Less` than an earlier one under the source's comparator |
| Bvh.SortInPlace | src/core/bvh.rs:51-56 | the caller's array is reordered in place into the sorted list |
| Bvh.LeavesOfSeqPermutation | src/core/bvh.rs:51-56 | reordering the surfaces reorders their leaves, as a multiset |
| Bvh.CoversLeavesOfLeaf | src/core/bvh.rs:61-69 | a one-element list duplicated into both children, or a two-element list split into them, covers exactly the list's leaves |
| Bvh.CoversLeavesOfSplit | src/core/bvh.rs:70-78 | a node over subtrees covering two halves covers their concatenation |
| Bvh.NodeBox | src/core/bvh.rs:81-87 | the node box is `surrounding_box` of the children's boxes when both exist, else the zero box at the origin |
| Bvh.BoxlessChildHidesNode | src/core/bvh.rs:81-87 | a node built over a child without a bounding box gets the zero box, so its `hit` returns nothing for every ray it is defined for and every interval |
| Bvh.CopyRange | src/core/bvh.rs:71-75 | `split_at` followed by `extend` gives a fresh list holding the slice |
| Bvh.BuildTree | src/core/bvh.rs:47-88 | `BVHNode::new` returns a node whose box is the union of its children's boxes (bvh.rs:81-87) |
| Bvh.BuildTreeShape | src/core/bvh.rs:47-88 | one element gives two copies of it, two give left and right, more split at `n/2` into subtrees over the two halves of the sorted list; every call consumes at least one axis draw |
| Bvh.BuildTreeCoversLeaves | src/core/bvh.rs:61-78 | the tree's leaves are the input surfaces' leaves: each occurs at least as often as in the input, and nothing else occurs |
| Bvh.Build | src/core/bvh.rs:47-88 | `BVHNode::new` on a non-empty list sorts the caller's list in place along the drawn axis and returns the tree `BuildTree` describes |
| Bvh.FirstNearestIsNearest | src/core/hitable_list.rs:21-37 | the list's first-nearest answer is a nearest one |
| Bvh.NearerOfNearest | src/core/bvh.rs:97-102 | the nearer of the two children's nearest hits is a nearest hit of all their leaves |
| Bvh.BvhHitIsNearest | src/core/bvh.rs:92-106 | if every box admits its subtrees' hits, BVH `hit` returns a nearest of its leaves' hits |
| Bvh.BvhMatchesLinearScan | src/core/bvh.rs:92-106 | under the same hypothesis, the BVH and a linear scan over its leaves agree on whether there is a hit and at which `t` |
| Materials.Reflect | src/core/material.rs:30-32 | `reflect(v, n)` plus `2 dot(v, n) n` gives back `v` |
| Materials.ReflectFlipsNormalComponent | src/core/material.rs:30-32 | for unit `n`, `dot(reflect(v, n), n) == -dot(v, n)` |
| Materials.ReflectIsInvolution | src/core/material.rs:30-32 | for unit `n`, reflecting twice gives `v` back |
| Materials.ReflectZero | src/core/material.rs:30-32 | the zero vector reflects to itself |
| Materials.ReflectNonZero | src/core/material.rs:30-32 | for unit `n`, a non-zero vector never reflects to zero |
| Materials.LambertianOutcome | src/core/material.rs:22-27 | Lambertian scatter always scatters, with attenuation the albedo, from `rec.p` along `rec.normal + sample`, at the incoming ray's time |
| Materials.LambertianDirectionNonZero | src/core/material.rs:23-24 | with a unit normal and a sample inside the unit sphere, the scattered direction is non-zero |
| Materials.LambertianScatter | src/core/material.rs:22-27 | the out-parameters and result are those of `LambertianOutcome` |
| Materials.MetalOutcome | src/core/material.rs:46-54 | Metal reflects the normalised incoming direction about `rec.normal`, from `rec.p`, with the albedo; it scatters if and only if `dot(reflected, normal) > 0`, and both out-parameters are written either way |
| Materials.MetalScattersIffIncoming | src/core/material.rs:46-54 | with a unit normal, Metal scatters exactly the rays that arrive against the normal |
| Materials.UnitVectorOfUnit | src/core/material.rs:47-48 | normalising a unit vector leaves it unchanged |
| Materials.MetalHeadOn | src/core/material.rs:46-54 | an incoming direction `-n` against a unit normal `n` scatters, along `n` |
| Materials.MetalScatter | src/core/material.rs:46-54 | the out-parameters and result are those of `MetalOutcome` |
| Materials.Outcome | src/core/material.rs:64-69 | `Material::scatter` delegates to the variant's scatter |
| Materials.ScatteredDirectionNonZero | src/core/material.rs:64-69 | every material attenuates by its albedo, and a ray with a direction scatters into one (unit normal, sample inside the unit sphere) |
| Materials.MaterialScatter | src/core/material.rs:64-69 | the dispatching method leaves the results of `Outcome` |
| Cameras.ViewFrame | src/core/camera.rs:49-51 | `w = unit(pos - target)`, `u = unit(up × w)`, `v = w × u` form an orthonormal frame |
| Cameras.FrameIsOrthonormal | src/core/camera.rs:50-51 | `v = cross(w, u)` is orthogonal to `w` and `u`, and all three have unit length |
| Cameras.LookAtTemporal | src/core/camera.rs:44-65 | `look_at_temporal` sets the origin to `pos`, `lens_radius = 0.5 * aperture`, the shutter to `[t0, t1]` and the frame above; `horizontal = 2 half_width focus_dist u` and `vertical = 2 half_height focus_dist v` with `half_width = aspect half_height`; `lower_left_corner = pos - half_width focus_dist u - half_height focus_dist v - focus_dist w`; so the middle of the focus plane lies `focus_dist` in front of `pos`, along `-w` |
| Cameras.LookAt | src/core/camera.rs:21-42 | `look_at` is `look_at_temporal` with `time0 = time1 = 0` (same corner, spans and frame, camera.rs:32-34) |
| Cameras.ViewCentredOnAxis | src/core/camera.rs:32-34 | the middle of the focus plane, `lower_left_corner + horizontal/2 + vertical/2`, lies `focus_dist` in front of `pos`, along `-w` |
| Cameras.GetRay | src/core/camera.rs:67-72 | the ray starts at `origin + u rd.x + v rd.y`, `origin + direction` is `lower_left_corner + s horizontal + t vertical`, and the time is `time0 + r (time1 - time0)` |
| Cameras.RayTimeInShutter | src/core/camera.rs:70 | for a draw in `[0, 1)` and `time0 <= time1` the ray's time lies in `[time0, time1]` |
| Cameras.LookAtRaysAtTimeZero | src/core/camera.rs:39-40 | every ray of a `look_at` camera has time 0 |
| Cameras.RayStartsOnLens | src/core/camera.rs:68-71 | for a disk sample, the ray origin lies within `lens_radius` of the camera origin |
| Cameras.PinholeHasNoOffset | src/core/camera.rs:68-69 | with lens radius 0 the lens offset is zero |
| Cameras.PinholeRaysStartAtOrigin | src/core/camera.rs:68-71 | with lens radius 0 every ray starts at the camera origin |
| Cameras.ZeroApertureRaysStartAtPos | src/core/camera.rs:44-72 | with aperture 0 every ray of `look_at_temporal` starts at `pos` |
| Cameras.OffsetLength | src/core/camera.rs:69 | in an orthonormal pair, `|u a + v b|² = a² + b²` |
| Images.Inverse | src/core/image.rs:18-19 | `1.0 / n` is the finite inverse of `n > 0`, and infinity exactly for `n == 0` |
| Images.RowStartIsProduct | src/core/image.rs:41 | the start of row `j` is `j * width` |
| Images.PixelIndexInBounds | src/core/image.rs:41 | for `i < width` and `j < height` the index `i + j * width` is inside the buffer |
| Images.PixelIndexInjective | src/core/image.rs:41 | distinct `(i, j)` with `i < width` address distinct cells |
| Images.ColumnPastWidthAliasesNextRow | src/core/image.rs:41 | the column is not checked: `(width, j)` is cell `(0, j + 1)` |
| Images.WriteTouchesOnlyItsPixel | src/core/image.rs:40-42 | writing pixel `(i, j)` changes no other pixel of the image |
| Images.PixelOffset | src/core/image.rs:41 | the computed offset is `i + j * width` and inside the buffer |
| Images.NatToStringRoundTrip | src/core/image.rs:47 | the decimal digits written for a size read back as that size |
| Images.IntToStringRoundTrip | src/core/image.rs:57 | the text written for a channel value reads back as that value |
| Images.Channel | src/core/image.rs:53-55 | a channel is within the `i32` bounds; for `c` in `[0, 1]` it is the integer part of `255.99 c`, from 0 to 255 |
| Images.ColourLine | src/core/image.rs:57 | the pixel line is three integer texts separated by single spaces, which read back as the three channels |
| Images.Header | src/core/image.rs:47 | the header is three lines: `P3`; the width and height as integer texts separated by a space, reading back as `w` and `h`; `255` |
| Images.RowsFromLayout | src/core/image.rs:49-59 | among the rows written from the top down to row `lo`, pixel `(i, j)` is at position `(h - 1 - j) w + i` |
| Images.WriteOrder | src/core/image.rs:49-59 | the pixels are written top row first, left to right, each once: pixel `(i, j)` is the `((h - 1 - j) w + i)`-th written |
| Images.PpmLineAt | src/core/image.rs:47-59 | line `3 + k` of the file formats the `k`-th pixel written |
| Images.PpmLines | src/core/image.rs:47-59 | the file has 3 header lines, then exactly `w h` pixel lines |
| Images.Image.constructor | src/core/image.rs:14-22 | `Image::new(w, h)` has `w h` black pixels, width `w`, height `h` and the inverse sizes |
| Images.Image.Width | src/core/image.rs:24-26 | `width()` is the row length: the buffer holds `width * height` pixels |
| Images.Image.Height | src/core/image.rs:28-30 | `height()` is the row count: the buffer holds `height * width` pixels |
| Images.Image.InvWidth | src/core/image.rs:32-34 | `inv_width()` is the reciprocal of the width, infinite exactly when the width is zero |
| Images.Image.InvHeight | src/core/image.rs:36-38 | `inv_height()` is the reciprocal of the height, infinite exactly when the height is zero |
| Images.Image.SetPixel | src/core/image.rs:40-42 | `set_pixel` writes cell `i + j * width` and no other cell |
| Images.Image.SaveLines | src/core/image.rs:44-60 | `save_as` emits the header and then the pixel lines of `PpmLines` |
| Images.Image.EmitRow | src/core/image.rs:50-58 | the inner loop appends row `j`'s pixel lines, left to right |
| OneWeekend.SurfaceSceneIsProper | examples/one_weekend/main.rs:17 | a surface queried on `(0.001, f32::MAX)` returns records with unit normals and with its own materials |
| OneWeekend.Color | examples/one_weekend/main.rs:14-34 | a miss returns the sky gradient at every depth; a hit at depth `>= 50` is black |
| OneWeekend.ShallowHitScatters | examples/one_weekend/main.rs:18-22 | a hit at depth `< 50` is `attenuation * color(scattered, depth + 1)`, or black when absorbed |
| OneWeekend.Sky | examples/one_weekend/main.rs:30-32 | the blend factor is in `[0, 1]`, so each sky channel lies between white and `(0.5, 0.7, 1.0)` |
| OneWeekend.SkyOverhead | examples/one_weekend/main.rs:30-32 | straight up the sky is `(0.5, 0.7, 1.0)` |
| OneWeekend.SkyOfUnitY | examples/one_weekend/main.rs:30-32 | a ray whose unit direction has `y == 1` sees `(0.5, 0.7, 1.0)` |
| OneWeekend.AttenuatedInUnitCube | examples/one_weekend/main.rs:20 | attenuating a colour in `[0, 1]³` by an albedo in `[0, 1]³` stays in `[0, 1]³` |
| OneWeekend.ColorInUnitCube | examples/one_weekend/main.rs:14-34 | with albedos in `[0, 1]`, every channel of `color` lies in `[0, 1]` |
| OneWeekend.SampleCoordinateInUnitInterval | examples/one_weekend/main.rs:96-97 | `(i + r) / n` lies in `[0, 1)` for `i < n` and `r` in `[0, 1)` |
| OneWeekend.SampleRay | examples/one_weekend/main.rs:96-98 | for a pixel of the image and a jitter in `[0, 1)`, the sample ray is aimed at a point `lower_left_corner + s horizontal + t vertical` with `s`, `t` in `[0, 1)`; its time is the shutter draw's |
| OneWeekend.SampleColors | examples/one_weekend/main.rs:98-100 | one colour per sample, each `color(cam.get_ray(u, v), world, 0)` |
| OneWeekend.SampleColorsInUnitCube | examples/one_weekend/main.rs:95-101 | every sample colour lies in `[0, 1]³` |
| OneWeekend.Mean | examples/one_weekend/main.rs:103 | `col /= ns` gives a colour that, times `ns`, is the sum; it stays in `[0, 1]³` |
| OneWeekend.Gamma | examples/one_weekend/main.rs:104 | each channel is the non-negative square root of the input channel, and a colour in `[0, 1]³` stays there |
| OneWeekend.PixelColorInUnitCube | examples/one_weekend/main.rs:93-104 | the stored colour lies in `[0, 1]³`, and each channel squared is the mean of the samples' channel |
| OneWeekend.PixelColorOfSum | examples/one_weekend/main.rs:93-104 | the stored colour is the per-channel root of the accumulated sum divided by `ns` |
| OneWeekend.AddSample | examples/one_weekend/main.rs:98-100 | one iteration adds the sample's colour to `col` |
| OneWeekend.AccumulateSamples | examples/one_weekend/main.rs:93-101 | after the sample loop `col` is the sum of all sample colours |
| OneWeekend.RenderPixel | examples/one_weekend/main.rs:93-104 | the pixel body computes the gamma-corrected mean of the samples |
| OneWeekend.RenderRow | examples/one_weekend/main.rs:92-107 | after the inner loop every pixel of row `j` shows its colour and the other rows are unchanged |
| OneWeekend.Render | examples/one_weekend/main.rs:91-108 | after the loops (rows from the top) every pixel holds the colour rendered for it |

## Left out

- IEEE-754 single precision is not modelled: no rounding, NaN or infinity. The code's degenerate inputs (a zero direction component in the slab test, `time0 == time1`, normalising the zero vector, `ns == 0`) propagate NaN or infinity; the model instead requires non-zero divisors. The one exception is `Image::new`'s `1.0 / 0`, modelled as an explicit infinity (`Images.Inverse`).
- Numerics.Sqrt: `f32::sqrt` is a function only under the hypothesis `SqrtTotal()`, which the verifier cannot construct a witness for.
- Vectors.Vec3Mut.Normalize: requires a non-zero vector, because over reals the code's division by a zero length has no value.
- Vectors.Index, Vectors.Vec3Mut.SetIndex: require `i < 3`. The code's `Index`/`IndexMut` panic on a larger index (`src/core/vec3.rs:243-255`); that panic is not modelled.
- Images.Image.SetPixel: requires `i + j * width` inside the buffer. The code's indexing panics past `w * h` (`src/core/image.rs:41`); that panic is not modelled.
- The transcendentals: `f32::tan` and `PI` in the camera are parameters (`tan`, `pi`).
- Randomness is not modelled. `src/core/sampling.rs` (rejection loops over `rand::random`) is not part of this model; its samples are inputs, with "inside the unit sphere" or "inside the unit disk" as preconditions.
- File I/O: file creation and buffered writing in `save_as`. Only the sequence of lines written is modelled.
- Entrypoints outside the core:
  - `src/main.rs`, a fixed sky render written straight to a file, is not part of this model;
  - the example's scene construction and its `save_as` call (`examples/one_weekend/main.rs:36-90,110`) are not modelled.
- Rust ownership: `Box<dyn Hitable>`, `clone`, `clone_to_box` and `deref` are not modelled. Surfaces are one datatype, and cloning is copying a value.
- Bvh.SortedForAxis: specified as a stable sort by axis key (boxless surfaces first), with no inversion under the source's comparator. What Rust's `sort_by` does with that inconsistent comparator is not modelled.
- Bvh.BuildTree: requires a non-empty list. With an empty list the code splits into two empty halves forever.
- Bvh.BvhHitIsNearest, Bvh.BvhMatchesLinearScan: hold under the hypothesis `Admits`, that each node box covers its subtrees' hits. Sphere boxes are not defined by the code (`boxOf`), so the hypothesis cannot be discharged.
- The `bounding_box` of spheres and moving spheres is a parameter `boxOf`. The code defines none.
- OneWeekend.Color: the scene is a function from a ray to the record its query fills in (`Scene`), and `SurfaceScene` connects it to `Surfaces.Hit`. The `&mut rec` out-parameter and `bool` result of the example's `hit` are folded into that `Option`.
- OneWeekend.SurfaceSceneIsProper: `SurfaceScene` requires `Queryable`, that every ray can be queried. A world containing a `BVHNode` is never `Queryable`, because the slab test needs every direction component non-zero. So the link from `Color` to `Surfaces.Hit` covers spheres, moving spheres and lists of them, not BVH worlds.
- OneWeekend.ColorInUnitCube and the pixel lemmas assume albedos in `[0, 1]` and every bounce draw inside the unit sphere (`Renderable`). The code does not check these.
- `usize` overflow of `w * h` in `Image::new` is not modelled: sizes are unbounded naturals.
- Dielectric materials and Schlick's approximation are not modelled. The code has no such variant.
