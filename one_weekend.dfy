/**
 * The integrator of the example renderer: the bounded-depth radiance
 * recursion `color`, and the per-pixel loop that averages the samples and
 * applies the square-root gamma. Every random draw is an input: the
 * jitter and lens/shutter draws of each sample (`PixelDraw`) and, for each
 * bounce depth, the point drawn inside the unit sphere by the Lambertian
 * scatter (`bounce`).
 */
module OneWeekend {
  import opened Numerics
  import opened Vectors
  import opened Rays
  import opened Hitables
  import opened Surfaces
  import opened Materials
  import opened Cameras
  import Images

  /** Bounces are followed while `depth < 50`. */
  const MaxDepth: nat := 50

  /** The near end of every scene query, which keeps a scattered ray off its own surface. */
  const TMin: real := 0.001

  /** Colour of the background: white at the bottom, sky blue at the top. */
  const SkyBlue: Vec3 := Vec3(0.5, 0.7, 1.0)

  /**
   * What `color` sees of the world: `world.hit(r, 0.001, f32::MAX, &mut rec)`
   * behind the `Hitable` trait object, as a function from the ray to the
   * record it fills in, or nothing on a miss.
   */
  type Scene = Ray -> Option<HitRecord>

  /** Every record the scene returns carries a unit normal, as every surface produces it. */
  ghost predicate UnitNormals(world: Scene) {
    forall r: Ray :: world(r).Some? ==> SquaredLength(world(r).value.normal) == 1.0
  }

  /** Every material the scene returns reflects at most all the light of each channel. */
  ghost predicate AlbedosInUnitCube(world: Scene) {
    forall r: Ray :: world(r).Some? ==> InUnitCube(world(r).value.material.albedo)
  }

  /** Every bounce draw lies strictly inside the unit sphere. */
  ghost predicate InUnitBall(bounce: nat -> Vec3) {
    forall d: nat :: SquaredLength(bounce(d)) < 1.0
  }

  predicate InUnitCube(c: Vec3) {
    0.0 <= c.x <= 1.0 && 0.0 <= c.y <= 1.0 && 0.0 <= c.z <= 1.0
  }

  /** The surface can be queried with every ray (no division by zero inside a BVH or a moving sphere). */
  ghost predicate Queryable(s: Surface) {
    forall r: Ray :: HitDefined(s, r)
  }

  /** A surface seen through the trait object, queried on `(0.001, f32::MAX)`. */
  ghost function SurfaceScene(s: Surface): Scene
    requires SqrtTotal() && Queryable(s)
  {
    r => Hit(s, r, TMin, F32Max)
  }

  /**
   * A surface is a scene whose records carry unit normals, and whose
   * albedos lie in the unit cube when those of its materials do.
   */
  lemma SurfaceSceneIsProper(s: Surface)
    requires SqrtTotal() && Queryable(s)
    ensures UnitNormals(SurfaceScene(s))
    ensures (forall m :: m in Surfaces.Materials(s) ==> InUnitCube(m.albedo)) ==> AlbedosInUnitCube(SurfaceScene(s))
  {
    var world := SurfaceScene(s);
    forall r: Ray
      ensures world(r).Some? ==> SquaredLength(world(r).value.normal) == 1.0
      ensures world(r).Some? ==> world(r).value.material in Surfaces.Materials(s)
    {
      assert HitDefined(s, r);
      assert world(r) == Hit(s, r, TMin, F32Max);
    }
  }

  /**
   * The sky gradient for a ray that leaves the scene. The blend factor lies
   * in `[0, 1]`, so each channel lies between white and sky blue.
   */
  function Sky(r: Ray): (c: Vec3)
    requires SqrtTotal() && r.b != Zero
    ensures 0.5 <= c.x <= 1.0 && 0.7 <= c.y <= 1.0 && c.z == 1.0
    ensures InUnitCube(c)
  {
    var unitDirection := UnitVector(r.b);
    UnitComponentBound(unitDirection);
    var t := 0.5 * (unitDirection.y + 1.0);
    assert Add(ScalarMul(1.0 - t, One), ScalarMul(t, SkyBlue)) == Vec3(1.0 - 0.5 * t, 1.0 - 0.3 * t, 1.0);
    Add(ScalarMul(1.0 - t, One), ScalarMul(t, SkyBlue))
  }

  /**
   * `color(r, world, depth)`. A ray that hits something at depth below 50
   * returns the attenuation times the colour of the scattered ray, or black
   * when the material absorbs it; at depth 50 or more a hit is black. A
   * miss returns the sky at every depth, since the depth test sits only
   * on the hit branch.
   */
  function Color(r: Ray, world: Scene, depth: nat, bounce: nat -> Vec3): (c: Vec3)
    requires SqrtTotal() && UnitNormals(world) && InUnitBall(bounce) && r.b != Zero
    ensures world(r).None? ==> c == Sky(r)
    ensures world(r).Some? && depth >= MaxDepth ==> c == Zero
    decreases MaxDepth - depth
  {
    match world(r)
    case Some(rec) =>
      if depth < MaxDepth then
        ScatteredDirectionNonZero(rec.material, r, rec, bounce(depth));
        var s := Outcome(rec.material, r, rec, bounce(depth));
        if s.scatters then Mul(s.attenuation, Color(s.scattered, world, depth + 1, bounce)) else Zero
      else Zero
    case None => Sky(r)
  }

  /**
   * A hit below depth 50 is the colour of the scattered ray attenuated by
   * the albedo of the material hit, or black when the material absorbs it.
   */
  lemma ShallowHitScatters(r: Ray, world: Scene, depth: nat, bounce: nat -> Vec3)
    requires SqrtTotal() && UnitNormals(world) && InUnitBall(bounce) && r.b != Zero
    requires world(r).Some? && depth < MaxDepth
    ensures var rec := world(r).value;
      var s := Outcome(rec.material, r, rec, bounce(depth));
      && s.attenuation == rec.material.albedo
      && s.scattered.b != Zero
      && Color(r, world, depth, bounce)
         == (if s.scatters then Mul(rec.material.albedo, Color(s.scattered, world, depth + 1, bounce)) else Zero)
  {
    var rec := world(r).value;
    ScatteredDirectionNonZero(rec.material, r, rec, bounce(depth));
  }

  lemma SquareEven(a: real)
    ensures Square(-a) == Square(a)
  {
  }

  /** `|y| <= 1` for a unit vector. */
  lemma UnitComponentBound(u: Vec3)
    requires SquaredLength(u) == 1.0
    ensures -1.0 <= u.y <= 1.0
  {
    SquareNonNegative(u.x);
    SquareNonNegative(u.z);
    SquareEven(u.y);
    assert Square(u.y) <= 1.0;
    if u.y > 1.0 {
      SquareStrictlyMonotone(1.0, u.y);
    } else if u.y < -1.0 {
      SquareStrictlyMonotone(1.0, -u.y);
    }
  }

  /** The straight-up direction `(0, k, 0)` has length `k`. */
  lemma UpLength(k: real)
    requires SqrtTotal() && k > 0.0
    ensures Length(Vec3(0.0, k, 0.0)) == k
  {
    var len := Length(Vec3(0.0, k, 0.0));
    assert Square(len) == Square(k) by {
      assert SquaredLength(Vec3(0.0, k, 0.0)) == Square(k);
    }
    if len < k {
      SquareStrictlyMonotone(len, k);
    } else if k < len {
      SquareStrictlyMonotone(k, len);
    }
  }

  /** Normalising `(0, k, 0)` gives the up vector. */
  lemma UpUnit(k: real)
    requires SqrtTotal() && k > 0.0
    ensures UnitVector(Vec3(0.0, k, 0.0)) == Vec3(0.0, 1.0, 0.0)
  {
    UpLength(k);
    assert k / k == 1.0;
    assert 0.0 / k == 0.0;
  }

  /** The sky straight up is sky blue. */
  lemma SkyOverhead(origin: Vec3, k: real, time: real)
    requires SqrtTotal() && k > 0.0
    ensures Vec3(0.0, k, 0.0) != Zero
    ensures Sky(Ray(origin, Vec3(0.0, k, 0.0), time)) == SkyBlue
  {
    var r := Ray(origin, Vec3(0.0, k, 0.0), time);
    assert r.b != Zero;
    UpUnit(k);
    assert UnitVector(r.b).y == 1.0;
    SkyOfUnitY(r);
  }

  lemma SkyOfUnitY(r: Ray)
    requires SqrtTotal() && r.b != Zero && UnitVector(r.b).y == 1.0
    ensures Sky(r) == SkyBlue
  {
    var t := 0.5 * (UnitVector(r.b).y + 1.0);
    assert t == 1.0;
    assert ScalarMul(1.0 - t, One) == Zero && ScalarMul(t, SkyBlue) == SkyBlue;
    assert Sky(r) == Add(ScalarMul(1.0 - t, One), ScalarMul(t, SkyBlue));
  }

  lemma ProductInUnitInterval(a: real, b: real)
    requires 0.0 <= a <= 1.0 && 0.0 <= b <= 1.0
    ensures 0.0 <= a * b <= 1.0
  {
    ProductNonNegative(a, b);
    ProductNonNegative(1.0 - a, b);
  }

  /** Attenuating a colour in the unit cube by an albedo in the unit cube stays in the unit cube. */
  lemma AttenuatedInUnitCube(a: Vec3, c: Vec3)
    requires InUnitCube(a) && InUnitCube(c)
    ensures InUnitCube(Mul(a, c))
  {
    ProductInUnitInterval(a.x, c.x);
    ProductInUnitInterval(a.y, c.y);
    ProductInUnitInterval(a.z, c.z);
  }

  /**
   * With every albedo in `[0, 1]`, every channel of the radiance lies in
   * `[0, 1]`: the sky does, and each bounce only attenuates.
   */
  lemma {:induction false} ColorInUnitCube(r: Ray, world: Scene, depth: nat, bounce: nat -> Vec3)
    requires SqrtTotal() && UnitNormals(world) && AlbedosInUnitCube(world) && InUnitBall(bounce) && r.b != Zero
    ensures InUnitCube(Color(r, world, depth, bounce))
    decreases MaxDepth - depth
  {
    match world(r)
    case None =>
    case Some(rec) =>
      if depth < MaxDepth {
        ShallowHitScatters(r, world, depth, bounce);
        var s := Outcome(rec.material, r, rec, bounce(depth));
        if s.scatters {
          ColorInUnitCube(s.scattered, world, depth + 1, bounce);
          AttenuatedInUnitCube(rec.material.albedo, Color(s.scattered, world, depth + 1, bounce));
        }
      }
  }

  // ----- the pixel loop -----

  /** The random draws of one sample: the jitter inside the pixel, the lens and shutter draws, the bounce draws. */
  datatype PixelDraw = PixelDraw(du: real, dv: real, disk: Vec3, time: real, bounce: nat -> Vec3)

  /**
   * `u = (i + du) / nx`, `v = (j + dv) / ny`, and the camera ray through
   * them: for a pixel of the image and a jitter in `[0, 1)`, the ray is aimed
   * at a point of the viewport, and its time is the shutter draw's.
   */
  function SampleRay(cam: Camera, i: nat, j: nat, nx: nat, ny: nat, d: PixelDraw): (r: Ray)
    requires nx > 0 && ny > 0
    ensures i < nx && j < ny && 0.0 <= d.du < 1.0 && 0.0 <= d.dv < 1.0 ==>
      exists s, t ::
        && 0.0 <= s < 1.0 && 0.0 <= t < 1.0
        && Add(r.a, r.b) == Add(Add(cam.lowerLeftCorner, ScalarMul(s, cam.horizontal)), ScalarMul(t, cam.vertical))
    ensures r.t - cam.time0 == d.time * (cam.time1 - cam.time0)
  {
    var u := (i as real + d.du) / nx as real;
    var v := (j as real + d.dv) / ny as real;
    var r := GetRay(cam, u, v, d.disk, d.time);
    if i < nx && j < ny && 0.0 <= d.du < 1.0 && 0.0 <= d.dv < 1.0 then
      SampleCoordinateInUnitInterval(i, nx, d.du);
      SampleCoordinateInUnitInterval(j, ny, d.dv);
      assert 0.0 <= u < 1.0 && 0.0 <= v < 1.0
        && Add(r.a, r.b) == Add(Add(cam.lowerLeftCorner, ScalarMul(u, cam.horizontal)), ScalarMul(v, cam.vertical));
      r
    else
      r
  }

  /** A jittered coordinate of a pixel inside the image lies in `[0, 1)`. */
  lemma SampleCoordinateInUnitInterval(i: nat, n: nat, jitter: real)
    requires i < n && 0.0 <= jitter < 1.0
    ensures 0.0 <= (i as real + jitter) / n as real < 1.0
  {
    var x := i as real + jitter;
    assert x < n as real;
    assert x / n as real * n as real == x;
  }

  /** What the loop needs of its inputs: a proper scene, rays with a direction, bounce draws inside the unit sphere. */
  ghost predicate Renderable(cam: Camera, world: Scene, i: nat, j: nat, nx: nat, ny: nat, draws: seq<PixelDraw>)
  {
    && SqrtTotal() && UnitNormals(world) && AlbedosInUnitCube(world) && nx > 0 && ny > 0
    && (forall k :: 0 <= k < |draws| ==> SampleRay(cam, i, j, nx, ny, draws[k]).b != Zero)
    && (forall k :: 0 <= k < |draws| ==> InUnitBall(draws[k].bounce))
  }

  /** The colour of each sample of pixel `(i, j)`: `color(cam.get_ray(u, v), &world, 0)`. */
  function SampleColors(cam: Camera, world: Scene, i: nat, j: nat, nx: nat, ny: nat, draws: seq<PixelDraw>): (colors: seq<Vec3>)
    requires Renderable(cam, world, i, j, nx, ny, draws)
    ensures |colors| == |draws|
  {
    seq(|draws|, k requires 0 <= k < |draws| => Color(SampleRay(cam, i, j, nx, ny, draws[k]), world, 0, draws[k].bounce))
  }

  /** Every sample colour lies in the unit cube. */
  lemma SampleColorsInUnitCube(cam: Camera, world: Scene, i: nat, j: nat, nx: nat, ny: nat,
                                                  draws: seq<PixelDraw>)
    requires Renderable(cam, world, i, j, nx, ny, draws)
    ensures forall k :: 0 <= k < |draws| ==> InUnitCube(SampleColors(cam, world, i, j, nx, ny, draws)[k])
  {
    forall k | 0 <= k < |draws|
      ensures InUnitCube(SampleColors(cam, world, i, j, nx, ny, draws)[k])
    {
      ColorInUnitCube(SampleRay(cam, i, j, nx, ny, draws[k]), world, 0, draws[k].bounce);
    }
  }

  /** The sum of the first `n` colours, as `col += ...` accumulates them. */
  function Sum(colors: seq<Vec3>, n: nat): Vec3
    requires n <= |colors|
  {
    if n == 0 then Zero else Add(Sum(colors, n - 1), colors[n - 1])
  }

  /** The sum of `n` colours in the unit cube lies between zero and `n` in every channel. */
  lemma {:induction false} SumBounds(colors: seq<Vec3>, n: nat)
    requires n <= |colors| && forall k :: 0 <= k < |colors| ==> InUnitCube(colors[k])
    ensures var s := Sum(colors, n);
      0.0 <= s.x <= n as real && 0.0 <= s.y <= n as real && 0.0 <= s.z <= n as real
  {
    if n > 0 {
      SumBounds(colors, n - 1);
      assert InUnitCube(colors[n - 1]);
    }
  }

  /** `x / n` for `0 <= x <= n` lies in `[0, 1]`. */
  lemma MeanInUnitInterval(x: real, n: real)
    requires n > 0.0 && 0.0 <= x <= n
    ensures 0.0 <= x * Recip(n) <= 1.0
  {
    var inv := Recip(n);
    ProductNonNegative(x, inv);
    ProductNonNegative(n - x, inv);
    assert (n - x) * inv == n * inv - x * inv;
    assert n * inv == 1.0;
  }

  /** A sum whose channels lie in `[0, n]`, divided by `n`, lies in the unit cube. */
  lemma QuotientInUnitCube(s: Vec3, n: real)
    requires n > 0.0 && 0.0 <= s.x <= n && 0.0 <= s.y <= n && 0.0 <= s.z <= n
    ensures InUnitCube(DivScalar(s, n))
  {
    MeanInUnitInterval(s.x, n);
    MeanInUnitInterval(s.y, n);
    MeanInUnitInterval(s.z, n);
  }

  /** The mean of the colours, divided as `col /= ns` does; it stays in the unit cube. */
  function Mean(colors: seq<Vec3>): (m: Vec3)
    requires |colors| > 0 && forall k :: 0 <= k < |colors| ==> InUnitCube(colors[k])
    ensures InUnitCube(m)
    ensures MulScalar(m, |colors| as real) == Sum(colors, |colors|)
  {
    var n := |colors|;
    var sum := Sum(colors, n);
    SumBounds(colors, n);
    QuotientInUnitCube(sum, n as real);
    DivScalar(sum, n as real)
  }

  /**
   * The per-channel square root, the gamma-2 correction: each channel is
   * the non-negative root of the input's, and the unit cube maps to itself.
   */
  function Gamma(c: Vec3): (g: Vec3)
    requires SqrtTotal() && c.x >= 0.0 && c.y >= 0.0 && c.z >= 0.0
    ensures g.x >= 0.0 && g.y >= 0.0 && g.z >= 0.0
    ensures Square(g.x) == c.x && Square(g.y) == c.y && Square(g.z) == c.z
    ensures InUnitCube(c) ==> InUnitCube(g)
  {
    if InUnitCube(c) then
      SqrtInUnitInterval(c.x);
      SqrtInUnitInterval(c.y);
      SqrtInUnitInterval(c.z);
      Vec3(Sqrt(c.x), Sqrt(c.y), Sqrt(c.z))
    else
      Vec3(Sqrt(c.x), Sqrt(c.y), Sqrt(c.z))
  }

  /** The colour stored for pixel `(i, j)`: the gamma-corrected mean of its samples. */
  function PixelColor(cam: Camera, world: Scene, i: nat, j: nat, nx: nat, ny: nat, draws: seq<PixelDraw>): Vec3
    requires Renderable(cam, world, i, j, nx, ny, draws) && |draws| > 0
  {
    SampleColorsInUnitCube(cam, world, i, j, nx, ny, draws);
    Gamma(Mean(SampleColors(cam, world, i, j, nx, ny, draws)))
  }

  /**
   * The stored colour lies in `[0, 1]` in every channel, and each channel
   * squared is the mean of the samples.
   */
  lemma PixelColorInUnitCube(cam: Camera, world: Scene, i: nat, j: nat, nx: nat, ny: nat,
                                                draws: seq<PixelDraw>)
    requires Renderable(cam, world, i, j, nx, ny, draws) && |draws| > 0
    ensures (SampleColorsInUnitCube(cam, world, i, j, nx, ny, draws);
      var p := PixelColor(cam, world, i, j, nx, ny, draws);
      var m := Mean(SampleColors(cam, world, i, j, nx, ny, draws));
      && InUnitCube(p)
      && Square(p.x) == m.x && Square(p.y) == m.y && Square(p.z) == m.z)
  {
    SampleColorsInUnitCube(cam, world, i, j, nx, ny, draws);
  }

  /** The body of the sample loop: the ray through the jittered point, and `col += color(r, &world, 0)`. */
  method AddSample(acc: Vec3Mut, cam: Camera, world: Scene, i: nat, j: nat, nx: nat, ny: nat,
                   draws: seq<PixelDraw>, s: nat)
    requires acc.Valid() && Renderable(cam, world, i, j, nx, ny, draws) && s < |draws|
    modifies acc.e
    ensures acc.Valid() && acc.Value() == Add(old(acc.Value()), SampleColors(cam, world, i, j, nx, ny, draws)[s])
  {
    var r := SampleRay(cam, i, j, nx, ny, draws[s]);
    acc.AddAssign(Color(r, world, 0, draws[s].bounce));
  }

  /** The stored colour is the square root of each channel of the sum of the samples divided by their number. */
  lemma PixelColorOfSum(cam: Camera, world: Scene, i: nat, j: nat, nx: nat, ny: nat,
                                           draws: seq<PixelDraw>)
    requires Renderable(cam, world, i, j, nx, ny, draws) && |draws| > 0
    ensures var q := DivScalar(Sum(SampleColors(cam, world, i, j, nx, ny, draws), |draws|), |draws| as real);
      && q.x >= 0.0 && q.y >= 0.0 && q.z >= 0.0
      && PixelColor(cam, world, i, j, nx, ny, draws) == Gamma(q)
  {
    var colors := SampleColors(cam, world, i, j, nx, ny, draws);
    SampleColorsInUnitCube(cam, world, i, j, nx, ny, draws);
    var m := Mean(colors);
    assert InUnitCube(m);
    assert m == DivScalar(Sum(colors, |draws|), |draws| as real);
  }

  /** The sample loop: `col` starts at zero and each sample's colour is added to it. */
  method AccumulateSamples(cam: Camera, world: Scene, i: nat, j: nat, nx: nat, ny: nat, draws: seq<PixelDraw>)
    returns (acc: Vec3Mut)
    requires Renderable(cam, world, i, j, nx, ny, draws)
    ensures acc.Valid() && fresh(acc.e)
    ensures acc.Value() == Sum(SampleColors(cam, world, i, j, nx, ny, draws), |draws|)
  {
    ghost var colors := SampleColors(cam, world, i, j, nx, ny, draws);
    acc := new Vec3Mut(Zero);
    for s := 0 to |draws|
      invariant acc.Valid() && fresh(acc.e)
      invariant acc.Value() == Sum(colors, s)
    {
      AddSample(acc, cam, world, i, j, nx, ny, draws, s);
    }
  }

  /**
   * The body of the pixel loop: `ns` samples accumulated into `col`, then
   * `col /= ns`, then the square root of each channel.
   */
  method RenderPixel(cam: Camera, world: Scene, i: nat, j: nat, nx: nat, ny: nat, draws: seq<PixelDraw>)
    returns (col: Vec3)
    requires Renderable(cam, world, i, j, nx, ny, draws) && |draws| > 0
    ensures col == PixelColor(cam, world, i, j, nx, ny, draws)
  {
    var acc := AccumulateSamples(cam, world, i, j, nx, ny, draws);
    acc.DivAssignScalar(|draws| as real);
    PixelColorOfSum(cam, world, i, j, nx, ny, draws);
    col := Gamma(acc.Value());
  }

  // ----- the image loop -----

  /** Pixel `(i, j)` of `data` holds the colour rendered for it from its draws. */
  ghost predicate Shows(data: seq<Vec3>, cam: Camera, world: Scene, w: nat, h: nat,
                        draws: (nat, nat) -> seq<PixelDraw>, i: nat, j: nat)
  {
    && Images.PixelIndex(i, j, w) < |data|
    && Renderable(cam, world, i, j, w, h, draws(i, j)) && |draws(i, j)| > 0
    && data[Images.PixelIndex(i, j, w)] == PixelColor(cam, world, i, j, w, h, draws(i, j))
  }

  /** A pixel keeps showing its colour when its cell is left alone. */
  lemma ShowsKept(before: seq<Vec3>, after: seq<Vec3>, cam: Camera, world: Scene, w: nat, h: nat,
                                     draws: (nat, nat) -> seq<PixelDraw>, i: nat, j: nat)
    requires Shows(before, cam, world, w, h, draws, i, j) && |after| == |before|
    requires after[Images.PixelIndex(i, j, w)] == before[Images.PixelIndex(i, j, w)]
    ensures Shows(after, cam, world, w, h, draws, i, j)
  {
  }

  /** `after` differs from `before` at most in the cells of row `j`. */
  ghost predicate SameOutsideRow(before: seq<Vec3>, after: seq<Vec3>, w: nat, j: nat) {
    && |after| == |before|
    && forall k :: 0 <= k < |before| && !(Images.RowStart(j, w) <= k < Images.RowStart(j, w) + w) ==> after[k] == before[k]
  }

  /** The first `n` pixels of row `j` show their colours. */
  ghost predicate RowDone(data: seq<Vec3>, cam: Camera, world: Scene, w: nat, h: nat,
                          draws: (nat, nat) -> seq<PixelDraw>, j: nat, n: nat)
  {
    forall i: nat :: i < n ==> Shows(data, cam, world, w, h, draws, i, j)
  }

  /** Storing the colour of pixel `(i, j)` extends the finished part of row `j` by one and stays inside the row. */
  lemma RowStep(start: seq<Vec3>, before: seq<Vec3>, after: seq<Vec3>, cam: Camera, world: Scene,
                                   w: nat, h: nat, draws: (nat, nat) -> seq<PixelDraw>, j: nat, i: nat)
    requires |before| == Images.RowStart(h, w) && i < w && j < h
    requires RowDone(before, cam, world, w, h, draws, j, i) && SameOutsideRow(start, before, w, j)
    requires Renderable(cam, world, i, j, w, h, draws(i, j)) && |draws(i, j)| > 0
    requires Images.PixelIndex(i, j, w) < |before|
    requires after == before[Images.PixelIndex(i, j, w) := PixelColor(cam, world, i, j, w, h, draws(i, j))]
    ensures RowDone(after, cam, world, w, h, draws, j, i + 1) && SameOutsideRow(start, after, w, j)
  {
    forall i2: nat | i2 < i
      ensures Shows(after, cam, world, w, h, draws, i2, j)
    {
      ShowsKept(before, after, cam, world, w, h, draws, i2, j);
    }
  }

  /** The inner loop of `main`: row `j`, left to right; the other rows are left alone. */
  method RenderRow(image: Images.Image, cam: Camera, world: Scene, draws: (nat, nat) -> seq<PixelDraw>, j: nat)
    requires image.Valid() && j < image.height
    requires forall i: nat :: i < image.width ==>
      Renderable(cam, world, i, j, image.width, image.height, draws(i, j)) && |draws(i, j)| > 0
    modifies image.imageData
    ensures RowDone(image.imageData[..], cam, world, image.width, image.height, draws, j, image.width)
    ensures SameOutsideRow(old(image.imageData[..]), image.imageData[..], image.width, j)
  {
    var nx := image.width;
    var ny := image.height;
    ghost var start := image.imageData[..];
    for i := 0 to nx
      invariant RowDone(image.imageData[..], cam, world, nx, ny, draws, j, i)
      invariant SameOutsideRow(start, image.imageData[..], nx, j)
    {
      var col := RenderPixel(cam, world, i, j, nx, ny, draws(i, j));
      ghost var before := image.imageData[..];
      Images.PixelIndexInBounds(i, j, nx, ny);
      image.SetPixel(i, j, col);
      RowStep(start, before, image.imageData[..], cam, world, nx, ny, draws, j, i);
    }
  }

  /**
   * The loops of the example's `main`: rows from the top (`j` from `ny - 1`
   * down to 0), each pixel rendered and stored with `set_pixel`. Afterwards
   * every pixel holds its colour.
   */
  method Render(image: Images.Image, cam: Camera, world: Scene, draws: (nat, nat) -> seq<PixelDraw>)
    requires image.Valid()
    requires forall i: nat, j: nat :: i < image.width && j < image.height ==>
      Renderable(cam, world, i, j, image.width, image.height, draws(i, j)) && |draws(i, j)| > 0
    modifies image.imageData
    ensures forall i: nat, j: nat :: i < image.width && j < image.height ==>
      Shows(image.imageData[..], cam, world, image.width, image.height, draws, i, j)
  {
    var nx := image.width;
    var ny := image.height;
    for j := ny downto 0
      invariant forall i2: nat, j2: nat :: i2 < nx && j <= j2 < ny ==>
        Shows(image.imageData[..], cam, world, nx, ny, draws, i2, j2)
    {
      ghost var before := image.imageData[..];
      RenderRow(image, cam, world, draws, j);
      forall i2: nat, j2: nat | i2 < nx && j < j2 < ny
        ensures Shows(image.imageData[..], cam, world, nx, ny, draws, i2, j2)
      {
        Images.RowStartStrictlyIncreasing(j, j2, nx);
        Images.PixelIndexInBounds(i2, j2, nx, ny);
        ShowsKept(before, image.imageData[..], cam, world, nx, ny, draws, i2, j2);
      }
    }
  }
}
