/** `Ray`: an origin `a`, a direction `b` and a time `t`. */
module Rays {
  import opened Vectors

  /** `Ray::new(a, b, t)`; `origin()`, `direction()` and `time()` read the fields back. */
  datatype Ray = Ray(a: Vec3, b: Vec3, t: real) {
    function Origin(): Vec3 { a }
    function Direction(): Vec3 { b }
    function Time(): real { t }
  }

  lemma AccessorsReturnConstructorArguments(a: Vec3, b: Vec3, t: real)
    ensures Ray(a, b, t).Origin() == a
    ensures Ray(a, b, t).Direction() == b
    ensures Ray(a, b, t).Time() == t
  {
  }

  /** `point_at_parameter(t)`: the point `a + t*b`, reached from the origin by `t` directions. */
  function PointAtParameter(r: Ray, t: real): (p: Vec3)
    ensures Sub(p, r.a) == ScalarMul(t, r.b)
  {
    Add(r.a, ScalarMul(t, r.b))
  }

  lemma PointAtZero(r: Ray)
    ensures PointAtParameter(r, 0.0) == r.Origin()
  {
  }

  lemma PointDifference(r: Ray, t1: real, t2: real)
    ensures Sub(PointAtParameter(r, t1), PointAtParameter(r, t2)) == ScalarMul(t1 - t2, r.Direction())
  {
    var p1 := PointAtParameter(r, t1);
    var p2 := PointAtParameter(r, t2);
    assert p1.x - p2.x == (t1 - t2) * r.b.x;
    assert p1.y - p2.y == (t1 - t2) * r.b.y;
    assert p1.z - p2.z == (t1 - t2) * r.b.z;
  }
}
