/**
 * `Vec3`: points, directions and linear colours. The value operations are
 * functions; the compound assignments, `IndexMut` and `normalize`, which
 * update the three-element array `e` in place, are methods of `Vec3Mut`.
 */
module Vectors {
  import opened Numerics

  /** The components `e[0]`, `e[1]`, `e[2]`, read as `x()`, `y()`, `z()`. */
  datatype Vec3 = Vec3(x: real, y: real, z: real) {
    /** Colour accessors: `r()`, `g()`, `b()` read the same components. */
    function R(): real { x }
    function G(): real { y }
    function B(): real { z }
  }

  const Zero: Vec3 := Vec3(0.0, 0.0, 0.0)
  const One: Vec3 := Vec3(1.0, 1.0, 1.0)
  const UnitX: Vec3 := Vec3(1.0, 0.0, 0.0)
  const UnitY: Vec3 := Vec3(0.0, 1.0, 0.0)
  const UnitZ: Vec3 := Vec3(0.0, 0.0, 1.0)

  /** The vector with `k` in every component. */
  function Splat(k: real): Vec3 {
    Vec3(k, k, k)
  }

  predicate NoZeroComponent(v: Vec3) {
    v.x != 0.0 && v.y != 0.0 && v.z != 0.0
  }

  /**
   * `v[i]` (`Index`), the element `e[i]` that `x()/y()/z()` and `r()/g()/b()`
   * also read; an index of 3 or more panics in the source.
   */
  function Index(v: Vec3, i: nat): (c: real)
    requires i < 3
    ensures i == 0 ==> c == v.x == v.R()
    ensures i == 1 ==> c == v.y == v.G()
    ensures i == 2 ==> c == v.z == v.B()
  {
    if i == 0 then v.x else if i == 1 then v.y else v.z
  }

  /** `a + b`, element by element. */
  function Add(a: Vec3, b: Vec3): (r: Vec3)
    ensures forall i: nat :: i < 3 ==> Index(r, i) == Index(a, i) + Index(b, i)
  {
    Vec3(a.x + b.x, a.y + b.y, a.z + b.z)
  }

  /** `v + k`: adds the scalar to every component. */
  function AddScalar(v: Vec3, k: real): (r: Vec3)
    ensures r == Add(v, Splat(k))
  {
    Vec3(v.x + k, v.y + k, v.z + k)
  }

  /** `k + v` */
  function ScalarAdd(k: real, v: Vec3): (r: Vec3)
    ensures r == AddScalar(v, k)
  {
    Vec3(k + v.x, k + v.y, k + v.z)
  }

  /** `a - b`, the inverse of adding `b`. */
  function Sub(a: Vec3, b: Vec3): (r: Vec3)
    ensures Add(r, b) == a
  {
    Vec3(a.x - b.x, a.y - b.y, a.z - b.z)
  }

  /** `v - k` */
  function SubScalar(v: Vec3, k: real): (r: Vec3)
    ensures AddScalar(r, k) == v
  {
    Vec3(v.x - k, v.y - k, v.z - k)
  }

  /** `k - v` */
  function ScalarSub(k: real, v: Vec3): (r: Vec3)
    ensures Add(r, v) == Splat(k)
  {
    Vec3(k - v.x, k - v.y, k - v.z)
  }

  lemma AddCommutes(a: Vec3, b: Vec3)
    ensures Add(a, b) == Add(b, a)
  {
  }

  lemma AddThenSub(a: Vec3, b: Vec3)
    ensures Sub(Add(a, b), b) == a
  {
  }

  /** `a * b`, element by element (colour attenuation). */
  function Mul(a: Vec3, b: Vec3): (r: Vec3)
    ensures forall i: nat :: i < 3 ==> Index(r, i) == Index(a, i) * Index(b, i)
  {
    Vec3(a.x * b.x, a.y * b.y, a.z * b.z)
  }

  /** `v * k` */
  function MulScalar(v: Vec3, k: real): (r: Vec3)
    ensures r == Mul(v, Splat(k))
  {
    Vec3(v.x * k, v.y * k, v.z * k)
  }

  /** `k * v` */
  function ScalarMul(k: real, v: Vec3): (r: Vec3)
    ensures r == MulScalar(v, k)
  {
    Vec3(k * v.x, k * v.y, k * v.z)
  }

  lemma MulCommutes(a: Vec3, b: Vec3)
    ensures Mul(a, b) == Mul(b, a)
  {
  }

  /** `a / b`, componentwise; a zero component would give an IEEE infinity. */
  function Div(a: Vec3, b: Vec3): (r: Vec3)
    requires NoZeroComponent(b)
    ensures Mul(r, b) == a
  {
    Vec3(a.x / b.x, a.y / b.y, a.z / b.z)
  }

  /** `v / k`, computed as in the source by multiplying with `1 / k`. */
  function DivScalar(v: Vec3, k: real): (r: Vec3)
    requires k != 0.0
    ensures MulScalar(r, k) == v
  {
    var inv := Recip(k);
    Vec3(v.x * inv, v.y * inv, v.z * inv)
  }

  /** `k / v` */
  function ScalarDiv(k: real, v: Vec3): (r: Vec3)
    requires NoZeroComponent(v)
    ensures Mul(r, v) == Splat(k)
  {
    Vec3(k / v.x, k / v.y, k / v.z)
  }

  /** `dot(a, b)`, the sum of the products of matching elements. */
  function Dot(a: Vec3, b: Vec3): (d: real) {
    a.x * b.x + a.y * b.y + a.z * b.z
  }

  /** `dot` sums the products of matching elements `e[i]`. */
  lemma DotByElements(a: Vec3, b: Vec3)
    ensures Dot(a, b) == Index(a, 0) * Index(b, 0) + Index(a, 1) * Index(b, 1) + Index(a, 2) * Index(b, 2)
  {
  }

  lemma DotSymmetric(a: Vec3, b: Vec3)
    ensures Dot(a, b) == Dot(b, a)
  {
  }

  /** `cross(a, b)`: orthogonal to both arguments. */
  function Cross(a: Vec3, b: Vec3): (c: Vec3)
    ensures Dot(c, a) == 0.0 && Dot(c, b) == 0.0
  {
    Vec3(a.y * b.z - a.z * b.y, a.z * b.x - a.x * b.z, a.x * b.y - a.y * b.x)
  }

  /** Scaling one side scales the dot product. */
  lemma DotScaled(u: Vec3, k: real, n: Vec3)
    ensures Dot(MulScalar(u, k), n) == Dot(u, n) * k
  {
    MulCongruence(Dot(u, n), u.x * n.x + u.y * n.y + u.z * n.z, k, k);
  }

  /** Lagrange's identity in coordinates. */
  lemma Lagrange(a1: real, a2: real, a3: real, b1: real, b2: real, b3: real)
    ensures (a1 * a1 + a2 * a2 + a3 * a3) * (b1 * b1 + b2 * b2 + b3 * b3)
            - (a1 * b1 + a2 * b2 + a3 * b3) * (a1 * b1 + a2 * b2 + a3 * b3)
         == (a2 * b3 - a3 * b2) * (a2 * b3 - a3 * b2)
            + (a3 * b1 - a1 * b3) * (a3 * b1 - a1 * b3)
            + (a1 * b2 - a2 * b1) * (a1 * b2 - a2 * b1)
  {
  }

  /** The length of a cross product: `|a × b|² = |a|² |b|² - (a · b)²`. */
  lemma CrossLength(a: Vec3, b: Vec3)
    ensures SquaredLength(Cross(a, b)) == SquaredLength(a) * SquaredLength(b) - Square(Dot(a, b))
  {
    var c := Cross(a, b);
    var ex, ey, ez := a.y * b.z - a.z * b.y, a.z * b.x - a.x * b.z, a.x * b.y - a.y * b.x;
    var d := a.x * b.x + a.y * b.y + a.z * b.z;
    MulCongruence(c.x, ex, c.x, ex);
    MulCongruence(c.y, ey, c.y, ey);
    MulCongruence(c.z, ez, c.z, ez);
    MulCongruence(SquaredLength(a), a.x * a.x + a.y * a.y + a.z * a.z, SquaredLength(b), b.x * b.x + b.y * b.y + b.z * b.z);
    MulCongruence(Dot(a, b), d, Dot(a, b), d);
    Lagrange(a.x, a.y, a.z, b.x, b.y, b.z);
  }

  /** `squared_length()`: the dot product of `v` with itself. */
  function SquaredLength(v: Vec3): (s: real)
    ensures s == Dot(v, v)
  {
    Square(v.x) + Square(v.y) + Square(v.z)
  }

  /** The squared length is never negative and is zero only for the zero vector. */
  lemma SquaredLengthSign(v: Vec3)
    ensures SquaredLength(v) >= 0.0
    ensures v == Zero <==> SquaredLength(v) == 0.0
  {
    SumOfSquaresPositive(v);
  }

  lemma SumOfSquaresPositive(v: Vec3)
    ensures Square(v.x) + Square(v.y) + Square(v.z) >= 0.0
    ensures v != Zero ==> Square(v.x) + Square(v.y) + Square(v.z) > 0.0
  {
    SquareNonNegative(v.x);
    SquareNonNegative(v.y);
    SquareNonNegative(v.z);
    if v.x != 0.0 {
      SquarePositive(v.x);
    } else if v.y != 0.0 {
      SquarePositive(v.y);
    } else if v.z != 0.0 {
      SquarePositive(v.z);
    }
  }

  /** `length()` */
  function Length(v: Vec3): (l: real)
    requires SqrtTotal()
    ensures l >= 0.0 && Square(l) == SquaredLength(v)
    ensures v == Zero ==> l == 0.0
    ensures v != Zero ==> l > 0.0
  {
    SquaredLengthSign(v);
    SqrtOfSquare(0.0);
    Sqrt(SquaredLength(v))
  }

  /** `unit_vector(v)`: divides each component by the length. */
  function UnitVector(v: Vec3): (u: Vec3)
    requires SqrtTotal() && v != Zero
    ensures SquaredLength(u) == 1.0
    ensures MulScalar(u, Length(v)) == v
  {
    var len := Length(v);
    var u := Vec3(v.x / len, v.y / len, v.z / len);
    UnitLength(v, len);
    u
  }

  lemma UnitLength(v: Vec3, len: real)
    requires len > 0.0 && Square(len) == SquaredLength(v)
    ensures SquaredLength(Vec3(v.x / len, v.y / len, v.z / len)) == 1.0
  {
    var u := Vec3(v.x / len, v.y / len, v.z / len);
    var q := Square(len);
    SquareOfQuotient(v.x, len);
    SquareOfQuotient(v.y, len);
    SquareOfQuotient(v.z, len);
    calc {
      SquaredLength(u) * q;
    ==
      Square(u.x) * q + Square(u.y) * q + Square(u.z) * q;
    ==
      Square(v.x) + Square(v.y) + Square(v.z);
    ==
      q;
    }
    SquarePositive(len);
    CancelFactor(SquaredLength(u), q);
  }

  /**
   * A `Vec3` variable updated in place: `e` is the three-element array of
   * the source, and `Value()` is the vector it currently holds.
   */
  class Vec3Mut {
    const e: array<real>

    ghost predicate Valid()
      reads this
    {
      e.Length == 3
    }

    function Value(): Vec3
      reads this, e
      requires Valid()
    {
      Vec3(e[0], e[1], e[2])
    }

    constructor (v: Vec3)
      ensures Valid() && fresh(e)
      ensures Value() == v
    {
      var a := new real[3];
      a[0], a[1], a[2] := v.x, v.y, v.z;
      e := a;
    }

    /** `self += rhs` */
    method AddAssign(rhs: Vec3)
      requires Valid()
      modifies e
      ensures Valid() && Value() == Add(old(Value()), rhs)
    {
      e[0] := e[0] + rhs.x;
      e[1] := e[1] + rhs.y;
      e[2] := e[2] + rhs.z;
    }

    /** `self += k` */
    method AddAssignScalar(k: real)
      requires Valid()
      modifies e
      ensures Valid() && Value() == AddScalar(old(Value()), k)
    {
      e[0] := e[0] + k;
      e[1] := e[1] + k;
      e[2] := e[2] + k;
    }

    /** `self -= rhs` */
    method SubAssign(rhs: Vec3)
      requires Valid()
      modifies e
      ensures Valid() && Value() == Sub(old(Value()), rhs)
    {
      e[0] := e[0] - rhs.x;
      e[1] := e[1] - rhs.y;
      e[2] := e[2] - rhs.z;
    }

    /** `self -= k` */
    method SubAssignScalar(k: real)
      requires Valid()
      modifies e
      ensures Valid() && Value() == SubScalar(old(Value()), k)
    {
      e[0] := e[0] - k;
      e[1] := e[1] - k;
      e[2] := e[2] - k;
    }

    /** `self *= rhs` */
    method MulAssign(rhs: Vec3)
      requires Valid()
      modifies e
      ensures Valid() && Value() == Mul(old(Value()), rhs)
    {
      e[0] := e[0] * rhs.x;
      e[1] := e[1] * rhs.y;
      e[2] := e[2] * rhs.z;
    }

    /** `self *= k` */
    method MulAssignScalar(k: real)
      requires Valid()
      modifies e
      ensures Valid() && Value() == MulScalar(old(Value()), k)
    {
      e[0] := e[0] * k;
      e[1] := e[1] * k;
      e[2] := e[2] * k;
    }

    /** `self /= rhs` */
    method DivAssign(rhs: Vec3)
      requires Valid() && NoZeroComponent(rhs)
      modifies e
      ensures Valid() && Value() == Div(old(Value()), rhs)
    {
      e[0] := e[0] / rhs.x;
      e[1] := e[1] / rhs.y;
      e[2] := e[2] / rhs.z;
    }

    /** `self /= k`, through the reciprocal as in the source. */
    method DivAssignScalar(k: real)
      requires Valid() && k != 0.0
      modifies e
      ensures Valid() && Value() == DivScalar(old(Value()), k)
    {
      var inv := Recip(k);
      e[0] := e[0] * inv;
      e[1] := e[1] * inv;
      e[2] := e[2] * inv;
    }

    /** `self[i] = value` through `IndexMut`: only component `i` changes. */
    method SetIndex(i: nat, value: real)
      requires Valid() && i < 3
      modifies e
      ensures Valid() && Index(Value(), i) == value
      ensures forall j :: 0 <= j < 3 && j != i ==> Index(Value(), j) == Index(old(Value()), j)
    {
      e[i] := value;
    }

    /** `normalize()`: divides every component by the length, in place. */
    method Normalize()
      requires Valid() && SqrtTotal() && Value() != Zero
      modifies e
      ensures Valid() && Value() == UnitVector(old(Value()))
    {
      var len := Length(Value());
      e[0] := e[0] / len;
      e[1] := e[1] / len;
      e[2] := e[2] / len;
    }
  }
}
