/**
 * Scalar helpers standing in for the `f32` operations the renderer uses.
 * Arithmetic is idealised to `real`; the square root, the saturating
 * `as i32` cast and `f32::MAX` are written out here.
 */
module Numerics {

  /**
   * `a * a`. Squares are kept behind this name so that the solver treats
   * them as terms of their own; the lemmas below give their sign.
   */
  function Square(a: real): real {
    a * a
  }

  lemma SquarePositive(a: real)
    requires a != 0.0
    ensures Square(a) > 0.0
  {
    if a > 0.0 {
      calc { Square(a); == a * a; > 0.0; }
    } else {
      calc { Square(a); == (-a) * (-a); > 0.0; }
    }
  }

  lemma SquareNonNegative(a: real)
    ensures Square(a) >= 0.0
  {
    if a != 0.0 {
      SquarePositive(a);
    }
  }

  /** Equal factors give equal products. */
  lemma MulCongruence(x: real, x2: real, y: real, y2: real)
    requires x == x2 && y == y2
    ensures x * y == x2 * y2
  {
  }

  lemma ProductNonNegative(x: real, y: real)
    requires x >= 0.0 && y >= 0.0
    ensures x * y >= 0.0
  {
    if x > 0.0 && y > 0.0 {
      assert x * y > 0.0;
    }
  }

  /** A positive factor keeps the sign. */
  lemma ScaledSign(x: real, k: real)
    requires k > 0.0
    ensures x * k < 0.0 <==> x < 0.0
    ensures x * k > 0.0 <==> x > 0.0
  {
    if x < 0.0 {
      assert (-x) * k > 0.0;
    } else if x > 0.0 {
      assert x * k > 0.0;
    }
  }

  /** A non-zero factor cancels: `k * q == q` forces `k == 1`. */
  lemma CancelFactor(k: real, q: real)
    requires q != 0.0 && k * q == q
    ensures k == 1.0
  {
    assert (k - 1.0) * q == 0.0;
  }

  /** A product vanishes only when a factor does. */
  lemma ProductZero(x: real, y: real)
    requires x * y == 0.0
    ensures x == 0.0 || y == 0.0
  {
    if x != 0.0 {
      assert y == (x * y) / x;
    }
  }

  lemma SquareOfQuotient(a: real, d: real)
    requires d != 0.0
    ensures Square(a / d) * Square(d) == Square(a)
  {
    var u := a / d;
    assert u * d == a;
    calc {
      Square(u) * Square(d);
    ==
      (u * u) * (d * d);
    ==
      (u * d) * (u * d);
    ==
      a * a;
    }
  }

  /**
   * `1.0 / d`, named for the same reason as `Square`; its sign is that of
   * `d`, and it is the inverse of `d`.
   */
  function Recip(d: real): (k: real)
    requires d != 0.0
    ensures k * d == 1.0
    ensures d > 0.0 ==> k > 0.0
    ensures d < 0.0 ==> k < 0.0
  {
    1.0 / d
  }

  /** `s` is the non-negative square root of `x`. */
  predicate IsSqrt(x: real, s: real) {
    s >= 0.0 && Square(s) == x
  }

  ghost predicate HasSqrt(x: real) {
    exists s :: IsSqrt(x, s)
  }

  /**
   * Every non-negative real has a square root. This holds of the reals,
   * but the verifier cannot construct the root, so every member that takes
   * a square root carries it as a hypothesis; it plays the part of the
   * axiomatised `f32::sqrt`.
   */
  ghost predicate SqrtTotal() {
    forall x: real :: x >= 0.0 ==> HasSqrt(x)
  }

  lemma SquareStrictlyMonotone(s: real, t: real)
    requires 0.0 <= s < t
    ensures Square(s) < Square(t)
  {
    var d := t - s;
    assert t * t == s * s + d * (s + t);
    assert d * (s + t) > 0.0;
  }

  /** Non-negative roots are unique, so `Sqrt` below is a function. */
  lemma SqrtUnique(x: real)
    ensures forall s, t :: IsSqrt(x, s) && IsSqrt(x, t) ==> s == t
  {
    forall s, t | IsSqrt(x, s) && IsSqrt(x, t)
      ensures s == t
    {
      if s < t {
        SquareStrictlyMonotone(s, t);
      } else if t < s {
        SquareStrictlyMonotone(t, s);
      }
    }
  }

  /** `f32::sqrt` on non-negative arguments. */
  function Sqrt(x: real): (s: real)
    requires x >= 0.0 && SqrtTotal()
    ensures IsSqrt(x, s)
  {
    assert HasSqrt(x);
    SqrtUnique(x);
    var s :| IsSqrt(x, s);
    s
  }

  lemma SqrtOfSquare(s: real)
    requires SqrtTotal() && s >= 0.0
    ensures Sqrt(Square(s)) == s
  {
    SqrtUnique(Square(s));
    assert IsSqrt(Square(s), s) && IsSqrt(Square(s), Sqrt(Square(s)));
  }

  /** The square root maps [0, 1] into [0, 1] (used by the gamma step). */
  lemma SqrtInUnitInterval(x: real)
    requires SqrtTotal() && 0.0 <= x <= 1.0
    ensures 0.0 <= Sqrt(x) <= 1.0
  {
    var s := Sqrt(x);
    if s > 1.0 {
      SquareStrictlyMonotone(1.0, s);
    }
  }

  /** Integer part toward zero, as Rust's float-to-integer cast rounds. */
  function Trunc(x: real): (n: int)
    ensures x >= 0.0 ==> n as real <= x < n as real + 1.0
    ensures x < 0.0 ==> n as real - 1.0 < x <= n as real
  {
    if x >= 0.0 then x.Floor else -((-x).Floor)
  }

  const I32Min: int := -0x8000_0000
  const I32Max: int := 0x7fff_ffff

  /** `x as i32`: truncation toward zero, saturating at the bounds of `i32`. */
  function AsI32(x: real): (n: int)
    ensures I32Min <= n <= I32Max
    ensures I32Min as real <= x < I32Max as real + 1.0 ==> n == Trunc(x)
    ensures x >= I32Max as real + 1.0 ==> n == I32Max
    ensures x < I32Min as real ==> n == I32Min
  {
    var k := Trunc(x);
    if k < I32Min then I32Min else if k > I32Max then I32Max else k
  }

  /** `f32::MAX`, the largest finite single-precision value. */
  const F32Max: real := 340282346638528859811704183484516925440.0
}
