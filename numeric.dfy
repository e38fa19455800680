/**
 * Real-number helpers. Every `f32`/`f64` of the renderer is modelled as a `real`;
 * the library square root is not something Dafny can define on `real`, so every
 * operation that takes a square root receives it as a parameter `sqrt`, and
 * `IsSqrt` states what is assumed of it.
 */
module Numeric {

  /** `sqrt` returns the non-negative square root of every non-negative argument. */
  ghost predicate IsSqrt(sqrt: real -> real) {
    forall x :: 0.0 <= x ==> 0.0 <= sqrt(x) && sqrt(x) * sqrt(x) == x
  }

  /** `f64::abs`. */
  function Abs(x: real): (r: real)
    ensures 0.0 <= r
    ensures r == x || r == -x
  {
    if x < 0.0 then -x else x
  }

  /** A non-negative square root is unique, so `sqrt` is pinned down wherever it is used. */
  lemma SqrtUnique(sqrt: real -> real, x: real, r: real)
    requires IsSqrt(sqrt)
    requires 0.0 <= x && 0.0 <= r && r * r == x
    ensures sqrt(x) == r
  {
    var s := sqrt(x);
    assert 0.0 <= s && s * s == x;
    assert (s - r) * (s + r) == 0.0;
    if s + r == 0.0 {
      assert s == 0.0 && r == 0.0;
    } else {
      assert s - r == 0.0;
    }
  }

  /*
   * Sign facts about products. A square is written `a * b` with `a == b`, so callers
   * pass the same term twice: the solver then keeps the bound on the product itself.
   */

  lemma ProductPositive(a: real, b: real)
    requires (0.0 < a && 0.0 < b) || (a < 0.0 && b < 0.0)
    ensures 0.0 < a * b
  {
    if a < 0.0 {
      assert a * b == (-a) * (-b);
    }
  }

  lemma ProductNonNegative(a: real, b: real)
    requires a == b
    ensures 0.0 <= a * b
  {
    if a < 0.0 {
      assert a * b == (-a) * (-b);
    }
  }

  /** A square that is not positive is the square of zero. */
  lemma ProductZero(a: real, b: real)
    requires a == b && a * b <= 0.0
    ensures a == 0.0
  {
    if a != 0.0 {
      ProductPositive(a, b);
    }
  }

  /** `q * s` and `q` agree, with `q` positive, only when `s` is one. */
  lemma Cancel(q: real, s: real, t: real)
    requires 0.0 < q && t <= q && q <= t && t <= q * s && q * s <= t
    ensures s == 1.0
  {
    if s < 1.0 {
      ProductPositive(q, 1.0 - s);
    } else if 1.0 < s {
      ProductPositive(q, s - 1.0);
    }
  }

  /** `t == len * len == len * len * s` with `len` non-zero forces `s == 1`. */
  lemma CancelProduct(a: real, b: real, s: real, t: real)
    requires a != 0.0 && a == b && t == a * b && t == (a * b) * s
    ensures s == 1.0
  {
    ProductPositive(a, b);
    Cancel(a * b, s, t);
  }

  /*
   * The roots of `a * t * t + 2 * b * t + c`, the quadratic a ray-sphere
   * intersection solves, with `s` a square root of the reduced discriminant.
   */

  lemma ZeroProduct(x: real, y: real)
    ensures x * y == 0.0 <==> x == 0.0 || y == 0.0
  {
    if x != 0.0 && x * y == 0.0 {
      assert y == (x * y) / x;
    }
  }

  lemma SolveLinear(a: real, b: real, s: real, t: real)
    requires a != 0.0
    ensures a * t + b == s <==> t == (s - b) / a
  {
    if t == (s - b) / a {
      assert a * t == s - b;
    }
  }

  lemma QuadraticFactor(a: real, b: real, c: real, s: real, t: real)
    requires s * s == b * b - a * c
    ensures a * (a * t * t + 2.0 * b * t + c) == (a * t + b - s) * (a * t + b + s)
  {
  }

  /** With `s * s == b * b - a * c`, the roots are exactly `(-b - s) / a` and `(-b + s) / a`. */
  lemma QuadraticRoots(a: real, b: real, c: real, s: real, t: real)
    requires a != 0.0
    requires s * s == b * b - a * c
    ensures a * t * t + 2.0 * b * t + c == 0.0 <==> t == (-b - s) / a || t == (-b + s) / a
  {
    QuadraticFactor(a, b, c, s, t);
    ZeroProduct(a, a * t * t + 2.0 * b * t + c);
    ZeroProduct(a * t + b - s, a * t + b + s);
    SolveLinear(a, b, s, t);
    SolveLinear(a, b, -s, t);
    assert (s - b) == (-b + s);
    assert (-s - b) == (-b - s);
  }

  /** For a positive leading coefficient the `-` root is the smaller one. */
  lemma RootOrder(a: real, b: real, s: real)
    requires 0.0 < a && 0.0 <= s
    ensures (-b - s) / a <= (-b + s) / a
  {
    assert (-b + s) / a - (-b - s) / a == (2.0 * s) / a;
  }

  /** A positive number times a non-positive one is non-positive. */
  lemma ProductNonPositive(a: real, b: real)
    requires 0.0 < a && b <= 0.0
    ensures a * b <= 0.0
  {
    if b < 0.0 {
      ProductPositive(a, -b);
      assert a * (-b) == -(a * b);
    }
  }

  /** A negative discriminant with a positive leading coefficient leaves the quadratic positive everywhere. */
  lemma NoRealRoot(a: real, b: real, c: real, t: real)
    requires 0.0 < a && b * b - a * c < 0.0
    ensures 0.0 < a * t * t + 2.0 * b * t + c
  {
    var u := a * t + b;
    var q := a * t * t + 2.0 * b * t + c;
    ProductNonNegative(u, u);
    assert a * q == u * u - (b * b - a * c);
    if q <= 0.0 {
      ProductNonPositive(a, q);
    }
  }
}
