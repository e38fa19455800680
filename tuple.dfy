/**
 * `src/core/tuple.rs`: four-component tuples in which `w` tells points
 * (`w == 1`) from vectors (`w == 0`).
 */
module CoreTuple {
  import opened Numeric
  import opened CoreUtil

  /** `Tuple { x, y, z, w }`. */
  datatype Tuple = Tuple(x: real, y: real, z: real, w: real)

  /** `point`: a tuple tagged `w == 1`. */
  function Point(x: real, y: real, z: real): (t: Tuple)
    ensures t.w == 1.0 && IsPoint(t) && !IsVector(t)
  {
    EpsilonBounds();
    Tuple(x, y, z, 1.0)
  }

  /** `vector`: a tuple tagged `w == 0`. */
  function Vector(x: real, y: real, z: real): (t: Tuple)
    ensures t.w == 0.0 && IsVector(t) && !IsPoint(t)
  {
    EpsilonBounds();
    Tuple(x, y, z, 0.0)
  }

  /** `is_point`: `w` is approximately 1. */
  predicate IsPoint(t: Tuple) {
    FloatCmp(t.w, 1.0)
  }

  /** `is_vector`: `w` is approximately 0. */
  predicate IsVector(t: Tuple) {
    FloatCmp(t.w, 0.0)
  }

  /** No tuple is both a point and a vector. */
  lemma PointOrVector(t: Tuple)
    ensures !(IsPoint(t) && IsVector(t))
  {
    FloatCmpSeparates(t.w, 1.0, 0.0);
  }

  /** The tuple with every component zero. */
  function Zero(): Tuple {
    Tuple(0.0, 0.0, 0.0, 0.0)
  }

  /** `Add`. */
  function Add(a: Tuple, b: Tuple): Tuple {
    Tuple(a.x + b.x, a.y + b.y, a.z + b.z, a.w + b.w)
  }

  /** `Sub`. */
  function Sub(a: Tuple, b: Tuple): Tuple {
    Tuple(a.x - b.x, a.y - b.y, a.z - b.z, a.w - b.w)
  }

  /** `Neg`. */
  function Neg(t: Tuple): Tuple {
    Tuple(-t.x, -t.y, -t.z, -t.w)
  }

  /** `Mul<f64>`. */
  function Scale(t: Tuple, s: real): Tuple {
    Tuple(t.x * s, t.y * s, t.z * s, t.w * s)
  }

  /** `Div<f64>`; dividing by zero gives non-finite components in Rust and is excluded here. */
  function Div(t: Tuple, s: real): Tuple
    requires s != 0.0
  {
    Tuple(t.x / s, t.y / s, t.z / s, t.w / s)
  }

  /** `PartialEq`: every component approximately equal. */
  predicate Eq(a: Tuple, b: Tuple) {
    FloatCmp(a.x, b.x) && FloatCmp(a.y, b.y) && FloatCmp(a.z, b.z) && FloatCmp(a.w, b.w)
  }

  /** The sum of the squared components, `w` included, that `magnitude` takes the root of. */
  function SumOfSquares(t: Tuple): real {
    t.x * t.x + t.y * t.y + t.z * t.z + t.w * t.w
  }

  /** `magnitude`. */
  function Magnitude(sqrt: real -> real, t: Tuple): (r: real)
    requires IsSqrt(sqrt)
    ensures 0.0 <= r && r * r == SumOfSquares(t)
  {
    SumOfSquaresNonNegative(t);
    sqrt(SumOfSquares(t))
  }

  /** `normalize`: the tuple divided by its magnitude; the zero tuple is excluded. */
  function Normalize(sqrt: real -> real, t: Tuple): (r: Tuple)
    requires IsSqrt(sqrt)
    requires t != Zero()
    ensures Magnitude(sqrt, r) == 1.0
    ensures Scale(r, Magnitude(sqrt, t)) == t
  {
    var mag := Magnitude(sqrt, t);
    MagnitudePositive(sqrt, t);
    NormalizedHasMagnitudeOne(sqrt, t, mag);
    ScaleDivCancel(t, mag);
    Div(t, mag)
  }

  /** `dot_product`, which includes the `w` components. */
  function DotProduct(a: Tuple, b: Tuple): real {
    a.x * b.x + a.y * b.y + a.z * b.z + a.w * b.w
  }

  /** `cross_product`: the three-dimensional cross product, always tagged as a vector. */
  function CrossProduct(a: Tuple, b: Tuple): (r: Tuple)
    ensures r.w == 0.0 && IsVector(r)
  {
    Vector(a.y * b.z - a.z * b.y, a.z * b.x - a.x * b.z, a.x * b.y - a.y * b.x)
  }

  lemma SumOfSquaresNonNegative(t: Tuple)
    ensures 0.0 <= SumOfSquares(t)
  {
    ProductNonNegative(t.x, t.x);
    ProductNonNegative(t.y, t.y);
    ProductNonNegative(t.z, t.z);
    ProductNonNegative(t.w, t.w);
  }

  /** A tuple whose sum of squares is not positive has only zero components. */
  lemma SumOfSquaresNonPositive(t: Tuple)
    requires SumOfSquares(t) <= 0.0
    ensures t.x == 0.0 && t.y == 0.0 && t.z == 0.0 && t.w == 0.0
  {
    ProductNonNegative(t.x, t.x);
    ProductNonNegative(t.y, t.y);
    ProductNonNegative(t.z, t.z);
    ProductNonNegative(t.w, t.w);
    ProductZero(t.x, t.x);
    ProductZero(t.y, t.y);
    ProductZero(t.z, t.z);
    ProductZero(t.w, t.w);
  }

  lemma ZeroComponents(t: Tuple)
    requires t.x == 0.0 && t.y == 0.0 && t.z == 0.0 && t.w == 0.0
    ensures t == Zero()
  {
  }

  /** Only the zero tuple has magnitude zero. */
  lemma MagnitudeZero(sqrt: real -> real, t: Tuple)
    requires IsSqrt(sqrt)
    ensures Magnitude(sqrt, t) == 0.0 <==> t == Zero()
  {
    var r := Magnitude(sqrt, t);
    if SumOfSquares(t) <= 0.0 {
      SumOfSquaresNonPositive(t);
      ZeroComponents(t);
      ProductZero(r, r);
    }
  }

  lemma MagnitudePositive(sqrt: real -> real, t: Tuple)
    requires IsSqrt(sqrt)
    requires t != Zero()
    ensures 0.0 < Magnitude(sqrt, t)
  {
    MagnitudeZero(sqrt, t);
  }

  lemma SumOfSquaresScale(t: Tuple, s: real)
    ensures SumOfSquares(Scale(t, s)) == (s * s) * SumOfSquares(t)
  {
  }

  /** Dividing by the magnitude leaves magnitude one. */
  lemma NormalizedHasMagnitudeOne(sqrt: real -> real, t: Tuple, mag: real)
    requires IsSqrt(sqrt)
    requires 0.0 < mag && mag * mag == SumOfSquares(t)
    ensures Magnitude(sqrt, Div(t, mag)) == 1.0
  {
    var u := Div(t, mag);
    ScaleDivCancel(t, mag);
    SumOfSquaresScale(u, mag);
    CancelProduct(mag, mag, SumOfSquares(u), SumOfSquares(t));
    SqrtUnique(sqrt, SumOfSquares(u), 1.0);
  }

  /** `(t * s) / s == t` and `(t / s) * s == t`: all four components, `w` included, are scaled. */
  lemma ScaleDivCancel(t: Tuple, s: real)
    requires s != 0.0
    ensures Div(Scale(t, s), s) == t
    ensures Scale(Div(t, s), s) == t
  {
    ScalarDivCancel(t.x, s);
    ScalarDivCancel(t.y, s);
    ScalarDivCancel(t.z, s);
    ScalarDivCancel(t.w, s);
    var u, v := Scale(t, s), Div(t, s);
    assert Div(u, s) == Tuple(u.x / s, u.y / s, u.z / s, u.w / s);
    assert Scale(v, s) == Tuple(v.x * s, v.y * s, v.z * s, v.w * s);
  }

  lemma ScalarDivCancel(a: real, s: real)
    requires s != 0.0
    ensures (a * s) / s == a && (a / s) * s == a
  {
  }

  /** Adding a vector to a point gives a point; subtracting gives a point from a point and a vector, and a vector otherwise. */
  lemma PointVectorArithmetic(p: Tuple, q: Tuple, v: Tuple, u: Tuple)
    requires p.w == 1.0 && q.w == 1.0 && v.w == 0.0 && u.w == 0.0
    ensures IsPoint(Add(p, v)) && IsPoint(Add(v, p))
    ensures IsVector(Sub(p, q))
    ensures IsPoint(Sub(p, v))
    ensures IsVector(Sub(v, u)) && IsVector(Add(v, u))
  {
    EpsilonBounds();
  }

  lemma DotProductSymmetric(a: Tuple, b: Tuple)
    ensures DotProduct(a, b) == DotProduct(b, a)
  {
  }

  /** A tuple dotted with itself is the sum of squares `magnitude` takes the root of, `w` included. */
  lemma DotProductSelf(sqrt: real -> real, t: Tuple)
    requires IsSqrt(sqrt)
    ensures DotProduct(t, t) == Magnitude(sqrt, t) * Magnitude(sqrt, t)
  {
  }

  lemma CrossProductAnticommutative(a: Tuple, b: Tuple)
    ensures CrossProduct(a, b) == Neg(CrossProduct(b, a))
  {
  }

  /** The cross product is orthogonal to both operands (its `w` is zero, so theirs does not count). */
  lemma CrossProductOrthogonal(a: Tuple, b: Tuple)
    ensures DotProduct(a, CrossProduct(a, b)) == 0.0
    ensures DotProduct(b, CrossProduct(a, b)) == 0.0
  {
    assert a.x * (a.y * b.z - a.z * b.y) == a.x * a.y * b.z - a.x * a.z * b.y;
    assert a.y * (a.z * b.x - a.x * b.z) == a.y * a.z * b.x - a.x * a.y * b.z;
    assert a.z * (a.x * b.y - a.y * b.x) == a.x * a.z * b.y - a.y * a.z * b.x;
    assert b.x * (a.y * b.z - a.z * b.y) == a.y * b.x * b.z - a.z * b.x * b.y;
    assert b.y * (a.z * b.x - a.x * b.z) == a.z * b.x * b.y - a.x * b.y * b.z;
    assert b.z * (a.x * b.y - a.y * b.x) == a.x * b.y * b.z - a.y * b.x * b.z;
  }

  /** Negation is an involution and is subtraction from the zero tuple. */
  lemma NegProperties(t: Tuple)
    ensures Neg(Neg(t)) == t
    ensures Neg(t) == Sub(Zero(), t)
  {
  }

  lemma AddSubCancel(a: Tuple, b: Tuple)
    ensures Sub(Add(a, b), b) == a
  {
  }

  /** Tuple equality is reflexive and symmetric. */
  lemma EqReflexiveSymmetric(a: Tuple, b: Tuple)
    ensures Eq(a, a)
    ensures Eq(a, b) == Eq(b, a)
  {
    EpsilonBounds();
  }
}
