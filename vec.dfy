/**
 * `src/vec.rs`: the three-component vector of the renderer, used both as a
 * displacement and (under the alias `Point`) as a position. `f32` is modelled
 * as `real`; an index past the end, which panics in Rust, is `None`.
 */
module Vec {
  import opened Numeric
  import opened Wrappers

  /** `Vec3 { e: [f32; 3] }`; `x`, `y` and `z` are `e[0]`, `e[1]` and `e[2]`. */
  datatype Vec3 = Vec3(x: real, y: real, z: real)

  /** `Vec3::empty`. */
  function Empty(): Vec3 {
    Vec3(0.0, 0.0, 0.0)
  }

  /** `Index<usize>`: `e[i]`, or a panic (`None`) when `i` is past the end of `e`. */
  function Index(v: Vec3, i: nat): (r: Option<real>)
    ensures r.Some? <==> i < 3
    ensures i == 0 ==> r == Some(v.x)
    ensures i == 1 ==> r == Some(v.y)
    ensures i == 2 ==> r == Some(v.z)
  {
    if i == 0 then Some(v.x)
    else if i == 1 then Some(v.y)
    else if i == 2 then Some(v.z)
    else None
  }

  /** `len_squared`. */
  function LenSquared(v: Vec3): real {
    v.x * v.x + v.y * v.y + v.z * v.z
  }

  /** `dot`. */
  function Dot(a: Vec3, b: Vec3): real {
    a.x * b.x + a.y * b.y + a.z * b.z
  }

  /** `cross`. */
  function Cross(a: Vec3, b: Vec3): Vec3 {
    Vec3(a.y * b.z - a.z * b.y,
         a.z * b.x - a.x * b.z,
         a.x * b.y - a.y * b.x)
  }

  /** `Neg`. */
  function Neg(v: Vec3): Vec3 {
    Vec3(-v.x, -v.y, -v.z)
  }

  /** `Add` (both the by-value and the by-reference right operand). */
  function Add(a: Vec3, b: Vec3): Vec3 {
    Vec3(a.x + b.x, a.y + b.y, a.z + b.z)
  }

  /** `Sub`. */
  function Sub(a: Vec3, b: Vec3): Vec3 {
    Vec3(a.x - b.x, a.y - b.y, a.z - b.z)
  }

  /** `Mul<f32>`, for a `Vec3` and for a `&Vec3` alike. */
  function Scale(v: Vec3, s: real): Vec3 {
    Vec3(v.x * s, v.y * s, v.z * s)
  }

  /** `Mul<Self>`: the component-wise product. */
  function Mul(a: Vec3, b: Vec3): Vec3 {
    Vec3(a.x * b.x, a.y * b.y, a.z * b.z)
  }

  /** `Div<f32>`; a zero divisor gives non-finite components in Rust and is excluded here. */
  function Div(v: Vec3, s: real): Vec3
    requires s != 0.0
  {
    Vec3(v.x / s, v.y / s, v.z / s)
  }

  /** `len`: the square root of `len_squared`. */
  function Len(sqrt: real -> real, v: Vec3): (r: real)
    requires IsSqrt(sqrt)
    ensures 0.0 <= r && r * r == LenSquared(v)
  {
    LenSquaredNonNegative(v);
    sqrt(LenSquared(v))
  }

  /** Only the zero vector has length zero ... */
  lemma LenZero(sqrt: real -> real, v: Vec3)
    requires IsSqrt(sqrt)
    ensures Len(sqrt, v) == 0.0 <==> v == Empty()
  {
    var r := Len(sqrt, v);
    if LenSquared(v) <= 0.0 {
      ProductZero(r, r);
    }
    LenSquaredZero(v);
  }

  /** ... and every other vector a positive length. */
  lemma LenPositive(sqrt: real -> real, v: Vec3)
    requires IsSqrt(sqrt)
    requires v != Empty()
    ensures 0.0 < Len(sqrt, v)
  {
    var r := Len(sqrt, v);
    LenSquaredPositive(v);
  }

  /** `unit`: the vector divided by its length; the zero vector has no direction. */
  function Unit(sqrt: real -> real, v: Vec3): (r: Vec3)
    requires IsSqrt(sqrt)
    requires v != Empty()
    ensures Len(sqrt, r) == 1.0
    ensures Scale(r, Len(sqrt, v)) == v
  {
    var len := Len(sqrt, v);
    LenPositive(sqrt, v);
    UnitHasLengthOne(sqrt, v, len);
    ScaleDivCancel(v, len);
    Div(v, len)
  }

  /** Dividing a vector by its (positive) length leaves a vector of length one. */
  lemma UnitHasLengthOne(sqrt: real -> real, v: Vec3, len: real)
    requires IsSqrt(sqrt)
    requires 0.0 < len && len * len == LenSquared(v)
    ensures Len(sqrt, Div(v, len)) == 1.0
  {
    DivBySquareRoot(v, len);
    SqrtUnique(sqrt, LenSquared(Div(v, len)), 1.0);
  }

  /** Dividing by any `s` with `s * s` equal to the squared length gives squared length one. */
  lemma DivBySquareRoot(v: Vec3, s: real)
    requires s != 0.0 && s * s == LenSquared(v)
    ensures LenSquared(Div(v, s)) == 1.0
  {
    var u := Div(v, s);
    ScaleDivCancel(v, s);
    LenSquaredScale(u, s);
    CancelProduct(s, s, LenSquared(u), LenSquared(v));
  }

  lemma LenSquaredScale(v: Vec3, s: real)
    ensures LenSquared(Scale(v, s)) == (s * s) * LenSquared(v)
  {
  }

  lemma LenSquaredNonNegative(v: Vec3)
    ensures 0.0 <= LenSquared(v)
  {
    ProductNonNegative(v.x, v.x);
    ProductNonNegative(v.y, v.y);
    ProductNonNegative(v.z, v.z);
  }

  /** A vector whose squared length is not positive has only zero components. */
  lemma LenSquaredNonPositive(v: Vec3)
    requires LenSquared(v) <= 0.0
    ensures v.x == 0.0 && v.y == 0.0 && v.z == 0.0
  {
    ProductNonNegative(v.x, v.x);
    ProductNonNegative(v.y, v.y);
    ProductNonNegative(v.z, v.z);
    ProductZero(v.x, v.x);
    ProductZero(v.y, v.y);
    ProductZero(v.z, v.z);
  }

  lemma ZeroComponents(v: Vec3)
    requires v.x == 0.0 && v.y == 0.0 && v.z == 0.0
    ensures v == Empty()
  {
  }

  /** Only the zero vector has length zero. */
  lemma LenSquaredZero(v: Vec3)
    ensures LenSquared(v) == 0.0 <==> v == Empty()
  {
    if LenSquared(v) <= 0.0 {
      LenSquaredNonPositive(v);
      ZeroComponents(v);
    }
  }

  /** Every other vector has a positive squared length. */
  lemma LenSquaredPositive(v: Vec3)
    requires v != Empty()
    ensures 0.0 < LenSquared(v)
  {
    if LenSquared(v) <= 0.0 {
      LenSquaredNonPositive(v);
      ZeroComponents(v);
    }
  }

  /** `len_squared` is the dot product of a vector with itself. */
  lemma LenSquaredIsSelfDot(v: Vec3)
    ensures LenSquared(v) == Dot(v, v)
  {
  }

  lemma DotSymmetric(a: Vec3, b: Vec3)
    ensures Dot(a, b) == Dot(b, a)
  {
  }

  /** `Dot` is linear in its second argument. */
  lemma DotLinear(a: Vec3, b: Vec3, c: Vec3, s: real)
    ensures Dot(a, Add(b, c)) == Dot(a, b) + Dot(a, c)
    ensures Dot(a, Scale(b, s)) == Dot(a, b) * s
    ensures Dot(a, Neg(b)) == -Dot(a, b)
  {
  }

  lemma CrossAnticommutative(a: Vec3, b: Vec3)
    ensures Cross(a, b) == Neg(Cross(b, a))
  {
  }

  /** The cross product is orthogonal to both of its operands. */
  lemma CrossOrthogonal(a: Vec3, b: Vec3)
    ensures Dot(a, Cross(a, b)) == 0.0
    ensures Dot(b, Cross(a, b)) == 0.0
  {
    assert a.x * (a.y * b.z - a.z * b.y) == a.x * a.y * b.z - a.x * a.z * b.y;
    assert a.y * (a.z * b.x - a.x * b.z) == a.y * a.z * b.x - a.x * a.y * b.z;
    assert a.z * (a.x * b.y - a.y * b.x) == a.x * a.z * b.y - a.y * a.z * b.x;
    assert b.x * (a.y * b.z - a.z * b.y) == a.y * b.x * b.z - a.z * b.x * b.y;
    assert b.y * (a.z * b.x - a.x * b.z) == a.z * b.x * b.y - a.x * b.y * b.z;
    assert b.z * (a.x * b.y - a.y * b.x) == a.x * b.y * b.z - a.y * b.x * b.z;
  }

  lemma NegInvolution(v: Vec3)
    ensures Neg(Neg(v)) == v
  {
  }

  /** Reversing a vector keeps its length. */
  lemma LenSquaredNeg(v: Vec3)
    ensures LenSquared(Neg(v)) == LenSquared(v)
  {
    assert (-v.x) * (-v.x) == v.x * v.x;
    assert (-v.y) * (-v.y) == v.y * v.y;
    assert (-v.z) * (-v.z) == v.z * v.z;
  }

  /** Subtraction undoes addition. */
  lemma AddSubCancel(a: Vec3, b: Vec3)
    ensures Sub(Add(a, b), b) == a
    ensures Add(Sub(a, b), b) == a
  {
  }

  /** `empty()` is the zero vector and the identity of `Add`. */
  lemma EmptyIsAdditiveIdentity(v: Vec3)
    ensures LenSquared(Empty()) == 0.0
    ensures Add(v, Empty()) == v && Add(Empty(), v) == v
    ensures Sub(v, Empty()) == v
  {
    assert Add(v, Empty()) == Vec3(v.x, v.y, v.z);
  }

  lemma MulCommutative(a: Vec3, b: Vec3)
    ensures Mul(a, b) == Mul(b, a)
  {
  }

  /** Dividing by a non-zero scalar undoes multiplying by it. */
  lemma ScaleDivCancel(v: Vec3, s: real)
    requires s != 0.0
    ensures Div(Scale(v, s), s) == v
    ensures Scale(Div(v, s), s) == v
  {
  }

  /**
   * A `Vec3` held in a mutable place (`&mut self`): its array `e` is the `[f32; 3]`
   * that the compound assignments and `IndexMut` update in place.
   */
  class Vec3Var {
    var e: array<real>

    ghost predicate Valid()
      reads this
    {
      e.Length == 3
    }

    /** The vector currently stored. */
    function Value(): Vec3
      reads this, e
      requires Valid()
    {
      Vec3(e[0], e[1], e[2])
    }

    constructor (v: Vec3)
      ensures Valid() && fresh(e)
      ensures Value() == v
    {
      e := new real[3] [v.x, v.y, v.z];
    }

    /** `IndexMut<usize>` followed by an assignment: writes `e[i]`, or panics past the end. */
    method SetIndex(i: nat, value: real) returns (panicked: bool)
      requires Valid()
      modifies e
      ensures panicked <==> Index(old(Value()), i).None?
      ensures !panicked ==> e[i] == value
      ensures forall k :: 0 <= k < 3 && k != i ==> e[k] == old(e[k])
    {
      panicked := 3 <= i;
      if !panicked {
        e[i] := value;
      }
    }

    /**
     * `AddAssign` as written: `e[0] += rhs[0]; e[1] += rhs[2]; e[2] += rhs[3]`. The
     * third statement indexes past the end of `rhs` and panics before it writes, after
     * the second has already added the z component of `rhs` to y.
     */
    method AddAssignAsWritten(rhs: Vec3) returns (panicked: bool)
      requires Valid()
      modifies e
      ensures panicked
      ensures e[0] == old(e[0]) + rhs.x
      ensures e[1] == old(e[1]) + rhs.z
      ensures e[2] == old(e[2])
    {
      e[0] := e[0] + Index(rhs, 0).value;
      e[1] := e[1] + Index(rhs, 2).value;
      panicked := Index(rhs, 3).None?;
    }

    /** `SubAssign` as written: the same index pattern as `AddAssign`, with `-=`. */
    method SubAssignAsWritten(rhs: Vec3) returns (panicked: bool)
      requires Valid()
      modifies e
      ensures panicked
      ensures e[0] == old(e[0]) - rhs.x
      ensures e[1] == old(e[1]) - rhs.z
      ensures e[2] == old(e[2])
    {
      e[0] := e[0] - Index(rhs, 0).value;
      e[1] := e[1] - Index(rhs, 2).value;
      panicked := Index(rhs, 3).None?;
    }

    /** `AddAssign` as evidently intended: the stored vector becomes `old + rhs`. */
    method AddAssign(rhs: Vec3)
      requires Valid()
      modifies e
      ensures Value() == Add(old(Value()), rhs)
    {
      e[0] := e[0] + rhs.x;
      e[1] := e[1] + rhs.y;
      e[2] := e[2] + rhs.z;
    }

    /** `SubAssign` as evidently intended: the stored vector becomes `old - rhs`. */
    method SubAssign(rhs: Vec3)
      requires Valid()
      modifies e
      ensures Value() == Sub(old(Value()), rhs)
    {
      e[0] := e[0] - rhs.x;
      e[1] := e[1] - rhs.y;
      e[2] := e[2] - rhs.z;
    }

    /** `MulAssign<f32>`: the stored vector becomes exactly what `Mul<f32>` returns. */
    method ScaleAssign(s: real)
      requires Valid()
      modifies e
      ensures Value() == Scale(old(Value()), s)
    {
      e[0] := e[0] * s;
      e[1] := e[1] * s;
      e[2] := e[2] * s;
    }

    /** `MulAssign<Self>`: the stored vector becomes exactly what `Mul<Self>` returns. */
    method MulAssign(rhs: Vec3)
      requires Valid()
      modifies e
      ensures Value() == Mul(old(Value()), rhs)
    {
      e[0] := e[0] * rhs.x;
      e[1] := e[1] * rhs.y;
      e[2] := e[2] * rhs.z;
    }

    /** `DivAssign<f32>`: the stored vector becomes exactly what `Div<f32>` returns. */
    method DivAssign(s: real)
      requires Valid()
      requires s != 0.0
      modifies e
      ensures Value() == Div(old(Value()), s)
    {
      e[0] := e[0] / s;
      e[1] := e[1] / s;
      e[2] := e[2] / s;
    }
  }
}
