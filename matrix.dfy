/**
 * `src/core/matrix.rs`: square matrices of size 2, 3 and 4. A matrix is its row-major
 * `data` array, `m[row][column]`; the size N of each Rust type is the parameter `n`.
 * The local arrays the loops fill (`res`, `sub`, `total`) are local sequence variables
 * updated one entry at a time.
 */
module CoreMatrix {
  import opened Wrappers
  import opened CoreUtil
  import opened CoreTuple

  /** `[[f64; N]; N]`. */
  type Grid = seq<seq<real>>

  /** `m` has `n` rows of `n` entries. */
  predicate IsSquare(m: Grid, n: nat) {
    |m| == n && forall i :: 0 <= i < n ==> |m[i]| == n
  }

  /** `Error`. */
  datatype MatrixError = OutOfBounds

  /** `new`: the zero matrix. */
  function Zeros(n: nat): (m: Grid)
    ensures IsSquare(m, n)
  {
    seq(n, _ => seq(n, _ => 0.0))
  }

  /** `identity` (the Rust code defines it for N = 4). */
  function Identity(n: nat): (m: Grid)
    ensures IsSquare(m, n)
  {
    seq(n, i => seq(n, j => if i == j then 1.0 else 0.0))
  }

  /** `check_bounds`: both coordinates below N. */
  function CheckBounds(n: nat, point: (nat, nat)): (r: Result<(), MatrixError>)
    ensures r.Ok? <==> point.0 < n && point.1 < n
    ensures r.Err? ==> r.error == OutOfBounds
  {
    if point.0 < n && point.1 < n then Ok(()) else Err(OutOfBounds)
  }

  /** `at`: the entry at `point` when `check_bounds` accepts it. */
  function At(m: Grid, n: nat, point: (nat, nat)): (r: Option<real>)
    requires IsSquare(m, n)
    ensures r.Some? <==> point.0 < n && point.1 < n
    ensures r.Some? ==> r.value == m[point.0][point.1]
  {
    match CheckBounds(n, point)
    case Ok(_) => Some(m[point.0][point.1])
    case Err(_) => None
  }

  /** `Matrix2x2::determinant`. */
  function Determinant(m: Grid): real
    requires IsSquare(m, 2)
  {
    m[0][0] * m[1][1] - m[1][0] * m[0][1]
  }

  /** The determinant of the 2x2 matrix in the unit test is 17. */
  lemma DeterminantExample()
    ensures Determinant([[1.0, 5.0], [-3.0, 2.0]]) == 17.0
  {
  }

  /** A 2x2 matrix and its transpose have the same determinant. */
  lemma DeterminantOfTranspose(m: Grid)
    requires IsSquare(m, 2)
    ensures Determinant(Transposed(m, 2)) == Determinant(m)
  {
    var t := Transposed(m, 2);
    assert t[0][0] == m[0][0] && t[1][1] == m[1][1] && t[1][0] == m[0][1] && t[0][1] == m[1][0];
  }

  /*
   * Transpose.
   */

  /** The transpose: entry `(x, y)` is `m`'s entry `(y, x)`. */
  function Transposed(m: Grid, n: nat): (t: Grid)
    requires IsSquare(m, n)
    ensures IsSquare(t, n)
  {
    seq(n, x requires 0 <= x < n => seq(n, y requires 0 <= y < n => m[y][x]))
  }

  /** `transpose`: fills a zero matrix entry by entry. */
  method Transpose(m: Grid, n: nat) returns (res: Grid)
    requires IsSquare(m, n)
    ensures res == Transposed(m, n)
  {
    res := Zeros(n);
    for x := 0 to n
      invariant IsSquare(res, n)
      invariant forall i, j :: 0 <= i < x && 0 <= j < n ==> res[i][j] == m[j][i]
    {
      for y := 0 to n
        invariant IsSquare(res, n)
        invariant forall i, j :: 0 <= i < x && 0 <= j < n ==> res[i][j] == m[j][i]
        invariant forall j :: 0 <= j < y ==> res[x][j] == m[j][x]
      {
        res := res[x := res[x][y := m[y][x]]];
      }
    }
    SameEntries(res, Transposed(m, n), n);
  }

  /** Two square matrices with the same entries are equal. */
  lemma SameEntries(a: Grid, b: Grid, n: nat)
    requires IsSquare(a, n) && IsSquare(b, n)
    requires forall i, j :: 0 <= i < n && 0 <= j < n ==> a[i][j] == b[i][j]
    ensures a == b
  {
    forall i | 0 <= i < n
      ensures a[i] == b[i]
    {
      assert forall j :: 0 <= j < n ==> a[i][j] == b[i][j];
    }
  }

  /** Transposing twice gives the matrix back. */
  lemma TransposeInvolution(m: Grid, n: nat)
    requires IsSquare(m, n)
    ensures Transposed(Transposed(m, n), n) == m
  {
    SameEntries(Transposed(Transposed(m, n), n), m, n);
  }

  /** The identity is its own transpose. */
  lemma TransposeIdentity(n: nat)
    ensures Transposed(Identity(n), n) == Identity(n)
  {
    SameEntries(Transposed(Identity(n), n), Identity(n), n);
  }

  /*
   * Products.
   */

  /** The first `k` products of row `x` of `a` with column `y` of `b`, summed in index order. */
  function RowColumn(a: Grid, b: Grid, n: nat, x: nat, y: nat, k: nat): real
    requires IsSquare(a, n) && IsSquare(b, n)
    requires x < n && y < n && k <= n
  {
    if k == 0 then 0.0 else RowColumn(a, b, n, x, y, k - 1) + a[x][k - 1] * b[k - 1][y]
  }

  /** The matrix product: entry `(x, y)` is row `x` of `a` times column `y` of `b`. */
  function Product(a: Grid, b: Grid, n: nat): (p: Grid)
    requires IsSquare(a, n) && IsSquare(b, n)
    ensures IsSquare(p, n)
  {
    seq(n, x requires 0 <= x < n => seq(n, y requires 0 <= y < n => RowColumn(a, b, n, x, y, n)))
  }

  /** `Mul<Matrix4x4>`: a running `total` per entry. */
  method Mul(a: Grid, b: Grid, n: nat) returns (res: Grid)
    requires IsSquare(a, n) && IsSquare(b, n)
    ensures res == Product(a, b, n)
  {
    res := Zeros(n);
    for x := 0 to n
      invariant IsSquare(res, n)
      invariant forall i, j :: 0 <= i < x && 0 <= j < n ==> res[i][j] == RowColumn(a, b, n, i, j, n)
    {
      for y := 0 to n
        invariant IsSquare(res, n)
        invariant forall i, j :: 0 <= i < x && 0 <= j < n ==> res[i][j] == RowColumn(a, b, n, i, j, n)
        invariant forall j :: 0 <= j < y ==> res[x][j] == RowColumn(a, b, n, x, j, n)
      {
        var total := 0.0;
        for i := 0 to n
          invariant total == RowColumn(a, b, n, x, y, i)
        {
          total := total + a[x][i] * b[i][y];
        }
        res := res[x := res[x][y := total]];
      }
    }
    SameEntries(res, Product(a, b, n), n);
  }

  /** Against the identity on the right, a partial row-column sum picks out entry `(x, y)` once `k` passes `y`. */
  lemma {:induction false} RowColumnIdentityRight(m: Grid, n: nat, x: nat, y: nat, k: nat)
    requires IsSquare(m, n) && x < n && y < n && k <= n
    ensures RowColumn(m, Identity(n), n, x, y, k) == if y < k then m[x][y] else 0.0
  {
    if k > 0 {
      RowColumnIdentityRight(m, n, x, y, k - 1);
    }
  }

  /** Against the identity on the left, a partial row-column sum picks out entry `(x, y)` once `k` passes `x`. */
  lemma {:induction false} RowColumnIdentityLeft(m: Grid, n: nat, x: nat, y: nat, k: nat)
    requires IsSquare(m, n) && x < n && y < n && k <= n
    ensures RowColumn(Identity(n), m, n, x, y, k) == if x < k then m[x][y] else 0.0
  {
    if k > 0 {
      RowColumnIdentityLeft(m, n, x, y, k - 1);
    }
  }

  /** `m * identity() == m` and `identity() * m == m`. */
  lemma ProductIdentity(m: Grid, n: nat)
    requires IsSquare(m, n)
    ensures Product(m, Identity(n), n) == m
    ensures Product(Identity(n), m, n) == m
  {
    forall x, y | 0 <= x < n && 0 <= y < n
      ensures Product(m, Identity(n), n)[x][y] == m[x][y]
      ensures Product(Identity(n), m, n)[x][y] == m[x][y]
    {
      RowColumnIdentityRight(m, n, x, y, n);
      RowColumnIdentityLeft(m, n, x, y, n);
    }
    SameEntries(Product(m, Identity(n), n), m, n);
    SameEntries(Product(Identity(n), m, n), m, n);
  }

  /*
   * Matrix times tuple. `Tuple` has no `x()` accessors and no `from` in
   * src/core/tuple.rs; the accessors are the fields, and `TupleFrom` is supplied here.
   */

  /** The components of a tuple in order. */
  function Components(t: Tuple): (c: seq<real>)
    ensures |c| == 4
  {
    [t.x, t.y, t.z, t.w]
  }

  /** `Tuple::from`: the tuple with the four given components. */
  function TupleFrom(c: seq<real>): Tuple
    requires |c| == 4
  {
    Tuple(c[0], c[1], c[2], c[3])
  }

  /** `TupleFrom` and `Components` are inverse to each other. */
  lemma TupleFromComponents(t: Tuple, c: seq<real>)
    requires |c| == 4
    ensures TupleFrom(Components(t)) == t
    ensures Components(TupleFrom(c)) == c
  {
  }

  /** Row `y` of `m` times the tuple `t`. */
  function RowTimes(m: Grid, y: nat, t: Tuple): real
    requires IsSquare(m, 4) && y < 4
  {
    t.x * m[y][0] + t.y * m[y][1] + t.z * m[y][2] + t.w * m[y][3]
  }

  /** The tuple `m * t`. */
  function Transform(m: Grid, t: Tuple): Tuple
    requires IsSquare(m, 4)
  {
    Tuple(RowTimes(m, 0, t), RowTimes(m, 1, t), RowTimes(m, 2, t), RowTimes(m, 3, t))
  }

  /** `Mul<Tuple>`: one row at a time into `res`, then `Tuple::from(res)`. */
  method MulTuple(m: Grid, t: Tuple) returns (r: Tuple)
    requires IsSquare(m, 4)
    ensures r == Transform(m, t)
  {
    var res := [0.0, 0.0, 0.0, 0.0];
    for y := 0 to 4
      invariant |res| == 4
      invariant forall i :: 0 <= i < y ==> res[i] == RowTimes(m, i, t)
    {
      res := res[y := t.x * m[y][0] + t.y * m[y][1] + t.z * m[y][2] + t.w * m[y][3]];
    }
    r := TupleFrom(res);
  }

  /** `identity() * t == t`. */
  lemma TransformIdentity(t: Tuple)
    ensures Transform(Identity(4), t) == t
  {
    var id := Identity(4);
    assert id[0] == [1.0, 0.0, 0.0, 0.0];
    assert id[1] == [0.0, 1.0, 0.0, 0.0];
    assert id[2] == [0.0, 0.0, 1.0, 0.0];
    assert id[3] == [0.0, 0.0, 0.0, 1.0];
  }

  /** The matrix-times-tuple unit test: `(1, 2, 3, 1)` becomes `(18, 24, 33, 1)`. */
  lemma TransformExample()
    ensures Transform([[1.0, 2.0, 3.0, 4.0], [2.0, 4.0, 4.0, 2.0], [8.0, 6.0, 4.0, 1.0], [0.0, 0.0, 0.0, 1.0]],
                      Tuple(1.0, 2.0, 3.0, 1.0)) == Tuple(18.0, 24.0, 33.0, 1.0)
  {
  }

  /** The product distributes over tuple addition. */
  lemma TransformLinear(m: Grid, s: Tuple, t: Tuple)
    requires IsSquare(m, 4)
    ensures Transform(m, Add(s, t)) == Add(Transform(m, s), Transform(m, t))
  {
  }

  /*
   * Equality.
   */

  /** Every pair of corresponding entries is `float_cmp`-equal. */
  predicate ApproxEqual(a: Grid, b: Grid, n: nat)
    requires IsSquare(a, n) && IsSquare(b, n)
  {
    forall i, j :: 0 <= i < n && 0 <= j < n ==> FloatCmp(a[i][j], b[i][j])
  }

  /** `PartialEq`: stops at the first pair of entries that differ. */
  method Equal(a: Grid, b: Grid, n: nat) returns (eq: bool)
    requires IsSquare(a, n) && IsSquare(b, n)
    ensures eq <==> ApproxEqual(a, b, n)
  {
    for x := 0 to n
      invariant forall i, j :: 0 <= i < x && 0 <= j < n ==> FloatCmp(a[i][j], b[i][j])
    {
      for y := 0 to n
        invariant forall j :: 0 <= j < y ==> FloatCmp(a[x][j], b[x][j])
      {
        if !FloatCmp(a[x][y], b[x][y]) {
          return false;
        }
      }
    }
    return true;
  }

  /** Matrix equality is reflexive and symmetric. */
  lemma ApproxEqualProperties(a: Grid, b: Grid, n: nat)
    requires IsSquare(a, n) && IsSquare(b, n)
    ensures ApproxEqual(a, a, n)
    ensures ApproxEqual(a, b, n) == ApproxEqual(b, a, n)
  {
    EpsilonBounds();
  }

  /*
   * Sub-matrices.
   */

  /** How many of the indices below `bound` differ from `skip`. */
  function Kept(bound: nat, skip: nat): nat {
    if skip < bound then bound - 1 else bound
  }

  /** The `i`-th index, counting from zero, that differs from `skip`. */
  function Skip(i: nat, skip: nat): nat {
    if i < skip then i else i + 1
  }

  /** The minor: `m` without row `x` and column `y`. */
  function Minor(m: Grid, n: nat, x: nat, y: nat): (s: Grid)
    requires IsSquare(m, n) && x < n && y < n
    ensures IsSquare(s, n - 1)
  {
    seq(n - 1, i requires 0 <= i < n - 1 => seq(n - 1, j requires 0 <= j < n - 1 => m[Skip(i, x)][Skip(j, y)]))
  }

  /**
   * What a scan of the rows and columns below `bound`, skipping row `x` and column `y`,
   * leaves in an `(n - 1)`-square zero matrix: the kept entries packed to the top left.
   */
  function ScannedMinor(m: Grid, n: nat, bound: nat, x: nat, y: nat): (s: Grid)
    requires IsSquare(m, n) && 0 < n && bound <= n
    requires Kept(bound, x) <= n - 1 && Kept(bound, y) <= n - 1
    ensures IsSquare(s, n - 1)
  {
    seq(n - 1, i requires 0 <= i < n - 1 => seq(n - 1, j requires 0 <= j < n - 1 =>
      if i < Kept(bound, x) && j < Kept(bound, y) then m[Skip(i, x)][Skip(j, y)] else 0.0))
  }

  /** Scanning every row and column gives the minor. */
  lemma ScanAllIsMinor(m: Grid, n: nat, x: nat, y: nat)
    requires IsSquare(m, n) && x < n && y < n
    ensures ScannedMinor(m, n, n, x, y) == Minor(m, n, x, y)
  {
    SameEntries(ScannedMinor(m, n, n, x, y), Minor(m, n, x, y), n - 1);
  }

  /** The minor of the transpose is the transpose of the minor. */
  lemma MinorOfTranspose(m: Grid, n: nat, x: nat, y: nat)
    requires IsSquare(m, n) && x < n && y < n
    ensures Minor(Transposed(m, n), n, y, x) == Transposed(Minor(m, n, x, y), n - 1)
  {
    var left := Minor(Transposed(m, n), n, y, x);
    var right := Transposed(Minor(m, n, x, y), n - 1);
    forall i, j | 0 <= i < n - 1 && 0 <= j < n - 1
      ensures left[i][j] == right[i][j]
    {
      assert left[i][j] == m[Skip(j, x)][Skip(i, y)];
      assert right[i][j] == Minor(m, n, x, y)[j][i];
    }
    SameEntries(left, right, n - 1);
  }

  /**
   * The loop of `sub_matrix` with its bound as a parameter: `current_x` and
   * `current_y` count the rows and columns kept so far.
   */
  method SubMatrixScan(m: Grid, n: nat, bound: nat, x: nat, y: nat) returns (sub: Grid)
    requires IsSquare(m, n) && 0 < n && bound <= n
    requires Kept(bound, x) <= n - 1 && Kept(bound, y) <= n - 1
    ensures sub == ScannedMinor(m, n, bound, x, y)
  {
    ghost var target := ScannedMinor(m, n, bound, x, y);
    sub := Zeros(n - 1);
    var currentX := 0;
    for w := 0 to bound
      invariant currentX == Kept(w, x)
      invariant IsSquare(sub, n - 1)
      invariant forall i :: 0 <= i < currentX ==> sub[i] == target[i]
      invariant forall i, j :: currentX <= i < n - 1 && 0 <= j < n - 1 ==> sub[i][j] == 0.0
    {
      ghost var before := sub;
      var currentY := 0;
      for h := 0 to bound
        invariant currentY == if w != x then Kept(h, y) else 0
        invariant w != x ==> currentX < n - 1
        invariant IsSquare(sub, n - 1)
        invariant forall i :: 0 <= i < n - 1 && i != currentX ==> sub[i] == before[i]
        invariant w == x ==> sub == before
        invariant w != x ==> forall j :: 0 <= j < currentY ==> sub[currentX][j] == m[w][Skip(j, y)]
        invariant w != x ==> forall j :: currentY <= j < n - 1 ==> sub[currentX][j] == 0.0
      {
        if w != x && h != y {
          sub := sub[currentX := sub[currentX][currentY := m[w][h]]];
          currentY := currentY + 1;
        }
      }
      if w != x {
        assert Skip(currentX, x) == w;
        assert forall j :: 0 <= j < n - 1 ==> sub[currentX][j] == target[currentX][j];
        currentX := currentX + 1;
      }
    }
    assert forall i :: 0 <= i < n - 1 ==> sub[i] == target[i];
  }

  /** `Matrix3x3::sub_matrix` as written: both loops stop at 2 instead of 3. */
  method SubMatrix3x3(m: Grid, x: nat, y: nat) returns (sub: Grid)
    requires IsSquare(m, 3)
    ensures sub == ScannedMinor(m, 3, 2, x, y)
  {
    sub := SubMatrixScan(m, 3, 2, x, y);
  }

  /** `Matrix3x3::sub_matrix` with both loops running to 3: the minor. */
  method SubMatrix3x3Corrected(m: Grid, x: nat, y: nat) returns (sub: Grid)
    requires IsSquare(m, 3) && x < 3 && y < 3
    ensures sub == Minor(m, 3, x, y)
  {
    sub := SubMatrixScan(m, 3, 3, x, y);
    ScanAllIsMinor(m, 3, x, y);
  }

  /** The as-written 3x3 scan never reads the last row or column of its argument. */
  lemma SubMatrix3x3IgnoresLastRowAndColumn(a: Grid, b: Grid, x: nat, y: nat)
    requires IsSquare(a, 3) && IsSquare(b, 3)
    requires forall i, j :: 0 <= i < 2 && 0 <= j < 2 ==> a[i][j] == b[i][j]
    ensures ScannedMinor(a, 3, 2, x, y) == ScannedMinor(b, 3, 2, x, y)
  {
    var sa := ScannedMinor(a, 3, 2, x, y);
    var sb := ScannedMinor(b, 3, 2, x, y);
    forall i, j | 0 <= i < 2 && 0 <= j < 2
      ensures sa[i][j] == sb[i][j]
    {
      if i < Kept(2, x) && j < Kept(2, y) {
        assert Skip(i, x) < 2 && Skip(j, y) < 2;
      }
    }
    SameEntries(sa, sb, 2);
  }

  /** The matrix of the 3x3 sub-matrix unit test. */
  function Test3x3(): (m: Grid)
    ensures IsSquare(m, 3)
  {
    [[1.0, 5.0, 0.0], [-3.0, 2.0, 7.0], [0.0, 6.0, -3.0]]
  }

  /**
   * On the unit test, the as-written scan leaves entry `(1, 1)` zero where the
   * test expects 6, and the minor is what the test expects.
   */
  lemma SubMatrix3x3MissesTest()
    ensures ScannedMinor(Test3x3(), 3, 2, 0, 2)[1][1] == 0.0
    ensures ScannedMinor(Test3x3(), 3, 2, 0, 2) != [[-3.0, 2.0], [0.0, 6.0]]
    ensures Minor(Test3x3(), 3, 0, 2) == [[-3.0, 2.0], [0.0, 6.0]]
  {
    var m := Test3x3();
    var s := ScannedMinor(m, 3, 2, 0, 2);
    assert s[1][1] == 0.0;
    var r := Minor(m, 3, 0, 2);
    assert r[0][0] == m[1][0] && r[0][1] == m[1][1];
    assert r[1][0] == m[2][0] && r[1][1] == m[2][1];
    assert r[0] == [-3.0, 2.0];
    assert r[1] == [0.0, 6.0];
  }

  /** `Matrix4x4::sub_matrix` as written: a zero 3x3 matrix whatever the arguments. */
  function SubMatrix4x4(m: Grid, x: nat, y: nat): Grid
    requires IsSquare(m, 4)
  {
    Zeros(3)
  }

  /** `Matrix4x4::sub_matrix` completed with the same scan as the 3x3 one, over all four rows and columns. */
  method SubMatrix4x4Corrected(m: Grid, x: nat, y: nat) returns (sub: Grid)
    requires IsSquare(m, 4) && x < 4 && y < 4
    ensures sub == Minor(m, 4, x, y)
  {
    sub := SubMatrixScan(m, 4, 4, x, y);
    ScanAllIsMinor(m, 4, x, y);
  }

  /** The matrix of the 4x4 sub-matrix unit test. */
  function Test4x4(): (m: Grid)
    ensures IsSquare(m, 4)
  {
    [[-6.0, 1.0, 1.0, 6.0], [-8.0, 5.0, 8.0, 6.0], [-1.0, 0.0, 8.0, 2.0], [-7.0, 1.0, -1.0, 1.0]]
  }

  /** On the unit test, the stub returns zero where the test expects -6, and the minor is what the test expects. */
  lemma SubMatrix4x4MissesTest()
    ensures SubMatrix4x4(Test4x4(), 2, 1)[0][0] == 0.0
    ensures SubMatrix4x4(Test4x4(), 2, 1) != [[-6.0, 1.0, 6.0], [-8.0, 8.0, 6.0], [-7.0, -1.0, 1.0]]
    ensures Minor(Test4x4(), 4, 2, 1) == [[-6.0, 1.0, 6.0], [-8.0, 8.0, 6.0], [-7.0, -1.0, 1.0]]
  {
    var z := SubMatrix4x4(Test4x4(), 2, 1);
    assert z[0][0] == 0.0;
    var m := Test4x4();
    var r := Minor(m, 4, 2, 1);
    assert r[0][0] == m[0][0] && r[0][1] == m[0][2] && r[0][2] == m[0][3];
    assert r[1][0] == m[1][0] && r[1][1] == m[1][2] && r[1][2] == m[1][3];
    assert r[2][0] == m[3][0] && r[2][1] == m[3][2] && r[2][2] == m[3][3];
    assert r[0] == [-6.0, 1.0, 6.0];
    assert r[1] == [-8.0, 8.0, 6.0];
    assert r[2] == [-7.0, -1.0, 1.0];
  }
}
