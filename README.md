# tracer-tong in Dafny

A model of the core of *tracer-tong*, a small Rust ray tracer, with proofs of what
that core promises. It has two groups.

- **Ray/scene geometry** (`src/vec.rs`, `src/ray.rs`, `src/scene.rs`):
  - the `Vec3` algebra;
  - rays and their parametric points;
  - the fixed camera;
  - the `Hit` record;
  - ray–sphere intersection by the quadratic formula;
  - the nearest-hit scan over a list of scene objects.
- **Tuple/matrix/canvas library** (`src/core/*`):
  - four-component tuples whose `w` tells points from vectors;
  - RGB colours;
  - approximate float equality;
  - 2x2, 3x3 and 4x4 matrices;
  - a pixel canvas.

Modules, one file each: `Numeric` (real-number facts and the square-root
parameter), `Wrappers`, `Vec`, `Rays`, `Scene`, `CoreUtil`, `CoreTuple`,
`CoreColor`, `CoreCanvas` and `CoreMatrix`.

How the Rust code is represented:

- Every `f32`/`f64` is a `real`. Arithmetic is exact, so there is no rounding, no NaN and no infinity.
- `sqrt` is a parameter `sqrt: real -> real`. Every use requires `IsSqrt(sqrt)`: `sqrt(x)` is the non-negative root of every `x >= 0`.
- `f64::EPSILON` is its exact value, 2^-52.
- Values the source copies or clones are datatypes: `Vec3`, `Ray`, `Camera`, `Tuple`, `Color`.
- A matrix of any size is a `CoreMatrix.Grid`, a `seq<seq<real>>`. `IsSquare(m, n)` says it is `n` by `n`. Each use fixes `n` at 2, 3 or 4.
- State the source updates in place is a class:
  - the `[f32; 3]` behind `&mut Vec3` is `Vec.Vec3Var` with an `array<real>`;
  - `Hit` is `Scene.Hit`;
  - `Canvas` is `CoreCanvas.Canvas`.
- `dyn SceneObject` is the datatype `Scene.Object`: `Sphere(center, radius)` or `Group(objects)`.
- Each `hit` is modelled twice:
  - a pure function (`SphereHit`, `ObjectHit`, `ListHit`) that says which intersection is reported;
  - a method over the mutable `Hit` (`HitSphere`, `HitObject`, `HitList`), proved to return and store exactly that.
  Lemmas then show that the reported hit is the nearest intersection in `[tMin, tMax]` and that "no hit" means there is none.
- The matrix operations that loop over entries are methods whose loops update local sequences entry by entry. Each is proved equal to a specification function:
  - `Transpose` to `Transposed`;
  - `Mul` to `Product`;
  - `MulTuple` to `Transform`;
  - `Equal` to `ApproxEqual`;
  - `SubMatrixScan` to `ScannedMinor` for any loop bound;
  - the as-written `SubMatrix3x3` to `ScannedMinor` with bound 2;
  - the corrected `SubMatrix3x3Corrected` and `SubMatrix4x4Corrected` to `Minor`.
- Plain constructors and accessors are datatype constructors and fields:
  - `Vec3::new`/`x`/`y`/`z`;
  - `Ray::new`/`origin`/`direction`;
  - `Sphere::new`.
  `Hit::normal` is `Scene.Hit.Normal`. `Matrix*::from` has no member of its own, because the grid of rows it wraps is already the matrix.

A sphere accepts a root in the closed interval `[t_min, t_max]` (`src/scene.rs:111`, `:113`).

## Model

| member | source | states |
|---|---|---|
| CoreUtil.FloatCmp | src/core/util.rs:3-5 | `float_cmp`: the absolute difference is below `EPSILON`; its properties are the five `FloatCmp*` lemmas below |
| CoreUtil.FloatCmpReflexive | src/core/util.rs:3-5 | every value is approximately equal to itself, since `EPSILON > 0` |
| CoreUtil.FloatCmpSymmetric | src/core/util.rs:3-5 | the comparison does not depend on the order of its operands |
| CoreUtil.FloatCmpFalseWhenFar | src/core/util.rs:3-5 | values at least `EPSILON` apart are unequal; the comparison is strict |
| CoreUtil.FloatCmpShift | src/core/util.rs:3-5 | adding the same amount to both sides does not change the outcome |
| CoreUtil.FloatCmpSeparates | src/core/util.rs:3-5 | no value is approximately equal to two values a whole unit apart |
| Vec.Empty | src/vec.rs:18-22 | the zero vector; `Vec.EmptyIsAdditiveIdentity` and `Vec.LenSquaredZero` state what it is for |
| Vec.LenSquared | src/vec.rs:41-44 | sum of the squared components; partnered by the `LenSquared*` lemmas and `Vec.LenSquaredIsSelfDot` |
| Vec.Dot | src/vec.rs:46-49 | sum of component products; partnered by `Vec.DotSymmetric`, `Vec.DotLinear` and `Vec.LenSquaredIsSelfDot` |
| Vec.Cross | src/vec.rs:51-60 | the cross product; partnered by `Vec.CrossAnticommutative` and `Vec.CrossOrthogonal` |
| Vec.Neg | src/vec.rs:90-98 | component-wise negation; partnered by `Vec.NegInvolution` and `Vec.LenSquaredNeg` |
| Vec.Add | src/vec.rs:100-118 | component-wise sum, for both `Add` impls; its inverse `Sub` is tied to it by `Vec.AddSubCancel` |
| Vec.Sub | src/vec.rs:128-136 | component-wise difference; undoes `Add` by `Vec.AddSubCancel` |
| Vec.Scale | src/vec.rs:146-164 | multiplication by a scalar, for both `Mul<f32>` impls; undone by `Div` (`Vec.ScaleDivCancel`) and scaling `len_squared` by `s * s` (`Vec.LenSquaredScale`) |
| Vec.Mul | src/vec.rs:174-182 | the component-wise product; `Vec.MulCommutative` states its symmetry |
| Vec.Div | src/vec.rs:192-200 | division by a non-zero scalar; undoes `Scale` by `Vec.ScaleDivCancel` |
| Vec.Index | src/vec.rs:76-82 | `v[i]` is component `i` for `i < 3` and a panic (`None`) past the end |
| Vec.Len | src/vec.rs:36-39 | the length is non-negative and squares to `len_squared` |
| Vec.LenZero | src/vec.rs:36-44 | the length is zero exactly for the zero vector |
| Vec.LenPositive | src/vec.rs:36-44 | every non-zero vector has a positive length |
| Vec.Unit | src/vec.rs:62-67 | `unit` of a non-zero vector has length one and, scaled back by the original length, gives the vector back |
| Vec.UnitHasLengthOne | src/vec.rs:62-67 | dividing by the length gives length one |
| Vec.DivBySquareRoot | src/vec.rs:41-44 | dividing by any root of `len_squared` gives squared length one |
| Vec.LenSquaredScale | src/vec.rs:41-44 | scaling by `s` multiplies `len_squared` by `s * s` |
| Vec.LenSquaredNonNegative | src/vec.rs:41-44 | `len_squared` is never negative |
| Vec.LenSquaredNonPositive | src/vec.rs:41-44 | a non-positive `len_squared` forces all components to zero |
| Vec.LenSquaredZero | src/vec.rs:41-44 | `len_squared` is zero exactly for `empty()` |
| Vec.LenSquaredPositive | src/vec.rs:41-44 | `len_squared` of any other vector is positive |
| Vec.LenSquaredIsSelfDot | src/vec.rs:41-49 | `len_squared(v) == dot(v, v)` |
| Vec.DotSymmetric | src/vec.rs:46-49 | `dot` is symmetric |
| Vec.DotLinear | src/vec.rs:46-49 | `dot` is additive and homogeneous in its second argument and changes sign with it |
| Vec.CrossAnticommutative | src/vec.rs:51-60 | `cross(a, b) == -cross(b, a)` |
| Vec.CrossOrthogonal | src/vec.rs:51-60 | the cross product is orthogonal to both operands |
| Vec.NegInvolution | src/vec.rs:90-98 | negating twice gives the vector back |
| Vec.LenSquaredNeg | src/vec.rs:90-98 | negation keeps `len_squared`, so `set_face_normal` (src/scene.rs:63) keeps the normal's length |
| Vec.AddSubCancel | src/vec.rs:100-136 | `(a + b) - b == a` and `(a - b) + b == a` |
| Vec.EmptyIsAdditiveIdentity | src/vec.rs:18-22 | `empty()` has length zero and is the identity of `+` and `-` |
| Vec.MulCommutative | src/vec.rs:174-182 | the component-wise product is commutative |
| Vec.ScaleDivCancel | src/vec.rs:146-200 | dividing by a non-zero scalar undoes multiplying by it, and conversely |
| Vec.Vec3Var.constructor | src/vec.rs:12-16 | the new buffer holds exactly the three given components |
| Vec.Vec3Var.SetIndex | src/vec.rs:84-88 | `v[i] = value` writes component `i` only and panics exactly when `i >= 3` |
| Vec.Vec3Var.AddAssignAsWritten | src/vec.rs:120-126 | as written, `+=` always panics, after adding `rhs.x` to x and `rhs.z` to y |
| Vec.Vec3Var.SubAssignAsWritten | src/vec.rs:138-144 | as written, `-=` always panics, after subtracting `rhs.x` from x and `rhs.z` from y |
| Vec.Vec3Var.AddAssign | src/vec.rs:120-126 | the corrected `+=` leaves exactly `old + rhs` in the buffer |
| Vec.Vec3Var.SubAssign | src/vec.rs:138-144 | the corrected `-=` leaves exactly `old - rhs` in the buffer |
| Vec.Vec3Var.ScaleAssign | src/vec.rs:166-172 | `*= s` leaves exactly what `Mul<f32>` returns |
| Vec.Vec3Var.MulAssign | src/vec.rs:184-190 | `*= rhs` leaves exactly the component-wise product |
| Vec.Vec3Var.DivAssign | src/vec.rs:202-208 | `/= s` leaves exactly what `Div<f32>` returns |
| Rays.At | src/ray.rs:24-26 | the point `origin + direction * t`; `Rays.AtIsOffset` and `Rays.AtDifference` state where it lies |
| Rays.AtIsOffset | src/ray.rs:24-26 | `at(t) - origin == direction * t`, `at(0) == origin` and `at(1) == origin + direction` |
| Rays.AtDifference | src/ray.rs:24-26 | `at(t1) - at(t2) == direction * (t1 - t2)` |
| Scene.CameraFor | src/scene.rs:18-35 | the camera's construction yields origin zero, the given viewport spans and the lower left corner at `(-w/2, -h/2, -focal)` |
| Scene.NewCamera | src/scene.rs:18-35 | `Camera::new` gives origin (0,0,0), lower left corner (-16/9,-1,-1), horizontal (32/9,0,0) and vertical (0,2,0) |
| Scene.GetRay | src/scene.rs:37-42 | the ray starts at the camera origin and reaches `horizontal*u + vertical*v + lower_left_corner` at `t = 1` |
| Scene.CameraRayDirection | src/scene.rs:18-42 | the ray for `(u, v)` points at `((u - 1/2) w, (v - 1/2) h, -focal)`, so it is never zero when the focal length is non-zero |
| Scene.DefaultHit | src/scene.rs:68-77 | the default record is back-facing, at the origin, with zero normal and `t = 0` |
| Scene.FaceNormal | src/scene.rs:58-65 | front face exactly when `dot(direction, outward) < 0`; the normal is `outward` or `-outward`, keeps its length and never points along the ray |
| Scene.Hit.Normal | src/scene.rs:54-56 | the accessor reads the stored normal, the one `Scene.Hit.SetFaceNormal` writes |
| Scene.Hit.Default | src/scene.rs:68-77 | `Hit::default()` holds the default record |
| Scene.Hit.SetFaceNormal | src/scene.rs:58-65 | writes front face and normal as `FaceNormal` chooses; point and `t` are unchanged |
| Scene.Hit.CopyFrom | src/scene.rs:138 | `*hit = temp_hit.clone()` copies all four fields |
| Scene.SurfaceQuadratic | src/scene.rs:95-99 | the squared distance from the centre minus `radius^2` at `at(t)` is `a t^2 + 2 b t + c` with the source's `a`, `b`, `c` |
| Scene.OnSurfaceIffRoot | src/scene.rs:95-99 | the ray meets the sphere at `t` exactly when `t` is a root of that quadratic |
| Scene.SphereMissed | src/scene.rs:101-105 | with a negative discriminant the ray meets the sphere at no `t` |
| Scene.SphereRoots | src/scene.rs:107-112 | otherwise the ray meets the sphere exactly at `(-b - sqrt)/a <= (-b + sqrt)/a` |
| Scene.PickRoot | src/scene.rs:109-116 | the smaller root is taken when it is in `[tMin, tMax]`, else the larger one when it is; the answer is in range, and there is none exactly when neither root is |
| Scene.SphereHitsAtRoots | src/scene.rs:101-116 | with a non-negative discriminant, the two roots are exactly where the ray meets the sphere |
| Scene.SphereRootNearest | src/scene.rs:101-116 | the chosen root is the nearest intersection in `[tMin, tMax]`; none is chosen only when no intersection lies there |
| Scene.SphereRoot | src/scene.rs:101-116 | the root `Sphere::hit` settles on; `Scene.SphereRootNearest` proves it is the nearest intersection in range |
| Scene.SphereRecord | src/scene.rs:118-122 | a hit at `t` records `t` and the point `at(t)` |
| Scene.SphereHit | src/scene.rs:94-125 | a reported hit lies in `[tMin, tMax]` and its point is `at(t)`; `Scene.SphereHitReports` proves it is the nearest intersection |
| Scene.SphereHitReports | src/scene.rs:94-125 | a sphere reports the nearest intersection in `[tMin, tMax]`, with its point, and no hit only when the ray misses it there |
| Scene.SphereHitFacesRay | src/scene.rs:118-122 | the recorded normal is the unit surface normal at the hit point, turned against the ray |
| Scene.OnGroupSplit | src/scene.rs:128-143 | a point is on a list exactly when it is on its prefix or on its last object |
| Scene.NormalGroupExtend | src/scene.rs:128-143 | a normal of the prefix or the last object is a normal of the list |
| Scene.ObjectHit | src/scene.rs:6-8 | every object's hit lies in `[tMin, tMax]` at `at(t)`, by induction over nested lists; `Scene.ObjectHitReports` proves it is the nearest |
| Scene.ListHit | src/scene.rs:128-143 | the list's hit lies in `[tMin, tMax]` at `at(t)`, because every later object is searched only up to `closest_so_far`; `Scene.ListHitReports` proves it is the nearest |
| Scene.ObjectHitReports | src/scene.rs:128-143 | every object, nested lists included, reports its nearest intersection in range, or none when there is none, with a unit normal against the ray |
| Scene.ListHitReports | src/scene.rs:128-143 | the shrinking-bound scan over a list yields the nearest intersection across all objects, or none when no object is hit |
| Scene.HitSphere | src/scene.rs:94-125 | `Sphere::hit` answers true exactly when `SphereHit` finds a hit, then stores that whole record; on false the record is untouched |
| Scene.HitObject | src/scene.rs:6-8 | dispatch on the object kind keeps the same contract for every object |
| Scene.HitList | src/scene.rs:128-143 | the loop answers true exactly when some object is hit and stores the nearest hit; on false the caller's record is untouched |
| CoreTuple.IsPoint | src/core/tuple.rs:15-17 | `w` approximately 1; `CoreTuple.Point` and `CoreTuple.PointOrVector` state its relation to `vector` |
| CoreTuple.IsVector | src/core/tuple.rs:23-25 | `w` approximately 0; `CoreTuple.Vector`, `CoreTuple.CrossProduct` and `CoreTuple.PointOrVector` use it |
| CoreTuple.Add | src/core/tuple.rs:67-78 | component-wise sum, `w` included; `CoreTuple.AddSubCancel` and `CoreTuple.PointVectorArithmetic` state its meaning |
| CoreTuple.Sub | src/core/tuple.rs:80-91 | component-wise difference; undoes `Add` by `CoreTuple.AddSubCancel` |
| CoreTuple.Neg | src/core/tuple.rs:93-104 | negation of all four components; `CoreTuple.NegProperties` relates it to `Sub` |
| CoreTuple.Scale | src/core/tuple.rs:106-117 | multiplication by a scalar; undone by `Div` (`CoreTuple.ScaleDivCancel`) |
| CoreTuple.Div | src/core/tuple.rs:119-130 | division by a non-zero scalar; undoes `Scale` by `CoreTuple.ScaleDivCancel` |
| CoreTuple.Eq | src/core/tuple.rs:58-65 | all four components `float_cmp`-equal; `CoreTuple.EqReflexiveSymmetric` states its properties |
| CoreTuple.SumOfSquares | src/core/tuple.rs:28-32 | the sum under `magnitude`'s root; partnered by the `SumOfSquares*` lemmas and `CoreTuple.DotProductSelf` |
| CoreTuple.DotProduct | src/core/tuple.rs:45-47 | the four-term sum of products; partnered by `CoreTuple.DotProductSymmetric` and `CoreTuple.DotProductSelf` |
| CoreTuple.Point | src/core/tuple.rs:11-13 | `point` has `w == 1`, is a point and is not a vector |
| CoreTuple.Vector | src/core/tuple.rs:19-21 | `vector` has `w == 0`, is a vector and is not a point |
| CoreTuple.PointOrVector | src/core/tuple.rs:15-25 | no tuple is both a point and a vector |
| CoreTuple.Magnitude | src/core/tuple.rs:28-32 | the magnitude is non-negative and squares to the sum of all four squared components |
| CoreTuple.MagnitudeZero | src/core/tuple.rs:28-32 | the magnitude is zero exactly for the zero tuple |
| CoreTuple.MagnitudePositive | src/core/tuple.rs:28-32 | every non-zero tuple has a positive magnitude |
| CoreTuple.Normalize | src/core/tuple.rs:34-43 | `normalize` of a non-zero tuple has magnitude one and, scaled by the original magnitude, gives the tuple back |
| CoreTuple.NormalizedHasMagnitudeOne | src/core/tuple.rs:34-43 | dividing by the magnitude gives magnitude one |
| CoreTuple.SumOfSquaresNonNegative | src/core/tuple.rs:29 | the sum under the root is never negative |
| CoreTuple.SumOfSquaresNonPositive | src/core/tuple.rs:29 | a non-positive sum forces all four components to zero |
| CoreTuple.SumOfSquaresScale | src/core/tuple.rs:106-117 | scaling by `s` multiplies the sum of squares by `s * s` |
| CoreTuple.CrossProduct | src/core/tuple.rs:49-55 | the cross product is always a vector (`w == 0`) |
| CoreTuple.CrossProductAnticommutative | src/core/tuple.rs:49-55 | `a x b == -(b x a)` |
| CoreTuple.CrossProductOrthogonal | src/core/tuple.rs:45-55 | the cross product is orthogonal to both operands |
| CoreTuple.DotProductSymmetric | src/core/tuple.rs:45-47 | `dot_product` is symmetric |
| CoreTuple.DotProductSelf | src/core/tuple.rs:28-47 | a tuple dotted with itself is its squared magnitude, `w` included |
| CoreTuple.PointVectorArithmetic | src/core/tuple.rs:67-91 | point + vector is a point, point - point a vector, point - vector a point, and vector ± vector a vector |
| CoreTuple.NegProperties | src/core/tuple.rs:93-104 | negation is an involution and equals the zero tuple minus the tuple |
| CoreTuple.AddSubCancel | src/core/tuple.rs:67-91 | `(a + b) - b == a` |
| CoreTuple.ScaleDivCancel | src/core/tuple.rs:106-130 | `(t * s) / s == t` and `(t / s) * s == t` for `s != 0`, on all four components |
| CoreTuple.EqReflexiveSymmetric | src/core/tuple.rs:58-65 | tuple equality is reflexive and symmetric |
| CoreColor.Black | src/core/canvas.rs:21 | the colour a new canvas starts with; the identity of `Add` by `CoreColor.AddSubCancel` |
| CoreColor.Add | src/core/color.rs:19-29 | channel-wise sum; `CoreColor.AddSubCancel` and `CoreColor.AddCommutative` state its meaning |
| CoreColor.Sub | src/core/color.rs:31-41 | channel-wise difference; undoes `Add` by `CoreColor.AddSubCancel` |
| CoreColor.Scale | src/core/color.rs:43-53 | scaling every channel; `CoreColor.ScaleIsMulByGrey` ties it to `Mul` |
| CoreColor.Mul | src/core/color.rs:55-65 | the Hadamard product; `CoreColor.MulCommutative` and `CoreColor.ScaleIsMulByGrey` state its meaning |
| CoreColor.Eq | src/core/color.rs:11-17 | all three channels `float_cmp`-equal; `CoreColor.EqProperties` states its properties |
| CoreColor.AddSubCancel | src/core/color.rs:19-41 | `(c1 + c2) - c2 == c1`, and adding black changes nothing |
| CoreColor.AddCommutative | src/core/color.rs:19-29 | colour addition is commutative |
| CoreColor.MulCommutative | src/core/color.rs:55-65 | the colour-by-colour product is commutative |
| CoreColor.ScaleIsMulByGrey | src/core/color.rs:43-65 | scaling by `s` is the product with the grey `(s, s, s)`, and scaling by zero gives black |
| CoreColor.EqProperties | src/core/color.rs:11-17 | colour equality is reflexive and symmetric and fails for channels a unit apart |
| CoreCanvas.Blank | src/core/canvas.rs:21 | the new buffer has `width` columns of `height` pixels |
| CoreCanvas.BlankIsBlack | src/core/canvas.rs:17-23 | every pixel of a new canvas is black |
| CoreCanvas.PaintedChangesOnePixel | src/core/canvas.rs:33-36 | a write keeps the buffer's shape, stores the colour at its pixel and leaves every other pixel as it was |
| CoreCanvas.Canvas.constructor | src/core/canvas.rs:17-23 | `new` stores the dimensions and an all-black buffer of that shape |
| CoreCanvas.Canvas.PixelAt | src/core/canvas.rs:25-31 | a pixel is returned exactly when both coordinates are in range, and it is `pixels[x][y]` |
| CoreCanvas.Canvas.SetPixel | src/core/canvas.rs:33-40 | an in-range write succeeds, changes only that pixel and reads back; an out-of-range one returns `OutOfBounds` and changes nothing; the shape is kept either way |
| CoreMatrix.Zeros | src/core/matrix.rs:131-135 | `Matrix*::new`: an `n` by `n` grid; every loop method starts from it |
| CoreMatrix.Identity | src/core/matrix.rs:143-150 | an `n` by `n` grid; `CoreMatrix.ProductIdentity`, `CoreMatrix.TransformIdentity` and `CoreMatrix.TransposeIdentity` state what it is for |
| CoreMatrix.CheckBounds | src/core/matrix.rs:46-52 | accepts exactly the points with both coordinates below N and otherwise returns `OutOfBounds` |
| CoreMatrix.At | src/core/matrix.rs:42-44 | returns an entry exactly for in-range points, and then `data[i][j]` |
| CoreMatrix.Determinant | src/core/matrix.rs:38-40 | `ad - cb`; `CoreMatrix.DeterminantExample` and `CoreMatrix.DeterminantOfTranspose` state its value and symmetry |
| CoreMatrix.DeterminantExample | src/core/matrix.rs:441-451 | the determinant of `[[1, 5], [-3, 2]]` is 17 |
| CoreMatrix.DeterminantOfTranspose | src/core/matrix.rs:38-40 | a 2x2 matrix and its transpose have the same determinant |
| CoreMatrix.Transposed | src/core/matrix.rs:153-163 | the transpose as a value, an `n` by `n` grid; the loop method `CoreMatrix.Transpose` is proved equal to it, and `CoreMatrix.TransposeInvolution` states it undoes itself |
| CoreMatrix.Transpose | src/core/matrix.rs:153-163 | the loop's result is exactly the transpose |
| CoreMatrix.TransposeInvolution | src/core/matrix.rs:153-163 | transposing twice gives the matrix back |
| CoreMatrix.TransposeIdentity | src/core/matrix.rs:432-439 | the identity is its own transpose |
| CoreMatrix.RowColumn | src/core/matrix.rs:208-215 | the running `total` after `k` terms; `CoreMatrix.RowColumnIdentityRight`/`Left` evaluate it against the identity |
| CoreMatrix.Product | src/core/matrix.rs:200-223 | the product as a value, an `n` by `n` grid; `CoreMatrix.Mul` is proved equal to it and `CoreMatrix.ProductIdentity` gives its neutral element |
| CoreMatrix.Mul | src/core/matrix.rs:200-223 | the triple loop with its running `total` yields exactly the matrix product |
| CoreMatrix.RowColumnIdentityRight | src/core/matrix.rs:211-213 | against the identity on the right, a row-column sum picks out entry `(x, y)` |
| CoreMatrix.RowColumnIdentityLeft | src/core/matrix.rs:211-213 | against the identity on the left, a row-column sum picks out entry `(x, y)` |
| CoreMatrix.ProductIdentity | src/core/matrix.rs:394-406 | `m * identity() == m` and `identity() * m == m` |
| CoreMatrix.Transform | src/core/matrix.rs:225-240 | `m * t` as a value; `CoreMatrix.MulTuple` is proved equal to it, and `CoreMatrix.TransformIdentity` and `CoreMatrix.TransformLinear` state its meaning |
| CoreMatrix.TupleFromComponents | src/core/matrix.rs:238 | building a tuple from its components and taking them apart are inverse |
| CoreMatrix.MulTuple | src/core/matrix.rs:225-240 | the row loop yields exactly `m * t` |
| CoreMatrix.TransformIdentity | src/core/matrix.rs:225-240 | `identity() * t == t` |
| CoreMatrix.TransformExample | src/core/matrix.rs:374-392 | the unit test's matrix sends `(1, 2, 3, 1)` to `(18, 24, 33, 1)` |
| CoreMatrix.TransformLinear | src/core/matrix.rs:225-240 | `m * (s + t) == m * s + m * t` |
| CoreMatrix.ApproxEqual | src/core/matrix.rs:186-198 | every entry pair `float_cmp`-equal; `CoreMatrix.Equal` is proved to answer it and `CoreMatrix.ApproxEqualProperties` states its properties |
| CoreMatrix.Equal | src/core/matrix.rs:186-198 | the early-exit loop answers true exactly when every pair of entries is `float_cmp`-equal |
| CoreMatrix.ApproxEqualProperties | src/core/matrix.rs:55-67 | matrix equality is reflexive and symmetric |
| CoreMatrix.Minor | src/core/matrix.rs:453-495 | the minor without row `x` and column `y`, the matrix the unit tests expect; `CoreMatrix.MinorOfTranspose` relates it to the transpose |
| CoreMatrix.ScannedMinor | src/core/matrix.rs:82-102 | what the packing loop leaves for a given loop bound, zeros beyond what it reaches; an `n - 1` square grid |
| CoreMatrix.ScanAllIsMinor | src/core/matrix.rs:82-102 | scanning every row and column leaves exactly the minor |
| CoreMatrix.MinorOfTranspose | src/core/matrix.rs:82-102 | the minor of the transpose is the transpose of the minor |
| CoreMatrix.SubMatrixScan | src/core/matrix.rs:82-102 | the `current_x`/`current_y` loop packs the kept entries of rows and columns below its bound into the top left and leaves the rest zero; no write leaves the result |
| CoreMatrix.SubMatrix3x3 | src/core/matrix.rs:82-102 | as written (loops to 2), the result is the scan with bound 2 |
| CoreMatrix.SubMatrix3x3IgnoresLastRowAndColumn | src/core/matrix.rs:86-89 | as written, the result depends only on the top-left 2x2 block |
| CoreMatrix.SubMatrix3x3MissesTest | src/core/matrix.rs:453-472 | as written, the unit test's input yields 0 where 6 is expected; the minor is what the test expects |
| CoreMatrix.SubMatrix3x3Corrected | src/core/matrix.rs:82-102 | with both loops running to 3, the result is the minor |
| CoreMatrix.SubMatrix4x4 | src/core/matrix.rs:165-171 | as written, the untouched `Matrix3x3::new()`; `CoreMatrix.SubMatrix4x4MissesTest` shows it fails the unit test |
| CoreMatrix.SubMatrix4x4MissesTest | src/core/matrix.rs:165-171 | the stub returns 0 where the unit test (474-495) expects -6; the minor is what the test expects |
| CoreMatrix.SubMatrix4x4Corrected | src/core/matrix.rs:165-171 | completed with the same scan over all four rows and columns, the result is the minor |

## Left out

- `src/main.rs`, `write_color` in `src/color.rs` and the random numbers of `src/util.rs` are output and randomness. They are not part of this model.
- The recursive shading function and per-pixel sampling do not appear in the modelled files. They are not part of this model.
- `Display for Vec3` (src/vec.rs:70-74) is text formatting and is not modelled.
- Floating point is not modelled: `f32`/`f64` rounding, NaN and infinity. Arithmetic is exact over the reals. Division by zero, which yields non-finite values in Rust, is excluded by a precondition.
- Vec.Div: requires a non-zero divisor; Rust yields infinities or NaN.
- CoreTuple.Div: requires a non-zero divisor, for the same reason.
- Vec.Vec3Var.DivAssign: requires a non-zero divisor, for the same reason.
- Vec.Unit: requires a non-zero vector; Rust divides by a zero length and yields NaN.
- CoreTuple.Normalize: requires a non-zero tuple, for the same reason.
- Scene.SphereHit: requires a non-zero ray direction and a non-zero radius. With `a == 0` the source divides by zero, and a zero radius makes the outward normal non-finite. Scene.CameraRayDirection proves that every camera ray has a non-zero direction.
- Scene.HitSphere: the same requirement as Scene.SphereHit.
- Scene.SphereHitReports: the same requirement as Scene.SphereHit.
- Scene.SphereHitFacesRay: the same requirement as Scene.SphereHit.
- Scene.HitObject: requires a non-zero ray direction and a non-zero radius for every sphere of the object (`WellFormed`).
- Scene.HitList: the same requirement as Scene.HitObject, for every object of the list.
- Scene.ObjectHitReports: the same requirement as Scene.HitObject.
- Scene.ListHitReports: the same requirement as Scene.HitList.
- Vec.Len: the square root is a parameter that satisfies `IsSqrt`, not a computed function; the same holds for Vec.Unit, CoreTuple.Magnitude, CoreTuple.Normalize and the sphere routines.
- `Scene.Object` is a closed datatype, so other implementations of the `SceneObject` trait are not covered.
- `CoreMatrix` models the three Rust matrix types as one sequence type with the size as a parameter. The Rust types fix the size: `transpose`, `identity` and the products exist only for N = 4, and `determinant` only for N = 2.
- CoreMatrix.MulTuple: `Mul<Tuple>` calls `rhs.x()`…`rhs.w()` and `Tuple::from`, which src/core/tuple.rs does not define, so the Rust code does not compile. The model reads the fields and supplies `CoreMatrix.TupleFrom`.
- `src/scene.rs` does not compile as written either.
  - `Vec3` derives no `Clone`, yet `origin.clone()` (src/scene.rs:27, :39) and the derived `Clone` of `Hit` behind `temp_hit.clone()` (src/scene.rs:45, :138) need it.
  - `ray.origin() - &self.center` (src/scene.rs:95) and `... - &self.origin` (src/scene.rs:40) subtract through references, and src/vec.rs has no such `Sub` impl.
  - The model copies values and subtracts them with `Vec.Sub`.
- CoreMatrix.SubMatrix4x4: the stub has no contract of its own, because it returns the zero 3x3 matrix whatever its arguments. `CoreMatrix.SubMatrix4x4MissesTest` states what that means against the unit test.
- The local arrays the matrix loops fill are modelled as local sequence values. They are never shared, so no aliasing is lost.
- Each `Canvas` is a separate object, and its buffer is a sequence value replaced by `set_pixel`.

## Findings

| source | as written | input that shows it | evidently intended | confidence | as-written member | corrected member |
|---|---|---|---|---|---|---|
| src/vec.rs:120-126 | `e[1] += rhs[2]; e[2] += rhs[3]` | any `v += w`: `rhs[3]` is past the end of `[f32; 3]` and panics, after y has already taken `w.z` | `e[i] += rhs[i]` for `i` = 0, 1, 2 | high, not executed | `Vec.Vec3Var.AddAssignAsWritten` | `Vec.Vec3Var.AddAssign` |
| src/vec.rs:138-144 | `e[1] -= rhs[2]; e[2] -= rhs[3]` | any `v -= w`: the same panic, after y has already lost `w.z` | `e[i] -= rhs[i]` for `i` = 0, 1, 2 | high, not executed | `Vec.Vec3Var.SubAssignAsWritten` | `Vec.Vec3Var.SubAssign` |
| src/core/matrix.rs:86-89 | `for w in 0..2` and `for h in 0..2` in `Matrix3x3::sub_matrix` | `[[1,5,0],[-3,2,7],[0,6,-3]].sub_matrix(0, 2)` gives `[[-3,2],[0,0]]`; the test at 453-472 expects `[[-3,2],[0,6]]` | loops over `0..3`, giving the minor | high, not executed | `CoreMatrix.SubMatrix3x3MissesTest` | `CoreMatrix.SubMatrix3x3Corrected` |
| src/core/matrix.rs:165-171 | `Matrix4x4::sub_matrix` returns `Matrix3x3::new()` untouched | the test at 474-495: `sub_matrix(2, 1)` gives zeros where `[[-6,1,6],[-8,8,6],[-7,-1,1]]` is expected | the same scan as the 3x3 case over `0..4`, giving the minor | high, not executed | `CoreMatrix.SubMatrix4x4MissesTest` | `CoreMatrix.SubMatrix4x4Corrected` |
