# Fixed-size linear algebra: Matrix4f, Vec3d and Matrix2d

This project models the linear-algebra kernel of the `com.boc_dev.maths` library in Dafny and proves properties of the model. The kernel has three types:

- **`Matrix4f`**: a 4x4 float matrix stored as 16 flat elements.
- **`Vec3d`**: a 3D double vector.
- **`Matrix2d`**: a 2x2 double matrix stored as 4 flat elements.

All three are immutable values, and every operation builds a new matrix or vector. Scalars are exact `real` numbers, so the algebra is exact. Both matrix types read entry `get(x, y)` from element `y * SIZE + x`. So x is the column and y the row of the row-major layout that the factories write out.

Each source file is one module:

- **`vec3d.dfy`, module `Vec3d`**:
  - vector arithmetic, dot and cross products, and the skew matrix `star`
  - the outer product, written as a loop over a fresh array
  - `get(i)` with its out-of-bounds error
  - min/max and the restricting constructor
  - reflection in a plane, and `lerp`
- **`matrix4f.dfy`, module `Matrix4f`** (imports `Vec3d`, whose triple also stands for `Vec3f`):
  - the factories; `add`, `multiply`, `transpose` and the sum itself, with their loops
  - point and direction transforms, and the `Transform` / `InverseTransformation` compositions
  - `invert` for affine matrices, `scale`, `trace`
  - the four-way branch of `toQuaternion`, and the orthographic projection
- **`matrix2d.dfy`, module `Matrix2d`**:
  - `add`, `add(Vec2d)` and `scale`
  - the product and element-wise product, with their loops
  - matrix times vector, and the determinant

Where the source fills an array in a `for` loop, the model is a `method` with the same loop. Each such method is proved equal to a specification function, for example `Matrix4f.Multiply` against `Matrix4f.Product`. The properties are then proved about that function.

Two places where the code does not do what its own comments and neighbouring code say:

- `Matrix2d.add(Vec2d)` is documented (Matrix2d.java:54-55) as adding the vector to the diagonal elements, but its last element is `get(1, 0) + y` rather than `get(1, 1) + y`.
- `Matrix4f.toQuaternion` cites the euclideanspace matrix-to-quaternion conversion (Matrix4f.java:233). The three non-trace branches (Matrix4f.java:256-271) form each non-pivot component by dividing a whole sum or difference of two entries by S. In the trace branch, however, Java precedence divides only the second term of each difference by `q04`.

Both are modelled as written, and are listed under Findings together with a corrected version.

The two matrix types also multiply in opposite orders. `multiply(Matrix2d)` writes element `i * 2 + j` as row i of `this` times column j of the argument, which is the row-major product a·b. `Matrix4f.multiply`, described next, reads as b·a.

`Matrix4f.multiply` computes, at column x and row y, the sum over k of `this.get(x, k) * other.get(k, y)`. Read in row-major order, `a.multiply(b)` is therefore the matrix product b·a. When a is affine, applying `a.multiply(b)` to a point applies a first and then b (`Matrix4f.ProductComposes`). This is the order that `Transform` (scale, then rotate, then translate) relies on.

## Model

Source paths are relative to the repository root.

| member | source | states |
|---|---|---|
| Vec3d.Restricted | src/main/java/com/boc_dev/maths/objects/vector/Vec3d.java:26-30 | each component of the restricted vector is at most the limit and at most the original, and equals one of the two |
| Vec3d.SubtractAddRoundTrip | src/main/java/com/boc_dev/maths/objects/vector/Vec3d.java:44-60 | `a.subtract(b).add(b) == a` and `a.add(b).subtract(b) == a` |
| Vec3d.AddGroupLaws | src/main/java/com/boc_dev/maths/objects/vector/Vec3d.java:44-131 | addition is commutative with ZERO as unit; `neg` is its inverse and equals scaling by -1; subtracting is adding the negation |
| Vec3d.ScaleLaws | src/main/java/com/boc_dev/maths/objects/vector/Vec3d.java:62-67 | scaling distributes over addition and is the identity for 1 |
| Vec3d.ScaleComposes | src/main/java/com/boc_dev/maths/objects/vector/Vec3d.java:62-67 | scaling by s and then by t is scaling by s·t |
| Vec3d.DotLaws | src/main/java/com/boc_dev/maths/objects/vector/Vec3d.java:69-76 | the dot product is symmetric, additive and homogeneous in its first argument |
| Vec3d.Length2IsSelfDot | src/main/java/com/boc_dev/maths/objects/vector/Vec3d.java:69-83 | `length2() == dot(this)`, it is never negative, and it is 0 for ZERO |
| Vec3d.Length2PositiveOffZero | src/main/java/com/boc_dev/maths/objects/vector/Vec3d.java:78-83 | every vector other than ZERO has a strictly positive `length2` |
| Vec3d.Outer | src/main/java/com/boc_dev/maths/objects/vector/Vec3d.java:100-113 | the outer product has `a[i] * b[j]` at row i, column j of the upper 3x3, and 0 in the other seven elements |
| Vec3d.OuterProduct | src/main/java/com/boc_dev/maths/objects/vector/Vec3d.java:100-113 | the nested loops over a zeroed `double[16]` produce exactly `Outer(a, b)` |
| Vec3d.CrossOfAxes | src/main/java/com/boc_dev/maths/objects/vector/Vec3d.java:10-12 | X × Y = Z, Y × Z = X and Z × X = Y for the axis constants |
| Vec3d.CrossAntiCommutes | src/main/java/com/boc_dev/maths/objects/vector/Vec3d.java:115-131 | `a.cross(b) == b.cross(a).neg()`, and a × a is ZERO |
| Vec3d.CrossIsOrthogonal | src/main/java/com/boc_dev/maths/objects/vector/Vec3d.java:115-123 | a × b has zero dot product with both a and b |
| Vec3d.Star | src/main/java/com/boc_dev/maths/objects/vector/Vec3d.java:134-141 | the upper 3x3 of `star()` is skew-symmetric with a zero diagonal; row 3 and column 3 are zero apart from element 15, which is 1 |
| Vec3d.StarIsCrossOperator | src/main/java/com/boc_dev/maths/objects/vector/Vec3d.java:134-141 | the upper 3x3 of `v.star()` applied to w is `v.cross(w)` |
| Vec3d.MultiplyLaws | src/main/java/com/boc_dev/maths/objects/vector/Vec3d.java:172-180 | the element-wise product is commutative, has ONE as unit and ZERO as zero |
| Vec3d.Get | src/main/java/com/boc_dev/maths/objects/vector/Vec3d.java:183-194 | `get(i)` succeeds exactly for i in 0..2 with the i-th of (x, y, z), and reports index i as out of bounds otherwise |
| Vec3d.Min | src/main/java/com/boc_dev/maths/objects/vector/Vec3d.java:205-211 | each component is at most both inputs' and equals one of them |
| Vec3d.Max | src/main/java/com/boc_dev/maths/objects/vector/Vec3d.java:213-219 | each component is at least both inputs' and equals one of them |
| Vec3d.MinMaxCommute | src/main/java/com/boc_dev/maths/objects/vector/Vec3d.java:205-219 | Min and Max are commutative, and Min lies below Max in every component |
| Vec3d.ReflectionFormula | src/main/java/com/boc_dev/maths/objects/vector/Vec3d.java:225-246 | the reflection of p is p - 2 ((p - n s)·n) n |
| Vec3d.ReflectionFixesPlanePoints | src/main/java/com/boc_dev/maths/objects/vector/Vec3d.java:225-246 | for a unit normal, a point with p·n == s is returned unchanged |
| Vec3d.ReflectionNegatesNormalPart | src/main/java/com/boc_dev/maths/objects/vector/Vec3d.java:225-246 | for a unit normal, the offset from n s keeps its tangential part and has its normal component negated |
| Vec3d.ReflectionIsInvolution | src/main/java/com/boc_dev/maths/objects/vector/Vec3d.java:225-246 | for a unit normal, reflecting twice gives back the point |
| Vec3d.LerpEndpoints | src/main/java/com/boc_dev/maths/objects/vector/Vec3d.java:248-250 | `lerp(b, 0) == this` and `lerp(b, 1) == b` |
| Vec3d.LerpAlongDifference | src/main/java/com/boc_dev/maths/objects/vector/Vec3d.java:248-250 | `lerp(b, t)` is `this + t (b - this)` for every t, with no clamping |
| Vec3d.Add | src/main/java/com/boc_dev/maths/objects/vector/Vec3d.java:44-51 | component-wise sum, with no contract of its own; `SubtractAddRoundTrip`, `AddGroupLaws` and `ScaleLaws` state its laws |
| Vec3d.Subtract | src/main/java/com/boc_dev/maths/objects/vector/Vec3d.java:53-60 | component-wise difference, with no contract of its own; `SubtractAddRoundTrip` makes it the inverse of `Add`, and `AddGroupLaws` makes it adding the negation |
| Vec3d.Scale | src/main/java/com/boc_dev/maths/objects/vector/Vec3d.java:62-67 | multiplies each component by s, with no contract of its own; `ScaleLaws` and `ScaleComposes` state its laws |
| Vec3d.Dot | src/main/java/com/boc_dev/maths/objects/vector/Vec3d.java:69-76 | the sum of the three component products, with no contract of its own; `DotLaws` states its symmetry and linearity |
| Vec3d.Length2 | src/main/java/com/boc_dev/maths/objects/vector/Vec3d.java:78-83 | the sum of the squared components, with no contract of its own; `Length2IsSelfDot` and `Length2PositiveOffZero` state its relation to `dot` and when it is zero |
| Vec3d.Neg | src/main/java/com/boc_dev/maths/objects/vector/Vec3d.java:125-131 | negates each component, with no contract of its own; `AddGroupLaws` makes it the additive inverse and scaling by -1 |
| Vec3d.Cross | src/main/java/com/boc_dev/maths/objects/vector/Vec3d.java:115-123 | the cross product, with no contract of its own; `CrossOfAxes`, `CrossAntiCommutes`, `CrossIsOrthogonal` and `StarIsCrossOperator` state its properties |
| Vec3d.Multiply | src/main/java/com/boc_dev/maths/objects/vector/Vec3d.java:172-180 | component-wise product, with no contract of its own; `MultiplyLaws` states its laws |
| Vec3d.ReflectionOverPlane | src/main/java/com/boc_dev/maths/objects/vector/Vec3d.java:225-246 | the five steps of `reflectionOverPlane`, with no contract of its own; `ReflectionFormula`, `ReflectionFixesPlanePoints`, `ReflectionNegatesNormalPart` and `ReflectionIsInvolution` state what it computes |
| Vec3d.Lerp | src/main/java/com/boc_dev/maths/objects/vector/Vec3d.java:248-250 | `this.scale(1 - t).add(b.scale(t))`, with no contract of its own; `LerpEndpoints` and `LerpAlongDifference` state what it computes |
| Matrix4f.Sum | src/main/java/com/boc_dev/maths/objects/matrix/Matrix4f.java:67-76 | element k of the sum is the sum of the two elements k |
| Matrix4f.Add | src/main/java/com/boc_dev/maths/objects/matrix/Matrix4f.java:67-76 | the loop over the 16 elements produces exactly `Sum(a, b)` |
| Matrix4f.SumLaws | src/main/java/com/boc_dev/maths/objects/matrix/Matrix4f.java:67-76 | the matrix sum is commutative and associative |
| Matrix4f.AddVec | src/main/java/com/boc_dev/maths/objects/matrix/Matrix4f.java:78-85 | `add(Vec3f)` adds x, y, z to elements 0, 5, 10 and leaves the other 13 unchanged |
| Matrix4f.AddVecIsDiagonalSum | src/main/java/com/boc_dev/maths/objects/matrix/Matrix4f.java:78-85 | adding a vector is adding the diagonal matrix diag(x, y, z, 0) |
| Matrix4f.Product | src/main/java/com/boc_dev/maths/objects/matrix/Matrix4f.java:87-103 | `get(x, y)` of `a.multiply(b)` is the sum over k of `a.get(x, k) * b.get(k, y)` |
| Matrix4f.Multiply | src/main/java/com/boc_dev/maths/objects/matrix/Matrix4f.java:87-103 | the nested loops writing `newElements[j*4+i]` produce exactly `Product(a, b)` |
| Matrix4f.IdentityIsUnit | src/main/java/com/boc_dev/maths/objects/matrix/Matrix4f.java:13-18 | Identity is a left and a right unit of `multiply(Matrix4f)` |
| Matrix4f.GetCoversElements | src/main/java/com/boc_dev/maths/objects/matrix/Matrix4f.java:118-120 | element k is `get(k % 4, k / 4)`, so `get` reaches all 16 elements |
| Matrix4f.GetDeterminesMatrix | src/main/java/com/boc_dev/maths/objects/matrix/Matrix4f.java:118-120 | two matrices that agree on every `get(x, y)` are equal |
| Matrix4f.GetTranslation | src/main/java/com/boc_dev/maths/objects/matrix/Matrix4f.java:365-371 | `getTranslation()` is elements 3, 7 and 11, column 3 of rows 0 to 2; `OriginGoesToTranslation` makes it the image of the origin and `TranslationRoundTrips` gives t for `Translation(t)` |
| Matrix4f.MultiplyVecIsRotatePlusTranslation | src/main/java/com/boc_dev/maths/objects/matrix/Matrix4f.java:105-111 | transforming a point is rotating it and adding the translation column; rotating takes the dot product of the X/Y/Z row vectors with the direction |
| Matrix4f.ProductComposes | src/main/java/com/boc_dev/maths/objects/matrix/Matrix4f.java:87-111 | for an affine a, multiplying a point by `a.multiply(b)` multiplies it by a, then by b |
| Matrix4f.ProductAffine | src/main/java/com/boc_dev/maths/objects/matrix/Matrix4f.java:87-103 | the product of two affine matrices is affine |
| Matrix4f.TranslationRoundTrips | src/main/java/com/boc_dev/maths/objects/matrix/Matrix4f.java:20-26 | `Translation(t)` moves a point by t, leaves directions unchanged, has translation t, and is affine |
| Matrix4f.ScaleFacts | src/main/java/com/boc_dev/maths/objects/matrix/Matrix4f.java:49-56 | `Scale(1,1,1)` is Identity, `Scale(s)` multiplies points element-wise by s, and it has no translation part |
| Matrix4f.IdentityFacts | src/main/java/com/boc_dev/maths/objects/matrix/Matrix4f.java:13-18 | Identity fixes every point, has orthonormal axes, and its row vectors are X, Y, Z |
| Matrix4f.InverseScaleUndoesScale | src/main/java/com/boc_dev/maths/objects/matrix/Matrix4f.java:58-65 | for nonzero factors, `InverseScale(s)` undoes `Scale(s)` on every point |
| Matrix4f.TransformMapsPoint | src/main/java/com/boc_dev/maths/objects/matrix/Matrix4f.java:147-151 | for an affine rot, `Transform(pos, rot, scale)` scales the point, applies rot and then adds pos |
| Matrix4f.TransformOfOrigin | src/main/java/com/boc_dev/maths/objects/matrix/Matrix4f.java:147-151 | for a rot without translation part, `Transform(pos, rot, scale)` sends the origin to pos |
| Matrix4f.OriginGoesToTranslation | src/main/java/com/boc_dev/maths/objects/matrix/Matrix4f.java:105-111 | any matrix sends the origin to its translation column |
| Matrix4f.InverseTransformationMapsPoint | src/main/java/com/boc_dev/maths/objects/matrix/Matrix4f.java:153-158 | for a rot without translation part and a nonzero scale, `InverseTransformation(pos, rot, scale)` subtracts pos, rotates by the transpose of rot, then divides by the scale |
| Matrix4f.InverseTransformationUndoesTransform | src/main/java/com/boc_dev/maths/objects/matrix/Matrix4f.java:147-158 | for a rotation with orthonormal axes and no translation, and a nonzero scale, `InverseTransformation` undoes `Transform` on every point |
| Matrix4f.LinearMultiplyIsRotate | src/main/java/com/boc_dev/maths/objects/matrix/Matrix4f.java:105-111 | without a translation column, transforming a point equals rotating it |
| Matrix4f.RotateTransposeUndoes | src/main/java/com/boc_dev/maths/objects/matrix/Matrix4f.java:210-216 | for orthonormal axes, rotating with the transpose undoes `rotate` |
| Matrix4f.RotateIsLinear | src/main/java/com/boc_dev/maths/objects/matrix/Matrix4f.java:210-216 | `rotate` distributes over vector addition |
| Matrix4f.Transposed | src/main/java/com/boc_dev/maths/objects/matrix/Matrix4f.java:291-302 | `get(x, y)` of the transpose is `get(y, x)` of the input, for all x and y |
| Matrix4f.Transpose | src/main/java/com/boc_dev/maths/objects/matrix/Matrix4f.java:291-302 | the nested loops writing `newElements[j*4+i]` produce exactly `Transposed(m)` |
| Matrix4f.TransposeIsInvolution | src/main/java/com/boc_dev/maths/objects/matrix/Matrix4f.java:291-302 | transposing twice gives back the matrix |
| Matrix4f.TransposedLinear | src/main/java/com/boc_dev/maths/objects/matrix/Matrix4f.java:291-302 | transposing a matrix with no translation part keeps bottom row [0,0,0,1] and column 3 zero |
| Matrix4f.InvertShape | src/main/java/com/boc_dev/maths/objects/matrix/Matrix4f.java:328-355 | the inverse has bottom row [0,0,0,1], the transposed upper 3x3, and translation −(Rᵀ t) |
| Matrix4f.InvertTranslation | src/main/java/com/boc_dev/maths/objects/matrix/Matrix4f.java:328-355 | `Translation(t).invert() == Translation(-t)` |
| Matrix4f.InvertIdentity | src/main/java/com/boc_dev/maths/objects/matrix/Matrix4f.java:328-355 | `Identity.invert() == Identity` |
| Matrix4f.InvertUndoes | src/main/java/com/boc_dev/maths/objects/matrix/Matrix4f.java:327-355 | for an upper 3x3 with orthonormal axes, `invert()` undoes the matrix on every point |
| Matrix4f.ScaleBy | src/main/java/com/boc_dev/maths/objects/matrix/Matrix4f.java:385-392 | `scale(s)` multiplies every one of the 16 elements by s |
| Matrix4f.ScaleByOne | src/main/java/com/boc_dev/maths/objects/matrix/Matrix4f.java:385-392 | `scale(1)` gives back the matrix |
| Matrix4f.ScaleByScalesRotation | src/main/java/com/boc_dev/maths/objects/matrix/Matrix4f.java:385-392 | rotating by `m.scale(s)` is rotating by m and scaling the result by s |
| Matrix4f.TraceLaws | src/main/java/com/boc_dev/maths/objects/matrix/Matrix4f.java:229-231 | trace is e0 + e5 + e10; it is unchanged by transpose and additive over sums; `add(Vec3f)` raises it by x + y + z; Identity has trace 3 |
| Matrix4f.BranchPicksLargestDiagonal | src/main/java/com/boc_dev/maths/objects/matrix/Matrix4f.java:241-272 | the trace branch is taken exactly when trace > 0; otherwise the branch taken is that of a largest diagonal entry, with the source's tie-break order |
| Matrix4f.SqrtArgumentAtLeastOne | src/main/java/com/boc_dev/maths/objects/matrix/Matrix4f.java:246-267 | the number each branch takes the square root of is at least 1, so no branch divides by zero |
| Matrix4f.ToQuaternionCorrected | src/main/java/com/boc_dev/maths/objects/matrix/Matrix4f.java:243-272 | the pivot component of the chosen branch is root/2, and four times the pivot times each other component is the matching sum or difference of off-diagonal entries |
| Matrix4f.ToQuaternionDiffersOnlyInTraceBranch | src/main/java/com/boc_dev/maths/objects/matrix/Matrix4f.java:243-272 | the as-written and corrected conversions share q0 and agree completely outside the trace branch |
| Matrix4f.ToQuaternionTraceBranchCounterexample | src/main/java/com/boc_dev/maths/objects/matrix/Matrix4f.java:243-252 | on a rotation about X with cos −0.28 and sin 0.96, the trace branch as written gives q1 = −1.36, which breaks 4·q0·q1 = get(2,1) − get(1,2); the corrected branch gives −0.8 |
| Matrix4f.OrthographicMapsViewBox | src/main/java/com/boc_dev/maths/objects/matrix/Matrix4f.java:181-195 | the orthographic projection is affine and maps the corners (width, −height, −near) and (−width, height, −far) of the view box onto (1, 1, −1) and (−1, −1, 1) |
| Matrix4f.Get | src/main/java/com/boc_dev/maths/objects/matrix/Matrix4f.java:118-120 | `get(x, y)` reads element y*4 + x; `GetCoversElements` and `GetDeterminesMatrix` state that it reaches every element and determines the matrix |
| Matrix4f.Translation | src/main/java/com/boc_dev/maths/objects/matrix/Matrix4f.java:20-26 | the translation factory, with no contract of its own; `TranslationRoundTrips` and `InvertTranslation` state what it does |
| Matrix4f.Scale | src/main/java/com/boc_dev/maths/objects/matrix/Matrix4f.java:49-56 | the diagonal scale factory, with no contract of its own; `ScaleFacts` and `InverseScaleUndoesScale` state what it does |
| Matrix4f.InverseScale | src/main/java/com/boc_dev/maths/objects/matrix/Matrix4f.java:58-65 | the diagonal 1/s factory, with no contract of its own; `InverseScaleUndoesScale` makes it undo `Scale` |
| Matrix4f.MultiplyVec | src/main/java/com/boc_dev/maths/objects/matrix/Matrix4f.java:105-111 | `multiply(Vec3f)` on a point with implicit w = 1, with no contract of its own; `MultiplyVecIsRotatePlusTranslation`, `LinearMultiplyIsRotate` and `OriginGoesToTranslation` state what it computes |
| Matrix4f.Rotate | src/main/java/com/boc_dev/maths/objects/matrix/Matrix4f.java:210-216 | `rotate` applies the upper 3x3 only, with no contract of its own; `RotateIsLinear`, `RotateTransposeUndoes` and `MultiplyVecIsRotatePlusTranslation` state its properties |
| Matrix4f.XVec | src/main/java/com/boc_dev/maths/objects/matrix/Matrix4f.java:304-306 | `getXVec` is row 0 of the upper 3x3; `MultiplyVecIsRotatePlusTranslation` makes its dot product the first component of `rotate`, `IdentityFacts` gives X for Identity |
| Matrix4f.YVec | src/main/java/com/boc_dev/maths/objects/matrix/Matrix4f.java:308-310 | `getYVec` is row 1 of the upper 3x3; `MultiplyVecIsRotatePlusTranslation` makes its dot product the second component of `rotate`, `IdentityFacts` gives Y for Identity |
| Matrix4f.ZVec | src/main/java/com/boc_dev/maths/objects/matrix/Matrix4f.java:312-314 | `getZVec` is row 2 of the upper 3x3; `MultiplyVecIsRotatePlusTranslation` makes its dot product the third component of `rotate`, `IdentityFacts` gives Z for Identity |
| Matrix4f.GetTranslationX | src/main/java/com/boc_dev/maths/objects/matrix/Matrix4f.java:373-375 | `getTranslationX` is `get(3, 0)`, the x component of `GetTranslation` |
| Matrix4f.GetTranslationY | src/main/java/com/boc_dev/maths/objects/matrix/Matrix4f.java:377-379 | `getTranslationY` is `get(3, 1)`, the y component of `GetTranslation` |
| Matrix4f.GetTranslationZ | src/main/java/com/boc_dev/maths/objects/matrix/Matrix4f.java:381-383 | `getTranslationZ` is `get(3, 2)`, the z component of `GetTranslation` |
| Matrix4f.Transform | src/main/java/com/boc_dev/maths/objects/matrix/Matrix4f.java:147-151 | `Scale(scale).multiply(rot).multiply(Translation(pos))`, with no contract of its own; `TransformMapsPoint` and `TransformOfOrigin` state what it does to points |
| Matrix4f.InverseTransformation | src/main/java/com/boc_dev/maths/objects/matrix/Matrix4f.java:153-158 | `Translation(-pos).multiply(rot.transpose()).multiply(InverseScale(scale))`, with no contract of its own; `InverseTransformationMapsPoint` and `InverseTransformationUndoesTransform` state what it does |
| Matrix4f.OrthographicProjection | src/main/java/com/boc_dev/maths/objects/matrix/Matrix4f.java:181-195 | the orthographic projection matrix, with no contract of its own; `OrthographicMapsViewBox` states where it sends the view box |
| Matrix4f.Invert | src/main/java/com/boc_dev/maths/objects/matrix/Matrix4f.java:327-355 | `invert()` for affine matrices, with no contract of its own; `InvertShape`, `InvertTranslation`, `InvertIdentity` and `InvertUndoes` state what it computes |
| Matrix4f.Trace | src/main/java/com/boc_dev/maths/objects/matrix/Matrix4f.java:229-231 | `get(0,0) + get(1,1) + get(2,2)`, with no contract of its own; `TraceLaws` states its laws |
| Matrix4f.Branch | src/main/java/com/boc_dev/maths/objects/matrix/Matrix4f.java:241-271 | which of the four branches of `toQuaternion` is taken, with no contract of its own; `BranchPicksLargestDiagonal` states when each is taken |
| Matrix4f.ToQuaternion | src/main/java/com/boc_dev/maths/objects/matrix/Matrix4f.java:234-276 | `toQuaternion` as written, with the square root as the parameter `root`; `ToQuaternionDiffersOnlyInTraceBranch` and `ToQuaternionTraceBranchCounterexample` compare it with `ToQuaternionCorrected` (first Findings row) |
| Matrix2d.Sum | src/main/java/com/boc_dev/maths/objects/matrix/Matrix2d.java:45-52 | element k of `add(Matrix2d)` is the sum of the two elements k |
| Matrix2d.SumLaws | src/main/java/com/boc_dev/maths/objects/matrix/Matrix2d.java:19-52 | the sum is commutative and associative, with Empty as unit on both sides |
| Matrix2d.AddVec | src/main/java/com/boc_dev/maths/objects/matrix/Matrix2d.java:59-64 | `add(Vec2d)` as written yields [e0 + x, e1, e2, e1 + y] |
| Matrix2d.AddToDiagonal | src/main/java/com/boc_dev/maths/objects/matrix/Matrix2d.java:54-64 | the documented behaviour: adding a vector is adding diag(x, y) |
| Matrix2d.AddVecAgreesOnlyWhenEntriesMatch | src/main/java/com/boc_dev/maths/objects/matrix/Matrix2d.java:54-64 | the written `add(Vec2d)` equals the documented one if and only if `get(1,0) == get(1,1)` |
| Matrix2d.AddVecCounterexample | src/main/java/com/boc_dev/maths/objects/matrix/Matrix2d.java:59-64 | `Identity.add((1, 1))` yields [2, 0, 0, 1] where the diagonal sum is [2, 0, 0, 2] |
| Matrix2d.Scale | src/main/java/com/boc_dev/maths/objects/matrix/Matrix2d.java:71-75 | every element, in order, is multiplied by s |
| Matrix2d.ScaleUnits | src/main/java/com/boc_dev/maths/objects/matrix/Matrix2d.java:71-75 | `scale(1)` gives back the matrix and `scale(0)` gives Empty |
| Matrix2d.ScaleDistributes | src/main/java/com/boc_dev/maths/objects/matrix/Matrix2d.java:71-75 | scaling distributes over the sum |
| Matrix2d.GetRow | src/main/java/com/boc_dev/maths/objects/matrix/Matrix2d.java:100-102 | row i is elements 2i and 2i + 1 |
| Matrix2d.GetCol | src/main/java/com/boc_dev/maths/objects/matrix/Matrix2d.java:96-98 | column i is elements i and 2 + i |
| Matrix2d.Product | src/main/java/com/boc_dev/maths/objects/matrix/Matrix2d.java:82-102 | element i*2 + j of `multiply(Matrix2d)` is row i of a times column j of b, which is the row-major product a·b |
| Matrix2d.Multiply | src/main/java/com/boc_dev/maths/objects/matrix/Matrix2d.java:82-94 | the nested loops writing `newElements[i*2+j]` produce exactly `Product(a, b)` |
| Matrix2d.IdentityIsUnit | src/main/java/com/boc_dev/maths/objects/matrix/Matrix2d.java:18 | Identity is a left and a right unit of `multiply(Matrix2d)` |
| Matrix2d.Hadamard | src/main/java/com/boc_dev/maths/objects/matrix/Matrix2d.java:109-122 | `get(x, y)` of the element-wise product is the product of the two `get(x, y)` |
| Matrix2d.ElementMultiply | src/main/java/com/boc_dev/maths/objects/matrix/Matrix2d.java:109-122 | the nested loops writing `newElements[j*2+i]` produce exactly `Hadamard(a, b)` |
| Matrix2d.HadamardLaws | src/main/java/com/boc_dev/maths/objects/matrix/Matrix2d.java:109-122 | the element-wise product is commutative, has the all-ones matrix as unit and Empty as zero, and keeps only the diagonal against Identity |
| Matrix2d.MultiplyVec | src/main/java/com/boc_dev/maths/objects/matrix/Matrix2d.java:129-138 | the result's components are the dot products of rows 0 and 1 with the vector |
| Matrix2d.MultiplyVecUnits | src/main/java/com/boc_dev/maths/objects/matrix/Matrix2d.java:129-138 | Identity fixes every vector, and Empty sends every vector to zero |
| Matrix2d.ProductComposes | src/main/java/com/boc_dev/maths/objects/matrix/Matrix2d.java:82-138 | multiplying a vector by a·b is multiplying it by b and then by a |
| Matrix2d.Det | src/main/java/com/boc_dev/maths/objects/matrix/Matrix2d.java:144-148 | the determinant is e0·e3 − e1·e2 |
| Matrix2d.DetValues | src/main/java/com/boc_dev/maths/objects/matrix/Matrix2d.java:144-148 | det(Identity) = 1, det(Empty) = 0 and det(diag(2, 3)) = 6 |
| Matrix2d.DetOfProduct | src/main/java/com/boc_dev/maths/objects/matrix/Matrix2d.java:82-148 | the determinant of a product is the product of the determinants |
| Matrix2d.DetOfScale | src/main/java/com/boc_dev/maths/objects/matrix/Matrix2d.java:71-148 | scaling by s multiplies the determinant by s² |
| Matrix2d.Get | src/main/java/com/boc_dev/maths/objects/matrix/Matrix2d.java:36-38 | `get(x, y)` reads element y*2 + x, with no contract of its own; `GetRow`, `GetCol`, `Hadamard` and `Det` are stated through it |

## Left out

- IEEE rounding: Every `float` and `double` is an exact real. Float rounding, NaN, infinities and signed zero are not modelled. The `(float)` casts in `toQuaternion` are therefore no-ops.
- Trig and square roots: `Matrix4f.Rotation`, `PerspectiveProjection`, `updatePerspectiveProjection` and `View` need sin, cos or tan, and are not modelled. The square root taken in each `toQuaternion` branch becomes the parameter `root`, required to be positive and to square to the number the branch takes the root of, and `Vec3d.length`/`normalise` are left out.
- Precision conversions: `Matrix4f.getValuesD`/`toMatrix4d`, `Vec3d.toVecf`/`toVec3f`/`getValuesF` and `Matrix2d.toMatrix2f` are identities over reals and are left out.
- Equality, hashing, printing: `equals` and `hashCode` (array and `Double.compare` semantics) and `toString` are left out; Dafny's value equality stands in for them.
- Other types: QuaternionF is not part of this model, so the quaternion overload of `InverseTransformation` (Matrix4f.java:160-165) is left out. Vec3f is modelled by the same real triple as Vec3d, and Vec2d and Vec4d by small datatypes holding just their components. Matrix4d is a 16-element sequence read with the same `get` convention.
- Vec3d.multiply(Matrix4d): It depends on `Matrix4d.getXVec`, and Matrix4d is not part of this model.
- Aliasing: The constructors store the caller's array, and `getValues` hands out the internal one. The model has immutable values only, so sharing and later mutation are not captured. The public, non-final static `Identity`/`Empty` fields are constants.
- Matrix4f.invertDigit: It is private and unused, and is left out.
- Matrix4f.Get / Matrix2d.Get / the constructors: The array-length asserts and the array bounds become the subset types `Matrix4`/`Matrix2`. Indexing outside the array is a precondition, not an exception.
- Matrix4f.InverseScale / Matrix4f.OrthographicProjection / Matrix4f.InverseTransformation: These divide. They are modelled only with nonzero-divisor preconditions, and do not describe the infinities the source produces.
- Matrix4f.MultiplyVec: The third component in the source is `x*e8 + y*e9 + (z*e10 + e11)`. Over the reals its grouping does not matter, so it is written like the other two rows.
- Vec3d.Length2IsSelfDot: The "iff zero" side of `length2` is stated as two lemmas: this one, and `Length2PositiveOffZero` for nonzero vectors.
- Vec3d.OuterProduct: The argument is taken to be a Vec3d. The source accepts any `Vecd` and has no `instanceof` assert here. Its inner loop runs to the argument's own length, so a Vec2d would fill only two columns and a Vec4d would also fill column 3; the model does not cover those.
- Matrix4f.ProductComposes: This is stated only for an affine left factor: with any other bottom row, the implicit fourth coordinate of a point is not 1.

## Findings

| source | as written | input that shows it | evidently intended | confidence | as-written member | corrected member |
|---|---|---|---|---|---|---|
| src/main/java/com/boc_dev/maths/objects/matrix/Matrix4f.java:249-251 | `q1 = get(2,1) - get(1,2) / q04`, and likewise for q2 and q3; only the second term is divided | the rotation about X by the angle with cosine −0.28 and sine 0.96: trace 0.44, root 1.2, q0 = 0.6, and q1 comes out as −1.36 | `q1 = (get(2,1) - get(1,2)) / q04`, giving −0.8, as in the three other branches (Matrix4f.java:256-271) and the euclideanspace conversion cited at Matrix4f.java:233 | not executed | Matrix4f.ToQuaternionTraceBranchCounterexample | Matrix4f.ToQuaternionCorrected |
| src/main/java/com/boc_dev/maths/objects/matrix/Matrix2d.java:62 | the last element is `get(1, 0) + vec2d.getY()` | `Identity.add(new Vec2d(1, 1))` gives [2, 0, 0, 1] | `get(1, 1) + vec2d.getY()`, adding the vector to the diagonal as the doc comment on lines 54-55 says | not executed | Matrix2d.AddVecCounterexample | Matrix2d.AddToDiagonal |
