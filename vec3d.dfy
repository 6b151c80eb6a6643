/** Three-component double vectors (Vec3d.java), with every scalar an exact real.
 *  A Vec3d is an immutable value: every operation builds a new vector. */
module Vec3d {

  /** The three final components x, y, z. */
  datatype Vec3 = Vec3(x: real, y: real, z: real)

  /** A plane in the form (nx, ny, nz, s): normal n and signed distance s, as read
   *  from a Vec4d by `reflectionOverPlane`. */
  datatype Vec4 = Vec4(x: real, y: real, z: real, s: real)

  /** Outcome of `get(i)`: the component, or the RuntimeException for a bad index. */
  datatype Result<T> = Ok(value: T) | OutOfBounds(index: int)

  /** The 16 flat elements of the Matrix4d values that `star` and `outerProduct` build. */
  type Matrix4d = s: seq<real> | |s| == 16 witness seq(16, _ => 0.0)

  /** Element access of a Matrix4d with the Matrix4f convention: x is the column, y the row. */
  function MatrixGet(m: Matrix4d, x: int, y: int): real
    requires 0 <= y * 4 + x < 16
  {
    m[y * 4 + x]
  }

  const ZERO := Vec3(0.0, 0.0, 0.0)
  const X := Vec3(1.0, 0.0, 0.0)
  const Y := Vec3(0.0, 1.0, 0.0)
  const Z := Vec3(0.0, 0.0, 1.0)
  const ONE := Vec3(1.0, 1.0, 1.0)

  /** Math.min / Math.max on two scalars (NaN and signed zero do not arise over reals). */
  function MinOf(a: real, b: real): real { if a <= b then a else b }
  function MaxOf(a: real, b: real): real { if a >= b then a else b }

  /** The restricting constructor `Vec3d(v, limit)`: each component is capped at `limit`. */
  function Restricted(v: Vec3, limit: real): (r: Vec3)
    ensures r.x <= limit && r.x <= v.x && (r.x == limit || r.x == v.x)
    ensures r.y <= limit && r.y <= v.y && (r.y == limit || r.y == v.y)
    ensures r.z <= limit && r.z <= v.z && (r.z == limit || r.z == v.z)
  {
    Vec3(MinOf(v.x, limit), MinOf(v.y, limit), MinOf(v.z, limit))
  }

  function Add(a: Vec3, b: Vec3): Vec3
  {
    Vec3(a.x + b.x, a.y + b.y, a.z + b.z)
  }

  function Subtract(a: Vec3, b: Vec3): Vec3
  {
    Vec3(a.x - b.x, a.y - b.y, a.z - b.z)
  }

  function Scale(a: Vec3, s: real): Vec3
  {
    Vec3(a.x * s, a.y * s, a.z * s)
  }

  function Dot(a: Vec3, b: Vec3): real
  {
    a.x * b.x + a.y * b.y + a.z * b.z
  }

  function Length2(a: Vec3): real
  {
    (a.x * a.x) + (a.y * a.y) + (a.z * a.z)
  }

  function Neg(a: Vec3): Vec3
  {
    Vec3(-a.x, -a.y, -a.z)
  }

  /** `getValues()`: the components in index order. */
  function Values(a: Vec3): seq<real>
  {
    [a.x, a.y, a.z]
  }

  function Cross(a: Vec3, b: Vec3): Vec3
  {
    Vec3(a.y * b.z - a.z * b.y,
         a.z * b.x - a.x * b.z,
         a.x * b.y - a.y * b.x)
  }

  /** `star()`: the cross-product operator of `a` as a 4x4 matrix with a 1 in the corner. */
  function Star(a: Vec3): (m: Matrix4d)
    ensures forall x, y | 0 <= x < 3 && 0 <= y < 3 :: MatrixGet(m, x, y) == -MatrixGet(m, y, x)
    ensures forall i | 0 <= i < 3 :: MatrixGet(m, i, i) == 0.0
    ensures forall i | 0 <= i < 3 :: MatrixGet(m, 3, i) == 0.0 && MatrixGet(m, i, 3) == 0.0
    ensures MatrixGet(m, 3, 3) == 1.0
  {
    [0.0, -a.z, a.y, 0.0,
     a.z, 0.0, -a.x, 0.0,
     -a.y, a.x, 0.0, 0.0,
     0.0, 0.0, 0.0, 1.0]
  }

  /** The upper-left 3x3 block of a Matrix4d applied to `w`, row by row. */
  function ApplyUpper3(m: Matrix4d, w: Vec3): Vec3
  {
    Vec3(m[0] * w.x + m[1] * w.y + m[2] * w.z,
         m[4] * w.x + m[5] * w.y + m[6] * w.z,
         m[8] * w.x + m[9] * w.y + m[10] * w.z)
  }

  /** The matrix `outerProduct` builds: a[i] * b[j] at row i, column j of the upper-left
   *  3x3 block, zero in row 3 and column 3. */
  function Outer(a: Vec3, b: Vec3): (m: Matrix4d)
    ensures forall i, j | 0 <= i < 4 && 0 <= j < 4 ::
      MatrixGet(m, j, i) == if i < 3 && j < 3 then Values(a)[i] * Values(b)[j] else 0.0
  {
    var m := seq(16, k requires 0 <= k < 16 =>
      if k / 4 < 3 && k % 4 < 3 then Values(a)[k / 4] * Values(b)[k % 4] else 0.0);
    assert forall i, j | 0 <= i < 4 && 0 <= j < 4 :: MatrixGet(m, j, i) == m[i * 4 + j];
    m
  }

  /** `outerProduct`: the nested loops write a[i] * b[j] into element i*4+j of a fresh,
   *  zero-initialised double[16]. */
  method OuterProduct(a: Vec3, b: Vec3) returns (m: Matrix4d)
    ensures m == Outer(a, b)
  {
    var elements := new real[16](_ => 0.0);
    ghost var spec := Outer(a, b);
    WrittenEnds(spec);
    for thisVecIndex := 0 to |Values(a)|
      invariant elements[..] == Written(spec, thisVecIndex * 4)
    {
      for otherVecIndex := 0 to |Values(b)|
        invariant elements[..] == Written(spec, thisVecIndex * 4 + otherVecIndex)
      {
        OuterAt(a, b, thisVecIndex, otherVecIndex);
        WrittenStep(spec, thisVecIndex * 4 + otherVecIndex);
        elements[thisVecIndex * 4 + otherVecIndex] := Values(a)[thisVecIndex] * Values(b)[otherVecIndex];
      }
      OuterAt(a, b, thisVecIndex, 3);
      WrittenSkip(spec, thisVecIndex * 4 + 3);
    }
    OuterAt(a, b, 3, 0);
    OuterAt(a, b, 3, 1);
    OuterAt(a, b, 3, 2);
    OuterAt(a, b, 3, 3);
    WrittenSkip(spec, 12);
    WrittenSkip(spec, 13);
    WrittenSkip(spec, 14);
    WrittenSkip(spec, 15);
    m := elements[..];
  }

  /** Elements 0 to n - 1 of m, with the rest still 0: what the loops of
   *  `outerProduct` have written once they reach element n. */
  function Written(m: Matrix4d, n: int): seq<real>
  {
    seq(16, k requires 0 <= k < 16 => if k < n then m[k] else 0.0)
  }

  /** Before the loops nothing is written; once every element is, the matrix is m. */
  lemma WrittenEnds(m: Matrix4d)
    ensures Written(m, 0) == seq(16, _ => 0.0)
    ensures Written(m, 16) == m
  {
  }

  /** Writing element n extends the written part by one. */
  lemma WrittenStep(m: Matrix4d, n: int)
    requires 0 <= n < 16
    ensures Written(m, n + 1) == Written(m, n)[n := m[n]]
  {
  }

  /** An element the loops skip over is one that is 0 in m anyway. */
  lemma WrittenSkip(m: Matrix4d, n: int)
    requires 0 <= n < 16 && m[n] == 0.0
    ensures Written(m, n + 1) == Written(m, n)
  {
  }

  /** Element i*4+j of the outer product, for the loop's symbolic i and j. */
  lemma OuterAt(a: Vec3, b: Vec3, i: int, j: int)
    requires 0 <= i < 4 && 0 <= j < 4
    ensures Outer(a, b)[i * 4 + j] == if i < 3 && j < 3 then Values(a)[i] * Values(b)[j] else 0.0
  {
    assert MatrixGet(Outer(a, b), j, i) == Outer(a, b)[i * 4 + j];
  }

  /** Element-wise `multiply(Vecd)`. */
  function Multiply(a: Vec3, b: Vec3): Vec3
  {
    Vec3(a.x * b.x, a.y * b.y, a.z * b.z)
  }

  /** `get(i)`: components 0, 1, 2; any other index is the out-of-bounds exception. */
  function Get(a: Vec3, i: int): (r: Result<real>)
    ensures r.Ok? <==> 0 <= i < 3
    ensures r.Ok? ==> r.value == Values(a)[i]
    ensures r.OutOfBounds? ==> r.index == i
  {
    match i
    case 0 => Ok(a.x)
    case 1 => Ok(a.y)
    case 2 => Ok(a.z)
    case _ => OutOfBounds(i)
  }

  /** Component-wise minimum. */
  function Min(a: Vec3, b: Vec3): (r: Vec3)
    ensures r.x <= a.x && r.x <= b.x && (r.x == a.x || r.x == b.x)
    ensures r.y <= a.y && r.y <= b.y && (r.y == a.y || r.y == b.y)
    ensures r.z <= a.z && r.z <= b.z && (r.z == a.z || r.z == b.z)
  {
    Vec3(MinOf(a.x, b.x), MinOf(a.y, b.y), MinOf(a.z, b.z))
  }

  /** Component-wise maximum. */
  function Max(a: Vec3, b: Vec3): (r: Vec3)
    ensures r.x >= a.x && r.x >= b.x && (r.x == a.x || r.x == b.x)
    ensures r.y >= a.y && r.y >= b.y && (r.y == a.y || r.y == b.y)
    ensures r.z >= a.z && r.z >= b.z && (r.z == a.z || r.z == b.z)
  {
    Vec3(MaxOf(a.x, b.x), MaxOf(a.y, b.y), MaxOf(a.z, b.z))
  }

  /** The normal (nx, ny, nz) of a plane. */
  function Normal(plane: Vec4): Vec3
  {
    Vec3(plane.x, plane.y, plane.z)
  }

  /** `reflectionOverPlane`: with D = p - n*s, return n*s + (D - 2 (D.n) n). */
  function ReflectionOverPlane(p: Vec3, plane: Vec4): Vec3
  {
    var n := Normal(plane);
    var pointOnPlane := Scale(n, plane.s);
    var d := Subtract(p, pointOnPlane);
    var dn := Scale(n, Dot(d, n));
    var dref := Subtract(d, Scale(dn, 2.0));
    Add(pointOnPlane, dref)
  }

  /** `lerp`: this*(1-t) + b*t, with no clamping of t. */
  function Lerp(a: Vec3, b: Vec3, t: real): Vec3
  {
    Add(Scale(a, 1.0 - t), Scale(b, t))
  }

  // ---------------------------------------------------------------------------
  // Properties

  /** Subtracting and adding the same vector cancel, in either order. */
  lemma SubtractAddRoundTrip(a: Vec3, b: Vec3)
    ensures Add(Subtract(a, b), b) == a
    ensures Subtract(Add(a, b), b) == a
  {
  }

  /** Addition is commutative and has ZERO as its unit; neg is the additive inverse,
   *  equal to scaling by -1, and subtracting is adding the negation. */
  lemma AddGroupLaws(a: Vec3, b: Vec3)
    ensures Add(a, b) == Add(b, a)
    ensures Add(a, ZERO) == a
    ensures Add(a, Neg(a)) == ZERO
    ensures Neg(a) == Scale(a, -1.0)
    ensures Subtract(a, b) == Add(a, Neg(b))
  {
  }

  /** Scaling distributes over addition, and scaling by 1 changes nothing. */
  lemma ScaleLaws(a: Vec3, b: Vec3, s: real)
    ensures Scale(Add(a, b), s) == Add(Scale(a, s), Scale(b, s))
    ensures Scale(a, 1.0) == a
  {
  }

  /** Scaling twice is scaling once by the product of the factors. */
  lemma ScaleComposes(a: Vec3, s: real, t: real)
    ensures Scale(Scale(a, s), t) == Scale(a, s * t)
  {
  }

  /** The dot product is symmetric and linear in its first argument. */
  lemma DotLaws(a: Vec3, b: Vec3, c: Vec3, s: real)
    ensures Dot(a, b) == Dot(b, a)
    ensures Dot(Add(a, c), b) == Dot(a, b) + Dot(c, b)
    ensures Dot(Scale(a, s), b) == s * Dot(a, b)
  {
  }

  /** length2 is the dot product of a vector with itself: never negative, and zero
   *  exactly for the zero vector. */
  lemma Length2IsSelfDot(a: Vec3)
    ensures Length2(a) == Dot(a, a)
    ensures Length2(a) >= 0.0
    ensures Length2(ZERO) == 0.0
  {
    SquareNonNegative(a.x);
    SquareNonNegative(a.y);
    SquareNonNegative(a.z);
    calc {
      Length2(a);
    ==
      a.x * a.x + a.y * a.y + a.z * a.z;
    >=
      0.0;
    }
  }

  /** ... and it vanishes only at the zero vector. */
  lemma Length2PositiveOffZero(a: Vec3)
    requires a != ZERO
    ensures Length2(a) > 0.0
  {
    SumOfSquaresPositive(a.x, a.y, a.z);
    calc {
      Length2(a);
    ==
      a.x * a.x + a.y * a.y + a.z * a.z;
    >
      0.0;
    }
  }

  /** A sum of three squares is positive as soon as one of them is taken of a
   *  nonzero number. */
  lemma SumOfSquaresPositive(p: real, q: real, r: real)
    requires p != 0.0 || q != 0.0 || r != 0.0
    ensures p * p + q * q + r * r > 0.0
  {
    SquareNonNegative(p);
    SquareNonNegative(q);
    SquareNonNegative(r);
    if p != 0.0 {
      SquarePositive(p);
    } else if q != 0.0 {
      SquarePositive(q);
    } else {
      SquarePositive(r);
    }
  }

  lemma SquareNonNegative(r: real)
    ensures r * r >= 0.0
  {
    if r != 0.0 {
      SquarePositive(r);
    }
  }

  lemma SquarePositive(r: real)
    requires r != 0.0
    ensures r * r > 0.0
  {
    if r > 0.0 {
      ProductPositive(r, r);
    } else {
      ProductPositive(-r, -r);
      assert (-r) * (-r) == r * r;
    }
  }

  lemma ProductPositive(r: real, s: real)
    requires r > 0.0 && s > 0.0
    ensures r * s > 0.0
  {
  }

  /** The unit axes follow the right-hand rule. */
  lemma CrossOfAxes()
    ensures Cross(X, Y) == Z
    ensures Cross(Y, Z) == X
    ensures Cross(Z, X) == Y
  {
    CrossOfLiterals(1.0, 0.0, 0.0, 0.0, 1.0, 0.0);
    CrossOfLiterals(0.0, 1.0, 0.0, 0.0, 0.0, 1.0);
    CrossOfLiterals(0.0, 0.0, 1.0, 1.0, 0.0, 0.0);
  }

  lemma CrossOfLiterals(a1: real, a2: real, a3: real, b1: real, b2: real, b3: real)
    ensures Cross(Vec3(a1, a2, a3), Vec3(b1, b2, b3)) == Vec3(a2 * b3 - a3 * b2, a3 * b1 - a1 * b3, a1 * b2 - a2 * b1)
  {
  }

  /** The cross product is anti-commutative. */
  lemma CrossAntiCommutes(a: Vec3, b: Vec3)
    ensures Cross(a, b) == Neg(Cross(b, a))
    ensures Cross(a, a) == ZERO
  {
  }

  /** The cross product is orthogonal to both of its operands. */
  lemma CrossIsOrthogonal(a: Vec3, b: Vec3)
    ensures Dot(Cross(a, b), a) == 0.0
    ensures Dot(Cross(a, b), b) == 0.0
  {
    var c := Cross(a, b);
    assert Dot(c, a) == a.y * b.z * a.x - a.z * b.y * a.x + a.z * b.x * a.y - a.x * b.z * a.y + a.x * b.y * a.z - a.y * b.x * a.z;
    assert Dot(c, b) == a.y * b.z * b.x - a.z * b.y * b.x + a.z * b.x * b.y - a.x * b.z * b.y + a.x * b.y * b.z - a.y * b.x * b.z;
  }

  /** Row r of the 3x3 block of `star(v)` dotted with w is component r of v x w. */
  lemma StarIsCrossOperator(v: Vec3, w: Vec3)
    ensures ApplyUpper3(Star(v), w) == Cross(v, w)
  {
  }

  /** Element-wise multiplication is commutative with ONE as its unit. */
  lemma MultiplyLaws(a: Vec3, b: Vec3)
    ensures Multiply(a, b) == Multiply(b, a)
    ensures Multiply(a, ONE) == a
    ensures Multiply(ZERO, b) == ZERO
  {
  }

  /** Min and Max do not depend on the order of their operands, and Min lies below Max. */
  lemma MinMaxCommute(a: Vec3, b: Vec3)
    ensures Min(a, b) == Min(b, a)
    ensures Max(a, b) == Max(b, a)
    ensures Min(a, b).x <= Max(a, b).x && Min(a, b).y <= Max(a, b).y && Min(a, b).z <= Max(a, b).z
  {
  }

  /** The dot product distributes over subtraction and pulls out scalars. */
  lemma DotSubtractScale(a: Vec3, b: Vec3, c: Vec3, s: real)
    ensures Dot(Subtract(a, b), c) == Dot(a, c) - Dot(b, c)
    ensures Dot(Scale(a, s), c) == s * Dot(a, c)
  {
  }

  lemma ScaleByZero(a: Vec3, s: real)
    requires s == 0.0
    ensures Scale(a, s) == ZERO
  {
  }

  /** The reflection moves p by twice its offset D.n along the normal, D = p - n*s. */
  lemma ReflectionFormula(p: Vec3, plane: Vec4)
    ensures var n := Normal(plane);
            var k := Dot(Subtract(p, Scale(n, plane.s)), n);
            ReflectionOverPlane(p, plane) == Subtract(p, Scale(n, 2.0 * k))
  {
    var n := Normal(plane);
    var s := plane.s;
    var k := Dot(Subtract(p, Scale(n, s)), n);
    var r := ReflectionOverPlane(p, plane);
    assert r.x == n.x * s + (p.x - n.x * s) - (n.x * k) * 2.0;
    assert r.y == n.y * s + (p.y - n.y * s) - (n.y * k) * 2.0;
    assert r.z == n.z * s + (p.z - n.z * s) - (n.z * k) * 2.0;
  }

  /** A point already on the plane (p.n == s, unit n) is returned unchanged. */
  lemma ReflectionFixesPlanePoints(p: Vec3, plane: Vec4)
    requires Dot(Normal(plane), Normal(plane)) == 1.0
    requires Dot(p, Normal(plane)) == plane.s
    ensures ReflectionOverPlane(p, plane) == p
  {
    var n := Normal(plane);
    var k := Dot(Subtract(p, Scale(n, plane.s)), n);
    DotSubtractScale(p, Scale(n, plane.s), n, 0.0);
    DotSubtractScale(n, n, n, plane.s);
    assert k == 0.0;
    ReflectionFormula(p, plane);
    ScaleByZero(n, 2.0 * k);
  }

  /** Seen from the point n*s on the plane, the reflection negates the normal
   *  component of the offset and keeps its tangential part (unit n). */
  lemma ReflectionNegatesNormalPart(p: Vec3, plane: Vec4)
    requires Dot(Normal(plane), Normal(plane)) == 1.0
    ensures var n := Normal(plane);
            var o := Scale(n, plane.s);
            var d := Subtract(p, o);
            var r := Subtract(ReflectionOverPlane(p, plane), o);
            Dot(r, n) == -Dot(d, n) &&
            Subtract(r, Scale(n, Dot(r, n))) == Subtract(d, Scale(n, Dot(d, n)))
  {
    var n := Normal(plane);
    var o := Scale(n, plane.s);
    var d := Subtract(p, o);
    var k := Dot(d, n);
    ReflectionFormula(p, plane);
    var r := Subtract(ReflectionOverPlane(p, plane), o);
    assert r == Subtract(d, Scale(n, 2.0 * k));
    DotSubtractScale(d, Scale(n, 2.0 * k), n, 2.0 * k);
    DotSubtractScale(n, n, n, 2.0 * k);
    assert Dot(r, n) == k - 2.0 * k * 1.0;
    assert Subtract(r, Scale(n, -k)) == Subtract(d, Scale(n, k));
  }

  /** Reflecting twice over the same plane (unit n) gives back the point. */
  lemma ReflectionIsInvolution(p: Vec3, plane: Vec4)
    requires Dot(Normal(plane), Normal(plane)) == 1.0
    ensures ReflectionOverPlane(ReflectionOverPlane(p, plane), plane) == p
  {
    var n := Normal(plane);
    var o := Scale(n, plane.s);
    var q := ReflectionOverPlane(p, plane);
    var k := Dot(Subtract(p, o), n);
    var k' := Dot(Subtract(q, o), n);
    ReflectionNegatesNormalPart(p, plane);
    assert k' == -k;
    ReflectionFormula(p, plane);
    ReflectionFormula(q, plane);
    assert q == Subtract(p, Scale(n, 2.0 * k));
    assert Subtract(q, Scale(n, 2.0 * k')) == p;
  }

  /** At 0 the interpolation is the start point and at 1 the end point. */
  lemma LerpEndpoints(a: Vec3, b: Vec3)
    ensures Lerp(a, b, 0.0) == a
    ensures Lerp(a, b, 1.0) == b
  {
  }

  /** Interpolation walks from a along the difference b - a, by t times it. */
  lemma LerpAlongDifference(a: Vec3, b: Vec3, t: real)
    ensures Lerp(a, b, t) == Add(a, Scale(Subtract(b, a), t))
  {
    LerpComponent(a.x, b.x, t);
    LerpComponent(a.y, b.y, t);
    LerpComponent(a.z, b.z, t);
  }

  /** One component of `LerpAlongDifference`. */
  lemma LerpComponent(p: real, q: real, t: real)
    ensures p * (1.0 - t) + q * t == p + (q - p) * t
  {
  }
}
