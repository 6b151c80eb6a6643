/** Four-by-four float matrices (Matrix4f.java) over exact reals.  A matrix is its
 *  16 flat elements; `get(x, y)` reads element `y * 4 + x`, so x selects the column
 *  and y the row of the row-major layout the factories write out. */
module Matrix4f {
  import V = Vec3d

  const SIZE := 4

  /** The constructor's `assert elements.length == 16`, carried by the type. */
  type Matrix4 = s: seq<real> | |s| == 16 witness seq(16, _ => 0.0)

  /** `get(x, y)`: defined wherever the flat index lies inside the array. */
  function Get(m: Matrix4, x: int, y: int): real
    requires 0 <= y * SIZE + x < 16
  {
    m[y * SIZE + x]
  }

  const Identity: Matrix4 :=
    [1.0, 0.0, 0.0, 0.0,
     0.0, 1.0, 0.0, 0.0,
     0.0, 0.0, 1.0, 0.0,
     0.0, 0.0, 0.0, 1.0]

  function Translation(t: V.Vec3): Matrix4
  {
    [1.0, 0.0, 0.0, t.x,
     0.0, 1.0, 0.0, t.y,
     0.0, 0.0, 1.0, t.z,
     0.0, 0.0, 0.0, 1.0]
  }

  function Scale(s: V.Vec3): Matrix4
  {
    [s.x, 0.0, 0.0, 0.0,
     0.0, s.y, 0.0, 0.0,
     0.0, 0.0, s.z, 0.0,
     0.0, 0.0, 0.0, 1.0]
  }

  /** Only meaningful for nonzero scale factors: the source divides by each. */
  function InverseScale(s: V.Vec3): Matrix4
    requires s.x != 0.0 && s.y != 0.0 && s.z != 0.0
  {
    [1.0 / s.x, 0.0, 0.0, 0.0,
     0.0, 1.0 / s.y, 0.0, 0.0,
     0.0, 0.0, 1.0 / s.z, 0.0,
     0.0, 0.0, 0.0, 1.0]
  }

  /** Two matrices are equal once their 16 elements are. */
  lemma Equal16(a: Matrix4, b: Matrix4)
    requires a[0] == b[0] && a[1] == b[1] && a[2] == b[2] && a[3] == b[3]
    requires a[4] == b[4] && a[5] == b[5] && a[6] == b[6] && a[7] == b[7]
    requires a[8] == b[8] && a[9] == b[9] && a[10] == b[10] && a[11] == b[11]
    requires a[12] == b[12] && a[13] == b[13] && a[14] == b[14] && a[15] == b[15]
    ensures a == b
  {
    forall k | 0 <= k < 16
      ensures a[k] == b[k]
    {
      assert k == 0 || k == 1 || k == 2 || k == 3 || k == 4 || k == 5 || k == 6 || k == 7 ||
             k == 8 || k == 9 || k == 10 || k == 11 || k == 12 || k == 13 || k == 14 || k == 15;
    }
  }

  // ---------------------------------------------------------------------------
  // Element-wise sum

  /** The element-wise sum that `add(Matrix4f)` computes. */
  function Sum(a: Matrix4, b: Matrix4): (r: Matrix4)
    ensures forall k | 0 <= k < 16 :: r[k] == a[k] + b[k]
  {
    seq(16, k requires 0 <= k < 16 => a[k] + b[k])
  }

  /** `add(Matrix4f)`: one pass over the 16 elements into a fresh array. */
  method Add(a: Matrix4, b: Matrix4) returns (r: Matrix4)
    ensures r == Sum(a, b)
  {
    var newElements := new real[16](_ => 0.0);
    for i := 0 to 16
      invariant forall k | 0 <= k < i :: newElements[k] == a[k] + b[k]
    {
      newElements[i] := a[i] + b[i];
    }
    r := newElements[..];
  }

  /** `add(Vec3f)`: x, y and z go onto the first three diagonal elements. */
  function AddVec(m: Matrix4, v: V.Vec3): (r: Matrix4)
    ensures r[0] == m[0] + v.x && r[5] == m[5] + v.y && r[10] == m[10] + v.z
    ensures forall k | 0 <= k < 16 && k != 0 && k != 5 && k != 10 :: r[k] == m[k]
  {
    [m[0] + v.x, m[1], m[2], m[3],
     m[4], m[5] + v.y, m[6], m[7],
     m[8], m[9], m[10] + v.z, m[11],
     m[12], m[13], m[14], m[15]]
  }

  /** The diagonal matrix diag(v.x, v.y, v.z, 0). */
  function Diagonal(v: V.Vec3): Matrix4
  {
    [v.x, 0.0, 0.0, 0.0,
     0.0, v.y, 0.0, 0.0,
     0.0, 0.0, v.z, 0.0,
     0.0, 0.0, 0.0, 0.0]
  }

  lemma SumLaws(a: Matrix4, b: Matrix4, c: Matrix4)
    ensures Sum(a, b) == Sum(b, a)
    ensures Sum(Sum(a, b), c) == Sum(a, Sum(b, c))
  {
  }

  /** Adding a vector is adding the diagonal matrix it spans. */
  lemma AddVecIsDiagonalSum(m: Matrix4, v: V.Vec3)
    ensures AddVec(m, v) == Sum(m, Diagonal(v))
  {
    var r, s := AddVec(m, v), Sum(m, Diagonal(v));
    Equal16(r, s);
  }

  // ---------------------------------------------------------------------------
  // Matrix product

  /** The four-term sum of products that every entry of a product is. */
  function Dot4(a0: real, a1: real, a2: real, a3: real, b0: real, b1: real, b2: real, b3: real): real
  {
    a0 * b0 + a1 * b1 + a2 * b2 + a3 * b3
  }

  /** Entry (x, y) of `a.multiply(b)`: the sum over k of a.get(x, k) * b.get(k, y). */
  function ProductEntry(a: Matrix4, b: Matrix4, x: int, y: int): real
    requires 0 <= x < 4 && 0 <= y < 4
  {
    Dot4(Get(a, x, 0), Get(a, x, 1), Get(a, x, 2), Get(a, x, 3),
         Get(b, 0, y), Get(b, 1, y), Get(b, 2, y), Get(b, 3, y))
  }

  /** The matrix `a.multiply(b)` builds.  Read row-major, this is b times a. */
  function Product(a: Matrix4, b: Matrix4): (r: Matrix4)
    ensures forall x, y | 0 <= x < 4 && 0 <= y < 4 :: Get(r, x, y) == ProductEntry(a, b, x, y)
  {
    [ProductEntry(a, b, 0, 0), ProductEntry(a, b, 1, 0), ProductEntry(a, b, 2, 0), ProductEntry(a, b, 3, 0),
     ProductEntry(a, b, 0, 1), ProductEntry(a, b, 1, 1), ProductEntry(a, b, 2, 1), ProductEntry(a, b, 3, 1),
     ProductEntry(a, b, 0, 2), ProductEntry(a, b, 1, 2), ProductEntry(a, b, 2, 2), ProductEntry(a, b, 3, 2),
     ProductEntry(a, b, 0, 3), ProductEntry(a, b, 1, 3), ProductEntry(a, b, 2, 3), ProductEntry(a, b, 3, 3)]
  }

  /** `multiply(Matrix4f)`: column i outer, row j inner; each entry is the four-term sum
   *  of products of elements i + 4k of a and k + 4j of b, written through `Dot4`. */
  method Multiply(a: Matrix4, b: Matrix4) returns (r: Matrix4)
    ensures r == Product(a, b)
  {
    ghost var spec := Product(a, b);
    var newElements := new real[16](_ => 0.0);
    PartialEnds(spec);
    for i := 0 to SIZE
      invariant newElements[..] == Partial(spec, i, 0)
    {
      for j := 0 to SIZE
        invariant newElements[..] == Partial(spec, i, j)
      {
        ProductAt(a, b, i, j);
        PartialStep(spec, i, j);
        newElements[j * SIZE + i] :=
          Dot4(a[i + SIZE * 0], a[i + SIZE * 1], a[i + SIZE * 2], a[i + SIZE * 3],
               b[0 + j * SIZE], b[1 + j * SIZE], b[2 + j * SIZE], b[3 + j * SIZE]);
      }
      PartialNextColumn(spec, i);
    }
    r := newElements[..];
  }

  /** The elements of m that `multiply` has written on reaching column i, row j
   *  (every earlier column, and rows 0 to j - 1 of column i); the rest are still 0. */
  function Partial(m: Matrix4, i: int, j: int): seq<real>
  {
    seq(16, k requires 0 <= k < 16 => if k % 4 < i || (k % 4 == i && k / 4 < j) then m[k] else 0.0)
  }

  /** Before the loops nothing is written; after them, everything. */
  lemma PartialEnds(m: Matrix4)
    ensures Partial(m, 0, 0) == seq(16, _ => 0.0)
    ensures Partial(m, SIZE, 0) == m
  {
  }

  /** Writing row j of column i extends the written part by element j*4+i. */
  lemma PartialStep(m: Matrix4, i: int, j: int)
    requires 0 <= i < SIZE && 0 <= j < SIZE
    ensures Partial(m, i, j + 1) == Partial(m, i, j)[j * SIZE + i := m[j * SIZE + i]]
  {
    var after, before := Partial(m, i, j + 1), Partial(m, i, j)[j * SIZE + i := m[j * SIZE + i]];
    forall k | 0 <= k < 16
      ensures after[k] == before[k]
    {
      assert (k == j * SIZE + i) == (k % 4 == i && k / 4 == j);
    }
  }

  /** A finished column i is the start of column i + 1. */
  lemma PartialNextColumn(m: Matrix4, i: int)
    requires 0 <= i < SIZE
    ensures Partial(m, i, SIZE) == Partial(m, i + 1, 0)
  {
  }

  /** Element j*4+i of the product, over the elements the loop body of `multiply` reads. */
  lemma ProductAt(a: Matrix4, b: Matrix4, i: int, j: int)
    requires 0 <= i < SIZE && 0 <= j < SIZE
    ensures Product(a, b)[j * SIZE + i] ==
      Dot4(a[i + SIZE * 0], a[i + SIZE * 1], a[i + SIZE * 2], a[i + SIZE * 3],
           b[0 + j * SIZE], b[1 + j * SIZE], b[2 + j * SIZE], b[3 + j * SIZE])
  {
    assert Get(Product(a, b), i, j) == ProductEntry(a, b, i, j);
  }

  lemma IdentityGet(x: int, y: int)
    requires 0 <= x < 4 && 0 <= y < 4
    ensures Get(Identity, x, y) == if x == y then 1.0 else 0.0
  {
  }

  /** The identity is a unit of the product on both sides. */
  lemma IdentityIsUnit(m: Matrix4)
    ensures Product(Identity, m) == m
    ensures Product(m, Identity) == m
  {
    var l, r := Product(Identity, m), Product(m, Identity);
    forall x, y | 0 <= x < 4 && 0 <= y < 4
      ensures Get(l, x, y) == Get(m, x, y) && Get(r, x, y) == Get(m, x, y)
    {
      IdentityGet(x, 0);
      IdentityGet(x, 1);
      IdentityGet(x, 2);
      IdentityGet(x, 3);
      IdentityGet(0, y);
      IdentityGet(1, y);
      IdentityGet(2, y);
      IdentityGet(3, y);
    }
    GetDeterminesMatrix(l, m);
    GetDeterminesMatrix(r, m);
  }

  /** `get` reaches every element exactly once: element k is get(k % 4, k / 4). */
  lemma GetCoversElements(m: Matrix4)
    ensures forall k | 0 <= k < 16 :: Get(m, k % 4, k / 4) == m[k]
  {
  }

  lemma GetDeterminesMatrix(a: Matrix4, b: Matrix4)
    requires forall x, y | 0 <= x < 4 && 0 <= y < 4 :: Get(a, x, y) == Get(b, x, y)
    ensures a == b
  {
    forall k | 0 <= k < 16
      ensures a[k] == b[k]
    {
      assert Get(a, k % 4, k / 4) == Get(b, k % 4, k / 4);
    }
  }

  // ---------------------------------------------------------------------------
  // Acting on vectors

  /** One row (c0, c1, c2) of the upper 3x3 against the components x, y, z. */
  function Row(x: real, y: real, z: real, c0: real, c1: real, c2: real): real
  {
    (x * c0) + (y * c1) + (z * c2)
  }

  /** `multiply(Vec3f)`: the point (x, y, z, 1) through the top three rows. */
  function MultiplyVec(m: Matrix4, p: V.Vec3): V.Vec3
  {
    V.Vec3(
      Row(p.x, p.y, p.z, m[0], m[1], m[2]) + m[3],
      Row(p.x, p.y, p.z, m[4], m[5], m[6]) + m[7],
      Row(p.x, p.y, p.z, m[8], m[9], m[10]) + m[11])
  }

  /** `rotate`: the direction (x, y, z, 0) through the top three rows. */
  function Rotate(m: Matrix4, v: V.Vec3): V.Vec3
  {
    V.Vec3(
      Row(v.x, v.y, v.z, m[0], m[1], m[2]),
      Row(v.x, v.y, v.z, m[4], m[5], m[6]),
      Row(v.x, v.y, v.z, m[8], m[9], m[10]))
  }

  /** `getXVec`, `getYVec`, `getZVec`: get(0..2, y) for rows y = 0, 1, 2. */
  function XVec(m: Matrix4): V.Vec3 { V.Vec3(Get(m, 0, 0), Get(m, 1, 0), Get(m, 2, 0)) }
  function YVec(m: Matrix4): V.Vec3 { V.Vec3(Get(m, 0, 1), Get(m, 1, 1), Get(m, 2, 1)) }
  function ZVec(m: Matrix4): V.Vec3 { V.Vec3(Get(m, 0, 2), Get(m, 1, 2), Get(m, 2, 2)) }

  /** `getTranslation` and its three component getters: column 3 of the top rows. */
  function GetTranslation(m: Matrix4): (t: V.Vec3)
    ensures t == V.Vec3(m[3], m[7], m[11])
  {
    V.Vec3(Get(m, 3, 0), Get(m, 3, 1), Get(m, 3, 2))
  }

  function GetTranslationX(m: Matrix4): real { Get(m, 3, 0) }
  function GetTranslationY(m: Matrix4): real { Get(m, 3, 1) }
  function GetTranslationZ(m: Matrix4): real { Get(m, 3, 2) }

  /** A matrix whose bottom row is [0, 0, 0, 1], as every factory here builds. */
  predicate IsAffine(m: Matrix4)
  {
    m[12] == 0.0 && m[13] == 0.0 && m[14] == 0.0 && m[15] == 1.0
  }

  /** An affine matrix with no translation part. */
  predicate IsLinear(m: Matrix4)
  {
    IsAffine(m) && m[3] == 0.0 && m[7] == 0.0 && m[11] == 0.0
  }

  /** The upper-left 3x3 has orthonormal columns, as a pure rotation does. */
  predicate HasOrthonormalAxes(m: Matrix4)
  {
    m[0] * m[0] + m[4] * m[4] + m[8] * m[8] == 1.0 &&
    m[1] * m[1] + m[5] * m[5] + m[9] * m[9] == 1.0 &&
    m[2] * m[2] + m[6] * m[6] + m[10] * m[10] == 1.0 &&
    m[0] * m[1] + m[4] * m[5] + m[8] * m[9] == 0.0 &&
    m[0] * m[2] + m[4] * m[6] + m[8] * m[10] == 0.0 &&
    m[1] * m[2] + m[5] * m[6] + m[9] * m[10] == 0.0
  }

  /** A point moved by a matrix is its direction part moved plus the translation. */
  lemma MultiplyVecIsRotatePlusTranslation(m: Matrix4, p: V.Vec3)
    ensures MultiplyVec(m, p) == V.Add(Rotate(m, p), GetTranslation(m))
    ensures Rotate(m, p) == V.Vec3(V.Dot(XVec(m), p), V.Dot(YVec(m), p), V.Dot(ZVec(m), p))
  {
    RowIsDot(XVec(m), p);
    RowIsDot(YVec(m), p);
    RowIsDot(ZVec(m), p);
  }

  /** A row of coefficients against a vector is their dot product. */
  lemma RowIsDot(c: V.Vec3, p: V.Vec3)
    ensures Row(p.x, p.y, p.z, c.x, c.y, c.z) == V.Dot(c, p)
  {
  }

  /** For an affine `a`, the matrix `a.multiply(b)` applies a first and b second. */
  lemma ProductComposes(a: Matrix4, b: Matrix4, p: V.Vec3)
    requires IsAffine(a)
    ensures MultiplyVec(Product(a, b), p) == MultiplyVec(b, MultiplyVec(a, p))
  {
    ComposeRow(a, b, p, 0);
    ComposeRow(a, b, p, 1);
    ComposeRow(a, b, p, 2);
  }

  lemma ComposeRow(a: Matrix4, b: Matrix4, p: V.Vec3, y: int)
    requires IsAffine(a) && 0 <= y < 3
    ensures var r, q := Product(a, b), MultiplyVec(a, p);
      Row(p.x, p.y, p.z, r[y * 4], r[y * 4 + 1], r[y * 4 + 2]) + r[y * 4 + 3] ==
      Row(q.x, q.y, q.z, b[y * 4], b[y * 4 + 1], b[y * 4 + 2]) + b[y * 4 + 3]
  {
    var r := Product(a, b);
    ProductRow(a, b, y);
    Regroup(p, r[y * 4], r[y * 4 + 1], r[y * 4 + 2], r[y * 4 + 3],
            b[y * 4], b[y * 4 + 1], b[y * 4 + 2], b[y * 4 + 3], a);
  }

  /** Row y of `a.multiply(b)`: entry x is column x of a against row y of b. */
  lemma ProductRow(a: Matrix4, b: Matrix4, y: int)
    requires 0 <= y < 4
    ensures var r := Product(a, b);
      r[y * 4] == Dot4(a[0], a[4], a[8], a[12], b[y * 4], b[y * 4 + 1], b[y * 4 + 2], b[y * 4 + 3]) &&
      r[y * 4 + 1] == Dot4(a[1], a[5], a[9], a[13], b[y * 4], b[y * 4 + 1], b[y * 4 + 2], b[y * 4 + 3]) &&
      r[y * 4 + 2] == Dot4(a[2], a[6], a[10], a[14], b[y * 4], b[y * 4 + 1], b[y * 4 + 2], b[y * 4 + 3]) &&
      r[y * 4 + 3] == Dot4(a[3], a[7], a[11], a[15], b[y * 4], b[y * 4 + 1], b[y * 4 + 2], b[y * 4 + 3])
  {
    var r := Product(a, b);
    assert Get(r, 0, y) == ProductEntry(a, b, 0, y);
    assert Get(r, 1, y) == ProductEntry(a, b, 1, y);
    assert Get(r, 2, y) == ProductEntry(a, b, 2, y);
    assert Get(r, 3, y) == ProductEntry(a, b, 3, y);
  }

  /** The regrouping behind composition: a row c of the product (the columns of an
   *  affine a against a row b) applied to p. */
  lemma Regroup(p: V.Vec3, c0: real, c1: real, c2: real, c3: real,
                b0: real, b1: real, b2: real, b3: real, a: Matrix4)
    requires IsAffine(a)
    requires c0 == Dot4(a[0], a[4], a[8], a[12], b0, b1, b2, b3)
    requires c1 == Dot4(a[1], a[5], a[9], a[13], b0, b1, b2, b3)
    requires c2 == Dot4(a[2], a[6], a[10], a[14], b0, b1, b2, b3)
    requires c3 == Dot4(a[3], a[7], a[11], a[15], b0, b1, b2, b3)
    ensures var q := MultiplyVec(a, p);
      Row(p.x, p.y, p.z, c0, c1, c2) + c3 == Row(q.x, q.y, q.z, b0, b1, b2) + b3
  {
    RegroupReals(p.x, p.y, p.z, c0, c1, c2, c3, b0, b1, b2, b3,
                 a[0], a[1], a[2], a[3], a[4], a[5], a[6], a[7], a[8], a[9], a[10], a[11]);
  }

  lemma RegroupReals(x: real, y: real, z: real, c0: real, c1: real, c2: real, c3: real,
                     b0: real, b1: real, b2: real, b3: real,
                     a0: real, a1: real, a2: real, a3: real, a4: real, a5: real,
                     a6: real, a7: real, a8: real, a9: real, a10: real, a11: real)
    requires c0 == Dot4(a0, a4, a8, 0.0, b0, b1, b2, b3)
    requires c1 == Dot4(a1, a5, a9, 0.0, b0, b1, b2, b3)
    requires c2 == Dot4(a2, a6, a10, 0.0, b0, b1, b2, b3)
    requires c3 == Dot4(a3, a7, a11, 1.0, b0, b1, b2, b3)
    ensures Row(x, y, z, c0, c1, c2) + c3 ==
            Row(Row(x, y, z, a0, a1, a2) + a3, Row(x, y, z, a4, a5, a6) + a7, Row(x, y, z, a8, a9, a10) + a11,
                b0, b1, b2) + b3
  {
  }

  /** Two affine matrices have an affine product. */
  lemma ProductAffine(a: Matrix4, b: Matrix4)
    requires IsAffine(a) && IsAffine(b)
    ensures IsAffine(Product(a, b))
  {
    ProductRow(a, b, 3);
  }

  // ---------------------------------------------------------------------------
  // Factories and their round trips

  lemma TranslationRoundTrips(t: V.Vec3, p: V.Vec3, v: V.Vec3)
    ensures MultiplyVec(Translation(t), p) == V.Add(p, t)
    ensures Rotate(Translation(t), v) == v
    ensures GetTranslation(Translation(t)) == t
    ensures IsAffine(Translation(t))
  {
  }

  lemma ScaleFacts(s: V.Vec3, p: V.Vec3)
    ensures Scale(V.ONE) == Identity
    ensures MultiplyVec(Scale(s), p) == V.Multiply(p, s)
    ensures IsLinear(Scale(s))
  {
  }

  lemma IdentityFacts(p: V.Vec3)
    ensures MultiplyVec(Identity, p) == p
    ensures IsLinear(Identity) && HasOrthonormalAxes(Identity)
    ensures XVec(Identity) == V.X && YVec(Identity) == V.Y && ZVec(Identity) == V.Z
  {
  }

  /** The inverse scale undoes the scale on every point. */
  lemma InverseScaleUndoesScale(s: V.Vec3, p: V.Vec3)
    requires s.x != 0.0 && s.y != 0.0 && s.z != 0.0
    ensures MultiplyVec(InverseScale(s), MultiplyVec(Scale(s), p)) == p
    ensures IsLinear(InverseScale(s))
  {
    DivideBack(p.x, s.x);
    DivideBack(p.y, s.y);
    DivideBack(p.z, s.z);
  }

  lemma DivideBack(a: real, d: real)
    requires d != 0.0
    ensures a * d * (1.0 / d) == a
    ensures (a * d) * (1.0 / d) + 0.0 == a
  {
  }

  /** `Transform(pos, rot, scale)`: scale, then rotate, then translate, in the
   *  order `scaleMatrix.multiply(rot).multiply(translation)`. */
  function Transform(pos: V.Vec3, rot: Matrix4, scale: V.Vec3): Matrix4
  {
    Product(Product(Scale(scale), rot), Translation(pos))
  }

  /** The point form of `Transform`: for an affine rotation part, p is scaled
   *  component-wise, moved by rot, then shifted by pos. */
  lemma TransformMapsPoint(pos: V.Vec3, rot: Matrix4, scale: V.Vec3, p: V.Vec3)
    requires IsAffine(rot)
    ensures MultiplyVec(Transform(pos, rot, scale), p) == V.Add(MultiplyVec(rot, V.Multiply(p, scale)), pos)
  {
    ScaleFacts(scale, p);
    ProductAffine(Scale(scale), rot);
    ProductComposes(Product(Scale(scale), rot), Translation(pos), p);
    ProductComposes(Scale(scale), rot, p);
    TranslationRoundTrips(pos, MultiplyVec(rot, V.Multiply(p, scale)), p);
  }

  /** Without a translation part in rot, whatever the scale, the origin lands on
   *  pos; in particular `Transform(pos, Identity, (1, 1, 1))` does so. */
  lemma TransformOfOrigin(pos: V.Vec3, rot: Matrix4, scale: V.Vec3)
    requires IsLinear(rot)
    ensures MultiplyVec(Transform(pos, rot, scale), V.ZERO) == pos
  {
    TransformMapsPoint(pos, rot, scale, V.ZERO);
    V.MultiplyLaws(V.ZERO, scale);
    OriginGoesToTranslation(rot);
  }

  /** The origin is moved onto the translation part. */
  lemma OriginGoesToTranslation(m: Matrix4)
    ensures MultiplyVec(m, V.ZERO) == GetTranslation(m)
  {
  }

  /** `InverseTransformation(Vec3f, Matrix4f, Vec3f)`: translate back, apply the
   *  transposed rotation, then the inverse scale. */
  function InverseTransformation(pos: V.Vec3, rot: Matrix4, scale: V.Vec3): Matrix4
    requires scale.x != 0.0 && scale.y != 0.0 && scale.z != 0.0
  {
    Product(Product(Translation(V.Neg(pos)), Transposed(rot)), InverseScale(scale))
  }

  /** The point form of `InverseTransformation`: shift by -pos, rotate back with
   *  the transpose, then divide by the scale. */
  lemma InverseTransformationMapsPoint(pos: V.Vec3, rot: Matrix4, scale: V.Vec3, q: V.Vec3)
    requires scale.x != 0.0 && scale.y != 0.0 && scale.z != 0.0
    requires IsLinear(rot)
    ensures MultiplyVec(InverseTransformation(pos, rot, scale), q) ==
            MultiplyVec(InverseScale(scale), Rotate(Transposed(rot), V.Add(q, V.Neg(pos))))
  {
    var back := Translation(V.Neg(pos));
    var rt := Transposed(rot);
    TransposedLinear(rot);
    TranslationRoundTrips(V.Neg(pos), q, q);
    ProductAffine(back, rt);
    ProductComposes(Product(back, rt), InverseScale(scale), q);
    ProductComposes(back, rt, q);
    LinearMultiplyIsRotate(rt, V.Add(q, V.Neg(pos)));
  }

  /** For a pure rotation (no translation part, orthonormal axes) and a nonzero
   *  scale, the inverse transformation undoes `Transform` on every point. */
  lemma InverseTransformationUndoesTransform(pos: V.Vec3, rot: Matrix4, scale: V.Vec3, p: V.Vec3)
    requires scale.x != 0.0 && scale.y != 0.0 && scale.z != 0.0
    requires IsLinear(rot) && HasOrthonormalAxes(rot)
    ensures MultiplyVec(InverseTransformation(pos, rot, scale), MultiplyVec(Transform(pos, rot, scale), p)) == p
  {
    var q := MultiplyVec(Transform(pos, rot, scale), p);
    TransformMapsPoint(pos, rot, scale, p);
    LinearMultiplyIsRotate(rot, V.Multiply(p, scale));
    assert V.Add(q, V.Neg(pos)) == Rotate(rot, V.Multiply(p, scale));
    InverseTransformationMapsPoint(pos, rot, scale, q);
    RotateTransposeUndoes(rot, V.Multiply(p, scale));
    ScaleFacts(scale, p);
    InverseScaleUndoesScale(scale, p);
  }

  /** A matrix without translation moves points as it moves directions. */
  lemma LinearMultiplyIsRotate(m: Matrix4, v: V.Vec3)
    requires m[3] == 0.0 && m[7] == 0.0 && m[11] == 0.0
    ensures MultiplyVec(m, v) == Rotate(m, v)
  {
  }

  /** Rotating back with the transpose undoes a rotation with orthonormal axes. */
  lemma RotateTransposeUndoes(m: Matrix4, v: V.Vec3)
    requires HasOrthonormalAxes(m)
    ensures Rotate(Transposed(m), Rotate(m, v)) == v
  {
    var t := Transposed(m);
    assert t[0] == m[0] && t[1] == m[4] && t[2] == m[8];
    assert t[4] == m[1] && t[5] == m[5] && t[6] == m[9];
    assert t[8] == m[2] && t[9] == m[6] && t[10] == m[10];
    OrthonormalRoundTrip(m[0], m[1], m[2], m[4], m[5], m[6], m[8], m[9], m[10], v.x, v.y, v.z);
  }

  /** The 3x3 computation behind `RotateTransposeUndoes`, on plain reals, for the
   *  matrix rows (r0 r1 r2), (r4 r5 r6), (r8 r9 r10). */
  lemma OrthonormalRoundTrip(r0: real, r1: real, r2: real, r4: real, r5: real, r6: real,
                             r8: real, r9: real, r10: real, x: real, y: real, z: real)
    requires r0 * r0 + r4 * r4 + r8 * r8 == 1.0
    requires r1 * r1 + r5 * r5 + r9 * r9 == 1.0
    requires r2 * r2 + r6 * r6 + r10 * r10 == 1.0
    requires r0 * r1 + r4 * r5 + r8 * r9 == 0.0
    requires r0 * r2 + r4 * r6 + r8 * r10 == 0.0
    requires r1 * r2 + r5 * r6 + r9 * r10 == 0.0
    ensures var u, w, s := (x * r0) + (y * r1) + (z * r2), (x * r4) + (y * r5) + (z * r6), (x * r8) + (y * r9) + (z * r10);
      (u * r0) + (w * r4) + (s * r8) == x &&
      (u * r1) + (w * r5) + (s * r9) == y &&
      (u * r2) + (w * r6) + (s * r10) == z
  {
  }

  // ---------------------------------------------------------------------------
  // Transpose

  /** The transpose: the element at get(x, y) moves to get(y, x). */
  function Transposed(m: Matrix4): (r: Matrix4)
    ensures forall x, y | 0 <= x < 4 && 0 <= y < 4 :: Get(r, x, y) == Get(m, y, x)
  {
    var r := seq(16, k requires 0 <= k < 16 => m[(k % 4) * 4 + k / 4]);
    assert forall x, y | 0 <= x < 4 && 0 <= y < 4 :: Get(r, x, y) == r[y * 4 + x];
    r
  }

  /** `transpose`: newElements[j * 4 + i] takes element i * 4 + j. */
  method Transpose(m: Matrix4) returns (r: Matrix4)
    ensures r == Transposed(m)
  {
    ghost var spec := Transposed(m);
    var newElements := new real[16](_ => 0.0);
    for i := 0 to SIZE
      invariant forall k | 0 <= k < 16 ::
        newElements[k] == if k % 4 < i then spec[k] else 0.0
    {
      for j := 0 to SIZE
        invariant forall k | 0 <= k < 16 ::
          newElements[k] == if k % 4 < i || (k % 4 == i && k / 4 < j) then spec[k] else 0.0
      {
        assert Get(spec, i, j) == Get(m, j, i);
        newElements[j * SIZE + i] := m[i * SIZE + j];
      }
    }
    r := newElements[..];
    assert r == spec;
  }

  lemma TransposeIsInvolution(m: Matrix4)
    ensures Transposed(Transposed(m)) == m
  {
    var t := Transposed(Transposed(m));
    forall x, y | 0 <= x < 4 && 0 <= y < 4
      ensures Get(t, x, y) == Get(m, x, y)
    {
      assert Get(t, x, y) == Get(Transposed(m), y, x);
    }
    GetDeterminesMatrix(t, m);
  }

  /** Transposing a matrix without translation part gives an affine matrix. */
  lemma TransposedLinear(m: Matrix4)
    requires IsLinear(m)
    ensures IsLinear(Transposed(m))
  {
    var t := Transposed(m);
    assert Get(t, 0, 3) == Get(m, 3, 0) && Get(t, 1, 3) == Get(m, 3, 1);
    assert Get(t, 2, 3) == Get(m, 3, 2) && Get(t, 3, 3) == Get(m, 3, 3);
    assert Get(t, 3, 0) == Get(m, 0, 3) && Get(t, 3, 1) == Get(m, 1, 3) && Get(t, 3, 2) == Get(m, 2, 3);
  }

  // ---------------------------------------------------------------------------
  // Affine inverse

  /** `invert`, for affine transformations: the transposed upper 3x3 together with
   *  the translation moved back through it and negated. */
  function Invert(m: Matrix4): Matrix4
  {
    var inverseRotation := [Get(m, 0, 0), Get(m, 0, 1), Get(m, 0, 2),
                            Get(m, 1, 0), Get(m, 1, 1), Get(m, 1, 2),
                            Get(m, 2, 0), Get(m, 2, 1), Get(m, 2, 2)];
    var x, y, z := -Get(m, 3, 0), -Get(m, 3, 1), -Get(m, 3, 2);
    var translationInverse := [
      (x * inverseRotation[0]) + (y * inverseRotation[1]) + (z * inverseRotation[2]),
      (x * inverseRotation[3]) + (y * inverseRotation[4]) + (z * inverseRotation[5]),
      (x * inverseRotation[6]) + (y * inverseRotation[7]) + (z * inverseRotation[8])];
    [inverseRotation[0], inverseRotation[1], inverseRotation[2], translationInverse[0],
     inverseRotation[3], inverseRotation[4], inverseRotation[5], translationInverse[1],
     inverseRotation[6], inverseRotation[7], inverseRotation[8], translationInverse[2],
     0.0, 0.0, 0.0, 1.0]
  }

  /** The shape of the inverse: bottom row [0, 0, 0, 1], upper-left 3x3 the
   *  transpose of m's, translation the negated, back-rotated translation of m. */
  lemma InvertShape(m: Matrix4)
    ensures IsAffine(Invert(m))
    ensures forall x, y | 0 <= x < 3 && 0 <= y < 3 :: Get(Invert(m), x, y) == Get(m, y, x)
    ensures GetTranslation(Invert(m)) == V.Neg(Rotate(Transposed(m), GetTranslation(m)))
  {
    var t := Transposed(m);
    assert t[0] == m[0] && t[1] == m[4] && t[2] == m[8];
    assert t[4] == m[1] && t[5] == m[5] && t[6] == m[9];
    assert t[8] == m[2] && t[9] == m[6] && t[10] == m[10];
  }

  lemma InvertTranslation(t: V.Vec3)
    ensures Invert(Translation(t)) == Translation(V.Neg(t))
  {
    Equal16(Invert(Translation(t)), Translation(V.Neg(t)));
  }

  lemma InvertIdentity()
    ensures Invert(Identity) == Identity
  {
    Equal16(Invert(Identity), Identity);
  }

  /** For orthonormal axes the inverse undoes the matrix on every point. */
  lemma InvertUndoes(m: Matrix4, p: V.Vec3)
    requires HasOrthonormalAxes(m)
    ensures MultiplyVec(Invert(m), MultiplyVec(m, p)) == p
  {
    var t, inv := Transposed(m), Invert(m);
    var q := MultiplyVec(m, p);
    InvertShape(m);
    MultiplyVecIsRotatePlusTranslation(m, p);
    MultiplyVecIsRotatePlusTranslation(inv, q);
    assert Rotate(inv, q) == Rotate(t, q) by {
      assert inv[0] == t[0] && inv[1] == t[1] && inv[2] == t[2];
      assert inv[4] == t[4] && inv[5] == t[5] && inv[6] == t[6];
      assert inv[8] == t[8] && inv[9] == t[9] && inv[10] == t[10];
    }
    RotateIsLinear(t, Rotate(m, p), GetTranslation(m));
    RotateTransposeUndoes(m, p);
  }

  lemma RotateIsLinear(m: Matrix4, a: V.Vec3, b: V.Vec3)
    ensures Rotate(m, V.Add(a, b)) == V.Add(Rotate(m, a), Rotate(m, b))
  {
    RowDistributes(a, b, m[0], m[1], m[2]);
    RowDistributes(a, b, m[4], m[5], m[6]);
    RowDistributes(a, b, m[8], m[9], m[10]);
  }

  lemma RowDistributes(a: V.Vec3, b: V.Vec3, c0: real, c1: real, c2: real)
    ensures Row(a.x + b.x, a.y + b.y, a.z + b.z, c0, c1, c2) == Row(a.x, a.y, a.z, c0, c1, c2) + Row(b.x, b.y, b.z, c0, c1, c2)
  {
  }

  // ---------------------------------------------------------------------------
  // Scaling every element

  /** `scale(float)`: every element multiplied by s, listed through `get` row by row. */
  function ScaleBy(m: Matrix4, s: real): (r: Matrix4)
    ensures forall k | 0 <= k < 16 :: r[k] == m[k] * s
  {
    seq(16, k requires 0 <= k < 16 => Get(m, k % 4, k / 4) * s)
  }

  lemma ScaleByOne(m: Matrix4)
    ensures ScaleBy(m, 1.0) == m
  {
    Equal16(ScaleBy(m, 1.0), m);
  }

  /** Scaling the matrix scales every rotated vector by the same factor. */
  lemma ScaleByScalesRotation(m: Matrix4, s: real, v: V.Vec3)
    ensures Rotate(ScaleBy(m, s), v) == V.Scale(Rotate(m, v), s)
  {
    var r := ScaleBy(m, s);
    assert r[0] == m[0] * s && r[1] == m[1] * s && r[2] == m[2] * s;
    assert r[4] == m[4] * s && r[5] == m[5] * s && r[6] == m[6] * s;
    assert r[8] == m[8] * s && r[9] == m[9] * s && r[10] == m[10] * s;
    RotateScaled(m, r, s, v);
  }

  /** The upper 3x3 of r is that of m times s, so r rotates v to s times m's result. */
  lemma RotateScaled(m: Matrix4, r: Matrix4, s: real, v: V.Vec3)
    requires r[0] == m[0] * s && r[1] == m[1] * s && r[2] == m[2] * s
    requires r[4] == m[4] * s && r[5] == m[5] * s && r[6] == m[6] * s
    requires r[8] == m[8] * s && r[9] == m[9] * s && r[10] == m[10] * s
    ensures Rotate(r, v) == V.Scale(Rotate(m, v), s)
  {
    RowScales(v, r[0], r[1], r[2], m[0], m[1], m[2], s);
    RowScales(v, r[4], r[5], r[6], m[4], m[5], m[6], s);
    RowScales(v, r[8], r[9], r[10], m[8], m[9], m[10], s);
  }

  lemma RowScales(v: V.Vec3, d0: real, d1: real, d2: real, c0: real, c1: real, c2: real, s: real)
    requires d0 == c0 * s && d1 == c1 * s && d2 == c2 * s
    ensures Row(v.x, v.y, v.z, d0, d1, d2) == Row(v.x, v.y, v.z, c0, c1, c2) * s
  {
  }

  // ---------------------------------------------------------------------------
  // Trace and the quaternion conversion

  function Trace(m: Matrix4): real
  {
    Get(m, 0, 0) + Get(m, 1, 1) + Get(m, 2, 2)
  }

  lemma TraceLaws(a: Matrix4, b: Matrix4, v: V.Vec3)
    ensures Trace(a) == a[0] + a[5] + a[10]
    ensures Trace(Transposed(a)) == Trace(a)
    ensures Trace(Sum(a, b)) == Trace(a) + Trace(b)
    ensures Trace(AddVec(a, v)) == Trace(a) + v.x + v.y + v.z
    ensures Trace(Identity) == 3.0
  {
    var t := Transposed(a);
    assert Get(t, 0, 0) == Get(a, 0, 0) && Get(t, 1, 1) == Get(a, 1, 1) && Get(t, 2, 2) == Get(a, 2, 2);
  }

  /** The four cases of `toQuaternion`, in the order the source tests them. */
  datatype QuaternionBranch = TraceBranch | XBranch | YBranch | ZBranch

  /** QuaternionF is not part of this model: a quaternion is its four components. */
  datatype Quaternion = Quaternion(q0: real, q1: real, q2: real, q3: real)

  function Branch(m: Matrix4): QuaternionBranch
  {
    if Trace(m) > 0.0 then TraceBranch
    else if Get(m, 0, 0) > Get(m, 1, 1) && Get(m, 0, 0) > Get(m, 2, 2) then XBranch
    else if Get(m, 1, 1) > Get(m, 2, 2) then YBranch
    else ZBranch
  }

  /** Outside the trace case, the chosen branch is the largest diagonal entry. */
  lemma BranchPicksLargestDiagonal(m: Matrix4)
    ensures Branch(m) == TraceBranch <==> Trace(m) > 0.0
    ensures Branch(m) == XBranch ==> Get(m, 0, 0) > Get(m, 1, 1) && Get(m, 0, 0) > Get(m, 2, 2)
    ensures Branch(m) == YBranch ==> Get(m, 1, 1) >= Get(m, 0, 0) && Get(m, 1, 1) > Get(m, 2, 2)
    ensures Branch(m) == ZBranch ==> Get(m, 2, 2) >= Get(m, 0, 0) && Get(m, 2, 2) >= Get(m, 1, 1)
  {
  }

  /** The value whose square root each branch takes. */
  function SqrtArgument(m: Matrix4): real
  {
    match Branch(m)
    case TraceBranch => Trace(m) + 1.0
    case XBranch => 1.0 + Get(m, 0, 0) - Get(m, 1, 1) - Get(m, 2, 2)
    case YBranch => 1.0 + Get(m, 1, 1) - Get(m, 0, 0) - Get(m, 2, 2)
    case ZBranch => 1.0 + Get(m, 2, 2) - Get(m, 0, 0) - Get(m, 1, 1)
  }

  /** Every branch takes the square root of a number no smaller than 1, so the
   *  root is positive and no branch divides by zero. */
  lemma SqrtArgumentAtLeastOne(m: Matrix4)
    ensures SqrtArgument(m) >= 1.0
  {
  }

  /** `toQuaternion` as written.  `root` stands for the square root the source
   *  takes of `SqrtArgument(m)`: it is positive and squares to that number
   *  (which is at least 1 by `SqrtArgumentAtLeastOne`).  In the
   *  trace branch the source divides only the second term of each difference. */
  function ToQuaternion(m: Matrix4, root: real): Quaternion
    requires root > 0.0 && root * root == SqrtArgument(m)
  {
    match Branch(m)
    case TraceBranch =>
      var traceAddition := root * 2.0;
      var q0 := traceAddition * 0.25;
      var q04 := 4.0 * q0;
      Quaternion(q0,
                 Get(m, 2, 1) - Get(m, 1, 2) / q04,
                 Get(m, 0, 2) - Get(m, 2, 0) / q04,
                 Get(m, 1, 0) - Get(m, 0, 1) / q04)
    case XBranch =>
      var s := root * 2.0;
      Quaternion((Get(m, 2, 1) - Get(m, 1, 2)) / s, 0.25 * s, (Get(m, 0, 1) + Get(m, 1, 0)) / s, (Get(m, 0, 2) + Get(m, 2, 0)) / s)
    case YBranch =>
      var s := root * 2.0;
      Quaternion((Get(m, 0, 2) - Get(m, 2, 0)) / s, (Get(m, 0, 1) + Get(m, 1, 0)) / s, 0.25 * s, (Get(m, 1, 2) + Get(m, 2, 1)) / s)
    case ZBranch =>
      var s := root * 2.0;
      Quaternion((Get(m, 1, 0) - Get(m, 0, 1)) / s, (Get(m, 0, 2) + Get(m, 2, 0)) / s, (Get(m, 1, 2) + Get(m, 2, 1)) / s, 0.25 * s)
  }

  /** The conversion with the trace branch divided as in the other three branches. */
  function ToQuaternionCorrected(m: Matrix4, root: real): (q: Quaternion)
    requires root > 0.0 && root * root == SqrtArgument(m)
    ensures PivotRelations(m, q, Branch(m))
    ensures Pivot(q, Branch(m)) == root / 2.0
  {
    match Branch(m)
    case TraceBranch =>
      var traceAddition := root * 2.0;
      var q0 := traceAddition * 0.25;
      var q04 := 4.0 * q0;
      var q := Quaternion(q0,
                          (Get(m, 2, 1) - Get(m, 1, 2)) / q04,
                          (Get(m, 0, 2) - Get(m, 2, 0)) / q04,
                          (Get(m, 1, 0) - Get(m, 0, 1)) / q04);
      FourTimesCancels(q.q0, Get(m, 2, 1) - Get(m, 1, 2), q.q1, q04);
      FourTimesCancels(q.q0, Get(m, 0, 2) - Get(m, 2, 0), q.q2, q04);
      FourTimesCancels(q.q0, Get(m, 1, 0) - Get(m, 0, 1), q.q3, q04);
      q
    case XBranch =>
      var s := root * 2.0;
      var q := Quaternion((Get(m, 2, 1) - Get(m, 1, 2)) / s, 0.25 * s, (Get(m, 0, 1) + Get(m, 1, 0)) / s, (Get(m, 0, 2) + Get(m, 2, 0)) / s);
      FourTimesCancels(q.q1, Get(m, 2, 1) - Get(m, 1, 2), q.q0, s);
      FourTimesCancels(q.q1, Get(m, 0, 1) + Get(m, 1, 0), q.q2, s);
      FourTimesCancels(q.q1, Get(m, 0, 2) + Get(m, 2, 0), q.q3, s);
      q
    case YBranch =>
      var s := root * 2.0;
      var q := Quaternion((Get(m, 0, 2) - Get(m, 2, 0)) / s, (Get(m, 0, 1) + Get(m, 1, 0)) / s, 0.25 * s, (Get(m, 1, 2) + Get(m, 2, 1)) / s);
      FourTimesCancels(q.q2, Get(m, 0, 2) - Get(m, 2, 0), q.q0, s);
      FourTimesCancels(q.q2, Get(m, 0, 1) + Get(m, 1, 0), q.q1, s);
      FourTimesCancels(q.q2, Get(m, 1, 2) + Get(m, 2, 1), q.q3, s);
      q
    case ZBranch =>
      var s := root * 2.0;
      var q := Quaternion((Get(m, 1, 0) - Get(m, 0, 1)) / s, (Get(m, 0, 2) + Get(m, 2, 0)) / s, (Get(m, 1, 2) + Get(m, 2, 1)) / s, 0.25 * s);
      FourTimesCancels(q.q3, Get(m, 1, 0) - Get(m, 0, 1), q.q0, s);
      FourTimesCancels(q.q3, Get(m, 0, 2) + Get(m, 2, 0), q.q1, s);
      FourTimesCancels(q.q3, Get(m, 1, 2) + Get(m, 2, 1), q.q2, s);
      q
  }

  /** The pivot component of each branch. */
  function Pivot(q: Quaternion, b: QuaternionBranch): real
  {
    match b
    case TraceBranch => q.q0
    case XBranch => q.q1
    case YBranch => q.q2
    case ZBranch => q.q3
  }

  /** Four times the product of two quaternion components. */
  function FourTimes(p: real, q: real): real
  {
    4.0 * p * q
  }

  /** The relations each branch of the matrix-to-quaternion conversion rests on:
   *  four times the pivot times each other component is the matching difference
   *  or sum of off-diagonal entries. */
  predicate PivotRelations(m: Matrix4, q: Quaternion, b: QuaternionBranch)
  {
    match b
    case TraceBranch =>
      FourTimes(q.q0, q.q1) == Get(m, 2, 1) - Get(m, 1, 2) &&
      FourTimes(q.q0, q.q2) == Get(m, 0, 2) - Get(m, 2, 0) &&
      FourTimes(q.q0, q.q3) == Get(m, 1, 0) - Get(m, 0, 1)
    case XBranch =>
      FourTimes(q.q1, q.q0) == Get(m, 2, 1) - Get(m, 1, 2) &&
      FourTimes(q.q1, q.q2) == Get(m, 0, 1) + Get(m, 1, 0) &&
      FourTimes(q.q1, q.q3) == Get(m, 0, 2) + Get(m, 2, 0)
    case YBranch =>
      FourTimes(q.q2, q.q0) == Get(m, 0, 2) - Get(m, 2, 0) &&
      FourTimes(q.q2, q.q1) == Get(m, 0, 1) + Get(m, 1, 0) &&
      FourTimes(q.q2, q.q3) == Get(m, 1, 2) + Get(m, 2, 1)
    case ZBranch =>
      FourTimes(q.q3, q.q0) == Get(m, 1, 0) - Get(m, 0, 1) &&
      FourTimes(q.q3, q.q1) == Get(m, 0, 2) + Get(m, 2, 0) &&
      FourTimes(q.q3, q.q2) == Get(m, 1, 2) + Get(m, 2, 1)
  }

  lemma FourTimesCancels(pivot: real, d: real, q: real, s: real)
    requires s != 0.0 && 4.0 * pivot == s && q == d / s
    ensures FourTimes(pivot, q) == d
  {
  }

  /** The two conversions differ only in the trace branch, and only off the pivot. */
  lemma ToQuaternionDiffersOnlyInTraceBranch(m: Matrix4, root: real)
    requires root > 0.0 && root * root == SqrtArgument(m)
    ensures ToQuaternion(m, root).q0 == ToQuaternionCorrected(m, root).q0
    ensures Branch(m) != TraceBranch ==> ToQuaternion(m, root) == ToQuaternionCorrected(m, root)
  {
  }

  /** A rotation by the angle with cosine -0.28 and sine 0.96 about the x axis. */
  const SampleRotationX: Matrix4 :=
    [1.0, 0.0, 0.0, 0.0,
     0.0, -0.28, -0.96, 0.0,
     0.0, 0.96, -0.28, 0.0,
     0.0, 0.0, 0.0, 1.0]

  /** On this rotation the trace branch is taken with square root 1.2.  As written,
   *  the x component comes out as -1.36, breaking 4 q0 q1 = get(2,1) - get(1,2) and
   *  giving no unit quaternion; the corrected division gives -0.8. */
  lemma ToQuaternionTraceBranchCounterexample()
    ensures IsLinear(SampleRotationX) && HasOrthonormalAxes(SampleRotationX)
    ensures Branch(SampleRotationX) == TraceBranch
    ensures 1.2 * 1.2 == SqrtArgument(SampleRotationX)
    ensures ToQuaternion(SampleRotationX, 1.2) == Quaternion(0.6, -1.36, 0.0, 0.0)
    ensures !PivotRelations(SampleRotationX, ToQuaternion(SampleRotationX, 1.2), TraceBranch)
    ensures ToQuaternionCorrected(SampleRotationX, 1.2) == Quaternion(0.6, -0.8, 0.0, 0.0)
  {
    var m := SampleRotationX;
    assert Trace(m) == 0.44;
    assert Get(m, 2, 1) == -0.96 && Get(m, 1, 2) == 0.96;
    assert Get(m, 0, 2) == 0.0 && Get(m, 2, 0) == 0.0 && Get(m, 1, 0) == 0.0 && Get(m, 0, 1) == 0.0;
  }

  // ---------------------------------------------------------------------------
  // Orthographic projection

  /** `OrthographicProjection(width, height, near, far)`, with right = width,
   *  top = -height, left = -width, bottom = height; the source divides by
   *  2 width, -2 height and far - near. */
  function OrthographicProjection(width: real, height: real, near: real, far: real): Matrix4
    requires width != 0.0 && height != 0.0 && far != near
  {
    var right, top, left, bottom := width, -height, -width, height;
    [2.0 / (right - left), 0.0, 0.0, -(right + left) / (right - left),
     0.0, 2.0 / (top - bottom), 0.0, -(top + bottom) / (top - bottom),
     0.0, 0.0, -2.0 / (far - near), -(far + near) / (far - near),
     0.0, 0.0, 0.0, 1.0]
  }

  /** The view box goes onto the cube [-1, 1]^3: (width, -height, -near) onto
   *  (1, 1, -1) and (-width, height, -far) onto (-1, -1, 1). */
  lemma OrthographicMapsViewBox(width: real, height: real, near: real, far: real)
    requires width != 0.0 && height != 0.0 && far != near
    ensures IsAffine(OrthographicProjection(width, height, near, far))
    ensures MultiplyVec(OrthographicProjection(width, height, near, far), V.Vec3(width, -height, -near)) == V.Vec3(1.0, 1.0, -1.0)
    ensures MultiplyVec(OrthographicProjection(width, height, near, far), V.Vec3(-width, height, -far)) == V.Vec3(-1.0, -1.0, 1.0)
  {
    var m := OrthographicProjection(width, height, near, far);
    assert m[0] == 1.0 / width && m[3] == 0.0;
    assert m[5] == -1.0 / height && m[7] == 0.0;
    OrthographicDepth(near, far, m[10], m[11]);
    OverSelf(width, m[0]);
    OverSelf(height, -m[5]);
  }

  lemma OrthographicDepth(near: real, far: real, c: real, d: real)
    requires far != near && c == -2.0 / (far - near) && d == -(far + near) / (far - near)
    ensures Row(0.0, 0.0, -near, 0.0, 0.0, c) + d == -1.0
    ensures Row(0.0, 0.0, -far, 0.0, 0.0, c) + d == 1.0
  {
    var w := far - near;
    assert c * w == -2.0;
    assert d * w == -(far + near);
  }

  lemma OverSelf(a: real, r: real)
    requires a != 0.0 && r == 1.0 / a
    ensures a * r == 1.0 && (-a) * r == -1.0
    ensures Row(a, 0.0, 0.0, r, 0.0, 0.0) == 1.0 && Row(-a, 0.0, 0.0, r, 0.0, 0.0) == -1.0
  {
  }
}
