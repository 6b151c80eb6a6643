/** Two-by-two double matrices (Matrix2d.java) over exact reals.  A matrix is its
 *  four flat elements; `get(x, y)` reads element `y * 2 + x`, so x selects the
 *  column and y the row. */
module Matrix2d {
  const SIZE := 2

  /** The constructor's `assert elements.length == SIZE * SIZE`, carried by the type. */
  type Matrix2 = s: seq<real> | |s| == 4 witness [0.0, 0.0, 0.0, 0.0]

  /** A stand-in for Vec2d, of which only the two components and `dot` are used. */
  datatype Vec2 = Vec2(x: real, y: real)

  function Dot(a: Vec2, b: Vec2): real
  {
    a.x * b.x + a.y * b.y
  }

  /** `get(x, y)`: defined wherever the flat index lies inside the array. */
  function Get(m: Matrix2, x: int, y: int): real
    requires 0 <= y * SIZE + x < 4
  {
    m[y * SIZE + x]
  }

  const Identity: Matrix2 := [1.0, 0.0, 0.0, 1.0]
  const Empty: Matrix2 := [0.0, 0.0, 0.0, 0.0]

  /** The diagonal matrix diag(v.x, v.y). */
  function Diagonal(v: Vec2): Matrix2
  {
    [v.x, 0.0, 0.0, v.y]
  }

  /** Two matrices are equal once their four elements are. */
  lemma Equal4(a: Matrix2, b: Matrix2)
    requires a[0] == b[0] && a[1] == b[1] && a[2] == b[2] && a[3] == b[3]
    ensures a == b
  {
    forall k | 0 <= k < 4
      ensures a[k] == b[k]
    {
      assert k == 0 || k == 1 || k == 2 || k == 3;
    }
  }

  // ---------------------------------------------------------------------------
  // Sums

  /** `add(Matrix2d)`: the four entries, listed through `get`, summed pairwise. */
  function Sum(a: Matrix2, b: Matrix2): (r: Matrix2)
    ensures forall k | 0 <= k < 4 :: r[k] == a[k] + b[k]
  {
    [Get(a, 0, 0) + Get(b, 0, 0), Get(a, 1, 0) + Get(b, 1, 0),
     Get(a, 0, 1) + Get(b, 0, 1), Get(a, 1, 1) + Get(b, 1, 1)]
  }

  /** The sum is commutative and associative, and `Empty` is its unit. */
  lemma SumLaws(a: Matrix2, b: Matrix2, c: Matrix2)
    ensures Sum(a, b) == Sum(b, a)
    ensures Sum(Sum(a, b), c) == Sum(a, Sum(b, c))
    ensures Sum(a, Empty) == a && Sum(Empty, a) == a
  {
    Equal4(Sum(a, b), Sum(b, a));
    Equal4(Sum(Sum(a, b), c), Sum(a, Sum(b, c)));
    Equal4(Sum(a, Empty), a);
    Equal4(Sum(Empty, a), a);
  }

  /** `add(Vec2d)` as written: the last element is `get(1, 0) + y`, the
   *  off-diagonal element plus y, rather than `get(1, 1) + y`. */
  function AddVec(m: Matrix2, v: Vec2): (r: Matrix2)
    ensures r[0] == m[0] + v.x && r[1] == m[1] && r[2] == m[2]
    ensures r[3] == m[1] + v.y
  {
    [Get(m, 0, 0) + v.x, Get(m, 1, 0),
     Get(m, 0, 1), Get(m, 1, 0) + v.y]
  }

  /** `add(Vec2d)` as its documentation describes it: v goes onto the diagonal. */
  function AddToDiagonal(m: Matrix2, v: Vec2): (r: Matrix2)
    ensures r == Sum(m, Diagonal(v))
  {
    var r := [Get(m, 0, 0) + v.x, Get(m, 1, 0),
              Get(m, 0, 1), Get(m, 1, 1) + v.y];
    Equal4(r, Sum(m, Diagonal(v)));
    r
  }

  /** The written `add(Vec2d)` agrees with the diagonal sum exactly when the
   *  off-diagonal element `get(1, 0)` happens to equal `get(1, 1)`. */
  lemma AddVecAgreesOnlyWhenEntriesMatch(m: Matrix2, v: Vec2)
    ensures AddVec(m, v) == AddToDiagonal(m, v) <==> m[1] == m[3]
  {
    if m[1] == m[3] {
      Equal4(AddVec(m, v), AddToDiagonal(m, v));
    } else {
      assert AddVec(m, v)[3] != AddToDiagonal(m, v)[3];
    }
  }

  /** Adding (1, 1) to the identity yields [2, 0, 0, 1], not diag(2, 2). */
  lemma AddVecCounterexample()
    ensures AddVec(Identity, Vec2(1.0, 1.0)) == [2.0, 0.0, 0.0, 1.0]
    ensures AddToDiagonal(Identity, Vec2(1.0, 1.0)) == [2.0, 0.0, 0.0, 2.0]
  {
  }

  // ---------------------------------------------------------------------------
  // Scaling

  /** `scale(s)`: every element, in order, multiplied by s. */
  function Scale(m: Matrix2, s: real): (r: Matrix2)
    ensures forall k | 0 <= k < 4 :: r[k] == m[k] * s
  {
    seq(4, k requires 0 <= k < 4 => m[k] * s)
  }

  /** Scaling by 1 changes nothing and scaling by 0 gives `Empty`. */
  lemma ScaleUnits(a: Matrix2)
    ensures Scale(a, 1.0) == a
    ensures Scale(a, 0.0) == Empty
  {
    Equal4(Scale(a, 1.0), a);
    Equal4(Scale(a, 0.0), Empty);
  }

  /** Scaling distributes over the sum. */
  lemma ScaleDistributes(a: Matrix2, b: Matrix2, s: real)
    ensures Scale(Sum(a, b), s) == Sum(Scale(a, s), Scale(b, s))
  {
    var l, r := Scale(Sum(a, b), s), Sum(Scale(a, s), Scale(b, s));
    Distributes(a[0], b[0], s);
    Distributes(a[1], b[1], s);
    Distributes(a[2], b[2], s);
    Distributes(a[3], b[3], s);
    Equal4(l, r);
  }

  lemma Distributes(p: real, q: real, s: real)
    ensures (p + q) * s == p * s + q * s
  {
  }

  // ---------------------------------------------------------------------------
  // Matrix product

  /** `getRow(i)`: the two entries of row i. */
  function GetRow(m: Matrix2, i: int): (r: Vec2)
    requires 0 <= i < SIZE
    ensures r == Vec2(m[i * SIZE], m[i * SIZE + 1])
  {
    Vec2(Get(m, 0, i), Get(m, 1, i))
  }

  /** `getCol(i)`: the two entries of column i. */
  function GetCol(m: Matrix2, i: int): (r: Vec2)
    requires 0 <= i < SIZE
    ensures r == Vec2(m[i], m[SIZE + i])
  {
    Vec2(Get(m, i, 0), Get(m, i, 1))
  }

  /** The matrix `a.multiply(b)` builds: element i * 2 + j is row i of a dotted
   *  with column j of b, which spelled out is the row-major product a times b. */
  function Product(a: Matrix2, b: Matrix2): (r: Matrix2)
    ensures r[0] == a[0] * b[0] + a[1] * b[2] && r[1] == a[0] * b[1] + a[1] * b[3]
    ensures r[2] == a[2] * b[0] + a[3] * b[2] && r[3] == a[2] * b[1] + a[3] * b[3]
  {
    [Dot(GetRow(a, 0), GetCol(b, 0)), Dot(GetRow(a, 0), GetCol(b, 1)),
     Dot(GetRow(a, 1), GetCol(b, 0)), Dot(GetRow(a, 1), GetCol(b, 1))]
  }

  /** Element i * 2 + j of the product, for the loop's symbolic i and j. */
  lemma ProductAt(a: Matrix2, b: Matrix2, i: int, j: int)
    requires 0 <= i < SIZE && 0 <= j < SIZE
    ensures Product(a, b)[i * SIZE + j] == Dot(GetRow(a, i), GetCol(b, j))
  {
    if i == 0 {
      if j == 0 { assert i * SIZE + j == 0; } else { assert i * SIZE + j == 1; }
    } else {
      if j == 0 { assert i * SIZE + j == 2; } else { assert i * SIZE + j == 3; }
    }
  }

  /** `multiply(Matrix2d)`: row i outer, column j inner, each entry one dot product. */
  method Multiply(a: Matrix2, b: Matrix2) returns (r: Matrix2)
    ensures r == Product(a, b)
  {
    ghost var spec := Product(a, b);
    var newElements := new real[SIZE * SIZE](_ => 0.0);
    for i := 0 to SIZE
      invariant forall k | 0 <= k < 4 ::
        newElements[k] == if k / SIZE < i then spec[k] else 0.0
    {
      for j := 0 to SIZE
        invariant forall k | 0 <= k < 4 ::
          newElements[k] == if k / SIZE < i || (k / SIZE == i && k % SIZE < j) then spec[k] else 0.0
      {
        ProductAt(a, b, i, j);
        newElements[i * SIZE + j] := Dot(GetRow(a, i), GetCol(b, j));
      }
    }
    r := newElements[..];
    assert r == spec;
  }

  /** The identity is a unit of the product on both sides. */
  lemma IdentityIsUnit(m: Matrix2)
    ensures Product(Identity, m) == m
    ensures Product(m, Identity) == m
  {
    Equal4(Product(Identity, m), m);
    Equal4(Product(m, Identity), m);
  }

  // ---------------------------------------------------------------------------
  // Element-wise product

  /** The matrix `a.elementMultiply(b)` builds: entry (x, y) is the product of
   *  the two entries at (x, y). */
  function Hadamard(a: Matrix2, b: Matrix2): (r: Matrix2)
    ensures forall x, y | 0 <= x < SIZE && 0 <= y < SIZE :: Get(r, x, y) == Get(a, x, y) * Get(b, x, y)
  {
    var r := seq(4, k requires 0 <= k < 4 => a[k] * b[k]);
    assert forall x, y | 0 <= x < SIZE && 0 <= y < SIZE :: Get(r, x, y) == r[y * SIZE + x];
    r
  }

  /** `elementMultiply`: column i outer, row j inner, writing element j * 2 + i. */
  method ElementMultiply(a: Matrix2, b: Matrix2) returns (r: Matrix2)
    ensures r == Hadamard(a, b)
  {
    ghost var spec := Hadamard(a, b);
    var newElements := new real[SIZE * SIZE](_ => 0.0);
    for i := 0 to SIZE
      invariant forall k | 0 <= k < 4 ::
        newElements[k] == if k % SIZE < i then spec[k] else 0.0
    {
      for j := 0 to SIZE
        invariant forall k | 0 <= k < 4 ::
          newElements[k] == if k % SIZE < i || (k % SIZE == i && k / SIZE < j) then spec[k] else 0.0
      {
        assert Get(spec, i, j) == Get(a, i, j) * Get(b, i, j);
        newElements[j * SIZE + i] := Get(a, i, j) * Get(b, i, j);
      }
    }
    r := newElements[..];
    assert r == spec;
  }

  /** The matrix of ones. */
  const Ones: Matrix2 := [1.0, 1.0, 1.0, 1.0]

  /** The element-wise product is commutative, has the matrix of ones as its
   *  unit and `Empty` as its zero, and keeps just the diagonal against `Identity`. */
  lemma HadamardLaws(a: Matrix2, b: Matrix2)
    ensures Hadamard(a, b) == Hadamard(b, a)
    ensures Hadamard(a, Ones) == a
    ensures Hadamard(a, Empty) == Empty
    ensures Hadamard(a, Identity) == Diagonal(Vec2(a[0], a[3]))
  {
    var ab, ba := Hadamard(a, b), Hadamard(b, a);
    assert Get(ab, 0, 0) == Get(ba, 0, 0) && Get(ab, 1, 0) == Get(ba, 1, 0);
    assert Get(ab, 0, 1) == Get(ba, 0, 1) && Get(ab, 1, 1) == Get(ba, 1, 1);
    Equal4(ab, ba);
    var o, e, d := Hadamard(a, Ones), Hadamard(a, Empty), Hadamard(a, Identity);
    assert Get(o, 0, 0) == a[0] && Get(o, 1, 0) == a[1] && Get(o, 0, 1) == a[2] && Get(o, 1, 1) == a[3];
    Equal4(o, a);
    assert Get(e, 0, 0) == 0.0 && Get(e, 1, 0) == 0.0 && Get(e, 0, 1) == 0.0 && Get(e, 1, 1) == 0.0;
    Equal4(e, Empty);
    assert Get(d, 0, 0) == a[0] && Get(d, 1, 0) == 0.0 && Get(d, 0, 1) == 0.0 && Get(d, 1, 1) == a[3];
    Equal4(d, Diagonal(Vec2(a[0], a[3])));
  }

  // ---------------------------------------------------------------------------
  // Matrix times vector

  /** `multiply(Vec2d)`: the two rows, each against the vector. */
  function MultiplyVec(m: Matrix2, v: Vec2): (r: Vec2)
    ensures r == Vec2(Dot(GetRow(m, 0), v), Dot(GetRow(m, 1), v))
  {
    Vec2(Get(m, 0, 0) * v.x + Get(m, 1, 0) * v.y,
         Get(m, 0, 1) * v.x + Get(m, 1, 1) * v.y)
  }

  /** The identity fixes every vector and `Empty` sends each to zero. */
  lemma MultiplyVecUnits(v: Vec2)
    ensures MultiplyVec(Identity, v) == v
    ensures MultiplyVec(Empty, v) == Vec2(0.0, 0.0)
  {
  }

  /** Multiplying by a product is multiplying by its factors, right factor first. */
  lemma ProductComposes(a: Matrix2, b: Matrix2, v: Vec2)
    ensures MultiplyVec(Product(a, b), v) == MultiplyVec(a, MultiplyVec(b, v))
  {
    var p, w := Product(a, b), MultiplyVec(b, v);
    Regroup(p[0], p[1], a[0], a[1], b[0], b[1], b[2], b[3], v.x, v.y, w.x, w.y);
    Regroup(p[2], p[3], a[2], a[3], b[0], b[1], b[2], b[3], v.x, v.y, w.x, w.y);
  }

  /** One row of the composition, with every product spelled out over reals. */
  lemma Regroup(p0: real, p1: real, r0: real, r1: real, b0: real, b1: real, b2: real, b3: real,
                x: real, y: real, w0: real, w1: real)
    requires p0 == r0 * b0 + r1 * b2 && p1 == r0 * b1 + r1 * b3
    requires w0 == b0 * x + b1 * y && w1 == b2 * x + b3 * y
    ensures p0 * x + p1 * y == r0 * w0 + r1 * w1
  {
  }

  // ---------------------------------------------------------------------------
  // Determinant

  /** `det`: get(0,0) * get(1,1) - get(1,0) * get(0,1). */
  function Det(m: Matrix2): (r: real)
    ensures r == m[0] * m[3] - m[1] * m[2]
  {
    (Get(m, 0, 0) * Get(m, 1, 1)) - (Get(m, 1, 0) * Get(m, 0, 1))
  }

  lemma DetValues()
    ensures Det(Identity) == 1.0
    ensures Det(Empty) == 0.0
    ensures Det(Diagonal(Vec2(2.0, 3.0))) == 6.0
  {
  }

  /** The determinant is multiplicative. */
  lemma DetOfProduct(a: Matrix2, b: Matrix2)
    ensures Det(Product(a, b)) == Det(a) * Det(b)
  {
    var p := Product(a, b);
    DetIdentity(p[0], p[1], p[2], p[3], a[0], a[1], a[2], a[3], b[0], b[1], b[2], b[3],
                Det(p), Det(a), Det(b));
  }

  lemma DetIdentity(p0: real, p1: real, p2: real, p3: real,
                    a0: real, a1: real, a2: real, a3: real, b0: real, b1: real, b2: real, b3: real,
                    dp: real, da: real, db: real)
    requires p0 == a0 * b0 + a1 * b2 && p1 == a0 * b1 + a1 * b3
    requires p2 == a2 * b0 + a3 * b2 && p3 == a2 * b1 + a3 * b3
    requires dp == p0 * p3 - p1 * p2 && da == a0 * a3 - a1 * a2 && db == b0 * b3 - b1 * b2
    ensures dp == da * db
  {
  }

  /** Scaling a 2x2 matrix by s scales its determinant by s squared. */
  lemma DetOfScale(m: Matrix2, s: real)
    ensures Det(Scale(m, s)) == s * s * Det(m)
  {
    var r := Scale(m, s);
    ScaledDet(r[0], r[1], r[2], r[3], m[0], m[1], m[2], m[3], s, Det(r), Det(m));
  }

  lemma ScaledDet(d0: real, d1: real, d2: real, d3: real, e0: real, e1: real, e2: real, e3: real,
                  s: real, dr: real, dm: real)
    requires d0 == e0 * s && d1 == e1 * s && d2 == e2 * s && d3 == e3 * s
    requires dr == d0 * d3 - d1 * d2 && dm == e0 * e3 - e1 * e2
    ensures dr == s * s * dm
  {
  }
}
