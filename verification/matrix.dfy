/** Row-major 4×4 matrices and 4-vectors over the reals.

    A matrix is a flat sequence of 16 numbers in which entry (row, col) sits at
    index row * 4 + col; a vector is a sequence of 4 numbers. The operations
    mirror the vector/matrix helpers of the renderer: a 4-term dot product,
    row and column extraction by index arithmetic, and the product loop that
    fills entry n with row n / 4 of the left factor dotted with column n % 4
    of the right one. `Mul` is the textbook product the loop is proved to
    compute. Numbers are mathematical reals, not 32-bit floats.
 */
module Matrix {

  type Vec4 = v: seq<real> | |v| == 4 witness [0.0, 0.0, 0.0, 0.0]
  type Mat4 = m: seq<real> | |m| == 16 witness seq(16, _ => 0.0)

  /** Entry (row, col) of a row-major matrix. */
  function Get(m: Mat4, row: int, col: int): real
    requires 0 <= row < 4 && 0 <= col < 4
  {
    m[row * 4 + col]
  }

  /** The homogeneous point (x, y, z, 1). */
  function Point(x: real, y: real, z: real): Vec4
  {
    [x, y, z, 1.0]
  }

  /** The dot product of two 4-vectors, as the textbook sum. */
  function Dot(a: Vec4, b: Vec4): real
  {
    a[0] * b[0] + a[1] * b[1] + a[2] * b[2] + a[3] * b[3]
  }

  /** Sum of the first n products, in the order the accumulating loop adds them. */
  function PartialDot(a: Vec4, b: Vec4, n: nat): real
    requires n <= 4
  {
    if n == 0 then 0.0 else PartialDot(a, b, n - 1) + a[n - 1] * b[n - 1]
  }

  /** The accumulating loop of `vec4_dot`. */
  method Vec4Dot(a: Vec4, b: Vec4) returns (r: real)
    ensures r == Dot(a, b)
  {
    r := 0.0;
    var i := 0;
    while i < 4
      invariant 0 <= i <= 4
      invariant r == PartialDot(a, b, i)
    {
      r := r + a[i] * b[i];
      i := i + 1;
    }
    assert PartialDot(a, b, 1) == a[0] * b[0];
    assert PartialDot(a, b, 2) == a[0] * b[0] + a[1] * b[1];
    assert PartialDot(a, b, 3) == a[0] * b[0] + a[1] * b[1] + a[2] * b[2];
  }

  /** `mat4x4_row`: the four entries starting at index row * 4. */
  function Row(a: Mat4, row: int): (r: Vec4)
    requires 0 <= row < 4
    ensures forall k :: 0 <= k < 4 ==> r[k] == Get(a, row, k)
  {
    a[row * 4 .. row * 4 + 4]
  }

  /** `mat4x4_col`: every fourth entry, starting at index col. */
  function Col(a: Mat4, col: int): (r: Vec4)
    requires 0 <= col < 4
    ensures forall k :: 0 <= k < 4 ==> r[k] == Get(a, k, col)
  {
    seq(4, i requires 0 <= i < 4 => a[i * 4 + col])
  }

  /** Entry (i, j) of the product a·b: the sum over k of a(i, k)·b(k, j). */
  function ProductEntry(a: Mat4, b: Mat4, i: int, j: int): real
    requires 0 <= i < 4 && 0 <= j < 4
  {
    Get(a, i, 0) * Get(b, 0, j) + Get(a, i, 1) * Get(b, 1, j)
    + Get(a, i, 2) * Get(b, 2, j) + Get(a, i, 3) * Get(b, 3, j)
  }

  /** The textbook matrix product, entry by entry. */
  function Mul(a: Mat4, b: Mat4): Mat4
  {
    seq(16, n requires 0 <= n < 16 => ProductEntry(a, b, n / 4, n % 4))
  }

  /** Entry (i, j) of a·b sits at index i * 4 + j. */
  lemma MulEntry(a: Mat4, b: Mat4, i: int, j: int)
    requires 0 <= i < 4 && 0 <= j < 4
    ensures Get(Mul(a, b), i, j) == ProductEntry(a, b, i, j)
  {
    assert (i * 4 + j) / 4 == i && (i * 4 + j) % 4 == j;
  }

  /** Row `row` of a dotted with column `col` of b is entry (row, col) of the product. */
  lemma DotRowCol(a: Mat4, b: Mat4, row: int, col: int)
    requires 0 <= row < 4 && 0 <= col < 4
    ensures Dot(Row(a, row), Col(b, col)) == ProductEntry(a, b, row, col)
  {
    var r, c := Row(a, row), Col(b, col);
    assert r[0] == Get(a, row, 0) && c[0] == Get(b, 0, col);
    assert r[1] == Get(a, row, 1) && c[1] == Get(b, 1, col);
    assert r[2] == Get(a, row, 2) && c[2] == Get(b, 2, col);
    assert r[3] == Get(a, row, 3) && c[3] == Get(b, 3, col);
  }

  /** The loop of `mat4x4_mul`: entry n is row n / 4 of a dotted with column
      n % 4 of b. It computes the textbook product. */
  method Mat4Mul(a: Mat4, b: Mat4) returns (r: Mat4)
    ensures forall i, j :: 0 <= i < 4 && 0 <= j < 4 ==> Get(r, i, j) == ProductEntry(a, b, i, j)
    ensures r == Mul(a, b)
  {
    var data: seq<real> := [];
    var n := 0;
    while n < 16
      invariant 0 <= n <= 16 && |data| == n
      invariant forall k :: 0 <= k < n ==> data[k] == ProductEntry(a, b, k / 4, k % 4)
    {
      var row := n / 4;
      var col := n % 4;
      var d := Vec4Dot(Row(a, row), Col(b, col));
      DotRowCol(a, b, row, col);
      data := data + [d];
      n := n + 1;
    }
    r := data;
    forall i, j | 0 <= i < 4 && 0 <= j < 4
      ensures Get(r, i, j) == ProductEntry(a, b, i, j)
    {
      assert (i * 4 + j) / 4 == i && (i * 4 + j) % 4 == j;
    }
  }

  /** Matrix times column vector: component i is row i of m dotted with v. */
  function Apply(m: Mat4, v: Vec4): Vec4
  {
    seq(4, i requires 0 <= i < 4 => Get(m, i, 0) * v[0] + Get(m, i, 1) * v[1] + Get(m, i, 2) * v[2] + Get(m, i, 3) * v[3])
  }

  const Identity: Mat4 := [1.0, 0.0, 0.0, 0.0,
                           0.0, 1.0, 0.0, 0.0,
                           0.0, 0.0, 1.0, 0.0,
                           0.0, 0.0, 0.0, 1.0]

  /** Two vectors that agree component by component are equal. */
  lemma VectorsEqual(u: Vec4, v: Vec4)
    requires u[0] == v[0] && u[1] == v[1] && u[2] == v[2] && u[3] == v[3]
    ensures u == v
  {
  }

  /** Two matrices that agree on every (row, col) entry are equal. */
  lemma EqualByEntries(m1: Mat4, m2: Mat4)
    requires forall i, j :: 0 <= i < 4 && 0 <= j < 4 ==> Get(m1, i, j) == Get(m2, i, j)
    ensures m1 == m2
  {
    forall n | 0 <= n < 16
      ensures m1[n] == m2[n]
    {
      assert Get(m1, n / 4, n % 4) == Get(m2, n / 4, n % 4);
    }
  }

  lemma MulIdentityLeft(m: Mat4)
    ensures Mul(Identity, m) == m
  {
    forall i, j | 0 <= i < 4 && 0 <= j < 4
      ensures Get(Mul(Identity, m), i, j) == Get(m, i, j)
    {
      MulEntry(Identity, m, i, j);
    }
    EqualByEntries(Mul(Identity, m), m);
  }

  lemma MulIdentityRight(m: Mat4)
    ensures Mul(m, Identity) == m
  {
    forall i, j | 0 <= i < 4 && 0 <= j < 4
      ensures Get(Mul(m, Identity), i, j) == Get(m, i, j)
    {
      MulEntry(m, Identity, i, j);
    }
    EqualByEntries(Mul(m, Identity), m);
  }

  /** Entry (i, j) of a product is row i of the left factor dotted with column j of the right. */
  lemma MulEntryDot(a: Mat4, b: Mat4, i: int, j: int)
    requires 0 <= i < 4 && 0 <= j < 4
    ensures Get(Mul(a, b), i, j) == Dot(Row(a, i), Col(b, j))
  {
    MulEntry(a, b, i, j);
    DotRowCol(a, b, i, j);
  }

  /** Row i of a·b: row i of a dotted with each column of b. */
  lemma RowOfMul(a: Mat4, b: Mat4, i: int)
    requires 0 <= i < 4
    ensures Row(Mul(a, b), i)
         == [Dot(Row(a, i), Col(b, 0)), Dot(Row(a, i), Col(b, 1)),
             Dot(Row(a, i), Col(b, 2)), Dot(Row(a, i), Col(b, 3))]
  {
    MulEntryDot(a, b, i, 0);
    MulEntryDot(a, b, i, 1);
    MulEntryDot(a, b, i, 2);
    MulEntryDot(a, b, i, 3);
  }

  /** Column j of a·b: each row of a dotted with column j of b. */
  lemma ColOfMul(a: Mat4, b: Mat4, j: int)
    requires 0 <= j < 4
    ensures Col(Mul(a, b), j)
         == [Dot(Row(a, 0), Col(b, j)), Dot(Row(a, 1), Col(b, j)),
             Dot(Row(a, 2), Col(b, j)), Dot(Row(a, 3), Col(b, j))]
  {
    MulEntryDot(a, b, 0, j);
    MulEntryDot(a, b, 1, j);
    MulEntryDot(a, b, 2, j);
    MulEntryDot(a, b, 3, j);
  }

  /** (p0 + p1 + p2 + p3)·c distributes over the sum. */
  lemma DistribRight(p0: real, p1: real, p2: real, p3: real, c: real)
    ensures (p0 + p1 + p2 + p3) * c == p0 * c + p1 * c + p2 * c + p3 * c
  {
  }

  /** x·(q0 + q1 + q2 + q3) distributes over the sum. */
  lemma DistribLeft(x: real, q0: real, q1: real, q2: real, q3: real)
    ensures x * (q0 + q1 + q2 + q3) == x * q0 + x * q1 + x * q2 + x * q3
  {
  }

  /** The sum over l of (x·column l of m)·y[l] equals the sum over k of
      x[k]·(row k of m·y): both are the sum of the sixteen terms x[k]·m(k,l)·y[l]. */
  lemma RegroupTerms(x: Vec4, m: Mat4, y: Vec4)
    ensures Dot([Dot(x, Col(m, 0)), Dot(x, Col(m, 1)), Dot(x, Col(m, 2)), Dot(x, Col(m, 3))], y)
         == Dot(x, [Dot(Row(m, 0), y), Dot(Row(m, 1), y), Dot(Row(m, 2), y), Dot(Row(m, 3), y)])
  {
    DistribRight(x[0] * m[0], x[1] * m[4], x[2] * m[8], x[3] * m[12], y[0]);
    DistribRight(x[0] * m[1], x[1] * m[5], x[2] * m[9], x[3] * m[13], y[1]);
    DistribRight(x[0] * m[2], x[1] * m[6], x[2] * m[10], x[3] * m[14], y[2]);
    DistribRight(x[0] * m[3], x[1] * m[7], x[2] * m[11], x[3] * m[15], y[3]);
    DistribLeft(x[0], m[0] * y[0], m[1] * y[1], m[2] * y[2], m[3] * y[3]);
    DistribLeft(x[1], m[4] * y[0], m[5] * y[1], m[6] * y[2], m[7] * y[3]);
    DistribLeft(x[2], m[8] * y[0], m[9] * y[1], m[10] * y[2], m[11] * y[3]);
    DistribLeft(x[3], m[12] * y[0], m[13] * y[1], m[14] * y[2], m[15] * y[3]);
  }

  /** One entry of (a·b)·c equals the same entry of a·(b·c). */
  lemma MulAssocEntry(a: Mat4, b: Mat4, c: Mat4, i: int, j: int)
    requires 0 <= i < 4 && 0 <= j < 4
    ensures Get(Mul(Mul(a, b), c), i, j) == Get(Mul(a, Mul(b, c)), i, j)
  {
    MulEntryDot(Mul(a, b), c, i, j);
    MulEntryDot(a, Mul(b, c), i, j);
    RowOfMul(a, b, i);
    ColOfMul(b, c, j);
    RegroupTerms(Row(a, i), b, Col(c, j));
  }

  /** The product is associative over the reals. */
  lemma MulAssoc(a: Mat4, b: Mat4, c: Mat4)
    ensures Mul(Mul(a, b), c) == Mul(a, Mul(b, c))
  {
    forall i, j | 0 <= i < 4 && 0 <= j < 4
      ensures Get(Mul(Mul(a, b), c), i, j) == Get(Mul(a, Mul(b, c)), i, j)
    {
      MulAssocEntry(a, b, c, i, j);
    }
    EqualByEntries(Mul(Mul(a, b), c), Mul(a, Mul(b, c)));
  }

  /** Component i of a matrix-vector product is row i dotted with the vector. */
  lemma ApplyRow(m: Mat4, v: Vec4, i: int)
    requires 0 <= i < 4
    ensures Apply(m, v)[i] == Dot(Row(m, i), v)
  {
    var r := Row(m, i);
    assert r[0] == Get(m, i, 0) && r[1] == Get(m, i, 1) && r[2] == Get(m, i, 2) && r[3] == Get(m, i, 3);
  }

  /** Transforming by a product applies the right factor first: (a·b)·v == a·(b·v). */
  lemma ApplyMul(a: Mat4, b: Mat4, v: Vec4)
    ensures Apply(Mul(a, b), v) == Apply(a, Apply(b, v))
  {
    forall i | 0 <= i < 4
      ensures Apply(Mul(a, b), v)[i] == Apply(a, Apply(b, v))[i]
    {
      ApplyRow(Mul(a, b), v, i);
      ApplyRow(a, Apply(b, v), i);
      RowOfMul(a, b, i);
      ApplyRow(b, v, 0);
      ApplyRow(b, v, 1);
      ApplyRow(b, v, 2);
      ApplyRow(b, v, 3);
      assert Apply(b, v) == [Dot(Row(b, 0), v), Dot(Row(b, 1), v), Dot(Row(b, 2), v), Dot(Row(b, 3), v)];
      RegroupTerms(Row(a, i), b, v);
    }
  }

  /** A product of three transforms applies the rightmost first. */
  lemma ApplyMul3(a: Mat4, b: Mat4, c: Mat4, v: Vec4)
    ensures Apply(Mul(a, Mul(b, c)), v) == Apply(a, Apply(b, Apply(c, v)))
  {
    ApplyMul(a, Mul(b, c), v);
    ApplyMul(b, c, v);
  }

  /** A product as a display of its sixteen entries, for products of matrices
      that are themselves given as displays. */
  lemma MulExpand(a: Mat4, b: Mat4)
    ensures Mul(a, b)
         == [ProductEntry(a, b, 0, 0), ProductEntry(a, b, 0, 1), ProductEntry(a, b, 0, 2), ProductEntry(a, b, 0, 3),
             ProductEntry(a, b, 1, 0), ProductEntry(a, b, 1, 1), ProductEntry(a, b, 1, 2), ProductEntry(a, b, 1, 3),
             ProductEntry(a, b, 2, 0), ProductEntry(a, b, 2, 1), ProductEntry(a, b, 2, 2), ProductEntry(a, b, 2, 3),
             ProductEntry(a, b, 3, 0), ProductEntry(a, b, 3, 1), ProductEntry(a, b, 3, 2), ProductEntry(a, b, 3, 3)]
  {
  }
}
