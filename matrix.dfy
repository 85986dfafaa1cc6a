/**
 * The part of simd used by the loader: 4-vectors, 4x4 matrices stored as
 * four columns (the layout of simd_float4x4), transposition, the matrix
 * product and the matrix-vector product. Scalars are reals.
 */
module Matrix {

  /** simd_float4: components x, y, z, w. */
  datatype Vec4 = Vec4(x: real, y: real, z: real, w: real) {

    /** Component i, in the order x, y, z, w (simd's subscript). */
    function At(i: nat): real
      requires i < 4
    {
      if i == 0 then x else if i == 1 then y else if i == 2 then z else w
    }

    /** The `array` extension of simd_float4: `[x, y, z, w]`. */
    function ToArray(): (a: seq<real>)
      ensures |a| == 4 && forall i | 0 <= i < 4 :: a[i] == At(i)
    {
      [x, y, z, w]
    }
  }

  /** `simd_float4(array)`; Swift traps unless the array has exactly four elements. */
  function FromArray(a: seq<real>): (v: Vec4)
    requires |a| == 4
    ensures v.ToArray() == a
  {
    Vec4(a[0], a[1], a[2], a[3])
  }

  function Scale(v: Vec4, s: real): Vec4 {
    Vec4(v.x * s, v.y * s, v.z * s, v.w * s)
  }

  function Add(u: Vec4, v: Vec4): Vec4 {
    Vec4(u.x + v.x, u.y + v.y, u.z + v.z, u.w + v.w)
  }

  /** simd_float4x4 holds its four columns. */
  datatype Mat4 = Mat4(c0: Vec4, c1: Vec4, c2: Vec4, c3: Vec4) {

    /** Column j (simd's `columns.j`). */
    function Col(j: nat): Vec4
      requires j < 4
    {
      if j == 0 then c0 else if j == 1 then c1 else if j == 2 then c2 else c3
    }

    /** The entry in row i, column j. */
    function At(i: nat, j: nat): real
      requires i < 4 && j < 4
    {
      Col(j).At(i)
    }

    /** Row i as a vector. */
    function Row(i: nat): (r: Vec4)
      requires i < 4
      ensures forall j | 0 <= j < 4 :: r.At(j) == At(i, j)
    {
      Vec4(c0.At(i), c1.At(i), c2.At(i), c3.At(i))
    }
  }

  /** `simd_float4x4(rows:)`: row i of the result is the i-th vector given. */
  function FromRows(r0: Vec4, r1: Vec4, r2: Vec4, r3: Vec4): (m: Mat4)
    ensures m.Row(0) == r0 && m.Row(1) == r1 && m.Row(2) == r2 && m.Row(3) == r3
  {
    Mat4(Vec4(r0.x, r1.x, r2.x, r3.x),
         Vec4(r0.y, r1.y, r2.y, r3.y),
         Vec4(r0.z, r1.z, r2.z, r3.z),
         Vec4(r0.w, r1.w, r2.w, r3.w))
  }

  /** `m.transpose`. */
  function Transpose(m: Mat4): (t: Mat4)
    ensures forall i, j | 0 <= i < 4 && 0 <= j < 4 :: t.At(i, j) == m.At(j, i)
  {
    Mat4(m.Row(0), m.Row(1), m.Row(2), m.Row(3))
  }

  function Dot(u: Vec4, v: Vec4): real {
    u.x * v.x + u.y * v.y + u.z * v.z + u.w * v.w
  }

  /** `m * v`: component i is row i of m dotted with v. */
  function MulVec(m: Mat4, v: Vec4): Vec4 {
    Vec4(Dot(Vec4(m.c0.x, m.c1.x, m.c2.x, m.c3.x), v),
         Dot(Vec4(m.c0.y, m.c1.y, m.c2.y, m.c3.y), v),
         Dot(Vec4(m.c0.z, m.c1.z, m.c2.z, m.c3.z), v),
         Dot(Vec4(m.c0.w, m.c1.w, m.c2.w, m.c3.w), v))
  }

  /** `a * b`: column j of the product is `a * b.columns.j`. */
  function Mul(a: Mat4, b: Mat4): Mat4 {
    Mat4(MulVec(a, b.c0), MulVec(a, b.c1), MulVec(a, b.c2), MulVec(a, b.c3))
  }

  /** `simd_float4x4.identity`. */
  const Identity: Mat4 :=
    Mat4(Vec4(1.0, 0.0, 0.0, 0.0), Vec4(0.0, 1.0, 0.0, 0.0),
         Vec4(0.0, 0.0, 1.0, 0.0), Vec4(0.0, 0.0, 0.0, 1.0))

  /** Component i of `m * v` is row i of m dotted with v. */
  lemma MulVecAt(m: Mat4, v: Vec4, i: nat)
    requires i < 4
    ensures MulVec(m, v).At(i) == Dot(m.Row(i), v)
  {
  }

  /** The product's entries are the textbook sums over the inner index. */
  lemma MulAt(a: Mat4, b: Mat4, i: nat, j: nat)
    requires i < 4 && j < 4
    ensures Mul(a, b).At(i, j)
         == a.At(i, 0) * b.At(0, j) + a.At(i, 1) * b.At(1, j)
          + a.At(i, 2) * b.At(2, j) + a.At(i, 3) * b.At(3, j)
  {
    assert Mul(a, b).Col(j) == MulVec(a, b.Col(j));
    MulVecAt(a, b.Col(j), i);
    var r, c := a.Row(i), b.Col(j);
    assert r.x == a.At(i, 0) && r.y == a.At(i, 1) && r.z == a.At(i, 2) && r.w == a.At(i, 3) by {
      assert r.At(0) == r.x && r.At(1) == r.y && r.At(2) == r.z && r.At(3) == r.w;
    }
    assert c.x == b.At(0, j) && c.y == b.At(1, j) && c.z == b.At(2, j) && c.w == b.At(3, j);
  }

  lemma TransposeInvolutive(m: Mat4)
    ensures Transpose(Transpose(m)) == m
  {
  }

  lemma IdentityNeutralVec(v: Vec4)
    ensures MulVec(Identity, v) == v
  {
  }

  /** The identity is neutral on both sides of the product. */
  lemma IdentityNeutral(m: Mat4)
    ensures Mul(Identity, m) == m
    ensures Mul(m, Identity) == m
  {
    IdentityNeutralVec(m.c0);
    IdentityNeutralVec(m.c1);
    IdentityNeutralVec(m.c2);
    IdentityNeutralVec(m.c3);
    assert MulVec(m, Identity.c0) == m.c0;
    assert MulVec(m, Identity.c1) == m.c1;
    assert MulVec(m, Identity.c2) == m.c2;
    assert MulVec(m, Identity.c3) == m.c3;
  }

  lemma DotAdd(r: Vec4, u: Vec4, v: Vec4)
    ensures Dot(r, Add(u, v)) == Dot(r, u) + Dot(r, v)
  {
  }

  lemma DotScale(r: Vec4, v: Vec4, s: real)
    ensures Dot(r, Scale(v, s)) == Dot(r, v) * s
  {
  }

  lemma MulVecAdd(m: Mat4, u: Vec4, v: Vec4)
    ensures MulVec(m, Add(u, v)) == Add(MulVec(m, u), MulVec(m, v))
  {
    DotAdd(Vec4(m.c0.x, m.c1.x, m.c2.x, m.c3.x), u, v);
    DotAdd(Vec4(m.c0.y, m.c1.y, m.c2.y, m.c3.y), u, v);
    DotAdd(Vec4(m.c0.z, m.c1.z, m.c2.z, m.c3.z), u, v);
    DotAdd(Vec4(m.c0.w, m.c1.w, m.c2.w, m.c3.w), u, v);
  }

  lemma MulVecScale(m: Mat4, v: Vec4, s: real)
    ensures MulVec(m, Scale(v, s)) == Scale(MulVec(m, v), s)
  {
    DotScale(Vec4(m.c0.x, m.c1.x, m.c2.x, m.c3.x), v, s);
    DotScale(Vec4(m.c0.y, m.c1.y, m.c2.y, m.c3.y), v, s);
    DotScale(Vec4(m.c0.z, m.c1.z, m.c2.z, m.c3.z), v, s);
    DotScale(Vec4(m.c0.w, m.c1.w, m.c2.w, m.c3.w), v, s);
  }

  /** `m * v` is the combination of m's columns weighted by v's components. */
  lemma MulVecColumns(m: Mat4, v: Vec4)
    ensures MulVec(m, v)
         == Add(Add(Scale(m.c0, v.x), Scale(m.c1, v.y)), Add(Scale(m.c2, v.z), Scale(m.c3, v.w)))
  {
  }

  /** Applying a product is applying its factors one after the other. */
  lemma MulVecMul(a: Mat4, b: Mat4, v: Vec4)
    ensures MulVec(Mul(a, b), v) == MulVec(a, MulVec(b, v))
  {
    MulVecColumns(Mul(a, b), v);
    MulVecColumns(b, v);
    MulVecScale(a, b.c0, v.x);
    MulVecScale(a, b.c1, v.y);
    MulVecScale(a, b.c2, v.z);
    MulVecScale(a, b.c3, v.w);
    MulVecAdd(a, Scale(b.c0, v.x), Scale(b.c1, v.y));
    MulVecAdd(a, Scale(b.c2, v.z), Scale(b.c3, v.w));
    MulVecAdd(a, Add(Scale(b.c0, v.x), Scale(b.c1, v.y)), Add(Scale(b.c2, v.z), Scale(b.c3, v.w)));
  }

  lemma MulAssociative(a: Mat4, b: Mat4, c: Mat4)
    ensures Mul(Mul(a, b), c) == Mul(a, Mul(b, c))
  {
    MulVecMul(a, b, c.c0);
    MulVecMul(a, b, c.c1);
    MulVecMul(a, b, c.c2);
    MulVecMul(a, b, c.c3);
  }
}
