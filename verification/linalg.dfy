/** Exact 3-vector and 3x3 matrix arithmetic over `real`.

    The solver core works with numpy arrays of floats; here the same shapes
    become immutable datatypes over unbounded reals, so every identity below
    holds exactly. The inverse is the classical adjugate divided by the
    determinant, and it fails exactly when the determinant is zero, which is
    when `np.linalg.inv` raises. */
module LinAlg {
  import opened Errors

  datatype Vec3 = Vec3(x: real, y: real, z: real)

  /** A matrix stored as its three rows. */
  datatype Mat3 = Mat3(r0: Vec3, r1: Vec3, r2: Vec3)

  function Sub(a: Vec3, b: Vec3): Vec3 {
    Vec3(a.x - b.x, a.y - b.y, a.z - b.z)
  }

  function Scale(k: real, a: Vec3): Vec3 {
    Vec3(k * a.x, k * a.y, k * a.z)
  }

  function Dot(a: Vec3, b: Vec3): real {
    a.x * b.x + a.y * b.y + a.z * b.z
  }

  /** The squared Euclidean length, `np.sum(v**2)`. */
  function Norm2(a: Vec3): real {
    Dot(a, a)
  }

  function Cross(a: Vec3, b: Vec3): Vec3 {
    Vec3(a.y * b.z - a.z * b.y, a.z * b.x - a.x * b.z, a.x * b.y - a.y * b.x)
  }

  function Transpose(m: Mat3): Mat3 {
    Mat3(Vec3(m.r0.x, m.r1.x, m.r2.x), Vec3(m.r0.y, m.r1.y, m.r2.y), Vec3(m.r0.z, m.r1.z, m.r2.z))
  }

  function MatVec(m: Mat3, v: Vec3): Vec3 {
    Vec3(Dot(m.r0, v), Dot(m.r1, v), Dot(m.r2, v))
  }

  /** Row i, column j of the product is the dot product of row i of `a`
      with column j of `b`. */
  function MatMul(a: Mat3, b: Mat3): Mat3 {
    var t := Transpose(b);
    Mat3(MatVec(t, a.r0), MatVec(t, a.r1), MatVec(t, a.r2))
  }

  function ScaleMat(k: real, m: Mat3): Mat3 {
    Mat3(Scale(k, m.r0), Scale(k, m.r1), Scale(k, m.r2))
  }

  /** `d` times the identity. */
  function Diag(d: real): Mat3 {
    Mat3(Vec3(d, 0.0, 0.0), Vec3(0.0, d, 0.0), Vec3(0.0, 0.0, d))
  }

  /** The determinant as the scalar triple product of the rows. */
  function Det(m: Mat3): real {
    Dot(m.r0, Cross(m.r1, m.r2))
  }

  /** The transposed cofactor matrix; its columns are cross products of rows. */
  function Adjugate(m: Mat3): Mat3 {
    Transpose(Mat3(Cross(m.r1, m.r2), Cross(m.r2, m.r0), Cross(m.r0, m.r1)))
  }

  /** The two-sided inverse of `m`, or `SingularMatrix` when it has none. */
  function Inverse(m: Mat3): (r: Result<Mat3>)
    ensures r.Ok? <==> Det(m) != 0.0
    ensures r.Err? ==> r.error == SingularMatrix
    ensures r.Ok? ==> MatMul(m, r.value) == Diag(1.0) && MatMul(r.value, m) == Diag(1.0)
  {
    var d := Det(m);
    if d == 0.0 then
      Err(SingularMatrix)
    else
      var k := 1.0 / d;
      var inv := ScaleMat(k, Adjugate(m));
      AdjugateRight(m);
      AdjugateLeft(m);
      MatMulScaleRight(m, Adjugate(m), k);
      MatMulScaleLeft(Adjugate(m), m, k);
      ScaleDiag(k, d);
      Ok(inv)
  }

  /** A matrix with a left inverse cancels from the left of a product with a vector. */
  lemma LeftCancel(inv: Mat3, m: Mat3, v: Vec3)
    requires MatMul(inv, m) == Diag(1.0)
    ensures MatVec(inv, MatVec(m, v)) == v
  {
    MatVecMatMul(inv, m, v);
  }

  /** The vector form of the two-sided inverse: `m * x == b` exactly when
      `x == inv * b`. */
  lemma SolveUnique(m: Mat3, inv: Mat3, x: Vec3, b: Vec3)
    requires MatMul(m, inv) == Diag(1.0) && MatMul(inv, m) == Diag(1.0)
    ensures MatVec(m, x) == b <==> x == MatVec(inv, b)
  {
    if MatVec(m, x) == b {
      LeftCancel(inv, m, x);
    }
    if x == MatVec(inv, b) {
      LeftCancel(m, inv, b);
    }
  }

  /** |a - b|^2 expanded through the dot product. */
  lemma NormSubExpand(a: Vec3, b: Vec3)
    ensures Norm2(Sub(a, b)) == Norm2(a) - 2.0 * Dot(a, b) + Norm2(b)
  {
  }

  lemma NormSubSymmetric(a: Vec3, b: Vec3)
    ensures Norm2(Sub(a, b)) == Norm2(Sub(b, a))
  {
  }

  lemma DotScale(u: Vec3, v: Vec3, k: real)
    ensures Dot(u, Scale(k, v)) == k * Dot(u, v)
  {
  }

  lemma ScaleDot(u: Vec3, v: Vec3, k: real)
    ensures Dot(Scale(k, u), v) == k * Dot(u, v)
  {
  }

  lemma DotComm(a: Vec3, b: Vec3)
    ensures Dot(a, b) == Dot(b, a)
  {
  }

  lemma CrossOrthogonal(a: Vec3, b: Vec3)
    ensures Dot(a, Cross(a, b)) == 0.0
    ensures Dot(b, Cross(a, b)) == 0.0
  {
  }

  lemma TripleCyclic(a: Vec3, b: Vec3, c: Vec3)
    ensures Dot(a, Cross(b, c)) == Dot(b, Cross(c, a))
  {
  }

  lemma TransposeTwice(m: Mat3)
    ensures Transpose(Transpose(m)) == m
  {
  }

  lemma DetTranspose(m: Mat3)
    ensures Det(Transpose(m)) == Det(m)
  {
  }

  /** The rows of the adjugate are cross products of the columns of `m`. */
  lemma AdjugateRow0(m: Mat3)
    ensures Adjugate(m).r0 == Cross(Transpose(m).r1, Transpose(m).r2)
  {
  }

  lemma AdjugateRow1(m: Mat3)
    ensures Adjugate(m).r1 == Cross(Transpose(m).r2, Transpose(m).r0)
  {
  }

  lemma AdjugateRow2(m: Mat3)
    ensures Adjugate(m).r2 == Cross(Transpose(m).r0, Transpose(m).r1)
  {
  }

  /** m * adj(m) == det(m) * I: each row of `m` is orthogonal to the two
      cross products it takes part in and meets the third in the determinant. */
  lemma AdjugateRight(m: Mat3)
    ensures MatMul(m, Adjugate(m)) == Diag(Det(m))
  {
    var c := Mat3(Cross(m.r1, m.r2), Cross(m.r2, m.r0), Cross(m.r0, m.r1));
    TransposeTwice(c);
    CrossOrthogonal(m.r1, m.r2);
    CrossOrthogonal(m.r2, m.r0);
    CrossOrthogonal(m.r0, m.r1);
    TripleCyclic(m.r0, m.r1, m.r2);
    TripleCyclic(m.r1, m.r2, m.r0);
    DotComm(c.r0, m.r0); DotComm(c.r0, m.r1); DotComm(c.r0, m.r2);
    DotComm(c.r1, m.r0); DotComm(c.r1, m.r1); DotComm(c.r1, m.r2);
    DotComm(c.r2, m.r0); DotComm(c.r2, m.r1); DotComm(c.r2, m.r2);
  }

  /** adj(m) * m == det(m) * I, the same argument on the columns of `m`. */
  lemma AdjugateLeft(m: Mat3)
    ensures MatMul(Adjugate(m), m) == Diag(Det(m))
  {
    var t := Transpose(m);
    AdjugateRow0(m);
    AdjugateRow1(m);
    AdjugateRow2(m);
    DetTranspose(m);
    CrossOrthogonal(t.r1, t.r2);
    CrossOrthogonal(t.r2, t.r0);
    CrossOrthogonal(t.r0, t.r1);
    TripleCyclic(t.r0, t.r1, t.r2);
    TripleCyclic(t.r1, t.r2, t.r0);
    var a := Adjugate(m);
    DotComm(t.r0, a.r0); DotComm(t.r1, a.r0); DotComm(t.r2, a.r0);
    DotComm(t.r0, a.r1); DotComm(t.r1, a.r1); DotComm(t.r2, a.r1);
    DotComm(t.r0, a.r2); DotComm(t.r1, a.r2); DotComm(t.r2, a.r2);
  }

  lemma MatVecScale(m: Mat3, v: Vec3, k: real)
    ensures MatVec(m, Scale(k, v)) == Scale(k, MatVec(m, v))
  {
    DotScale(m.r0, v, k);
    DotScale(m.r1, v, k);
    DotScale(m.r2, v, k);
    assert Scale(k, MatVec(m, v)) == Vec3(k * Dot(m.r0, v), k * Dot(m.r1, v), k * Dot(m.r2, v));
  }

  lemma ScaleMatVec(m: Mat3, v: Vec3, k: real)
    ensures MatVec(ScaleMat(k, m), v) == Scale(k, MatVec(m, v))
  {
    ScaleDot(m.r0, v, k);
    ScaleDot(m.r1, v, k);
    ScaleDot(m.r2, v, k);
    assert Scale(k, MatVec(m, v)) == Vec3(k * Dot(m.r0, v), k * Dot(m.r1, v), k * Dot(m.r2, v));
  }

  lemma MatMulScaleRight(a: Mat3, b: Mat3, k: real)
    ensures MatMul(a, ScaleMat(k, b)) == ScaleMat(k, MatMul(a, b))
  {
    var t := Transpose(b);
    assert Transpose(ScaleMat(k, b)) == ScaleMat(k, t);
    ScaleMatVec(t, a.r0, k);
    ScaleMatVec(t, a.r1, k);
    ScaleMatVec(t, a.r2, k);
  }

  lemma MatMulScaleLeft(a: Mat3, b: Mat3, k: real)
    ensures MatMul(ScaleMat(k, a), b) == ScaleMat(k, MatMul(a, b))
  {
    var t := Transpose(b);
    MatVecScale(t, a.r0, k);
    MatVecScale(t, a.r1, k);
    MatVecScale(t, a.r2, k);
  }

  lemma ScaleDiag(k: real, d: real)
    requires d != 0.0 && k == 1.0 / d
    ensures ScaleMat(k, Diag(d)) == Diag(1.0)
  {
  }

  /** Matrix products associate with application to a vector. */
  lemma MatVecMatMul(a: Mat3, b: Mat3, v: Vec3)
    ensures MatVec(MatMul(a, b), v) == MatVec(a, MatVec(b, v))
  {
  }
}
