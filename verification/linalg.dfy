/**
 * Small dense linear algebra over exact reals: the 3- and 4-vectors and the
 * 3x3 / 4x4 matrices that jax.numpy arrays of those shapes hold in the
 * geometry code. A matrix is a record of its rows, so the entry m[i, j] of a
 * jax array is field j of row i here (m[2, 1] is m.r2.y).
 */
module Linalg {

  datatype Vec3 = Vec3(x: real, y: real, z: real)
  datatype Vec4 = Vec4(x: real, y: real, z: real, w: real)
  datatype Mat3 = Mat3(r0: Vec3, r1: Vec3, r2: Vec3)
  datatype Mat4 = Mat4(r0: Vec4, r1: Vec4, r2: Vec4, r3: Vec4)

  function Abs(a: real): real { if a < 0.0 then -a else a }

  const Zero3 := Vec3(0.0, 0.0, 0.0)
  const Zero4 := Vec4(0.0, 0.0, 0.0, 0.0)

  function Add3(a: Vec3, b: Vec3): Vec3 { Vec3(a.x + b.x, a.y + b.y, a.z + b.z) }
  function Sub3(a: Vec3, b: Vec3): Vec3 { Vec3(a.x - b.x, a.y - b.y, a.z - b.z) }
  function Scale3(k: real, a: Vec3): Vec3 { Vec3(k * a.x, k * a.y, k * a.z) }
  function Dot3(a: Vec3, b: Vec3): real { a.x * b.x + a.y * b.y + a.z * b.z }

  function Add4(a: Vec4, b: Vec4): Vec4 { Vec4(a.x + b.x, a.y + b.y, a.z + b.z, a.w + b.w) }
  function Scale4(k: real, a: Vec4): Vec4 { Vec4(k * a.x, k * a.y, k * a.z, k * a.w) }
  function Dot4(a: Vec4, b: Vec4): real { a.x * b.x + a.y * b.y + a.z * b.z + a.w * b.w }

  /** The homogeneous point [p; 1]. */
  function Homogeneous(p: Vec3): Vec4 { Vec4(p.x, p.y, p.z, 1.0) }

  /** The first three entries of a 4-vector (jax `v[..., :-1]`). */
  function Xyz(v: Vec4): Vec3 { Vec3(v.x, v.y, v.z) }

  const Identity3 := Mat3(Vec3(1.0, 0.0, 0.0), Vec3(0.0, 1.0, 0.0), Vec3(0.0, 0.0, 1.0))
  const Identity4 := Mat4(Vec4(1.0, 0.0, 0.0, 0.0), Vec4(0.0, 1.0, 0.0, 0.0),
                          Vec4(0.0, 0.0, 1.0, 0.0), Vec4(0.0, 0.0, 0.0, 1.0))

  /** The bottom row every homogeneous rigid transform carries. */
  const UnitRow := Vec4(0.0, 0.0, 0.0, 1.0)

  function Transpose3(m: Mat3): Mat3 {
    Mat3(Vec3(m.r0.x, m.r1.x, m.r2.x),
         Vec3(m.r0.y, m.r1.y, m.r2.y),
         Vec3(m.r0.z, m.r1.z, m.r2.z))
  }

  function MulVec3(m: Mat3, v: Vec3): Vec3 { Vec3(Dot3(m.r0, v), Dot3(m.r1, v), Dot3(m.r2, v)) }

  /** Row vector v times matrix b: the combination of b's rows weighted by v. */
  function RowMul3(v: Vec3, b: Mat3): Vec3 {
    Vec3(v.x * b.r0.x + v.y * b.r1.x + v.z * b.r2.x,
         v.x * b.r0.y + v.y * b.r1.y + v.z * b.r2.y,
         v.x * b.r0.z + v.y * b.r1.z + v.z * b.r2.z)
  }

  function Mul3(a: Mat3, b: Mat3): Mat3 { Mat3(RowMul3(a.r0, b), RowMul3(a.r1, b), RowMul3(a.r2, b)) }

  function MulVec4(m: Mat4, v: Vec4): Vec4 {
    Vec4(Dot4(m.r0, v), Dot4(m.r1, v), Dot4(m.r2, v), Dot4(m.r3, v))
  }

  function RowMul4(v: Vec4, b: Mat4): Vec4 {
    Vec4(v.x * b.r0.x + v.y * b.r1.x + v.z * b.r2.x + v.w * b.r3.x,
         v.x * b.r0.y + v.y * b.r1.y + v.z * b.r2.y + v.w * b.r3.y,
         v.x * b.r0.z + v.y * b.r1.z + v.z * b.r2.z + v.w * b.r3.z,
         v.x * b.r0.w + v.y * b.r1.w + v.z * b.r2.w + v.w * b.r3.w)
  }

  /** The matrix product a . b (jax `a.dot(b)` on 4x4 arrays). */
  function Mul4(a: Mat4, b: Mat4): Mat4 {
    Mat4(RowMul4(a.r0, b), RowMul4(a.r1, b), RowMul4(a.r2, b), RowMul4(a.r3, b))
  }

  function AddMat4(a: Mat4, b: Mat4): Mat4 {
    Mat4(Add4(a.r0, b.r0), Add4(a.r1, b.r1), Add4(a.r2, b.r2), Add4(a.r3, b.r3))
  }

  function ScaleMat4(k: real, a: Mat4): Mat4 {
    Mat4(Scale4(k, a.r0), Scale4(k, a.r1), Scale4(k, a.r2), Scale4(k, a.r3))
  }

  /** Top-left 3x3 block `m[:3, :3]`. */
  function Rotation(m: Mat4): Mat3 {
    Mat3(Vec3(m.r0.x, m.r0.y, m.r0.z), Vec3(m.r1.x, m.r1.y, m.r1.z), Vec3(m.r2.x, m.r2.y, m.r2.z))
  }

  /** Translation column `m[:3, 3]`. */
  function Translation(m: Mat4): Vec3 { Vec3(m.r0.w, m.r1.w, m.r2.w) }

  /** Third column `m[:3, 2]`: the local z axis, i.e. the normal of a plane pose. */
  function ZAxis(m: Mat4): Vec3 { Vec3(m.r0.z, m.r1.z, m.r2.z) }

  /** Bottom row (0, 0, 0, 1). */
  predicate IsAffine(m: Mat4) { m.r3 == UnitRow }

  /** R^T R = I. */
  predicate IsOrthonormal(r: Mat3) { Mul3(Transpose3(r), r) == Identity3 }

  /** A pose: orthonormal rotation block and bottom row (0, 0, 0, 1). */
  predicate IsRigid(m: Mat4) { IsAffine(m) && IsOrthonormal(Rotation(m)) }

  /** The closed-form inverse of a rigid pose [R | t]: [R^T | -R^T t]. */
  function RigidInverse(m: Mat4): (inv: Mat4)
    ensures IsAffine(inv)
    ensures Rotation(inv) == Transpose3(Rotation(m))
    ensures Translation(inv) == Scale3(-1.0, MulVec3(Transpose3(Rotation(m)), Translation(m)))
  {
    var rt := Transpose3(Rotation(m));
    var t := MulVec3(rt, Translation(m));
    Mat4(Vec4(rt.r0.x, rt.r0.y, rt.r0.z, -t.x),
         Vec4(rt.r1.x, rt.r1.y, rt.r1.z, -t.y),
         Vec4(rt.r2.x, rt.r2.y, rt.r2.z, -t.z),
         UnitRow)
  }

  /** For a rigid pose the closed form really is an inverse: RigidInverse(m) . m == I. */
  lemma RigidInverseIsInverse(m: Mat4)
    requires IsRigid(m)
    ensures Mul4(RigidInverse(m), m) == Identity4
  {
    InverseTimes(m);
  }

  /** RigidInverse(m) . m == [R^T R | 0] for any affine m, whatever its rotation block. */
  lemma InverseTimes(m: Mat4)
    requires IsAffine(m)
    ensures var e := Mul3(Transpose3(Rotation(m)), Rotation(m));
      Mul4(RigidInverse(m), m) == Mat4(Vec4(e.r0.x, e.r0.y, e.r0.z, 0.0), Vec4(e.r1.x, e.r1.y, e.r1.z, 0.0),
                                       Vec4(e.r2.x, e.r2.y, e.r2.z, 0.0), UnitRow)
  {
    var rt := Transpose3(Rotation(m));
    var e := Mul3(rt, Rotation(m));
    var inv := RigidInverse(m);
    assert RowMul4(inv.r0, m) == Vec4(e.r0.x, e.r0.y, e.r0.z, 0.0) by {
      assert inv.r0 == Vec4(rt.r0.x, rt.r0.y, rt.r0.z, -Dot3(rt.r0, Translation(m)));
      InverseRow(rt.r0, m);
    }
    assert RowMul4(inv.r1, m) == Vec4(e.r1.x, e.r1.y, e.r1.z, 0.0) by {
      assert inv.r1 == Vec4(rt.r1.x, rt.r1.y, rt.r1.z, -Dot3(rt.r1, Translation(m)));
      InverseRow(rt.r1, m);
    }
    assert RowMul4(inv.r2, m) == Vec4(e.r2.x, e.r2.y, e.r2.z, 0.0) by {
      assert inv.r2 == Vec4(rt.r2.x, rt.r2.y, rt.r2.z, -Dot3(rt.r2, Translation(m)));
      InverseRow(rt.r2, m);
    }
    assert RowMul4(inv.r3, m) == UnitRow by {
      UnitRowMul(m);
    }
  }

  /** The bottom row (0, 0, 0, 1) picks out the bottom row of what it multiplies. */
  lemma UnitRowMul(m: Mat4)
    ensures RowMul4(UnitRow, m) == m.r3
  {
  }

  /** A row (u, -u . t) of the closed-form inverse, times a pose [R | t; 0 0 0 1]. */
  lemma InverseRow(u: Vec3, m: Mat4)
    requires IsAffine(m)
    ensures var e := RowMul3(u, Rotation(m));
      RowMul4(Vec4(u.x, u.y, u.z, -Dot3(u, Translation(m))), m) == Vec4(e.x, e.y, e.z, 0.0)
  {
  }

  /** One row of b . (a . v) equals the same row of (b . a) applied to v. */
  lemma RowMul4Compose(u: Vec4, a: Mat4, v: Vec4)
    ensures Dot4(u, MulVec4(a, v)) == Dot4(RowMul4(u, a), v)
  {
    // u . a is the combination of a's rows weighted by u, and the dot
    // product with v is linear in that combination.
    var s0, s1, s2, s3 := Scale4(u.x, a.r0), Scale4(u.y, a.r1), Scale4(u.z, a.r2), Scale4(u.w, a.r3);
    assert RowMul4(u, a) == Add4(Add4(Add4(s0, s1), s2), s3);
    DotAdd(Add4(Add4(s0, s1), s2), s3, v);
    DotAdd(Add4(s0, s1), s2, v);
    DotAdd(s0, s1, v);
    DotScale(u.x, a.r0, v);
    DotScale(u.y, a.r1, v);
    DotScale(u.z, a.r2, v);
    DotScale(u.w, a.r3, v);
  }

  /** The dot product distributes over a sum on the left. */
  lemma DotAdd(p: Vec4, q: Vec4, v: Vec4)
    ensures Dot4(Add4(p, q), v) == Dot4(p, v) + Dot4(q, v)
  {
  }

  /** A scalar factor on the left comes out of the dot product. */
  lemma DotScale(c: real, p: Vec4, v: Vec4)
    ensures Dot4(Scale4(c, p), v) == c * Dot4(p, v)
  {
  }

  /** Matrix-vector products compose like the matrix product: b . (a . v) == (b . a) . v. */
  lemma MulVec4Compose(b: Mat4, a: Mat4, v: Vec4)
    ensures MulVec4(b, MulVec4(a, v)) == MulVec4(Mul4(b, a), v)
  {
    RowMul4Compose(b.r0, a, v);
    RowMul4Compose(b.r1, a, v);
    RowMul4Compose(b.r2, a, v);
    RowMul4Compose(b.r3, a, v);
  }

  /** The composition of two poses [Ra | ta] . [Rb | tb] is [Ra Rb | Ra tb + ta]. */
  lemma AffineCompose(a: Mat4, b: Mat4)
    requires IsAffine(a) && IsAffine(b)
    ensures IsAffine(Mul4(a, b))
    ensures Rotation(Mul4(a, b)) == Mul3(Rotation(a), Rotation(b))
    ensures Translation(Mul4(a, b)) == Add3(MulVec3(Rotation(a), Translation(b)), Translation(a))
  {
    UnitRowMul(b);
  }

  /** One row of (a . b) . c equals the same row of a . (b . c). */
  lemma RowMul4Assoc(u: Vec4, b: Mat4, c: Mat4)
    ensures RowMul4(RowMul4(u, b), c) == RowMul4(u, Mul4(b, c))
  {
    // Entry j of either side is u . b . (column j of c).
    RowMul4Compose(u, b, Vec4(c.r0.x, c.r1.x, c.r2.x, c.r3.x));
    RowMul4Compose(u, b, Vec4(c.r0.y, c.r1.y, c.r2.y, c.r3.y));
    RowMul4Compose(u, b, Vec4(c.r0.z, c.r1.z, c.r2.z, c.r3.z));
    RowMul4Compose(u, b, Vec4(c.r0.w, c.r1.w, c.r2.w, c.r3.w));
  }

  /** The 4x4 matrix product is associative. */
  lemma Mul4Assoc(a: Mat4, b: Mat4, c: Mat4)
    ensures Mul4(Mul4(a, b), c) == Mul4(a, Mul4(b, c))
  {
    RowMul4Assoc(a.r0, b, c);
    RowMul4Assoc(a.r1, b, c);
    RowMul4Assoc(a.r2, b, c);
    RowMul4Assoc(a.r3, b, c);
  }

  /** The identity is a right unit of the product. */
  lemma Mul4Identity(a: Mat4)
    ensures Mul4(a, Identity4) == a
  {
  }

  /** Two turns about the origin compose into a turn about the origin. */
  lemma TurnsCompose(a: Mat4, b: Mat4)
    requires IsAffine(a) && IsAffine(b)
    requires Translation(a) == Zero3 && Translation(b) == Zero3
    ensures IsAffine(Mul4(a, b))
    ensures Translation(Mul4(a, b)) == Zero3
  {
    AffineCompose(a, b);
  }

  /** A boolean read as the float 0.0 or 1.0, as jax multiplies by a mask. */
  function Indicator(b: bool): real { if b then 1.0 else 0.0 }

  /** A * b + B * (not b), the masked-sum idiom, selects A or B. */
  lemma MaskedSelect(b: bool, x: Mat4, y: Mat4)
    ensures AddMat4(ScaleMat4(Indicator(b), x), ScaleMat4(Indicator(!b), y)) == (if b then x else y)
  {
  }
}
