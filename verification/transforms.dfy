/**
 * Rigid-transform algebra of jax3dp3/transforms_3d.py: homogeneous 4x4
 * constructors, applying a pose to a point list, Rodrigues' axis-angle
 * rotation, and the conversions between unit quaternions (q0, q1, q2, q3),
 * q0 the scalar part, and 3x3 rotation matrices.
 */
module Transforms {
  import opened Linalg
  import opened Numerics

  /** transform_from_pos: pure translation [I | t; 0 0 0 1]. */
  function FromPos(t: Vec3): (m: Mat4)
    ensures Rotation(m) == Identity3
    ensures Translation(m) == t
    ensures IsAffine(m)
  {
    Mat4(Vec4(1.0, 0.0, 0.0, t.x), Vec4(0.0, 1.0, 0.0, t.y), Vec4(0.0, 0.0, 1.0, t.z), UnitRow)
  }

  /** transform_from_rot_and_pos: [R | t; 0 0 0 1]. */
  function FromRotAndPos(r: Mat3, t: Vec3): (m: Mat4)
    ensures Rotation(m) == r
    ensures Translation(m) == t
    ensures IsAffine(m)
  {
    Mat4(Vec4(r.r0.x, r.r0.y, r.r0.z, t.x),
         Vec4(r.r1.x, r.r1.y, r.r1.z, t.y),
         Vec4(r.r2.x, r.r2.y, r.r2.z, t.z),
         UnitRow)
  }

  /** Every affine 4x4 matrix is rebuilt from its rotation block and translation column. */
  lemma AffineDecomposition(m: Mat4)
    requires IsAffine(m)
    ensures FromRotAndPos(Rotation(m), Translation(m)) == m
  {
  }

  /** Translating after an affine m shifts its translation and keeps its rotation block. */
  lemma FromPosCompose(t: Vec3, m: Mat4)
    requires IsAffine(m)
    ensures Mul4(FromPos(t), m) == FromRotAndPos(Rotation(m), Add3(t, Translation(m)))
  {
    UnitRowMul(m);
  }

  // ---------------------------------------------------------------- axis-angle

  /** axis / jnp.linalg.norm(axis): the unit direction of a non-zero axis. */
  function Direction(num: Primitives, axis: Vec3): (d: Vec3)
    requires SqrtLaw(num)
    requires axis != Zero3
    ensures Dot3(d, d) == 1.0
  {
    NormPositive(num, axis);
    var n := Norm(num, axis);
    var d := Vec3(axis.x / n, axis.y / n, axis.z / n);
    DirectionUnit(axis, n, d);
    d
  }

  lemma DirectionUnit(a: Vec3, n: real, d: Vec3)
    requires n > 0.0 && n * n == Dot3(a, a)
    requires d == Vec3(a.x / n, a.y / n, a.z / n)
    ensures Dot3(d, d) == 1.0
  {
    assert d.x * n == a.x && d.y * n == a.y && d.z * n == a.z;
    assert Mul(Dot3(d, d), Mul(n, n)) == Mul(n, n);
    ProductPositive(n, n);
    CancelPositive(Dot3(d, d), Mul(n, n));
  }

  /** u * v == v with v != 0 forces u == 1. */
  lemma CancelPositive(u: real, v: real)
    requires v != 0.0
    requires Mul(u, v) == v
    ensures u == 1.0
  {
    assert (u - 1.0) * v == 0.0;
  }

  /**
   * Rodrigues' formula as transform_from_axis_angle builds it: the diagonal
   * cos, plus (1 - cos) d d^T, plus the cross-product matrix of sin * d.
   */
  function Rodrigues(c: real, s: real, d: Vec3): Mat3 {
    Mat3(Vec3(c + Outer(d.x, d.x, c), Outer(d.x, d.y, c) - Mul(s, d.z), Outer(d.x, d.z, c) + Mul(s, d.y)),
         Vec3(Outer(d.y, d.x, c) + Mul(s, d.z), c + Outer(d.y, d.y, c), Outer(d.y, d.z, c) - Mul(s, d.x)),
         Vec3(Outer(d.z, d.x, c) - Mul(s, d.y), Outer(d.z, d.y, c) + Mul(s, d.x), c + Outer(d.z, d.z, c)))
  }

  /** One entry of the outer product d d^T scaled by (1 - cos). */
  function Outer(u: real, v: real, c: real): (r: real)
    ensures r == u * v * (1.0 - c)
  {
    Mul(Mul(u, v), 1.0 - c)
  }

  /** The rotation block of transform_from_axis_angle. */
  function AxisAngleRotation(num: Primitives, axis: Vec3, angle: real): Mat3
    requires SqrtLaw(num)
    requires axis != Zero3
  {
    Rodrigues(num.cos(angle), num.sin(angle), Direction(num, axis))
  }

  /**
   * transform_from_axis_angle: the 4x4 identity with its top-left block
   * replaced by the Rodrigues rotation; no translation.
   */
  function FromAxisAngle(num: Primitives, axis: Vec3, angle: real): (m: Mat4)
    requires SqrtLaw(num)
    requires axis != Zero3
    ensures Rotation(m) == AxisAngleRotation(num, axis, angle)
    ensures Translation(m) == Zero3
    ensures IsAffine(m)
  {
    FromRotAndPos(AxisAngleRotation(num, axis, angle), Zero3)
  }

  /** An angle with sin 0 and cos 1 gives the identity pose, whatever the axis. */
  lemma FromAxisAngleNoTurn(num: Primitives, axis: Vec3, angle: real)
    requires SqrtLaw(num)
    requires axis != Zero3
    requires num.sin(angle) == 0.0 && num.cos(angle) == 1.0
    ensures FromAxisAngle(num, axis, angle) == Identity4
  {
    var r := AxisAngleRotation(num, axis, angle);
    assert r == Identity3;
  }

  /**
   * With sin^2 + cos^2 = 1, transform_from_axis_angle is a rigid pose for
   * every non-zero axis and every angle: its rotation block is orthonormal.
   */
  lemma FromAxisAngleRigid(num: Primitives, axis: Vec3, angle: real)
    requires SqrtLaw(num) && TrigLaw(num)
    requires axis != Zero3
    ensures IsRigid(FromAxisAngle(num, axis, angle))
  {
    var c, s := num.cos(angle), num.sin(angle);
    assert c * c + s * s == 1.0;
    RodriguesOrthonormal(c, s, Direction(num, axis));
  }

  /** Rodrigues' matrix of a unit direction, with c^2 + s^2 = 1, satisfies R^T R = I. */
  lemma RodriguesOrthonormal(c: real, s: real, d: Vec3)
    requires Dot3(d, d) == 1.0
    requires c * c + s * s == 1.0
    ensures IsOrthonormal(Rodrigues(c, s, d))
  {
    var m := Rodrigues(c, s, d);
    RodriguesGram(c, s, d.x, d.y, d.z, m.r0.x, m.r0.y, m.r0.z, m.r1.x, m.r1.y, m.r1.z, m.r2.x, m.r2.y, m.r2.z);
    GramIsIdentity(m);
  }

  /** Unit columns that are pairwise orthogonal make R^T R the identity. */
  lemma GramIsIdentity(m: Mat3)
    requires Mul(m.r0.x, m.r0.x) + Mul(m.r1.x, m.r1.x) + Mul(m.r2.x, m.r2.x) == 1.0
    requires Mul(m.r0.y, m.r0.y) + Mul(m.r1.y, m.r1.y) + Mul(m.r2.y, m.r2.y) == 1.0
    requires Mul(m.r0.z, m.r0.z) + Mul(m.r1.z, m.r1.z) + Mul(m.r2.z, m.r2.z) == 1.0
    requires Mul(m.r0.x, m.r0.y) + Mul(m.r1.x, m.r1.y) + Mul(m.r2.x, m.r2.y) == 0.0
    requires Mul(m.r0.y, m.r0.z) + Mul(m.r1.y, m.r1.z) + Mul(m.r2.y, m.r2.z) == 0.0
    requires Mul(m.r0.z, m.r0.x) + Mul(m.r1.z, m.r1.x) + Mul(m.r2.z, m.r2.x) == 0.0
    ensures IsOrthonormal(m)
  {
    GramRow0(m);
    GramRow1(m);
    GramRow2(m);
  }

  // One row of R^T R each: row i holds the inner products of column i with
  // the three columns.

  lemma GramRow0(m: Mat3)
    requires Mul(m.r0.x, m.r0.x) + Mul(m.r1.x, m.r1.x) + Mul(m.r2.x, m.r2.x) == 1.0
    requires Mul(m.r0.x, m.r0.y) + Mul(m.r1.x, m.r1.y) + Mul(m.r2.x, m.r2.y) == 0.0
    requires Mul(m.r0.z, m.r0.x) + Mul(m.r1.z, m.r1.x) + Mul(m.r2.z, m.r2.x) == 0.0
    ensures Mul3(Transpose3(m), m).r0 == Identity3.r0
  {
  }

  lemma GramRow1(m: Mat3)
    requires Mul(m.r0.y, m.r0.y) + Mul(m.r1.y, m.r1.y) + Mul(m.r2.y, m.r2.y) == 1.0
    requires Mul(m.r0.x, m.r0.y) + Mul(m.r1.x, m.r1.y) + Mul(m.r2.x, m.r2.y) == 0.0
    requires Mul(m.r0.y, m.r0.z) + Mul(m.r1.y, m.r1.z) + Mul(m.r2.y, m.r2.z) == 0.0
    ensures Mul3(Transpose3(m), m).r1 == Identity3.r1
  {
  }

  lemma GramRow2(m: Mat3)
    requires Mul(m.r0.z, m.r0.z) + Mul(m.r1.z, m.r1.z) + Mul(m.r2.z, m.r2.z) == 1.0
    requires Mul(m.r0.z, m.r0.x) + Mul(m.r1.z, m.r1.x) + Mul(m.r2.z, m.r2.x) == 0.0
    requires Mul(m.r0.y, m.r0.z) + Mul(m.r1.y, m.r1.z) + Mul(m.r2.y, m.r2.z) == 0.0
    ensures Mul3(Transpose3(m), m).r2 == Identity3.r2
  {
  }

  /**
   * The entries a_ij of Rodrigues' matrix along the unit direction (x, y, z):
   * its columns have unit length and are pairwise orthogonal.
   */
  lemma RodriguesGram(c: real, s: real, x: real, y: real, z: real,
                      a00: real, a01: real, a02: real, a10: real, a11: real, a12: real,
                      a20: real, a21: real, a22: real)
    requires x * x + y * y + z * z == 1.0
    requires c * c + s * s == 1.0
    requires a00 == c + Outer(x, x, c) && a01 == Outer(x, y, c) - Mul(s, z) && a02 == Outer(x, z, c) + Mul(s, y)
    requires a10 == Outer(y, x, c) + Mul(s, z) && a11 == c + Outer(y, y, c) && a12 == Outer(y, z, c) - Mul(s, x)
    requires a20 == Outer(z, x, c) - Mul(s, y) && a21 == Outer(z, y, c) + Mul(s, x) && a22 == c + Outer(z, z, c)
    ensures Mul(a00, a00) + Mul(a10, a10) + Mul(a20, a20) == 1.0
    ensures Mul(a01, a01) + Mul(a11, a11) + Mul(a21, a21) == 1.0
    ensures Mul(a02, a02) + Mul(a12, a12) + Mul(a22, a22) == 1.0
    ensures Mul(a00, a01) + Mul(a10, a11) + Mul(a20, a21) == 0.0
    ensures Mul(a01, a02) + Mul(a11, a12) + Mul(a21, a22) == 0.0
    ensures Mul(a02, a00) + Mul(a12, a10) + Mul(a22, a20) == 0.0
  {
    assert y * y + z * z + x * x == 1.0 && z * z + x * x + y * y == 1.0;
    RodriguesColumn(x, y, z, c, s, a00, a10, a20);
    RodriguesColumn(y, z, x, c, s, a11, a21, a01);
    RodriguesColumn(z, x, y, c, s, a22, a02, a12);
    RodriguesColumns(x, y, z, c, s, a00, a01, a10, a11, a20, a21);
    RodriguesColumns(y, z, x, c, s, a11, a12, a21, a22, a01, a02);
    RodriguesColumns(z, x, y, c, s, a22, a20, a02, a00, a12, a10);
  }

  /** The column (p, q, r) of Rodrigues' matrix has length 1. */
  lemma RodriguesColumn(u: real, v: real, w: real, c: real, s: real, p: real, q: real, r: real)
    requires u * u + v * v + w * w == 1.0
    requires c * c + s * s == 1.0
    requires p == c + u * u * (1.0 - c)
    requires q == v * u * (1.0 - c) + s * w
    requires r == w * u * (1.0 - c) - s * v
    ensures Mul(p, p) + Mul(q, q) + Mul(r, r) == 1.0
  {
    assert Mul(p, p) == Mul(c + u * u * (1.0 - c), c + u * u * (1.0 - c));
    assert Mul(q, q) == Mul(v * u * (1.0 - c) + s * w, v * u * (1.0 - c) + s * w);
    assert Mul(r, r) == Mul(w * u * (1.0 - c) - s * v, w * u * (1.0 - c) - s * v);
    ColumnSum(u, v, w, c, s);
    var k := u * u * (1.0 - c) * (1.0 - c);
    assert Mul(k, u * u + v * v + w * w) == Mul(k, 1.0);
    assert Mul(s * s, u * u + v * v + w * w) == Mul(s * s, 1.0);
  }

  /** The squared length of a column, expanded: a ring identity. */
  lemma ColumnSum(u: real, v: real, w: real, c: real, s: real)
    ensures Mul(c + u * u * (1.0 - c), c + u * u * (1.0 - c))
          + Mul(v * u * (1.0 - c) + s * w, v * u * (1.0 - c) + s * w)
          + Mul(w * u * (1.0 - c) - s * v, w * u * (1.0 - c) - s * v)
         == Mul(u * u * (1.0 - c) * (1.0 - c), u * u + v * v + w * w) - u * u * (1.0 - c) * (1.0 - c)
          + Mul(s * s, u * u + v * v + w * w) + c * c + Mul(u * u, 1.0 - c * c - s * s)
  {
  }

  /** Two neighbouring columns (p0, q0, r0) and (p1, q1, r1) of Rodrigues' matrix are orthogonal. */
  lemma RodriguesColumns(u: real, v: real, w: real, c: real, s: real,
                         p0: real, p1: real, q0: real, q1: real, r0: real, r1: real)
    requires u * u + v * v + w * w == 1.0
    requires c * c + s * s == 1.0
    requires p0 == c + u * u * (1.0 - c) && p1 == u * v * (1.0 - c) - s * w
    requires q0 == v * u * (1.0 - c) + s * w && q1 == c + v * v * (1.0 - c)
    requires r0 == w * u * (1.0 - c) - s * v && r1 == w * v * (1.0 - c) + s * u
    ensures Mul(p0, p1) + Mul(q0, q1) + Mul(r0, r1) == 0.0
  {
    assert Mul(p0, p1) == Mul(c + u * u * (1.0 - c), u * v * (1.0 - c) - s * w);
    assert Mul(q0, q1) == Mul(v * u * (1.0 - c) + s * w, c + v * v * (1.0 - c));
    assert Mul(r0, r1) == Mul(w * u * (1.0 - c) - s * v, w * v * (1.0 - c) + s * u);
    ColumnsSum(u, v, w, c, s);
    var k := u * v * (1.0 - c) * (1.0 - c);
    assert Mul(k, u * u + v * v + w * w) == Mul(k, 1.0);
    assert Mul(u * v, c * c + s * s) == Mul(u * v, 1.0);
  }

  /** The inner product of two neighbouring columns, expanded: a ring identity. */
  lemma ColumnsSum(u: real, v: real, w: real, c: real, s: real)
    ensures Mul(c + u * u * (1.0 - c), u * v * (1.0 - c) - s * w)
          + Mul(v * u * (1.0 - c) + s * w, c + v * v * (1.0 - c))
          + Mul(w * u * (1.0 - c) - s * v, w * v * (1.0 - c) + s * u)
         == Mul(u * v * (1.0 - c) * (1.0 - c), u * u + v * v + w * w) + Mul(u * v, 1.0 - c * c - s * s)
          - u * v * (1.0 - c) * (1.0 - c)
  {
  }

  // ---------------------------------------------------------------- apply_transform

  /** The first three entries of m . [p; 1]. */
  function ApplyPoint(m: Mat4, p: Vec3): Vec3 {
    Xyz(MulVec4(m, Homogeneous(p)))
  }

  /** For an affine pose, applying it is rotate-then-translate: R p + t. */
  lemma ApplyPointRigidForm(m: Mat4, p: Vec3)
    ensures ApplyPoint(m, p) == Add3(MulVec3(Rotation(m), p), Translation(m))
  {
  }

  /** apply_transform: every point of the list mapped by the pose, in order. */
  function ApplyTransform(coords: seq<Vec3>, m: Mat4): (r: seq<Vec3>)
    ensures |r| == |coords|
    ensures forall i :: 0 <= i < |coords| ==> r[i] == ApplyPoint(m, coords[i])
  {
    seq(|coords|, i requires 0 <= i < |coords| => ApplyPoint(m, coords[i]))
  }

  /** A pure translation adds t to every point. */
  lemma ApplyFromPos(coords: seq<Vec3>, t: Vec3)
    ensures ApplyTransform(coords, FromPos(t)) == seq(|coords|, i requires 0 <= i < |coords| => Add3(coords[i], t))
  {
    var r := ApplyTransform(coords, FromPos(t));
    forall i | 0 <= i < |coords|
      ensures r[i] == Add3(coords[i], t)
    {
      ApplyPointRigidForm(FromPos(t), coords[i]);
    }
  }

  /** The 4x4 identity leaves every point list unchanged. */
  lemma ApplyIdentity(coords: seq<Vec3>)
    ensures ApplyTransform(coords, Identity4) == coords
  {
    var r := ApplyTransform(coords, Identity4);
    forall i | 0 <= i < |coords|
      ensures r[i] == coords[i]
    {
      ApplyPointRigidForm(Identity4, coords[i]);
    }
  }

  /** Applying a then b is applying b . a, as long as a keeps the homogeneous 1. */
  lemma ApplyPointCompose(a: Mat4, b: Mat4, p: Vec3)
    requires IsAffine(a)
    ensures ApplyPoint(b, ApplyPoint(a, p)) == ApplyPoint(Mul4(b, a), p)
  {
    var hp := Homogeneous(p);
    assert Homogeneous(ApplyPoint(a, p)) == MulVec4(a, hp);
    MulVec4Compose(b, a, hp);
  }

  lemma ApplyCompose(coords: seq<Vec3>, a: Mat4, b: Mat4)
    requires IsAffine(a)
    ensures ApplyTransform(ApplyTransform(coords, a), b) == ApplyTransform(coords, Mul4(b, a))
  {
    var lhs := ApplyTransform(ApplyTransform(coords, a), b);
    var rhs := ApplyTransform(coords, Mul4(b, a));
    forall i | 0 <= i < |coords|
      ensures lhs[i] == rhs[i]
    {
      ApplyPointCompose(a, b, coords[i]);
    }
  }

  // ---------------------------------------------------------------- quaternions

  /** A quaternion (q0, q1, q2, q3) with scalar part q0. */
  datatype Quat = Quat(q0: real, q1: real, q2: real, q3: real)

  function Negate(q: Quat): Quat { Quat(-q.q0, -q.q1, -q.q2, -q.q3) }

  /** The squared length q0^2 + q1^2 + q2^2 + q3^2. */
  function QuatNorm2(q: Quat): real {
    Mul(q.q0, q.q0) + Mul(q.q1, q.q1) + Mul(q.q2, q.q2) + Mul(q.q3, q.q3)
  }

  predicate IsUnit(q: Quat) { QuatNorm2(q) == 1.0 }

  /**
   * quaternion_to_rotation_matrix, entry by entry as the source writes it.
   * The trace carries q0^2 and the skew-symmetric part carries q0 times the
   * vector part (q1, q2, q3); rotation_matrix_to_quaternion reads them back.
   */
  function QuatToRot(q: Quat): (r: Mat3)
    ensures r.r0.x + r.r1.y + r.r2.z == 4.0 * Mul(q.q0, q.q0) + 2.0 * QuatNorm2(q) - 3.0
    ensures r.r2.y - r.r1.z == 4.0 * Mul(q.q0, q.q1)
    ensures r.r0.z - r.r2.x == 4.0 * Mul(q.q0, q.q2)
    ensures r.r1.x - r.r0.y == 4.0 * Mul(q.q0, q.q3)
  {
    var q0 := q.q0;
    var q1 := q.q1;
    var q2 := q.q2;
    var q3 := q.q3;
    Mat3(Vec3(2.0 * (Mul(q0, q0) + Mul(q1, q1)) - 1.0, 2.0 * (Mul(q1, q2) - Mul(q0, q3)), 2.0 * (Mul(q1, q3) + Mul(q0, q2))),
         Vec3(2.0 * (Mul(q1, q2) + Mul(q0, q3)), 2.0 * (Mul(q0, q0) + Mul(q2, q2)) - 1.0, 2.0 * (Mul(q2, q3) - Mul(q0, q1))),
         Vec3(2.0 * (Mul(q1, q3) - Mul(q0, q2)), 2.0 * (Mul(q2, q3) + Mul(q0, q1)), 2.0 * (Mul(q0, q0) + Mul(q3, q3)) - 1.0))
  }

  /** q and -q give the same rotation matrix. */
  lemma QuatSignInvariant(q: Quat)
    ensures QuatToRot(Negate(q)) == QuatToRot(q)
  {
    var n := Negate(q);
    forall a: real, b: real
      ensures Mul(-a, -b) == Mul(a, b)
    {
      assert (-a) * (-b) == a * b;
    }
    assert Mul(n.q0, n.q0) == Mul(q.q0, q.q0) && Mul(n.q1, n.q1) == Mul(q.q1, q.q1);
    assert Mul(n.q2, n.q2) == Mul(q.q2, q.q2) && Mul(n.q3, n.q3) == Mul(q.q3, q.q3);
    assert Mul(n.q1, n.q2) == Mul(q.q1, q.q2) && Mul(n.q1, n.q3) == Mul(q.q1, q.q3);
    assert Mul(n.q2, n.q3) == Mul(q.q2, q.q3) && Mul(n.q0, n.q1) == Mul(q.q0, q.q1);
    assert Mul(n.q0, n.q2) == Mul(q.q0, q.q2) && Mul(n.q0, n.q3) == Mul(q.q0, q.q3);
  }

  /** The identity quaternion gives the identity rotation. */
  lemma QuatIdentity()
    ensures QuatToRot(Quat(1.0, 0.0, 0.0, 0.0)) == Identity3
  {
    var q := Quat(1.0, 0.0, 0.0, 0.0);
    assert Mul(q.q0, q.q0) == 1.0;
    assert Mul(q.q1, q.q1) == 0.0 && Mul(q.q2, q.q2) == 0.0 && Mul(q.q3, q.q3) == 0.0;
    assert Mul(q.q1, q.q2) == 0.0 && Mul(q.q1, q.q3) == 0.0 && Mul(q.q2, q.q3) == 0.0;
    assert Mul(q.q0, q.q1) == 0.0 && Mul(q.q0, q.q2) == 0.0 && Mul(q.q0, q.q3) == 0.0;
  }

  /**
   * The homogeneous form of the same matrix, whose diagonal does not use the
   * unit length: it agrees with QuatToRot on unit quaternions. Its products
   * are written with Mul so that the entry lemmas below see them as terms.
   */
  function HomogeneousRot(q: Quat): Mat3 {
    var a, b, c, d := q.q0, q.q1, q.q2, q.q3;
    Mat3(Vec3(Mul(a, a) + Mul(b, b) - Mul(c, c) - Mul(d, d), 2.0 * (Mul(b, c) - Mul(a, d)), 2.0 * (Mul(b, d) + Mul(a, c))),
         Vec3(2.0 * (Mul(b, c) + Mul(a, d)), Mul(a, a) - Mul(b, b) + Mul(c, c) - Mul(d, d), 2.0 * (Mul(c, d) - Mul(a, b))),
         Vec3(2.0 * (Mul(b, d) - Mul(a, c)), 2.0 * (Mul(c, d) + Mul(a, b)), Mul(a, a) - Mul(b, b) - Mul(c, c) + Mul(d, d)))
  }

  lemma UnitRotIsHomogeneous(q: Quat)
    requires IsUnit(q)
    ensures QuatToRot(q) == HomogeneousRot(q)
  {
  }

  /** H^T H = |q|^4 I for the homogeneous form, for every quaternion. */
  lemma HomogeneousGram(q: Quat)
    ensures var n := Mul(QuatNorm2(q), QuatNorm2(q));
      Mul3(Transpose3(HomogeneousRot(q)), HomogeneousRot(q))
        == Mat3(Vec3(n, 0.0, 0.0), Vec3(0.0, n, 0.0), Vec3(0.0, 0.0, n))
  {
    var h := HomogeneousRot(q);
    assert QuatNorm2(q) == Mul(q.q0, q.q0) + Mul(q.q1, q.q1) + Mul(q.q2, q.q2) + Mul(q.q3, q.q3);
    Gram00(q.q0, q.q1, q.q2, q.q3, QuatNorm2(q), h);
    Gram11(q.q0, q.q1, q.q2, q.q3, QuatNorm2(q), h);
    Gram22(q.q0, q.q1, q.q2, q.q3, QuatNorm2(q), h);
    Gram01(q.q0, q.q1, q.q2, q.q3, h);
    Gram02(q.q0, q.q1, q.q2, q.q3, h);
    Gram12(q.q0, q.q1, q.q2, q.q3, h);
  }

  // One lemma per entry of H^T H, for a matrix given entry by entry: each is a
  // polynomial identity in q0..q3 once the entries are substituted.

  lemma Gram00(a: real, b: real, c: real, d: real, n: real, m: Mat3)
    requires n == Mul(a, a) + Mul(b, b) + Mul(c, c) + Mul(d, d)
    requires m.r0.x == Mul(a, a) + Mul(b, b) - Mul(c, c) - Mul(d, d)
    requires m.r1.x == 2.0 * (Mul(b, c) + Mul(a, d))
    requires m.r2.x == 2.0 * (Mul(b, d) - Mul(a, c))
    ensures Mul3(Transpose3(m), m).r0.x == Mul(n, n)
  {
  }
  lemma Gram11(a: real, b: real, c: real, d: real, n: real, m: Mat3)
    requires n == Mul(a, a) + Mul(b, b) + Mul(c, c) + Mul(d, d)
    requires m.r0.y == 2.0 * (Mul(b, c) - Mul(a, d))
    requires m.r1.y == Mul(a, a) - Mul(b, b) + Mul(c, c) - Mul(d, d)
    requires m.r2.y == 2.0 * (Mul(c, d) + Mul(a, b))
    ensures Mul3(Transpose3(m), m).r1.y == Mul(n, n)
  {
  }
  lemma Gram22(a: real, b: real, c: real, d: real, n: real, m: Mat3)
    requires n == Mul(a, a) + Mul(b, b) + Mul(c, c) + Mul(d, d)
    requires m.r0.z == 2.0 * (Mul(b, d) + Mul(a, c))
    requires m.r1.z == 2.0 * (Mul(c, d) - Mul(a, b))
    requires m.r2.z == Mul(a, a) - Mul(b, b) - Mul(c, c) + Mul(d, d)
    ensures Mul3(Transpose3(m), m).r2.z == Mul(n, n)
  {
  }
  lemma Gram01(a: real, b: real, c: real, d: real, m: Mat3)
    requires m.r0.x == Mul(a, a) + Mul(b, b) - Mul(c, c) - Mul(d, d) && m.r0.y == 2.0 * (Mul(b, c) - Mul(a, d))
    requires m.r1.x == 2.0 * (Mul(b, c) + Mul(a, d)) && m.r1.y == Mul(a, a) - Mul(b, b) + Mul(c, c) - Mul(d, d)
    requires m.r2.x == 2.0 * (Mul(b, d) - Mul(a, c)) && m.r2.y == 2.0 * (Mul(c, d) + Mul(a, b))
    ensures Mul3(Transpose3(m), m).r0.y == 0.0
    ensures Mul3(Transpose3(m), m).r1.x == 0.0
  {
  }
  lemma Gram02(a: real, b: real, c: real, d: real, m: Mat3)
    requires m.r0.x == Mul(a, a) + Mul(b, b) - Mul(c, c) - Mul(d, d) && m.r0.z == 2.0 * (Mul(b, d) + Mul(a, c))
    requires m.r1.x == 2.0 * (Mul(b, c) + Mul(a, d)) && m.r1.z == 2.0 * (Mul(c, d) - Mul(a, b))
    requires m.r2.x == 2.0 * (Mul(b, d) - Mul(a, c)) && m.r2.z == Mul(a, a) - Mul(b, b) - Mul(c, c) + Mul(d, d)
    ensures Mul3(Transpose3(m), m).r0.z == 0.0
    ensures Mul3(Transpose3(m), m).r2.x == 0.0
  {
  }
  lemma Gram12(a: real, b: real, c: real, d: real, m: Mat3)
    requires m.r0.y == 2.0 * (Mul(b, c) - Mul(a, d)) && m.r0.z == 2.0 * (Mul(b, d) + Mul(a, c))
    requires m.r1.y == Mul(a, a) - Mul(b, b) + Mul(c, c) - Mul(d, d) && m.r1.z == 2.0 * (Mul(c, d) - Mul(a, b))
    requires m.r2.y == 2.0 * (Mul(c, d) + Mul(a, b)) && m.r2.z == Mul(a, a) - Mul(b, b) - Mul(c, c) + Mul(d, d)
    ensures Mul3(Transpose3(m), m).r1.z == 0.0
    ensures Mul3(Transpose3(m), m).r2.y == 0.0
  {
  }
  /** For a unit quaternion, quaternion_to_rotation_matrix yields an orthonormal matrix. */
  lemma QuatToRotOrthonormal(q: Quat)
    requires IsUnit(q)
    ensures IsOrthonormal(QuatToRot(q))
  {
    UnitRotIsHomogeneous(q);
    HomogeneousGram(q);
    assert Mul(QuatNorm2(q), QuatNorm2(q)) == 1.0;
  }

  /** One of the four (t, q) candidates of rotation_matrix_to_quaternion. */
  datatype QuatCase = QuatCase(t: real, q: Quat)

  /** case0 of rotation_matrix_to_quaternion: its own component q1 is t. */
  function Case0(m: Mat3): (c: QuatCase)
    ensures c.q.q1 == c.t
  {
    var t := 1.0 + m.r0.x - m.r1.y - m.r2.z;
    QuatCase(t, Quat(m.r2.y - m.r1.z, t, m.r1.x + m.r0.y, m.r0.z + m.r2.x))
  }

  /** case1: its own component q2 is t. */
  function Case1(m: Mat3): (c: QuatCase)
    ensures c.q.q2 == c.t
  {
    var t := 1.0 - m.r0.x + m.r1.y - m.r2.z;
    QuatCase(t, Quat(m.r0.z - m.r2.x, m.r1.x + m.r0.y, t, m.r2.y + m.r1.z))
  }

  /** case2: its own component q3 is t. */
  function Case2(m: Mat3): (c: QuatCase)
    ensures c.q.q3 == c.t
  {
    var t := 1.0 - m.r0.x - m.r1.y + m.r2.z;
    QuatCase(t, Quat(m.r1.x - m.r0.y, m.r0.z + m.r2.x, m.r2.y + m.r1.z, t))
  }

  /** case3: its own component q0 is t. */
  function Case3(m: Mat3): (c: QuatCase)
    ensures c.q.q0 == c.t
  {
    var t := 1.0 + m.r0.x + m.r1.y + m.r2.z;
    QuatCase(t, Quat(t, m.r2.y - m.r1.z, m.r0.z - m.r2.x, m.r1.x - m.r0.y))
  }

  /**
   * The nested jnp.where choosing among the four cases by m22 < 0, m00 > m11
   * and m00 < -m11. Whatever the matrix, the chosen t is at least 1, so the
   * square root and the division that follow are always defined.
   */
  function SelectCase(m: Mat3): (c: QuatCase)
    ensures c.t >= 1.0
    ensures c.q.q0 == c.t || c.q.q1 == c.t || c.q.q2 == c.t || c.q.q3 == c.t
  {
    var cond0 := m.r2.z < 0.0;
    var cond1 := m.r0.x > m.r1.y;
    var cond2 := m.r0.x < -m.r1.y;
    if cond0 then (if cond1 then Case0(m) else Case1(m))
    else (if cond2 then Case2(m) else Case3(m))
  }

  /**
   * The final step of rotation_matrix_to_quaternion: the case's vector times
   * 0.5 / sqrt(t). Scaling the result back by 2 sqrt(t) gives the vector, and
   * the component equal to t becomes sqrt(t) / 2, at least 1/2.
   */
  function FromCase(num: Primitives, c: QuatCase): (q: Quat)
    requires SqrtLaw(num)
    requires c.t >= 1.0
    ensures var s := num.sqrt(c.t);
      && s >= 1.0
      && Mul(2.0 * s, q.q0) == c.q.q0 && Mul(2.0 * s, q.q1) == c.q.q1
      && Mul(2.0 * s, q.q2) == c.q.q2 && Mul(2.0 * s, q.q3) == c.q.q3
    ensures c.q.q0 == c.t ==> q.q0 >= 0.5
    ensures c.q.q1 == c.t ==> q.q1 >= 0.5
    ensures c.q.q2 == c.t ==> q.q2 >= 0.5
    ensures c.q.q3 == c.t ==> q.q3 >= 0.5
  {
    var s := num.sqrt(c.t);
    assert s * s == c.t;
    SqrtAtLeastOne(s, c.t);
    var q := Quat(c.q.q0 * 0.5 / s, c.q.q1 * 0.5 / s, c.q.q2 * 0.5 / s, c.q.q3 * 0.5 / s);
    ScaleBack(s, c.t, c.q.q0);
    ScaleBack(s, c.t, c.q.q1);
    ScaleBack(s, c.t, c.q.q2);
    ScaleBack(s, c.t, c.q.q3);
    q
  }

  lemma SqrtAtLeastOne(s: real, t: real)
    requires s >= 0.0 && s * s == t && t >= 1.0
    ensures s >= 1.0
  {
    assert s < 1.0 ==> s * s <= s;
  }

  /** x * 0.5 / s, scaled back by 2 s, is x; and t * 0.5 / s is s / 2 when s^2 = t. */
  lemma ScaleBack(s: real, t: real, x: real)
    requires s >= 1.0 && s * s == t
    ensures Mul(2.0 * s, x * 0.5 / s) == x
    ensures x == t ==> x * 0.5 / s >= 0.5
  {
    if x == t {
      assert t * 0.5 / s == s * 0.5;
    }
  }

  /**
   * rotation_matrix_to_quaternion. Whatever the matrix, the component of the
   * chosen case is at least 1/2, so the result is never the zero quaternion.
   */
  function RotToQuat(num: Primitives, m: Mat3): (q: Quat)
    requires SqrtLaw(num)
    ensures q.q0 >= 0.5 || q.q1 >= 0.5 || q.q2 >= 0.5 || q.q3 >= 0.5
  {
    FromCase(num, SelectCase(m))
  }

  /**
   * What every case computes from the matrix of a unit quaternion q: t = 4 c^2
   * and the vector 4 c q, where c is one component of q.
   */
  function ScaledCase(c: real, q: Quat): QuatCase {
    QuatCase(4.0 * Mul(c, c), Quat(4.0 * Mul(c, q.q0), 4.0 * Mul(c, q.q1), 4.0 * Mul(c, q.q2), 4.0 * Mul(c, q.q3)))
  }

  // Each case of a unit quaternion's matrix: the depth t = 4 c^2 needs the unit
  // length, the three other vector entries 4 c q_k are identities on their own.

  lemma Case0OfUnit(q: Quat)
    requires IsUnit(q)
    ensures Case0(QuatToRot(q)) == ScaledCase(q.q1, q)
  {
    Case0Depth(q);
    Case0Vector(q);
  }

  lemma Case0Depth(q: Quat)
    requires IsUnit(q)
    ensures Case0(QuatToRot(q)).t == 4.0 * Mul(q.q1, q.q1)
  {
  }

  lemma Case0Vector(q: Quat)
    ensures Case0(QuatToRot(q)).q.q0 == 4.0 * Mul(q.q1, q.q0)
    ensures Case0(QuatToRot(q)).q.q2 == 4.0 * Mul(q.q1, q.q2)
    ensures Case0(QuatToRot(q)).q.q3 == 4.0 * Mul(q.q1, q.q3)
  {
  }

  lemma Case1OfUnit(q: Quat)
    requires IsUnit(q)
    ensures Case1(QuatToRot(q)) == ScaledCase(q.q2, q)
  {
    Case1Depth(q);
    Case1Vector(q);
  }

  lemma Case1Depth(q: Quat)
    requires IsUnit(q)
    ensures Case1(QuatToRot(q)).t == 4.0 * Mul(q.q2, q.q2)
  {
  }

  lemma Case1Vector(q: Quat)
    ensures Case1(QuatToRot(q)).q.q0 == 4.0 * Mul(q.q2, q.q0)
    ensures Case1(QuatToRot(q)).q.q1 == 4.0 * Mul(q.q2, q.q1)
    ensures Case1(QuatToRot(q)).q.q3 == 4.0 * Mul(q.q2, q.q3)
  {
  }

  lemma Case2OfUnit(q: Quat)
    requires IsUnit(q)
    ensures Case2(QuatToRot(q)) == ScaledCase(q.q3, q)
  {
    Case2Depth(q);
    Case2Vector(q);
  }

  lemma Case2Depth(q: Quat)
    requires IsUnit(q)
    ensures Case2(QuatToRot(q)).t == 4.0 * Mul(q.q3, q.q3)
  {
  }

  lemma Case2Vector(q: Quat)
    ensures Case2(QuatToRot(q)).q.q0 == 4.0 * Mul(q.q3, q.q0)
    ensures Case2(QuatToRot(q)).q.q1 == 4.0 * Mul(q.q3, q.q1)
    ensures Case2(QuatToRot(q)).q.q2 == 4.0 * Mul(q.q3, q.q2)
  {
  }

  lemma Case3OfUnit(q: Quat)
    requires IsUnit(q)
    ensures Case3(QuatToRot(q)) == ScaledCase(q.q0, q)
  {
    Case3Depth(q);
    Case3Vector(q);
  }

  lemma Case3Depth(q: Quat)
    requires IsUnit(q)
    ensures Case3(QuatToRot(q)).t == 4.0 * Mul(q.q0, q.q0)
  {
  }

  lemma Case3Vector(q: Quat)
    ensures Case3(QuatToRot(q)).q.q1 == 4.0 * Mul(q.q0, q.q1)
    ensures Case3(QuatToRot(q)).q.q2 == 4.0 * Mul(q.q0, q.q2)
    ensures Case3(QuatToRot(q)).q.q3 == 4.0 * Mul(q.q0, q.q3)
  {
  }

  /**
   * Converting the rotation matrix of a unit quaternion back gives the same
   * quaternion up to sign: the sign of the component the chosen case divides by.
   */
  lemma QuatRoundTrip(num: Primitives, q: Quat)
    requires SqrtLaw(num)
    requires IsUnit(q)
    ensures RotToQuat(num, QuatToRot(q)) == q || RotToQuat(num, QuatToRot(q)) == Negate(q)
  {
    var m := QuatToRot(q);
    Case0OfUnit(q);
    Case1OfUnit(q);
    Case2OfUnit(q);
    Case3OfUnit(q);
    var c := SelectCase(m);
    if c == ScaledCase(q.q1, q) {
      FromScaledCase(num, q.q1, q);
    } else if c == ScaledCase(q.q2, q) {
      FromScaledCase(num, q.q2, q);
    } else if c == ScaledCase(q.q3, q) {
      FromScaledCase(num, q.q3, q);
    } else {
      FromScaledCase(num, q.q0, q);
    }
  }

  /** Dividing the case 4 c q by 2 sqrt(4 c^2) = 2 |c| leaves q times the sign of c. */
  lemma FromScaledCase(num: Primitives, c: real, q: Quat)
    requires SqrtLaw(num)
    requires ScaledCase(c, q).t >= 1.0
    ensures FromCase(num, ScaledCase(c, q)) == (if c > 0.0 then q else Negate(q))
  {
    var sc := ScaledCase(c, q);
    var s := num.sqrt(sc.t);
    assert c != 0.0;
    SqrtOfSquare(s, c);
    Unscale(c, q.q0, s);
    Unscale(c, q.q1, s);
    Unscale(c, q.q2, s);
    Unscale(c, q.q3, s);
  }

  /** A non-negative s with s * s = 4 c^2 is 2 |c|. */
  lemma SqrtOfSquare(s: real, c: real)
    requires s >= 0.0
    requires s * s == 4.0 * Mul(c, c)
    ensures s == 2.0 * Abs(c)
  {
    var a := 2.0 * Abs(c);
    assert Mul(s - a, s + a) == 0.0;
    if s + a > 0.0 {
      if s - a > 0.0 {
        ProductPositive(s - a, s + a);
      } else if s - a < 0.0 {
        ProductPositive(a - s, s + a);
      }
    }
  }

  /** (4 c x) * 0.5 / (2 |c|) is x with the sign of c. */
  lemma Unscale(c: real, x: real, s: real)
    requires c != 0.0
    requires s == 2.0 * Abs(c)
    ensures 4.0 * Mul(c, x) * 0.5 / s == (if c > 0.0 then x else -x)
  {
    var y := 4.0 * Mul(c, x) * 0.5;
    var z := if c > 0.0 then x else -x;
    assert y == z * s;
    DivideBack(y, s, z);
  }

  lemma DivideBack(y: real, s: real, z: real)
    requires s != 0.0
    requires y == z * s
    ensures y / s == z
  {
  }
}
