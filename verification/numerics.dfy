/**
 * The numerical primitives the geometry code borrows from jax.numpy and that
 * have no closed form over exact reals: jnp.sqrt (also inside
 * jnp.linalg.norm), jnp.sin, jnp.cos, the constant jnp.pi and
 * jnp.linalg.inv. They are handed to the model as one record of functions,
 * and what the proofs may assume about them is stated as laws.
 */
module Numerics {
  import opened Linalg

  datatype Primitives = Primitives(
    sqrt: real -> real,
    sin: real -> real,
    cos: real -> real,
    pi: real,
    inv: Mat4 -> Mat4)

  /** sqrt returns the non-negative square root of a non-negative argument. */
  ghost predicate SqrtLaw(num: Primitives) {
    forall x: real :: 0.0 <= x ==> 0.0 <= num.sqrt(x) && num.sqrt(x) * num.sqrt(x) == x
  }

  /** sin^2 + cos^2 = 1 at every angle. */
  ghost predicate TrigLaw(num: Primitives) {
    forall a: real :: num.sin(a) * num.sin(a) + num.cos(a) * num.cos(a) == 1.0
  }

  /** On a rigid pose, jnp.linalg.inv agrees with the closed form [R^T | -R^T t]. */
  ghost predicate InverseLaw(num: Primitives) {
    forall m: Mat4 :: IsRigid(m) ==> num.inv(m) == RigidInverse(m)
  }

  /** Euclidean length (jnp.linalg.norm of a 3-vector). */
  function Norm(num: Primitives, v: Vec3): real {
    num.sqrt(Dot3(v, v))
  }

  /** A non-zero vector has a positive length whose square is v . v. */
  lemma NormPositive(num: Primitives, v: Vec3)
    requires SqrtLaw(num)
    requires v != Zero3
    ensures Norm(num, v) > 0.0
    ensures Norm(num, v) * Norm(num, v) == Dot3(v, v)
  {
    DotSelfPositive(v);
    var r := num.sqrt(Dot3(v, v));
    assert r * r == Dot3(v, v);
  }

  /** v . v is positive for every non-zero v. */
  lemma DotSelfPositive(v: Vec3)
    requires v != Zero3
    ensures Dot3(v, v) > 0.0
  {
    assert Dot3(v, v) == Mul(v.x, v.x) + Mul(v.y, v.y) + Mul(v.z, v.z);
    SquareSign(v.x);
    SquareSign(v.y);
    SquareSign(v.z);
  }

  /**
   * A product kept behind a function symbol, so that facts about a product
   * (the sign of a square a * a, an entry of a matrix) reach their users as
   * facts about the term Mul(a, b).
   */
  function Mul(a: real, b: real): real { a * b }

  lemma ProductPositive(a: real, b: real)
    requires (a > 0.0 && b > 0.0) || (a < 0.0 && b < 0.0)
    ensures Mul(a, b) > 0.0
  {
    assert Mul(a, b) == a * b;
    if a < 0.0 {
      assert a * b == (-a) * (-b);
    }
  }

  lemma SquareSign(a: real)
    ensures Mul(a, a) >= 0.0
    ensures a != 0.0 ==> Mul(a, a) > 0.0
  {
    if a != 0.0 {
      ProductPositive(a, a);
    } else {
      assert Mul(a, a) == 0.0 * 0.0;
    }
  }
}
