/** Three-component real vectors: the numpy arithmetic the geometry kernel
    uses (`-`, `+`, scalar `*`, `/` by a scalar, `np.dot`, `np.cross`),
    over exact reals. */
module Vectors {

  datatype Vec3 = Vec3(x: real, y: real, z: real)

  const Zero: Vec3 := Vec3(0.0, 0.0, 0.0)

  function Add(a: Vec3, b: Vec3): Vec3 {
    Vec3(a.x + b.x, a.y + b.y, a.z + b.z)
  }

  function Sub(a: Vec3, b: Vec3): Vec3 {
    Vec3(a.x - b.x, a.y - b.y, a.z - b.z)
  }

  function Scale(k: real, a: Vec3): Vec3 {
    Vec3(k * a.x, k * a.y, k * a.z)
  }

  /** Component-wise division by a scalar, numpy's `a / k`. */
  function Divide(a: Vec3, k: real): Vec3
    requires k != 0.0
  {
    Vec3(a.x / k, a.y / k, a.z / k)
  }

  function Dot(a: Vec3, b: Vec3): real {
    a.x * b.x + a.y * b.y + a.z * b.z
  }

  function Cross(a: Vec3, b: Vec3): Vec3 {
    Vec3(a.y * b.z - a.z * b.y, a.z * b.x - a.x * b.z, a.x * b.y - a.y * b.x)
  }

  lemma SquareNonNegative(r: real)
    ensures r * r >= 0.0
  {
    if r < 0.0 {
      assert r * r == (-r) * (-r);
    }
  }

  lemma SquareZero(r: real)
    ensures r * r == 0.0 ==> r == 0.0
  {
    if r != 0.0 {
      assert (r * r) / r == r;
    }
  }

  lemma SumOfSquares(x: real, y: real, z: real)
    ensures x * x + y * y + z * z >= 0.0
    ensures x * x + y * y + z * z == 0.0 ==> x == 0.0 && y == 0.0 && z == 0.0
  {
    SquareNonNegative(x);
    SquareNonNegative(y);
    SquareNonNegative(z);
    SquareZero(x);
    SquareZero(y);
    SquareZero(z);
  }

  /** A vector's squared length is non-negative, and zero only for the zero vector. */
  lemma DotSelf(a: Vec3)
    ensures Dot(a, a) >= 0.0
    ensures Dot(a, a) == 0.0 <==> a == Zero
  {
    SumOfSquares(a.x, a.y, a.z);
  }

  /** Two vectors are equal exactly when their difference is the zero vector. */
  lemma SubZero(a: Vec3, b: Vec3)
    ensures Sub(a, b) == Zero <==> a == b
  {
  }

  /** Dividing a non-zero vector by a non-zero scalar gives a non-zero vector. */
  lemma DivideNonZero(a: Vec3, k: real)
    requires k != 0.0 && a != Zero
    ensures Divide(a, k) != Zero
  {
    if a.x != 0.0 {
      assert (a.x / k) * k == a.x;
    } else if a.y != 0.0 {
      assert (a.y / k) * k == a.y;
    } else {
      assert (a.z / k) * k == a.z;
    }
  }

  lemma CyclicIdentity(a1: real, a2: real, a3: real, b1: real, b2: real, b3: real, c1: real, c2: real, c3: real)
    ensures a1 * (b2 * c3 - b3 * c2) + a2 * (b3 * c1 - b1 * c3) + a3 * (b1 * c2 - b2 * c1)
         == b1 * (c2 * a3 - c3 * a2) + b2 * (c3 * a1 - c1 * a3) + b3 * (c1 * a2 - c2 * a1)
  {
  }

  lemma SwapIdentity(a1: real, a2: real, a3: real, b1: real, b2: real, b3: real, c1: real, c2: real, c3: real)
    ensures a1 * (b2 * c3 - b3 * c2) + a2 * (b3 * c1 - b1 * c3) + a3 * (b1 * c2 - b2 * c1)
         == -(a1 * (c2 * b3 - c3 * b2) + a2 * (c3 * b1 - c1 * b3) + a3 * (c1 * b2 - c2 * b1))
  {
  }

  /** The scalar triple product is invariant under cyclic rotation. */
  lemma TripleProductCyclic(a: Vec3, b: Vec3, c: Vec3)
    ensures Dot(a, Cross(b, c)) == Dot(b, Cross(c, a))
  {
    CyclicIdentity(a.x, a.y, a.z, b.x, b.y, b.z, c.x, c.y, c.z);
  }

  /** The scalar triple product changes sign when two arguments are swapped. */
  lemma TripleProductSwap(a: Vec3, b: Vec3, c: Vec3)
    ensures Dot(a, Cross(b, c)) == -Dot(a, Cross(c, b))
  {
    SwapIdentity(a.x, a.y, a.z, b.x, b.y, b.z, c.x, c.y, c.z);
  }

  /** The scalar triple product vanishes when two arguments coincide. */
  lemma TripleProductRepeated(a: Vec3, b: Vec3)
    ensures Dot(a, Cross(a, b)) == 0.0
    ensures Dot(b, Cross(a, b)) == 0.0
  {
    TripleProductCyclic(a, a, b);
    TripleProductSwap(a, a, b);
    TripleProductCyclic(b, a, b);
    TripleProductSwap(b, b, a);
  }
}
