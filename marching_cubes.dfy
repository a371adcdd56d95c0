/** The segment / triangle-mesh intersection kernel: the Moller-Trumbore test
    on one triangle, the scan of a face list for any hit, and the scan that
    returns the folded angle between the segment and the normal of the first
    face hit. */
module MarchingCubes {
  import opened Vectors
  import opened Algebra

  /** The tolerance `1e-10` of the determinant test and of the lower bound on `t`. */
  const Eps: real := 0.0000000001

  /** numpy's `np.pi`. */
  const Pi: real := 3.141592653589793

  /** A triangle of the mesh: three indices into the vertex list. */
  datatype Face = Face(i0: nat, i1: nat, i2: nat)

  predicate FaceInMesh(verts: seq<Vec3>, face: Face) {
    face.i0 < |verts| && face.i1 < |verts| && face.i2 < |verts|
  }

  /** Every face indexes existing vertices (the mesh generator guarantees it; the kernel never checks). */
  predicate MeshValid(verts: seq<Vec3>, faces: seq<Face>) {
    forall k :: 0 <= k < |faces| ==> FaceInMesh(verts, faces[k])
  }

  // ---------------------------------------------------------------------------
  // One triangle

  /** The determinant `a = e1 . (d x e2)` of the test, with `e1`, `e2` the triangle's edges from `v0`. */
  function Determinant(d: Vec3, v0: Vec3, v1: Vec3, v2: Vec3): real {
    Dot(Sub(v1, v0), Cross(d, Sub(v2, v0)))
  }

  /** The numbers the test computes once the determinant is usable: the
      barycentric coordinates `u`, `v` and the segment parameter `t`. */
  datatype Barycentric = Barycentric(u: real, v: real, t: real)

  /** Cramer's rule as the test writes it: `f = 1/a`, `u = f (s . h)`, `v = f (d . q)`, `t = f (e2 . q)`. */
  function Solve(p: Vec3, d: Vec3, v0: Vec3, v1: Vec3, v2: Vec3): Barycentric
    requires Determinant(d, v0, v1, v2) != 0.0
  {
    var e1 := Sub(v1, v0);
    var e2 := Sub(v2, v0);
    var h := Cross(d, e2);
    var f := 1.0 / Dot(e1, h);
    var s := Sub(p, v0);
    var q := Cross(s, e1);
    Barycentric(f * Dot(s, h), f * Dot(d, q), f * Dot(e2, q))
  }

  /** The Moller-Trumbore test on the triangle `v0 v1 v2` for the segment that
      starts at `p` and has direction `d`, with its early exits in order. */
  function TriangleHit(p: Vec3, d: Vec3, v0: Vec3, v1: Vec3, v2: Vec3): bool {
    var a := Determinant(d, v0, v1, v2);
    if a > -Eps && a < Eps then false
    else
      var c := Solve(p, d, v0, v1, v2);
      if c.u < 0.0 || c.u > 1.0 then false
      else if c.v < 0.0 || c.u + c.v > 1.0 then false
      else c.t > Eps && c.t < 1.0
  }

  /** ray_triangle_intersection on the triangle `face` of the mesh. */
  function RayTriangleIntersection(p: Vec3, d: Vec3, verts: seq<Vec3>, face: Face): bool
    requires FaceInMesh(verts, face)
  {
    TriangleHit(p, d, verts[face.i0], verts[face.i1], verts[face.i2])
  }

  /** The point `p + t d` of the segment's line is the point `v0 + u e1 + v e2` of the triangle's plane. */
  predicate OnPlane(p: Vec3, d: Vec3, v0: Vec3, v1: Vec3, v2: Vec3, t: real, u: real, v: real) {
    Add(p, Scale(t, d)) == Add(v0, Add(Scale(u, Sub(v1, v0)), Scale(v, Sub(v2, v0))))
  }

  /** The segment crosses the closed triangle at parameter `t`, strictly between its end points. */
  predicate CrossingAt(p: Vec3, d: Vec3, v0: Vec3, v1: Vec3, v2: Vec3, t: real, u: real, v: real) {
    OnPlane(p, d, v0, v1, v2, t, u, v) && 0.0 <= u && 0.0 <= v && u + v <= 1.0 && Eps < t < 1.0
  }

  lemma PlaneOffset(p: Vec3, d: Vec3, v0: Vec3, v1: Vec3, v2: Vec3, t: real, u: real, v: real)
    requires OnPlane(p, d, v0, v1, v2, t, u, v)
    ensures Sub(p, v0).x == (u * Sub(v1, v0).x + v * Sub(v2, v0).x) - t * d.x
    ensures Sub(p, v0).y == (u * Sub(v1, v0).y + v * Sub(v2, v0).y) - t * d.y
    ensures Sub(p, v0).z == (u * Sub(v1, v0).z + v * Sub(v2, v0).z) - t * d.z
  {
  }

  lemma OffsetOnPlane(p: Vec3, d: Vec3, v0: Vec3, v1: Vec3, v2: Vec3, t: real, u: real, v: real)
    requires Sub(p, v0).x + t * d.x == u * Sub(v1, v0).x + v * Sub(v2, v0).x
    requires Sub(p, v0).y + t * d.y == u * Sub(v1, v0).y + v * Sub(v2, v0).y
    requires Sub(p, v0).z + t * d.z == u * Sub(v1, v0).z + v * Sub(v2, v0).z
    ensures OnPlane(p, d, v0, v1, v2, t, u, v)
  {
  }

  lemma ProductU(s: Vec3, d: Vec3, e1: Vec3, e2: Vec3, t: real, u: real, v: real)
    requires s.x == (u * e1.x + v * e2.x) - t * d.x
    requires s.y == (u * e1.y + v * e2.y) - t * d.y
    requires s.z == (u * e1.z + v * e2.z) - t * d.z
    ensures Dot(s, Cross(d, e2)) == u * Dot(e1, Cross(d, e2))
  {
    var h := Cross(d, e2);
    SubstU(s.x, s.y, s.z, e1.x, e1.y, e1.z, e2.x, e2.y, e2.z, d.x, d.y, d.z, u, v, t, h.x, h.y, h.z, Dot(e1, h));
  }

  lemma CrossOffset(s: Vec3, d: Vec3, e1: Vec3, e2: Vec3, t: real, u: real, v: real)
    requires s.x == (u * e1.x + v * e2.x) - t * d.x
    requires s.y == (u * e1.y + v * e2.y) - t * d.y
    requires s.z == (u * e1.z + v * e2.z) - t * d.z
    ensures Cross(s, e1).x == v * (e2.y * e1.z - e2.z * e1.y) - t * (d.y * e1.z - d.z * e1.y)
    ensures Cross(s, e1).y == v * (e2.z * e1.x - e2.x * e1.z) - t * (d.z * e1.x - d.x * e1.z)
    ensures Cross(s, e1).z == v * (e2.x * e1.y - e2.y * e1.x) - t * (d.x * e1.y - d.y * e1.x)
  {
    var q := Cross(s, e1);
    QComponent(s.y, s.z, e1.y, e1.z, e2.y, e2.z, d.y, d.z, u, v, t, q.x);
    QComponent(s.z, s.x, e1.z, e1.x, e2.z, e2.x, d.z, d.x, u, v, t, q.y);
    QComponent(s.x, s.y, e1.x, e1.y, e2.x, e2.y, d.x, d.y, u, v, t, q.z);
  }

  lemma ProductV(q: Vec3, d: Vec3, e1: Vec3, e2: Vec3, t: real, v: real)
    requires q.x == v * (e2.y * e1.z - e2.z * e1.y) - t * (d.y * e1.z - d.z * e1.y)
    requires q.y == v * (e2.z * e1.x - e2.x * e1.z) - t * (d.z * e1.x - d.x * e1.z)
    requires q.z == v * (e2.x * e1.y - e2.y * e1.x) - t * (d.x * e1.y - d.y * e1.x)
    ensures Dot(d, q) == v * Dot(e1, Cross(d, e2))
  {
    DotQV(e1.x, e1.y, e1.z, e2.x, e2.y, e2.z, d.x, d.y, d.z, v, t, q.x, q.y, q.z, Dot(e1, Cross(d, e2)));
  }

  lemma ProductT(q: Vec3, d: Vec3, e1: Vec3, e2: Vec3, t: real, v: real)
    requires q.x == v * (e2.y * e1.z - e2.z * e1.y) - t * (d.y * e1.z - d.z * e1.y)
    requires q.y == v * (e2.z * e1.x - e2.x * e1.z) - t * (d.z * e1.x - d.x * e1.z)
    requires q.z == v * (e2.x * e1.y - e2.y * e1.x) - t * (d.x * e1.y - d.y * e1.x)
    ensures Dot(e2, q) == t * Dot(e1, Cross(d, e2))
  {
    DotQT(e1.x, e1.y, e1.z, e2.x, e2.y, e2.z, d.x, d.y, d.z, v, t, q.x, q.y, q.z, Dot(e1, Cross(d, e2)));
  }

  /** For any point of the plane, the three dot products the test computes are
      `u`, `v` and `t` times the determinant. */
  lemma PlaneParameters(p: Vec3, d: Vec3, v0: Vec3, v1: Vec3, v2: Vec3, t: real, u: real, v: real)
    requires OnPlane(p, d, v0, v1, v2, t, u, v)
    ensures Dot(Sub(p, v0), Cross(d, Sub(v2, v0))) == u * Dot(Sub(v1, v0), Cross(d, Sub(v2, v0)))
    ensures Dot(d, Cross(Sub(p, v0), Sub(v1, v0))) == v * Dot(Sub(v1, v0), Cross(d, Sub(v2, v0)))
    ensures Dot(Sub(v2, v0), Cross(Sub(p, v0), Sub(v1, v0))) == t * Dot(Sub(v1, v0), Cross(d, Sub(v2, v0)))
  {
    var e1, e2, s := Sub(v1, v0), Sub(v2, v0), Sub(p, v0);
    PlaneOffset(p, d, v0, v1, v2, t, u, v);
    ProductU(s, d, e1, e2, t, u, v);
    CrossOffset(s, d, e1, e2, t, u, v);
    ProductV(Cross(s, e1), d, e1, e2, t, v);
    ProductT(Cross(s, e1), d, e1, e2, t, v);
  }

  /** Cramer's rule on the edge vectors: `a s + (e2 . q) d == (s . h) e1 + (d . q) e2`. */
  lemma CramerVectors(s: Vec3, d: Vec3, e1: Vec3, e2: Vec3)
    ensures Dot(e1, Cross(d, e2)) * s.x + Dot(e2, Cross(s, e1)) * d.x == Dot(s, Cross(d, e2)) * e1.x + Dot(d, Cross(s, e1)) * e2.x
    ensures Dot(e1, Cross(d, e2)) * s.y + Dot(e2, Cross(s, e1)) * d.y == Dot(s, Cross(d, e2)) * e1.y + Dot(d, Cross(s, e1)) * e2.y
    ensures Dot(e1, Cross(d, e2)) * s.z + Dot(e2, Cross(s, e1)) * d.z == Dot(s, Cross(d, e2)) * e1.z + Dot(d, Cross(s, e1)) * e2.z
  {
    var h, q := Cross(d, e2), Cross(s, e1);
    Cramer(s.x, s.y, s.z, e1.x, e1.y, e1.z, e2.x, e2.y, e2.z, d.x, d.y, d.z, h.x, h.y, h.z, q.x, q.y, q.z,
           Dot(e1, h), Dot(s, h), Dot(d, q), Dot(e2, q));
  }

  /** Each computed coordinate times the determinant is the dot product it was divided from. */
  lemma SolveScaled(p: Vec3, d: Vec3, v0: Vec3, v1: Vec3, v2: Vec3)
    requires Determinant(d, v0, v1, v2) != 0.0
    ensures Solve(p, d, v0, v1, v2).u * Dot(Sub(v1, v0), Cross(d, Sub(v2, v0))) == Dot(Sub(p, v0), Cross(d, Sub(v2, v0)))
    ensures Solve(p, d, v0, v1, v2).v * Dot(Sub(v1, v0), Cross(d, Sub(v2, v0))) == Dot(d, Cross(Sub(p, v0), Sub(v1, v0)))
    ensures Solve(p, d, v0, v1, v2).t * Dot(Sub(v1, v0), Cross(d, Sub(v2, v0))) == Dot(Sub(v2, v0), Cross(Sub(p, v0), Sub(v1, v0)))
  {
    var e1, e2, s := Sub(v1, v0), Sub(v2, v0), Sub(p, v0);
    var a := Dot(e1, Cross(d, e2));
    InverseTimes(a, Dot(s, Cross(d, e2)));
    InverseTimes(a, Dot(d, Cross(s, e1)));
    InverseTimes(a, Dot(e2, Cross(s, e1)));
  }

  /** Cramer's rule divided by the determinant, one coordinate at a time. */
  lemma SolveX(p: Vec3, d: Vec3, v0: Vec3, v1: Vec3, v2: Vec3)
    requires Determinant(d, v0, v1, v2) != 0.0
    ensures Sub(p, v0).x + Solve(p, d, v0, v1, v2).t * d.x == Solve(p, d, v0, v1, v2).u * Sub(v1, v0).x + Solve(p, d, v0, v1, v2).v * Sub(v2, v0).x
  {
    var e1, e2, s := Sub(v1, v0), Sub(v2, v0), Sub(p, v0);
    var a := Dot(e1, Cross(d, e2));
    var uu, vv, tt := Dot(s, Cross(d, e2)), Dot(d, Cross(s, e1)), Dot(e2, Cross(s, e1));
    var c := Solve(p, d, v0, v1, v2);
    SolveScaled(p, d, v0, v1, v2);
    CramerVectors(s, d, e1, e2);
    Divided(a, s.x, d.x, e1.x, e2.x, c.u, c.v, c.t, uu, vv, tt);
  }

  lemma SolveY(p: Vec3, d: Vec3, v0: Vec3, v1: Vec3, v2: Vec3)
    requires Determinant(d, v0, v1, v2) != 0.0
    ensures Sub(p, v0).y + Solve(p, d, v0, v1, v2).t * d.y == Solve(p, d, v0, v1, v2).u * Sub(v1, v0).y + Solve(p, d, v0, v1, v2).v * Sub(v2, v0).y
  {
    var e1, e2, s := Sub(v1, v0), Sub(v2, v0), Sub(p, v0);
    var a := Dot(e1, Cross(d, e2));
    var uu, vv, tt := Dot(s, Cross(d, e2)), Dot(d, Cross(s, e1)), Dot(e2, Cross(s, e1));
    var c := Solve(p, d, v0, v1, v2);
    SolveScaled(p, d, v0, v1, v2);
    CramerVectors(s, d, e1, e2);
    Divided(a, s.y, d.y, e1.y, e2.y, c.u, c.v, c.t, uu, vv, tt);
  }

  lemma SolveZ(p: Vec3, d: Vec3, v0: Vec3, v1: Vec3, v2: Vec3)
    requires Determinant(d, v0, v1, v2) != 0.0
    ensures Sub(p, v0).z + Solve(p, d, v0, v1, v2).t * d.z == Solve(p, d, v0, v1, v2).u * Sub(v1, v0).z + Solve(p, d, v0, v1, v2).v * Sub(v2, v0).z
  {
    var e1, e2, s := Sub(v1, v0), Sub(v2, v0), Sub(p, v0);
    var a := Dot(e1, Cross(d, e2));
    var uu, vv, tt := Dot(s, Cross(d, e2)), Dot(d, Cross(s, e1)), Dot(e2, Cross(s, e1));
    var c := Solve(p, d, v0, v1, v2);
    SolveScaled(p, d, v0, v1, v2);
    CramerVectors(s, d, e1, e2);
    Divided(a, s.z, d.z, e1.z, e2.z, c.u, c.v, c.t, uu, vv, tt);
  }

  /** The computed coordinates locate the point where the segment's line meets the plane. */
  lemma SolveOnPlane(p: Vec3, d: Vec3, v0: Vec3, v1: Vec3, v2: Vec3)
    requires Determinant(d, v0, v1, v2) != 0.0
    ensures OnPlane(p, d, v0, v1, v2, Solve(p, d, v0, v1, v2).t, Solve(p, d, v0, v1, v2).u, Solve(p, d, v0, v1, v2).v)
  {
    var c := Solve(p, d, v0, v1, v2);
    SolveX(p, d, v0, v1, v2);
    SolveY(p, d, v0, v1, v2);
    SolveZ(p, d, v0, v1, v2);
    OffsetOnPlane(p, d, v0, v1, v2, c.t, c.u, c.v);
  }

  /** With a non-zero determinant a point of the line has exactly one set of plane
      coordinates, and the test computes them. */
  lemma SolveUnique(p: Vec3, d: Vec3, v0: Vec3, v1: Vec3, v2: Vec3, t: real, u: real, v: real)
    requires Determinant(d, v0, v1, v2) != 0.0
    requires OnPlane(p, d, v0, v1, v2, t, u, v)
    ensures Solve(p, d, v0, v1, v2) == Barycentric(u, v, t)
  {
    var e1, e2, s := Sub(v1, v0), Sub(v2, v0), Sub(p, v0);
    var a := Dot(e1, Cross(d, e2));
    PlaneParameters(p, d, v0, v1, v2, t, u, v);
    CancelBy(a, Dot(s, Cross(d, e2)), u);
    CancelBy(a, Dot(d, Cross(s, e1)), v);
    CancelBy(a, Dot(e2, Cross(s, e1)), t);
  }

  /** The test is true exactly when the determinant is outside `(-1e-10, 1e-10)` and
      the segment crosses the closed triangle at some `t` with `1e-10 < t < 1`. */
  lemma TriangleHitMeaning(p: Vec3, d: Vec3, v0: Vec3, v1: Vec3, v2: Vec3)
    ensures TriangleHit(p, d, v0, v1, v2) <==>
      !(-Eps < Determinant(d, v0, v1, v2) < Eps) && exists t, u, v :: CrossingAt(p, d, v0, v1, v2, t, u, v)
  {
    if !(-Eps < Determinant(d, v0, v1, v2) < Eps) {
      var c := Solve(p, d, v0, v1, v2);
      SolveOnPlane(p, d, v0, v1, v2);
      if TriangleHit(p, d, v0, v1, v2) {
        assert CrossingAt(p, d, v0, v1, v2, c.t, c.u, c.v);
      }
      if exists t, u, v :: CrossingAt(p, d, v0, v1, v2, t, u, v) {
        var t, u, v :| CrossingAt(p, d, v0, v1, v2, t, u, v);
        SolveUnique(p, d, v0, v1, v2, t, u, v);
      }
    }
  }

  /** ray_triangle_intersection, stated geometrically on the mesh's face. */
  lemma RayTriangleIntersectionMeaning(p: Vec3, d: Vec3, verts: seq<Vec3>, face: Face)
    requires FaceInMesh(verts, face)
    ensures RayTriangleIntersection(p, d, verts, face) <==>
      var v0, v1, v2 := verts[face.i0], verts[face.i1], verts[face.i2];
      !(-Eps < Determinant(d, v0, v1, v2) < Eps) && exists t, u, v :: CrossingAt(p, d, v0, v1, v2, t, u, v)
  {
    TriangleHitMeaning(p, d, verts[face.i0], verts[face.i1], verts[face.i2]);
  }

  /** A segment whose start point lies in the triangle's plane is never a hit (`t = 0` there). */
  lemma StartOnPlaneMisses(p: Vec3, d: Vec3, verts: seq<Vec3>, face: Face, u: real, v: real)
    requires FaceInMesh(verts, face)
    requires OnPlane(p, d, verts[face.i0], verts[face.i1], verts[face.i2], 0.0, u, v)
    ensures !RayTriangleIntersection(p, d, verts, face)
  {
    var v0, v1, v2 := verts[face.i0], verts[face.i1], verts[face.i2];
    if Determinant(d, v0, v1, v2) != 0.0 {
      SolveUnique(p, d, v0, v1, v2, 0.0, u, v);
    }
  }

  /** A segment whose end point `p + d` lies in the triangle's plane is never a hit (`t = 1` there). */
  lemma EndOnPlaneMisses(p: Vec3, d: Vec3, verts: seq<Vec3>, face: Face, u: real, v: real)
    requires FaceInMesh(verts, face)
    requires OnPlane(p, d, verts[face.i0], verts[face.i1], verts[face.i2], 1.0, u, v)
    ensures !RayTriangleIntersection(p, d, verts, face)
  {
    var v0, v1, v2 := verts[face.i0], verts[face.i1], verts[face.i2];
    if Determinant(d, v0, v1, v2) != 0.0 {
      SolveUnique(p, d, v0, v1, v2, 1.0, u, v);
    }
  }

  /** The determinant is minus the triple product of the direction with the triangle's normal `e1 x e2`. */
  lemma DeterminantIsTripleProduct(d: Vec3, v0: Vec3, v1: Vec3, v2: Vec3)
    ensures Determinant(d, v0, v1, v2) == -Dot(d, Cross(Sub(v1, v0), Sub(v2, v0)))
  {
    var e1, e2 := Sub(v1, v0), Sub(v2, v0);
    TripleProductCyclic(e1, d, e2);
    TripleProductSwap(d, e2, e1);
  }

  /** A non-zero determinant needs a non-zero direction and a non-degenerate triangle. */
  lemma NonZeroFactors(d: Vec3, v0: Vec3, v1: Vec3, v2: Vec3)
    requires Determinant(d, v0, v1, v2) != 0.0
    ensures d != Zero && Cross(Sub(v1, v0), Sub(v2, v0)) != Zero
  {
    DeterminantIsTripleProduct(d, v0, v1, v2);
  }

  /** A segment parallel to the triangle's plane, a zero-length segment and a
      degenerate triangle all give a zero determinant, hence a miss. */
  lemma ParallelMisses(p: Vec3, d: Vec3, verts: seq<Vec3>, face: Face)
    requires FaceInMesh(verts, face)
    requires Dot(d, Cross(Sub(verts[face.i1], verts[face.i0]), Sub(verts[face.i2], verts[face.i0]))) == 0.0
    ensures !RayTriangleIntersection(p, d, verts, face)
  {
    DeterminantIsTripleProduct(d, verts[face.i0], verts[face.i1], verts[face.i2]);
  }

  /** On a hit both the direction and the triangle's normal are non-zero. */
  lemma HitNonDegenerate(p: Vec3, d: Vec3, verts: seq<Vec3>, face: Face)
    requires FaceInMesh(verts, face)
    requires RayTriangleIntersection(p, d, verts, face)
    ensures d != Zero && Cross(Sub(verts[face.i1], verts[face.i0]), Sub(verts[face.i2], verts[face.i0])) != Zero
  {
    NonZeroFactors(d, verts[face.i0], verts[face.i1], verts[face.i2]);
  }

  // ---------------------------------------------------------------------------
  // Scanning a face list

  /** check_intersect: true on the first face hit by the segment from `p1` to `p2`. */
  function CheckIntersect(p1: Vec3, p2: Vec3, verts: seq<Vec3>, faces: seq<Face>): (r: bool)
    requires MeshValid(verts, faces)
    ensures r <==> exists k :: 0 <= k < |faces| && RayTriangleIntersection(p1, Sub(p2, p1), verts, faces[k])
  {
    if |faces| == 0 then false
    else if RayTriangleIntersection(p1, Sub(p2, p1), verts, faces[0]) then true
    else
      var r := CheckIntersect(p1, p2, verts, faces[1..]);
      assert forall k :: 1 <= k < |faces| ==> faces[k] == faces[1..][k - 1];
      r
  }

  // ---------------------------------------------------------------------------
  // The angle of the first crossing

  /** The library functions the angle computation uses, which the model does not define:
      `np.arccos` and `np.linalg.norm`. */
  datatype Numerics = Numerics(arccos: real -> real, norm: Vec3 -> real)

  /** What the model assumes of them: `arccos` ranges over `[0, pi]` and the norm of a non-zero vector is positive. */
  ghost predicate Sound(num: Numerics) {
    (forall x :: 0.0 <= num.arccos(x) <= Pi) && (forall w :: w != Zero ==> num.norm(w) > 0.0)
  }

  /** np.rad2deg */
  function Rad2Deg(x: real): real {
    x * 180.0 / Pi
  }

  /** The result of check_angle_of_intersection: `False` when no face is hit, else an angle in degrees. */
  datatype AngleResult = NoCrossing | Angle(deg: real)

  /** How Python compares the result with a number: `False` counts as `0`. */
  function AsNumber(r: AngleResult): real {
    match r
    case NoCrossing => 0.0
    case Angle(deg) => deg
  }

  /** The angle between the direction `d` and the normal of the triangle with edges `e1`, `e2`,
      folded onto its complement when above a right angle, in degrees. */
  function FoldedAngle(num: Numerics, d: Vec3, e1: Vec3, e2: Vec3): (deg: real)
    requires Sound(num) && d != Zero && Cross(e1, e2) != Zero
    ensures 0.0 <= deg <= 90.0
  {
    var normal := Cross(e1, e2);
    var length := num.norm(normal);
    DivideNonZero(normal, length);
    var unit := Divide(normal, length);
    var angle := num.arccos(Dot(d, unit) / (num.norm(d) * num.norm(unit)));
    var folded := if angle > Pi / 2.0 then Pi - angle else angle;
    Rad2Deg(folded)
  }

  /** The per-face body of check_angle_of_intersection: the tests of
      ray_triangle_intersection, repeated inline there, then the folded angle on a hit. */
  function AngleAtFace(num: Numerics, p1: Vec3, d: Vec3, verts: seq<Vec3>, face: Face): (r: AngleResult)
    requires Sound(num) && FaceInMesh(verts, face)
    ensures r != NoCrossing <==> RayTriangleIntersection(p1, d, verts, face)
    ensures r.Angle? ==> 0.0 <= r.deg <= 90.0
  {
    var v0, v1, v2 := verts[face.i0], verts[face.i1], verts[face.i2];
    if TriangleHit(p1, d, v0, v1, v2) then
      NonZeroFactors(d, v0, v1, v2);
      Angle(FoldedAngle(num, d, Sub(v1, v0), Sub(v2, v0)))
    else NoCrossing
  }

  /** check_angle_of_intersection: the angle at the first face hit, in face order, or `NoCrossing`. */
  function CheckAngleOfIntersection(num: Numerics, p1: Vec3, p2: Vec3, verts: seq<Vec3>, faces: seq<Face>): (r: AngleResult)
    requires Sound(num) && MeshValid(verts, faces)
    ensures r == NoCrossing <==>
      forall k :: 0 <= k < |faces| ==> !RayTriangleIntersection(p1, Sub(p2, p1), verts, faces[k])
    ensures r.Angle? ==> 0.0 <= r.deg <= 90.0
  {
    if |faces| == 0 then NoCrossing
    else
      var here := AngleAtFace(num, p1, Sub(p2, p1), verts, faces[0]);
      if here != NoCrossing then here
      else
        assert forall k :: 1 <= k < |faces| ==> faces[k] == faces[1..][k - 1];
        CheckAngleOfIntersection(num, p1, p2, verts, faces[1..])
  }

  /** The angle returned is the one at the first face, in face order, that the segment hits. */
  lemma {:induction false} AngleOfFirstHitFace(num: Numerics, p1: Vec3, p2: Vec3, verts: seq<Vec3>, faces: seq<Face>)
    requires Sound(num) && MeshValid(verts, faces)
    requires CheckAngleOfIntersection(num, p1, p2, verts, faces) != NoCrossing
    ensures exists k :: (0 <= k < |faces| && RayTriangleIntersection(p1, Sub(p2, p1), verts, faces[k])
      && (forall j :: 0 <= j < k ==> !RayTriangleIntersection(p1, Sub(p2, p1), verts, faces[j]))
      && CheckAngleOfIntersection(num, p1, p2, verts, faces) == AngleAtFace(num, p1, Sub(p2, p1), verts, faces[k]))
  {
    var d := Sub(p2, p1);
    if AngleAtFace(num, p1, d, verts, faces[0]) != NoCrossing {
      assert RayTriangleIntersection(p1, d, verts, faces[0]);
    } else {
      var rest := faces[1..];
      assert forall k :: 1 <= k < |faces| ==> faces[k] == rest[k - 1];
      AngleOfFirstHitFace(num, p1, p2, verts, rest);
      var k :| 0 <= k < |rest| && RayTriangleIntersection(p1, d, verts, rest[k])
        && (forall j :: 0 <= j < k ==> !RayTriangleIntersection(p1, d, verts, rest[j]))
        && CheckAngleOfIntersection(num, p1, p2, verts, rest) == AngleAtFace(num, p1, d, verts, rest[k]);
      assert RayTriangleIntersection(p1, d, verts, faces[k + 1]);
    }
  }

  /** check_angle_of_intersection returns an angle exactly when check_intersect is true. */
  lemma AngleIffIntersect(num: Numerics, p1: Vec3, p2: Vec3, verts: seq<Vec3>, faces: seq<Face>)
    requires Sound(num) && MeshValid(verts, faces)
    ensures CheckAngleOfIntersection(num, p1, p2, verts, faces) != NoCrossing <==> CheckIntersect(p1, p2, verts, faces)
  {
  }

  /** A segment that starts at a vertex of the triangle is never a hit. */
  lemma StartAtVertexMisses(p: Vec3, d: Vec3, verts: seq<Vec3>, face: Face)
    requires FaceInMesh(verts, face)
    requires p == verts[face.i0] || p == verts[face.i1] || p == verts[face.i2]
    ensures !RayTriangleIntersection(p, d, verts, face)
  {
    var v0, v1, v2 := verts[face.i0], verts[face.i1], verts[face.i2];
    var u, v := if p == v0 then 0.0 else if p == v1 then 1.0 else 0.0, if p == v0 || p == v1 then 0.0 else 1.0;
    OffsetOnPlane(p, d, v0, v1, v2, 0.0, u, v);
    StartOnPlaneMisses(p, d, verts, face, u, v);
  }

  /** A segment parallel to an edge of the triangle is never a hit. */
  lemma AlongEdgeMisses(p: Vec3, d: Vec3, verts: seq<Vec3>, face: Face)
    requires FaceInMesh(verts, face)
    requires d == Sub(verts[face.i1], verts[face.i0]) || d == Sub(verts[face.i2], verts[face.i0])
    ensures !RayTriangleIntersection(p, d, verts, face)
  {
    var e1, e2 := Sub(verts[face.i1], verts[face.i0]), Sub(verts[face.i2], verts[face.i0]);
    TripleProductRepeated(e1, e2);
    ParallelMisses(p, d, verts, face);
  }

  // ---------------------------------------------------------------------------
  // The unit-test cases

  /** The segment from the origin to `(1, 1, 1)` starts at a corner of the triangle
      `(0,0,0) (1,0,0) (0,1,0)`, so `t = 0` there and the scan returns `NoCrossing`,
      which compares equal to `0`. */
  lemma SegmentFromTriangleCorner(num: Numerics)
    requires Sound(num)
    ensures var verts := [Vec3(0.0, 0.0, 0.0), Vec3(1.0, 0.0, 0.0), Vec3(0.0, 1.0, 0.0)];
      var r := CheckAngleOfIntersection(num, Vec3(0.0, 0.0, 0.0), Vec3(1.0, 1.0, 1.0), verts, [Face(0, 1, 2)]);
      r == NoCrossing && AsNumber(r) == 0.0
  {
    var verts := [Vec3(0.0, 0.0, 0.0), Vec3(1.0, 0.0, 0.0), Vec3(0.0, 1.0, 0.0)];
    var p1, p2 := Vec3(0.0, 0.0, 0.0), Vec3(1.0, 1.0, 1.0);
    StartAtVertexMisses(p1, Sub(p2, p1), verts, Face(0, 1, 2));
  }

  /** The segment from the origin to `(1, 0, 0)` runs along an edge of the same triangle:
      the determinant is zero and the scan returns `NoCrossing`. */
  lemma SegmentAlongTriangleEdge(num: Numerics)
    requires Sound(num)
    ensures var verts := [Vec3(0.0, 0.0, 0.0), Vec3(1.0, 0.0, 0.0), Vec3(0.0, 1.0, 0.0)];
      CheckAngleOfIntersection(num, Vec3(0.0, 0.0, 0.0), Vec3(1.0, 0.0, 0.0), verts, [Face(0, 1, 2)]) == NoCrossing
  {
    var verts := [Vec3(0.0, 0.0, 0.0), Vec3(1.0, 0.0, 0.0), Vec3(0.0, 1.0, 0.0)];
    var p1, p2 := Vec3(0.0, 0.0, 0.0), Vec3(1.0, 0.0, 0.0);
    AlongEdgeMisses(p1, Sub(p2, p1), verts, Face(0, 1, 2));
  }
}
