/** The distance from a point to the infinite line through two points, and the
    scan of a voxel grid for the voxels within half a voxel of such a line. */
module Linear {
  import opened Vectors

  /** The point at parameter `s` along the line: `p1` at 0, `p2` at 1. */
  function PointAt(p1: Vec3, p2: Vec3, s: real): Vec3 {
    Add(p1, Scale(s, Sub(p2, p1)))
  }

  /** The parameter of the projection of `q` on the line: not clamped to the
      segment `[0, 1]`. */
  function Projection(p1: Vec3, p2: Vec3, q: Vec3): real
    requires p1 != p2
  {
    SubZero(p2, p1);
    DotSelf(Sub(p2, p1));
    Dot(Sub(q, p1), Sub(p2, p1)) / Dot(Sub(p2, p1), Sub(p2, p1))
  }

  /** The squared distance from `q` to the line through `p1` and `p2`, measured to
      the projection of `q`. */
  function SquaredDistanceToLine(p1: Vec3, p2: Vec3, q: Vec3): (r: real)
    requires p1 != p2
    ensures r >= 0.0
  {
    var offset := Sub(q, PointAt(p1, p2, Projection(p1, p2, q)));
    DotSelf(offset);
    Dot(offset, offset)
  }

  lemma ScaleDot(s: real, a: Vec3, b: Vec3)
    ensures Dot(Scale(s, a), b) == s * Dot(a, b)
  {
  }

  lemma ScaledQuotient(s: real, x: real)
    requires x != 0.0
    ensures (s * x) / x == s
  {
  }

  lemma OffsetAt(p1: Vec3, p2: Vec3, s: real)
    ensures Sub(PointAt(p1, p2, s), p1) == Scale(s, Sub(p2, p1))
  {
  }

  lemma SelfDistance(a: Vec3)
    ensures Dot(Sub(a, a), Sub(a, a)) == 0.0
  {
  }

  /** A point of the line projects back onto its own parameter. */
  lemma ProjectionOnLine(p1: Vec3, p2: Vec3, s: real)
    requires p1 != p2
    ensures Projection(p1, p2, PointAt(p1, p2, s)) == s
  {
    var d := Sub(p2, p1);
    SubZero(p2, p1);
    DotSelf(d);
    OffsetAt(p1, p2, s);
    ScaleDot(s, d, d);
    ScaledQuotient(s, Dot(d, d));
  }

  /** Every point of the line, inside the segment or beyond either end, is at
      distance zero. */
  lemma OnLineIsZero(p1: Vec3, p2: Vec3, s: real)
    requires p1 != p2
    ensures SquaredDistanceToLine(p1, p2, PointAt(p1, p2, s)) == 0.0
  {
    ProjectionOnLine(p1, p2, s);
    SelfDistance(PointAt(p1, p2, s));
  }

  /** Distance zero means on the line. */
  lemma ZeroIsOnLine(p1: Vec3, p2: Vec3, q: Vec3) returns (s: real)
    requires p1 != p2 && SquaredDistanceToLine(p1, p2, q) == 0.0
    ensures q == PointAt(p1, p2, s)
  {
    s := Projection(p1, p2, q);
    var closest := PointAt(p1, p2, s);
    DotSelf(Sub(q, closest));
    SubZero(q, closest);
  }

  /** The distance vanishes exactly on the infinite line through the two points. */
  lemma ZeroIffOnLine(p1: Vec3, p2: Vec3, q: Vec3)
    requires p1 != p2
    ensures SquaredDistanceToLine(p1, p2, q) == 0.0 <==> exists s :: q == PointAt(p1, p2, s)
  {
    if SquaredDistanceToLine(p1, p2, q) == 0.0 {
      var s := ZeroIsOnLine(p1, p2, q);
    } else if s :| q == PointAt(p1, p2, s) {
      OnLineIsZero(p1, p2, s);
    }
  }

  /** Both given points are at distance zero. */
  lemma EndpointsAreZero(p1: Vec3, p2: Vec3)
    requires p1 != p2
    ensures SquaredDistanceToLine(p1, p2, p1) == 0.0 && SquaredDistanceToLine(p1, p2, p2) == 0.0
  {
    OnLineIsZero(p1, p2, 0.0);
    assert PointAt(p1, p2, 0.0) == p1;
    OnLineIsZero(p1, p2, 1.0);
    assert PointAt(p1, p2, 1.0) == p2;
  }

  /** A point of the line beyond `p2` is at distance zero, though it lies
      outside the segment: the projection is not clamped. */
  lemma BeyondSegmentIsZero(p1: Vec3, p2: Vec3)
    requires p1 != p2
    ensures SquaredDistanceToLine(p1, p2, Sub(Scale(2.0, p2), p1)) == 0.0
  {
    OnLineIsZero(p1, p2, 2.0);
    assert PointAt(p1, p2, 2.0) == Sub(Scale(2.0, p2), p1);
  }

  /** `isclose(x, 0, atol=0.5)` is `|x| <= 0.5`; for a norm, which is never
      negative, that is a bound of 0.25 on its square. */
  lemma WithinHalf(x: real)
    requires x >= 0.0
    ensures x <= 0.5 <==> x * x <= 0.25
  {
    if x > 0.5 {
      assert x * x > 0.5 * x;
    }
  }

  /** A voxel index. */
  type Voxel = (int, int, int)

  function Centre(v: Voxel): Vec3 {
    Vec3(v.0 as real, v.1 as real, v.2 as real)
  }

  predicate InGrid(shape: (nat, nat, nat), v: Voxel) {
    0 <= v.0 < shape.0 && 0 <= v.1 < shape.1 && 0 <= v.2 < shape.2
  }

  /** The voxel lies within half a voxel of the line. With `p1 == p2` the
      projection divides zero by zero, and the resulting NaN is close to nothing. */
  predicate Near(p1: Vec3, p2: Vec3, v: Voxel) {
    p1 != p2 && SquaredDistanceToLine(p1, p2, Centre(v)) <= 0.25
  }

  /** Lexicographic order on voxel indices: the order of three nested loops. */
  predicate Before(a: Voxel, b: Voxel) {
    a.0 < b.0 || (a.0 == b.0 && (a.1 < b.1 || (a.1 == b.1 && a.2 < b.2)))
  }

  /** get_idx_between_points: every voxel of the grid within half a voxel of the
      line, each once, in loop order. */
  method GetIdxBetweenPoints(shape: (nat, nat, nat), p1: Vec3, p2: Vec3) returns (indices: seq<Voxel>)
    ensures forall n :: 0 <= n < |indices| ==> InGrid(shape, indices[n]) && Near(p1, p2, indices[n])
    ensures forall v :: InGrid(shape, v) && Near(p1, p2, v) ==> v in indices
    ensures forall a, b :: 0 <= a < b < |indices| ==> Before(indices[a], indices[b])
  {
    indices := [];
    for i := 0 to shape.0
      invariant forall n :: 0 <= n < |indices| ==> InGrid(shape, indices[n]) && Near(p1, p2, indices[n])
      invariant forall n :: 0 <= n < |indices| ==> Before(indices[n], (i, 0, 0))
      invariant forall v :: InGrid(shape, v) && Near(p1, p2, v) && Before(v, (i, 0, 0)) ==> v in indices
      invariant forall a, b :: 0 <= a < b < |indices| ==> Before(indices[a], indices[b])
    {
      for j := 0 to shape.1
        invariant forall n :: 0 <= n < |indices| ==> InGrid(shape, indices[n]) && Near(p1, p2, indices[n])
        invariant forall n :: 0 <= n < |indices| ==> Before(indices[n], (i, j, 0))
        invariant forall v :: InGrid(shape, v) && Near(p1, p2, v) && Before(v, (i, j, 0)) ==> v in indices
        invariant forall a, b :: 0 <= a < b < |indices| ==> Before(indices[a], indices[b])
      {
        for k := 0 to shape.2
          invariant forall n :: 0 <= n < |indices| ==> InGrid(shape, indices[n]) && Near(p1, p2, indices[n])
          invariant forall n :: 0 <= n < |indices| ==> Before(indices[n], (i, j, k))
          invariant forall v :: InGrid(shape, v) && Near(p1, p2, v) && Before(v, (i, j, k)) ==> v in indices
          invariant forall a, b :: 0 <= a < b < |indices| ==> Before(indices[a], indices[b])
        {
          if Near(p1, p2, (i, j, k)) {
            indices := indices + [(i, j, k)];
          }
        }
      }
    }
  }
}
