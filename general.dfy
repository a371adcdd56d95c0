/** Small index and line helpers: wrapping negative indices into an image's
    shape, and extending a segment beyond its second point. */
module General {
  import opened Vectors
  import Linear

  /** The entry after wrapping: a negative index counts back from the end of
      its axis, so the axis length is added once. */
  function Wrapped(x: real, size: nat): real {
    if x < 0.0 then x + size as real else x
  }

  /** reverse_negative_idx on the unrounded coordinate arrays: in place, every
      negative entry of column `j` is increased by `shape[j]`; the other entries
      stay as they are. Only a negative entry looks its axis up in `shape`. */
  method ReverseNegativeIdx(shape: seq<nat>, indices: array2<real>)
    requires forall i, j :: 0 <= i < indices.Length0 && 0 <= j < indices.Length1 && indices[i, j] < 0.0 ==> j < |shape|
    modifies indices
    ensures forall i, j :: 0 <= i < indices.Length0 && 0 <= j < indices.Length1 ==>
      indices[i, j] == if old(indices[i, j]) < 0.0 then Wrapped(old(indices[i, j]), shape[j]) else old(indices[i, j])
  {
    for i := 0 to indices.Length0
      invariant forall r, c :: 0 <= r < indices.Length0 && 0 <= c < indices.Length1 ==>
        indices[r, c] == if r < i && old(indices[r, c]) < 0.0 then Wrapped(old(indices[r, c]), shape[c]) else old(indices[r, c])
    {
      for j := 0 to indices.Length1
        invariant forall r, c :: 0 <= r < indices.Length0 && 0 <= c < indices.Length1 ==>
          indices[r, c] == if (r < i || (r == i && c < j)) && old(indices[r, c]) < 0.0
                           then Wrapped(old(indices[r, c]), shape[c]) else old(indices[r, c])
      {
        if indices[i, j] < 0.0 {
          indices[i, j] := indices[i, j] + shape[j] as real;
        }
      }
    }
  }

  /** Wrapping leaves non-negative entries alone, maps `[-size, 0)` onto
      `[0, size)`, and leaves anything below `-size` negative. */
  lemma WrappedRange(x: real, size: nat)
    ensures x >= 0.0 ==> Wrapped(x, size) == x
    ensures x < 0.0 ==> (0.0 <= Wrapped(x, size) < size as real <==> -(size as real) <= x)
    ensures x < 0.0 ==> (Wrapped(x, size) < 0.0 <==> x < -(size as real))
  {
  }

  /** points_to_line: the extended segment from `p1` to `p2 + 2 (p2 - p1)`. */
  function PointsToLine(p1: Vec3, p2: Vec3): (r: (Vec3, Vec3))
    ensures r.0 == p1
    ensures r.1 == Sub(Scale(3.0, p2), Scale(2.0, p1))
  {
    (p1, Add(p2, Scale(2.0, Sub(p2, p1))))
  }

  /** The extended end lies on the line through the two points, three times as
      far from `p1` as `p2` is, so the extended segment contains the original. */
  lemma ExtendedEndOnLine(p1: Vec3, p2: Vec3)
    ensures PointsToLine(p1, p2).1 == Linear.PointAt(p1, p2, 3.0)
  {
  }

  /** Coincident points give a segment of length zero. */
  lemma CoincidentPoints(p: Vec3)
    ensures PointsToLine(p, p) == (p, p)
  {
  }
}
