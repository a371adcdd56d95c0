# PathPlan screening core in Dafny

PathPlan plans straight trajectories into the brain. Every entry point is paired with every target point. A pair is accepted when its segment:

- crosses the right hippocampus surface;
- misses the union of the ventricles and vessels;
- meets the cortex at no more than 35 degrees from its normal.

This project models that screening core and proves properties of it.

The model covers these parts of the source:

- **Geometry kernel** (`marching_cubes.dfy`): the Möller–Trumbore segment/triangle test, restricted to `1e-10 < t < 1`; the scan for any hit; and the folded angle at the first face hit. The test is proved equivalent to a geometric condition with two parts. First, the determinant `e1·(d×e2)` is at least `1e-10` in absolute value, so a real crossing of a very small or nearly parallel triangle is rejected. Second, the segment's line meets the closed triangle at a parameter `t` with `1e-10 < t < 1`, so a crossing at the very start of the segment is not counted. The proof solves the 3×3 system by Cramer's rule and shows that solution is unique.
- **Classifier and pipeline** (`screening.dfy`, `main_actual.dfy`, `main_testset.dfy`):
  - `check_validity` has three short-circuit criteria, and its meaning is stated in geometric terms.
  - The pairs come from `itertools.product` in its order. The worker pool is a sequential, order-preserving map.
  - The verdicts are a mask that keeps the accepted pairs in order.
  - The dictionaries from point index to fiducial id keep the last id for a repeated index.
- **Exclusion attribution** (`source_exclusion.dfy`): `check_source_validity` appends every failing criterion's label. A method with those appends is proved equal to a specification function. The per-cause index sets together make up exactly the rejected pairs.
- **Utilities**:
  - `linear.dfy`: the squared distance to the infinite line through two points, and the voxel scan within half a voxel of it.
  - `general.dfy`: in-place wrapping of negative indices, and the extended segment.
  - `fcsv.dfy`: the header/data split and the column extraction of an `.fcsv` file.

Arithmetic is over `real`. The library functions `np.arccos` and `np.linalg.norm` are fields of a `Numerics` value passed in. The model assumes only that `arccos` ranges over `[0, pi]` and that the norm of a non-zero vector is positive. The `False` that `check_angle_of_intersection` returns when nothing is hit is the constructor `NoCrossing`. In the `> 35` comparison it counts as `0`, as Python's `False` does.

Where the design intent and the code differ, the model follows the code:

- The unit test's segment from a triangle corner is treated as a miss, because `t = 0` there (`MarchingCubes.SegmentFromTriangleCorner`).
- Unknown mesh names and out-of-range face indices are never checked by the code. The model makes them preconditions (`Screening.Ready`, `MarchingCubes.MeshValid`).

## Model

| member | source | states |
|---|---|---|
| MarchingCubes.TriangleHitMeaning | src/utils/marching_cubes.py:85-107 | The triangle test is true iff the determinant `e1·(d×e2)` lies outside `(-1e-10, 1e-10)` and the segment's line meets the closed triangle (`u, v ≥ 0`, `u + v ≤ 1`) at some `t` with `1e-10 < t < 1`. |
| MarchingCubes.RayTriangleIntersectionMeaning | src/utils/marching_cubes.py:65-107 | The same equivalence for `ray_triangle_intersection` on a face of the mesh. |
| MarchingCubes.SolveOnPlane | src/utils/marching_cubes.py:93-102 | When the determinant is non-zero, the computed `u`, `v`, `t` satisfy `p + t d = v0 + u e1 + v e2`. |
| MarchingCubes.SolveUnique | src/utils/marching_cubes.py:93-102 | Those are the only parameters that satisfy it. |
| MarchingCubes.StartOnPlaneMisses | src/utils/marching_cubes.py:104-107 | A segment that starts in the triangle's plane (`t = 0`) is not a hit. |
| MarchingCubes.EndOnPlaneMisses | src/utils/marching_cubes.py:104-107 | A segment that ends in the triangle's plane (`t = 1`) is not a hit. |
| MarchingCubes.DeterminantIsTripleProduct | src/utils/marching_cubes.py:88-89 | `a = -d·(e1×e2)`. |
| MarchingCubes.NonZeroFactors | src/utils/marching_cubes.py:88-92 | A non-zero determinant implies a non-zero direction and a non-zero normal `e1×e2`. |
| MarchingCubes.ParallelMisses | src/utils/marching_cubes.py:91-92 | A direction orthogonal to the normal is a miss. This covers a zero-length segment, a segment parallel to the plane and a degenerate triangle. |
| MarchingCubes.AlongEdgeMisses | src/utils/marching_cubes.py:88-92 | A direction equal to an edge of the triangle is a miss. |
| MarchingCubes.StartAtVertexMisses | src/utils/marching_cubes.py:102-107 | A segment that starts at a vertex of the triangle is a miss. |
| MarchingCubes.HitNonDegenerate | src/utils/marching_cubes.py:156-159 | On a hit, `d` and the normal are non-zero, so the normalisations never divide by zero. |
| MarchingCubes.CheckIntersect | src/utils/marching_cubes.py:193-199 | True iff some face of the list is hit by `p1 → p2` (false for an empty list). |
| MarchingCubes.FoldedAngle | src/utils/marching_cubes.py:156-163 | The folded angle lies in `[0°, 90°]` when `arccos` ranges over `[0, π]`. |
| MarchingCubes.AngleAtFace | src/utils/marching_cubes.py:135-164 | The inlined per-face test gives an angle iff `ray_triangle_intersection` holds on that face, and the angle lies in `[0°, 90°]`. |
| MarchingCubes.CheckAngleOfIntersection | src/utils/marching_cubes.py:132-165 | The result is `False` iff no face is hit; otherwise it is an angle in `[0°, 90°]`. |
| MarchingCubes.AngleOfFirstHitFace | src/utils/marching_cubes.py:134-164 | The returned angle is the one at the first face hit in face order, not at the crossing nearest `p1`. |
| MarchingCubes.AngleIffIntersect | src/utils/marching_cubes.py:134-154 | An angle is returned iff `check_intersect` is true on the same arguments. |
| MarchingCubes.SegmentFromTriangleCorner | test.py:12-21 | For the first unit test's data the scan returns `False`, which compares equal to `0`. |
| MarchingCubes.SegmentAlongTriangleEdge | test.py:23-32 | For the second unit test's data the scan returns `False`. |
| Screening.CheckValidityMeaning | main_actual.py:79-94 | `check_validity` accepts iff the hippocampus mesh is hit, the ventricles/vessels mesh is not, and the angle at the first cortex face hit (if any) is at most 35°. |
| Screening.CortexCriterion | main_actual.py:89-92 | `not (angle > 35)` iff the angle at the first cortex face hit is at most 35°, or no cortex face is hit. |
| Screening.HippoMissRejects | main_actual.py:79-82 | Missing the hippocampus rejects the pair whatever the other meshes are. |
| Screening.NoCortexCrossingPasses | main_actual.py:89-92 | A pair that hits no cortex face is never rejected by the angle criterion (`False > 35` is false). |
| Screening.ThresholdIsStrict | main_actual.py:91 | A cortex angle of exactly 35° is accepted. |
| Screening.Product | main_actual.py:60 | The pair list has `\|E\|·\|T\|` elements. |
| Screening.ProductAt | main_actual.py:60 | `(E[i], T[j])` sits at position `i·\|T\| + j`. |
| Screening.ProductIndex | main_actual.py:60 | Position `k` holds `(E[k / \|T\|], T[k % \|T\|])`. |
| Screening.ProductEmpty | main_actual.py:60 | Empty entries or targets give an empty pair list. |
| Screening.ClassifyAll | main_actual.py:105-108 | Collecting `check_validity` over the pairs one at a time gives exactly one verdict per pair, index-aligned: verdict `k` is the classifier's answer on pair `k`. This is the list `Screen` uses as its mask. |
| Screening.Verdicts | main_actual.py:105-108 | The collected verdicts as a sequential map; `Screening.ClassifyAll` states their alignment, and `Screening.ScreenMeaning` states what they select. |
| Screening.MaskKeepsFlagged | main_actual.py:111 | The mask keeps exactly the flagged items, in their original order (`zip` truncation included). |
| Screening.MaskSource | main_actual.py:111 | Every kept item is a flagged item of the list. |
| Screening.MaskLength | main_actual.py:111 | The mask is no longer than either list. |
| Screening.ScreenMeaning | main_actual.py:105-111 | The valid list is the order-preserving subsequence of the product made of exactly the accepted pairs, with at most `\|E\|·\|T\|` elements. |
| Screening.ScreenMembers | main_actual.py:111 | Every valid pair is (an entry, a target) and is accepted. |
| Screening.ScreenEmpty | main_actual.py:111 | Empty entries or targets give an empty valid list. |
| Screening.IdMapMeaning | main_actual.py:57-58 | A key whose last occurrence is at position `i` maps to `ids[i]`. |
| Screening.IdMapLookup | main_actual.py:57-58 | Every id the dictionary returns is the id zipped with its key's last occurrence. |
| Screening.IdMapDomain | main_actual.py:57-58 | The dictionary's keys are exactly the keys of the zipped prefix. |
| Screening.SharedIndexSharesId | main_actual.py:57-58 | Two points with the same index both get the later point's id. |
| MainActual.CheckValidityMeaning | main_actual.py:64-94 | With the actual set's mesh names, acceptance means the "r_hippo.nii.gz" mesh is hit, "ventricles_vessels" is missed, and the first "cortex.nii.gz" face hit is at no more than 35°. |
| MainActual.ValidIds | main_actual.py:130 | One id pair per valid pair; no dictionary lookup fails. |
| MainActual.ValidIdsMeaning | main_actual.py:130 | Id pair `m` is the ids of the last listed entry and target whose indices form valid pair `m`, and that pair is accepted. |
| MainActual.DistinctPointsKeepTheirIds | main_actual.py:130 | With no repeated index, each valid pair is named by its own points' ids. |
| MainActual.NothingToScreen | main_actual.py:111 | No entries or no targets give no valid pairs and no ids. |
| MainTestset.CheckValidityMeaning | main_testset.py:56-86 | With the test set's names, acceptance means "r_hippoTest.nii.gz" is hit, "ventricles_vessels" is missed, and the first "r_cortexTest.nii.gz" face hit is at no more than 35°. |
| MainTestset.SameClassifierAsActual | main_testset.py:71-86 | Given the same three meshes, the test-set and actual classifiers give the same verdict. |
| MainTestset.FilteredMeaning | main_testset.py:97-103 | The filtered list holds only accepted pairs of the product, holds every accepted pair, and has at most `\|E\|·\|T\|` elements. |
| SourceExclusion.CheckSourceValidity | source_exclusion.py:16-31 | The appended labels are exactly the failing criteria, in the order hippocampus, cortex, vessels/ventricles. |
| SourceExclusion.CausesOrdered | source_exclusion.py:18-31 | At most three labels, each one of the three, in test order and so without repetition. |
| SourceExclusion.NoCauseIffValid | source_exclusion.py:16-31 | The label list is empty iff the test set's `check_validity` accepts the pair. |
| SourceExclusion.LabelMeaning | source_exclusion.py:19-30 | Each label is present iff its own test fails; "too shear cortex" iff the angle is `> 35`. |
| SourceExclusion.NoCortexCrossingNotShear | source_exclusion.py:23-26 | A pair that hits no cortex face never carries "too shear cortex". |
| SourceExclusion.AllSources | source_exclusion.py:36-37 | One label list per pair, in pair order. |
| SourceExclusion.CauseSetMeaning | source_exclusion.py:46-49 | Index `k` is in a cause set iff that cause's test fails for pair `k`. |
| SourceExclusion.CauseSetsCoverRejected | source_exclusion.py:47-49 | The union of the three cause sets is exactly the set of rejected pair indices. |
| MarchingCubes.TriangleHit | src/utils/marching_cubes.py:85-107 | The Möller–Trumbore test on one triangle; its meaning is `MarchingCubes.TriangleHitMeaning`. |
| MarchingCubes.RayTriangleIntersection | src/utils/marching_cubes.py:65-107 | `ray_triangle_intersection` on a face of the mesh; its meaning is `MarchingCubes.RayTriangleIntersectionMeaning`. |
| Screening.CheckValidity | main_actual.py:64-94 | The three short-circuit criteria of `check_validity`; their meaning is `Screening.CheckValidityMeaning`. |
| Screening.Mask | main_actual.py:111 | Keeps each pair whose zipped verdict is true; its meaning is `Screening.MaskKeepsFlagged`. |
| Screening.Screen | main_actual.py:105-111 | The pairs that pass, from the product, the verdicts and the mask; its meaning is `Screening.ScreenMeaning`. |
| Screening.IdMap | main_actual.py:57-58 | The dictionary built from the zipped indices and ids; its meaning is `Screening.IdMapMeaning`, `Screening.IdMapLookup` and `Screening.IdMapDomain`. |
| MainActual.Valid | main_actual.py:105-111 | The actual set's valid pairs; their meaning is `Screening.ScreenMeaning` with the actual set's mesh names. |
| MainTestset.Filtered | main_testset.py:97-103 | The test set's filtered pairs; their meaning is `MainTestset.FilteredMeaning`. |
| SourceExclusion.CauseSet | source_exclusion.py:46-49 | The indices whose labels include a cause; its meaning is `SourceExclusion.CauseSetMeaning`. |
| Linear.Projection | src/utils/linear.py:51 | The unclamped projection parameter; its meaning is `Linear.ProjectionOnLine`. |
| Linear.SquaredDistanceToLine | src/utils/linear.py:48-54 | The distance is never negative. |
| Linear.ProjectionOnLine | src/utils/linear.py:51 | A point of the line projects back to its own parameter. |
| Linear.OnLineIsZero | src/utils/linear.py:48-54 | Every point of the infinite line is at distance zero. |
| Linear.ZeroIsOnLine | src/utils/linear.py:48-54 | Distance zero implies the point lies on the line. |
| Linear.ZeroIffOnLine | src/utils/linear.py:48-54 | The distance is zero iff the point lies on the infinite line. |
| Linear.EndpointsAreZero | src/utils/linear.py:43-54 | `point_1` and `point_2` are at distance zero. |
| Linear.BeyondSegmentIsZero | src/utils/linear.py:51-53 | A point of the line beyond `point_2` is at distance zero: the projection is not clamped. |
| Linear.WithinHalf | src/utils/linear.py:72 | For a norm `x ≥ 0`, `x ≤ 0.5` iff `x² ≤ 0.25`. |
| Linear.GetIdxBetweenPoints | src/utils/linear.py:59-74 | Returns only in-grid voxels within 0.5 of the line, every such voxel, in strictly increasing lexicographic order. |
| General.ReverseNegativeIdx | src/utils/general.py:4-15 | In place on the unrounded (real) coordinate array, each negative entry of column `j` is increased once by `shape[j]`, and every other entry is unchanged. |
| General.WrappedRange | src/utils/general.py:13-14 | For real entries: non-negative entries are unchanged; `[-shape[j], 0)` maps into `[0, shape[j])`; entries below `-shape[j]` stay negative. |
| General.PointsToLine | src/utils/general.py:18-25 | The first endpoint is `point_1`; the second is `3·point_2 − 2·point_1`. |
| General.ExtendedEndOnLine | src/utils/general.py:20-22 | The second endpoint is the point at parameter 3 of the line through the two points. |
| General.CoincidentPoints | src/utils/general.py:20-22 | Equal points give coinciding endpoints. |
| Fcsv.Filter | src/modules/fcsv.py:29-31 | The header lines or the data lines; their meaning is `Fcsv.FilterPartition` and `Fcsv.FilterAppend`. |
| Fcsv.Entries | src/modules/fcsv.py:30 | The header lines with every "# " removed; see `Fcsv.MarkerAfterPlainPrefixRemoved`. |
| Fcsv.Split | src/modules/fcsv.py:36 | `split(",")`; its meaning is `Fcsv.SplitJoin`. |
| Fcsv.ParseFcsv | src/modules/fcsv.py:28-36 | `parse_fcsv` on the file's lines; its meaning is `Fcsv.ParseMeaning`. |
| Fcsv.RemoveAll | src/modules/fcsv.py:30 | Removing a pattern never lengthens a line. |
| Fcsv.RemoveAbsent | src/modules/fcsv.py:30 | A line without the pattern is unchanged. |
| Fcsv.RemoveWithoutFirstChar | src/modules/fcsv.py:30 | A line without the pattern's first character is unchanged. |
| Fcsv.MarkerAfterPlainPrefixRemoved | src/modules/fcsv.py:30 | For every line, a "# " after a stretch without `#` is removed too, and the rest of the line is cleaned the same way: `replace` removes every marker, not only a leading one. |
| Fcsv.EveryMarkerRemoved | src/modules/fcsv.py:30 | Both markers of `# a # b` are removed. |
| Fcsv.FilterPartition | src/modules/fcsv.py:29-31 | The header lines are exactly the lines starting with `#`, the data lines exactly the others, and the two counts sum to the line count. |
| Fcsv.FilterAppend | src/modules/fcsv.py:29-31 | Both groups keep file order. |
| Fcsv.FirstColumnsEntry | src/modules/fcsv.py:36 | Finds the first entry starting with "columns", or reports that none does. |
| Fcsv.SplitJoin | src/modules/fcsv.py:36 | `split(",")` gives the comma count plus one pieces, none holding a comma, and joining them restores the line. |
| Fcsv.ParseMeaning | src/modules/fcsv.py:28-36 | The parse succeeds iff some entry starts with "columns". The columns are then the split of the first such entry with "columns = " removed. |
| Fcsv.HashWithoutSpaceKept | src/modules/fcsv.py:30-36 | A header written `#columns…` keeps its `#` and is never taken as the columns entry. |
| Fcsv.ColumnsHeaderRecognised | src/modules/fcsv.py:30-36 | A header written `# columns = …` with no other `#` becomes an entry that starts with "columns". |

## Left out

- Floating point: all arithmetic is exact `real` arithmetic. `np.arccos` and `np.linalg.norm` are abstract parameters, constrained only by `Sound`. `np.rad2deg` is `x · 180 / π` with numpy's `π` literal.
- MarchingCubes.FoldedAngle: states only the range `[0°, 90°]`, not the angle's value, because `arccos` and the norm are abstract.
- The `marching_cubes` wrapper and mesh generation (scikit-image), image loading, `rot90`, and the `logical_or` union of ventricles and vessels: meshes are given inputs, held in a registry from name to mesh.
- Screening.CheckValidity: requires all three meshes to be present and well formed. The source looks up the vessels and cortex meshes only when it reaches them.
- Coordinate conversion `point_to_numpy_idx` (ITK getters, matrix inverse, rounding): points are given in index space.
- `multiprocessing.Pool`, `imap` and `tqdm`: modelled as a sequential map, which is what an order-preserving `imap` gives.
- Plotting and visualisation (`show_volume`, `supervenn`, matplotlib), the JSON cache of `source_exclusion.py`, and the `print` calls: I/O.
- Fcsv.ParseFcsv: reading the `.fcsv` file, `splitlines`, `pandas.read_csv` and the column assignment are left out; the function takes the list of lines and returns the data lines unparsed. Their errors are not modelled: `read_csv` raises `EmptyDataError` when there are no data lines, and the assignment at fcsv.py:39 raises `ValueError` when the column counts differ. Nor is `read_csv`'s default use of the first data line as its header, which drops the first fiducial from the table once the assignment renames the columns.
- `main.py` and `src/temp/1.py`: an exploratory driver and scratch code, not part of this model.
- test.py as a runnable module: its module-level import of `check_distance_intersection` (test.py:7) names a function `marching_cubes.py` does not define, so the module fails to import and none of its tests can run. The model takes only the first two tests' data, as statements about `check_angle_of_intersection`; the third test is not modelled.
- General.ReverseNegativeIdx: works on a rectangular `array2<real>`, matching the numpy arrays main.py:62-69 passes in; a ragged list of lists is not modelled. It requires every negative entry's column to have a length in `shape`. The source raises `IndexError` there, after it has already wrapped the earlier entries, and that error is not modelled.
- MainActual.ValidIds: requires at least as many ids as points in each list. The source takes both from one table, so the counts are equal.
- Linear.GetIdxBetweenPoints: takes the array's shape rather than the array. When `point_1 == point_2`, the source's `0/0` gives NaN, which `isclose` never accepts; the model treats every voxel as not near.
- Faces are triples of natural numbers: negative numpy indices in a face list are not modelled.

