/** The entry/target screening shared by the two pipelines: the three-criterion
    trajectory classifier over a registry of named meshes, the enumeration of
    entry/target pairs, the verdict mask that keeps the accepted pairs, and the
    dictionaries from voxel index to fiducial id. */
module Screening {
  import opened Vectors
  import opened MarchingCubes

  /** A surface mesh: vertices and triangular faces. */
  datatype Mesh = Mesh(verts: seq<Vec3>, faces: seq<Face>)

  predicate ValidMesh(m: Mesh) {
    MeshValid(m.verts, m.faces)
  }

  /** The meshes by name (the `images_meshes` dictionary). */
  type Registry = map<string, Mesh>

  /** The names of the three meshes a pipeline screens against. */
  datatype MeshKeys = MeshKeys(hippo: string, vessels: string, cortex: string)

  /** All three meshes are present and well formed. */
  predicate Ready(reg: Registry, keys: MeshKeys) {
    keys.hippo in reg && keys.vessels in reg && keys.cortex in reg
    && ValidMesh(reg[keys.hippo]) && ValidMesh(reg[keys.vessels]) && ValidMesh(reg[keys.cortex])
  }

  /** The largest accepted cortex angle, `90 - 55` degrees. */
  const MaxCortexAngle: real := 90.0 - 55.0

  /** An entry point and a target point, in voxel-index coordinates. */
  type Pair = (Vec3, Vec3)

  // ---------------------------------------------------------------------------
  // The classifier

  /** check_validity: the segment must cross the hippocampus, must not cross the
      ventricles and vessels, and its cortex angle must not exceed 35 degrees;
      the criteria are tried in that order and the first failure decides. */
  function CheckValidity(num: Numerics, reg: Registry, keys: MeshKeys, pair: Pair): bool
    requires Sound(num) && Ready(reg, keys)
  {
    var (entry, target) := pair;
    var hippo, vessels, cortex := reg[keys.hippo], reg[keys.vessels], reg[keys.cortex];
    if !CheckIntersect(entry, target, hippo.verts, hippo.faces) then false
    else if CheckIntersect(entry, target, vessels.verts, vessels.faces) then false
    else if AsNumber(CheckAngleOfIntersection(num, entry, target, cortex.verts, cortex.faces)) > MaxCortexAngle then false
    else true
  }

  /** Some face of `m` is hit by the segment of `pair`. */
  predicate Hits(m: Mesh, pair: Pair)
    requires ValidMesh(m)
  {
    exists k :: 0 <= k < |m.faces| && RayTriangleIntersection(pair.0, Sub(pair.1, pair.0), m.verts, m.faces[k])
  }

  /** Face `k` is the first face of `m`, in face order, hit by the segment of `pair`. */
  predicate FirstHit(m: Mesh, pair: Pair, k: int)
    requires ValidMesh(m)
  {
    0 <= k < |m.faces| && RayTriangleIntersection(pair.0, Sub(pair.1, pair.0), m.verts, m.faces[k])
    && forall j :: 0 <= j < k ==> !RayTriangleIntersection(pair.0, Sub(pair.1, pair.0), m.verts, m.faces[j])
  }

  lemma FirstHitUnique(m: Mesh, pair: Pair, k: int, k': int)
    requires ValidMesh(m) && FirstHit(m, pair, k) && FirstHit(m, pair, k')
    ensures k == k'
  {
  }

  /** The cortex criterion in geometric terms: the angle at the first cortex face
      hit, if any, is at most 35 degrees. */
  predicate CortexAngleAccepted(num: Numerics, m: Mesh, pair: Pair)
    requires Sound(num) && ValidMesh(m)
  {
    forall k :: 0 <= k < |m.faces| && FirstHit(m, pair, k) ==>
      AsNumber(AngleAtFace(num, pair.0, Sub(pair.1, pair.0), m.verts, m.faces[k])) <= MaxCortexAngle
  }

  lemma CortexCriterion(num: Numerics, m: Mesh, pair: Pair)
    requires Sound(num) && ValidMesh(m)
    ensures !(AsNumber(CheckAngleOfIntersection(num, pair.0, pair.1, m.verts, m.faces)) > MaxCortexAngle)
        <==> CortexAngleAccepted(num, m, pair)
  {
    var r := CheckAngleOfIntersection(num, pair.0, pair.1, m.verts, m.faces);
    if r != NoCrossing {
      AngleOfFirstHitFace(num, pair.0, pair.1, m.verts, m.faces);
      var k0 :| FirstHit(m, pair, k0) && r == AngleAtFace(num, pair.0, Sub(pair.1, pair.0), m.verts, m.faces[k0]);
      forall k | FirstHit(m, pair, k)
        ensures k == k0
      {
        FirstHitUnique(m, pair, k, k0);
      }
    }
  }

  /** check_validity accepts exactly the pairs whose segment hits the hippocampus
      mesh, misses the ventricles-and-vessels mesh, and meets the cortex at its
      first face hit at no more than 35 degrees, or not at all. */
  lemma CheckValidityMeaning(num: Numerics, reg: Registry, keys: MeshKeys, pair: Pair)
    requires Sound(num) && Ready(reg, keys)
    ensures CheckValidity(num, reg, keys, pair) <==>
      Hits(reg[keys.hippo], pair) && !Hits(reg[keys.vessels], pair) && CortexAngleAccepted(num, reg[keys.cortex], pair)
  {
    CortexCriterion(num, reg[keys.cortex], pair);
  }

  /** A pair that misses the hippocampus is rejected whatever the other meshes are. */
  lemma HippoMissRejects(num: Numerics, reg: Registry, keys: MeshKeys, pair: Pair)
    requires Sound(num) && Ready(reg, keys)
    requires !Hits(reg[keys.hippo], pair)
    ensures !CheckValidity(num, reg, keys, pair)
  {
  }

  /** A pair that crosses no cortex face is never rejected by the angle criterion:
      the no-hit result compares as `0 > 35`. */
  lemma NoCortexCrossingPasses(num: Numerics, reg: Registry, keys: MeshKeys, pair: Pair)
    requires Sound(num) && Ready(reg, keys)
    requires !Hits(reg[keys.cortex], pair)
    ensures CheckValidity(num, reg, keys, pair) <==> Hits(reg[keys.hippo], pair) && !Hits(reg[keys.vessels], pair)
  {
    var cortex := reg[keys.cortex];
    assert CheckAngleOfIntersection(num, pair.0, pair.1, cortex.verts, cortex.faces) == NoCrossing;
  }

  /** The threshold is strict: a first cortex crossing at exactly 35 degrees is accepted. */
  lemma ThresholdIsStrict(num: Numerics, reg: Registry, keys: MeshKeys, pair: Pair)
    requires Sound(num) && Ready(reg, keys)
    requires Hits(reg[keys.hippo], pair) && !Hits(reg[keys.vessels], pair)
    requires CheckAngleOfIntersection(num, pair.0, pair.1, reg[keys.cortex].verts, reg[keys.cortex].faces) == Angle(35.0)
    ensures CheckValidity(num, reg, keys, pair)
  {
  }

  // ---------------------------------------------------------------------------
  // Pair enumeration

  /** `x` paired with every element of `ys`, in order. */
  function PairWith<A, B>(x: A, ys: seq<B>): seq<(A, B)> {
    seq(|ys|, j requires 0 <= j < |ys| => (x, ys[j]))
  }

  /** itertools.product of two lists: every pair, the first component varying slowest. */
  function Product<A, B>(xs: seq<A>, ys: seq<B>): (r: seq<(A, B)>)
    ensures |r| == |xs| * |ys|
  {
    if |xs| == 0 then []
    else
      var rest := Product(xs[1..], ys);
      assert |xs| * |ys| == |ys| + (|xs| - 1) * |ys|;
      PairWith(xs[0], ys) + rest
  }

  /** Pair `(xs[i], ys[j])` sits at position `i |ys| + j`. */
  lemma {:induction false} ProductAt<A, B>(xs: seq<A>, ys: seq<B>, i: int, j: int, k: int)
    requires 0 <= i < |xs| && 0 <= j < |ys| && k == i * |ys| + j
    ensures k < |Product(xs, ys)|
    ensures Product(xs, ys)[k] == (xs[i], ys[j])
  {
    if i > 0 {
      ProductAt(xs[1..], ys, i - 1, j, k - |ys|);
    }
  }

  lemma PositiveFactor(a: int, b: int)
    requires a >= 0 && b >= 0 && a * b > 0
    ensures b > 0
  {
  }

  lemma QuotientBelow(k: int, n: int, m: int)
    requires 0 <= k < m * n && n > 0
    ensures k / n < m
  {
  }

  lemma DivMod(k: int, n: int)
    requires k >= 0 && n > 0
    ensures (k / n) * n + k % n == k && 0 <= k % n < n
  {
  }

  /** Both list lengths bound a valid product position. */
  lemma ProductIndexBounds<A, B>(xs: seq<A>, ys: seq<B>, k: int)
    requires 0 <= k < |xs| * |ys|
    ensures |ys| > 0 && k / |ys| < |xs|
  {
    PositiveFactor(|xs|, |ys|);
    QuotientBelow(k, |ys|, |xs|);
  }

  /** Position `k` of the product holds `(xs[k / |ys|], ys[k % |ys|])`. */
  lemma ProductIndex<A, B>(xs: seq<A>, ys: seq<B>, k: int)
    requires 0 <= k < |Product(xs, ys)|
    ensures |ys| > 0 && k / |ys| < |xs|
    ensures Product(xs, ys)[k] == (xs[k / |ys|], ys[k % |ys|])
  {
    ProductIndexBounds(xs, ys, k);
    ProductIndexAt(xs, ys, k);
  }

  lemma ProductIndexAt<A, B>(xs: seq<A>, ys: seq<B>, k: int)
    requires 0 <= k < |xs| * |ys| && |ys| > 0 && k / |ys| < |xs|
    ensures Product(xs, ys)[k] == (xs[k / |ys|], ys[k % |ys|])
  {
    DivMod(k, |ys|);
    ProductAt(xs, ys, k / |ys|, k % |ys|, k);
  }

  /** The product is empty when either list is. */
  lemma ProductEmpty<A, B>(xs: seq<A>, ys: seq<B>)
    requires |xs| == 0 || |ys| == 0
    ensures Product(xs, ys) == []
  {
    assert |xs| * |ys| == 0;
  }

  // ---------------------------------------------------------------------------
  // The verdict mask

  function Min(a: nat, b: nat): nat {
    if a <= b then a else b
  }

  /** The positions below `n` whose flag is set, in increasing order. */
  function Kept(keep: seq<bool>, n: nat): (r: seq<nat>)
    requires n <= |keep|
    ensures forall m :: 0 <= m < |r| ==> r[m] < n && keep[r[m]]
    ensures forall m, m' :: 0 <= m < m' < |r| ==> r[m] < r[m']
    ensures forall i :: 0 <= i < n && keep[i] ==> i in r
  {
    if n == 0 then [] else Kept(keep, n - 1) + (if keep[n - 1] then [n - 1] else [])
  }

  function MaskPrefix<T>(items: seq<T>, keep: seq<bool>, n: nat): seq<T>
    requires n <= |items| && n <= |keep|
  {
    if n == 0 then [] else MaskPrefix(items, keep, n - 1) + (if keep[n - 1] then [items[n - 1]] else [])
  }

  /** `[i for i, j in zip(items, keep) if j]`; `zip` stops at the shorter list. */
  function Mask<T>(items: seq<T>, keep: seq<bool>): seq<T> {
    MaskPrefix(items, keep, Min(|items|, |keep|))
  }

  lemma {:induction false} MaskPrefixKept<T>(items: seq<T>, keep: seq<bool>, n: nat)
    requires n <= |items| && n <= |keep|
    ensures |MaskPrefix(items, keep, n)| == |Kept(keep, n)|
    ensures forall m :: 0 <= m < |Kept(keep, n)| ==> MaskPrefix(items, keep, n)[m] == items[Kept(keep, n)[m]]
  {
    if n > 0 {
      MaskPrefixKept(items, keep, n - 1);
    }
  }

  /** The mask keeps exactly the items whose flag is set, in their original order. */
  lemma MaskKeepsFlagged<T>(items: seq<T>, keep: seq<bool>)
    ensures var idx := Kept(keep, Min(|items|, |keep|));
      |Mask(items, keep)| == |idx| && forall m :: 0 <= m < |idx| ==> Mask(items, keep)[m] == items[idx[m]]
  {
    MaskPrefixKept(items, keep, Min(|items|, |keep|));
  }

  /** Each element of the mask is a flagged item: the position it came from. */
  lemma MaskSource<T>(items: seq<T>, keep: seq<bool>, m: int) returns (k: nat)
    requires 0 <= m < |Mask(items, keep)|
    ensures k < |items| && k < |keep| && keep[k] && Mask(items, keep)[m] == items[k]
  {
    var idx := Kept(keep, Min(|items|, |keep|));
    MaskKeepsFlagged(items, keep);
    k := idx[m];
  }

  /** The mask is never longer than either list. */
  lemma MaskLength<T>(items: seq<T>, keep: seq<bool>)
    ensures |Mask(items, keep)| <= |items| && |Mask(items, keep)| <= |keep|
  {
    var n := Min(|items|, |keep|);
    var idx := Kept(keep, n);
    MaskKeepsFlagged(items, keep);
    KeptLength(idx, n);
  }

  /** A strictly increasing list of naturals below `n` has at most `n` elements. */
  lemma {:induction false} KeptLength(idx: seq<nat>, n: nat)
    requires forall m :: 0 <= m < |idx| ==> idx[m] < n
    requires forall m, m' :: 0 <= m < m' < |idx| ==> idx[m] < idx[m']
    ensures |idx| <= n
  {
    if |idx| > 0 {
      var last := idx[|idx| - 1];
      KeptLength(idx[..|idx| - 1], last);
    }
  }

  // ---------------------------------------------------------------------------
  // Screening all pairs

  /** The verdicts of all pairs, in pair order: what the worker pool collects. */
  function Verdicts(num: Numerics, reg: Registry, keys: MeshKeys, pairs: seq<Pair>): seq<bool>
    requires Sound(num) && Ready(reg, keys)
  {
    seq(|pairs|, k requires 0 <= k < |pairs| => CheckValidity(num, reg, keys, pairs[k]))
  }

  /** `list(pool.imap(check_validity, pairs))` run one pair after another: the
      collected list is index-aligned with the pairs, so it is the mask `Screen`
      applies. */
  method ClassifyAll(num: Numerics, reg: Registry, keys: MeshKeys, pairs: seq<Pair>) returns (verdicts: seq<bool>)
    requires Sound(num) && Ready(reg, keys)
    ensures |verdicts| == |pairs|
    ensures forall k :: 0 <= k < |pairs| ==> verdicts[k] == CheckValidity(num, reg, keys, pairs[k])
    ensures verdicts == Verdicts(num, reg, keys, pairs)
  {
    verdicts := [];
    for n := 0 to |pairs|
      invariant |verdicts| == n
      invariant forall k :: 0 <= k < n ==> verdicts[k] == CheckValidity(num, reg, keys, pairs[k])
    {
      verdicts := verdicts + [CheckValidity(num, reg, keys, pairs[n])];
    }
  }

  /** The accepted pairs of entries × targets, in product order. */
  function Screen(num: Numerics, reg: Registry, keys: MeshKeys, entries: seq<Vec3>, targets: seq<Vec3>): seq<Pair>
    requires Sound(num) && Ready(reg, keys)
  {
    var pairs := Product(entries, targets);
    Mask(pairs, Verdicts(num, reg, keys, pairs))
  }

  /** The screened list is the order-preserving subsequence of the product made of
      the pairs that check_validity accepts. */
  lemma ScreenMeaning(num: Numerics, reg: Registry, keys: MeshKeys, entries: seq<Vec3>, targets: seq<Vec3>)
    requires Sound(num) && Ready(reg, keys)
    ensures var pairs := Product(entries, targets);
      var idx := Kept(Verdicts(num, reg, keys, pairs), |pairs|);
      |Screen(num, reg, keys, entries, targets)| == |idx|
      && (forall m :: 0 <= m < |idx| ==> Screen(num, reg, keys, entries, targets)[m] == pairs[idx[m]])
      && (forall m :: 0 <= m < |idx| ==> CheckValidity(num, reg, keys, pairs[idx[m]]))
      && (forall k :: 0 <= k < |pairs| && CheckValidity(num, reg, keys, pairs[k]) ==> k in idx)
      && |Screen(num, reg, keys, entries, targets)| <= |entries| * |targets|
  {
    var pairs := Product(entries, targets);
    MaskKeepsFlagged(pairs, Verdicts(num, reg, keys, pairs));
    MaskLength(pairs, Verdicts(num, reg, keys, pairs));
  }

  /** Every screened pair is an accepted pair of an entry and a target. */
  lemma ScreenMembers(num: Numerics, reg: Registry, keys: MeshKeys, entries: seq<Vec3>, targets: seq<Vec3>, m: int)
    requires Sound(num) && Ready(reg, keys)
    requires 0 <= m < |Screen(num, reg, keys, entries, targets)|
    ensures Screen(num, reg, keys, entries, targets)[m].0 in entries
    ensures Screen(num, reg, keys, entries, targets)[m].1 in targets
    ensures CheckValidity(num, reg, keys, Screen(num, reg, keys, entries, targets)[m])
  {
    var pairs := Product(entries, targets);
    var verdicts := Verdicts(num, reg, keys, pairs);
    var k := MaskSource(pairs, verdicts, m);
    ProductIndex(entries, targets, k);
  }

  /** No entries or no targets: nothing to screen. */
  lemma ScreenEmpty(num: Numerics, reg: Registry, keys: MeshKeys, entries: seq<Vec3>, targets: seq<Vec3>)
    requires Sound(num) && Ready(reg, keys)
    requires |entries| == 0 || |targets| == 0
    ensures Product(entries, targets) == [] && Screen(num, reg, keys, entries, targets) == []
  {
    ProductEmpty(entries, targets);
  }

  // ---------------------------------------------------------------------------
  // Index to id dictionaries

  function IdMapPrefix<K, V>(keys: seq<K>, ids: seq<V>, n: nat): map<K, V>
    requires n <= |keys| && n <= |ids|
  {
    if n == 0 then map[] else IdMapPrefix(keys, ids, n - 1)[keys[n - 1] := ids[n - 1]]
  }

  /** `{i: j for i, j in zip(keys, ids)}`: a repeated key keeps its last id. */
  function IdMap<K, V>(keys: seq<K>, ids: seq<V>): map<K, V> {
    IdMapPrefix(keys, ids, Min(|keys|, |ids|))
  }

  /** `i` is the last position below `n` that holds `keys[i]`. */
  predicate LastAt<K(==)>(keys: seq<K>, n: int, i: int) {
    0 <= i < n <= |keys| && forall j :: i < j < n ==> keys[j] != keys[i]
  }

  lemma {:induction false} IdMapPrefixLastWins<K, V>(keys: seq<K>, ids: seq<V>, n: nat, i: int)
    requires n <= |keys| && n <= |ids| && LastAt(keys, n, i)
    ensures keys[i] in IdMapPrefix(keys, ids, n) && IdMapPrefix(keys, ids, n)[keys[i]] == ids[i]
  {
    if i < n - 1 {
      IdMapPrefixLastWins(keys, ids, n - 1, i);
    }
  }

  lemma {:induction false} IdMapPrefixLookup<K, V>(keys: seq<K>, ids: seq<V>, n: nat, key: K) returns (i: nat)
    requires n <= |keys| && n <= |ids| && key in IdMapPrefix(keys, ids, n)
    ensures LastAt(keys, n, i) && keys[i] == key && IdMapPrefix(keys, ids, n)[key] == ids[i]
  {
    if keys[n - 1] == key {
      i := n - 1;
    } else {
      i := IdMapPrefixLookup(keys, ids, n - 1, key);
    }
  }

  lemma {:induction false} IdMapPrefixDomain<K, V>(keys: seq<K>, ids: seq<V>, n: nat, key: K)
    requires n <= |keys| && n <= |ids|
    ensures key in IdMapPrefix(keys, ids, n) <==> exists i :: 0 <= i < n && keys[i] == key
  {
    if n > 0 {
      IdMapPrefixDomain(keys, ids, n - 1, key);
    }
  }

  /** A key that occurs last at position `i` maps to `ids[i]`. */
  lemma IdMapMeaning<K, V>(keys: seq<K>, ids: seq<V>, i: int)
    requires LastAt(keys, Min(|keys|, |ids|), i)
    ensures keys[i] in IdMap(keys, ids) && IdMap(keys, ids)[keys[i]] == ids[i]
  {
    IdMapPrefixLastWins(keys, ids, Min(|keys|, |ids|), i);
  }

  /** Every id the dictionary returns is the id zipped with the key's last occurrence. */
  lemma IdMapLookup<K, V>(keys: seq<K>, ids: seq<V>, key: K) returns (i: nat)
    requires key in IdMap(keys, ids)
    ensures LastAt(keys, Min(|keys|, |ids|), i) && keys[i] == key && IdMap(keys, ids)[key] == ids[i]
  {
    i := IdMapPrefixLookup(keys, ids, Min(|keys|, |ids|), key);
  }

  /** The dictionary holds exactly the keys of the zipped prefix. */
  lemma IdMapDomain<K, V>(keys: seq<K>, ids: seq<V>, key: K)
    ensures key in IdMap(keys, ids) <==> exists i :: 0 <= i < Min(|keys|, |ids|) && keys[i] == key
  {
    IdMapPrefixDomain(keys, ids, Min(|keys|, |ids|), key);
  }

  /** Two points with the same index share one id: the one listed last. */
  lemma SharedIndexSharesId<K, V>(keys: seq<K>, ids: seq<V>, i: int, i': int)
    requires 0 <= i < i' && LastAt(keys, Min(|keys|, |ids|), i') && keys[i] == keys[i']
    ensures keys[i] in IdMap(keys, ids) && IdMap(keys, ids)[keys[i]] == ids[i']
  {
    IdMapMeaning(keys, ids, i');
  }
}
