/** The pipeline over the test image set: the same classifier bound to the test
    set's mesh names, and the filtering of the entry/target pairs. */
module MainTestset {
  import opened Vectors
  import opened MarchingCubes
  import Screening
  import MainActual

  /** The meshes the test set screens against. */
  const Keys: Screening.MeshKeys := Screening.MeshKeys("r_hippoTest.nii.gz", "ventricles_vessels", "r_cortexTest.nii.gz")

  /** check_validity over the test set's meshes. */
  function CheckValidity(num: Numerics, reg: Screening.Registry, pair: Screening.Pair): bool
    requires Sound(num) && Screening.Ready(reg, Keys)
  {
    Screening.CheckValidity(num, reg, Keys, pair)
  }

  /** The test set's classifier accepts exactly the pairs that cross the
      "r_hippoTest.nii.gz" mesh, miss the "ventricles_vessels" mesh and meet the
      "r_cortexTest.nii.gz" mesh, at its first face hit, at no more than 35 degrees. */
  lemma CheckValidityMeaning(num: Numerics, reg: Screening.Registry, pair: Screening.Pair)
    requires Sound(num) && Screening.Ready(reg, Keys)
    ensures CheckValidity(num, reg, pair) <==>
      Screening.Hits(reg["r_hippoTest.nii.gz"], pair) && !Screening.Hits(reg["ventricles_vessels"], pair)
      && Screening.CortexAngleAccepted(num, reg["r_cortexTest.nii.gz"], pair)
  {
    Screening.CheckValidityMeaning(num, reg, Keys, pair);
  }

  /** The two classifiers differ only in the names they look the meshes up by:
      given the same three meshes they give the same verdict. */
  lemma SameClassifierAsActual(num: Numerics, reg: Screening.Registry, actual: Screening.Registry, pair: Screening.Pair)
    requires Sound(num) && Screening.Ready(reg, Keys) && Screening.Ready(actual, MainActual.Keys)
    requires reg["r_hippoTest.nii.gz"] == actual["r_hippo.nii.gz"]
    requires reg["ventricles_vessels"] == actual["ventricles_vessels"]
    requires reg["r_cortexTest.nii.gz"] == actual["cortex.nii.gz"]
    ensures CheckValidity(num, reg, pair) == MainActual.CheckValidity(num, actual, pair)
  {
  }

  /** The pairs of entries × targets, in product order (`entries_targets_combs`
      before filtering). */
  function Combinations(entries: seq<Vec3>, targets: seq<Vec3>): seq<Screening.Pair> {
    Screening.Product(entries, targets)
  }

  /** `entries_targets_combs` after filtering: the accepted pairs, in product order. */
  function Filtered(num: Numerics, reg: Screening.Registry, entries: seq<Vec3>, targets: seq<Vec3>): seq<Screening.Pair>
    requires Sound(num) && Screening.Ready(reg, Keys)
  {
    Screening.Screen(num, reg, Keys, entries, targets)
  }

  /** The filtered list keeps every accepted pair of the product, drops every
      rejected one, and is no longer than the product. */
  lemma FilteredMeaning(num: Numerics, reg: Screening.Registry, entries: seq<Vec3>, targets: seq<Vec3>)
    requires Sound(num) && Screening.Ready(reg, Keys)
    ensures |Filtered(num, reg, entries, targets)| <= |entries| * |targets|
    ensures forall m :: 0 <= m < |Filtered(num, reg, entries, targets)| ==>
      Filtered(num, reg, entries, targets)[m] in Combinations(entries, targets)
      && CheckValidity(num, reg, Filtered(num, reg, entries, targets)[m])
    ensures forall k :: 0 <= k < |Combinations(entries, targets)| && CheckValidity(num, reg, Combinations(entries, targets)[k]) ==>
      Combinations(entries, targets)[k] in Filtered(num, reg, entries, targets)
  {
    var pairs := Combinations(entries, targets);
    var filtered := Filtered(num, reg, entries, targets);
    Screening.ScreenMeaning(num, reg, Keys, entries, targets);
    var idx := Screening.Kept(Screening.Verdicts(num, reg, Keys, pairs), |pairs|);
    forall k | 0 <= k < |pairs| && CheckValidity(num, reg, pairs[k])
      ensures pairs[k] in filtered
    {
      var m :| 0 <= m < |idx| && idx[m] == k;
      assert filtered[m] == pairs[k];
    }
  }
}
