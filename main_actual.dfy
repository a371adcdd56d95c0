/** The pipeline over the actual image set: the classifier bound to that set's
    mesh names, the screening of every entry/target pair, and the conversion of
    the accepted pairs to pairs of fiducial ids. */
module MainActual {
  import opened Vectors
  import opened MarchingCubes
  import Screening

  /** The meshes the actual set screens against: the right hippocampus, the
      union of ventricles and vessels, and the cortex. */
  const Keys: Screening.MeshKeys := Screening.MeshKeys("r_hippo.nii.gz", "ventricles_vessels", "cortex.nii.gz")

  /** check_validity over the actual set's meshes. */
  function CheckValidity(num: Numerics, reg: Screening.Registry, pair: Screening.Pair): bool
    requires Sound(num) && Screening.Ready(reg, Keys)
  {
    Screening.CheckValidity(num, reg, Keys, pair)
  }

  /** The actual set's classifier accepts exactly the pairs that cross the
      "r_hippo.nii.gz" mesh, miss the "ventricles_vessels" mesh and meet the
      "cortex.nii.gz" mesh, at its first face hit, at no more than 35 degrees. */
  lemma CheckValidityMeaning(num: Numerics, reg: Screening.Registry, pair: Screening.Pair)
    requires Sound(num) && Screening.Ready(reg, Keys)
    ensures CheckValidity(num, reg, pair) <==>
      Screening.Hits(reg["r_hippo.nii.gz"], pair) && !Screening.Hits(reg["ventricles_vessels"], pair)
      && Screening.CortexAngleAccepted(num, reg["cortex.nii.gz"], pair)
  {
    Screening.CheckValidityMeaning(num, reg, Keys, pair);
  }

  /** The accepted pairs, in product order (the `entries_targets_combs_valid` list). */
  function Valid(num: Numerics, reg: Screening.Registry, entries: seq<Vec3>, targets: seq<Vec3>): seq<Screening.Pair>
    requires Sound(num) && Screening.Ready(reg, Keys)
  {
    Screening.Screen(num, reg, Keys, entries, targets)
  }

  /** The accepted pairs as (entry id, target id), looked up in the dictionaries
      from point index to id. Every accepted point is one of the listed points, so
      no lookup fails when each point list has an id per point. */
  function ValidIds(num: Numerics, reg: Screening.Registry, entries: seq<Vec3>, entryIds: seq<string>,
                    targets: seq<Vec3>, targetIds: seq<string>): (r: seq<(string, string)>)
    requires Sound(num) && Screening.Ready(reg, Keys)
    requires |entries| <= |entryIds| && |targets| <= |targetIds|
    ensures |r| == |Valid(num, reg, entries, targets)|
  {
    var valid := Valid(num, reg, entries, targets);
    var entryDict := Screening.IdMap(entries, entryIds);
    var targetDict := Screening.IdMap(targets, targetIds);
    seq(|valid|, m requires 0 <= m < |valid| =>
      Screening.ScreenMembers(num, reg, Keys, entries, targets, m);
      Screening.IdMapDomain(entries, entryIds, valid[m].0);
      Screening.IdMapDomain(targets, targetIds, valid[m].1);
      (entryDict[valid[m].0], targetDict[valid[m].1]))
  }

  /** Position `m` of the id list names an accepted entry/target pair by the ids
      of the last listed points with those indices. */
  lemma ValidIdsMeaning(num: Numerics, reg: Screening.Registry, entries: seq<Vec3>, entryIds: seq<string>,
                        targets: seq<Vec3>, targetIds: seq<string>, m: int) returns (i: nat, j: nat)
    requires Sound(num) && Screening.Ready(reg, Keys)
    requires |entries| <= |entryIds| && |targets| <= |targetIds|
    requires 0 <= m < |Valid(num, reg, entries, targets)|
    ensures Screening.LastAt(entries, |entries|, i) && Screening.LastAt(targets, |targets|, j)
    ensures Valid(num, reg, entries, targets)[m] == (entries[i], targets[j])
    ensures CheckValidity(num, reg, (entries[i], targets[j]))
    ensures ValidIds(num, reg, entries, entryIds, targets, targetIds)[m] == (entryIds[i], targetIds[j])
  {
    var valid := Valid(num, reg, entries, targets);
    Screening.ScreenMembers(num, reg, Keys, entries, targets, m);
    Screening.IdMapDomain(entries, entryIds, valid[m].0);
    Screening.IdMapDomain(targets, targetIds, valid[m].1);
    i := Screening.IdMapLookup(entries, entryIds, valid[m].0);
    j := Screening.IdMapLookup(targets, targetIds, valid[m].1);
  }

  /** When no two entries and no two targets share an index, each accepted pair
      is named by the ids listed with its own two points. */
  lemma DistinctPointsKeepTheirIds(num: Numerics, reg: Screening.Registry, entries: seq<Vec3>, entryIds: seq<string>,
                                   targets: seq<Vec3>, targetIds: seq<string>, m: int, i: int, j: int)
    requires Sound(num) && Screening.Ready(reg, Keys)
    requires |entries| <= |entryIds| && |targets| <= |targetIds|
    requires forall a, b :: 0 <= a < b < |entries| ==> entries[a] != entries[b]
    requires forall a, b :: 0 <= a < b < |targets| ==> targets[a] != targets[b]
    requires 0 <= m < |Valid(num, reg, entries, targets)|
    requires 0 <= i < |entries| && 0 <= j < |targets|
    requires Valid(num, reg, entries, targets)[m] == (entries[i], targets[j])
    ensures ValidIds(num, reg, entries, entryIds, targets, targetIds)[m] == (entryIds[i], targetIds[j])
  {
    var i', j' := ValidIdsMeaning(num, reg, entries, entryIds, targets, targetIds, m);
  }

  /** No entries or no targets: no accepted pair and no ids. */
  lemma NothingToScreen(num: Numerics, reg: Screening.Registry, entries: seq<Vec3>, entryIds: seq<string>,
                        targets: seq<Vec3>, targetIds: seq<string>)
    requires Sound(num) && Screening.Ready(reg, Keys)
    requires |entries| <= |entryIds| && |targets| <= |targetIds|
    requires |entries| == 0 || |targets| == 0
    ensures Valid(num, reg, entries, targets) == [] && ValidIds(num, reg, entries, entryIds, targets, targetIds) == []
  {
    Screening.ScreenEmpty(num, reg, Keys, entries, targets);
  }
}
