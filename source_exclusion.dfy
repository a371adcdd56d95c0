/** Attribution of the test set's rejections to their causes: every failing
    criterion of a pair is listed, none is skipped, and the pairs are then
    grouped by cause. */
module SourceExclusion {
  import opened MarchingCubes
  import Screening
  import MainTestset

  const NotHippo: string := "not intersect with hippo campus"
  const TooShear: string := "too shear cortex"
  const InVessels: string := "in vessels or ventricles"

  /** The failing criteria of a pair in geometric terms, in the order
      hippocampus, cortex, ventricles and vessels. */
  function Causes(num: Numerics, reg: Screening.Registry, pair: Screening.Pair): seq<string>
    requires Sound(num) && Screening.Ready(reg, MainTestset.Keys)
  {
    var hippo, vessels, cortex := reg[MainTestset.Keys.hippo], reg[MainTestset.Keys.vessels], reg[MainTestset.Keys.cortex];
    (if Screening.Hits(hippo, pair) then [] else [NotHippo])
    + (if Screening.CortexAngleAccepted(num, cortex, pair) then [] else [TooShear])
    + (if Screening.Hits(vessels, pair) then [InVessels] else [])
  }

  /** check_source_validity: runs all three tests, without stopping at the first
      failure, and appends the cause of each failing one. */
  method CheckSourceValidity(num: Numerics, reg: Screening.Registry, pair: Screening.Pair) returns (conditions: seq<string>)
    requires Sound(num) && Screening.Ready(reg, MainTestset.Keys)
    ensures conditions == Causes(num, reg, pair)
  {
    var entry, target := pair.0, pair.1;
    var hippo, vessels, cortex := reg[MainTestset.Keys.hippo], reg[MainTestset.Keys.vessels], reg[MainTestset.Keys.cortex];
    conditions := [];
    if !CheckIntersect(entry, target, hippo.verts, hippo.faces) {
      conditions := conditions + [NotHippo];
    }
    Screening.CortexCriterion(num, cortex, pair);
    if AsNumber(CheckAngleOfIntersection(num, entry, target, cortex.verts, cortex.faces)) > Screening.MaxCortexAngle {
      conditions := conditions + [TooShear];
    }
    if CheckIntersect(entry, target, vessels.verts, vessels.faces) {
      conditions := conditions + [InVessels];
    }
  }

  /** The position of a cause in the fixed order of the three tests. */
  function Rank(cause: string): int {
    if cause == NotHippo then 0 else if cause == TooShear then 1 else 2
  }

  /** At most three labels, each one of the three, in test order and so without
      repetition. */
  lemma CausesOrdered(num: Numerics, reg: Screening.Registry, pair: Screening.Pair)
    requires Sound(num) && Screening.Ready(reg, MainTestset.Keys)
    ensures var r := Causes(num, reg, pair);
      |r| <= 3
      && (forall a :: 0 <= a < |r| ==> r[a] in {NotHippo, TooShear, InVessels})
      && (forall a, b :: 0 <= a < b < |r| ==> Rank(r[a]) < Rank(r[b]))
  {
  }

  /** A pair has no cause of exclusion exactly when the test set's classifier
      accepts it. */
  lemma NoCauseIffValid(num: Numerics, reg: Screening.Registry, pair: Screening.Pair)
    requires Sound(num) && Screening.Ready(reg, MainTestset.Keys)
    ensures Causes(num, reg, pair) == [] <==> MainTestset.CheckValidity(num, reg, pair)
  {
    MainTestset.CheckValidityMeaning(num, reg, pair);
  }

  /** Each cause is present exactly when its own test fails; the cortex cause
      in particular exactly when the angle is above 35 degrees. */
  lemma LabelMeaning(num: Numerics, reg: Screening.Registry, pair: Screening.Pair)
    requires Sound(num) && Screening.Ready(reg, MainTestset.Keys)
    ensures var r := Causes(num, reg, pair);
      var hippo, vessels, cortex := reg[MainTestset.Keys.hippo], reg[MainTestset.Keys.vessels], reg[MainTestset.Keys.cortex];
      (NotHippo in r <==> !CheckIntersect(pair.0, pair.1, hippo.verts, hippo.faces))
      && (TooShear in r <==>
            AsNumber(CheckAngleOfIntersection(num, pair.0, pair.1, cortex.verts, cortex.faces)) > Screening.MaxCortexAngle)
      && (InVessels in r <==> CheckIntersect(pair.0, pair.1, vessels.verts, vessels.faces))
  {
    Screening.CortexCriterion(num, reg[MainTestset.Keys.cortex], pair);
  }

  /** A pair that crosses no cortex face never carries the cortex cause. */
  lemma NoCortexCrossingNotShear(num: Numerics, reg: Screening.Registry, pair: Screening.Pair)
    requires Sound(num) && Screening.Ready(reg, MainTestset.Keys)
    requires !Screening.Hits(reg[MainTestset.Keys.cortex], pair)
    ensures TooShear !in Causes(num, reg, pair)
  {
  }

  /** `pool.imap(check_source_validity, pairs)`: the labels of every pair, in order. */
  method AllSources(num: Numerics, reg: Screening.Registry, pairs: seq<Screening.Pair>) returns (sources: seq<seq<string>>)
    requires Sound(num) && Screening.Ready(reg, MainTestset.Keys)
    ensures |sources| == |pairs|
    ensures forall k :: 0 <= k < |pairs| ==> sources[k] == Causes(num, reg, pairs[k])
  {
    sources := [];
    for n := 0 to |pairs|
      invariant |sources| == n
      invariant forall k :: 0 <= k < n ==> sources[k] == Causes(num, reg, pairs[k])
    {
      var conditions := CheckSourceValidity(num, reg, pairs[n]);
      sources := sources + [conditions];
    }
  }

  /** The indices whose labels include `cause`; turning each list into a set keeps its members. */
  function CauseSet(sources: seq<seq<string>>, cause: string): set<int> {
    set k | 0 <= k < |sources| && cause in sources[k]
  }

  /** Each cause set holds exactly the pairs failing that cause's test. */
  lemma CauseSetMeaning(num: Numerics, reg: Screening.Registry, pairs: seq<Screening.Pair>, sources: seq<seq<string>>, k: int)
    requires Sound(num) && Screening.Ready(reg, MainTestset.Keys)
    requires |sources| == |pairs| && forall k :: 0 <= k < |pairs| ==> sources[k] == Causes(num, reg, pairs[k])
    requires 0 <= k < |pairs|
    ensures var hippo, vessels, cortex := reg[MainTestset.Keys.hippo], reg[MainTestset.Keys.vessels], reg[MainTestset.Keys.cortex];
      (k in CauseSet(sources, NotHippo) <==> !Screening.Hits(hippo, pairs[k]))
      && (k in CauseSet(sources, TooShear) <==> !Screening.CortexAngleAccepted(num, cortex, pairs[k]))
      && (k in CauseSet(sources, InVessels) <==> Screening.Hits(vessels, pairs[k]))
  {
  }

  /** Together the three cause sets are exactly the pairs the classifier rejects. */
  lemma CauseSetsCoverRejected(num: Numerics, reg: Screening.Registry, pairs: seq<Screening.Pair>, sources: seq<seq<string>>)
    requires Sound(num) && Screening.Ready(reg, MainTestset.Keys)
    requires |sources| == |pairs| && forall k :: 0 <= k < |pairs| ==> sources[k] == Causes(num, reg, pairs[k])
    ensures CauseSet(sources, NotHippo) + CauseSet(sources, TooShear) + CauseSet(sources, InVessels)
         == set k | 0 <= k < |pairs| && !MainTestset.CheckValidity(num, reg, pairs[k])
  {
    forall k | 0 <= k < |pairs|
      ensures (k in CauseSet(sources, NotHippo) || k in CauseSet(sources, TooShear) || k in CauseSet(sources, InVessels))
          <==> !MainTestset.CheckValidity(num, reg, pairs[k])
    {
      MainTestset.CheckValidityMeaning(num, reg, pairs[k]);
    }
  }
}
