/**
  The seed of multivariate bucketing: carried along whenever a feature state is cloned or recreated,
  so that an enrolled identity keeps its variant.
 */
module HashingSeeds {
  import opened Options
  import opened FeatureStates
  import B = Bucketing

  function SegmentOf(fs: FeatureState): Option<nat>
  {
    if fs.segment.Some? then Some(fs.segment.value.segmentId) else None
  }

  /** Environment, feature and segment: segment rows are recreated, so they do not tell lineages apart. */
  predicate SeedLineage(a: FeatureState, b: FeatureState)
  {
    && a.environment == b.environment && a.feature == b.feature && SegmentOf(a) == SegmentOf(b)
    && a.identity.None? && b.identity.None?
  }

  predicate Supersedable(row: FeatureState, fs: FeatureState, now: int)
  {
    SeedLineage(row, fs) && IsLive(row, now) && row.id != fs.id
  }

  predicate Later(a: FeatureState, b: FeatureState)
    requires a.liveFrom.Some? && b.liveFrom.Some? && a.version.Some? && b.version.Some?
  {
    a.liveFrom.value > b.liveFrom.value || (a.liveFrom == b.liveFrom && a.version.value > b.version.value)
  }

  /** `get_superseded_live_feature_state`: the first by descending `live_from`, then version. */
  function SupersededState(rows: seq<FeatureState>, fs: FeatureState, now: int): (r: Option<FeatureState>)
    requires fs.identity.None?
    ensures r.Some? ==> r.value in rows && Supersedable(r.value, fs, now)
  {
    if rows == [] then None
    else
      var n := |rows| - 1;
      var best := SupersededState(rows[..n], fs, now);
      if Supersedable(rows[n], fs, now) && (best.None? || Later(rows[n], best.value)) then Some(rows[n]) else best
  }

  /** It is the state `__gt__` ranks highest in the lineage, and there is one whenever anything is live. */
  lemma {:induction false} SupersededIsHighest(rows: seq<FeatureState>, fs: FeatureState, now: int)
    requires fs.identity.None?
    ensures var r := SupersededState(rows, fs, now);
            && (r.None? <==> forall i :: 0 <= i < |rows| ==> !Supersedable(rows[i], fs, now))
            && (r.Some? ==> forall i :: 0 <= i < |rows| && Supersedable(rows[i], fs, now) ==>
                !Newer(rows[i], r.value, now))
  {
    if rows != [] {
      SupersededIsHighest(rows[..|rows| - 1], fs, now);
    }
  }

  predicate LiveOfLineage(x: FeatureState, fs: FeatureState, now: int)
  {
    && x.environment == fs.environment && x.feature == fs.feature && x.identity.None? && x.id != fs.id
    && (x.segment.Some? <==> fs.segment.Some?)
    && (x.segment.Some? && fs.segment.Some? ==> x.segment.value.segmentId == fs.segment.value.segmentId)
    && x.version.Some? && x.liveFrom.Some? && x.liveFrom.value <= now
  }

  /**
    By the columns: it is of the same environment, feature and segment and for no identity, its time has
    come, it is not the state itself, and none such has a later `live_from`, or the same and a higher version.
   */
  lemma SupersededByColumns(rows: seq<FeatureState>, fs: FeatureState, now: int)
    requires fs.identity.None?
    ensures var r := SupersededState(rows, fs, now);
            && (r.Some? <==> exists x :: x in rows && LiveOfLineage(x, fs, now))
            && (r.Some? ==>
                  && r.value in rows && LiveOfLineage(r.value, fs, now)
                  && forall x :: x in rows && LiveOfLineage(x, fs, now) ==>
                       x.liveFrom.value < r.value.liveFrom.value
                       || (x.liveFrom == r.value.liveFrom && x.version.value <= r.value.version.value))
  {
    SupersededIsHighest(rows, fs, now);
    forall x | x in rows ensures LiveOfLineage(x, fs, now) <==> Supersedable(x, fs, now) {}
    var r := SupersededState(rows, fs, now);
    if x :| x in rows && LiveOfLineage(x, fs, now) {
      var i :| 0 <= i < |rows| && rows[i] == x;
      assert Supersedable(rows[i], fs, now);
    }
    if r.Some? {
      forall x | x in rows && LiveOfLineage(x, fs, now)
        ensures x.liveFrom.value < r.value.liveFrom.value
                || (x.liveFrom == r.value.liveFrom && x.version.value <= r.value.version.value)
      {
        var i :| 0 <= i < |rows| && rows[i] == x;
        assert Supersedable(rows[i], fs, now) && !Newer(rows[i], r.value, now);
      }
    }
  }

  /** The salt a new row is stored with. */
  function InheritedSalt(rows: seq<FeatureState>, fs: FeatureState, multivariate: bool, now: int): Option<int>
  {
    if fs.mvHashingSalt.Some? || fs.identity.Some? || !multivariate then fs.mvHashingSalt
    else
      var superseded := SupersededState(rows, fs, now);
      if superseded.Some? then Some(Seed(superseded.value)) else None
  }

  // ----- A clone's options -----

  /** The values of a clone are re-created in the id order of the source's. */
  method CloneValues(values: seq<B.MvValue>, nextId: nat) returns (clones: seq<B.MvValue>)
    requires B.UniqueIds(values)
    ensures B.AscendingIds(clones) && |clones| == |values|
    ensures var sorted := B.SortById(values);
            |sorted| == |clones| && forall i :: 0 <= i < |clones| ==> clones[i] == sorted[i].(id := nextId + i)
  {
    var sorted := B.SortById(values);
    B.SortByIdSpec(values);
    clones := [];
    for i := 0 to |sorted|
      invariant |clones| == i
      invariant forall j :: 0 <= j < i ==> clones[j] == sorted[j].(id := nextId + j)
    {
      clones := clones + [sorted[i].(id := nextId + i)];
    }
  }

  /** Clones of option values, as `CloneValues` makes them. */
  ghost predicate ClonedValues(values: seq<B.MvValue>, clones: seq<B.MvValue>)
  {
    && B.UniqueIds(values) && B.AscendingIds(clones)
    && |clones| == |B.SortById(values)|
    && forall i :: 0 <= i < |clones| ==>
         clones[i].option == B.SortById(values)[i].option && clones[i].allocation == B.SortById(values)[i].allocation
  }

  /**
    Whatever the hash function and whoever the identity, a clone falls on the same position as its
    source, and that position holds the same option.
   */
  lemma CloneChoosesAlike(source: FeatureState, id: nat, environment: nat, segmentRow: nat, version: Option<int>,
                          liveFrom: Option<int>, values: seq<B.MvValue>, clones: seq<B.MvValue>,
                          hash: (int, string) -> real, identityHashKey: string, position: Option<nat>)
    requires Seed(source) != 0 && ClonedValues(values, clones)
    ensures var clone := CloneOf(source, id, environment, segmentRow, version, liveFrom);
            && (B.Falls(B.SortById(values), hash(Seed(source), identityHashKey), position) <==>
                B.Falls(B.SortById(clones), hash(Seed(clone), identityHashKey), position))
            && (B.Falls(B.SortById(clones), hash(Seed(clone), identityHashKey), position) && position.Some? ==>
                B.SortById(clones)[position.value].option == B.SortById(values)[position.value].option)
  {
    var sorted := B.SortById(values);
    B.SortAscending(clones);
    forall k: nat | k <= |sorted| ensures B.Start(sorted, k) == B.Start(clones, k) {
      B.SameAllocationsSameStart(sorted, clones, k);
    }
  }
}
