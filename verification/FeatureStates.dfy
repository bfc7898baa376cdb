/** Feature states under v1 versioning and the hand-written comparison that picks between them. */
module FeatureStates {
  import opened Options

  datatype CompareError = DifferentEnvironments | DifferentFeatures | DifferentIdentities
  datatype Result<+T> = Ok(value: T) | Err(error: CompareError)

  /** A feature's override for one segment; priority 1 is the highest. */
  datatype FeatureSegment = FeatureSegment(id: nat, segmentId: nat, priority: nat)

  datatype FeatureState = FeatureState(
    id: nat,
    environment: nat,
    feature: nat,
    identity: Option<nat>,
    segment: Option<FeatureSegment>,
    version: Option<int>,
    liveFrom: Option<int>,
    mvHashingSalt: Option<int>)

  datatype Kind = IdentityKind | SegmentKind | EnvironmentKind

  function KindOf(fs: FeatureState): Kind
  {
    if fs.identity.Some? && fs.segment.None? then IdentityKind
    else if fs.segment.Some? && fs.identity.None? then SegmentKind
    else EnvironmentKind
  }

  predicate IsLive(fs: FeatureState, now: int)
  {
    fs.version.Some? && fs.liveFrom.Some? && fs.liveFrom.value <= now
  }

  predicate MoreRecentLiveFrom(a: FeatureState, b: FeatureState)
  {
    || (a.liveFrom.Some? && b.liveFrom.Some? && a.liveFrom.value > b.liveFrom.value)
    || (a.liveFrom.Some? && b.liveFrom.None?)
  }

  predicate MoreRecentVersion(a: FeatureState, b: FeatureState)
  {
    || (a.version.Some? && b.version.Some? && a.version.value > b.version.value)
    || (a.version.Some? && b.version.None?)
  }

  /** `FeatureSegment.__lt__`: a lower segment is one with a greater priority number. */
  predicate SegmentLess(a: FeatureSegment, b: FeatureSegment)
  {
    a.priority > b.priority
  }

  function SegmentRowId(fs: FeatureState): Option<nat>
  {
    if fs.segment.Some? then Some(fs.segment.value.id) else None
  }

  /** `FeatureState.__gt__`: whether `a` is higher priority than `b`. */
  function Gt(a: FeatureState, b: FeatureState, now: int): Result<bool>
  {
    if a.environment != b.environment then Err(DifferentEnvironments)
    else if a.feature != b.feature then Err(DifferentFeatures)
    else if a.identity.Some? then
      if b.identity.Some? && a.identity != b.identity then Err(DifferentIdentities) else Ok(true)
    else if a.segment.Some? && SegmentRowId(a) != SegmentRowId(b) then
      Ok(!(b.identity.Some? || (b.segment.Some? && SegmentLess(a.segment.value, b.segment.value))))
    else if KindOf(a) == KindOf(b) then
      Ok(IsLive(a, now) &&
         (!IsLive(b, now) || MoreRecentLiveFrom(a, b) || (a.liveFrom == b.liveFrom && MoreRecentVersion(a, b))))
    else Ok(!(b.segment.Some? || b.identity.Some?))
  }

  predicate Beats(a: FeatureState, b: FeatureState, now: int)
  {
    Gt(a, b, now) == Ok(true)
  }

  // ----- The order the comparison stands for -----

  /** Identity overrides come first, then segment overrides by priority number, then the default. */
  function Tier(fs: FeatureState): (int, int)
  {
    if fs.identity.Some? then (0, 0)
    else if fs.segment.Some? then (1, fs.segment.value.priority)
    else (2, 0)
  }

  predicate TierLess(a: (int, int), b: (int, int))
  {
    a.0 < b.0 || (a.0 == b.0 && a.1 < b.1)
  }

  /** Within a lineage: live before not live, then the later `live_from`, then the higher version. */
  predicate Newer(a: FeatureState, b: FeatureState, now: int)
  {
    IsLive(a, now) &&
    (!IsLive(b, now)
     || a.liveFrom.value > b.liveFrom.value
     || (a.liveFrom == b.liveFrom && a.version.value > b.version.value))
  }

  predicate Precedes(a: FeatureState, b: FeatureState, now: int)
  {
    TierLess(Tier(a), Tier(b)) || (Tier(a) == Tier(b) && Newer(a, b, now))
  }

  /** Same environment default, same segment override row, or same identity override. */
  predicate SameLineage(a: FeatureState, b: FeatureState)
  {
    && a.environment == b.environment && a.feature == b.feature
    && a.identity == b.identity && SegmentRowId(a) == SegmentRowId(b)
  }

  /** A state overrides for an identity or for a segment, not both. */
  predicate WellFormed(fs: FeatureState)
  {
    fs.identity.None? || fs.segment.None?
  }

  /** Two states that one identity's flag is chosen from. */
  predicate Comparable(a: FeatureState, b: FeatureState)
  {
    && WellFormed(a) && WellFormed(b)
    && a.environment == b.environment && a.feature == b.feature
    && (a.identity.Some? && b.identity.Some? ==> a.identity == b.identity)
    && (a.segment.Some? && b.segment.Some? && SegmentRowId(a) == SegmentRowId(b) ==> a.segment == b.segment)
  }

  predicate DistinctPriorities(a: FeatureState, b: FeatureState)
  {
    a.segment.Some? && b.segment.Some? && SegmentRowId(a) != SegmentRowId(b) ==>
      a.segment.value.priority != b.segment.value.priority
  }

  predicate DistinctVersions(a: FeatureState, b: FeatureState)
  {
    SameLineage(a, b) && a.version.Some? && b.version.Some? ==> a.version != b.version
  }

  /** The comparison raises exactly on states that do not belong to one flag of one identity. */
  lemma GtRaises(a: FeatureState, b: FeatureState, now: int)
    ensures Gt(a, b, now).Err? <==>
            a.environment != b.environment || a.feature != b.feature
            || (a.identity.Some? && b.identity.Some? && a.identity != b.identity)
  {
  }

  /** On comparable states with distinct priorities the comparison is the order, identities aside. */
  lemma GtIsPrecedes(a: FeatureState, b: FeatureState, now: int)
    requires Comparable(a, b) && DistinctPriorities(a, b)
    ensures Gt(a, b, now).Ok?
    ensures !(a.identity.Some? && b.identity.Some?) ==> (Beats(a, b, now) <==> Precedes(a, b, now))
    ensures a.identity.Some? && b.identity.Some? ==> Beats(a, b, now)
  {
  }

  /**
    Two comparable states each beat the other exactly when they are two versions of one identity
    override or overrides for two segments of one priority; so these must not meet.
   */
  lemma BothBeat(a: FeatureState, b: FeatureState, now: int)
    requires Comparable(a, b)
    ensures Beats(a, b, now) && Beats(b, a, now) <==>
            || (a.identity.Some? && b.identity.Some?)
            || (a.segment.Some? && b.segment.Some? && !DistinctPriorities(a, b))
  {
  }

  /** States one flag is chosen from, at most one of them an identity override. */
  ghost predicate OneFlag(states: set<FeatureState>)
  {
    && (forall a, b :: a in states && b in states ==> Comparable(a, b) && DistinctPriorities(a, b))
    && (forall a, b :: a in states && b in states && a != b ==> DistinctVersions(a, b))
    && (forall a, b :: a in states && b in states && a.identity.Some? && b.identity.Some? ==> a == b)
  }

  predicate Incomparable(a: FeatureState, b: FeatureState, now: int)
  {
    !Beats(a, b, now) && !Beats(b, a, now)
  }

  /** On different states of one flag the comparison is a strict weak order, and total on live ones. */
  lemma GtIsStrictWeakOrder(states: set<FeatureState>, now: int)
    requires OneFlag(states)
    ensures forall a, b :: a in states && b in states && a != b ==> !(Beats(a, b, now) && Beats(b, a, now))
    ensures forall a, b, c :: {a, b, c} <= states && a != b && b != c && a != c ==>
              (Beats(a, b, now) && Beats(b, c, now) ==> Beats(a, c, now))
    ensures forall a, b, c :: {a, b, c} <= states && a != b && b != c && a != c ==>
              (Incomparable(a, b, now) && Incomparable(b, c, now) ==> Incomparable(a, c, now))
    ensures forall a, b :: a in states && b in states && a != b && IsLive(a, now) && IsLive(b, now) ==>
              Beats(a, b, now) || Beats(b, a, now)
  {
  }

  /** Against itself an identity override is greater, and every other state is not. */
  lemma BeatsItselfIff(a: FeatureState, now: int)
    ensures Beats(a, a, now) <==> a.identity.Some?
  {
  }

  lemma LiveTotal(a: FeatureState, b: FeatureState, now: int)
    requires Comparable(a, b) && DistinctPriorities(a, b) && DistinctVersions(a, b) && IsLive(a, now) && IsLive(b, now)
    ensures Precedes(a, b, now) || Precedes(b, a, now)
  {
  }

  /** The clock may move on between comparisons: among live states the order no longer changes. */
  lemma LiveOrderIsStable(a: FeatureState, b: FeatureState, now: int, later: int)
    requires IsLive(a, now) && IsLive(b, now) && now <= later
    ensures Gt(a, b, later) == Gt(a, b, now)
  {
  }

  // ----- Clones -----

  /** `mv_hashing_seed`: the salt, or the state's own id where there is none. */
  function Seed(fs: FeatureState): int
  {
    if fs.mvHashingSalt.Some? && fs.mvHashingSalt.value != 0 then fs.mvHashingSalt.value else fs.id
  }

  /** A clone keeps the source's segment in its own environment and gets a new segment row elsewhere. */
  function CloneOf(source: FeatureState, id: nat, environment: nat, segmentRow: nat, version: Option<int>,
                   liveFrom: Option<int>): FeatureState
  {
    var segment :=
      if source.segment.None? || environment == source.environment then source.segment
      else Some(source.segment.value.(id := segmentRow));
    FeatureState(id, environment, source.feature, source.identity, segment, version, liveFrom, Some(Seed(source)))
  }

  /** Drafts have no version; otherwise the one asked for, unless there is none or it is 0, else the source's. */
  function CloneVersion(source: FeatureState, version: Option<int>, asDraft: bool): Option<int>
  {
    if asDraft then None else if version.Some? && version.value != 0 then version else source.version
  }
}
