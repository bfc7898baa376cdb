/**
  Every run of creations, clones, commits and deletions of feature states: when the versions of a
  lineage stay distinct, and when a lineage keeps its bucketing seed.
 */
module FeatureTable {
  import opened Options
  import opened FeatureStates
  import opened ChangeRequests
  import opened HashingSeeds

  /** `source` is a position in the table. */
  datatype Operation =
    | Create(fs: FeatureState, multivariate: bool, now: int)
    | Clone(source: nat, id: nat, environment: nat, segmentRow: nat, version: Option<int>, asDraft: bool,
            liveFrom: Option<int>)
    | CommitRequest(request: set<nat>, now: int)
    | Remove(id: nat)

  predicate HasId(rows: seq<FeatureState>, id: nat)
  {
    exists i :: 0 <= i < |rows| && rows[i].id == id
  }

  predicate IsDuplicate(rows: seq<FeatureState>, fs: FeatureState)
  {
    fs.version.Some? && exists i :: 0 <= i < |rows| && SameLineage(rows[i], fs) && rows[i].version == fs.version
  }

  /** The hooks that run on creation only: the salt, and a time for a state that has a version. */
  function Created(rows: seq<FeatureState>, fs: FeatureState, multivariate: bool, now: int): FeatureState
  {
    fs.(mvHashingSalt := InheritedSalt(rows, fs, multivariate, now),
        liveFrom := if fs.version.Some? && fs.liveFrom.None? then Some(now) else fs.liveFrom)
  }

  /** The row an operation wants to save. Identity overrides are never cloned. */
  function Candidate(rows: seq<FeatureState>, op: Operation): Option<FeatureState>
  {
    match op
    case Create(fs, multivariate, now) => Some(Created(rows, fs, multivariate, now))
    case Clone(source, id, environment, segmentRow, version, asDraft, liveFrom) =>
      if source >= |rows| || rows[source].identity.Some? then None
      else
        var version := CloneVersion(rows[source], version, asDraft);
        Some(CloneOf(rows[source], id, environment, segmentRow, version, liveFrom))
    case _ => None
  }

  /** The row it saves: the check for duplicates runs before every save, a clone's too. */
  function NewRow(rows: seq<FeatureState>, op: Operation): Option<FeatureState>
  {
    var row := Candidate(rows, op);
    if row.None? || HasId(rows, row.value.id) || IsDuplicate(rows, row.value) then None else row
  }

  function Without(rows: seq<FeatureState>, id: nat): seq<FeatureState>
  {
    if rows == [] then []
    else (if rows[0].id == id then [] else [rows[0]]) + Without(rows[1..], id)
  }

  /** A raised error leaves the table alone. */
  function Apply(rows: seq<FeatureState>, op: Operation): seq<FeatureState>
  {
    match op
    case CommitRequest(request, now) => if Publishable(rows, request) then Published(rows, request, now) else rows
    case Remove(id) => Without(rows, id)
    case _ => if NewRow(rows, op).Some? then rows + [NewRow(rows, op).value] else rows
  }

  function ApplyAll(rows: seq<FeatureState>, ops: seq<Operation>): seq<FeatureState>
    decreases |ops|
  {
    if ops == [] then rows else ApplyAll(Apply(rows, ops[0]), ops[1..])
  }

  lemma {:induction false} RunsCompose(rows: seq<FeatureState>, ops: seq<Operation>, more: seq<Operation>)
    ensures ApplyAll(rows, ops + more) == ApplyAll(ApplyAll(rows, ops), more)
    decreases |ops|
  {
    if ops == [] {
      assert ops + more == more;
    } else {
      assert (ops + more)[1..] == ops[1..] + more;
      RunsCompose(Apply(rows, ops[0]), ops[1..], more);
    }
  }

  lemma {:induction false} WithoutSpec(rows: seq<FeatureState>, id: nat)
    ensures forall x :: x in Without(rows, id) <==> x in rows && x.id != id
  {
    if rows != [] {
      WithoutSpec(rows[1..], id);
    }
  }

  /** A deletion takes the rows of its id, and no other. */
  lemma RemovedRow(rows: seq<FeatureState>, id: nat)
    ensures forall x :: x in Apply(rows, Remove(id)) <==> x in rows && x.id != id
  {
    WithoutSpec(rows, id);
  }

  // ----- Clones -----

  /**
    A clone in its source's environment is saved exactly if it is a draft, or is given a version that
    no state of the lineage has.
   */
  lemma CloneIsSavedIff(rows: seq<FeatureState>, source: nat, id: nat, segmentRow: nat, version: Option<int>,
                        asDraft: bool, liveFrom: Option<int>)
    requires source < |rows| && rows[source].identity.None? && rows[source].version.Some? && !HasId(rows, id)
    ensures NewRow(rows, Clone(source, id, rows[source].environment, segmentRow, version, asDraft, liveFrom)).Some? <==>
            || asDraft
            || (version.Some? && version.value != 0 &&
                forall i :: 0 <= i < |rows| && SameLineage(rows[i], rows[source]) ==> rows[i].version != version)
  {
    var fs := rows[source];
    var clone := CloneOf(fs, id, fs.environment, segmentRow, CloneVersion(fs, version, asDraft), liveFrom);
    forall i | 0 <= i < |rows| ensures SameLineage(rows[i], clone) <==> SameLineage(rows[i], fs) {}
    assert SameLineage(fs, fs);
  }

  /**
    What is saved of a clone: the source's feature, in the environment asked for, as a draft or with the
    version asked for or the source's, and bucketing with the source's seed. Its segment is the source's,
    in another environment under an override row of its own.
   */
  lemma ClonedRow(rows: seq<FeatureState>, source: nat, id: nat, environment: nat, segmentRow: nat,
                  version: Option<int>, asDraft: bool, liveFrom: Option<int>, clone: FeatureState)
    requires source < |rows| && rows[source].identity.None?
    requires NewRow(rows, Clone(source, id, environment, segmentRow, version, asDraft, liveFrom)) == Some(clone)
    ensures var fs := rows[source];
            && clone.id == id && clone.environment == environment && clone.feature == fs.feature
            && clone.identity.None? && clone.liveFrom == liveFrom
            && clone.version == (if asDraft then None else if version.Some? && version != Some(0) then version
                                 else fs.version)
            && clone.mvHashingSalt ==
               Some(if fs.mvHashingSalt.Some? && fs.mvHashingSalt != Some(0) then fs.mvHashingSalt.value else fs.id)
            && (fs.segment.None? ==> clone.segment.None?)
            && (fs.segment.Some? ==>
                  && clone.segment.Some? && clone.segment.value.segmentId == fs.segment.value.segmentId
                  && clone.segment.value.priority == fs.segment.value.priority
                  && clone.segment.value.id == (if environment == fs.environment then fs.segment.value.id
                                                else segmentRow))
  {
  }

  /** A row is refused exactly if one of its key has its version, or its id is taken. */
  lemma RefusedIff(rows: seq<FeatureState>, op: Operation, row: FeatureState)
    requires Candidate(rows, op) == Some(row)
    ensures NewRow(rows, op).None? <==>
            || (exists x :: x in rows && x.id == row.id)
            || (row.version.Some? && exists x :: x in rows && SameKey(x, row) && x.version == row.version)
  {
    forall x ensures SameKey(x, row) <==> SameLineage(x, row) {}
    assert forall i :: 0 <= i < |rows| ==> rows[i] in rows;
  }

  // ----- Versions -----

  /** A row added to a lineage keeps its versions distinct exactly if it is no duplicate. */
  lemma NewRowKeepsVersionsDistinct(rows: seq<FeatureState>, fs: FeatureState)
    requires VersionsDistinct(rows)
    ensures VersionsDistinct(rows + [fs]) <==> !IsDuplicate(rows, fs)
  {
    var after := rows + [fs];
    if VersionsDistinct(after) {
      forall i | 0 <= i < |rows| && SameLineage(rows[i], fs) ensures fs.version.None? || rows[i].version != fs.version {
        assert DistinctVersions(after[i], after[|rows|]);
      }
    }
    if !IsDuplicate(rows, fs) {
      forall i, j | 0 <= i < j < |after| ensures DistinctVersions(after[i], after[j]) {
        if j == |rows| { assert after[i] == rows[i]; }
      }
    }
  }

  lemma {:induction false} WithoutKeepsVersionsDistinct(rows: seq<FeatureState>, id: nat)
    requires VersionsDistinct(rows)
    ensures VersionsDistinct(Without(rows, id))
  {
    if rows != [] {
      var rest := Without(rows[1..], id);
      WithoutKeepsVersionsDistinct(rows[1..], id);
      WithoutSpec(rows[1..], id);
      forall j | 0 <= j < |rest| ensures DistinctVersions(rows[0], rest[j]) {
        assert rest[j] in rows[1..];
      }
    }
  }

  lemma {:induction false} WithoutKeepsIds(rows: seq<FeatureState>, id: nat)
    requires UniqueIds(rows)
    ensures UniqueIds(Without(rows, id))
  {
    if rows != [] {
      var rest := Without(rows[1..], id);
      WithoutKeepsIds(rows[1..], id);
      WithoutSpec(rows[1..], id);
      forall j | 0 <= j < |rest| ensures rows[0].id != rest[j].id {
        assert rest[j] in rows[1..];
      }
    }
  }

  /** A commit publishes at most one state per lineage: it writes past the check. */
  ghost predicate Careful(rows: seq<FeatureState>, op: Operation)
  {
    op.CommitRequest? && Publishable(rows, op.request) ==> OnePerLineage(rows, op.request)
  }

  ghost predicate AllCareful(rows: seq<FeatureState>, ops: seq<Operation>)
    decreases |ops|
  {
    ops == [] || (Careful(rows, ops[0]) && AllCareful(Apply(rows, ops[0]), ops[1..]))
  }

  /** After every operation of the run versions are distinct. */
  ghost predicate DistinctThroughout(rows: seq<FeatureState>, ops: seq<Operation>)
    decreases |ops|
  {
    VersionsDistinct(rows) && (ops == [] || DistinctThroughout(Apply(rows, ops[0]), ops[1..]))
  }

  /** One operation keeps versions distinct exactly if it is careful. */
  lemma OperationKeepsVersionsDistinct(rows: seq<FeatureState>, op: Operation)
    requires VersionsDistinct(rows)
    ensures VersionsDistinct(Apply(rows, op)) <==> Careful(rows, op)
  {
    match op
    case CommitRequest(request, now) =>
      if Publishable(rows, request) { CommitKeepsVersionsDistinct(rows, request, now); }
    case Remove(id) => WithoutKeepsVersionsDistinct(rows, id);
    case _ =>
      if NewRow(rows, op).Some? { NewRowKeepsVersionsDistinct(rows, NewRow(rows, op).value); }
  }

  lemma OperationKeepsIds(rows: seq<FeatureState>, op: Operation)
    requires UniqueIds(rows)
    ensures UniqueIds(Apply(rows, op))
  {
    if op.Remove? {
      WithoutKeepsIds(rows, op.id);
    } else {
      var next := Apply(rows, op);
      assert forall i :: 0 <= i < |rows| ==> next[i].id == rows[i].id;
    }
  }

  lemma {:induction false} IdsStayUnique(rows: seq<FeatureState>, ops: seq<Operation>)
    requires UniqueIds(rows)
    ensures UniqueIds(ApplyAll(rows, ops))
    decreases |ops|
  {
    if ops != [] {
      OperationKeepsIds(rows, ops[0]);
      IdsStayUnique(Apply(rows, ops[0]), ops[1..]);
    }
  }

  /**
    Over every run of creations, clones, commits and deletions, the versions of each lineage stay
    pairwise distinct throughout exactly if every commit publishes at most one state per lineage.
   */
  lemma {:induction false} VersionsStayDistinct(rows: seq<FeatureState>, ops: seq<Operation>)
    requires VersionsDistinct(rows)
    ensures DistinctThroughout(rows, ops) <==> AllCareful(rows, ops)
    ensures AllCareful(rows, ops) ==> VersionsDistinct(ApplyAll(rows, ops))
    ensures UniqueIds(rows) ==> UniqueIds(ApplyAll(rows, ops))
    decreases |ops|
  {
    if UniqueIds(rows) {
      IdsStayUnique(rows, ops);
    }
    if ops != [] {
      OperationKeepsVersionsDistinct(rows, ops[0]);
      if VersionsDistinct(Apply(rows, ops[0])) {
        VersionsStayDistinct(Apply(rows, ops[0]), ops[1..]);
      }
    }
  }

  // ----- Seeds -----

  /** Every state of the lineage buckets with the seed. */
  ghost predicate LineageHasSeed(rows: seq<FeatureState>, lineage: FeatureState, seed: int)
  {
    forall i :: 0 <= i < |rows| && SeedLineage(rows[i], lineage) ==> Seed(rows[i]) == seed
  }

  ghost predicate Supersedes(rows: seq<FeatureState>, fs: FeatureState, now: int)
  {
    exists i :: 0 <= i < |rows| && Supersedable(rows[i], fs, now)
  }

  /**
    What a state that is put into the lineage must be: given the seed, or superseding a live state, or
    cloned within the lineage or from a state with the same seed. One that has no salt and supersedes
    nothing is seeded with its id.
   */
  ghost predicate Continues(rows: seq<FeatureState>, op: Operation, lineage: FeatureState, seed: int)
  {
    NewRow(rows, op).Some? && SeedLineage(NewRow(rows, op).value, lineage) ==>
      match op
      case Create(fs, multivariate, now) =>
        if fs.mvHashingSalt.Some? && fs.mvHashingSalt.value != 0 then fs.mvHashingSalt.value == seed
        else (fs.mvHashingSalt.None? && multivariate && Supersedes(rows, fs, now)) || fs.id == seed
      case Clone(source, id, environment, _, _, _, _) =>
        || environment == rows[source].environment || Seed(rows[source]) == seed
        || (Seed(rows[source]) == 0 && id == seed)
      case _ => true
  }

  ghost predicate AllContinue(rows: seq<FeatureState>, ops: seq<Operation>, lineage: FeatureState, seed: int)
    decreases |ops|
  {
    ops == [] ||
    (Continues(rows, ops[0], lineage, seed) && AllContinue(Apply(rows, ops[0]), ops[1..], lineage, seed))
  }

  /** After every operation of the run the lineage has the seed. */
  ghost predicate SeedThroughout(rows: seq<FeatureState>, ops: seq<Operation>, lineage: FeatureState, seed: int)
    decreases |ops|
  {
    LineageHasSeed(rows, lineage, seed) &&
    (ops == [] || SeedThroughout(Apply(rows, ops[0]), ops[1..], lineage, seed))
  }

  lemma WithoutKeepsSeed(rows: seq<FeatureState>, id: nat, lineage: FeatureState, seed: int)
    requires LineageHasSeed(rows, lineage, seed)
    ensures LineageHasSeed(Without(rows, id), lineage, seed)
  {
    WithoutSpec(rows, id);
    var rest := Without(rows, id);
    forall i | 0 <= i < |rest| && SeedLineage(rest[i], lineage) ensures Seed(rest[i]) == seed {
      assert rest[i] in rest && rest[i] in rows;
    }
  }

  lemma CreatedHasSeedIff(rows: seq<FeatureState>, fs: FeatureState, multivariate: bool, now: int,
                          lineage: FeatureState, seed: int)
    requires LineageHasSeed(rows, lineage, seed) && seed != 0 && SeedLineage(fs, lineage)
    ensures Seed(Created(rows, fs, multivariate, now)) == seed <==>
            if fs.mvHashingSalt.Some? && fs.mvHashingSalt.value != 0 then fs.mvHashingSalt.value == seed
            else (fs.mvHashingSalt.None? && multivariate && Supersedes(rows, fs, now)) || fs.id == seed
  {
    SupersededIsHighest(rows, fs, now);
  }

  /** A row added to the table keeps the lineage's seed exactly if it is of another lineage or has the seed. */
  lemma NewRowKeepsSeedIff(rows: seq<FeatureState>, fs: FeatureState, lineage: FeatureState, seed: int)
    requires LineageHasSeed(rows, lineage, seed)
    ensures LineageHasSeed(rows + [fs], lineage, seed) <==> (SeedLineage(fs, lineage) ==> Seed(fs) == seed)
  {
    var after := rows + [fs];
    assert after[|rows|] == fs;
    assert forall i :: 0 <= i < |rows| ==> after[i] == rows[i];
  }

  /** One operation keeps the lineage's seed exactly if it continues the lineage. */
  lemma OperationKeepsSeedIff(rows: seq<FeatureState>, op: Operation, lineage: FeatureState, seed: int)
    requires LineageHasSeed(rows, lineage, seed) && seed != 0
    ensures LineageHasSeed(Apply(rows, op), lineage, seed) <==> Continues(rows, op, lineage, seed)
  {
    match op
    case CommitRequest(request, now) =>
    case Remove(id) => WithoutKeepsSeed(rows, id, lineage, seed);
    case Clone(source, _, _, _, _, _, _) =>
      if NewRow(rows, op).Some? { NewRowKeepsSeedIff(rows, NewRow(rows, op).value, lineage, seed); }
    case Create(fs, multivariate, now) =>
      if NewRow(rows, op).Some? {
        NewRowKeepsSeedIff(rows, NewRow(rows, op).value, lineage, seed);
        if SeedLineage(fs, lineage) { CreatedHasSeedIff(rows, fs, multivariate, now, lineage, seed); }
      }
  }

  /**
    Over every run, the bucketing seed of a lineage is constant throughout exactly if every state put
    into the lineage continues it; commits and deletions never touch the seed.
   */
  lemma {:induction false} SeedIsConstant(rows: seq<FeatureState>, ops: seq<Operation>, lineage: FeatureState,
                                          seed: int)
    requires LineageHasSeed(rows, lineage, seed) && seed != 0
    ensures SeedThroughout(rows, ops, lineage, seed) <==> AllContinue(rows, ops, lineage, seed)
    ensures AllContinue(rows, ops, lineage, seed) ==> LineageHasSeed(ApplyAll(rows, ops), lineage, seed)
    decreases |ops|
  {
    if ops != [] {
      OperationKeepsSeedIff(rows, ops[0], lineage, seed);
      if LineageHasSeed(Apply(rows, ops[0]), lineage, seed) {
        SeedIsConstant(Apply(rows, ops[0]), ops[1..], lineage, seed);
      }
    }
  }

  /**
    A recreated state without a salt keeps its lineage's seed exactly if it is refused as a duplicate
    or a state of the lineage is live at that moment. A lineage holding only drafts or scheduled
    states is given a new seed.
   */
  lemma RecreationKeepsSeedIff(rows: seq<FeatureState>, fs: FeatureState, now: int, seed: int)
    requires LineageHasSeed(rows, fs, seed) && seed != 0
    requires !HasId(rows, fs.id) && fs.identity.None? && fs.mvHashingSalt.None?
    requires fs.id != seed  // ids are never reused
    ensures LineageHasSeed(Apply(rows, Create(fs, true, now)), fs, seed) <==>
            IsDuplicate(rows, fs) || Supersedes(rows, fs, now)
  {
    var op := Create(fs, true, now);
    OperationKeepsSeedIff(rows, op, fs, seed);
    assert SeedLineage(Created(rows, fs, true, now), fs);
    assert IsDuplicate(rows, Created(rows, fs, true, now)) <==> IsDuplicate(rows, fs) by {
      forall i | 0 <= i < |rows|
        ensures SameLineage(rows[i], Created(rows, fs, true, now)) <==> SameLineage(rows[i], fs) {}
    }
  }
}
