/**
  The split a sample-ratio check tests against next to the split identities get: which state each
  side reads, when the two are the same, and what is left of the check after a rollout.
 */
module TestedSplit {
  import opened Options
  import opened FeatureStates
  import opened FlagResolution
  import opened ExpectedShares
  import C = ChangeRequests
  import H = HashingSeeds
  import T = FeatureTable
  import B = Bucketing
  import Rollouts
  import ResultsSummary
  import SampleRatio

  // ----- Which state each side reads -----

  /** What an identity's query selects: states of the environment, among them all live defaults of the feature. */
  ghost predicate Selects(live: seq<FeatureState>, rows: seq<FeatureState>, environment: nat, feature: nat, now: int)
  {
    && (forall fs :: fs in live ==> fs.environment == environment && fs in rows)
    && (forall fs :: fs in rows && IsLiveDefault(fs, environment, feature, now) ==> fs in live)
  }

  ghost predicate NoOverrides(live: seq<FeatureState>, feature: nat)
  {
    forall fs :: fs in live && fs.feature == feature ==> fs.identity.None? && fs.segment.None?
  }

  /** No live default with a lower id has a later `live_from`, or the same one and a higher version. */
  ghost predicate NewestHasHighestId(tested: FeatureState, rows: seq<FeatureState>, environment: nat, feature: nat,
                                     now: int)
  {
    forall fs :: fs in rows && IsLiveDefault(fs, environment, feature, now) && fs.id < tested.id ==>
        !Newer(fs, tested, now)
  }

  lemma SameIdSameRow(rows: seq<FeatureState>, a: FeatureState, b: FeatureState)
    requires C.UniqueIds(rows) && a in rows && b in rows && a.id == b.id
    ensures a == b
  {
    var i :| 0 <= i < |rows| && rows[i] == a;
    var j :| 0 <= j < |rows| && rows[j] == b;
    assert i == j;
  }

  /** Any other live default is below the one tested: it has a lower id. */
  lemma TestedIsHighestId(tested: FeatureState, fs: FeatureState, rows: seq<FeatureState>, environment: nat,
                          feature: nat, now: int)
    requires C.UniqueIds(rows) && LatestDefault(rows, environment, feature, now) == Some(tested)
    requires fs in rows && IsLiveDefault(fs, environment, feature, now)
    ensures tested in rows && IsLiveDefault(tested, environment, feature, now)
    ensures fs != tested ==> fs.id < tested.id
  {
    LatestDefaultSpec(rows, environment, feature, now);
    var i :| 0 <= i < |rows| && rows[i] == fs;
    if fs.id == tested.id { SameIdSameRow(rows, fs, tested); }
  }

  /**
    The check reads the live default with the highest id; an identity gets its greatest live state.
    They are the same state exactly if the identity has no override and no live default with a lower
    id is newer.
   */
  lemma TestedIsServedIff(tested: FeatureState, rows: seq<FeatureState>, live: seq<FeatureState>, environment: nat,
                          feature: nat, now: int)
    requires C.UniqueIds(rows) && Flags(live, now) && Selects(live, rows, environment, feature, now)
    requires LatestDefault(rows, environment, feature, now) == Some(tested)
    ensures IsHighest(tested, live, now) <==>
            NoOverrides(live, feature) && NewestHasHighestId(tested, rows, environment, feature, now)
  {
    LatestDefaultSpec(rows, environment, feature, now);
    if IsHighest(tested, live, now) {
      forall fs | fs in rows && IsLiveDefault(fs, environment, feature, now) && fs.id < tested.id
        ensures !Newer(fs, tested, now)
      {
        assert Precedes(tested, fs, now);
      }
    }
    if NoOverrides(live, feature) && NewestHasHighestId(tested, rows, environment, feature, now) {
      forall fs | fs in live && fs.feature == tested.feature && fs != tested ensures Precedes(tested, fs, now) {
        TestedIsHighestId(tested, fs, rows, environment, feature, now);
        LiveTotal(tested, fs, now);
      }
    }
  }

  /** Where that holds, each share that is tested against is the length of the interval identities get. */
  lemma TestedSplitIsServedSplit(served: FeatureState, tested: FeatureState, rows: seq<FeatureState>,
                                 live: seq<FeatureState>, environment: nat, feature: nat, now: int,
                                 values: nat -> seq<B.MvValue>, sorted: seq<B.MvValue>, i: nat)
    requires C.UniqueIds(rows) && Flags(live, now) && Selects(live, rows, environment, feature, now)
    requires served.feature == feature && IsHighest(served, live, now)
    requires LatestDefault(rows, environment, feature, now) == Some(tested)
    requires NoOverrides(live, feature) && NewestHasHighestId(tested, rows, environment, feature, now)
    requires Usable(values(tested.id)) && B.Allocations(values(tested.id)) && B.UniqueIds(values(tested.id))
    requires DistinctKeys(values(tested.id)) && forall v :: v in values(tested.id) ==>
             v.key != Some(CONTROL_VARIANT_KEY)
    requires sorted == B.SortById(values(served.id)) && i < |sorted|
    ensures served == tested && sorted[i].key.Some?
    ensures Lookup(SharesOf(values(tested.id)), sorted[i].key.value) == Some(B.Length(sorted, i) / 100.0)
    ensures Lookup(SharesOf(values(tested.id)), CONTROL_VARIANT_KEY) == Some(B.ControlLength(sorted) / 100.0)
  {
    TestedIsServedIff(tested, rows, live, environment, feature, now);
    LatestDefaultSpec(rows, environment, feature, now);
    assert served == tested;
    SharesAreLengths(values(tested.id), sorted, i);
  }

  // ----- A run of commits after which they differ -----

  /** A default of environment 1 and feature 1. */
  function DefaultState(id: nat, version: Option<int>, liveFrom: Option<int>, salt: Option<int>): FeatureState
  {
    FeatureState(id, 1, 1, None, None, version, liveFrom, salt)
  }

  const FIRST := DefaultState(1, Some(1), Some(0), None)

  /** A live default, a draft scheduled for 100, and an unscheduled one made later; both are committed. */
  function TwoDrafts(): seq<T.Operation>
  {
    [T.Create(FIRST, true, 0), T.Create(DefaultState(2, None, Some(100), None), true, 5),
     T.Create(DefaultState(3, None, None, None), true, 6), T.CommitRequest({2}, 10), T.CommitRequest({3}, 20)]
  }

  /** The drafts have inherited the seed of the live state. */
  function TableOf(version2: Option<int>, version3: Option<int>, liveFrom3: Option<int>): seq<FeatureState>
  {
    [FIRST, DefaultState(2, version2, Some(100), Some(1)), DefaultState(3, version3, liveFrom3, Some(1))]
  }

  /** A draft without a salt takes the seed of the one live state. */
  lemma DraftInherits(rows: seq<FeatureState>, fs: FeatureState, now: int)
    requires rows == [FIRST] || rows == [FIRST, DefaultState(2, None, Some(100), Some(1))]
    requires fs == DefaultState(fs.id, None, fs.liveFrom, None) && now >= 0 && !T.HasId(rows, fs.id)
    ensures T.Apply(rows, T.Create(fs, true, now)) == rows + [fs.(mvHashingSalt := Some(1))]
  {
    assert rows[..1] == [FIRST] && rows[..1][..0] == [];
    assert H.SupersededState([FIRST], fs, now) == Some(FIRST);
    assert H.SupersededState(rows, fs, now) == Some(FIRST);
  }

  lemma ThreeSteps(ops: seq<T.Operation>, a: seq<FeatureState>, b: seq<FeatureState>, c: seq<FeatureState>)
    requires |ops| == 3
    requires T.Apply([], ops[0]) == a && T.Apply(a, ops[1]) == b && T.Apply(b, ops[2]) == c
    ensures T.ApplyAll([], ops) == c
  {
    assert ops[1..][1..] == [ops[2]] && ops[1..][0] == ops[1] && [ops[2]][1..] == [];
    assert T.ApplyAll(b, [ops[2]]) == c;
    assert T.ApplyAll(a, ops[1..]) == c;
  }

  lemma Created(two: seq<FeatureState>)
    requires two == [FIRST, DefaultState(2, None, Some(100), Some(1))]
    ensures var ops := TwoDrafts();
            && T.Apply([], ops[0]) == [FIRST] && T.Apply([FIRST], ops[1]) == two
            && T.Apply(two, ops[2]) == TableOf(None, None, None)
  {
    var ops := TwoDrafts();
    DraftInherits([FIRST], ops[1].fs, 5);
    DraftInherits(two, ops[2].fs, 6);
    assert [FIRST] + [DefaultState(2, None, Some(100), Some(1))] == two;
    assert two + [DefaultState(3, None, None, Some(1))] == TableOf(None, None, None);
  }

  lemma LineageMaximum(version2: Option<int>, fs: FeatureState)
    requires fs in TableOf(version2, None, None) && (version2.None? || version2 == Some(2))
    ensures C.MaxVersion(TableOf(version2, None, None), fs) == Some(if version2.None? then 1 else 2)
  {
    var rows := TableOf(version2, None, None);
    assert C.MaxVersion(rows[3..], fs) == None && rows[2..][1..] == rows[3..];
    assert C.MaxVersion(rows[2..], fs) == None && rows[1..][1..] == rows[2..];
    assert C.MaxVersion(rows[1..], fs) == version2;
  }

  lemma FirstCommit()
    ensures T.Apply(TableOf(None, None, None), TwoDrafts()[3]) == TableOf(Some(2), None, None)
  {
    var rows := TableOf(None, None, None);
    LineageMaximum(None, rows[1]);
    assert C.Publishable(rows, {2});
    assert C.Published(rows, {2}, 10) == TableOf(Some(2), None, None);
  }

  lemma SecondCommit()
    ensures T.Apply(TableOf(Some(2), None, None), TwoDrafts()[4]) == TableOf(Some(2), Some(3), Some(20))
  {
    var rows := TableOf(Some(2), None, None);
    LineageMaximum(Some(2), rows[2]);
    assert C.Publishable(rows, {3});
    assert C.Published(rows, {3}, 20) == TableOf(Some(2), Some(3), Some(20));
  }

  lemma BothCommits()
    ensures T.ApplyAll([], TwoDrafts()) == TableOf(Some(2), Some(3), Some(20))
  {
    var ops := TwoDrafts();
    var two := [FIRST, DefaultState(2, None, Some(100), Some(1))];
    Created(two);
    ThreeSteps(ops[..3], [FIRST], two, TableOf(None, None, None));
    assert ops == ops[..3] + [ops[3], ops[4]];
    T.RunsCompose([], ops[..3], [ops[3], ops[4]]);
    FirstCommit();
    SecondCommit();
    var drafts := TableOf(None, None, None);
    assert [ops[3], ops[4]][1..] == [ops[4]] && [ops[4]][1..] == [];
    assert T.ApplyAll(TableOf(Some(2), None, None), [ops[4]]) == TableOf(Some(2), Some(3), Some(20));
    assert T.ApplyAll(drafts, [ops[3], ops[4]]) == TableOf(Some(2), Some(3), Some(20));
  }

  lemma LatestOfTable()
    ensures LatestDefault(TableOf(Some(2), Some(3), Some(20)), 1, 1, 150) ==
            Some(DefaultState(3, Some(3), Some(20), Some(1)))
  {
    var rows := TableOf(Some(2), Some(3), Some(20));
    LatestDefaultSpec(rows, 1, 1, 150);
    var latest := LatestDefault(rows, 1, 1, 150);
    assert IsLiveDefault(rows[2], 1, 1, 150);
    assert latest.Some? && 3 <= latest.value.id && latest.value in rows;
  }

  /** One option, with half of the traffic on the scheduled state and a tenth on the others. */
  function OneOption(id: nat): seq<B.MvValue>
  {
    [B.MvValue(id, 7, Some("variant"), if id == 2 then 50.0 else 10.0)]
  }

  lemma ScheduledIsServed(rows: seq<FeatureState>)
    requires rows == TableOf(Some(2), Some(3), Some(20))
    ensures C.UniqueIds(rows) && Flags(rows, 150) && Selects(rows, rows, 1, 1, 150)
    ensures IsHighest(rows[1], rows, 150)
  {
    assert forall fs :: fs in rows ==> fs == rows[0] || fs == rows[1] || fs == rows[2];
  }

  lemma DifferentShares()
    ensures Lookup(SharesOf(OneOption(3)), "variant") == Some(0.1)
    ensures |B.SortById(OneOption(2))| == 1 && B.Length(B.SortById(OneOption(2)), 0) / 100.0 == 0.5
  {
    var tested, served := OneOption(3), OneOption(2);
    B.SortAscending(served);
    assert tested[1..] == [] && B.Total(tested) == 10.0;
    ShareOf(tested, tested[0]);
    assert B.Start(served, 0) == 0.0 && B.Start(served, 1) == 50.0;
  }

  /**
    A run after which they differ: once the scheduled state's time has come it is served, because its
    `live_from` is later, while the check still reads the state with the higher id.
   */
  lemma SplitsCanDiffer(rows: seq<FeatureState>)
    requires rows == T.ApplyAll([], TwoDrafts())
    ensures C.UniqueIds(rows) && Flags(rows, 150) && Selects(rows, rows, 1, 1, 150)
    ensures |rows| == 3 && IsHighest(rows[1], rows, 150) && LatestDefault(rows, 1, 1, 150) == Some(rows[2])
    ensures Lookup(SharesOf(OneOption(rows[2].id)), "variant") == Some(0.1)
    ensures |B.SortById(OneOption(rows[1].id))| == 1 && B.Length(B.SortById(OneOption(rows[1].id)), 0) / 100.0 == 0.5
  {
    BothCommits();
    LatestOfTable();
    ScheduledIsServed(rows);
    DifferentShares();
  }

  // ----- When the check says anything -----

  /** With these shares a p-value is computed, the traffic floor aside. */
  ghost predicate Checked(counts: ResultsSummary.Counts, shares: Shares)
  {
    SampleRatio.WorthChecking(ResultsSummary.Observed(counts, shares), ResultsSummary.Fractions(shares))
  }

  predicate IsControl(v: B.MvValue)
  {
    v.key == Some(CONTROL_VARIANT_KEY)
  }

  /** The keys of the shares are control's and the options'. */
  lemma KeysOfShares(values: seq<B.MvValue>, key: string)
    requires Keyed(values) && DistinctKeys(values)
    ensures Lookup(AllShares(values), key).Some? <==>
            key == CONTROL_VARIANT_KEY || exists i :: 0 <= i < |values| && values[i].key.value == key
  {
    OptionSharesSpec(values);
    SetSpec(OptionShares(values), CONTROL_VARIANT_KEY, (100.0 - B.Total(values)) / 100.0);
  }

  /** There are two shares exactly if an option is not keyed like control. */
  lemma TwoSharesIff(values: seq<B.MvValue>)
    requires Keyed(values) && DistinctKeys(values)
    ensures |AllShares(values)| >= 2 <==> exists i :: 0 <= i < |values| && !IsControl(values[i])
  {
    var shares := AllShares(values);
    AllSharesUnique(values);
    ControlShare(values);
    LookupIsEntry(shares, CONTROL_VARIANT_KEY);
    if |shares| >= 2 {
      var other := if shares[0].0 == CONTROL_VARIANT_KEY then 1 else 0;
      LookupFinds(shares, other);
      KeysOfShares(values, shares[other].0);
    }
    if i :| 0 <= i < |values| && !IsControl(values[i]) {
      KeysOfShares(values, values[i].key.value);
      LookupIsEntry(shares, values[i].key.value);
    }
  }

  lemma SharesPositiveIff(values: seq<B.MvValue>)
    requires Keyed(values) && DistinctKeys(values)
    ensures var shares := AllShares(values);
            (forall i :: 0 <= i < |shares| ==> shares[i].1 > 0.0) <==>
            B.Total(values) < 100.0 && forall i :: 0 <= i < |values| && !IsControl(values[i]) ==>
                values[i].allocation > 0.0
  {
    var shares := AllShares(values);
    AllSharesUnique(values);
    ControlShare(values);
    if forall i :: 0 <= i < |shares| ==> shares[i].1 > 0.0 {
      LookupIsEntry(shares, CONTROL_VARIANT_KEY);
      forall i | 0 <= i < |values| && !IsControl(values[i]) ensures values[i].allocation > 0.0 {
        ShareOf(values, values[i]);
        LookupIsEntry(shares, values[i].key.value);
      }
    }
    if B.Total(values) < 100.0 && forall i :: 0 <= i < |values| && !IsControl(values[i]) ==>
        values[i].allocation > 0.0
    {
      forall i | 0 <= i < |shares| ensures shares[i].1 > 0.0 {
        LookupFinds(shares, i);
        KeysOfShares(values, shares[i].0);
        if shares[i].0 != CONTROL_VARIANT_KEY {
          var j :| 0 <= j < |values| && values[j].key.value == shares[i].0;
          ShareOf(values, values[j]);
        }
      }
    }
  }

  lemma FractionsPositive(shares: Shares)
    ensures (forall i :: 0 <= i < |shares| ==> ResultsSummary.Fractions(shares)[i] > 0.0) <==>
            (forall i :: 0 <= i < |shares| ==> shares[i].1 > 0.0)
  {
    assert forall i :: 0 <= i < |shares| ==> ResultsSummary.Fractions(shares)[i] == shares[i].1;
  }

  /**
    A p-value is computed exactly if control and every option have traffic, there is an option besides
    control, and some identity of an expected variant was counted.
   */
  lemma CheckedIff(counts: ResultsSummary.Counts, values: seq<B.MvValue>)
    requires DistinctKeys(values)
    ensures Checked(counts, SharesOf(values)) <==>
            && Usable(values) && B.Total(values) < 100.0
            && (exists i :: 0 <= i < |values| && !IsControl(values[i]))
            && (forall i :: 0 <= i < |values| && !IsControl(values[i]) ==> values[i].allocation > 0.0)
            && SampleRatio.Total(ResultsSummary.Observed(counts, SharesOf(values))) != 0
  {
    if Usable(values) {
      TwoSharesIff(values);
      SharesPositiveIff(values);
      FractionsPositive(AllShares(values));
    }
  }

  // ----- What a rollout leaves of it -----

  lemma {:induction false} ZeroEntries(values: seq<B.MvValue>)
    requires Keyed(values) && Rollouts.AllZero(values)
    ensures forall e :: e in OptionShares(values) ==> e.1 == 0.0
  {
    if values != [] {
      var n := |values| - 1;
      ZeroEntries(values[..n]);
      EntriesOfSet(OptionShares(values[..n]), values[n].key.value, values[n].allocation / 100.0);
    }
  }

  /** Options without any traffic are never checked, whatever their keys. */
  lemma ZeroIsNotChecked(counts: ResultsSummary.Counts, values: seq<B.MvValue>)
    requires Rollouts.AllZero(values)
    ensures !Checked(counts, SharesOf(values))
  {
    var shares := SharesOf(values);
    if Usable(values) && |shares| >= 2 {
      ZeroEntries(values);
      AllSharesUnique(values);
      EntriesOfSet(OptionShares(values), CONTROL_VARIANT_KEY, (100.0 - B.Total(values)) / 100.0);
      var other := if shares[0].0 == CONTROL_VARIANT_KEY then 1 else 0;
      assert shares[other] in shares && shares[other].0 != CONTROL_VARIANT_KEY;
      assert ResultsSummary.Fractions(shares)[other] == 0.0;
    }
  }

  /** The options of every state once the first rollout has reset those of one. */
  function AfterReset(values: nat -> seq<B.MvValue>, id: nat, options: seq<Rollouts.FeatureOption>,
                      nextId: nat): nat -> seq<B.MvValue>
  {
    (x: nat) => if x == id then Rollouts.ResetToControl(values(id), options, nextId) else values(x)
  }

  /**
    The first rollout resets the default that is served, so that identities outside the cohort get
    control. The check then computes a p-value exactly if it did before and the state it reads is not
    that one: some live default with a lower id is newer. The reset is in place, so neither selection
    changes.
   */
  lemma RolloutLeavesCheckIff(tested: FeatureState, reset: FeatureState, rows: seq<FeatureState>,
                              defaults: seq<FeatureState>,
                              environment: nat, feature: nat, now: int, values: nat -> seq<B.MvValue>,
                              options: seq<Rollouts.FeatureOption>, nextId: nat, counts: ResultsSummary.Counts)
    requires C.UniqueIds(rows) && Flags(defaults, now) && Selects(defaults, rows, environment, feature, now)
    requires forall fs :: fs in defaults ==> IsLiveDefault(fs, environment, feature, now)
    requires LatestDefault(rows, environment, feature, now) == Some(tested) && IsHighest(reset, defaults, now)
    requires Rollouts.OfFeature(values(reset.id), options)
    ensures Checked(counts, SharesOf(AfterReset(values, reset.id, options, nextId)(tested.id))) <==>
            !NewestHasHighestId(tested, rows, environment, feature, now) && Checked(counts, SharesOf(values(tested.id)))
  {
    TestedIsServedIff(tested, rows, defaults, environment, feature, now);
    LatestDefaultSpec(rows, environment, feature, now);
    if tested.id == reset.id {
      SameIdSameRow(rows, tested, reset);
      Rollouts.ResetIsZero(values(reset.id), options, nextId);
      ZeroIsNotChecked(counts, AfterReset(values, reset.id, options, nextId)(tested.id));
    } else {
      assert Precedes(reset, tested, now);
      assert !Precedes(tested, reset, now);
    }
  }

  /** In the cohort, the rollout's override is served instead of the default that is tested. */
  lemma CohortIsNotTested(tested: FeatureState, override: FeatureState, rows: seq<FeatureState>,
                          live: seq<FeatureState>, environment: nat, feature: nat, now: int)
    requires C.UniqueIds(rows) && Flags(live, now) && Selects(live, rows, environment, feature, now)
    requires LatestDefault(rows, environment, feature, now) == Some(tested)
    requires override in live && override.feature == feature && override.segment.Some?
    ensures !IsHighest(tested, live, now)
  {
    TestedIsServedIff(tested, rows, live, environment, feature, now);
  }
}
