/** The traffic split that sample-ratio checks test against, and the intervals its options have. */
module ExpectedShares {
  import opened Options
  import opened Bucketing
  import opened FeatureStates

  const CONTROL_VARIANT_KEY := "control"

  /** A dictionary in insertion order. */
  type Shares = seq<(string, real)>

  /** `shares[key] = share`: in place if the key is there, else at the end. */
  function Set(shares: Shares, key: string, share: real): Shares
  {
    if shares == [] then [(key, share)]
    else if shares[0].0 == key then [(key, share)] + shares[1..]
    else [shares[0]] + Set(shares[1..], key, share)
  }

  function Lookup(shares: Shares, key: string): Option<real>
  {
    if shares == [] then None else if shares[0].0 == key then Some(shares[0].1) else Lookup(shares[1..], key)
  }

  function Sum(shares: Shares): real
  {
    if shares == [] then 0.0 else shares[0].1 + Sum(shares[1..])
  }

  lemma {:induction false} SetSpec(shares: Shares, key: string, share: real)
    ensures forall k :: Lookup(Set(shares, key, share), k) == if k == key then Some(share) else Lookup(shares, k)
    ensures Sum(Set(shares, key, share)) ==
            Sum(shares) + share - (if Lookup(shares, key).Some? then Lookup(shares, key).value else 0.0)
  {
    if shares != [] && shares[0].0 != key {
      SetSpec(shares[1..], key, share);
      assert ([shares[0]] + Set(shares[1..], key, share))[1..] == Set(shares[1..], key, share);
    } else if shares != [] {
      assert ([(key, share)] + shares[1..])[1..] == shares[1..];
    }
  }

  ghost predicate UniqueKeys(shares: Shares)
  {
    forall i, j :: 0 <= i < j < |shares| ==> shares[i].0 != shares[j].0
  }

  lemma {:induction false} EntriesOfSet(shares: Shares, key: string, share: real)
    ensures forall e :: e in Set(shares, key, share) ==> e == (key, share) || e in shares
  {
    if shares != [] && shares[0].0 != key {
      EntriesOfSet(shares[1..], key, share);
    }
  }

  lemma {:induction false} SetKeepsKeys(shares: Shares, key: string, share: real)
    requires UniqueKeys(shares)
    ensures UniqueKeys(Set(shares, key, share))
  {
    if shares != [] && shares[0].0 != key {
      var rest := Set(shares[1..], key, share);
      SetKeepsKeys(shares[1..], key, share);
      EntriesOfSet(shares[1..], key, share);
      forall i | 0 <= i < |rest| ensures rest[i].0 != shares[0].0 {
        assert rest[i] in rest;
      }
    }
  }

  /** Looking a key up finds the entry it has. */
  lemma {:induction false} LookupFinds(shares: Shares, i: nat)
    requires UniqueKeys(shares) && i < |shares|
    ensures Lookup(shares, shares[i].0) == Some(shares[i].1)
  {
    if i > 0 {
      LookupFinds(shares[1..], i - 1);
    }
  }

  lemma {:induction false} LookupIsEntry(shares: Shares, key: string)
    requires Lookup(shares, key).Some?
    ensures exists i :: 0 <= i < |shares| && shares[i] == (key, Lookup(shares, key).value)
  {
    if shares[0].0 != key {
      LookupIsEntry(shares[1..], key);
      var i :| 0 <= i < |shares[1..]| && shares[1..][i] == (key, Lookup(shares[1..], key).value);
      assert shares[i + 1] == (key, Lookup(shares, key).value);
    } else {
      assert shares[0] == (key, Lookup(shares, key).value);
    }
  }

  predicate Keyed(values: seq<MvValue>)
  {
    forall i :: 0 <= i < |values| ==> values[i].key.Some?
  }

  /** Option keys are unique per feature; any number of options may lack one. */
  predicate DistinctKeys(values: seq<MvValue>)
  {
    forall i, j :: 0 <= i < j < |values| && values[i].key.Some? ==> values[i].key != values[j].key
  }

  /** The dictionary after the loop over the options. */
  function OptionShares(values: seq<MvValue>): Shares
    requires Keyed(values)
  {
    if values == [] then []
    else
      var n := |values| - 1;
      Set(OptionShares(values[..n]), values[n].key.value, values[n].allocation / 100.0)
  }

  /** Control's share overwrites that of an option keyed like it. */
  function AllShares(values: seq<MvValue>): Shares
    requires Keyed(values)
  {
    Set(OptionShares(values), CONTROL_VARIANT_KEY, (100.0 - Total(values)) / 100.0)
  }

  lemma {:induction false} OptionSharesUnique(values: seq<MvValue>)
    requires Keyed(values)
    ensures UniqueKeys(OptionShares(values))
  {
    if values != [] {
      var n := |values| - 1;
      OptionSharesUnique(values[..n]);
      SetKeepsKeys(OptionShares(values[..n]), values[n].key.value, values[n].allocation / 100.0);
    }
  }

  lemma AllSharesUnique(values: seq<MvValue>)
    requires Keyed(values)
    ensures UniqueKeys(AllShares(values))
  {
    OptionSharesUnique(values);
    SetKeepsKeys(OptionShares(values), CONTROL_VARIANT_KEY, (100.0 - Total(values)) / 100.0);
  }

  /** There is a split to test against: some options, all keyed, not over-allocated. */
  predicate Usable(values: seq<MvValue>)
  {
    values != [] && Keyed(values) && Total(values) <= 100.0
  }

  lemma {:induction false} OptionSharesAbsent(values: seq<MvValue>, key: string)
    requires Keyed(values) && forall i :: 0 <= i < |values| ==> values[i].key.value != key
    ensures Lookup(OptionShares(values), key) == None
  {
    if values != [] {
      var n := |values| - 1;
      OptionSharesAbsent(values[..n], key);
      SetSpec(OptionShares(values[..n]), values[n].key.value, values[n].allocation / 100.0);
    }
  }

  /** The last option's key is new. */
  lemma LastKeyIsNew(values: seq<MvValue>)
    requires Keyed(values) && DistinctKeys(values) && values != []
    ensures var n := |values| - 1; Lookup(OptionShares(values[..n]), values[n].key.value) == None
  {
    var n := |values| - 1;
    forall i | 0 <= i < n ensures values[..n][i].key.value != values[n].key.value {
      assert values[i].key != values[n].key;
    }
    OptionSharesAbsent(values[..n], values[n].key.value);
  }

  lemma {:induction false} OptionSharesSum(values: seq<MvValue>)
    requires Keyed(values) && DistinctKeys(values)
    ensures Sum(OptionShares(values)) == Total(values) / 100.0
  {
    if values != [] {
      var n := |values| - 1;
      OptionSharesSum(values[..n]);
      LastKeyIsNew(values);
      SetSpec(OptionShares(values[..n]), values[n].key.value, values[n].allocation / 100.0);
      assert values == values[..n] + [values[n]];
      TotalSnoc(values[..n], values[n]);
    }
  }

  lemma {:induction false} OptionSharesAt(values: seq<MvValue>, i: nat)
    requires Keyed(values) && DistinctKeys(values) && i < |values|
    ensures Lookup(OptionShares(values), values[i].key.value) == Some(values[i].allocation / 100.0)
  {
    var n := |values| - 1;
    SetSpec(OptionShares(values[..n]), values[n].key.value, values[n].allocation / 100.0);
    if i < n {
      OptionSharesAt(values[..n], i);
      assert values[i].key != values[n].key;
    }
  }

  lemma OptionSharesSpec(values: seq<MvValue>)
    requires Keyed(values) && DistinctKeys(values)
    ensures Sum(OptionShares(values)) == Total(values) / 100.0
    ensures forall i :: 0 <= i < |values| ==>
              Lookup(OptionShares(values), values[i].key.value) == Some(values[i].allocation / 100.0)
    ensures forall k :: (forall i :: 0 <= i < |values| ==> values[i].key.value != k) ==>
              Lookup(OptionShares(values), k) == None
  {
    OptionSharesSum(values);
    forall i | 0 <= i < |values|
      ensures Lookup(OptionShares(values), values[i].key.value) == Some(values[i].allocation / 100.0)
    {
      OptionSharesAt(values, i);
    }
    forall k | forall i :: 0 <= i < |values| ==> values[i].key.value != k
      ensures Lookup(OptionShares(values), k) == None
    {
      OptionSharesAbsent(values, k);
    }
  }

  /** The shares sum to 1 unless an option with traffic carries control's own key. */
  lemma SharesSumToOne(values: seq<MvValue>)
    requires Keyed(values) && DistinctKeys(values)
    ensures Sum(AllShares(values)) == 1.0 <==>
            forall i :: 0 <= i < |values| && values[i].key.value == CONTROL_VARIANT_KEY ==> values[i].allocation == 0.0
  {
    OptionSharesSpec(values);
    SetSpec(OptionShares(values), CONTROL_VARIANT_KEY, (100.0 - Total(values)) / 100.0);
    if exists c :: 0 <= c < |values| && values[c].key.value == CONTROL_VARIANT_KEY {
      var c :| 0 <= c < |values| && values[c].key.value == CONTROL_VARIANT_KEY;
      forall i | 0 <= i < |values| && values[i].key.value == CONTROL_VARIANT_KEY ensures i == c {
        assert values[i].key == values[c].key;
      }
    }
  }

  lemma SortedLengths(values: seq<MvValue>)
    requires Allocations(values) && UniqueIds(values) && Total(values) <= 100.0
    ensures var sorted := SortById(values);
            && (forall i :: 0 <= i < |sorted| ==> sorted[i] in values && Length(sorted, i) == sorted[i].allocation)
            && ControlLength(sorted) == 100.0 - Total(values)
  {
    var sorted := SortById(values);
    SortByIdSpec(values);
    TotalSort(values);
    StartIsTotal(sorted, |sorted|);
    assert sorted[..|sorted|] == sorted;
    assert Allocations(sorted) by {
      forall i | 0 <= i < |sorted| ensures 0.0 <= sorted[i].allocation { assert sorted[i] in values; }
    }
    LengthsAreAllocations(sorted);
    forall i | 0 <= i < |sorted| ensures sorted[i] in values {}
  }

  lemma ShareOf(values: seq<MvValue>, v: MvValue)
    requires Keyed(values) && DistinctKeys(values) && v in values && v.key != Some(CONTROL_VARIANT_KEY)
    ensures Lookup(AllShares(values), v.key.value) == Some(v.allocation / 100.0)
  {
    OptionSharesSpec(values);
    SetSpec(OptionShares(values), CONTROL_VARIANT_KEY, (100.0 - Total(values)) / 100.0);
  }

  lemma ControlShare(values: seq<MvValue>)
    requires Keyed(values)
    ensures Lookup(AllShares(values), CONTROL_VARIANT_KEY) == Some((100.0 - Total(values)) / 100.0)
  {
    SetSpec(OptionShares(values), CONTROL_VARIANT_KEY, (100.0 - Total(values)) / 100.0);
  }

  /**
    The shares of a list of options are the lengths of its intervals of percentages: each option's
    share is the length of its interval, and control's is the length of what is left.
   */
  lemma SharesAreLengths(values: seq<MvValue>, sorted: seq<MvValue>, i: nat)
    requires Usable(values) && Allocations(values) && UniqueIds(values) && DistinctKeys(values)
    requires forall v :: v in values ==> v.key != Some(CONTROL_VARIANT_KEY)
    requires sorted == SortById(values) && i < |sorted|
    ensures sorted[i].key.Some?
    ensures Lookup(AllShares(values), sorted[i].key.value) == Some(Length(sorted, i) / 100.0)
    ensures Lookup(AllShares(values), CONTROL_VARIANT_KEY) == Some(ControlLength(sorted) / 100.0)
  {
    SortedLengths(values);
    ControlShare(values);
    ShareOf(values, sorted[i]);
  }

  // ----- The state that is read -----

  predicate IsLiveDefault(fs: FeatureState, environment: nat, feature: nat, now: int)
  {
    fs.environment == environment && fs.feature == feature && fs.identity.None? && fs.segment.None? && IsLive(fs, now)
  }

  /** The live environment default with the highest id. */
  function LatestDefault(rows: seq<FeatureState>, environment: nat, feature: nat, now: int): Option<FeatureState>
  {
    if rows == [] then None
    else
      var before, last := LatestDefault(rows[..|rows| - 1], environment, feature, now), rows[|rows| - 1];
      if IsLiveDefault(last, environment, feature, now) && (before.None? || last.id > before.value.id) then Some(last)
      else before
  }

  predicate IsDefaultAt(x: FeatureState, environment: nat, feature: nat, now: int)
  {
    && x.environment == environment && x.feature == feature && x.identity.None? && x.segment.None?
    && x.version.Some? && x.liveFrom.Some? && x.liveFrom.value <= now
  }

  lemma {:induction false} LatestDefaultSpec(rows: seq<FeatureState>, environment: nat, feature: nat, now: int)
    ensures var latest := LatestDefault(rows, environment, feature, now);
            && (latest.Some? ==> latest.value in rows && IsLiveDefault(latest.value, environment, feature, now))
            && forall i :: 0 <= i < |rows| && IsLiveDefault(rows[i], environment, feature, now) ==>
                 latest.Some? && rows[i].id <= latest.value.id
  {
    if rows != [] {
      LatestDefaultSpec(rows[..|rows| - 1], environment, feature, now);
    }
  }

  /**
    The state that is read: of the environment and the feature, no override, with a version, its time
    come, and no such one with a higher id.
   */
  lemma LatestDefaultColumns(rows: seq<FeatureState>, environment: nat, feature: nat, now: int)
    ensures var latest := LatestDefault(rows, environment, feature, now);
            && (latest.Some? <==> exists x :: x in rows && IsDefaultAt(x, environment, feature, now))
            && (latest.Some? ==>
                  && latest.value in rows && IsDefaultAt(latest.value, environment, feature, now)
                  && forall x :: x in rows && IsDefaultAt(x, environment, feature, now) ==> x.id <= latest.value.id)
  {
    LatestDefaultSpec(rows, environment, feature, now);
    assert forall x :: IsDefaultAt(x, environment, feature, now) <==> IsLiveDefault(x, environment, feature, now);
  }

  /** The dictionary of one list of options, empty when there is no split to test against. */
  function SharesOf(values: seq<MvValue>): Shares
  {
    if Usable(values) then AllShares(values) else []
  }

  /**
    There are shares exactly if there are options, each has a key, and together they have no more than 100
    percent; then control has what is left, and every other key the hundredth of its option's percentage.
   */
  lemma SharesAre(values: seq<MvValue>, v: MvValue)
    requires DistinctKeys(values) && v in values
    ensures SharesOf(values) != [] <==> (forall x :: x in values ==> x.key.Some?) && Total(values) <= 100.0
    ensures SharesOf(values) != [] ==>
              && Lookup(SharesOf(values), "control") == Some(1.0 - Total(values) / 100.0)
              && (v.key != Some("control") ==> Lookup(SharesOf(values), v.key.value) == Some(v.allocation / 100.0))
  {
    assert Keyed(values) <==> forall x :: x in values ==> x.key.Some?;
    if Keyed(values) {
      ControlShare(values);
      if v.key != Some(CONTROL_VARIANT_KEY) {
        ShareOf(values, v);
      }
    }
  }

  /** The loop of `_expected_variant_shares` over a state's options. */
  method BuildShares(values: seq<MvValue>) returns (shares: Shares)
    ensures shares == SharesOf(values)
  {
    shares := [];
    var allotted := 0.0;
    for i := 0 to |values|
      invariant Keyed(values[..i]) && shares == OptionShares(values[..i]) && allotted == Total(values[..i])
      invariant i > 0 ==> shares != []
    {
      if values[i].key.None? {
        return [];
      }
      assert values[..i + 1] == values[..i] + [values[i]] && values[..i + 1][..i] == values[..i];
      shares := Set(shares, values[i].key.value, values[i].allocation / 100.0);
      TotalSnoc(values[..i], values[i]);
      allotted := allotted + values[i].allocation;
    }
    assert values[..|values|] == values;
    if shares == [] || allotted > 100.0 {
      return [];
    }
    shares := Set(shares, CONTROL_VARIANT_KEY, (100.0 - allotted) / 100.0);
  }

  /** `_expected_variant_shares`. `values` holds the options of each state, by its id. */
  method ExpectedVariantShares(rows: seq<FeatureState>, values: nat -> seq<MvValue>, environment: nat, feature: nat,
                               now: int)
    returns (shares: Shares)
    ensures var state := LatestDefault(rows, environment, feature, now);
            shares == if state.None? then [] else SharesOf(values(state.value.id))
  {
    var state := LatestDefault(rows, environment, feature, now);
    if state.None? {
      return [];
    }
    shares := BuildShares(values(state.value.id));
  }
}
