/** The check on a rollout's multivariate values, and what it guarantees to the bucketing. */
module Rollouts {
  import opened Options
  import opened Bucketing

  datatype RolloutError = DuplicateOptions | ForeignOptions(ids: set<nat>) | OverAllocated(total: real)

  predicate DistinctOptions(values: seq<MvValue>)
  {
    forall i, j :: 0 <= i < j < |values| ==> values[i].option != values[j].option
  }

  function OptionIds(values: seq<MvValue>): set<nat>
  {
    if values == [] then {} else OptionIds(values[..|values| - 1]) + {values[|values| - 1].option}
  }

  lemma {:induction false} OptionIdsSpec(values: seq<MvValue>, o: nat)
    ensures o in OptionIds(values) <==> exists i :: 0 <= i < |values| && values[i].option == o
  {
    if values != [] {
      OptionIdsSpec(values[..|values| - 1], o);
      assert forall i :: 0 <= i < |values| - 1 ==> values[..|values| - 1][i] == values[i];
    }
  }

  lemma DistinctSnoc(values: seq<MvValue>)
    requires values != []
    ensures var n := |values| - 1; DistinctOptions(values) <==>
            DistinctOptions(values[..n]) && values[n].option !in OptionIds(values[..n])
  {
    var n := |values| - 1;
    OptionIdsSpec(values[..n], values[n].option);
    assert forall i :: 0 <= i < n ==> values[..n][i] == values[i];
  }

  lemma {:induction false} SizeTellsDistinct(values: seq<MvValue>)
    ensures |OptionIds(values)| <= |values|
    ensures |OptionIds(values)| == |values| <==> DistinctOptions(values)
  {
    if values != [] {
      SizeTellsDistinct(values[..|values| - 1]);
      DistinctSnoc(values);
    }
  }

  /** `validate_rollout_spec`: unique options, of this feature, with no more than all the traffic. */
  method ValidateRolloutSpec(values: seq<MvValue>, featureOptions: set<nat>) returns (error: Option<RolloutError>)
    ensures error == Some(DuplicateOptions) <==> !DistinctOptions(values)
    ensures error.Some? && error.value.ForeignOptions? ==>
              error.value.ids == OptionIds(values) - featureOptions && error.value.ids != {}
    ensures error.Some? && error.value.OverAllocated? ==> error.value.total == Total(values) > 100.0
    ensures error.None? <==>
              DistinctOptions(values) && OptionIds(values) <= featureOptions && Total(values) <= 100.0
  {
    SizeTellsDistinct(values);
    if |values| != |OptionIds(values)| {
      return Some(DuplicateOptions);
    }
    var invalid := OptionIds(values) - featureOptions;
    if invalid != {} {
      return Some(ForeignOptions(invalid));
    }
    var total := 0.0;
    for i := 0 to |values|
      invariant total == Total(values[..i])
    {
      assert values[..i + 1] == values[..i] + [values[i]];
      TotalSnoc(values[..i], values[i]);
      total := total + values[i].allocation;
    }
    assert values[..|values|] == values;
    return if total > 100.0 then Some(OverAllocated(total)) else None;
  }

  /** The limit on the total is what it takes for every option to get all of its allocation. */
  lemma LimitIsExact(values: seq<MvValue>, sorted: seq<MvValue>)
    requires Allocations(values) && UniqueIds(values) && sorted == SortById(values)
    ensures Total(values) <= 100.0 <==> forall i :: 0 <= i < |sorted| ==> Length(sorted, i) == sorted[i].allocation
  {
    SortByIdSpec(values);
    TotalSort(values);
    StartIsTotal(sorted, |sorted|);
    assert sorted[..|sorted|] == sorted;
    forall i | 0 <= i < |sorted| ensures 0.0 <= sorted[i].allocation {
      assert sorted[i] in values;
    }
    LengthsAreAllocations(sorted);
  }

  // ----- The first rollout -----

  /** An option of the feature. */
  datatype FeatureOption = FeatureOption(id: nat, key: Option<string>)

  predicate IsOption(options: seq<FeatureOption>, id: nat)
  {
    exists i :: 0 <= i < |options| && options[i].id == id
  }

  predicate HasOption(values: seq<MvValue>, option: nat)
  {
    exists i :: 0 <= i < |values| && values[i].option == option
  }

  /** The rows created for the options that have none. */
  function NewValues(values: seq<MvValue>, options: seq<FeatureOption>, nextId: nat): seq<MvValue>
  {
    if options == [] then []
    else
      var n := |options| - 1;
      var before := NewValues(values, options[..n], nextId);
      if HasOption(values, options[n].id) then before
      else before + [MvValue(nextId + |before|, options[n].id, options[n].key, 0.0)]
  }

  /** The environment default's options once every option of the feature is set to 0. */
  function ResetToControl(values: seq<MvValue>, options: seq<FeatureOption>, nextId: nat): seq<MvValue>
  {
    seq(|values|, i requires 0 <= i < |values| =>
      if IsOption(options, values[i].option) then values[i].(allocation := 0.0) else values[i]) +
    NewValues(values, options, nextId)
  }

  ghost predicate OneRowPerOption(values: seq<MvValue>)
  {
    forall i, j :: 0 <= i < j < |values| ==> values[i].option != values[j].option
  }

  lemma {:induction false} NewValuesSpec(values: seq<MvValue>, options: seq<FeatureOption>, nextId: nat)
    requires forall i, j :: 0 <= i < j < |options| ==> options[i].id != options[j].id
    ensures var created := NewValues(values, options, nextId);
            && OneRowPerOption(created)
            && (forall i :: 0 <= i < |created| ==>
                  && IsOption(options, created[i].option)
                  && forall k :: 0 <= k < |values| ==> values[k].option != created[i].option)
            && (forall o :: 0 <= o < |options| ==>
                  || HasOption(values, options[o].id)
                  || exists i :: 0 <= i < |created| && created[i].option == options[o].id)
  {
    if options != [] {
      var n := |options| - 1;
      NewValuesSpec(values, options[..n], nextId);
      var before, created := NewValues(values, options[..n], nextId), NewValues(values, options, nextId);
      assert before <= created;
      forall o | 0 <= o < |options| && !HasOption(values, options[o].id)
        ensures exists i :: 0 <= i < |created| && created[i].option == options[o].id
      {
        if o < n {
          assert options[..n][o] == options[o];
          var i :| 0 <= i < |before| && before[i].option == options[o].id;
          assert created[i].option == options[o].id;
        } else {
          assert created[|before|].option == options[o].id;
        }
      }
    }
  }

  lemma {:induction false} NewValuesAreZero(values: seq<MvValue>, options: seq<FeatureOption>, nextId: nat)
    ensures forall i :: 0 <= i < |NewValues(values, options, nextId)| ==>
            NewValues(values, options, nextId)[i].allocation == 0.0
  {
    if options != [] {
      NewValuesAreZero(values, options[..|options| - 1], nextId);
    }
  }

  /** After the reset every option of the feature has one row, which gives it nothing. */
  lemma ResetCoversOptions(values: seq<MvValue>, options: seq<FeatureOption>, nextId: nat)
    requires OneRowPerOption(values) && forall i, j :: 0 <= i < j < |options| ==> options[i].id != options[j].id
    ensures var reset := ResetToControl(values, options, nextId);
            && (forall i, j :: 0 <= i < j < |reset| ==> reset[i].option != reset[j].option)
            && (forall o :: 0 <= o < |options| ==>
                  exists i :: 0 <= i < |reset| && reset[i].option == options[o].id && reset[i].allocation == 0.0)
  {
    var reset, created := ResetToControl(values, options, nextId), NewValues(values, options, nextId);
    NewValuesSpec(values, options, nextId);
    NewValuesAreZero(values, options, nextId);
    assert forall i :: 0 <= i < |values| ==> reset[i].option == values[i].option;
    assert forall i :: 0 <= i < |created| ==> reset[|values| + i] == created[i];
    forall o | 0 <= o < |options|
      ensures exists i :: 0 <= i < |reset| && reset[i].option == options[o].id && reset[i].allocation == 0.0
    {
      if k :| 0 <= k < |values| && values[k].option == options[o].id {
        assert IsOption(options, values[k].option);
        assert reset[k].option == options[o].id && reset[k].allocation == 0.0;
      } else {
        var i :| 0 <= i < |created| && created[i].option == options[o].id;
        assert reset[|values| + i] == created[i];
      }
    }
  }

  ghost predicate OfFeature(values: seq<MvValue>, options: seq<FeatureOption>)
  {
    forall i :: 0 <= i < |values| ==> IsOption(options, values[i].option)
  }

  ghost predicate AllZero(values: seq<MvValue>)
  {
    forall i :: 0 <= i < |values| ==> values[i].allocation == 0.0
  }

  lemma {:induction false} ZeroStarts(values: seq<MvValue>, k: nat)
    requires AllZero(values) && k <= |values|
    ensures Start(values, k) == 0.0
  {
    if k > 0 {
      ZeroStarts(values, k - 1);
    }
  }

  lemma ResetIsZero(values: seq<MvValue>, options: seq<FeatureOption>, nextId: nat)
    requires OfFeature(values, options)
    ensures AllZero(ResetToControl(values, options, nextId))
  {
    NewValuesAreZero(values, options, nextId);
  }

  /** Whoever gets the reset default gets control, whatever the order of its options. */
  lemma ResetGivesControl(values: seq<MvValue>, options: seq<FeatureOption>, nextId: nat, sorted: seq<MvValue>,
                          percentage: real)
    requires OfFeature(values, options) && 0.0 <= percentage
    requires multiset(sorted) == multiset(ResetToControl(values, options, nextId))
    ensures Falls(sorted, percentage, None)
  {
    var reset := ResetToControl(values, options, nextId);
    ResetIsZero(values, options, nextId);
    forall i | 0 <= i < |sorted| ensures sorted[i].allocation == 0.0 {
      assert sorted[i] in multiset(reset);
    }
    ZeroStarts(sorted, |sorted|);
    ControlGetsTheRest(sorted, percentage);
  }
}
