/**
  Which multivariate option an identity gets: the percentage its hash falls on, cut up by the
  options' allocations; and the shares an experiment expects of that cut.
 */
module Bucketing {
  import opened Options

  /** One option's allocation on a feature state; options may lack a key. */
  datatype MvValue = MvValue(id: nat, option: nat, key: Option<string>, allocation: real)

  ghost predicate Allocations(values: seq<MvValue>)
  {
    forall i :: 0 <= i < |values| ==> 0.0 <= values[i].allocation
  }

  ghost predicate UniqueIds(values: seq<MvValue>)
  {
    forall i, j :: 0 <= i < j < |values| ==> values[i].id != values[j].id
  }

  ghost predicate AscendingIds(values: seq<MvValue>)
  {
    forall i, j :: 0 <= i < j < |values| ==> values[i].id < values[j].id
  }

  // ----- Sorting by id -----

  function Insert(v: MvValue, sorted: seq<MvValue>): seq<MvValue>
  {
    if sorted == [] || v.id <= sorted[0].id then [v] + sorted else [sorted[0]] + Insert(v, sorted[1..])
  }

  function SortById(values: seq<MvValue>): seq<MvValue>
  {
    if values == [] then [] else Insert(values[0], SortById(values[1..]))
  }

  lemma {:induction false} InsertSpec(v: MvValue, sorted: seq<MvValue>)
    requires AscendingIds(sorted) && forall i :: 0 <= i < |sorted| ==> sorted[i].id != v.id
    ensures AscendingIds(Insert(v, sorted))
    ensures |Insert(v, sorted)| == |sorted| + 1
    ensures forall x :: x in Insert(v, sorted) <==> x == v || x in sorted
  {
    if sorted != [] && v.id > sorted[0].id {
      var rest := sorted[1..];
      InsertSpec(v, rest);
      var tail := Insert(v, rest);
      forall i | 0 <= i < |tail| ensures sorted[0].id < tail[i].id {
        assert tail[i] in tail;
        assert tail[i] == v || tail[i] in rest;
      }
    }
  }

  lemma {:induction false} SortByIdSpec(values: seq<MvValue>)
    requires UniqueIds(values)
    ensures AscendingIds(SortById(values)) && |SortById(values)| == |values|
    ensures forall x :: x in SortById(values) <==> x in values
  {
    if values != [] {
      SortByIdSpec(values[1..]);
      var sorted := SortById(values[1..]);
      forall i | 0 <= i < |sorted| ensures sorted[i].id != values[0].id {
        assert sorted[i] in values[1..];
      }
      InsertSpec(values[0], sorted);
      assert values == [values[0]] + values[1..];
    }
  }

  /** What is already in id order stays as it is. */
  lemma {:induction false} SortAscending(values: seq<MvValue>)
    requires AscendingIds(values)
    ensures SortById(values) == values
  {
    if values != [] {
      SortAscending(values[1..]);
    }
  }

  // ----- The cut -----

  /** The percentage where the k-th interval starts. */
  function Start(values: seq<MvValue>, k: nat): real
    requires k <= |values|
  {
    if k == 0 then 0.0 else Start(values, k - 1) + values[k - 1].allocation
  }

  lemma {:induction false} StartMonotone(values: seq<MvValue>, j: nat, k: nat)
    requires Allocations(values) && j <= k <= |values|
    ensures Start(values, j) <= Start(values, k)
  {
    if j < k {
      StartMonotone(values, j, k - 1);
    }
  }

  /** The position whose half-open interval holds the percentage, if any does. */
  ghost predicate Falls(values: seq<MvValue>, percentage: real, position: Option<nat>)
  {
    match position
    case Some(i) => i < |values| && Start(values, i) <= percentage < Start(values, i + 1)
    case None => forall i :: 0 <= i < |values| ==> !(Start(values, i) <= percentage < Start(values, i + 1))
  }

  /** The loop of `get_multivariate_feature_state_value` over the options in id order. */
  method Choose(sorted: seq<MvValue>, percentage: real) returns (position: Option<nat>)
    ensures Falls(sorted, percentage, position)
    ensures position.Some? ==> forall i :: 0 <= i < position.value ==>
            !(Start(sorted, i) <= percentage < Start(sorted, i + 1))
  {
    var start := 0.0;
    for i := 0 to |sorted|
      invariant start == Start(sorted, i)
      invariant forall j :: 0 <= j < i ==> !(Start(sorted, j) <= percentage < Start(sorted, j + 1))
    {
      var limit := sorted[i].allocation + start;
      if start <= percentage < limit {
        return Some(i);
      }
      start := limit;
    }
    return None;
  }

  /** Sorting by id first makes the outcome independent of the order the rows are fetched in. */
  method GetMultivariateOption(values: seq<MvValue>, percentage: real) returns (option: Option<nat>)
    requires UniqueIds(values)
    ensures var sorted := SortById(values);
            match option
            case Some(o) => exists i :: 0 <= i < |sorted| && sorted[i].option == o && Falls(sorted, percentage, Some(i))
            case None => Falls(sorted, percentage, None)
  {
    var sorted := SortById(values);
    var position := Choose(sorted, percentage);
    if position.None? {
      return None;
    }
    return Some(sorted[position.value].option);
  }

  /** The intervals do not overlap, so what is chosen is fixed by where the percentage falls. */
  lemma FallsIsUnique(values: seq<MvValue>, percentage: real, a: Option<nat>, b: Option<nat>)
    requires Allocations(values) && Falls(values, percentage, a) && Falls(values, percentage, b)
    ensures a == b
  {
    if a.Some? && b.Some? {
      if a.value < b.value { StartMonotone(values, a.value + 1, b.value); }
      if b.value < a.value { StartMonotone(values, b.value + 1, a.value); }
    }
  }

  /** Control gets exactly the percentages past the last interval. */
  lemma {:induction false} ControlGetsTheRest(values: seq<MvValue>, percentage: real)
    requires Allocations(values) && 0.0 <= percentage
    ensures Falls(values, percentage, None) <==> Start(values, |values|) <= percentage
  {
    if Start(values, |values|) <= percentage {
      forall i | 0 <= i < |values| ensures !(Start(values, i) <= percentage < Start(values, i + 1)) {
        StartMonotone(values, i + 1, |values|);
      }
    } else {
      var k := 0;
      while k < |values| && Start(values, k + 1) <= percentage
        invariant k <= |values| && Start(values, k) <= percentage
      {
        k := k + 1;
      }
    }
  }

  function Min(a: real, b: real): real
  {
    if a < b then a else b
  }

  /** How much of [0, 100) goes to the i-th option. */
  function Length(values: seq<MvValue>, i: nat): real
    requires i < |values|
  {
    Min(Start(values, i + 1), 100.0) - Min(Start(values, i), 100.0)
  }

  function ControlLength(values: seq<MvValue>): real
  {
    100.0 - Min(Start(values, |values|), 100.0)
  }

  /**
    The percentages from 0 up to 100 that fall on the i-th option are an interval as long as `Length`, and
    those that fall on none are the last `ControlLength` of them.
   */
  lemma IntervalsOfPercentages(values: seq<MvValue>, i: nat, percentage: real)
    requires Allocations(values) && i < |values| && 0.0 <= percentage < 100.0
    ensures Falls(values, percentage, Some(i)) <==>
            Min(Start(values, i), 100.0) <= percentage < Min(Start(values, i), 100.0) + Length(values, i)
    ensures Falls(values, percentage, None) <==> percentage >= 100.0 - ControlLength(values)
  {
    ControlGetsTheRest(values, percentage);
  }

  /** Every option gets exactly its allocation if and only if the allocations sum to at most 100. */
  lemma {:induction false} LengthsAreAllocations(values: seq<MvValue>)
    requires Allocations(values)
    ensures (forall i :: 0 <= i < |values| ==> Length(values, i) == values[i].allocation) <==>
            Start(values, |values|) <= 100.0
    ensures Start(values, |values|) <= 100.0 ==> ControlLength(values) == 100.0 - Start(values, |values|)
  {
    if Start(values, |values|) <= 100.0 {
      forall i | 0 <= i < |values| ensures Length(values, i) == values[i].allocation {
        StartMonotone(values, i + 1, |values|);
      }
    } else {
      // Some option crosses 100 and is cut short.
      var k := 0;
      while Start(values, k + 1) <= 100.0
        invariant k < |values| && Start(values, k) <= 100.0
        decreases |values| - k
      {
        k := k + 1;
      }
      assert Length(values, k) < values[k].allocation;
    }
  }

  lemma {:induction false} StartOfPrefix(values: seq<MvValue>, values': seq<MvValue>, k: nat, i: nat)
    requires i <= k <= |values| && k <= |values'| && values[..k] == values'[..k]
    ensures Start(values, i) == Start(values', i)
  {
    if i > 0 {
      StartOfPrefix(values, values', k, i - 1);
      assert values[..k][i - 1] == values'[..k][i - 1];
    }
  }

  /** Changing the options from position k on moves nobody into or out of the first k. */
  lemma FirstOptionsAreStable(values: seq<MvValue>, values': seq<MvValue>, k: nat, percentage: real, i: nat)
    requires k <= |values| && k <= |values'| && values[..k] == values'[..k] && i < k
    ensures Falls(values, percentage, Some(i)) <==> Falls(values', percentage, Some(i))
  {
    StartOfPrefix(values, values', k, i);
    StartOfPrefix(values, values', k, i + 1);
  }

  /** Re-created rows with the same options and allocations in the same order choose alike. */
  lemma {:induction false} SameAllocationsSameStart(values: seq<MvValue>, values': seq<MvValue>, k: nat)
    requires k <= |values| == |values'|
    requires forall i :: 0 <= i < |values| ==> values'[i].allocation == values[i].allocation
    ensures Start(values, k) == Start(values', k)
  {
    if k > 0 {
      SameAllocationsSameStart(values, values', k - 1);
    }
  }

  // ----- Sums do not depend on the order -----

  function Total(values: seq<MvValue>): real
  {
    if values == [] then 0.0 else values[0].allocation + Total(values[1..])
  }

  lemma {:induction false} TotalSnoc(values: seq<MvValue>, v: MvValue)
    ensures Total(values + [v]) == Total(values) + v.allocation
  {
    if values == [] {
      assert Total([v]) == v.allocation + Total([v][1..]);
    } else {
      assert (values + [v])[1..] == values[1..] + [v];
      TotalSnoc(values[1..], v);
    }
  }

  lemma {:induction false} StartIsTotal(values: seq<MvValue>, k: nat)
    requires k <= |values|
    ensures Start(values, k) == Total(values[..k])
  {
    if k > 0 {
      StartIsTotal(values, k - 1);
      assert values[..k] == values[..k - 1] + [values[k - 1]];
      TotalSnoc(values[..k - 1], values[k - 1]);
    }
  }

  lemma {:induction false} TotalInsert(v: MvValue, sorted: seq<MvValue>)
    ensures Total(Insert(v, sorted)) == Total(sorted) + v.allocation
  {
    if sorted == [] || v.id <= sorted[0].id {
      assert ([v] + sorted)[1..] == sorted;
    } else {
      TotalInsert(v, sorted[1..]);
      assert ([sorted[0]] + Insert(v, sorted[1..]))[1..] == Insert(v, sorted[1..]);
    }
  }

  lemma {:induction false} TotalSort(values: seq<MvValue>)
    ensures Total(SortById(values)) == Total(values)
  {
    if values != [] {
      TotalSort(values[1..]);
      TotalInsert(values[0], SortById(values[1..]));
    }
  }
}
