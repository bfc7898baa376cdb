/**
  Delivery is at least once, so the rows of an object can reach the warehouse again: what copies of rows
  do to the totals of a metric, and exactly when they do nothing.
 */
module Redelivery {
  import opened Options
  import opened ResultsQuery
  import opened ExposureCounts
  import opened Statistics

  /** Rows that the table holds already. */
  ghost predicate CopiesOf(copies: seq<Event>, events: seq<Event>)
  {
    forall m :: m in copies ==> m in Rows(events)
  }

  // ----- Exposures stay -----

  lemma InRows(events: seq<Event>, m: Event)
    ensures m in Rows(events) <==> m in events
  {
  }

  lemma RowsKept(events: seq<Event>, copies: seq<Event>)
    requires CopiesOf(copies, events)
    ensures Rows(events + copies) == Rows(events)
  {
    forall m ensures m in Rows(events + copies) <==> m in Rows(events) {
      InRows(events, m);
      InRows(events + copies, m);
      assert m in events + copies <==> m in events || m in copies;
    }
  }

  lemma {:induction false} IdentifiersKept(events: seq<Event>, p: Params, copies: seq<Event>)
    requires CopiesOf(copies, events)
    ensures Identifiers(events + copies, p) == Identifiers(events, p)
  {
    if copies == [] {
      assert events + copies == events;
    } else {
      var n := |copies| - 1;
      IdentifiersKept(events, p, copies[..n]);
      assert (events + copies)[..|events + copies| - 1] == events + copies[..n];
      IdentifiersSpec(events, p);
      InRows(events, copies[n]);
      assert IsExposure(p, copies[n]) ==> exists i :: 0 <= i < |events| && Exposes(p, events[i], copies[n].identifier);
    }
  }

  lemma ExposuresKept(events: seq<Event>, p: Params, copies: seq<Event>)
    requires CopiesOf(copies, events)
    ensures Exposures(events + copies, p) == Exposures(events, p)
  {
    IdentifiersKept(events, p, copies);
    IdentifiersSpec(events, p);
    RowsKept(events, copies);
    var ids := Identifiers(events, p);
    forall i | 0 <= i < |ids| ensures ExposureOf(events + copies, p, ids[i]) == ExposureOf(events, p, ids[i]) {
      assert ids[i] in ids;
      ExposureIgnoresCopies(events, events + copies, p, ids[i]);
    }
  }

  // ----- One identity's value -----

  lemma {:induction false} AttributedConcat(events: seq<Event>, p: Params, spec: MetricSpec, e: Exposure,
                                            number: string -> real, copies: seq<Event>)
    ensures AttributedValues(events + copies, p, spec, e, number) ==
            AttributedValues(events, p, spec, e, number) + AttributedValues(copies, p, spec, e, number)
  {
    if copies == [] {
      assert events + copies == events;
    } else {
      AttributedConcat(events, p, spec, e, number, copies[..|copies| - 1]);
      assert (events + copies)[..|events + copies| - 1] == events + copies[..|copies| - 1];
    }
  }

  lemma {:induction false} SumConcat(xs: seq<real>, ys: seq<real>)
    ensures Sum(xs + ys) == Sum(xs) + Sum(ys)
  {
    if ys == [] {
      assert xs + ys == xs;
    } else {
      SumConcat(xs, ys[..|ys| - 1]);
      assert (xs + ys)[..|xs + ys| - 1] == xs + ys[..|ys| - 1];
    }
  }

  /** Copies that an identity's value of the metric does not notice. */
  ghost predicate Neutral(events: seq<Event>, p: Params, spec: MetricSpec, e: Exposure, number: string -> real,
                          copies: seq<Event>)
  {
    var again := AttributedValues(copies, p, spec, e, number);
    again != [] ==>
      match spec.aggregation
      case Occurrence => true
      case Count => false
      case Total => Sum(again) == 0.0
      case Average => Mean(StatsOf(again)) == IdentityValue(events, p, spec, e, number)
  }

  lemma SameFactor(a: real, b: real, k: real)
    requires k > 0.0 && a * k == b * k
    ensures a == b
  {
    assert (a - b) * k == 0.0;
  }

  /** More numbers leave a mean as it is exactly if they have the same mean. */
  lemma MeanStep(n: real, sum: real, k: real, more: real, mean: real, moreMean: real, next: real)
    requires n > 0.0 && k > 0.0 && mean == sum / n && moreMean == more / k && next == (sum + more) / (n + k)
    ensures next == mean <==> moreMean == mean
  {
    assert mean * n == sum && moreMean * k == more;
    assert next * (n + k) == sum + more;
    assert next * (n + k) == next * n + next * k;
    if next == mean {
      SameFactor(moreMean, mean, k);
    }
    if moreMean == mean {
      assert mean * (n + k) == mean * n + mean * k;
      SameFactor(next, mean, n + k);
    }
  }

  lemma AverageStep(values: seq<real>, more: seq<real>)
    requires values != [] && more != []
    ensures Mean(StatsOf(values + more)) == Mean(StatsOf(values)) <==> Mean(StatsOf(more)) == Mean(StatsOf(values))
  {
    SumConcat(values, more);
    MeanStep(|values| as real, Sum(values), |more| as real, Sum(more),
             Mean(StatsOf(values)), Mean(StatsOf(more)), Mean(StatsOf(values + more)));
  }

  /** An identity with a copied event had the event before. */
  lemma CopiedBefore(events: seq<Event>, p: Params, spec: MetricSpec, e: Exposure, number: string -> real,
                     copies: seq<Event>)
    requires CopiesOf(copies, events) && AttributedValues(copies, p, spec, e, number) != []
    ensures AttributedValues(events, p, spec, e, number) != []
  {
    AttributedValuesSpec(copies, p, spec, e, number);
    AttributedValuesSpec(events, p, spec, e, number);
    var m :| m in Rows(copies) && Attributed(p, spec, e, m);
    InRows(copies, m);
  }

  /** What copies add to an identity's value. */
  function Delta(events: seq<Event>, p: Params, spec: MetricSpec, e: Exposure, number: string -> real,
                 copies: seq<Event>): real
  {
    IdentityValue(events + copies, p, spec, e, number) - IdentityValue(events, p, spec, e, number)
  }

  /** Copies leave an identity's value as it is exactly if they are neutral. */
  lemma CopiesKeepValueIff(events: seq<Event>, p: Params, spec: MetricSpec, e: Exposure, number: string -> real,
                           copies: seq<Event>)
    requires CopiesOf(copies, events)
    ensures Delta(events, p, spec, e, number, copies) == 0.0 <==> Neutral(events, p, spec, e, number, copies)
  {
    AttributedConcat(events, p, spec, e, number, copies);
    var values, again := AttributedValues(events, p, spec, e, number), AttributedValues(copies, p, spec, e, number);
    SumConcat(values, again);
    if again == [] {
      assert values + again == values;
    } else {
      CopiedBefore(events, p, spec, e, number, copies);
      AverageStep(values, again);
    }
  }

  // ----- A variant's totals -----

  /** What copies add to a variant's sum: the changes of the identities concerned. */
  function Change(exposures: seq<Exposure>, events: seq<Event>, p: Params, spec: MetricSpec, number: string -> real,
                  variant: string, copies: seq<Event>): real
  {
    if exposures == [] then 0.0
    else
      var e := exposures[|exposures| - 1];
      Change(exposures[..|exposures| - 1], events, p, spec, number, variant, copies) +
      (if OfVariant(e, variant) then Delta(events, p, spec, e, number, copies) else 0.0)
  }

  lemma SumSnoc(xs: seq<real>, x: real)
    ensures Sum(xs + [x]) == Sum(xs) + x
  {
    assert (xs + [x])[..|xs|] == xs;
  }

  lemma {:induction false} SumChanges(exposures: seq<Exposure>, events: seq<Event>, p: Params, spec: MetricSpec,
                                      number: string -> real, variant: string, copies: seq<Event>)
    ensures Sum(VariantValues(exposures, events + copies, p, spec, number, variant)) ==
            Sum(VariantValues(exposures, events, p, spec, number, variant)) +
            Change(exposures, events, p, spec, number, variant, copies)
  {
    if exposures != [] {
      var n := |exposures| - 1;
      var e := exposures[n];
      SumChanges(exposures[..n], events, p, spec, number, variant, copies);
      if OfVariant(e, variant) {
        SumSnoc(VariantValues(exposures[..n], events + copies, p, spec, number, variant),
                IdentityValue(events + copies, p, spec, e, number));
        SumSnoc(VariantValues(exposures[..n], events, p, spec, number, variant),
                IdentityValue(events, p, spec, e, number));
      } else {
        assert forall xs: seq<real> :: xs + [] == xs;
      }
    }
  }

  lemma {:induction false} SameSize(exposures: seq<Exposure>, events: seq<Event>, p: Params, spec: MetricSpec,
                                    number: string -> real, variant: string, copies: seq<Event>)
    ensures |VariantValues(exposures, events + copies, p, spec, number, variant)| ==
            |VariantValues(exposures, events, p, spec, number, variant)|
  {
    if exposures != [] {
      SameSize(exposures[..|exposures| - 1], events, p, spec, number, variant, copies);
    }
  }

  lemma {:induction false} SameValues(exposures: seq<Exposure>, events: seq<Event>, p: Params, spec: MetricSpec,
                                      number: string -> real, variant: string, copies: seq<Event>)
    requires forall i :: 0 <= i < |exposures| && OfVariant(exposures[i], variant) ==>
               Delta(events, p, spec, exposures[i], number, copies) == 0.0
    ensures VariantValues(exposures, events + copies, p, spec, number, variant) ==
            VariantValues(exposures, events, p, spec, number, variant)
  {
    if exposures != [] {
      SameValues(exposures[..|exposures| - 1], events, p, spec, number, variant, copies);
    }
  }

  /** The values of the variant's identities all go the same way: none is lower, or none is higher. */
  ghost predicate OneWay(exposures: seq<Exposure>, events: seq<Event>, p: Params, spec: MetricSpec,
                         number: string -> real, variant: string, copies: seq<Event>)
  {
    || (forall i :: 0 <= i < |exposures| && OfVariant(exposures[i], variant) ==>
          Delta(events, p, spec, exposures[i], number, copies) >= 0.0)
    || (forall i :: 0 <= i < |exposures| && OfVariant(exposures[i], variant) ==>
          Delta(events, p, spec, exposures[i], number, copies) <= 0.0)
  }

  /** Changes that go the same way do not cancel out. */
  lemma {:induction false} NoCancelling(exposures: seq<Exposure>, events: seq<Event>, p: Params, spec: MetricSpec,
                                        number: string -> real, variant: string, copies: seq<Event>, up: bool)
    requires forall i :: 0 <= i < |exposures| && OfVariant(exposures[i], variant) ==>
               if up then Delta(events, p, spec, exposures[i], number, copies) >= 0.0
               else Delta(events, p, spec, exposures[i], number, copies) <= 0.0
    ensures var change := Change(exposures, events, p, spec, number, variant, copies);
            && (if up then change >= 0.0 else change <= 0.0)
            && (change == 0.0 ==> forall i :: 0 <= i < |exposures| && OfVariant(exposures[i], variant) ==>
                  Delta(events, p, spec, exposures[i], number, copies) == 0.0)
  {
    if exposures != [] {
      NoCancelling(exposures[..|exposures| - 1], events, p, spec, number, variant, copies, up);
      assert forall i :: 0 <= i < |exposures| - 1 ==> exposures[..|exposures| - 1][i] == exposures[i];
    }
  }

  /** No identity of the variant notices the copies. */
  ghost predicate Unnoticed(events: seq<Event>, p: Params, spec: MetricSpec, number: string -> real, variant: string,
                            copies: seq<Event>)
  {
    forall id :: InVariant(events, p, variant, id) ==>
      Neutral(events, p, spec, ExposureOf(events, p, id), number, copies)
  }

  lemma ExposureAt(events: seq<Event>, p: Params, id: string) returns (k: nat)
    requires Exposed(events, p, id)
    ensures k < |Exposures(events, p)| && Exposures(events, p)[k] == ExposureOf(events, p, id)
  {
    IdentifiersSpec(events, p);
    assert id in Identifiers(events, p);
    k :| k < |Identifiers(events, p)| && Identifiers(events, p)[k] == id;
  }

  lemma OfVariantIff(events: seq<Event>, p: Params, variant: string, i: nat)
    requires i < |Exposures(events, p)|
    ensures var e := Exposures(events, p)[i];
            && Exposed(events, p, e.identifier) && e == ExposureOf(events, p, e.identifier)
            && (OfVariant(e, variant) <==> InVariant(events, p, variant, e.identifier))
  {
    IdentifiersSpec(events, p);
    var id := Identifiers(events, p)[i];
    assert id in Identifiers(events, p);
    VariantIsOnlyValue(events, p, id, variant);
  }

  lemma UnnoticedIff(events: seq<Event>, p: Params, spec: MetricSpec, number: string -> real, variant: string,
                     copies: seq<Event>)
    requires CopiesOf(copies, events)
    ensures var exposures := Exposures(events, p);
            Unnoticed(events, p, spec, number, variant, copies) <==>
            forall i :: 0 <= i < |exposures| && OfVariant(exposures[i], variant) ==>
              Delta(events, p, spec, exposures[i], number, copies) == 0.0
  {
    var exposures := Exposures(events, p);
    forall i | 0 <= i < |exposures|
      ensures OfVariant(exposures[i], variant) <==> InVariant(events, p, variant, exposures[i].identifier)
      ensures exposures[i] == ExposureOf(events, p, exposures[i].identifier)
      ensures Delta(events, p, spec, exposures[i], number, copies) == 0.0 <==>
              Neutral(events, p, spec, exposures[i], number, copies)
    {
      OfVariantIff(events, p, variant, i);
      CopiesKeepValueIff(events, p, spec, exposures[i], number, copies);
    }
    forall id | InVariant(events, p, variant, id)
      ensures exists i :: 0 <= i < |exposures| && exposures[i] == ExposureOf(events, p, id)
    {
      var k := ExposureAt(events, p, id);
    }
  }

  // ----- What a redelivered object does -----

  /** The query after the copies, by its values. */
  lemma QueryAgain(events: seq<Event>, p: Params, specs: seq<MetricSpec>, number: string -> real, variant: string,
                   i: nat, copies: seq<Event>)
    requires i < |specs| && (specs[i].event != "" || p.windowStart > 0) && CopiesOf(copies, events)
    ensures QueryStats(events + copies, p, specs, number, variant, i) ==
            StatsOf(VariantValues(Exposures(events, p), events + copies, p, specs[i], number, variant))
  {
    QueryIsPerIdentity(events + copies, p, specs, number, variant, i);
    ExposuresKept(events, p, copies);
  }

  /**
    Copies of any rows: the number of identities stays, and the sum changes by the sum of the changes of
    the identities of the variant.
   */
  lemma CopiesChangeTotals(events: seq<Event>, p: Params, specs: seq<MetricSpec>, number: string -> real,
                           variant: string, i: nat, copies: seq<Event>)
    requires i < |specs| && (specs[i].event != "" || p.windowStart > 0) && CopiesOf(copies, events)
    ensures var before, after := QueryStats(events, p, specs, number, variant, i),
                                 QueryStats(events + copies, p, specs, number, variant, i);
            && after.n == before.n
            && after.sum == before.sum + Change(Exposures(events, p), events, p, specs[i], number, variant, copies)
  {
    QueryIsPerIdentity(events, p, specs, number, variant, i);
    QueryAgain(events, p, specs, number, variant, i, copies);
    SumChanges(Exposures(events, p), events, p, specs[i], number, variant, copies);
    SameSize(Exposures(events, p), events, p, specs[i], number, variant, copies);
  }

  /** Copies that no identity of the variant notices change no total. */
  lemma UnnoticedKeepsTotals(events: seq<Event>, p: Params, specs: seq<MetricSpec>, number: string -> real,
                             variant: string, i: nat, copies: seq<Event>)
    requires i < |specs| && (specs[i].event != "" || p.windowStart > 0) && CopiesOf(copies, events)
    requires Unnoticed(events, p, specs[i], number, variant, copies)
    ensures QueryStats(events + copies, p, specs, number, variant, i) ==
            QueryStats(events, p, specs, number, variant, i)
  {
    QueryIsPerIdentity(events, p, specs, number, variant, i);
    QueryAgain(events, p, specs, number, variant, i, copies);
    UnnoticedIff(events, p, specs[i], number, variant, copies);
    SameValues(Exposures(events, p), events, p, specs[i], number, variant, copies);
  }

  lemma OneWayIff(events: seq<Event>, p: Params, specs: seq<MetricSpec>, number: string -> real, variant: string,
                  i: nat, copies: seq<Event>)
    requires i < |specs| && (specs[i].event != "" || p.windowStart > 0) && CopiesOf(copies, events)
    requires OneWay(Exposures(events, p), events, p, specs[i], number, variant, copies)
    ensures QueryStats(events + copies, p, specs, number, variant, i) ==
            QueryStats(events, p, specs, number, variant, i) <==>
            Unnoticed(events, p, specs[i], number, variant, copies)
  {
    var exposures := Exposures(events, p);
    if Unnoticed(events, p, specs[i], number, variant, copies) {
      UnnoticedKeepsTotals(events, p, specs, number, variant, i, copies);
    } else {
      CopiesChangeTotals(events, p, specs, number, variant, i, copies);
      UnnoticedIff(events, p, specs[i], number, variant, copies);
      var up := forall k :: 0 <= k < |exposures| && OfVariant(exposures[k], variant) ==>
                  Delta(events, p, specs[i], exposures[k], number, copies) >= 0.0;
      NoCancelling(exposures, events, p, specs[i], number, variant, copies, up);
    }
  }

  /** All copies are of rows of one identity. */
  ghost predicate OfOneIdentity(copies: seq<Event>)
  {
    forall a, b :: a in copies && b in copies ==> a.identifier == b.identifier
  }

  ghost predicate NonNegative(copies: seq<Event>, number: string -> real)
  {
    forall m :: m in copies ==> number(m.value) >= 0.0
  }

  lemma {:induction false} NoneOfOthers(copies: seq<Event>, p: Params, spec: MetricSpec, e: Exposure,
                                        number: string -> real)
    requires forall m :: m in copies ==> m.identifier != e.identifier
    ensures AttributedValues(copies, p, spec, e, number) == []
  {
    if copies != [] {
      assert copies[|copies| - 1] in copies;
      NoneOfOthers(copies[..|copies| - 1], p, spec, e, number);
    }
  }

  lemma {:induction false} NonNegativeSum(copies: seq<Event>, p: Params, spec: MetricSpec, e: Exposure,
                                          number: string -> real)
    requires NonNegative(copies, number)
    ensures Sum(AttributedValues(copies, p, spec, e, number)) >= 0.0
  {
    if copies != [] {
      var n := |copies| - 1;
      assert copies[n] in copies;
      NonNegativeSum(copies[..n], p, spec, e, number);
      SumConcat(AttributedValues(copies[..n], p, spec, e, number),
                if Attributed(p, spec, e, copies[n]) then [number(copies[n].value)] else []);
      if Attributed(p, spec, e, copies[n]) {
        SumSnoc([], number(copies[n].value));
        assert [] + [number(copies[n].value)] == [number(copies[n].value)];
      }
    }
  }

  /** Occurrences, counts, and sums of numbers that are not negative only go up. */
  lemma GoesUp(events: seq<Event>, p: Params, spec: MetricSpec, e: Exposure, number: string -> real, copies: seq<Event>)
    requires CopiesOf(copies, events)
    requires spec.aggregation == Occurrence || spec.aggregation == Count ||
             (spec.aggregation == Total && NonNegative(copies, number))
    ensures Delta(events, p, spec, e, number, copies) >= 0.0
  {
    AttributedConcat(events, p, spec, e, number, copies);
    SumConcat(AttributedValues(events, p, spec, e, number), AttributedValues(copies, p, spec, e, number));
    if spec.aggregation == Total {
      NonNegativeSum(copies, p, spec, e, number);
    }
  }

  lemma OthersDoNotNotice(events: seq<Event>, p: Params, spec: MetricSpec, e: Exposure, number: string -> real,
                          copies: seq<Event>)
    requires CopiesOf(copies, events) && forall m :: m in copies ==> m.identifier != e.identifier
    ensures Delta(events, p, spec, e, number, copies) == 0.0
  {
    NoneOfOthers(copies, p, spec, e, number);
    CopiesKeepValueIff(events, p, spec, e, number, copies);
  }

  lemma OneIdentityGoesOneWay(events: seq<Event>, p: Params, spec: MetricSpec, number: string -> real, variant: string,
                              copies: seq<Event>)
    requires CopiesOf(copies, events) && OfOneIdentity(copies)
    ensures OneWay(Exposures(events, p), events, p, spec, number, variant, copies)
  {
    var exposures := Exposures(events, p);
    ExposuresAreOnePerIdentity(events, p);
    if k :| 0 <= k < |exposures| && Delta(events, p, spec, exposures[k], number, copies) != 0.0 {
      forall j | 0 <= j < |exposures| && j != k ensures Delta(events, p, spec, exposures[j], number, copies) == 0.0 {
        if exists m :: m in copies && m.identifier == exposures[j].identifier {
          OthersDoNotNotice(events, p, spec, exposures[k], number, copies);
        } else {
          OthersDoNotNotice(events, p, spec, exposures[j], number, copies);
        }
      }
    }
  }

  /** Where changes of different identities cannot cancel out. */
  ghost predicate CannotCancel(spec: MetricSpec, number: string -> real, copies: seq<Event>)
  {
    || OfOneIdentity(copies) || spec.aggregation == Occurrence || spec.aggregation == Count
    || (spec.aggregation == Total && NonNegative(copies, number))
  }

  /**
    Copies of any rows leave a variant's totals as they are exactly if no identity of the variant notices
    them: occurrences never do, counts always do, sums if the copied numbers do not sum to 0, means if
    the mean of the copied numbers is another. This holds wherever changes cannot cancel out.
   */
  lemma CopiesKeepTotalsIff(events: seq<Event>, p: Params, specs: seq<MetricSpec>, number: string -> real,
                            variant: string, i: nat, copies: seq<Event>)
    requires i < |specs| && (specs[i].event != "" || p.windowStart > 0) && CopiesOf(copies, events)
    requires CannotCancel(specs[i], number, copies)
    ensures QueryStats(events + copies, p, specs, number, variant, i) ==
            QueryStats(events, p, specs, number, variant, i) <==>
            Unnoticed(events, p, specs[i], number, variant, copies)
  {
    var exposures := Exposures(events, p);
    if OfOneIdentity(copies) {
      OneIdentityGoesOneWay(events, p, specs[i], number, variant, copies);
    } else {
      forall k | 0 <= k < |exposures| ensures Delta(events, p, specs[i], exposures[k], number, copies) >= 0.0 {
        GoesUp(events, p, specs[i], exposures[k], number, copies);
      }
    }
    OneWayIff(events, p, specs, number, variant, i, copies);
  }

  /** A copied row that counts for an identity of the variant. */
  ghost predicate CountsFor(events: seq<Event>, p: Params, spec: MetricSpec, variant: string, m: Event)
  {
    InVariant(events, p, variant, m.identifier) && Attributed(p, spec, ExposureOf(events, p, m.identifier), m)
  }

  /** A count metric is unchanged exactly if no copied row counts for an identity of the variant. */
  lemma CountsAreKeptIff(events: seq<Event>, p: Params, specs: seq<MetricSpec>, number: string -> real, variant: string,
                         i: nat, copies: seq<Event>)
    requires i < |specs| && (specs[i].event != "" || p.windowStart > 0) && CopiesOf(copies, events)
    requires specs[i].aggregation == Count
    ensures QueryStats(events + copies, p, specs, number, variant, i) ==
            QueryStats(events, p, specs, number, variant, i) <==>
            forall m :: m in copies ==> !CountsFor(events, p, specs[i], variant, m)
  {
    CopiesKeepTotalsIff(events, p, specs, number, variant, i, copies);
    forall id | InVariant(events, p, variant, id)
      ensures AttributedValues(copies, p, specs[i], ExposureOf(events, p, id), number) != [] <==>
              exists m :: m in copies && m.identifier == id && CountsFor(events, p, specs[i], variant, m)
    {
      AttributedValuesSpec(copies, p, specs[i], ExposureOf(events, p, id), number);
      forall m ensures m in Rows(copies) <==> m in copies { InRows(copies, m); }
    }
  }

  // ----- Inputs -----

  const PARAMS := Params("env", "exposure", "feature", 1, 10)

  function ExposureRow(user: string): Event
  {
    Event("env", "exposure", "feature", user, "treatment", 1)
  }

  function ExposedUser(user: string): Exposure
  {
    Exposure(user, "treatment", false, Some(1))
  }

  function Purchase(user: string, value: string, timestamp: int): Event
  {
    Event("env", "purchase", "feature", user, value, timestamp)
  }

  lemma AttributedSnoc(events: seq<Event>, p: Params, spec: MetricSpec, e: Exposure, number: string -> real, m: Event)
    ensures AttributedValues(events + [m], p, spec, e, number) ==
            AttributedValues(events, p, spec, e, number) + (if Attributed(p, spec, e, m) then [number(m.value)] else [])
  {
    assert (events + [m])[..|events|] == events;
  }

  /** One user with two purchases. */
  function Purchases(): seq<Event>
  {
    [ExposureRow("a"), Purchase("a", "3", 2), Purchase("a", "5", 3)]
  }

  function Metrics(): seq<MetricSpec>
  {
    [MetricSpec(1, "purchase", Count, false), MetricSpec(2, "purchase", Total, false),
     MetricSpec(3, "purchase", Average, false)]
  }

  /** The only exposure of a user is the first row of the table that exposes anyone to anything. */
  lemma {:induction false} OneExposure(events: seq<Event>, user: string)
    requires ExposureRow(user) in events
    requires forall m :: m in events && Exposes(PARAMS, m, user) ==> m == ExposureRow(user)
    ensures InVariant(events, PARAMS, "treatment", user) && ExposureOf(events, PARAMS, user) == ExposedUser(user)
  {
    var i :| 0 <= i < |events| && events[i] == ExposureRow(user);
    assert Exposes(PARAMS, events[i], user);
    assert Values(events, PARAMS, user) == {"treatment"};
    VariantIsOnlyValue(events, PARAMS, user, "treatment");
    FirstExposureSpec(events, PARAMS, user);
    assert events[i] in Rows(events);
    assert forall m :: m in Rows(events) ==> m in events;
  }

  lemma UserAverage(number: string -> real, spec: MetricSpec)
    requires number("3") == 3.0 && number("5") == 5.0 && spec == MetricSpec(3, "purchase", Average, false)
    ensures IdentityValue(Purchases(), PARAMS, spec, ExposedUser("a"), number) == 4.0
  {
    var events, e := Purchases(), ExposedUser("a");
    AttributedSnoc([], PARAMS, spec, e, number, events[0]);
    AttributedSnoc([events[0]], PARAMS, spec, e, number, events[1]);
    AttributedSnoc([events[0], events[1]], PARAMS, spec, e, number, events[2]);
    assert events == [events[0], events[1]] + [events[2]] && [events[0], events[1]] == [events[0]] + [events[1]];
    var values := AttributedValues(events, PARAMS, spec, e, number);
    assert [] + [events[0]] == [events[0]];
    assert values == [3.0, 5.0] && values[..1] == [3.0] && values[..1][..0] == [];
    assert Sum(values[..1]) == 3.0;
  }

  lemma OneSum(x: real)
    ensures Sum([x]) == x
  {
    SumSnoc([], x);
    assert [] + [x] == [x];
  }

  lemma CopiedPurchase(number: string -> real, spec: MetricSpec)
    requires number("5") == 5.0 && spec.event == "purchase"
    ensures AttributedValues([Purchase("a", "5", 3)], PARAMS, spec, ExposedUser("a"), number) == [5.0]
    ensures Sum([5.0]) == 5.0 && Mean(StatsOf([5.0])) == 5.0
  {
    AttributedSnoc([], PARAMS, spec, ExposedUser("a"), number, Purchase("a", "5", 3));
    assert [] + [Purchase("a", "5", 3)] == [Purchase("a", "5", 3)];
    OneSum(5.0);
  }

  lemma CopyIsNoticed(number: string -> real, i: nat, copies: seq<Event>)
    requires number("3") == 3.0 && number("5") == 5.0 && i < 3 && copies == [Purchase("a", "5", 3)]
    ensures !Neutral(Purchases(), PARAMS, Metrics()[i], ExposedUser("a"), number, copies)
  {
    UserAverage(number, Metrics()[2]);
    CopiedPurchase(number, Metrics()[i]);
  }

  /** One more copy of one purchase changes the count, the sum and the mean. */
  lemma CopyCanChangeTotals(number: string -> real, i: nat, copies: seq<Event>)
    requires number("3") == 3.0 && number("5") == 5.0 && i < 3 && copies == [Purchase("a", "5", 3)]
    ensures CopiesOf(copies, Purchases())
    ensures QueryStats(Purchases() + copies, PARAMS, Metrics(), number, "treatment", i) !=
            QueryStats(Purchases(), PARAMS, Metrics(), number, "treatment", i)
  {
    InRows(Purchases(), Purchase("a", "5", 3));
    assert Purchases()[2] == Purchase("a", "5", 3);
    OneExposure(Purchases(), "a");
    CopyIsNoticed(number, i, copies);
    CopiesKeepTotalsIff(Purchases(), PARAMS, Metrics(), number, "treatment", i, copies);
  }

  /** Two users, with purchases for 1 and for 3 - 1. */
  function TwoUsers(): seq<Event>
  {
    [ExposureRow("a"), ExposureRow("b"), Purchase("a", "1", 2), Purchase("b", "3", 2), Purchase("b", "-1", 3)]
  }

  function TwoCopies(): seq<Event>
  {
    [Purchase("a", "1", 2), Purchase("b", "-1", 3)]
  }

  const SUM_METRIC := MetricSpec(1, "purchase", Total, false)

  lemma IdentifiersAre()
    ensures Identifiers(TwoUsers(), PARAMS) == ["a", "b"]
  {
    var events := TwoUsers();
    assert events[..4][..3] == events[..3] && events[..3][..2] == events[..2];
    assert events[..2][..1] == events[..1] && events[..1][..0] == [];
    assert Identifiers(events[..1], PARAMS) == ["a"];
    assert Identifiers(events[..2], PARAMS) == ["a", "b"];
    assert Identifiers(events[..3], PARAMS) == ["a", "b"];
    assert Identifiers(events[..4], PARAMS) == ["a", "b"];
  }

  lemma UsersAre()
    ensures Exposures(TwoUsers(), PARAMS) == [ExposedUser("a"), ExposedUser("b")]
  {
    IdentifiersAre();
    OneExposure(TwoUsers(), "a");
    OneExposure(TwoUsers(), "b");
  }

  /** The sum of a user's purchases, before the copies and of the copies. */
  lemma UserSums(number: string -> real, user: string)
    requires number("1") == 1.0 && number("3") == 3.0 && number("-1") == -1.0 && user in {"a", "b"}
    ensures Sum(AttributedValues(TwoUsers(), PARAMS, SUM_METRIC, ExposedUser(user), number)) ==
            (if user == "a" then 1.0 else 2.0)
    ensures Sum(AttributedValues(TwoCopies(), PARAMS, SUM_METRIC, ExposedUser(user), number)) ==
            (if user == "a" then 1.0 else -1.0)
  {
    var events, copies, e := TwoUsers(), TwoCopies(), ExposedUser(user);
    assert events[..4][..3] == events[..3] && events[..3][..2] == events[..2];
    assert events[..2][..1] == events[..1] && events[..1][..0] == [] && copies[..1][..0] == [];
    assert AttributedValues(events[..1], PARAMS, SUM_METRIC, e, number) == [];
    assert AttributedValues(events[..2], PARAMS, SUM_METRIC, e, number) == [];
    var third := AttributedValues(events[..3], PARAMS, SUM_METRIC, e, number);
    assert third == if user == "a" then [1.0] else [];
    var fourth := AttributedValues(events[..4], PARAMS, SUM_METRIC, e, number);
    assert fourth == if user == "a" then [1.0] else [3.0];
    var all := AttributedValues(events, PARAMS, SUM_METRIC, e, number);
    assert all == if user == "a" then [1.0] else [3.0, -1.0];
    assert AttributedValues(copies[..1], PARAMS, SUM_METRIC, e, number) == if user == "a" then [1.0] else [];
    assert AttributedValues(copies, PARAMS, SUM_METRIC, e, number) == if user == "a" then [1.0] else [-1.0];
    OneSum(1.0);
    OneSum(-1.0);
    SumSnoc([3.0], -1.0);
    OneSum(3.0);
    assert [3.0] + [-1.0] == [3.0, -1.0];
  }

  /** Each user's sum before and after. */
  lemma UserValues(number: string -> real, user: string)
    requires number("1") == 1.0 && number("3") == 3.0 && number("-1") == -1.0 && user in {"a", "b"}
    ensures IdentityValue(TwoUsers(), PARAMS, SUM_METRIC, ExposedUser(user), number) ==
            (if user == "a" then 1.0 else 2.0)
    ensures IdentityValue(TwoUsers() + TwoCopies(), PARAMS, SUM_METRIC, ExposedUser(user), number) ==
            (if user == "a" then 2.0 else 1.0)
  {
    UserSums(number, user);
    AttributedConcat(TwoUsers(), PARAMS, SUM_METRIC, ExposedUser(user), number, TwoCopies());
    SumConcat(AttributedValues(TwoUsers(), PARAMS, SUM_METRIC, ExposedUser(user), number),
              AttributedValues(TwoCopies(), PARAMS, SUM_METRIC, ExposedUser(user), number));
  }

  lemma PairValues(events: seq<Event>, number: string -> real, x: real, y: real)
    requires IdentityValue(events, PARAMS, SUM_METRIC, ExposedUser("a"), number) == x
    requires IdentityValue(events, PARAMS, SUM_METRIC, ExposedUser("b"), number) == y
    ensures VariantValues([ExposedUser("a"), ExposedUser("b")], events, PARAMS, SUM_METRIC, number, "treatment") ==
            [x, y]
  {
    var users := [ExposedUser("a"), ExposedUser("b")];
    assert users[..1] == [ExposedUser("a")] && users[..1][..0] == [];
    assert VariantValues(users[..1], events, PARAMS, SUM_METRIC, number, "treatment") == [x];
  }

  /** The totals of two values do not depend on their order. */
  lemma PairTotals(x: real, y: real)
    ensures StatsOf([x, y]) == StatsOf([y, x])
  {
    var xy, yx, just, only := [x, y], [y, x], [x], [y];
    assert xy[..1] == just && yx[..1] == only && just[..0] == [] && only[..0] == [];
    assert Sum(just) == x && Sum(only) == y && SumSquares(just) == Square(x) && SumSquares(only) == Square(y);
  }

  lemma AreCopies()
    ensures CopiesOf(TwoCopies(), TwoUsers())
  {
    var events := TwoUsers();
    InRows(events, events[2]);
    InRows(events, events[4]);
    assert forall m :: m in TwoCopies() ==> m == events[2] || m == events[4];
  }

  lemma SwappedTotals(number: string -> real)
    requires number("1") == 1.0 && number("3") == 3.0 && number("-1") == -1.0
    ensures var users := [ExposedUser("a"), ExposedUser("b")];
            StatsOf(VariantValues(users, TwoUsers() + TwoCopies(), PARAMS, SUM_METRIC, number, "treatment")) ==
            StatsOf(VariantValues(users, TwoUsers(), PARAMS, SUM_METRIC, number, "treatment"))
  {
    UserValues(number, "a");
    UserValues(number, "b");
    PairValues(TwoUsers(), number, 1.0, 2.0);
    PairValues(TwoUsers() + TwoCopies(), number, 2.0, 1.0);
    PairTotals(1.0, 2.0);
  }

  lemma UserNotices(number: string -> real)
    requires number("1") == 1.0 && number("3") == 3.0 && number("-1") == -1.0
    ensures !Unnoticed(TwoUsers(), PARAMS, SUM_METRIC, number, "treatment", TwoCopies())
  {
    AreCopies();
    OneExposure(TwoUsers(), "a");
    UserValues(number, "a");
    CopiesKeepValueIff(TwoUsers(), PARAMS, SUM_METRIC, ExposedUser("a"), number, TwoCopies());
  }

  /** Where numbers may be negative, changes of two identities can cancel out: here their sums swap. */
  lemma ChangesCanCancel(number: string -> real)
    requires number("1") == 1.0 && number("3") == 3.0 && number("-1") == -1.0
    ensures CopiesOf(TwoCopies(), TwoUsers())
    ensures QueryStats(TwoUsers() + TwoCopies(), PARAMS, [SUM_METRIC], number, "treatment", 0) ==
            QueryStats(TwoUsers(), PARAMS, [SUM_METRIC], number, "treatment", 0)
    ensures !Unnoticed(TwoUsers(), PARAMS, SUM_METRIC, number, "treatment", TwoCopies())
  {
    AreCopies();
    UsersAre();
    SwappedTotals(number);
    UserNotices(number);
    QueryIsPerIdentity(TwoUsers(), PARAMS, [SUM_METRIC], number, "treatment", 0);
    QueryAgain(TwoUsers(), PARAMS, [SUM_METRIC], number, "treatment", 0, TwoCopies());
  }
}
