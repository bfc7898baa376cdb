/**
  The results query from the columns of the rows alone: who is in a variant, which rows count for a
  metric, and the totals as sums over rows.
 */
module RowTotals {
  import opened Options
  import opened ResultsQuery
  import opened ExposureCounts
  import opened Statistics

  // ----- Who is in a variant -----

  /**
    An identity is in a variant exactly if some row of the environment, with the exposure event, for the
    feature and in the window, shows it the variant, and none shows it anything else.
   */
  lemma VariantIff(events: seq<Event>, p: Params, variant: string, id: string)
    ensures InVariant(events, p, variant, id) <==>
            && (exists m :: m in events && m.identifier == id && m.environment == p.environment
                  && m.event == p.exposureEvent && m.feature == p.feature
                  && p.windowStart <= m.timestamp < p.windowEnd && m.value == variant)
            && (forall m :: m in events && m.identifier == id && m.environment == p.environment
                              && m.event == p.exposureEvent && m.feature == p.feature
                              && p.windowStart <= m.timestamp < p.windowEnd ==>
                  m.value == variant)
  {
    var values := Values(events, p, id);
    forall m | m in events && m.identifier == id && m.environment == p.environment && m.event == p.exposureEvent
               && m.feature == p.feature && p.windowStart <= m.timestamp < p.windowEnd
      ensures m.value in values
    {
      var i :| 0 <= i < |events| && events[i] == m;
      assert Exposes(p, events[i], id);
    }
    forall v | v in values
      ensures exists m :: m in events && m.identifier == id && m.environment == p.environment
                && m.event == p.exposureEvent && m.feature == p.feature
                && p.windowStart <= m.timestamp < p.windowEnd && m.value == v
    {
      var i :| 0 <= i < |events| && Exposes(p, events[i], id) && events[i].value == v;
      assert events[i] in events;
    }
    if values == {variant} {
      assert variant in values;
    }
  }

  /** The n of a variant is the number of those identities. */
  lemma SizeIsNumberOfIdentities(events: seq<Event>, p: Params, specs: seq<MetricSpec>, number: string -> real,
                                 variant: string, i: nat, ids: set<string>)
    requires i < |specs| && (specs[i].event != "" || p.windowStart > 0)
    requires forall id :: id in ids <==> InVariant(events, p, variant, id)
    ensures QueryStats(events, p, specs, number, variant, i).n == |ids|
  {
    SizeIsCardinality(events, p, specs, number, variant, i);
    forall id ensures id in ids <==> id in IdsOf(Exposures(events, p), variant) {
      MembersOfVariant(events, p, specs[i], variant, id);
    }
    assert ids == IdsOf(Exposures(events, p), variant);
  }

  // ----- Which rows count -----

  /** The first row that exposes an identity is the earliest. */
  lemma AfterFirstIff(events: seq<Event>, p: Params, id: string, at: int)
    ensures (FirstExposure(events, p, id).Some? && at >= FirstExposure(events, p, id).value) <==>
            exists x :: x in events && x.identifier == id && x.environment == p.environment
              && x.event == p.exposureEvent && x.feature == p.feature
              && p.windowStart <= x.timestamp < p.windowEnd && x.timestamp <= at
  {
    FirstExposureSpec(events, p, id);
    assert forall m :: m in Rows(events) <==> m in events;
    if FirstExposure(events, p, id).Some? && at >= FirstExposure(events, p, id).value {
      var m :| m in Rows(events) && Exposes(p, m, id) && m.timestamp == FirstExposure(events, p, id).value;
    }
    if x :| x in events && x.identifier == id && x.environment == p.environment && x.event == p.exposureEvent
            && x.feature == p.feature && p.windowStart <= x.timestamp < p.windowEnd && x.timestamp <= at {
      assert Exposes(p, x, id) && x in Rows(events);
    }
  }

  /**
    A row counts for a metric exactly if it has the metric's event, in the environment and the window, is
    of an identity of the variant, and some row had exposed that identity by its time.
   */
  lemma CountsIff(events: seq<Event>, p: Params, spec: MetricSpec, variant: string, m: Event)
    ensures InVariant(events, p, variant, m.identifier)
            && Attributed(p, spec, ExposureOf(events, p, m.identifier), m) <==>
            && InVariant(events, p, variant, m.identifier)
            && m.environment == p.environment && m.event == spec.event && p.windowStart <= m.timestamp < p.windowEnd
            && exists x :: x in events && x.identifier == m.identifier && x.environment == p.environment
                 && x.event == p.exposureEvent && x.feature == p.feature
                 && p.windowStart <= x.timestamp < p.windowEnd && x.timestamp <= m.timestamp
  {
    AfterFirstIff(events, p, m.identifier, m.timestamp);
  }

  // ----- Totals as sums over rows -----

  /** A sum over the rows that count. */
  ghost function SumOver(rows: seq<Event>, counts: Event -> bool, value: Event -> real): real
  {
    if rows == [] then 0.0
    else
      var last := rows[|rows| - 1];
      SumOver(rows[..|rows| - 1], counts, value) + (if counts(last) then value(last) else 0.0)
  }

  lemma {:induction false} SumOverSplits(rows: seq<Event>, a: Event -> bool, b: Event -> bool, c: Event -> bool,
                                         value: Event -> real)
    requires forall m :: c(m) <==> a(m) || b(m)
    requires forall m :: !(a(m) && b(m))
    ensures SumOver(rows, c, value) == SumOver(rows, a, value) + SumOver(rows, b, value)
  {
    if rows != [] {
      SumOverSplits(rows[..|rows| - 1], a, b, c, value);
    }
  }

  /** What one row adds to the value of an identity: one to a count, its number to a sum. */
  function Weight(aggregation: Aggregation, number: string -> real): Event -> real
  {
    (m: Event) => if aggregation == Count then 1.0 else number(m.value)
  }

  lemma {:induction false} ValueIsSumOver(events: seq<Event>, p: Params, spec: MetricSpec, e: Exposure,
                                          number: string -> real, counts: Event -> bool)
    requires spec.aggregation == Count || spec.aggregation == Total
    requires forall m :: counts(m) <==> Attributed(p, spec, e, m)
    ensures IdentityValue(events, p, spec, e, number) == SumOver(events, counts, Weight(spec.aggregation, number))
  {
    if events != [] {
      var n := |events| - 1;
      ValueIsSumOver(events[..n], p, spec, e, number, counts);
      var before := AttributedValues(events[..n], p, spec, e, number);
      assert (before + [number(events[n].value)])[..|before|] == before && before + [] == before;
    }
  }

  /** The row counts for one of the exposures of the variant. */
  ghost predicate CountsForOne(exposures: seq<Exposure>, p: Params, spec: MetricSpec, variant: string, m: Event)
  {
    exists i :: 0 <= i < |exposures| && OfVariant(exposures[i], variant) && Attributed(p, spec, exposures[i], m)
  }

  lemma {:induction false} NoRowCounts(rows: seq<Event>, counts: Event -> bool, value: Event -> real)
    requires forall m :: !counts(m)
    ensures SumOver(rows, counts, value) == 0.0
  {
    if rows != [] {
      NoRowCounts(rows[..|rows| - 1], counts, value);
    }
  }

  lemma CountsForLast(exposures: seq<Exposure>, p: Params, spec: MetricSpec, variant: string, m: Event)
    requires OnePerIdentity(exposures) && exposures != []
    ensures var n := |exposures| - 1;
            var last := OfVariant(exposures[n], variant) && Attributed(p, spec, exposures[n], m);
            && (CountsForOne(exposures, p, spec, variant, m) <==>
                  CountsForOne(exposures[..n], p, spec, variant, m) || last)
            && !(CountsForOne(exposures[..n], p, spec, variant, m) && last)
  {
    var n := |exposures| - 1;
    assert forall i :: 0 <= i < n ==> exposures[..n][i] == exposures[i];
  }

  /** One exposure's share. */
  lemma ShareOfOne(e: Exposure, events: seq<Event>, p: Params, spec: MetricSpec, number: string -> real,
                   variant: string, counts: Event -> bool)
    requires spec.aggregation == Count || spec.aggregation == Total
    requires forall m :: counts(m) <==> OfVariant(e, variant) && Attributed(p, spec, e, m)
    ensures SumOver(events, counts, Weight(spec.aggregation, number)) ==
            if OfVariant(e, variant) then IdentityValue(events, p, spec, e, number) else 0.0
  {
    if OfVariant(e, variant) {
      ValueIsSumOver(events, p, spec, e, number, counts);
    } else {
      NoRowCounts(events, counts, Weight(spec.aggregation, number));
    }
  }

  lemma AddLast(exposures: seq<Exposure>, events: seq<Event>, p: Params, spec: MetricSpec, number: string -> real,
                variant: string, before: seq<real>, value: real)
    requires exposures != []
    requires before == VariantValues(exposures[..|exposures| - 1], events, p, spec, number, variant)
    requires value == IdentityValue(events, p, spec, exposures[|exposures| - 1], number)
    ensures Sum(VariantValues(exposures, events, p, spec, number, variant)) ==
            Sum(before) + (if OfVariant(exposures[|exposures| - 1], variant) then value else 0.0)
  {
    assert (before + [value])[..|before|] == before && before + [] == before;
  }

  lemma {:induction false} VariantSumIsSumOver(exposures: seq<Exposure>, events: seq<Event>, p: Params,
                                               spec: MetricSpec, number: string -> real, variant: string,
                                               counts: Event -> bool)
    requires OnePerIdentity(exposures) && (spec.aggregation == Count || spec.aggregation == Total)
    requires forall m :: counts(m) <==> CountsForOne(exposures, p, spec, variant, m)
    ensures Sum(VariantValues(exposures, events, p, spec, number, variant)) ==
            SumOver(events, counts, Weight(spec.aggregation, number))
  {
    if exposures == [] {
      NoRowCounts(events, counts, Weight(spec.aggregation, number));
    } else {
      var n := |exposures| - 1;
      var e, weight := exposures[n], Weight(spec.aggregation, number);
      ghost var before: Event -> bool := m => CountsForOne(exposures[..n], p, spec, variant, m);
      ghost var last: Event -> bool := m => OfVariant(e, variant) && Attributed(p, spec, e, m);
      forall m
        ensures counts(m) <==> before(m) || last(m)
        ensures !(before(m) && last(m))
      {
        CountsForLast(exposures, p, spec, variant, m);
      }
      VariantSumIsSumOver(exposures[..n], events, p, spec, number, variant, before);
      SumOverSplits(events, before, last, counts, weight);
      ShareOfOne(e, events, p, spec, number, variant, last);
      AddLast(exposures, events, p, spec, number, variant,
              VariantValues(exposures[..n], events, p, spec, number, variant),
              IdentityValue(events, p, spec, e, number));
    }
  }

  lemma CountsForOneIff(events: seq<Event>, p: Params, spec: MetricSpec, variant: string, m: Event)
    ensures CountsForOne(Exposures(events, p), p, spec, variant, m) <==>
            InVariant(events, p, variant, m.identifier) && Attributed(p, spec, ExposureOf(events, p, m.identifier), m)
  {
    var ids, exposures := Identifiers(events, p), Exposures(events, p);
    IdentifiersSpec(events, p);
    if i :| 0 <= i < |exposures| && OfVariant(exposures[i], variant) && Attributed(p, spec, exposures[i], m) {
      assert ids[i] in ids;
      VariantIsOnlyValue(events, p, ids[i], variant);
    }
    if InVariant(events, p, variant, m.identifier) && Attributed(p, spec, ExposureOf(events, p, m.identifier), m) {
      assert m.identifier in ids;
      var j :| 0 <= j < |ids| && ids[j] == m.identifier;
      VariantIsOnlyValue(events, p, ids[j], variant);
      assert exposures[j] == ExposureOf(events, p, ids[j]);
    }
  }

  lemma {:induction false} SameWeights(rows: seq<Event>, counts: Event -> bool, a: Event -> real, b: Event -> real)
    requires forall m :: a(m) == b(m)
    ensures SumOver(rows, counts, a) == SumOver(rows, counts, b)
  {
    if rows != [] {
      SameWeights(rows[..|rows| - 1], counts, a, b);
    }
  }

  /**
    The sum of a count metric is the number of rows that count for the variant, and the sum of a sum
    metric is the sum of their numbers: every such row once, whoever's it is.
   */
  lemma TotalsAreRowSums(events: seq<Event>, p: Params, specs: seq<MetricSpec>, number: string -> real, variant: string,
                         i: nat, counts: Event -> bool)
    requires i < |specs| && (specs[i].event != "" || p.windowStart > 0)
    requires specs[i].aggregation == Count || specs[i].aggregation == Total
    requires forall m :: counts(m) <==>
               && InVariant(events, p, variant, m.identifier)
               && m.environment == p.environment && m.event == specs[i].event
               && p.windowStart <= m.timestamp < p.windowEnd
               && exists x :: x in events && x.identifier == m.identifier && x.environment == p.environment
                    && x.event == p.exposureEvent && x.feature == p.feature
                    && p.windowStart <= x.timestamp < p.windowEnd && x.timestamp <= m.timestamp
    ensures QueryStats(events, p, specs, number, variant, i).sum ==
            SumOver(events, counts, (m: Event) => if specs[i].aggregation == Count then 1.0 else number(m.value))
  {
    ExposuresAreOnePerIdentity(events, p);
    QueryIsPerIdentity(events, p, specs, number, variant, i);
    forall m ensures counts(m) <==> CountsForOne(Exposures(events, p), p, specs[i], variant, m) {
      CountsIff(events, p, specs[i], variant, m);
      CountsForOneIff(events, p, specs[i], variant, m);
    }
    VariantSumIsSumOver(Exposures(events, p), events, p, specs[i], number, variant, counts);
    SameWeights(events, counts, Weight(specs[i].aggregation, number),
                (m: Event) => if specs[i].aggregation == Count then 1.0 else number(m.value));
  }

  // ----- Which rows do not matter -----

  lemma SameValues(events: seq<Event>, p: Params, x: Event, id: string)
    requires !IsExposure(p, x)
    ensures Values(events + [x], p, id) == Values(events, p, id)
    ensures FirstExposure(events + [x], p, id) == FirstExposure(events, p, id)
  {
    var again := events + [x];
    assert again[..|events|] == events;
    assert forall i :: 0 <= i < |events| ==> again[i] == events[i];
  }

  /** A row that exposes nobody, by one of its columns. */
  lemma OtherRowsExposeNobody(events: seq<Event>, p: Params, x: Event)
    requires x.environment != p.environment || x.event != p.exposureEvent || x.feature != p.feature
             || x.timestamp < p.windowStart || x.timestamp >= p.windowEnd
    ensures Exposures(events + [x], p) == Exposures(events, p)
  {
    var again := events + [x];
    assert again[..|events|] == events;
    IdentifiersSpec(events, p);
    forall id ensures Exposed(events, p, id) ==> ExposureOf(again, p, id) == ExposureOf(events, p, id) {
      if Exposed(events, p, id) {
        assert Exposed(again, p, id) by {
          var i :| 0 <= i < |events| && Exposes(p, events[i], id);
          assert Exposes(p, again[i], id);
        }
        SameValues(events, p, x, id);
        AnyValueSpec(events, p, id);
        AnyValueSpec(again, p, id);
        SingletonSet(Values(events, p, id), AnyValue(events, p, id));
      }
    }
    var ids := Identifiers(events, p);
    assert Identifiers(again, p) == ids;
    forall i | 0 <= i < |ids| ensures ExposureOf(again, p, ids[i]) == ExposureOf(events, p, ids[i]) {
      assert ids[i] in ids;
    }
  }

  lemma {:induction false} OtherRowsCountNothing(exposures: seq<Exposure>, events: seq<Event>, p: Params,
                                                 spec: MetricSpec, number: string -> real, variant: string, x: Event)
    requires x.environment != p.environment || x.event != spec.event
             || x.timestamp < p.windowStart || x.timestamp >= p.windowEnd
    ensures VariantValues(exposures, events + [x], p, spec, number, variant) ==
            VariantValues(exposures, events, p, spec, number, variant)
  {
    if exposures != [] {
      OtherRowsCountNothing(exposures[..|exposures| - 1], events, p, spec, number, variant, x);
      var e := exposures[|exposures| - 1];
      assert (events + [x])[..|events|] == events;
      assert AttributedValues(events + [x], p, spec, e, number) == AttributedValues(events, p, spec, e, number);
    }
  }

  /**
    A row that fails one of the conditions on exposures and one of those on the metric's events, by its
    columns, changes no statistic.
   */
  lemma OtherRowsDoNotMatter(events: seq<Event>, p: Params, specs: seq<MetricSpec>, number: string -> real,
                             variant: string, i: nat, x: Event)
    requires i < |specs| && (specs[i].event != "" || p.windowStart > 0)
    requires x.environment != p.environment || x.event != p.exposureEvent || x.feature != p.feature
             || x.timestamp < p.windowStart || x.timestamp >= p.windowEnd
    requires x.environment != p.environment || x.event != specs[i].event
             || x.timestamp < p.windowStart || x.timestamp >= p.windowEnd
    ensures QueryStats(events + [x], p, specs, number, variant, i) == QueryStats(events, p, specs, number, variant, i)
  {
    QueryIsPerIdentity(events, p, specs, number, variant, i);
    QueryIsPerIdentity(events + [x], p, specs, number, variant, i);
    OtherRowsExposeNobody(events, p, x);
    OtherRowsCountNothing(Exposures(events, p), events, p, specs[i], number, variant, x);
  }
}
