/**
  Who is exposed to what, as sets of identities: what at-least-once delivery cannot change, and what
  it can.
 */
module ExposureCounts {
  import opened Options
  import opened ResultsQuery
  import opened Statistics

  // ----- An identity's exposure, whatever the order of the rows -----

  lemma {:induction false} AnyValueSpec(events: seq<Event>, p: Params, id: string)
    requires Exposed(events, p, id)
    ensures AnyValue(events, p, id) in Values(events, p, id)
  {
    if !Exposes(p, events[0], id) {
      var i :| 0 <= i < |events| && Exposes(p, events[i], id);
      assert events[1..][i - 1] == events[i];
      AnyValueSpec(events[1..], p, id);
      assert forall j :: 0 <= j < |events| - 1 ==> events[1..][j] == events[j + 1];
    }
  }

  lemma SingletonSet<T>(s: set<T>, x: T)
    requires x in s
    ensures |s| <= 1 <==> s == {x}
  {
    var rest := s - {x};
    assert |s| == |rest| + 1;
    if |s| <= 1 {
      assert rest == {};
    }
  }

  /** An identity counts for a variant exactly if that is the only value it was ever exposed to. */
  lemma VariantIsOnlyValue(events: seq<Event>, p: Params, id: string, variant: string)
    requires Exposed(events, p, id)
    ensures var e := ExposureOf(events, p, id);
            !e.quarantined && e.variant == variant <==> Values(events, p, id) == {variant}
  {
    AnyValueSpec(events, p, id);
    SingletonSet(Values(events, p, id), AnyValue(events, p, id));
  }

  /** The rows of a table, whatever their order and however many copies there are of each. */
  ghost function Rows(events: seq<Event>): set<Event>
  {
    set i | 0 <= i < |events| :: events[i]
  }

  ghost predicate IsFirst(rows: set<Event>, p: Params, id: string, first: Option<int>)
  {
    && (first.Some? ==> exists m :: m in rows && Exposes(p, m, id) && m.timestamp == first.value)
    && (forall m :: m in rows && Exposes(p, m, id) ==> first.Some? && first.value <= m.timestamp)
  }

  lemma RowsSnoc(events: seq<Event>)
    requires events != []
    ensures Rows(events) == Rows(events[..|events| - 1]) + {events[|events| - 1]}
  {
  }

  lemma {:induction false} FirstExposureSpec(events: seq<Event>, p: Params, id: string)
    ensures IsFirst(Rows(events), p, id, FirstExposure(events, p, id))
  {
    if events != [] {
      FirstExposureSpec(events[..|events| - 1], p, id);
      RowsSnoc(events);
    }
  }

  lemma FirstIsUnique(rows: set<Event>, p: Params, id: string, a: Option<int>, b: Option<int>)
    requires IsFirst(rows, p, id, a) && IsFirst(rows, p, id, b)
    ensures a == b
  {
  }

  lemma ValuesOfRows(events: seq<Event>, p: Params, id: string)
    ensures Values(events, p, id) == set m | m in Rows(events) && Exposes(p, m, id) :: m.value
    ensures Exposed(events, p, id) <==> exists m :: m in Rows(events) && Exposes(p, m, id)
  {
  }

  /** Variant, quarantine flag and first exposure of an identity depend only on which rows there are. */
  lemma ExposureIgnoresCopies(a: seq<Event>, b: seq<Event>, p: Params, id: string)
    requires Rows(a) == Rows(b)
    ensures Exposed(a, p, id) <==> Exposed(b, p, id)
    ensures Values(a, p, id) == Values(b, p, id)
    ensures Exposed(a, p, id) ==> ExposureOf(a, p, id) == ExposureOf(b, p, id)
  {
    ValuesOfRows(a, p, id);
    ValuesOfRows(b, p, id);
    if Exposed(a, p, id) {
      FirstExposureSpec(a, p, id);
      FirstExposureSpec(b, p, id);
      FirstIsUnique(Rows(a), p, id, FirstExposure(a, p, id), FirstExposure(b, p, id));
      AnyValueSpec(a, p, id);
      AnyValueSpec(b, p, id);
      SingletonSet(Values(a, p, id), AnyValue(a, p, id));
    }
  }

  // ----- The identities of a variant -----

  ghost predicate HasEvent(events: seq<Event>, p: Params, spec: MetricSpec, e: Exposure)
  {
    exists m :: m in Rows(events) && Attributed(p, spec, e, m)
  }

  lemma {:induction false} AttributedValuesSpec(events: seq<Event>, p: Params, spec: MetricSpec, e: Exposure,
                                                number: string -> real)
    ensures AttributedValues(events, p, spec, e, number) != [] <==> HasEvent(events, p, spec, e)
  {
    if events != [] {
      AttributedValuesSpec(events[..|events| - 1], p, spec, e, number);
      RowsSnoc(events);
    }
  }

  /** The identities that were exposed to this value and to no other. */
  ghost predicate InVariant(events: seq<Event>, p: Params, variant: string, id: string)
  {
    Exposed(events, p, id) && Values(events, p, id) == {variant}
  }

  /** Those of them with an event that counts for the metric. */
  ghost predicate Converts(events: seq<Event>, p: Params, spec: MetricSpec, variant: string, id: string)
  {
    InVariant(events, p, variant, id) && HasEvent(events, p, spec, ExposureOf(events, p, id))
  }

  predicate OfVariant(e: Exposure, variant: string)
  {
    !e.quarantined && e.variant == variant
  }

  /** The identities of a variant's exposures, and those with an event. */
  function IdsOf(exposures: seq<Exposure>, variant: string): set<string>
  {
    if exposures == [] then {}
    else
      var before, e := IdsOf(exposures[..|exposures| - 1], variant), exposures[|exposures| - 1];
      if OfVariant(e, variant) then before + {e.identifier} else before
  }

  ghost function ConvertedIdsOf(exposures: seq<Exposure>, events: seq<Event>, p: Params, spec: MetricSpec,
                                variant: string): set<string>
  {
    if exposures == [] then {}
    else
      var before, e := ConvertedIdsOf(exposures[..|exposures| - 1], events, p, spec, variant),
        exposures[|exposures| - 1];
      if OfVariant(e, variant) && HasEvent(events, p, spec, e) then before + {e.identifier} else before
  }

  lemma {:induction false} IdsOfSpec(exposures: seq<Exposure>, events: seq<Event>, p: Params, spec: MetricSpec,
                                     variant: string, id: string)
    ensures id in IdsOf(exposures, variant) <==>
            exists i :: 0 <= i < |exposures| && exposures[i].identifier == id && OfVariant(exposures[i], variant)
    ensures id in ConvertedIdsOf(exposures, events, p, spec, variant) <==>
            exists i :: 0 <= i < |exposures| && exposures[i].identifier == id && OfVariant(exposures[i], variant) &&
                        HasEvent(events, p, spec, exposures[i])
  {
    if exposures != [] {
      var n := |exposures| - 1;
      IdsOfSpec(exposures[..n], events, p, spec, variant, id);
      assert forall i :: 0 <= i < n ==> exposures[..n][i] == exposures[i];
    }
  }

  lemma LastIsNew(exposures: seq<Exposure>, events: seq<Event>, p: Params, spec: MetricSpec, variant: string)
    requires OnePerIdentity(exposures) && exposures != []
    ensures var n := |exposures| - 1;
            && exposures[n].identifier !in IdsOf(exposures[..n], variant)
            && exposures[n].identifier !in ConvertedIdsOf(exposures[..n], events, p, spec, variant)
  {
    var n := |exposures| - 1;
    IdsOfSpec(exposures[..n], events, p, spec, variant, exposures[n].identifier);
  }

  lemma {:induction false} CountIsCardinality(exposures: seq<Exposure>, events: seq<Event>, p: Params, spec: MetricSpec,
                                              number: string -> real, variant: string)
    requires OnePerIdentity(exposures)
    ensures |VariantValues(exposures, events, p, spec, number, variant)| == |IdsOf(exposures, variant)|
  {
    if exposures != [] {
      CountIsCardinality(exposures[..|exposures| - 1], events, p, spec, number, variant);
      LastIsNew(exposures, events, p, spec, variant);
    }
  }

  lemma UnitSum(values: seq<real>, before: seq<real>, x: real)
    requires values == before + [x] && (x == 0.0 || x == 1.0) && Sum(before) == SumSquares(before)
    ensures Sum(values) == SumSquares(values) == Sum(before) + x
  {
  }

  lemma {:induction false} ConversionsAreCardinality(exposures: seq<Exposure>, events: seq<Event>, p: Params,
                                                     spec: MetricSpec,
                                                     number: string -> real, variant: string, values: seq<real>)
    requires OnePerIdentity(exposures) && spec.aggregation == Occurrence
    requires values == VariantValues(exposures, events, p, spec, number, variant)
    ensures Sum(values) == SumSquares(values) == |ConvertedIdsOf(exposures, events, p, spec, variant)| as real
  {
    if exposures != [] {
      var n := |exposures| - 1;
      var e, before := exposures[n], VariantValues(exposures[..n], events, p, spec, number, variant);
      ConversionsAreCardinality(exposures[..n], events, p, spec, number, variant, before);
      LastIsNew(exposures, events, p, spec, variant);
      if OfVariant(e, variant) {
        AttributedValuesSpec(events, p, spec, e, number);
        UnitSum(values, before, IdentityValue(events, p, spec, e, number));
      } else {
        assert values == before;
      }
    }
  }

  lemma MembersOfVariant(events: seq<Event>, p: Params, spec: MetricSpec, variant: string, id: string)
    ensures id in IdsOf(Exposures(events, p), variant) <==> InVariant(events, p, variant, id)
    ensures id in ConvertedIdsOf(Exposures(events, p), events, p, spec, variant) <==>
            Converts(events, p, spec, variant, id)
  {
    var ids, exposures := Identifiers(events, p), Exposures(events, p);
    IdentifiersSpec(events, p);
    IdsOfSpec(exposures, events, p, spec, variant, id);
    if Exposed(events, p, id) {
      VariantIsOnlyValue(events, p, id, variant);
      assert id in ids;
      var j :| 0 <= j < |ids| && ids[j] == id;
      assert exposures[j] == ExposureOf(events, p, id);
    }
  }

  lemma Subset<T>(a: set<T>, b: set<T>)
    requires a <= b
    ensures |a| <= |b|
  {
    assert b == a + (b - a);
  }

  /** The statistics of an occurrence metric count two sets of identities. */
  lemma OccurrenceCountsIdentities(events: seq<Event>, p: Params, specs: seq<MetricSpec>, number: string -> real,
                                   variant: string, i: nat, exposed: set<string>, converted: set<string>)
    requires i < |specs| && specs[i].aggregation == Occurrence && (specs[i].event != "" || p.windowStart > 0)
    requires forall id :: id in exposed <==> InVariant(events, p, variant, id)
    requires forall id :: id in converted <==> Converts(events, p, specs[i], variant, id)
    ensures QueryStats(events, p, specs, number, variant, i) ==
            VariantStats(|exposed|, |converted| as real, |converted| as real)
    ensures |converted| <= |exposed|
  {
    var exposures := Exposures(events, p);
    var values := VariantValues(exposures, events, p, specs[i], number, variant);
    ExposuresAreOnePerIdentity(events, p);
    QueryIsPerIdentity(events, p, specs, number, variant, i);
    CountIsCardinality(exposures, events, p, specs[i], number, variant);
    ConversionsAreCardinality(exposures, events, p, specs[i], number, variant, values);
    forall id
      ensures id in exposed <==> id in IdsOf(exposures, variant)
      ensures id in converted <==> id in ConvertedIdsOf(exposures, events, p, specs[i], variant)
    {
      MembersOfVariant(events, p, specs[i], variant, id);
    }
    assert exposed == IdsOf(exposures, variant) && converted == ConvertedIdsOf(exposures, events, p, specs[i], variant);
    Subset(converted, exposed);
  }

  // ----- Delivering rows again -----

  /** The number of identities of a variant, for any metric. */
  lemma SizeIsCardinality(events: seq<Event>, p: Params, specs: seq<MetricSpec>, number: string -> real,
                          variant: string, i: nat)
    requires i < |specs| && (specs[i].event != "" || p.windowStart > 0)
    ensures QueryStats(events, p, specs, number, variant, i).n == |IdsOf(Exposures(events, p), variant)|
  {
    ExposuresAreOnePerIdentity(events, p);
    QueryIsPerIdentity(events, p, specs, number, variant, i);
    CountIsCardinality(Exposures(events, p), events, p, specs[i], number, variant);
  }

  lemma ConvertsIgnoresCopies(a: seq<Event>, b: seq<Event>, p: Params, spec: MetricSpec, variant: string, id: string)
    requires Rows(a) == Rows(b)
    ensures InVariant(a, p, variant, id) <==> InVariant(b, p, variant, id)
    ensures Converts(a, p, spec, variant, id) <==> Converts(b, p, spec, variant, id)
  {
    ExposureIgnoresCopies(a, b, p, id);
  }

  lemma IdsIgnoreCopies(a: seq<Event>, b: seq<Event>, p: Params, spec: MetricSpec, variant: string)
    requires Rows(a) == Rows(b)
    ensures IdsOf(Exposures(a, p), variant) == IdsOf(Exposures(b, p), variant)
    ensures ConvertedIdsOf(Exposures(a, p), a, p, spec, variant) == ConvertedIdsOf(Exposures(b, p), b, p, spec, variant)
  {
    forall id
      ensures id in IdsOf(Exposures(a, p), variant) <==> id in IdsOf(Exposures(b, p), variant)
      ensures id in ConvertedIdsOf(Exposures(a, p), a, p, spec, variant) <==>
              id in ConvertedIdsOf(Exposures(b, p), b, p, spec, variant)
    {
      MembersOfVariant(a, p, spec, variant, id);
      MembersOfVariant(b, p, spec, variant, id);
      ConvertsIgnoresCopies(a, b, p, spec, variant, id);
    }
  }

  lemma OccurrenceTotals(events: seq<Event>, p: Params, specs: seq<MetricSpec>, number: string -> real,
                         variant: string, i: nat)
    requires i < |specs| && specs[i].aggregation == Occurrence && (specs[i].event != "" || p.windowStart > 0)
    ensures var s, converted := QueryStats(events, p, specs, number, variant, i),
            ConvertedIdsOf(Exposures(events, p), events, p, specs[i], variant);
            s.sum == s.sumSquares == |converted| as real
  {
    ExposuresAreOnePerIdentity(events, p);
    QueryIsPerIdentity(events, p, specs, number, variant, i);
    ConversionsAreCardinality(Exposures(events, p), events, p, specs[i], number, variant,
                              VariantValues(Exposures(events, p), events, p, specs[i], number, variant));
  }

  /** Copies and reorderings of rows change neither the size of a variant nor an occurrence metric. */
  lemma CopiesDoNotMatter(a: seq<Event>, b: seq<Event>, p: Params, specs: seq<MetricSpec>, number: string -> real,
                          variant: string, i: nat)
    requires Rows(a) == Rows(b) && i < |specs| && (specs[i].event != "" || p.windowStart > 0)
    ensures QueryStats(a, p, specs, number, variant, i).n == QueryStats(b, p, specs, number, variant, i).n
    ensures specs[i].aggregation == Occurrence ==>
              QueryStats(a, p, specs, number, variant, i) == QueryStats(b, p, specs, number, variant, i)
  {
    SizeIsCardinality(a, p, specs, number, variant, i);
    SizeIsCardinality(b, p, specs, number, variant, i);
    IdsIgnoreCopies(a, b, p, specs[i], variant);
    if specs[i].aggregation == Occurrence {
      OccurrenceTotals(a, p, specs, number, variant, i);
      OccurrenceTotals(b, p, specs, number, variant, i);
    }
  }

  /** A count metric, in contrast, goes up with every copy of an event that it attributes to an identity. */
  lemma CopyRaisesCountIff(events: seq<Event>, p: Params, spec: MetricSpec, number: string -> real, id: string,
                           copy: Event)
    requires spec.aggregation == Count && Exposed(events, p, id) && copy in Rows(events)
    ensures var again := events + [copy]; var e := ExposureOf(events, p, id);
            && ExposureOf(again, p, id) == e
            && IdentityValue(again, p, spec, e, number) ==
               IdentityValue(events, p, spec, e, number) + (if Attributed(p, spec, e, copy) then 1.0 else 0.0)
  {
    var again := events + [copy];
    RowsSnoc(again);
    assert again[..|events|] == events;
    assert Rows(again) == Rows(events);
    ExposureIgnoresCopies(events, again, p, id);
  }
}
