/**
  The experiment results query: its common table expressions, join and groupings read as operations on
  lists of rows, against a definition that looks at one identity at a time.
 */
module ResultsQuery {
  import opened Options
  import opened Sequences
  import opened Statistics

  datatype Event = Event(environment: string, event: string, feature: string, identifier: string, value: string,
                         timestamp: int)

  /** The parameters shared by all queries. */
  datatype Params = Params(environment: string, exposureEvent: string, feature: string, windowStart: int,
                           windowEnd: int)

  datatype Aggregation = Occurrence | Count | Total | Average
  datatype MetricSpec = MetricSpec(metricId: int, event: string, aggregation: Aggregation, lowerIsBetter: bool)

  predicate InWindow(p: Params, e: Event)
  {
    p.windowStart <= e.timestamp < p.windowEnd
  }

  // ----- The exposures of a window -----

  predicate IsExposure(p: Params, e: Event)
  {
    e.environment == p.environment && e.event == p.exposureEvent && e.feature == p.feature && InWindow(p, e)
  }

  predicate Exposes(p: Params, e: Event, id: string)
  {
    IsExposure(p, e) && e.identifier == id
  }

  ghost predicate Exposed(events: seq<Event>, p: Params, id: string)
  {
    exists i :: 0 <= i < |events| && Exposes(p, events[i], id)
  }

  /** GROUP BY identifier: the groups, in order of their first rows. */
  function Identifiers(events: seq<Event>, p: Params): seq<string>
  {
    if events == [] then []
    else
      var before, last := Identifiers(events[..|events| - 1], p), events[|events| - 1];
      if IsExposure(p, last) && last.identifier !in before then before + [last.identifier] else before
  }

  function Values(events: seq<Event>, p: Params, id: string): set<string>
  {
    set i | 0 <= i < |events| && Exposes(p, events[i], id) :: events[i].value
  }

  /** `any(value)` takes the first row's; it is empty when there is none. */
  function AnyValue(events: seq<Event>, p: Params, id: string): string
  {
    if events == [] then ""
    else if Exposes(p, events[0], id) then events[0].value
    else AnyValue(events[1..], p, id)
  }

  /** `min(timestamp)` */
  function FirstExposure(events: seq<Event>, p: Params, id: string): Option<int>
  {
    if events == [] then None
    else
      var before, last := FirstExposure(events[..|events| - 1], p, id), events[|events| - 1];
      if Exposes(p, last, id) && (before.None? || last.timestamp < before.value) then Some(last.timestamp) else before
  }

  datatype Exposure = Exposure(identifier: string, variant: string, quarantined: bool, firstExposure: Option<int>)

  function ExposureOf(events: seq<Event>, p: Params, id: string): Exposure
  {
    var quarantined := |Values(events, p, id)| > 1;
    Exposure(id, if quarantined then "" else AnyValue(events, p, id), quarantined, FirstExposure(events, p, id))
  }

  function Exposures(events: seq<Event>, p: Params): seq<Exposure>
  {
    var ids := Identifiers(events, p);
    seq(|ids|, i requires 0 <= i < |ids| => ExposureOf(events, p, ids[i]))
  }

  lemma ExposedSnoc(events: seq<Event>, p: Params, id: string)
    requires events != []
    ensures var n := |events| - 1; Exposed(events, p, id) <==> Exposed(events[..n], p, id) || Exposes(p, events[n], id)
  {
  }

  /** Every exposed identity has one group. */
  lemma {:induction false} IdentifiersSpec(events: seq<Event>, p: Params)
    ensures Distinct(Identifiers(events, p))
    ensures forall id :: id in Identifiers(events, p) <==> Exposed(events, p, id)
  {
    if events != [] {
      IdentifiersSpec(events[..|events| - 1], p);
      forall id ensures id in Identifiers(events, p) <==> Exposed(events, p, id) {
        ExposedSnoc(events, p, id);
      }
    }
  }

  // ----- The join -----

  /** What an unmatched row of a left join has in the columns of the right side. */
  const NO_EVENT := Event("", "", "", "", "", 0)

  datatype Joined = Joined(e: Exposure, m: Event)

  predicate On(p: Params, metricEvents: seq<string>, e: Exposure, m: Event)
  {
    m.identifier == e.identifier && m.environment == p.environment && m.event in metricEvents && InWindow(p, m)
  }

  function Matches(events: seq<Event>, p: Params, metricEvents: seq<string>, e: Exposure): seq<Joined>
  {
    if events == [] then []
    else
      var last := events[|events| - 1];
      Matches(events[..|events| - 1], p, metricEvents, e) +
          (if On(p, metricEvents, e, last) then [Joined(e, last)] else [])
  }

  function JoinOne(events: seq<Event>, p: Params, metricEvents: seq<string>, e: Exposure): seq<Joined>
  {
    var matches := Matches(events, p, metricEvents, e);
    if matches == [] then [Joined(e, NO_EVENT)] else matches
  }

  function LeftJoin(exposures: seq<Exposure>, events: seq<Event>, p: Params, metricEvents: seq<string>): seq<Joined>
  {
    if exposures == [] then []
    else LeftJoin(exposures[..|exposures| - 1], events, p, metricEvents) +
         JoinOne(events, p, metricEvents, exposures[|exposures| - 1])
  }

  /** WHERE e.quarantined = 0 */
  function Kept(rows: seq<Joined>): seq<Joined>
  {
    if rows == [] then []
    else Kept(rows[..|rows| - 1]) + (if rows[|rows| - 1].e.quarantined then [] else [rows[|rows| - 1]])
  }

  // ----- The value of each identity -----

  datatype UnitKey = UnitKey(identifier: string, variant: string)

  function KeyOf(e: Exposure): UnitKey
  {
    UnitKey(e.identifier, e.variant)
  }

  /** GROUP BY e.identifier, e.variant: the groups and their rows. */
  function UnitKeys(rows: seq<Joined>): seq<UnitKey>
  {
    if rows == [] then []
    else
      var before, key := UnitKeys(rows[..|rows| - 1]), KeyOf(rows[|rows| - 1].e);
      if key in before then before else before + [key]
  }

  function UnitRows(rows: seq<Joined>, key: UnitKey): seq<Joined>
  {
    if rows == [] then []
    else UnitRows(rows[..|rows| - 1], key) + (if KeyOf(rows[|rows| - 1].e) == key then [rows[|rows| - 1]] else [])
  }

  /** A slot's condition: its event, at or after the identity's first exposure. */
  predicate Condition(spec: MetricSpec, r: Joined)
  {
    r.m.event == spec.event && r.e.firstExposure.Some? && r.m.timestamp >= r.e.firstExposure.value
  }

  function CountIf(rows: seq<Joined>, spec: MetricSpec): nat
  {
    if rows == [] then 0
    else CountIf(rows[..|rows| - 1], spec) + (if Condition(spec, rows[|rows| - 1]) then 1 else 0)
  }

  function SumIf(rows: seq<Joined>, spec: MetricSpec, number: string -> real): real
  {
    if rows == [] then 0.0
    else SumIf(rows[..|rows| - 1], spec, number) +
         (if Condition(spec, rows[|rows| - 1]) then number(rows[|rows| - 1].m.value) else 0.0)
  }

  /** What the four aggregations make of a count and a sum. */
  function Aggregated(aggregation: Aggregation, count: nat, sum: real): real
  {
    match aggregation
    case Occurrence => if count > 0 then 1.0 else 0.0
    case Count => count as real
    case Total => sum
    case Average => if count > 0 then sum / count as real else 0.0
  }

  function UnitValue(rows: seq<Joined>, spec: MetricSpec, number: string -> real): real
  {
    Aggregated(spec.aggregation, CountIf(rows, spec), SumIf(rows, spec, number))
  }

  datatype Unit = Unit(variant: string, values: seq<real>)

  function UnitOf(rows: seq<Joined>, key: UnitKey, specs: seq<MetricSpec>, number: string -> real): Unit
  {
    Unit(key.variant, seq(|specs|, i requires 0 <= i < |specs| => UnitValue(UnitRows(rows, key), specs[i], number)))
  }

  function UnitsOf(rows: seq<Joined>, specs: seq<MetricSpec>, number: string -> real): seq<Unit>
  {
    var keys := UnitKeys(rows);
    seq(|keys|, i requires 0 <= i < |keys| => UnitOf(rows, keys[i], specs, number))
  }

  function MetricEvents(specs: seq<MetricSpec>): seq<string>
  {
    seq(|specs|, i requires 0 <= i < |specs| => specs[i].event)
  }

  /** The unit_values table. */
  function Units(events: seq<Event>, p: Params, specs: seq<MetricSpec>, number: string -> real): seq<Unit>
  {
    UnitsOf(Kept(LeftJoin(Exposures(events, p), events, p, MetricEvents(specs))), specs, number)
  }

  // ----- The statistics of each variant -----

  /** One metric's values over the units of a variant. */
  function Column(units: seq<Unit>, variant: string, i: nat): seq<real>
    requires forall k :: 0 <= k < |units| ==> i < |units[k].values|
  {
    if units == [] then []
    else
      var last := units[|units| - 1];
      Column(units[..|units| - 1], variant, i) + (if last.variant == variant then [last.values[i]] else [])
  }

  /** `count()`, `sum(m)` and `sum(m * m)` of one variant's group. */
  function QueryStats(events: seq<Event>, p: Params, specs: seq<MetricSpec>, number: string -> real, variant: string,
                      i: nat): VariantStats
    requires i < |specs|
  {
    StatsOf(Column(Units(events, p, specs, number), variant, i))
  }

  // ----- One identity at a time -----

  /** An event counts for an identity from its first exposure on. */
  predicate Attributed(p: Params, spec: MetricSpec, e: Exposure, m: Event)
  {
    && m.identifier == e.identifier && m.environment == p.environment && m.event == spec.event && InWindow(p, m)
    && e.firstExposure.Some? && m.timestamp >= e.firstExposure.value
  }

  /** The numbers of the events that count for an identity. */
  function AttributedValues(events: seq<Event>, p: Params, spec: MetricSpec, e: Exposure,
                            number: string -> real): seq<real>
  {
    if events == [] then []
    else
      var last := events[|events| - 1];
      AttributedValues(events[..|events| - 1], p, spec, e, number) +
          (if Attributed(p, spec, e, last) then [number(last.value)] else [])
  }

  /** Whether there are any, how many, their sum, or their mean; nothing counts as zero. */
  function IdentityValue(events: seq<Event>, p: Params, spec: MetricSpec, e: Exposure, number: string -> real): real
  {
    var values := AttributedValues(events, p, spec, e, number);
    match spec.aggregation
    case Occurrence => if values != [] then 1.0 else 0.0
    case Count => |values| as real
    case Total => Sum(values)
    case Average => if values != [] then Mean(StatsOf(values)) else 0.0
  }

  /** The values of a variant's identities: those exposed to it and to nothing else. */
  function VariantValues(exposures: seq<Exposure>, events: seq<Event>, p: Params, spec: MetricSpec,
                         number: string -> real, variant: string)
    : seq<real>
  {
    if exposures == [] then []
    else
      var last := exposures[|exposures| - 1];
      VariantValues(exposures[..|exposures| - 1], events, p, spec, number, variant) +
      (if !last.quarantined && last.variant == variant then [IdentityValue(events, p, spec, last, number)] else [])
  }

  // ----- The join neither drops nor duplicates -----

  lemma {:induction false} KeptConcat(a: seq<Joined>, b: seq<Joined>)
    ensures Kept(a + b) == Kept(a) + Kept(b)
  {
    if b == [] {
      assert a + b == a;
    } else {
      assert (a + b)[..|a + b| - 1] == a + b[..|b| - 1];
      KeptConcat(a, b[..|b| - 1]);
    }
  }

  /** All rows of a block come from one exposure. */
  predicate Block(rows: seq<Joined>, e: Exposure)
  {
    forall i :: 0 <= i < |rows| ==> rows[i].e == e
  }

  lemma {:induction false} JoinOneIsBlock(events: seq<Event>, p: Params, metricEvents: seq<string>, e: Exposure)
    ensures Block(Matches(events, p, metricEvents, e), e)
    ensures Block(JoinOne(events, p, metricEvents, e), e) && JoinOne(events, p, metricEvents, e) != []
  {
    if events != [] {
      JoinOneIsBlock(events[..|events| - 1], p, metricEvents, e);
    }
  }

  lemma {:induction false} KeptBlock(rows: seq<Joined>, e: Exposure)
    requires Block(rows, e)
    ensures Kept(rows) == if e.quarantined then [] else rows
  {
    if rows != [] {
      KeptBlock(rows[..|rows| - 1], e);
      assert rows == rows[..|rows| - 1] + [rows[|rows| - 1]];
    }
  }

  lemma {:induction false} KeysOfBlock(rows: seq<Joined>, block: seq<Joined>, e: Exposure)
    requires Block(block, e) && block != [] && KeyOf(e) !in UnitKeys(rows)
    ensures UnitKeys(rows + block) == UnitKeys(rows) + [KeyOf(e)]
  {
    var all := rows + block;
    assert all[..|all| - 1] == rows + block[..|block| - 1];
    if |block| > 1 {
      KeysOfBlock(rows, block[..|block| - 1], e);
    } else {
      assert rows + block[..0] == rows;
    }
  }

  lemma {:induction false} RowsOfBlock(rows: seq<Joined>, block: seq<Joined>, e: Exposure, key: UnitKey)
    requires Block(block, e)
    ensures UnitRows(rows + block, key) == UnitRows(rows, key) + (if key == KeyOf(e) then block else [])
  {
    if block == [] {
      assert rows + block == rows;
    } else {
      var all := rows + block;
      assert all[..|all| - 1] == rows + block[..|block| - 1];
      RowsOfBlock(rows, block[..|block| - 1], e, key);
      assert block == block[..|block| - 1] + [block[|block| - 1]];
    }
  }

  lemma {:induction false} NoRowsWithoutKey(rows: seq<Joined>, key: UnitKey)
    requires key !in UnitKeys(rows)
    ensures UnitRows(rows, key) == []
  {
    if rows != [] {
      NoRowsWithoutKey(rows[..|rows| - 1], key);
    }
  }

  function NonQuarantined(exposures: seq<Exposure>): seq<Exposure>
  {
    if exposures == [] then []
    else NonQuarantined(exposures[..|exposures| - 1]) +
         (if exposures[|exposures| - 1].quarantined then [] else [exposures[|exposures| - 1]])
  }

  ghost predicate OnePerIdentity(exposures: seq<Exposure>)
  {
    forall i, j :: 0 <= i < j < |exposures| ==> exposures[i].identifier != exposures[j].identifier
  }

  lemma {:induction false} NonQuarantinedFrom(exposures: seq<Exposure>, k: nat) returns (i: nat)
    requires k < |NonQuarantined(exposures)|
    ensures i < |exposures| && exposures[i] == NonQuarantined(exposures)[k] && !exposures[i].quarantined
  {
    var n := |exposures| - 1;
    if k < |NonQuarantined(exposures[..n])| {
      i := NonQuarantinedFrom(exposures[..n], k);
    } else {
      i := n;
    }
  }

  lemma KeptJoinSnoc(exposures: seq<Exposure>, events: seq<Event>, p: Params, metricEvents: seq<string>)
    requires exposures != []
    ensures var n := |exposures| - 1;
            Kept(LeftJoin(exposures, events, p, metricEvents)) ==
            Kept(LeftJoin(exposures[..n], events, p, metricEvents)) +
            (if exposures[n].quarantined then [] else JoinOne(events, p, metricEvents, exposures[n]))
  {
    var n := |exposures| - 1;
    var block := JoinOne(events, p, metricEvents, exposures[n]);
    JoinOneIsBlock(events, p, metricEvents, exposures[n]);
    KeptBlock(block, exposures[n]);
    KeptConcat(LeftJoin(exposures[..n], events, p, metricEvents), block);
  }

  function Keys(exposures: seq<Exposure>): seq<UnitKey>
  {
    seq(|exposures|, i requires 0 <= i < |exposures| => KeyOf(exposures[i]))
  }

  lemma KeysSnoc(exposures: seq<Exposure>, e: Exposure)
    ensures Keys(exposures + [e]) == Keys(exposures) + [KeyOf(e)]
  {
  }

  lemma NewKey(exposures: seq<Exposure>)
    requires exposures != [] && OnePerIdentity(exposures)
    ensures KeyOf(exposures[|exposures| - 1]) !in Keys(NonQuarantined(exposures[..|exposures| - 1]))
  {
    var n := |exposures| - 1;
    var kept := NonQuarantined(exposures[..n]);
    forall k: nat | k < |kept| ensures Keys(kept)[k] != KeyOf(exposures[n]) {
      var i := NonQuarantinedFrom(exposures[..n], k);
    }
  }

  /** The groups of the joined rows are the exposed identities that are not quarantined, once each. */
  lemma {:induction false} JoinKeys(exposures: seq<Exposure>, events: seq<Event>, p: Params, metricEvents: seq<string>)
    requires OnePerIdentity(exposures)
    ensures UnitKeys(Kept(LeftJoin(exposures, events, p, metricEvents))) == Keys(NonQuarantined(exposures))
  {
    if exposures != [] {
      var n := |exposures| - 1;
      JoinKeys(exposures[..n], events, p, metricEvents);
      KeptJoinSnoc(exposures, events, p, metricEvents);
      var before := Kept(LeftJoin(exposures[..n], events, p, metricEvents));
      if exposures[n].quarantined {
        assert before + [] == before;
      } else {
        NewKey(exposures);
        JoinOneIsBlock(events, p, metricEvents, exposures[n]);
        KeysOfBlock(before, JoinOne(events, p, metricEvents, exposures[n]), exposures[n]);
        KeysSnoc(NonQuarantined(exposures[..n]), exposures[n]);
      }
    }
  }

  /** And the rows of each group are those its own exposure joined. */
  lemma {:induction false} JoinRows(exposures: seq<Exposure>, events: seq<Event>, p: Params, metricEvents: seq<string>,
                                    k: nat)
    requires OnePerIdentity(exposures) && k < |NonQuarantined(exposures)|
    ensures UnitRows(Kept(LeftJoin(exposures, events, p, metricEvents)), KeyOf(NonQuarantined(exposures)[k])) ==
            JoinOne(events, p, metricEvents, NonQuarantined(exposures)[k])
  {
    var n := |exposures| - 1;
    var kept := NonQuarantined(exposures[..n]);
    var before := Kept(LeftJoin(exposures[..n], events, p, metricEvents));
    KeptJoinSnoc(exposures, events, p, metricEvents);
    if exposures[n].quarantined {
      assert before + [] == before;
      JoinRows(exposures[..n], events, p, metricEvents, k);
    } else {
      var block := JoinOne(events, p, metricEvents, exposures[n]);
      JoinOneIsBlock(events, p, metricEvents, exposures[n]);
      RowsOfBlock(before, block, exposures[n], KeyOf(NonQuarantined(exposures)[k]));
      NewKey(exposures);
      if k < |kept| {
        assert Keys(kept)[k] == KeyOf(kept[k]);
        JoinRows(exposures[..n], events, p, metricEvents, k);
      } else {
        JoinKeys(exposures[..n], events, p, metricEvents);
        NoRowsWithoutKey(before, KeyOf(exposures[n]));
      }
    }
  }

  // ----- The prefilter and unmatched identities change nothing -----

  lemma {:induction false} MatchesAreAttributed(events: seq<Event>, p: Params, metricEvents: seq<string>, e: Exposure,
                                                spec: MetricSpec, number: string -> real)
    requires spec.event in metricEvents
    ensures CountIf(Matches(events, p, metricEvents, e), spec) == |AttributedValues(events, p, spec, e, number)|
    ensures SumIf(Matches(events, p, metricEvents, e), spec, number) ==
            Sum(AttributedValues(events, p, spec, e, number))
  {
    if events != [] {
      var n := |events| - 1;
      MatchesAreAttributed(events[..n], p, metricEvents, e, spec, number);
      var before, values := Matches(events[..n], p, metricEvents, e), AttributedValues(events[..n], p, spec, e, number);
      assert (before + [Joined(e, events[n])])[..|before|] == before && before + [] == before;
      assert (values + [number(events[n].value)])[..|values|] == values && values + [] == values;
    }
  }

  /** The unmatched row of an identity does not meet a slot's condition. */
  predicate Silent(spec: MetricSpec, e: Exposure)
  {
    !Condition(spec, Joined(e, NO_EVENT))
  }

  /** An identity with no events is counted as nothing exactly if its unmatched row is silent. */
  lemma UnmatchedCountsNothingIff(events: seq<Event>, p: Params, metricEvents: seq<string>, e: Exposure,
                                  spec: MetricSpec)
    requires Matches(events, p, metricEvents, e) == [] && e.firstExposure.Some?
    ensures CountIf(JoinOne(events, p, metricEvents, e), spec) == 0 <==> spec.event != "" || e.firstExposure.value > 0
  {
  }

  /** An identity's group has the value that looking at that identity alone gives. */
  lemma JoinedValue(events: seq<Event>, p: Params, metricEvents: seq<string>, e: Exposure, spec: MetricSpec,
                    number: string -> real)
    requires spec.event in metricEvents && Silent(spec, e)
    ensures UnitValue(JoinOne(events, p, metricEvents, e), spec, number) == IdentityValue(events, p, spec, e, number)
  {
    MatchesAreAttributed(events, p, metricEvents, e, spec, number);
    if Matches(events, p, metricEvents, e) == [] {
      assert [Joined(e, NO_EVENT)][..0] == [];
      assert CountIf([], spec) == 0 && SumIf([], spec, number) == 0.0;
    }
  }

  lemma ExposuresAreOnePerIdentity(events: seq<Event>, p: Params)
    ensures OnePerIdentity(Exposures(events, p))
  {
    IdentifiersSpec(events, p);
  }

  /** First exposures lie in the window. */
  lemma {:induction false} FirstExposureInWindow(events: seq<Event>, p: Params, id: string)
    ensures FirstExposure(events, p, id).Some? <==> Exposed(events, p, id)
    ensures FirstExposure(events, p, id).Some? ==> p.windowStart <= FirstExposure(events, p, id).value < p.windowEnd
  {
    if events != [] {
      FirstExposureInWindow(events[..|events| - 1], p, id);
      ExposedSnoc(events, p, id);
    }
  }

  lemma UnitAt(events: seq<Event>, p: Params, specs: seq<MetricSpec>, number: string -> real, k: nat, i: nat)
    requires k < |NonQuarantined(Exposures(events, p))| && i < |specs|
    requires Silent(specs[i], NonQuarantined(Exposures(events, p))[k])
    ensures |Units(events, p, specs, number)| == |NonQuarantined(Exposures(events, p))|
    ensures var unit, e := Units(events, p, specs, number)[k], NonQuarantined(Exposures(events, p))[k];
            unit.variant == e.variant && |unit.values| == |specs| &&
                unit.values[i] == IdentityValue(events, p, specs[i], e, number)
  {
    var exposures, metricEvents := Exposures(events, p), MetricEvents(specs);
    ExposuresAreOnePerIdentity(events, p);
    JoinKeys(exposures, events, p, metricEvents);
    JoinRows(exposures, events, p, metricEvents, k);
    assert metricEvents[i] == specs[i].event;
    JoinedValue(events, p, metricEvents, NonQuarantined(exposures)[k], specs[i], number);
  }

  lemma {:induction false} ColumnIs(units: seq<Unit>, exposures: seq<Exposure>, events: seq<Event>, p: Params,
                                    spec: MetricSpec, number: string -> real, variant: string, i: nat)
    requires |units| == |NonQuarantined(exposures)| && forall k :: 0 <= k < |units| ==> i < |units[k].values|
    requires forall k :: 0 <= k < |units| ==>
               && units[k].variant == NonQuarantined(exposures)[k].variant
               && units[k].values[i] == IdentityValue(events, p, spec, NonQuarantined(exposures)[k], number)
    ensures Column(units, variant, i) == VariantValues(exposures, events, p, spec, number, variant)
    decreases |exposures|
  {
    if exposures != [] {
      var n := |exposures| - 1;
      if exposures[n].quarantined {
        ColumnIs(units, exposures[..n], events, p, spec, number, variant, i);
      } else {
        ColumnIs(units[..|units| - 1], exposures[..n], events, p, spec, number, variant, i);
      }
    }
  }

  lemma SilentInWindow(events: seq<Event>, p: Params, spec: MetricSpec, k: nat)
    requires k < |NonQuarantined(Exposures(events, p))| && (spec.event != "" || p.windowStart > 0)
    ensures Silent(spec, NonQuarantined(Exposures(events, p))[k])
  {
    var j := NonQuarantinedFrom(Exposures(events, p), k);
    FirstExposureInWindow(events, p, Identifiers(events, p)[j]);
  }

  /** The query's statistics are those of the values that each identity of the variant has on its own. */
  lemma QueryIsPerIdentity(events: seq<Event>, p: Params, specs: seq<MetricSpec>, number: string -> real,
                           variant: string, i: nat)
    requires i < |specs| && (specs[i].event != "" || p.windowStart > 0)
    ensures QueryStats(events, p, specs, number, variant, i) ==
            StatsOf(VariantValues(Exposures(events, p), events, p, specs[i], number, variant))
  {
    var exposures, units := Exposures(events, p), Units(events, p, specs, number);
    ExposuresAreOnePerIdentity(events, p);
    JoinKeys(exposures, events, p, MetricEvents(specs));
    forall k: nat | k < |units|
      ensures units[k].variant == NonQuarantined(exposures)[k].variant
      ensures units[k].values[i] == IdentityValue(events, p, specs[i], NonQuarantined(exposures)[k], number)
    {
      SilentInWindow(events, p, specs[i], k);
      UnitAt(events, p, specs, number, k, i);
    }
    ColumnIs(units, exposures, events, p, specs[i], number, variant, i);
  }

  /** So the spread computed from the query's totals is the sample variance of those values. */
  lemma QueryVariance(events: seq<Event>, p: Params, specs: seq<MetricSpec>, number: string -> real, variant: string,
                      i: nat, values: seq<real>, s: VariantStats, deviations: real)
    requires i < |specs| && (specs[i].event != "" || p.windowStart > 0)
    requires values == VariantValues(Exposures(events, p), events, p, specs[i], number, variant) && |values| >= 2
    requires s == QueryStats(events, p, specs, number, variant, i) && s.n > 0 &&
             deviations == Deviations(values, Mean(s))
    ensures s.n == |values| && Variance(s) == RawVariance(s) == deviations / (s.n as real - 1.0)
  {
    assert s == StatsOf(values) by {
      QueryIsPerIdentity(events, p, specs, number, variant, i);
    }
    VarianceIsSampleVariance(values, s, deviations);
  }
}
