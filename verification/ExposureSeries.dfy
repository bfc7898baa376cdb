/**
  Exposures over time from the columns of the rows alone: which identities a point counts, and which are
  excluded.
 */
module ExposureSeries {
  import opened ResultsQuery
  import opened ExposureCounts
  import opened ExposureBuckets
  import T = Tallies

  // ----- The identities of a bucket -----

  /** The identities of the exposures with this key. */
  function IdsAt(exposures: seq<Exposure>, floor: int -> int, key: BucketKey): set<string>
  {
    if exposures == [] then {}
    else
      var before, e := IdsAt(exposures[..|exposures| - 1], floor, key), exposures[|exposures| - 1];
      if BucketOf(e, floor) == key then before + {e.identifier} else before
  }

  lemma {:induction false} IdsAtSpec(exposures: seq<Exposure>, floor: int -> int, key: BucketKey, id: string)
    ensures id in IdsAt(exposures, floor, key) <==>
            exists i :: 0 <= i < |exposures| && exposures[i].identifier == id && BucketOf(exposures[i], floor) == key
  {
    if exposures != [] {
      var n := |exposures| - 1;
      IdsAtSpec(exposures[..n], floor, key, id);
      assert forall i :: 0 <= i < n ==> exposures[..n][i] == exposures[i];
    }
  }

  lemma {:induction false} BucketsCountIds(exposures: seq<Exposure>, floor: int -> int, key: BucketKey)
    requires OnePerIdentity(exposures)
    ensures T.Count(Buckets(exposures, floor), key) == |IdsAt(exposures, floor, key)|
  {
    if exposures != [] {
      var n := |exposures| - 1;
      BucketsCountIds(exposures[..n], floor, key);
      T.CountBump(Buckets(exposures[..n], floor), BucketOf(exposures[n], floor), 1, key);
      IdsAtSpec(exposures[..n], floor, key, exposures[n].identifier);
    }
  }

  /** The quarantined identities. */
  function QuarantinedIds(exposures: seq<Exposure>): set<string>
  {
    if exposures == [] then {}
    else
      var before, e := QuarantinedIds(exposures[..|exposures| - 1]), exposures[|exposures| - 1];
      if e.quarantined then before + {e.identifier} else before
  }

  lemma {:induction false} QuarantinedIdsSpec(exposures: seq<Exposure>, id: string)
    ensures id in QuarantinedIds(exposures) <==>
            exists i :: 0 <= i < |exposures| && exposures[i].identifier == id && exposures[i].quarantined
  {
    if exposures != [] {
      var n := |exposures| - 1;
      QuarantinedIdsSpec(exposures[..n], id);
      assert forall i :: 0 <= i < n ==> exposures[..n][i] == exposures[i];
    }
  }

  lemma {:induction false} QuarantinedAreCounted(exposures: seq<Exposure>)
    requires OnePerIdentity(exposures)
    ensures QuarantinedCount(exposures) == |QuarantinedIds(exposures)|
  {
    if exposures != [] {
      var n := |exposures| - 1;
      QuarantinedAreCounted(exposures[..n]);
      QuarantinedIdsSpec(exposures[..n], exposures[n].identifier);
    }
  }

  // ----- The points -----

  /** The points list the rows that are not quarantined, each under its bucket and its variant. */
  lemma {:induction false} PointsListRows(rows: seq<BucketRow>, bucket: int, variant: string)
    requires T.UniqueKeys(rows)
    ensures bucket in PointsOf(rows) <==>
            exists i :: 0 <= i < |rows| && !rows[i].key.quarantined && rows[i].key.bucket == bucket
    ensures bucket in PointsOf(rows) && variant in PointsOf(rows)[bucket] <==>
            exists i :: 0 <= i < |rows| && rows[i].key == BucketKey(false, variant, bucket)
    ensures forall i :: 0 <= i < |rows| && rows[i].key == BucketKey(false, variant, bucket) ==>
              PointsOf(rows)[bucket][variant] == rows[i].count
  {
    if rows != [] {
      var n := |rows| - 1;
      PointsListRows(rows[..n], bucket, variant);
      assert forall i :: 0 <= i < n ==> rows[..n][i] == rows[i];
    }
  }

  lemma {:induction false} CountIsRow(rows: seq<BucketRow>, key: BucketKey)
    requires T.UniqueKeys(rows)
    ensures (forall i :: 0 <= i < |rows| ==> rows[i].key != key) ==> T.Count(rows, key) == 0
    ensures forall i :: 0 <= i < |rows| && rows[i].key == key ==> T.Count(rows, key) == rows[i].count
  {
    if rows != [] {
      CountIsRow(rows[1..], key);
      assert forall i :: 1 <= i < |rows| ==> rows[i] == rows[1..][i - 1];
    }
  }

  lemma PointIsCount(rows: seq<BucketRow>, bucket: int, variant: string)
    requires T.UniqueKeys(rows)
    ensures CountAt(PointsOf(rows), bucket, variant) == T.Count(rows, BucketKey(false, variant, bucket))
  {
    PointsListRows(rows, bucket, variant);
    CountIsRow(rows, BucketKey(false, variant, bucket));
  }

  // ----- By the columns of the rows -----

  /** The earliest of the rows that expose an identity falls in the bucket. */
  ghost predicate FirstShownIn(events: seq<Event>, p: Params, id: string, floor: int -> int, bucket: int)
  {
    exists x :: x in events && x.identifier == id && x.environment == p.environment && x.event == p.exposureEvent
      && x.feature == p.feature && p.windowStart <= x.timestamp < p.windowEnd && floor(x.timestamp) == bucket
      && forall m :: m in events && m.identifier == id && m.environment == p.environment
                     && m.event == p.exposureEvent && m.feature == p.feature
                     && p.windowStart <= m.timestamp < p.windowEnd ==>
           x.timestamp <= m.timestamp
  }

  lemma FirstShownIff(events: seq<Event>, p: Params, id: string, floor: int -> int, bucket: int)
    ensures FirstShownIn(events, p, id, floor, bucket) <==>
            FirstExposure(events, p, id).Some? && floor(FirstExposure(events, p, id).value) == bucket
  {
    var first := FirstExposure(events, p, id);
    FirstExposureSpec(events, p, id);
    assert forall m :: m in Rows(events) <==> m in events;
    assert forall m :: Exposes(p, m, id) <==>
                         m.identifier == id && m.environment == p.environment && m.event == p.exposureEvent
                         && m.feature == p.feature && p.windowStart <= m.timestamp < p.windowEnd;
    if first.Some? {
      var m :| m in Rows(events) && Exposes(p, m, id) && m.timestamp == first.value;
      assert m in events;
    }
  }

  lemma MembersOfBucket(events: seq<Event>, p: Params, variant: string, floor: int -> int, bucket: int, id: string)
    ensures id in IdsAt(Exposures(events, p), floor, BucketKey(false, variant, bucket)) <==>
            InVariant(events, p, variant, id) && FirstShownIn(events, p, id, floor, bucket)
  {
    var ids, exposures := Identifiers(events, p), Exposures(events, p);
    IdentifiersSpec(events, p);
    IdsAtSpec(exposures, floor, BucketKey(false, variant, bucket), id);
    FirstShownIff(events, p, id, floor, bucket);
    if Exposed(events, p, id) {
      VariantIsOnlyValue(events, p, id, variant);
      ValuesOfRows(events, p, id);
      FirstExposureSpec(events, p, id);
      assert id in ids;
      var j :| 0 <= j < |ids| && ids[j] == id;
      assert exposures[j] == ExposureOf(events, p, id);
    }
  }

  /**
    A point counts, for a variant, the identities that were shown that variant and nothing else, and whose
    earliest exposing row falls in the point's bucket; whatever order the rows come in.
   */
  lemma PointCountsFirstExposures(events: seq<Event>, p: Params, floor: int -> int, rows: seq<BucketRow>,
                                  variant: string, bucket: int, ids: set<string>)
    requires multiset(rows) == multiset(Buckets(Exposures(events, p), floor)) && T.UniqueKeys(rows)
    requires forall id :: id in ids <==>
               InVariant(events, p, variant, id) && FirstShownIn(events, p, id, floor, bucket)
    ensures CountAt(PointsOf(rows), bucket, variant) == |ids|
  {
    var key := BucketKey(false, variant, bucket);
    PointIsCount(rows, bucket, variant);
    T.CountIgnoresOrder(rows, Buckets(Exposures(events, p), floor), key);
    ExposuresAreOnePerIdentity(events, p);
    BucketsCountIds(Exposures(events, p), floor, key);
    forall id ensures id in ids <==> id in IdsAt(Exposures(events, p), floor, key) {
      MembersOfBucket(events, p, variant, floor, bucket, id);
    }
    assert ids == IdsAt(Exposures(events, p), floor, key);
  }

  lemma TwoValues(values: set<string>, a: string, b: string)
    requires a in values && b in values && a != b
    ensures |values| > 1
  {
    assert values == {a, b} + (values - {a, b});
  }

  lemma MembersOfQuarantine(events: seq<Event>, p: Params, id: string)
    ensures id in QuarantinedIds(Exposures(events, p)) <==>
            exists a, b :: a in events && b in events && Exposes(p, a, id) && Exposes(p, b, id) && a.value != b.value
  {
    var ids, exposures := Identifiers(events, p), Exposures(events, p);
    IdentifiersSpec(events, p);
    QuarantinedIdsSpec(exposures, id);
    var values := Values(events, p, id);
    ValuesOfRows(events, p, id);
    if a, b :| a in events && b in events && Exposes(p, a, id) && Exposes(p, b, id) && a.value != b.value {
      assert a in Rows(events) && b in Rows(events);
      TwoValues(values, a.value, b.value);
      assert id in ids;
      var j :| 0 <= j < |ids| && ids[j] == id;
      assert exposures[j] == ExposureOf(events, p, id);
    }
    if id in QuarantinedIds(exposures) {
      var i :| 0 <= i < |exposures| && exposures[i].identifier == id && exposures[i].quarantined;
      assert |values| > 1;
      var x :| x in values;
      SingletonSet(values, x);
      assert exists y :: y in values && y != x;
    }
  }

  /** The excluded identities are those that two exposing rows show different values. */
  lemma ExcludedSawTwoValues(events: seq<Event>, p: Params, floor: int -> int, rows: seq<BucketRow>, ids: set<string>)
    requires multiset(rows) == multiset(Buckets(Exposures(events, p), floor))
    requires forall id :: id in ids <==>
               exists a, b :: a in events && b in events && a.identifier == b.identifier == id
                 && a.environment == b.environment == p.environment && a.event == b.event == p.exposureEvent
                 && a.feature == b.feature == p.feature && p.windowStart <= a.timestamp < p.windowEnd
                 && p.windowStart <= b.timestamp < p.windowEnd && a.value != b.value
    ensures Excluded(rows) == |ids|
  {
    var exposures := Exposures(events, p);
    TotalIgnoresOrder(rows, Buckets(exposures, floor), Quarantined);
    BucketsAddUp(exposures, floor, "");
    ExposuresAreOnePerIdentity(events, p);
    QuarantinedAreCounted(exposures);
    forall id ensures id in ids <==> id in QuarantinedIds(exposures) {
      MembersOfQuarantine(events, p, id);
    }
    assert ids == QuarantinedIds(exposures);
  }
}
