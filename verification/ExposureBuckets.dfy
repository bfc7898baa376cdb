/**
  Exposures over time: the bucketed query, the summary built from its rows, and the agreement of their
  counts with the results query and the count-only query.
 */
module ExposureBuckets {
  import opened Sequences
  import opened ResultsQuery
  import opened Statistics
  import opened ExposureCounts
  import T = Tallies

  // ----- The queries -----

  datatype BucketKey = BucketKey(quarantined: bool, variant: string, bucket: int)
  type BucketRow = T.Entry<BucketKey>

  function BucketOf(e: Exposure, floor: int -> int): BucketKey
  {
    BucketKey(e.quarantined, e.variant, if e.firstExposure.Some? then floor(e.firstExposure.value) else 0)
  }

  /** GROUP BY quarantined, variant, bucket, with its counts; `floor` goes back to the hour or the day. */
  function Buckets(exposures: seq<Exposure>, floor: int -> int): seq<BucketRow>
  {
    if exposures == [] then []
    else T.Bump(Buckets(exposures[..|exposures| - 1], floor), BucketOf(exposures[|exposures| - 1], floor), 1)
  }

  /** The count-only query's `n` of a variant. */
  function CountOnly(exposures: seq<Exposure>, variant: string): nat
  {
    if exposures == [] then 0
    else CountOnly(exposures[..|exposures| - 1], variant) +
         (if OfVariant(exposures[|exposures| - 1], variant) then 1 else 0)
  }

  function QuarantinedCount(exposures: seq<Exposure>): nat
  {
    if exposures == [] then 0
    else QuarantinedCount(exposures[..|exposures| - 1]) + (if exposures[|exposures| - 1].quarantined then 1 else 0)
  }

  lemma {:induction false} CountOnlyIsCardinality(exposures: seq<Exposure>, events: seq<Event>, p: Params,
                                                  spec: MetricSpec, variant: string)
    requires OnePerIdentity(exposures)
    ensures CountOnly(exposures, variant) == |IdsOf(exposures, variant)|
  {
    if exposures != [] {
      CountOnlyIsCardinality(exposures[..|exposures| - 1], events, p, spec, variant);
      LastIsNew(exposures, events, p, spec, variant);
    }
  }

  // ----- The totals of a list of rows -----

  /** One row's share of a total: the quarantined identities, or those of a variant. */
  datatype Part = Quarantined | Of(variant: string)

  predicate InPart(key: BucketKey, part: Part)
  {
    match part
    case Quarantined => key.quarantined
    case Of(variant) => !key.quarantined && key.variant == variant
  }

  function RowTotal(rows: seq<BucketRow>, part: Part): int
  {
    if rows == [] then 0 else (if InPart(rows[0].key, part) then rows[0].count else 0) + RowTotal(rows[1..], part)
  }

  lemma {:induction false} TotalAfterBump(rows: seq<BucketRow>, key: BucketKey, n: int, part: Part)
    ensures RowTotal(T.Bump(rows, key, n), part) == RowTotal(rows, part) + (if InPart(key, part) then n else 0)
  {
    if rows != [] && rows[0].key != key {
      assert T.Bump(rows, key, n)[1..] == T.Bump(rows[1..], key, n);
      TotalAfterBump(rows[1..], key, n, part);
    }
  }

  lemma {:induction false} TotalWithoutOne(rows: seq<BucketRow>, j: nat, part: Part)
    requires j < |rows|
    ensures RowTotal(rows, part) == RowTotal(rows[..j] + rows[j + 1..], part) +
            (if InPart(rows[j].key, part) then rows[j].count else 0)
  {
    if j == 0 {
      assert rows[..0] + rows[1..] == rows[1..];
    } else {
      assert (rows[..j] + rows[j + 1..])[1..] == rows[1..][..j - 1] + rows[1..][j..];
      TotalWithoutOne(rows[1..], j - 1, part);
    }
  }

  lemma {:induction false} TotalIgnoresOrder(a: seq<BucketRow>, b: seq<BucketRow>, part: Part)
    requires multiset(a) == multiset(b)
    ensures RowTotal(a, part) == RowTotal(b, part)
    decreases |a|
  {
    if a == [] {
      assert |multiset(b)| == |b|;
    } else {
      var j := T.FirstIn(a, b);
      TotalWithoutOne(a, 0, part);
      TotalWithoutOne(b, j, part);
      TotalIgnoresOrder(a[..0] + a[1..], b[..j] + b[j + 1..], part);
    }
  }

  /** The buckets add up to the identities, quarantined or per variant. */
  lemma {:induction false} BucketsAddUp(exposures: seq<Exposure>, floor: int -> int, variant: string)
    ensures RowTotal(Buckets(exposures, floor), Of(variant)) == CountOnly(exposures, variant)
    ensures RowTotal(Buckets(exposures, floor), Quarantined) == QuarantinedCount(exposures)
  {
    if exposures != [] {
      var n := |exposures| - 1;
      BucketsAddUp(exposures[..n], floor, variant);
      TotalAfterBump(Buckets(exposures[..n], floor), BucketOf(exposures[n], floor), 1, Of(variant));
      TotalAfterBump(Buckets(exposures[..n], floor), BucketOf(exposures[n], floor), 1, Quarantined);
    }
  }

  // ----- The summary -----

  /** Counts per bucket, and in a bucket per variant. */
  type Points = map<int, map<string, int>>

  function Add(points: Points, row: BucketRow): Points
  {
    var before := if row.key.bucket in points then points[row.key.bucket] else map[];
    points[row.key.bucket := before[row.key.variant := row.count]]
  }

  function PointsOf(rows: seq<BucketRow>): Points
  {
    if rows == [] then map[]
    else
      var before, last := PointsOf(rows[..|rows| - 1]), rows[|rows| - 1];
      if last.key.quarantined then before else Add(before, last)
  }

  function InsertBucket(b: int, sorted: seq<int>): seq<int>
  {
    if sorted == [] || b < sorted[0] then [b] + sorted
    else if b == sorted[0] then sorted
    else [sorted[0]] + InsertBucket(b, sorted[1..])
  }

  /** The keys of the points, sorted. */
  function SortedBuckets(rows: seq<BucketRow>): seq<int>
  {
    if rows == [] then []
    else
      var before, last := SortedBuckets(rows[..|rows| - 1]), rows[|rows| - 1];
      if last.key.quarantined then before else InsertBucket(last.key.bucket, before)
  }

  lemma {:induction false} InsertBucketSpec(b: int, sorted: seq<int>)
    requires Ascending(sorted)
    ensures Ascending(InsertBucket(b, sorted))
    ensures forall x :: x in InsertBucket(b, sorted) <==> x == b || x in sorted
  {
    if sorted != [] && b > sorted[0] {
      InsertBucketSpec(b, sorted[1..]);
      var rest := InsertBucket(b, sorted[1..]);
      forall i | 0 <= i < |rest| ensures sorted[0] < rest[i] {
        assert rest[i] in rest;
      }
      assert sorted == [sorted[0]] + sorted[1..];
    }
  }

  lemma {:induction false} SortedBucketsSpec(rows: seq<BucketRow>)
    ensures Ascending(SortedBuckets(rows))
    ensures forall b :: b in SortedBuckets(rows) <==> b in PointsOf(rows)
  {
    if rows != [] {
      SortedBucketsSpec(rows[..|rows| - 1]);
      InsertBucketSpec(rows[|rows| - 1].key.bucket, SortedBuckets(rows[..|rows| - 1]));
    }
  }

  datatype Point = Point(bucket: int, newIdentities: map<string, int>)

  /** `_timeseries_points` on the rows that are not quarantined. */
  method TimeseriesPoints(rows: seq<BucketRow>) returns (points: seq<Point>)
    ensures |points| == |SortedBuckets(rows)|
    ensures forall i :: 0 <= i < |points| ==>
              && points[i].bucket == SortedBuckets(rows)[i] && points[i].bucket in PointsOf(rows)
              && points[i].newIdentities == PointsOf(rows)[points[i].bucket]
  {
    var byBucket: Points := map[];
    for i := 0 to |rows|
      invariant byBucket == PointsOf(rows[..i])
    {
      assert rows[..i + 1][..i] == rows[..i];
      if !rows[i].key.quarantined {
        byBucket := Add(byBucket, rows[i]);
      }
    }
    assert rows[..|rows|] == rows;
    SortedBucketsSpec(rows);
    var sorted := SortedBuckets(rows);
    points := [];
    for i := 0 to |sorted|
      invariant forall k :: 0 <= k < |sorted| ==> sorted[k] in sorted && sorted[k] in PointsOf(rows)
      invariant |points| == i
      invariant forall k :: 0 <= k < i ==> points[k] == Point(sorted[k], PointsOf(rows)[sorted[k]])
    {
      assert sorted[i] in sorted;
      points := points + [Point(sorted[i], byBucket[sorted[i]])];
    }
  }

  function Excluded(rows: seq<BucketRow>): int
  {
    RowTotal(rows, Quarantined)
  }

  // ----- The points add up to the rows -----

  function CountAt(points: Points, bucket: int, variant: string): int
  {
    if bucket in points && variant in points[bucket] then points[bucket][variant] else 0
  }

  /** A variant's new identities over a list of buckets. */
  function PointTotal(order: seq<int>, points: Points, variant: string): int
  {
    if order == [] then 0 else CountAt(points, order[0], variant) + PointTotal(order[1..], points, variant)
  }

  lemma {:induction false} PointAdded(order: seq<int>, points: Points, row: BucketRow, variant: string)
    requires Ascending(order) && CountAt(points, row.key.bucket, row.key.variant) == 0
    ensures PointTotal(order, Add(points, row), variant) ==
            PointTotal(order, points, variant) +
                (if row.key.bucket in order && row.key.variant == variant then row.count else 0)
  {
    if order != [] {
      PointAdded(order[1..], points, row, variant);
      assert order == [order[0]] + order[1..];
    }
  }

  lemma {:induction false} NoSuchRow(rows: seq<BucketRow>, key: BucketKey)
    requires !key.quarantined && forall i :: 0 <= i < |rows| ==> rows[i].key != key
    ensures CountAt(PointsOf(rows), key.bucket, key.variant) == 0
  {
    if rows != [] {
      NoSuchRow(rows[..|rows| - 1], key);
    }
  }

  lemma {:induction false} RowTotalSnoc(rows: seq<BucketRow>, part: Part)
    requires rows != []
    ensures var n := |rows| - 1;
            RowTotal(rows, part) == RowTotal(rows[..n], part) + (if InPart(rows[n].key, part) then rows[n].count else 0)
  {
    TotalWithoutOne(rows, |rows| - 1, part);
    assert rows[..|rows| - 1] + rows[|rows|..] == rows[..|rows| - 1];
  }

  lemma {:induction false} EmptyPoints(order: seq<int>, variant: string)
    ensures PointTotal(order, map[], variant) == 0
  {
    if order != [] {
      EmptyPoints(order[1..], variant);
    }
  }

  lemma {:induction false} PointsAddUp(rows: seq<BucketRow>, order: seq<int>, variant: string)
    requires T.UniqueKeys(rows) && Ascending(order)
    requires forall i :: 0 <= i < |rows| && !rows[i].key.quarantined ==> rows[i].key.bucket in order
    ensures PointTotal(order, PointsOf(rows), variant) == RowTotal(rows, Of(variant))
  {
    if rows == [] {
      EmptyPoints(order, variant);
    } else {
      var n := |rows| - 1;
      PointsAddUp(rows[..n], order, variant);
      RowTotalSnoc(rows, Of(variant));
      if !rows[n].key.quarantined {
        NoSuchRow(rows[..n], rows[n].key);
        PointAdded(order, PointsOf(rows[..n]), rows[n], variant);
      }
    }
  }

  lemma {:induction false} RowsAreSorted(rows: seq<BucketRow>, i: nat)
    requires i < |rows| && !rows[i].key.quarantined
    ensures rows[i].key.bucket in SortedBuckets(rows)
  {
    var n := |rows| - 1;
    SortedBucketsSpec(rows[..n]);
    InsertBucketSpec(rows[n].key.bucket, SortedBuckets(rows[..n]));
    if i < n {
      RowsAreSorted(rows[..n], i);
    }
  }

  /** Whatever order the rows come in: a variant's points add up to its `n` in the results query and in the
      count-only query, and the excluded identities are the quarantined ones. */
  lemma BucketsAgreeWithQueries(events: seq<Event>, p: Params, specs: seq<MetricSpec>, number: string -> real,
                                variant: string, i: nat, floor: int -> int, rows: seq<BucketRow>)
    requires i < |specs| && (specs[i].event != "" || p.windowStart > 0)
    requires multiset(rows) == multiset(Buckets(Exposures(events, p), floor)) && T.UniqueKeys(rows)
    ensures PointTotal(SortedBuckets(rows), PointsOf(rows), variant) == CountOnly(Exposures(events, p), variant)
         == QueryStats(events, p, specs, number, variant, i).n
    ensures Excluded(rows) == QuarantinedCount(Exposures(events, p))
  {
    var exposures := Exposures(events, p);
    SortedBucketsSpec(rows);
    forall k: nat | k < |rows| && !rows[k].key.quarantined ensures rows[k].key.bucket in SortedBuckets(rows) {
      RowsAreSorted(rows, k);
    }
    PointsAddUp(rows, SortedBuckets(rows), variant);
    TotalIgnoresOrder(rows, Buckets(exposures, floor), Of(variant));
    TotalIgnoresOrder(rows, Buckets(exposures, floor), Quarantined);
    BucketsAddUp(exposures, floor, variant);
    ExposuresAreOnePerIdentity(events, p);
    CountOnlyIsCardinality(exposures, events, p, specs[i], variant);
    SizeIsCardinality(events, p, specs, number, variant, i);
  }
}
