/**
  A whole schedule of roll-up runs with rows arriving in between: which rows the buckets count, and,
  when rows arrive in time and runs leave no gap, that every raw row of the covered span is counted in
  exactly one bucket, however often spans are re-aggregated.
 */
module UsageSchedule {
  import opened Options
  import opened UsageRollup

  /**
    `runs` and `seen` are history: the times of the first and latest run, and for each grid point how
    many rows were stored when a run last covered it.
   */
  datatype State = State(raw: seq<Row>, buckets: Buckets, runs: Option<(int, int)>, seen: map<int, nat>)

  datatype Event = Track(row: Row) | Rollup(now: int)

  const INIT := State([], map[], None, map[])

  /** The settings of the recurring task. */
  datatype Settings = Settings(bucketSize: nat, runEvery: nat)
  {
    predicate Valid() {
      0 < bucketSize <= 60 && 60 % bucketSize == 0 && runEvery > 0 && runEvery % bucketSize == 0
    }
  }

  function Run(c: Settings, buckets: Buckets, raw: seq<Row>, now: int): Option<Buckets>
    requires c.Valid()
  {
    RunAll(buckets, raw, SpanStarts(now, c.bucketSize, c.runEvery), Width(c.bucketSize))
  }

  ghost function Starts(c: Settings, now: int): set<int>
    requires c.Valid()
  {
    Elements(SpanStarts(now, c.bucketSize, c.runEvery))
  }

  ghost function Covered(seen: map<int, nat>, starts: set<int>, rows: nat): map<int, nat>
  {
    map start | start in seen.Keys + starts :: if start in starts then rows else seen[start]
  }

  /** Rows are stored and runs are made at any time. */
  ghost predicate Step(c: Settings, s: State, e: Event, t: State)
    requires c.Valid()
  {
    match e
    case Track(row) => t == s.(raw := s.raw + [row])
    case Rollup(now) =>
      && t.raw == s.raw && t.runs == Some((if s.runs.Some? then s.runs.value.0 else now, now))
      && t.seen == Covered(s.seen, Starts(c, now), |s.raw|)
      && Run(c, s.buckets, s.raw, now) == Some(t.buckets)
  }

  /** Rows are stored before the runs that cover them; runs are at most `run_every` minutes apart. */
  predicate OnTime(c: Settings, s: State, e: Event)
  {
    match e
    case Track(row) => s.runs.Some? ==> row.at > s.runs.value.1
    case Rollup(now) => s.runs.Some? ==> s.runs.value.1 <= now <= s.runs.value.1 + MINUTE * c.runEvery
  }

  function Floor(c: Settings, now: int): int
    requires c.Valid()
  {
    StartOfCurrentBucket(now, c.bucketSize)
  }

  /** The span covered by the runs so far, open at its start. */
  function SpanStart(c: Settings, s: State): int
    requires c.Valid() && s.runs.Some?
  {
    Floor(c, s.runs.value.0) - MINUTE * c.runEvery
  }

  function SpanEnd(c: Settings, s: State): int
    requires c.Valid() && s.runs.Some?
  {
    Floor(c, s.runs.value.1)
  }

  predicate GridPoint(c: Settings, lo: int, hi: int, start: int)
    requires c.Valid()
  {
    lo <= start < hi && start % Width(c.bucketSize) == 0
  }

  /** The buckets are exactly the raw counts of the grid's spans, for the keys that occur in them. */
  ghost predicate Exact(c: Settings, raw: seq<Row>, buckets: Buckets, lo: int, hi: int)
    requires c.Valid()
  {
    var w := Width(c.bucketSize);
    && (forall id :: id in buckets <==> GridPoint(c, lo, hi, id.start) && Occurs(raw, id.key, id.start, id.start + w))
    && (forall id :: id in buckets ==> buckets[id] == SpanSum(raw, id.key, id.start, id.start + w))
  }

  ghost predicate Inv(c: Settings, s: State)
    requires c.Valid()
  {
    if s.runs.None? then s.buckets == map[]
    else
      && s.runs.value.0 <= s.runs.value.1
      && Exact(c, s.raw, s.buckets, SpanStart(c, s), SpanEnd(c, s))
  }

  // ----- The grid -----

  lemma FloorFacts(c: Settings, now: int)
    requires c.Valid()
    ensures Floor(c, now) % Width(c.bucketSize) == 0
    ensures Floor(c, now) <= now < Floor(c, now) + Width(c.bucketSize)
  {
    StartIsAligned(now, c.bucketSize);
    DivMod(now, Width(c.bucketSize));
    ModUnique(Floor(c, now), Width(c.bucketSize), now / Width(c.bucketSize), 0);
  }

  lemma RunIsWholeBuckets(c: Settings)
    requires c.Valid()
    ensures MINUTE * c.runEvery == Width(c.bucketSize) * (c.runEvery / c.bucketSize)
  {
  }

  lemma GridShift(a: int, k: int, w: nat)
    requires w > 0 && a % w == 0
    ensures (a + w * k) % w == 0
  {
    DivMod(a, w);
    assert w * (a / w + k) == a + w * k;
    ModUnique(a + w * k, w, a / w + k, 0);
  }

  /** Grid points less than a width apart are in order. */
  lemma GridGap(a: int, b: int, w: nat)
    requires w > 0 && a % w == 0 && b % w == 0 && a < b + w
    ensures a <= b
  {
    if b < a {
      SameGridPoint(b, a, w);
    }
  }

  lemma FloorMonotone(c: Settings, a: int, b: int)
    requires c.Valid() && a <= b <= a + MINUTE * c.runEvery
    ensures Floor(c, a) <= Floor(c, b) <= Floor(c, a) + MINUTE * c.runEvery
  {
    var w := Width(c.bucketSize);
    FloorFacts(c, a);
    FloorFacts(c, b);
    RunIsWholeBuckets(c);
    GridGap(Floor(c, a), Floor(c, b), w);
    GridShift(Floor(c, a), c.runEvery / c.bucketSize, w);
    GridGap(Floor(c, b), Floor(c, a) + MINUTE * c.runEvery, w);
  }

  lemma SignOfProduct(w: nat, n: int)
    ensures n <= 0 ==> w * n <= 0
  {
  }

  lemma WithinRun(w: nat, n: nat, i: nat)
    requires i < n
    ensures 0 <= w * i && w * i + w <= w * n
  {
    ProductGrows(w, i);
    ProductGrows(w, n - i - 1);
    assert w * n == w * i + w + w * (n - i - 1);
  }

  /** A grid point of a stretch of `n` widths ending at `f` has an index, counted back from the end. */
  lemma IndexOfGridPoint(f: int, start: int, w: nat, n: nat) returns (i: int)
    requires w > 0 && f % w == 0 && start % w == 0 && f - w * n <= start < f
    ensures 0 <= i < n && start == f - w * i - w
  {
    DivMod(f, w);
    DivMod(start, w);
    i := f / w - start / w - 1;
    assert w * (i + 1) == f - start;
    assert w * (n - i) == w * n - w * (i + 1) + w;
    SignOfProduct(w, i + 1);
    SignOfProduct(w, n - i);
    assert w * (i + 1) == w * i + w;
  }

  lemma StartIsGridPoint(c: Settings, now: int, i: nat)
    requires c.Valid() && i < |TimeBuckets(now, c.bucketSize, c.runEvery)|
    ensures GridPoint(c, Floor(c, now) - MINUTE * c.runEvery, Floor(c, now),
                      TimeBuckets(now, c.bucketSize, c.runEvery)[i].0)
  {
    RunIsWholeBuckets(c);
    SpansOnGrid(now, c.bucketSize, c.runEvery, i);
    WithinRun(Width(c.bucketSize), c.runEvery / c.bucketSize, i);
  }

  lemma GridPointIsStart(c: Settings, now: int, start: int)
    requires c.Valid() && GridPoint(c, Floor(c, now) - MINUTE * c.runEvery, Floor(c, now), start)
    ensures start in Starts(c, now)
  {
    FloorFacts(c, now);
    RunIsWholeBuckets(c);
    var i := IndexOfGridPoint(Floor(c, now), start, Width(c.bucketSize), c.runEvery / c.bucketSize);
    assert SpanStarts(now, c.bucketSize, c.runEvery)[i] == start;
  }

  /** A run's spans are all the grid's spans of its stretch. */
  lemma StartsAreGridPoints(c: Settings, now: int, start: int)
    requires c.Valid()
    ensures start in Starts(c, now) <==> GridPoint(c, Floor(c, now) - MINUTE * c.runEvery, Floor(c, now), start)
  {
    if GridPoint(c, Floor(c, now) - MINUTE * c.runEvery, Floor(c, now), start) {
      GridPointIsStart(c, now, start);
    } else if start in Starts(c, now) {
      var i :| 0 <= i < |SpanStarts(now, c.bucketSize, c.runEvery)| &&
        SpanStarts(now, c.bucketSize, c.runEvery)[i] == start;
      StartIsGridPoint(c, now, i);
    }
  }

  lemma GridPointEnds(c: Settings, lo: int, hi: int, start: int)
    requires c.Valid() && GridPoint(c, lo, hi, start) && hi % Width(c.bucketSize) == 0
    ensures start + Width(c.bucketSize) <= hi
  {
    GridShift(start, 1, Width(c.bucketSize));
    GridGap(start + Width(c.bucketSize), hi, Width(c.bucketSize));
  }

  // ----- Any schedule: each bucket is up to date as of its last run -----

  ghost predicate Schedule(c: Settings, states: seq<State>, events: seq<Event>)
    requires c.Valid()
  {
    && |states| == |events| + 1 && states[0] == INIT
    && forall i :: 0 <= i < |events| ==> Step(c, states[i], events[i], states[i + 1])
  }

  /** The rows that were stored when a run last covered a grid point. */
  function SeenRows(s: State, start: int): seq<Row>
    requires start in s.seen && s.seen[start] <= |s.raw|
  {
    s.raw[..s.seen[start]]
  }

  /** A bucket is there if its key occurred when its span was last covered, and holds the sum of then. */
  ghost predicate UpToDate(c: Settings, s: State, id: BucketId)
    requires c.Valid()
  {
    var w := Width(c.bucketSize);
    && (id.start in s.seen ==> s.seen[id.start] <= |s.raw| && id.start % w == 0)
    && (id in s.buckets <==> id.start in s.seen && Occurs(SeenRows(s, id.start), id.key, id.start, id.start + w))
    && (id in s.buckets ==> s.buckets[id] == SpanSum(SeenRows(s, id.start), id.key, id.start, id.start + w))
  }

  ghost predicate AllUpToDate(c: Settings, s: State)
    requires c.Valid()
  {
    forall id :: UpToDate(c, s, id)
  }

  lemma TrackKeepsUpToDate(c: Settings, s: State, row: Row, t: State, id: BucketId)
    requires c.Valid() && UpToDate(c, s, id) && Step(c, s, Track(row), t)
    ensures UpToDate(c, t, id)
  {
    if id.start in s.seen {
      assert SeenRows(t, id.start) == SeenRows(s, id.start);
    }
  }

  lemma OccursInPrefix(raw: seq<Row>, n: nat, key: Key, from: int, till: int)
    requires n <= |raw| && Occurs(raw[..n], key, from, till)
    ensures Occurs(raw, key, from, till)
  {
    var i :| 0 <= i < n && raw[..n][i].key == key && InSpan(raw[..n][i], from, till);
    assert raw[i] == raw[..n][i];
  }

  lemma CoveredIsUpToDate(c: Settings, s: State, now: int, t: State, id: BucketId)
    requires c.Valid() && UpToDate(c, s, id) && id.start in Starts(c, now)
    requires t.raw == s.raw && t.seen == Covered(s.seen, Starts(c, now), |s.raw|)
    requires Written(s.buckets, t.buckets, s.raw, Starts(c, now), Width(c.bucketSize))
    ensures UpToDate(c, t, id)
  {
    StartsAreGridPoints(c, now, id.start);
    assert SeenRows(t, id.start) == s.raw;
    if id in s.buckets {
      OccursInPrefix(s.raw, s.seen[id.start], id.key, id.start, id.start + Width(c.bucketSize));
    }
  }

  lemma OthersStayUpToDate(c: Settings, s: State, now: int, t: State, id: BucketId)
    requires c.Valid() && UpToDate(c, s, id) && id.start !in Starts(c, now)
    requires t.raw == s.raw && t.seen == Covered(s.seen, Starts(c, now), |s.raw|)
    requires Written(s.buckets, t.buckets, s.raw, Starts(c, now), Width(c.bucketSize))
    ensures UpToDate(c, t, id)
  {
    if id.start in s.seen {
      assert SeenRows(t, id.start) == SeenRows(s, id.start);
    }
  }

  lemma RollupKeepsUpToDate(c: Settings, s: State, now: int, t: State, id: BucketId)
    requires c.Valid() && UpToDate(c, s, id)
    requires t.raw == s.raw && t.seen == Covered(s.seen, Starts(c, now), |s.raw|)
    requires Written(s.buckets, t.buckets, s.raw, Starts(c, now), Width(c.bucketSize))
    ensures UpToDate(c, t, id)
  {
    if id.start in Starts(c, now) {
      CoveredIsUpToDate(c, s, now, t, id);
    } else {
      OthersStayUpToDate(c, s, now, t, id);
    }
  }

  /** Over any schedule: every bucket holds the sum of the rows that were stored when a run last covered it. */
  lemma {:induction false} BucketsAreUpToDate(c: Settings, states: seq<State>, events: seq<Event>, n: nat)
    requires c.Valid() && Schedule(c, states, events) && n <= |events|
    ensures AllUpToDate(c, states[n])
  {
    if n > 0 {
      var s, t := states[n - 1], states[n];
      BucketsAreUpToDate(c, states, events, n - 1);
      match events[n - 1]
      case Track(row) =>
        forall id ensures UpToDate(c, t, id) { TrackKeepsUpToDate(c, s, row, t, id); }
      case Rollup(now) =>
        RunWrites(s.buckets, s.raw, SpanStarts(now, c.bucketSize, c.runEvery), Width(c.bucketSize), t.buckets);
        forall id ensures UpToDate(c, t, id) { RollupKeepsUpToDate(c, s, now, t, id); }
    }
  }

  /** The one span a row falls in. */
  function Home(c: Settings, at: int): int
    requires c.Valid()
  {
    at - 1 - (at - 1) % Width(c.bucketSize)
  }

  /** The run's stretch reaches over a time. */
  predicate Reaches(c: Settings, now: int, at: int)
    requires c.Valid()
  {
    Floor(c, now) - MINUTE * c.runEvery < at <= Floor(c, now)
  }

  /** A run covers a row's span exactly if its stretch reaches over the row's time. */
  lemma HomeIsCoveredIff(c: Settings, now: int, at: int)
    requires c.Valid()
    ensures Home(c, at) % Width(c.bucketSize) == 0 && Home(c, at) < at <= Home(c, at) + Width(c.bucketSize)
    ensures Home(c, at) in Starts(c, now) <==> Reaches(c, now, at)
  {
    var w, home := Width(c.bucketSize), Home(c, at);
    var hi, lo := Floor(c, now), Floor(c, now) - MINUTE * c.runEvery;
    DivMod(at - 1, w);
    ModUnique(home, w, (at - 1) / w, 0);
    StartsAreGridPoints(c, now, home);
    FloorFacts(c, now);
    RunIsWholeBuckets(c);
    GridShift(hi, -(c.runEvery / c.bucketSize), w);
    assert w * -(c.runEvery / c.bucketSize) == -(MINUTE * c.runEvery);
    if Reaches(c, now, at) {
      GridGap(lo, home, w);
    }
    if GridPoint(c, lo, hi, home) {
      GridPointEnds(c, lo, hi, home);
    }
  }

  /** The row is among those that its bucket holds the sum of. */
  predicate Counted(c: Settings, s: State, i: nat)
    requires c.Valid() && i < |s.raw|
  {
    var home := Home(c, s.raw[i].at);
    home in s.seen && i < s.seen[home]
  }

  /** Some run after the row was stored reached over its time. */
  ghost predicate CoveredSince(c: Settings, states: seq<State>, events: seq<Event>, n: nat, i: nat)
    requires c.Valid() && |states| == |events| + 1 && n <= |events| && i < |states[n].raw|
  {
    exists m :: 0 <= m < n && events[m].Rollup? && i < |states[m].raw| && Reaches(c, events[m].now, states[n].raw[i].at)
  }

  lemma RowsStay(c: Settings, s: State, e: Event, t: State)
    requires c.Valid() && Step(c, s, e, t)
    ensures |s.raw| <= |t.raw| && t.raw[..|s.raw|] == s.raw
  {
  }

  /** No earlier state had more rows. */
  lemma {:induction false} EarlierRowsAreFewer(c: Settings, states: seq<State>, events: seq<Event>, n: nat)
    requires c.Valid() && Schedule(c, states, events) && 0 < n <= |events|
    ensures forall m :: 0 <= m < n ==> |states[m].raw| <= |states[n - 1].raw|
  {
    if n > 1 {
      EarlierRowsAreFewer(c, states, events, n - 1);
      RowsStay(c, states[n - 2], events[n - 2], states[n - 1]);
    }
  }

  /**
    Over any schedule, whenever rows are stored and runs are made: a row is counted exactly if some run
    after it was stored reached over its time.
   */
  lemma {:induction false} CountedIffCovered(c: Settings, states: seq<State>, events: seq<Event>, n: nat, i: nat)
    requires c.Valid() && Schedule(c, states, events) && n <= |events| && i < |states[n].raw|
    ensures Counted(c, states[n], i) <==> CoveredSince(c, states, events, n, i)
  {
    if n > 0 {
      var s, e, t := states[n - 1], events[n - 1], states[n];
      BucketsAreUpToDate(c, states, events, n - 1);
      RowsStay(c, s, e, t);
      if i < |s.raw| {
        assert t.raw[i] == s.raw[i];
        CountedIffCovered(c, states, events, n - 1, i);
        if e.Rollup? {
          HomeIsCoveredIff(c, e.now, s.raw[i].at);
        }
      } else {
        assert UpToDate(c, s, BucketId(t.raw[i].key, Home(c, t.raw[i].at)));
        EarlierRowsAreFewer(c, states, events, n);
      }
    }
  }

  // ----- Every step keeps the buckets exact -----

  lemma {:induction false} LaterRowsDoNotMatter(raw: seq<Row>, row: Row, key: Key, from: int, till: int)
    requires row.at > till
    ensures Occurs(raw + [row], key, from, till) <==> Occurs(raw, key, from, till)
    ensures SpanSum(raw + [row], key, from, till) == SpanSum(raw, key, from, till)
  {
  }

  lemma TrackKeepsExact(c: Settings, raw: seq<Row>, row: Row, buckets: Buckets, lo: int, hi: int)
    requires c.Valid() && Exact(c, raw, buckets, lo, hi) && hi % Width(c.bucketSize) == 0 && row.at > hi
    ensures Exact(c, raw + [row], buckets, lo, hi)
  {
    var w := Width(c.bucketSize);
    forall id: BucketId | GridPoint(c, lo, hi, id.start)
      ensures Occurs(raw + [row], id.key, id.start, id.start + w) <==> Occurs(raw, id.key, id.start, id.start + w)
      ensures SpanSum(raw + [row], id.key, id.start, id.start + w) == SpanSum(raw, id.key, id.start, id.start + w)
    {
      GridPointEnds(c, lo, hi, id.start);
      LaterRowsDoNotMatter(raw, row, id.key, id.start, id.start + w);
    }
  }

  /** A run whose stretch leaves no gap extends the exact span to its end. */
  lemma RunKeepsExact(c: Settings, raw: seq<Row>, before: Buckets, after: Buckets, lo: int, hi: int, now: int)
    requires c.Valid() && Exact(c, raw, before, lo, hi)
    requires Written(before, after, raw, Starts(c, now), Width(c.bucketSize))
    requires lo <= Floor(c, now) - MINUTE * c.runEvery <= hi <= Floor(c, now)
    ensures Exact(c, raw, after, lo, Floor(c, now))
  {
    forall start ensures start in Starts(c, now) <==>
        GridPoint(c, Floor(c, now) - MINUTE * c.runEvery, Floor(c, now), start)
    {
      StartsAreGridPoints(c, now, start);
    }
  }

  lemma FloorsInOrder(c: Settings, a: int, b: int)
    requires c.Valid() && a <= b
    ensures Floor(c, a) <= Floor(c, b)
  {
    FloorFacts(c, a);
    FloorFacts(c, b);
    GridGap(Floor(c, a), Floor(c, b), Width(c.bucketSize));
  }

  lemma StepKeepsInv(c: Settings, s: State, e: Event, t: State)
    requires c.Valid() && Inv(c, s) && Step(c, s, e, t) && OnTime(c, s, e)
    ensures Inv(c, t)
  {
    match e
    case Track(row) =>
      if s.runs.Some? {
        FloorFacts(c, s.runs.value.1);
        TrackKeepsExact(c, s.raw, row, s.buckets, SpanStart(c, s), SpanEnd(c, s));
      }
    case Rollup(now) =>
      RunWrites(s.buckets, s.raw, SpanStarts(now, c.bucketSize, c.runEvery), Width(c.bucketSize), t.buckets);
      if s.runs.Some? {
        FloorMonotone(c, s.runs.value.1, now);
        FloorsInOrder(c, s.runs.value.0, now);
        RunKeepsExact(c, s.raw, s.buckets, t.buckets, SpanStart(c, s), SpanEnd(c, s), now);
      } else {
        RunIsWholeBuckets(c);
        var lo := Floor(c, now) - MINUTE * c.runEvery;
        assert Exact(c, s.raw, map[], lo, lo);
        RunKeepsExact(c, s.raw, map[], t.buckets, lo, lo, now);
      }
  }

  ghost predicate AllOnTime(c: Settings, states: seq<State>, events: seq<Event>)
    requires |states| == |events| + 1
  {
    forall i :: 0 <= i < |events| ==> OnTime(c, states[i], events[i])
  }

  /** With rows in time and no gaps between runs, the buckets are exact over the stretch covered. */
  lemma {:induction false} ScheduleKeepsInv(c: Settings, states: seq<State>, events: seq<Event>, n: nat)
    requires c.Valid() && Schedule(c, states, events) && AllOnTime(c, states, events) && n <= |events|
    ensures Inv(c, states[n])
  {
    if n > 0 {
      ScheduleKeepsInv(c, states, events, n - 1);
      StepKeepsInv(c, states[n - 1], events[n - 1], states[n]);
    }
  }

  // ----- What exactness means -----

  /** The total of a key's buckets at `n` consecutive grid points. */
  function BucketTotal(buckets: Buckets, key: Key, lo: int, n: nat, w: nat): int
  {
    if n == 0 then 0
    else
      var id := BucketId(key, lo + w * (n - 1));
      BucketTotal(buckets, key, lo, n - 1, w) + (if id in buckets then buckets[id] else 0)
  }

  lemma {:induction false} EmptySpan(raw: seq<Row>, key: Key, at: int)
    ensures SpanSum(raw, key, at, at) == 0
  {
    if raw != [] {
      EmptySpan(raw[..|raw| - 1], key, at);
    }
  }

  lemma {:induction false} TotalsAgree(c: Settings, raw: seq<Row>, buckets: Buckets, lo: int, hi: int, key: Key, n: nat)
    requires c.Valid() && Exact(c, raw, buckets, lo, hi) && lo % Width(c.bucketSize) == 0
    requires lo + Width(c.bucketSize) * n <= hi
    ensures BucketTotal(buckets, key, lo, n, Width(c.bucketSize)) == SpanSum(raw, key, lo, lo + Width(c.bucketSize) * n)
  {
    var w := Width(c.bucketSize);
    if n == 0 {
      EmptySpan(raw, key, lo);
    } else {
      var start := lo + w * (n - 1);
      assert start + w == lo + w * n by { assert w * n == w * (n - 1) + w; }
      ProductGrows(w, n - 1);
      GridShift(lo, n - 1, w);
      TotalsAgree(c, raw, buckets, lo, hi, key, n - 1);
      SpansAddUp(raw, key, lo, start, start + w);
      if BucketId(key, start) !in buckets {
        AbsentSumsToZero(raw, key, start, start + w);
      }
    }
  }

  /** How many buckets wide the covered span is. */
  function SpanCount(c: Settings, s: State): int
    requires c.Valid() && s.runs.Some?
  {
    (SpanEnd(c, s) - SpanStart(c, s)) / Width(c.bucketSize)
  }

  /** Bucket totals equal raw totals, per key, over the whole span covered by the schedule. */
  lemma BucketTotalsAreRawTotals(c: Settings, states: seq<State>, events: seq<Event>, n: nat, key: Key)
    requires c.Valid() && Schedule(c, states, events) && AllOnTime(c, states, events) && n <= |events| &&
             states[n].runs.Some?
    ensures var s := states[n];
            && SpanCount(c, s) > 0
            && BucketTotal(s.buckets, key, SpanStart(c, s), SpanCount(c, s), Width(c.bucketSize))
               == SpanSum(s.raw, key, SpanStart(c, s), SpanEnd(c, s))
  {
    var s, w := states[n], Width(c.bucketSize);
    ScheduleKeepsInv(c, states, events, n);
    FloorFacts(c, s.runs.value.0);
    FloorFacts(c, s.runs.value.1);
    FloorsInOrder(c, s.runs.value.0, s.runs.value.1);
    RunIsWholeBuckets(c);
    DivMod(c.runEvery, c.bucketSize);
    GridShift(Floor(c, s.runs.value.0), -(c.runEvery / c.bucketSize), w);
    assert w * -(c.runEvery / c.bucketSize) == -(MINUTE * c.runEvery);
    var lo, hi := SpanStart(c, s), SpanEnd(c, s);
    DivMod(lo, w);
    DivMod(hi, w);
    assert w * (hi / w - lo / w) == hi - lo;
    ModUnique(hi - lo, w, hi / w - lo / w, 0);
    assert lo + w * SpanCount(c, s) == hi;
    SignOfProduct(w, SpanCount(c, s));
    TotalsAgree(c, s.raw, s.buckets, lo, hi, key, SpanCount(c, s));
  }

  /** Every raw row of the covered span is counted in exactly one bucket. */
  lemma CountedExactlyOnce(c: Settings, states: seq<State>, events: seq<Event>, n: nat, i: nat, start: int)
    requires c.Valid() && Schedule(c, states, events) && AllOnTime(c, states, events) && n <= |events| &&
             states[n].runs.Some? && i < |states[n].raw|
    requires SpanStart(c, states[n]) < states[n].raw[i].at <= SpanEnd(c, states[n])
    ensures var s, row := states[n], states[n].raw[i];
            BucketId(row.key, start) in s.buckets && InSpan(row, start, start + Width(c.bucketSize)) <==>
                start == Home(c, row.at)
  {
    var s, w := states[n], Width(c.bucketSize);
    var row, home := s.raw[i], Home(c, s.raw[i].at);
    ScheduleKeepsInv(c, states, events, n);
    DivMod(row.at - 1, w);
    ModUnique(home, w, (row.at - 1) / w, 0);
    assert InSpan(row, home, home + w);
    FloorFacts(c, s.runs.value.0);
    RunIsWholeBuckets(c);
    GridShift(Floor(c, s.runs.value.0), -(c.runEvery / c.bucketSize), w);
    assert w * -(c.runEvery / c.bucketSize) == -(MINUTE * c.runEvery);
    GridGap(SpanStart(c, s), home, w);
    assert GridPoint(c, SpanStart(c, s), SpanEnd(c, s), home);
    assert Occurs(s.raw, row.key, home, home + w);
    if start % w == 0 && InSpan(row, start, start + w) {
      GridGap(start, home, w);
      GridGap(home, start, w);
    }
  }

  /** Any two buckets ever produced cover the same span or disjoint ones. */
  lemma SpansEqualOrDisjoint(c: Settings, a: int, b: int, at: int)
    requires c.Valid() && a % Width(c.bucketSize) == 0 && b % Width(c.bucketSize) == 0
    requires a < at <= a + Width(c.bucketSize) && b < at <= b + Width(c.bucketSize)
    ensures a == b
  {
    GridGap(a, b, Width(c.bucketSize));
    GridGap(b, a, Width(c.bucketSize));
  }

  /** Running again changes nothing. */
  lemma RunIsIdempotent(c: Settings, raw: seq<Row>, before: Buckets, after: Buckets, again: Buckets, now: int)
    requires c.Valid() && Run(c, before, raw, now) == Some(after) && Run(c, after, raw, now) == Some(again)
    ensures again == after
  {
    RunWrites(before, raw, SpanStarts(now, c.bucketSize, c.runEvery), Width(c.bucketSize), after);
    RunWrites(after, raw, SpanStarts(now, c.bucketSize, c.runEvery), Width(c.bucketSize), again);
  }

  /** At any point of a schedule whose label sets are incomparable, the next run succeeds. */
  lemma NextRunSucceeds(c: Settings, states: seq<State>, events: seq<Event>, n: nat, now: int)
    requires c.Valid() && Schedule(c, states, events) && n <= |events| && LabelsIncomparable(states[n].raw)
    ensures Run(c, states[n].buckets, states[n].raw, now).Some?
  {
    var s, starts := states[n], SpanStarts(now, c.bucketSize, c.runEvery);
    BucketsAreUpToDate(c, states, events, n);
    forall id | id in s.buckets
      ensures id.start % Width(c.bucketSize) == 0 && exists i :: 0 <= i < |s.raw| && s.raw[i].key == id.key
    {
      assert UpToDate(c, s, id);
      OccursInPrefix(s.raw, s.seen[id.start], id.key, id.start, id.start + Width(c.bucketSize));
    }
    forall i | 0 <= i < |starts| ensures starts[i] % Width(c.bucketSize) == 0 {
      SpansOnGrid(now, c.bucketSize, c.runEvery, i);
    }
    IncomparableLabelsNeverFail(s.buckets, s.raw, starts, Width(c.bucketSize));
  }
}
