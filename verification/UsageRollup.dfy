/**
  Rolling raw usage rows up into aligned time buckets, by re-aggregating an overlapping span on
  every run. Times are in seconds; the hour starts at multiples of 3600.
 */
module UsageRollup {
  import opened Options

  datatype Error = BucketTooLarge | DivisionByZero | OverlappingBucket

  /** API usage counts per resource, feature evaluations per feature. */
  datatype Subject = Resource(id: nat) | Feature(name: string)
  type Labels = map<string, string>
  datatype Key = Key(environment: nat, subject: Subject, labels: Labels)
  datatype Row = Row(at: int, key: Key, count: int)

  /** The columns that identify a bucket, for one bucket size. */
  datatype BucketId = BucketId(key: Key, start: int)
  type Buckets = map<BucketId, int>

  // ----- The time buckets of a run -----

  const MINUTE := 60

  function Width(bucketSize: nat): nat
  {
    MINUTE * bucketSize
  }

  /** The minute's start, moved back to a multiple of the bucket size within the hour. */
  function StartOfCurrentBucket(now: int, bucketSize: nat): int
    requires bucketSize > 0
  {
    var currentMinute := now - now % MINUTE;
    currentMinute - MINUTE * ((now / MINUTE % 60) % bucketSize)
  }

  lemma {:induction false} ProductGrows(d: int, t: nat)
    requires d >= 0
    ensures d * t >= 0
    ensures t >= 1 ==> d * t >= d
  {
  }

  /** Zero is the only multiple of `d` between -d and d. */
  lemma OnlyZeroBetween(d: int, t: int)
    requires d > 0 && -d < d * t < d
    ensures t == 0
  {
  }

  lemma DivMod(a: int, d: int)
    requires d > 0
    ensures a == d * (a / d) + a % d && 0 <= a % d < d
  {
  }

  lemma ModUnique(a: int, d: int, q: int, r: int)
    requires d > 0 && a == d * q + r && 0 <= r < d
    ensures a % d == r && a / d == q
  {
    DivMod(a, d);
    assert d * (q - a / d) == a % d - r;
    OnlyZeroBetween(d, q - a / d);
  }

  /** With a bucket size that divides the hour, buckets start at multiples of their width. */
  lemma StartIsAligned(now: int, bucketSize: nat)
    requires bucketSize > 0 && 60 % bucketSize == 0
    ensures StartOfCurrentBucket(now, bucketSize) == now - now % Width(bucketSize) == now - now % (60 * bucketSize)
  {
    var m := now / MINUTE;
    var n := 60 / bucketSize;
    assert 60 == bucketSize * n by { DivMod(60, bucketSize); }
    // m % 60 % size == m % size
    var q := m % 60 / bucketSize;
    DivMod(m, 60);
    DivMod(m % 60, bucketSize);
    assert m == bucketSize * (n * (m / 60) + q) + m % 60 % bucketSize by {
      assert 60 * (m / 60) == bucketSize * (n * (m / 60));
    }
    var k := n * (m / 60) + q;
    var r := now % MINUTE + MINUTE * (m % 60 % bucketSize);
    DivMod(now, MINUTE);
    assert now == Width(bucketSize) * k + r;
    assert r < Width(bucketSize) by {
      assert m % 60 % bucketSize <= bucketSize - 1;
    }
    ModUnique(now, Width(bucketSize), k, r);
  }

  /** The spans of a run, newest first; the current bucket is still open. */
  function TimeBuckets(now: int, bucketSize: nat, runEvery: nat): seq<(int, int)>
    requires bucketSize > 0
  {
    var first := StartOfCurrentBucket(now, bucketSize);
    seq(runEvery / bucketSize, i => (first - Width(bucketSize) * i - Width(bucketSize), first - Width(bucketSize) * i))
  }

  // ----- The aggregates -----

  predicate InSpan(row: Row, from: int, till: int)
  {
    from < row.at <= till
  }

  /** The raw count of one key in a span, open at its start and closed at its end. */
  function SpanSum(raw: seq<Row>, key: Key, from: int, till: int): int
  {
    if raw == [] then 0
    else SpanSum(raw[..|raw| - 1], key, from, till) +
         (if raw[|raw| - 1].key == key && InSpan(raw[|raw| - 1], from, till) then raw[|raw| - 1].count else 0)
  }

  ghost predicate Occurs(raw: seq<Row>, key: Key, from: int, till: int)
  {
    exists i :: 0 <= i < |raw| && raw[i].key == key && InSpan(raw[i], from, till)
  }

  /** The keys of a span, each once. */
  function KeysIn(raw: seq<Row>, from: int, till: int): seq<Key>
  {
    if raw == [] then []
    else
      var keys := KeysIn(raw[..|raw| - 1], from, till);
      var last := raw[|raw| - 1];
      if InSpan(last, from, till) && last.key !in keys then keys + [last.key] else keys
  }

  lemma OccursSnoc(raw: seq<Row>, key: Key, from: int, till: int)
    requires raw != []
    ensures var n := |raw| - 1;
            Occurs(raw, key, from, till) <==>
            Occurs(raw[..n], key, from, till) || (raw[n].key == key && InSpan(raw[n], from, till))
  {
  }

  /** It is the sum of the counts of the key's rows later than its start and no later than its end. */
  lemma {:induction false} SpanSumIs(raw: seq<Row>, key: Key, from: int, till: int, row: Row)
    ensures SpanSum([], key, from, till) == 0
    ensures SpanSum(raw + [row], key, from, till) ==
            SpanSum(raw, key, from, till) + (if row.key == key && row.at > from && row.at <= till then row.count else 0)
    ensures Occurs(raw + [row], key, from, till) <==>
            Occurs(raw, key, from, till) || (row.key == key && row.at > from && row.at <= till)
    ensures !Occurs([], key, from, till)
  {
    assert (raw + [row])[..|raw|] == raw;
    OccursSnoc(raw + [row], key, from, till);
  }

  lemma {:induction false} KeysInSpec(raw: seq<Row>, from: int, till: int)
    ensures forall key :: key in KeysIn(raw, from, till) <==> Occurs(raw, key, from, till)
    ensures forall i, j :: 0 <= i < j < |KeysIn(raw, from, till)| ==>
            KeysIn(raw, from, till)[i] != KeysIn(raw, from, till)[j]
  {
    if raw != [] {
      var n := |raw| - 1;
      KeysInSpec(raw[..n], from, till);
      forall key ensures key in KeysIn(raw, from, till) <==> Occurs(raw, key, from, till) {
        OccursSnoc(raw, key, from, till);
      }
    }
  }

  /** Adjacent spans add up: nothing is counted twice, nothing is dropped in between. */
  lemma {:induction false} SpansAddUp(raw: seq<Row>, key: Key, a: int, b: int, c: int)
    requires a <= b <= c
    ensures SpanSum(raw, key, a, c) == SpanSum(raw, key, a, b) + SpanSum(raw, key, b, c)
  {
    if raw != [] {
      SpansAddUp(raw[..|raw| - 1], key, a, b, c);
    }
  }

  lemma {:induction false} AbsentSumsToZero(raw: seq<Row>, key: Key, from: int, till: int)
    requires !Occurs(raw, key, from, till)
    ensures SpanSum(raw, key, from, till) == 0
  {
    if raw != [] {
      var n := |raw| - 1;
      OccursSnoc(raw, key, from, till);
      AbsentSumsToZero(raw[..n], key, from, till);
    }
  }

  // ----- Writing a bucket -----

  /** JSON containment of one label set in another. */
  predicate Contains(outer: Labels, inner: Labels)
  {
    forall k :: k in inner ==> k in outer && outer[k] == inner[k]
  }

  /** It has every entry of the other, and maybe more. */
  lemma ContainsIff(outer: Labels, inner: Labels)
    ensures Contains(outer, inner) <==> inner.Items <= outer.Items
  {
    if Contains(outer, inner) {
      forall e | e in inner.Items ensures e in outer.Items {
        assert e.0 in inner && inner[e.0] == e.1;
      }
    }
    if inner.Items <= outer.Items {
      forall k | k in inner ensures k in outer && outer[k] == inner[k] {
        assert (k, inner[k]) in inner.Items;
      }
    }
  }

  predicate SubjectContains(outer: Key, inner: Key)
  {
    outer.environment == inner.environment && outer.subject == inner.subject && Contains(outer.labels, inner.labels)
  }

  /** The bucket that keeps a new one from being created. */
  predicate Blocks(other: BucketId, id: BucketId, width: nat)
  {
    SubjectContains(other.key, id.key) && id.start <= other.start < id.start + width
  }

  predicate Blocked(buckets: Buckets, id: BucketId, width: nat)
  {
    id !in buckets && exists other :: other in buckets && Blocks(other, id, width)
  }

  /** `update_or_create`, with the overlap check before a creation. */
  function Upsert(buckets: Buckets, id: BucketId, total: int, width: nat): Option<Buckets>
  {
    if Blocked(buckets, id, width) then None else Some(buckets[id := total])
  }

  /** The entries of one key's labels are among those of another of its environment and subject. */
  ghost predicate LabelsAmong(inner: Key, outer: Key)
  {
    inner.environment == outer.environment && inner.subject == outer.subject && inner.labels.Items <= outer.labels.Items
  }

  /** Label sets of the same subject are never properly contained in one another. */
  ghost predicate LabelsIncomparable(raw: seq<Row>)
  {
    forall i, j :: 0 <= i < |raw| && 0 <= j < |raw| && LabelsAmong(raw[j].key, raw[i].key) ==>
        raw[i].key == raw[j].key
  }

  /**
    A bucket that is not there is refused exactly if one of its environment and subject that starts in its
    span has all of its labels.
   */
  lemma RefusedIff(buckets: Buckets, id: BucketId, total: int, width: nat)
    ensures Upsert(buckets, id, total, width).None? <==>
            && id !in buckets
            && exists other :: other in buckets && id.start <= other.start < id.start + width
                 && LabelsAmong(id.key, other.key)
  {
    forall other | other in buckets
      ensures Contains(other.key.labels, id.key.labels) <==> id.key.labels.Items <= other.key.labels.Items
    {
      ContainsIff(other.key.labels, id.key.labels);
    }
  }

  /** So the order decides: fewer labels after more are refused, and more after fewer are written. */
  lemma OrderOfLabelsMatters(environment: nat, subject: Subject, start: int, name: string, value: string, m: int,
                             n: int, width: nat)
    requires width > 0
    ensures var bare := BucketId(Key(environment, subject, map[]), start);
            var labelled := BucketId(Key(environment, subject, map[name := value]), start);
            && Upsert(map[bare := m], labelled, n, width) == Some(map[bare := m, labelled := n])
            && Upsert(map[labelled := n], bare, m, width) == None
  {
    var bare := BucketId(Key(environment, subject, map[]), start);
    var labelled := BucketId(Key(environment, subject, map[name := value]), start);
    var few, more: Labels := map[], map[name := value];
    assert name in more && name !in few;
    assert (name, value) in more.Items && (name, value) !in few.Items;
    RefusedIff(map[bare := m], labelled, n, width);
    RefusedIff(map[labelled := n], bare, m, width);
    assert LabelsAmong(bare.key, labelled.key) && labelled in map[labelled := n];
  }

  /** Buckets lie on the grid and count keys that were tracked. */
  ghost predicate OnGrid(buckets: Buckets, raw: seq<Row>, width: nat)
    requires width > 0
  {
    forall id :: id in buckets ==> id.start % width == 0 && exists i :: 0 <= i < |raw| && raw[i].key == id.key
  }

  lemma SameGridPoint(a: int, b: int, width: nat)
    requires width > 0 && a % width == 0 && b % width == 0 && a <= b < a + width
    ensures a == b
  {
    DivMod(a, width);
    DivMod(b, width);
    assert width * (b / width - a / width) == b - a;
    OnlyZeroBetween(width, b / width - a / width);
  }

  lemma NotBlocked(buckets: Buckets, raw: seq<Row>, id: BucketId, width: nat)
    requires width > 0 && OnGrid(buckets, raw, width) && LabelsIncomparable(raw)
    requires id.start % width == 0 && exists i :: 0 <= i < |raw| && raw[i].key == id.key
    ensures !Blocked(buckets, id, width)
  {
    forall other | other in buckets && Blocks(other, id, width) ensures other == id {
      SameGridPoint(id.start, other.start, width);
      var i :| 0 <= i < |raw| && raw[i].key == id.key;
      var j :| 0 <= j < |raw| && raw[j].key == other.key;
      ContainsIff(other.key.labels, id.key.labels);
      assert LabelsAmong(raw[i].key, raw[j].key);
    }
  }

  // ----- A run -----

  /** The buckets at some grid points hold the raw counts of their spans; all others are as before. */
  ghost predicate Written(before: Buckets, after: Buckets, raw: seq<Row>, starts: set<int>, width: nat)
  {
    && (forall id :: id in after <==>
          id in before || (id.start in starts && Occurs(raw, id.key, id.start, id.start + width)))
    && (forall id :: id in after ==>
          after[id] == if id.start in starts && Occurs(raw, id.key, id.start, id.start + width)
                       then SpanSum(raw, id.key, id.start, id.start + width) else before[id])
  }

  /** One span, up to some of its keys. */
  ghost predicate KeysWritten(before: Buckets, after: Buckets, raw: seq<Row>, start: int, keys: seq<Key>, width: nat)
  {
    && (forall id :: id in after <==> id in before || (id.start == start && id.key in keys))
    && (forall id :: id in after ==>
          after[id] == if id.start == start && id.key in keys then SpanSum(raw, id.key, start, start + width)
              else before[id])
  }

  lemma KeyWritten(before: Buckets, after: Buckets, raw: seq<Row>, start: int, keys: seq<Key>, key: Key, width: nat)
    requires KeysWritten(before, after, raw, start, keys, width)
    ensures KeysWritten(before, after[BucketId(key, start) := SpanSum(raw, key, start, start + width)], raw, start,
                        keys + [key], width)
  {
  }

  /** Writes several keys' buckets of one span; the first that is blocked stops it. */
  function UpsertAll(buckets: Buckets, raw: seq<Row>, keys: seq<Key>, start: int, width: nat): Option<Buckets>
  {
    if keys == [] then Some(buckets)
    else
      var n := |keys| - 1;
      var written := UpsertAll(buckets, raw, keys[..n], start, width);
      if written.None? then None
      else Upsert(written.value, BucketId(keys[n], start), SpanSum(raw, keys[n], start, start + width), width)
  }

  lemma {:induction false} UpsertAllWrites(buckets: Buckets, raw: seq<Row>, keys: seq<Key>, start: int, width: nat)
    ensures var written := UpsertAll(buckets, raw, keys, start, width);
            written.Some? ==> KeysWritten(buckets, written.value, raw, start, keys, width)
    decreases |keys|
  {
    if keys != [] {
      var n := |keys| - 1;
      UpsertAllWrites(buckets, raw, keys[..n], start, width);
      assert keys == keys[..n] + [keys[n]];
      var written := UpsertAll(buckets, raw, keys[..n], start, width);
      if written.Some? {
        KeyWritten(buckets, written.value, raw, start, keys[..n], keys[n], width);
      }
    }
  }

  /** A blocked key stops all that follow. */
  lemma {:induction false} StopsForGood(buckets: Buckets, raw: seq<Row>, keys: seq<Key>, start: int, width: nat, k: nat)
    requires k <= |keys| && UpsertAll(buckets, raw, keys[..k], start, width).None?
    ensures UpsertAll(buckets, raw, keys, start, width).None?
    decreases |keys|
  {
    if k == |keys| {
      assert keys[..k] == keys;
    } else {
      assert keys[..|keys| - 1][..k] == keys[..k];
      StopsForGood(buckets, raw, keys[..|keys| - 1], start, width, k);
    }
  }

  /**
    A key without a bucket, whose labels are all among those of another of its environment and subject:
    one with a bucket that starts in the span, or one written before it.
   */
  ghost predicate Nested(buckets: Buckets, keys: seq<Key>, start: int, width: nat, i: nat)
    requires i < |keys|
  {
    && BucketId(keys[i], start) !in buckets && keys[i] !in keys[..i]
    && (|| (exists other :: other in buckets && start <= other.start < start + width && LabelsAmong(keys[i], other.key))
        || (exists j :: 0 <= j < i && LabelsAmong(keys[i], keys[j])))
  }

  lemma BlockedIffNested(before: Buckets, after: Buckets, raw: seq<Row>, keys: seq<Key>, start: int, width: nat, i: nat)
    requires width > 0 && i < |keys| && KeysWritten(before, after, raw, start, keys[..i], width)
    ensures Blocked(after, BucketId(keys[i], start), width) <==> Nested(before, keys, start, width, i)
  {
    var id := BucketId(keys[i], start);
    RefusedIff(after, id, 0, width);
    assert forall j :: 0 <= j < i ==> keys[..i][j] == keys[j];
    assert forall j :: 0 <= j < i ==> BucketId(keys[j], start) in after;
  }

  /** Exactly when a span cannot be written: when the labels of some new key are nested in others. */
  lemma {:induction false} NestedLabelsStopTheRun(buckets: Buckets, raw: seq<Row>, keys: seq<Key>, start: int,
                                                  width: nat)
    requires width > 0
    ensures UpsertAll(buckets, raw, keys, start, width).None? <==>
            exists i :: 0 <= i < |keys| && Nested(buckets, keys, start, width, i)
    decreases |keys|
  {
    if keys != [] {
      var n := |keys| - 1;
      NestedLabelsStopTheRun(buckets, raw, keys[..n], start, width);
      UpsertAllWrites(buckets, raw, keys[..n], start, width);
      forall i | 0 <= i < n
        ensures Nested(buckets, keys[..n], start, width, i) <==> Nested(buckets, keys, start, width, i)
      {
        assert keys[..n][..i] == keys[..i];
      }
      var written := UpsertAll(buckets, raw, keys[..n], start, width);
      if written.Some? {
        BlockedIffNested(buckets, written.value, raw, keys, start, width, n);
      }
    }
  }

  lemma KeyStaysOnGrid(buckets: Buckets, raw: seq<Row>, id: BucketId, total: int, width: nat)
    requires width > 0 && OnGrid(buckets, raw, width) && LabelsIncomparable(raw)
    requires id.start % width == 0 && Occurs(raw, id.key, id.start, id.start + width)
    ensures !Blocked(buckets, id, width) && OnGrid(buckets[id := total], raw, width)
  {
    NotBlocked(buckets, raw, id, width);
  }

  /** With incomparable labels, buckets on the grid are never in each other's way. */
  lemma {:induction false} IncomparableLabelsNeverStop(buckets: Buckets, raw: seq<Row>, keys: seq<Key>, start: int,
                                                       width: nat)
    requires width > 0 && OnGrid(buckets, raw, width) && LabelsIncomparable(raw) && start % width == 0
    requires forall i :: 0 <= i < |keys| ==> Occurs(raw, keys[i], start, start + width)
    ensures var written := UpsertAll(buckets, raw, keys, start, width);
            written.Some? && OnGrid(written.value, raw, width)
    decreases |keys|
  {
    if keys != [] {
      var n := |keys| - 1;
      IncomparableLabelsNeverStop(buckets, raw, keys[..n], start, width);
      var written := UpsertAll(buckets, raw, keys[..n], start, width);
      KeyStaysOnGrid(written.value, raw, BucketId(keys[n], start), SpanSum(raw, keys[n], start, start + width), width);
    }
  }

  lemma SpanWritten(before: Buckets, after: Buckets, raw: seq<Row>, start: int, width: nat)
    requires KeysWritten(before, after, raw, start, KeysIn(raw, start, start + width), width)
    ensures Written(before, after, raw, {start}, width)
  {
    KeysInSpec(raw, start, start + width);
  }

  lemma WrittenCompose(b0: Buckets, b1: Buckets, b2: Buckets, raw: seq<Row>, starts: set<int>, start: int, width: nat)
    requires Written(b0, b1, raw, starts, width) && Written(b1, b2, raw, {start}, width)
    ensures Written(b0, b2, raw, starts + {start}, width)
  {
  }

  /** Every start of a run's spans lies on the grid if the current bucket's does. */
  lemma SpansOnGrid(now: int, bucketSize: nat, runEvery: nat, i: nat)
    requires bucketSize > 0 && 60 % bucketSize == 0 && i < |TimeBuckets(now, bucketSize, runEvery)|
    ensures TimeBuckets(now, bucketSize, runEvery)[i].0 % Width(bucketSize) == 0
    ensures TimeBuckets(now, bucketSize, runEvery)[i].1 ==
            TimeBuckets(now, bucketSize, runEvery)[i].0 + Width(bucketSize)
  {
    var w := Width(bucketSize);
    StartIsAligned(now, bucketSize);
    DivMod(now, w);
    ModUnique(TimeBuckets(now, bucketSize, runEvery)[i].0, w, now / w - i - 1, 0) by {
      assert w * (now / w - i - 1) == w * (now / w) - w * i - w;
    }
  }

  /** One span: upsert the sum of every key that occurs in it. */
  function UpsertSpan(buckets: Buckets, raw: seq<Row>, start: int, width: nat): Option<Buckets>
  {
    UpsertAll(buckets, raw, KeysIn(raw, start, start + width), start, width)
  }

  lemma SpanWrites(before: Buckets, raw: seq<Row>, start: int, width: nat)
    ensures var written := UpsertSpan(before, raw, start, width);
            written.Some? ==> Written(before, written.value, raw, {start}, width)
  {
    var keys := KeysIn(raw, start, start + width);
    UpsertAllWrites(before, raw, keys, start, width);
    if UpsertAll(before, raw, keys, start, width).Some? {
      SpanWritten(before, UpsertAll(before, raw, keys, start, width).value, raw, start, width);
    }
  }

  lemma SpanNeverStops(before: Buckets, raw: seq<Row>, start: int, width: nat)
    requires width > 0 && OnGrid(before, raw, width) && LabelsIncomparable(raw) && start % width == 0
    ensures var written := UpsertSpan(before, raw, start, width);
            written.Some? && OnGrid(written.value, raw, width)
  {
    KeysInSpec(raw, start, start + width);
    IncomparableLabelsNeverStop(before, raw, KeysIn(raw, start, start + width), start, width);
  }

  /** The starts of a run's spans, newest first. */
  function SpanStarts(now: int, bucketSize: nat, runEvery: nat): seq<int>
    requires bucketSize > 0
  {
    var spans := TimeBuckets(now, bucketSize, runEvery);
    seq(|spans|, i requires 0 <= i < |spans| => spans[i].0)
  }

  /** A whole run: span after span, until one cannot be written. */
  function RunAll(buckets: Buckets, raw: seq<Row>, starts: seq<int>, width: nat): Option<Buckets>
  {
    if starts == [] then Some(buckets)
    else
      var n := |starts| - 1;
      var written := RunAll(buckets, raw, starts[..n], width);
      if written.None? then None
      else UpsertSpan(written.value, raw, starts[n], width)
  }

  ghost function Elements(starts: seq<int>): set<int>
  {
    set i | 0 <= i < |starts| :: starts[i]
  }

  lemma ElementsSnoc(starts: seq<int>)
    requires starts != []
    ensures Elements(starts) == Elements(starts[..|starts| - 1]) + {starts[|starts| - 1]}
  {
  }

  lemma AnotherSpanWritten(b0: Buckets, b1: Buckets, b2: Buckets, raw: seq<Row>, starts: seq<int>, width: nat)
    requires starts != [] && Written(b0, b1, raw, Elements(starts[..|starts| - 1]), width)
    requires UpsertSpan(b1, raw, starts[|starts| - 1], width) == Some(b2)
    ensures Written(b0, b2, raw, Elements(starts), width)
  {
    SpanWrites(b1, raw, starts[|starts| - 1], width);
    ElementsSnoc(starts);
    WrittenCompose(b0, b1, b2, raw, Elements(starts[..|starts| - 1]), starts[|starts| - 1], width);
  }

  lemma {:induction false} RunWrites(buckets: Buckets, raw: seq<Row>, starts: seq<int>, width: nat, after: Buckets)
    requires RunAll(buckets, raw, starts, width) == Some(after)
    ensures Written(buckets, after, raw, Elements(starts), width)
    decreases |starts|
  {
    if starts != [] {
      var prefix := starts[..|starts| - 1];
      var mid := RunAll(buckets, raw, prefix, width).value;
      RunWrites(buckets, raw, prefix, width, mid);
      AnotherSpanWritten(buckets, mid, after, raw, starts, width);
    }
  }

  /** With incomparable labels and aligned buckets a run never fails. */
  lemma {:induction false} IncomparableLabelsNeverFail(buckets: Buckets, raw: seq<Row>, starts: seq<int>, width: nat)
    requires width > 0 && OnGrid(buckets, raw, width) && LabelsIncomparable(raw)
    requires forall i :: 0 <= i < |starts| ==> starts[i] % width == 0
    ensures var written := RunAll(buckets, raw, starts, width);
            written.Some? && OnGrid(written.value, raw, width)
    decreases |starts|
  {
    if starts != [] {
      var n := |starts| - 1;
      IncomparableLabelsNeverFail(buckets, raw, starts[..n], width);
      SpanNeverStops(RunAll(buckets, raw, starts[..n], width).value, raw, starts[n], width);
    }
  }

  lemma {:induction false} FailsForGood(buckets: Buckets, raw: seq<Row>, starts: seq<int>, width: nat, k: nat)
    requires k <= |starts| && RunAll(buckets, raw, starts[..k], width).None?
    ensures RunAll(buckets, raw, starts, width).None?
    decreases |starts|
  {
    if k == |starts| {
      assert starts[..k] == starts;
    } else {
      assert starts[..|starts| - 1][..k] == starts[..k];
      FailsForGood(buckets, raw, starts[..|starts| - 1], width, k);
    }
  }

  /** A span that stopped early has written some of its keys, in order. */
  ghost predicate CutShort(before: Buckets, after: Buckets, raw: seq<Row>, start: int, width: nat)
  {
    var keys := KeysIn(raw, start, start + width);
    exists k :: 0 <= k < |keys| && Some(after) == UpsertAll(before, raw, keys[..k], start, width)
  }

  /** A run that failed has written some spans, and part of the next. */
  ghost predicate Interrupted(before: Buckets, after: Buckets, raw: seq<Row>, starts: seq<int>, width: nat)
  {
    exists i ::
      && 0 <= i < |starts| && RunAll(before, raw, starts[..i], width).Some?
      && CutShort(RunAll(before, raw, starts[..i], width).value, after, raw, starts[i], width)
  }

  lemma NextSpanDone(before: Buckets, mid: Buckets, raw: seq<Row>, starts: seq<int>, width: nat, i: nat)
    requires i < |starts| && RunAll(before, raw, starts[..i], width) == Some(mid)
    ensures RunAll(before, raw, starts[..i + 1], width) == UpsertSpan(mid, raw, starts[i], width)
  {
    assert starts[..i + 1][..i] == starts[..i];
  }

  lemma InterruptedAt(before: Buckets, mid: Buckets, after: Buckets, raw: seq<Row>, starts: seq<int>, width: nat,
                      i: nat)
    requires i < |starts| && RunAll(before, raw, starts[..i], width) == Some(mid)
    requires UpsertSpan(mid, raw, starts[i], width).None? && CutShort(mid, after, raw, starts[i], width)
    ensures RunAll(before, raw, starts, width).None? && Interrupted(before, after, raw, starts, width)
  {
    assert starts[..i + 1][..i] == starts[..i];
    FailsForGood(before, raw, starts, width, i + 1);
  }

  class Rollup {
    var raw: seq<Row>
    var buckets: Buckets
    var bucketSize: nat

    method PopulateSpan(from: int, till: int) returns (ok: bool)
      requires bucketSize > 0 && till == from + Width(bucketSize)
      modifies this`buckets
      ensures ok <==> UpsertSpan(old(buckets), raw, from, Width(bucketSize)).Some?
      ensures ok ==> Some(buckets) == UpsertSpan(old(buckets), raw, from, Width(bucketSize))
      ensures !ok ==> CutShort(old(buckets), buckets, raw, from, Width(bucketSize))
    {
      var keys := KeysIn(raw, from, till);
      for k := 0 to |keys|
        invariant Some(buckets) == UpsertAll(old(buckets), raw, keys[..k], from, Width(bucketSize))
      {
        assert keys[..k + 1][..k] == keys[..k];
        var updated := Upsert(buckets, BucketId(keys[k], from), SpanSum(raw, keys[k], from, till), Width(bucketSize));
        if updated.None? {
          StopsForGood(old(buckets), raw, keys, from, Width(bucketSize), k + 1);
          return false;
        }
        buckets := updated.value;
      }
      assert keys[..|keys|] == keys;
      return true;
    }

    /** Span after span, until one cannot be written. */
    method PopulateSpans(spans: seq<(int, int)>, ghost starts: seq<int>) returns (ok: bool)
      requires bucketSize > 0 && |starts| == |spans|
      requires forall i :: 0 <= i < |spans| ==> spans[i] == (starts[i], starts[i] + Width(bucketSize))
      modifies this`buckets
      ensures ok ==> RunAll(old(buckets), raw, starts, Width(bucketSize)) == Some(buckets)
      ensures !ok ==> RunAll(old(buckets), raw, starts, Width(bucketSize)).None?
      ensures !ok ==> Interrupted(old(buckets), buckets, raw, starts, Width(bucketSize))
    {
      for i := 0 to |spans|
        invariant Some(buckets) == RunAll(old(buckets), raw, starts[..i], Width(bucketSize))
      {
        ghost var before := buckets;
        NextSpanDone(old(buckets), before, raw, starts, Width(bucketSize), i);
        ok := PopulateSpan(spans[i].0, spans[i].1);
        if !ok {
          InterruptedAt(old(buckets), before, buckets, raw, starts, Width(bucketSize), i);
          return;
        }
      }
      assert starts[..|spans|] == starts;
      ok := true;
    }

    /** `populate_*_bucket` from the raw rows; an error stops the run where it is. */
    method Populate(now: int, runEvery: nat) returns (error: Option<Error>)
      modifies this`buckets
      ensures bucketSize > 60 ==> error == Some(BucketTooLarge) && buckets == old(buckets)
      ensures bucketSize == 0 ==> error == Some(DivisionByZero) && buckets == old(buckets)
      ensures 0 < bucketSize <= 60 ==>
                var starts, width := SpanStarts(now, bucketSize, runEvery), Width(bucketSize);
                var written := RunAll(old(buckets), raw, starts, width);
                if written.Some? then error.None? && buckets == written.value
                else error == Some(OverlappingBucket) && Interrupted(old(buckets), buckets, raw, starts, width)
    {
      if bucketSize > 60 {
        return Some(BucketTooLarge);
      }
      if bucketSize == 0 {
        return Some(DivisionByZero);
      }
      var ok := PopulateSpans(TimeBuckets(now, bucketSize, runEvery), SpanStarts(now, bucketSize, runEvery));
      return if ok then None else Some(OverlappingBucket);
    }
  }
}
