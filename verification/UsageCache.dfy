/**
  The write-back caches in front of usage tracking: counts accumulate per key and are sent on when the
  cache is old enough. Times are in microseconds.
 */
module UsageCache {
  import opened LabelSets
  import opened Tallies

  // ----- When to flush -----

  /** `timedelta.seconds`, which starts again every day. */
  function Seconds(elapsed: int): int
  {
    elapsed / 1000000 % 86400
  }

  predicate Due(now: int, lastFlushedAt: int, limit: int)
  {
    Seconds(now - lastFlushedAt) > limit
  }

  /** Within a day of the last flush, a cache is flushed exactly from one second after the limit on. */
  lemma DueWithinADay(now: int, lastFlushedAt: int, limit: int)
    requires 0 <= now - lastFlushedAt < 24 * 3600 * 1000000 && limit >= 0
    ensures Due(now, lastFlushedAt, limit) <==> now >= lastFlushedAt + (limit + 1) * 1000000
  {
  }

  lemma {:induction false} WholeDays(seconds: int, days: nat)
    ensures (seconds + days * 86400) % 86400 == seconds % 86400
  {
    if days > 0 {
      WholeDays(seconds, days - 1);
    }
  }

  /** A whole number of days later it is as if no time had passed. */
  lemma DaysDoNotCount(now: int, lastFlushedAt: int, limit: int, days: nat)
    requires 0 <= now - lastFlushedAt < 24 * 3600 * 1000000
    ensures Due(now + days * 24 * 3600 * 1000000, lastFlushedAt, limit) <==> Due(now, lastFlushedAt, limit)
  {
    var seconds := (now - lastFlushedAt) / 1000000;
    WholeDays(seconds, days);
    assert (now + days * 24 * 3600 * 1000000 - lastFlushedAt) / 1000000 == seconds + days * 86400;
  }

  // ----- The request cache -----

  datatype ApiKey = ApiKey(resource: nat, host: string, environmentKey: string, labels: seq<Item>)

  /** What a request is counted for. */
  datatype ApiSubject = ApiSubject(resource: nat, host: string, environmentKey: string, labels: Labels)

  /** A tracked request; `flushedAt` is the time a flush that it sets off is over. */
  datatype Request = Request(resource: nat, host: string, environmentKey: string, labels: seq<Item>, now: int,
                             flushedAt: int)

  datatype ApiState = ApiState(cache: seq<Entry<ApiKey>>, sent: seq<Entry<ApiSubject>>, lastFlushedAt: int)

  function KeyOf(r: Request): ApiKey
  {
    ApiKey(r.resource, r.host, r.environmentKey, SortItems(r.labels))
  }

  function ApiSubjectOf(key: ApiKey): ApiSubject
  {
    ApiSubject(key.resource, key.host, key.environmentKey, AsMap(key.labels))
  }

  function SubjectOf(r: Request): ApiSubject
  {
    ApiSubject(r.resource, r.host, r.environmentKey, AsMap(r.labels))
  }

  function Track(s: ApiState, r: Request, limit: int): ApiState
  {
    var cache := Bump(s.cache, KeyOf(r), 1);
    if Due(r.now, s.lastFlushedAt, limit) then ApiState([], s.sent + Relabel(cache, ApiSubjectOf), r.flushedAt)
    else s.(cache := cache)
  }

  function TrackAll(createdAt: int, rs: seq<Request>, limit: int): ApiState
  {
    if rs == [] then ApiState([], [], createdAt)
    else Track(TrackAll(createdAt, rs[..|rs| - 1], limit), rs[|rs| - 1], limit)
  }

  /** How many of the requests are for a subject. */
  function Requested(rs: seq<Request>, subject: ApiSubject): int
  {
    if rs == [] then 0
    else Requested(rs[..|rs| - 1], subject) + (if SubjectOf(rs[|rs| - 1]) == subject then 1 else 0)
  }

  /** At every point: counts already sent plus the cached count are the requests tracked. */
  lemma {:induction false} RequestsAreConserved(createdAt: int, rs: seq<Request>, limit: int, subject: ApiSubject)
    requires forall i :: 0 <= i < |rs| ==> DistinctLabels(rs[i].labels)
    ensures var s := TrackAll(createdAt, rs, limit);
            Count(s.sent, subject) + Count(Relabel(s.cache, ApiSubjectOf), subject) == Requested(rs, subject)
  {
    if rs != [] {
      var r := rs[|rs| - 1];
      var s := TrackAll(createdAt, rs[..|rs| - 1], limit);
      RequestsAreConserved(createdAt, rs[..|rs| - 1], limit, subject);
      SortedIsSameMap(r.labels);
      RelabelBump(s.cache, ApiSubjectOf, KeyOf(r), 1, subject);
      CountConcat(s.sent, Relabel(Bump(s.cache, KeyOf(r), 1), ApiSubjectOf), subject);
    }
  }

  lemma UniqueSubjects(cache: seq<Entry<ApiKey>>)
    requires UniqueKeys(cache) && forall i :: 0 <= i < |cache| ==> AscendingNames(cache[i].key.labels)
    ensures UniqueKeys(Relabel(cache, ApiSubjectOf))
  {
  }

  /** No subject is cached twice, so a flush sends at most one count per subject. */
  lemma {:induction false} SubjectsAreCachedOnce(createdAt: int, rs: seq<Request>, limit: int)
    requires forall i :: 0 <= i < |rs| ==> DistinctLabels(rs[i].labels)
    ensures var cache := TrackAll(createdAt, rs, limit).cache;
            && UniqueKeys(cache) && UniqueKeys(Relabel(cache, ApiSubjectOf))
            && forall i :: 0 <= i < |cache| ==> AscendingNames(cache[i].key.labels)
  {
    if rs != [] {
      var r := rs[|rs| - 1];
      var s := TrackAll(createdAt, rs[..|rs| - 1], limit);
      SubjectsAreCachedOnce(createdAt, rs[..|rs| - 1], limit);
      SortSpec(r.labels);
      BumpKeys(s.cache, KeyOf(r), 1);
    }
    UniqueSubjects(TrackAll(createdAt, rs, limit).cache);
  }

  class APIUsageCache {
    var cache: seq<Entry<ApiKey>>
    var lastFlushedAt: int
    /** The `track_request` calls made so far. */
    var sent: seq<Entry<ApiSubject>>

    ghost function State(): ApiState
      reads this
    {
      ApiState(cache, sent, lastFlushedAt)
    }

    constructor (now: int)
      ensures State() == TrackAll(now, [], 0)
    {
      cache, sent, lastFlushedAt := [], [], now;
    }

    method Flush(flushedAt: int)
      modifies this
      ensures State() == ApiState([], old(sent) + Relabel(old(cache), ApiSubjectOf), flushedAt)
    {
      for i := 0 to |cache|
        invariant cache == old(cache)
        invariant sent + Relabel(cache[i..], ApiSubjectOf) == old(sent) + Relabel(cache, ApiSubjectOf)
      {
        assert cache[i..][1..] == cache[i + 1..];
        var rest := cache[i + 1..];
        assert sent + [Entry(ApiSubjectOf(cache[i].key), cache[i].count)] + Relabel(rest, ApiSubjectOf)
            == sent + Relabel(cache[i..], ApiSubjectOf);
        sent := sent + [Entry(ApiSubjectOf(cache[i].key), cache[i].count)];
      }
      assert sent + [] == sent;
      cache := [];
      lastFlushedAt := flushedAt;
    }

    method TrackRequest(r: Request, limit: int)
      modifies this
      ensures State() == Track(old(State()), r, limit)
    {
      cache := Bump(cache, KeyOf(r), 1);
      if Due(r.now, lastFlushedAt, limit) {
        Flush(r.flushedAt);
      }
    }
  }

  // ----- The evaluation cache -----

  datatype FeatureKey = FeatureKey(featureName: string, environmentId: nat, labels: seq<Item>)
  datatype FeatureSubject = FeatureSubject(featureName: string, environmentId: nat, labels: Labels)

  datatype Evaluation = Evaluation(featureName: string, labels: Labels, count: int)

  /** The arguments of one `track_feature_evaluations_by_environment` task. */
  datatype Group = Group(environmentId: nat, evaluations: seq<Evaluation>)

  function FeatureSubjectOf(key: FeatureKey): FeatureSubject
  {
    FeatureSubject(key.featureName, key.environmentId, AsMap(key.labels))
  }

  function EvaluationOf(e: Entry<FeatureKey>): Evaluation
  {
    Evaluation(e.key.featureName, AsMap(e.key.labels), e.count)
  }

  /** Appends to the environment's group, or starts one. */
  function Append(groups: seq<Group>, environmentId: nat, evaluation: Evaluation): seq<Group>
  {
    if groups == [] then [Group(environmentId, [evaluation])]
    else if groups[0].environmentId == environmentId then
      [Group(environmentId, groups[0].evaluations + [evaluation])] + groups[1..]
    else [groups[0]] + Append(groups[1..], environmentId, evaluation)
  }

  function Groups(cache: seq<Entry<FeatureKey>>): seq<Group>
  {
    if cache == [] then []
    else
      var last := cache[|cache| - 1];
      Append(Groups(cache[..|cache| - 1]), last.key.environmentId, EvaluationOf(last))
  }

  /** The raw rows a task writes, and those of several tasks in turn. */
  function GroupRows(environmentId: nat, evaluations: seq<Evaluation>): seq<Entry<FeatureSubject>>
  {
    if evaluations == [] then []
    else
      var last := evaluations[|evaluations| - 1];
      GroupRows(environmentId, evaluations[..|evaluations| - 1]) +
      [Entry(FeatureSubject(last.featureName, environmentId, last.labels), last.count)]
  }

  function Rows(groups: seq<Group>): seq<Entry<FeatureSubject>>
  {
    if groups == [] then [] else GroupRows(groups[0].environmentId, groups[0].evaluations) + Rows(groups[1..])
  }

  /** What the cache holds for one environment, in order. */
  function OfEnvironment(cache: seq<Entry<FeatureKey>>, environmentId: nat): seq<Evaluation>
  {
    if cache == [] then []
    else
      var last := cache[|cache| - 1];
      OfEnvironment(cache[..|cache| - 1], environmentId) +
      (if last.key.environmentId == environmentId then [EvaluationOf(last)] else [])
  }

  predicate OneGroupEach(groups: seq<Group>)
  {
    forall i, j :: 0 <= i < j < |groups| ==> groups[i].environmentId != groups[j].environmentId
  }

  /** The evaluations of an environment's first group. */
  function Of(groups: seq<Group>, environmentId: nat): seq<Evaluation>
  {
    if groups == [] then []
    else if groups[0].environmentId == environmentId then groups[0].evaluations
    else Of(groups[1..], environmentId)
  }

  lemma {:induction false} AppendOf(groups: seq<Group>, environmentId: nat, evaluation: Evaluation, id: nat)
    ensures Of(Append(groups, environmentId, evaluation), id) ==
            Of(groups, id) + (if id == environmentId then [evaluation] else [])
  {
    if groups != [] && groups[0].environmentId != environmentId {
      assert Append(groups, environmentId, evaluation)[1..] == Append(groups[1..], environmentId, evaluation);
      AppendOf(groups[1..], environmentId, evaluation, id);
    }
  }

  lemma {:induction false} AppendKeepsOneGroupEach(groups: seq<Group>, environmentId: nat, evaluation: Evaluation)
    requires OneGroupEach(groups)
    ensures var after := Append(groups, environmentId, evaluation);
            && OneGroupEach(after) && |after| >= |groups|
            && forall i :: 0 <= i < |after| ==> after[i].environmentId == if i < |groups| then groups[i].environmentId
               else environmentId
  {
    if groups != [] && groups[0].environmentId != environmentId {
      var rest := groups[1..];
      AppendKeepsOneGroupEach(rest, environmentId, evaluation);
      assert forall i :: 0 < i < |groups| ==> groups[i] == rest[i - 1];
    }
  }

  lemma {:induction false} OfAt(groups: seq<Group>, i: nat)
    requires OneGroupEach(groups) && i < |groups|
    ensures Of(groups, groups[i].environmentId) == groups[i].evaluations
  {
    if i > 0 {
      assert groups[1..][i - 1] == groups[i];
      OfAt(groups[1..], i - 1);
    }
  }

  /** Each environment has one group, holding what the cache has for it, in order. */
  lemma {:induction false} OneGroupPerEnvironment(cache: seq<Entry<FeatureKey>>, id: nat)
    ensures OneGroupEach(Groups(cache)) && Of(Groups(cache), id) == OfEnvironment(cache, id)
    ensures forall i :: 0 <= i < |Groups(cache)| && Groups(cache)[i].environmentId == id ==>
            Groups(cache)[i].evaluations == OfEnvironment(cache, id)
  {
    if cache != [] {
      var n := |cache| - 1;
      OneGroupPerEnvironment(cache[..n], id);
      AppendOf(Groups(cache[..n]), cache[n].key.environmentId, EvaluationOf(cache[n]), id);
      AppendKeepsOneGroupEach(Groups(cache[..n]), cache[n].key.environmentId, EvaluationOf(cache[n]));
    }
    forall i: nat | i < |Groups(cache)| && Groups(cache)[i].environmentId == id
      ensures Groups(cache)[i].evaluations == OfEnvironment(cache, id)
    {
      OfAt(Groups(cache), i);
    }
  }

  lemma {:induction false} AppendedRow(groups: seq<Group>, environmentId: nat, evaluation: Evaluation)
    ensures multiset(Rows(Append(groups, environmentId, evaluation))) ==
            multiset(Rows(groups)) + multiset{Entry(FeatureSubject(evaluation.featureName, environmentId,
                                                                   evaluation.labels), evaluation.count)}
  {
    if groups == [] {
      var group := Group(environmentId, [evaluation]);
      assert [evaluation][..0] == [] && [group][1..] == [];
      assert GroupRows(environmentId, []) == [];
    } else {
      if groups[0].environmentId == environmentId {
        var evaluations := groups[0].evaluations;
        assert (evaluations + [evaluation])[..|evaluations|] == evaluations;
        assert Append(groups, environmentId, evaluation)[1..] == groups[1..];
      } else {
        assert Append(groups, environmentId, evaluation)[1..] == Append(groups[1..], environmentId, evaluation);
        AppendedRow(groups[1..], environmentId, evaluation);
      }
    }
  }

  /** Concatenating the groups undoes the grouping: every cached count is written, once. */
  lemma {:induction false} GroupingIsUndone(cache: seq<Entry<FeatureKey>>)
    ensures multiset(Rows(Groups(cache))) == multiset(Relabel(cache, FeatureSubjectOf))
  {
    if cache != [] {
      var n := |cache| - 1;
      GroupingIsUndone(cache[..n]);
      AppendedRow(Groups(cache[..n]), cache[n].key.environmentId, EvaluationOf(cache[n]));
      RelabelSnoc(cache, FeatureSubjectOf);
    }
  }

  // ----- Runs of the evaluation cache -----

  /** A tracked evaluation count; `flushedAt` is the time a flush that it sets off is over. */
  datatype Tracked = Tracked(featureName: string, environmentId: nat, count: int, labels: seq<Item>, now: int,
                             flushedAt: int)

  /** `sent` lists the tasks enqueued so far. */
  datatype FeatureState = FeatureState(cache: seq<Entry<FeatureKey>>, sent: seq<Group>, lastFlushedAt: int)

  function FeatureKeyOf(t: Tracked): FeatureKey
  {
    FeatureKey(t.featureName, t.environmentId, SortItems(t.labels))
  }

  function TrackedSubject(t: Tracked): FeatureSubject
  {
    FeatureSubject(t.featureName, t.environmentId, AsMap(t.labels))
  }

  function TrackEvaluation(s: FeatureState, t: Tracked, limit: int): FeatureState
  {
    var cache := Bump(s.cache, FeatureKeyOf(t), t.count);
    if Due(t.now, s.lastFlushedAt, limit) then FeatureState([], s.sent + Groups(cache), t.flushedAt)
    else s.(cache := cache)
  }

  function TrackEvaluations(createdAt: int, ts: seq<Tracked>, limit: int): FeatureState
  {
    if ts == [] then FeatureState([], [], createdAt)
    else TrackEvaluation(TrackEvaluations(createdAt, ts[..|ts| - 1], limit), ts[|ts| - 1], limit)
  }

  function Evaluated(ts: seq<Tracked>, subject: FeatureSubject): int
  {
    if ts == [] then 0
    else Evaluated(ts[..|ts| - 1], subject) +
         (if TrackedSubject(ts[|ts| - 1]) == subject then ts[|ts| - 1].count else 0)
  }

  lemma {:induction false} RowsConcat(a: seq<Group>, b: seq<Group>)
    ensures Rows(a + b) == Rows(a) + Rows(b)
  {
    if a == [] {
      assert a + b == b;
    } else {
      assert (a + b)[1..] == a[1..] + b;
      RowsConcat(a[1..], b);
    }
  }

  lemma FlushedRows(sent: seq<Group>, cache: seq<Entry<FeatureKey>>, subject: FeatureSubject)
    ensures Count(Rows(sent + Groups(cache)), subject) ==
            Count(Rows(sent), subject) + Count(Relabel(cache, FeatureSubjectOf), subject)
  {
    RowsConcat(sent, Groups(cache));
    CountConcat(Rows(sent), Rows(Groups(cache)), subject);
    GroupingIsUndone(cache);
    CountIgnoresOrder(Rows(Groups(cache)), Relabel(cache, FeatureSubjectOf), subject);
  }

  /** At every point: the rows the flushed tasks write plus the cached counts are the evaluations tracked. */
  lemma {:induction false} EvaluationsAreConserved(createdAt: int, ts: seq<Tracked>, limit: int,
                                                   subject: FeatureSubject)
    requires forall i :: 0 <= i < |ts| ==> DistinctLabels(ts[i].labels)
    ensures var s := TrackEvaluations(createdAt, ts, limit);
            Count(Rows(s.sent), subject) + Count(Relabel(s.cache, FeatureSubjectOf), subject) == Evaluated(ts, subject)
  {
    if ts != [] {
      var t := ts[|ts| - 1];
      var s := TrackEvaluations(createdAt, ts[..|ts| - 1], limit);
      EvaluationsAreConserved(createdAt, ts[..|ts| - 1], limit, subject);
      SortedIsSameMap(t.labels);
      RelabelBump(s.cache, FeatureSubjectOf, FeatureKeyOf(t), t.count, subject);
      FlushedRows(s.sent, Bump(s.cache, FeatureKeyOf(t), t.count), subject);
    }
  }

  class FeatureEvaluationCache {
    var cache: seq<Entry<FeatureKey>>
    var lastFlushedAt: int
    /** The tasks enqueued so far. */
    var sent: seq<Group>

    ghost function State(): FeatureState
      reads this
    {
      FeatureState(cache, sent, lastFlushedAt)
    }

    constructor (now: int)
      ensures State() == TrackEvaluations(now, [], 0)
    {
      cache, sent, lastFlushedAt := [], [], now;
    }

    method GroupByEnvironment() returns (groups: seq<Group>)
      ensures groups == Groups(cache)
    {
      groups := [];
      for i := 0 to |cache|
        invariant groups == Groups(cache[..i])
      {
        assert cache[..i + 1][..i] == cache[..i];
        groups := Append(groups, cache[i].key.environmentId, EvaluationOf(cache[i]));
      }
      assert cache[..|cache|] == cache;
    }

    method Flush(flushedAt: int)
      modifies this
      ensures State() == FeatureState([], old(sent) + Groups(old(cache)), flushedAt)
    {
      var groups := GroupByEnvironment();
      for i := 0 to |groups|
        invariant cache == old(cache) && sent == old(sent) + groups[..i]
      {
        sent := sent + [groups[i]];
      }
      assert groups[..|groups|] == groups;
      cache := [];
      lastFlushedAt := flushedAt;
    }

    method TrackFeatureEvaluation(t: Tracked, limit: int)
      modifies this
      ensures State() == TrackEvaluation(old(State()), t, limit)
    {
      cache := Bump(cache, FeatureKeyOf(t), t.count);
      if Due(t.now, lastFlushedAt, limit) {
        Flush(t.flushedAt);
      }
    }
  }
}
