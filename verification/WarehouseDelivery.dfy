/** One delivery run: the loop over the pending objects and what it leaves on the connection. */
module WarehouseDelivery {
  import opened Options
  import opened Strings
  import opened DeliveryProtocol
  import PartitionKeys

  const DELIVERY_TIME_BUDGET_SECONDS := 210.0

  datatype Status = Created | PendingConnection | Connected | Errored

  /** Errors that make the warehouse itself unusable. */
  datatype Failure =
    | ConfigError(message: string)
    | OperationalError
    | ServerError(code: int)
    | OtherError

  const AUTHENTICATION_FAILED := 516
  const UNKNOWN_DATABASE := 81
  const UNKNOWN_TABLE := 60

  function Describe(failure: Failure): string
  {
    match failure
    case ConfigError(message) => message
    case OperationalError => "Could not connect to the host."
    case ServerError(code) =>
      if code == AUTHENTICATION_FAILED then "Authentication failed."
      else if code == UNKNOWN_DATABASE then "Database does not exist."
      else if code == UNKNOWN_TABLE then
        "Events table not found in the configured database. Run the setup SQL to create it."
      else "The ClickHouse server rejected the request."
    case OtherError => "Connection failed."
  }

  const ALL_REJECTED_DETAIL :=
    "The warehouse rejected every event object. Check that the `events` table matches the expected schema."

  /** How a run over the pending objects ends; an S3 error is ours and fails the task. */
  datatype RunResult =
    | Completed(delivered: nat, rejected: nat, rows: nat)
    | Aborted(failure: Failure)
    | TaskFailed

  function FailureOf(reply: Reply): Failure
    requires Settle(reply).None?
  {
    match reply
    case DatabaseError(code) => ServerError(code)
    case ConnectionError => OperationalError
    case OtherClientError => OtherError
  }

  // ----- A sequential run as a run of the protocol -----

  function ObjectSteps(w: WorkerId, reply: Reply): seq<Step>
  {
    [Fetch(w), Insert(w, reply), Copy(w), Delete(w), Log(w)]
  }

  function RunSteps(w: WorkerId, replies: seq<Reply>): seq<Step>
  {
    if replies == [] then [] else RunSteps(w, replies[..|replies| - 1]) + ObjectSteps(w, replies[|replies| - 1])
  }

  lemma {:induction false} ExecConcat(s: State, a: seq<Step>, b: seq<Step>)
    ensures Exec(s, a + b) == Exec(Exec(s, a), b)
    decreases |a|
  {
    if a == [] {
      assert a + b == b;
    } else {
      assert (a + b)[1..] == a[1..] + b;
      ExecConcat(Apply(s, a[0]), a[1..], b);
    }
  }

  /** A whole move: the object is filed under the outcome's area and leaves the pending one. */
  function Move(bucket: Bucket, path: Path, outcome: Outcome): Bucket
  {
    if path !in bucket.pending then bucket
    else
      var body := bucket.pending[path];
      if outcome.Delivered?
      then Bucket(bucket.pending - {path}, bucket.archive[path := body], bucket.failed)
      else Bucket(bucket.pending - {path}, bucket.archive, bucket.failed[path := body])
  }

  /** The five steps one undisturbed worker takes over a settled object. */
  lemma ObjectStepsMove(s: State, w: WorkerId, path: Path, rest: seq<Path>, reply: Reply)
    requires PcOf(s, w) == AtLoop([path] + rest) && path in s.bucket.pending && Settle(reply).Some?
    ensures Exec(s, ObjectSteps(w, reply)) ==
            s.(bucket := Move(s.bucket, path, Settle(reply).value),
               replies := s.replies + {(path, s.bucket.pending[path], reply)},
               answers := s.answers + {(path, s.bucket.pending[path], Settle(reply).value)},
               log := s.log + [LogRow(path, Settle(reply).value)],
               workers := s.workers[w := AtLoop(rest)])
  {
    var steps := ObjectSteps(w, reply);
    assert ([path] + rest)[1..] == rest;
    var s1 := ApplyFetch(s, w);
    var s2 := ApplyInsert(s1, w, reply);
    var s3 := ApplyCopy(s2, w);
    var s4 := ApplyDelete(s3, w);
    var s5 := ApplyLog(s4, w);
    assert steps[1..][1..][1..][1..][1..] == [];
    assert Exec(s4, steps[1..][1..][1..][1..]) == s5;
    assert Exec(s3, steps[1..][1..][1..]) == s5;
    assert Exec(s2, steps[1..][1..]) == s5;
    assert Exec(s1, steps[1..]) == s5;
  }

  // ----- Totals of the log -----

  function SumRows(log: seq<LogRow>): nat
  {
    if log == [] then 0
    else SumRows(log[..|log| - 1]) +
         (match log[|log| - 1].outcome case Delivered(rows) => rows case Rejected => 0)
  }

  function CountDelivered(log: seq<LogRow>): nat
  {
    if log == [] then 0
    else CountDelivered(log[..|log| - 1]) + (if log[|log| - 1].outcome.Delivered? then 1 else 0)
  }

  /** One log row per visited object, in order, with the outcome the warehouse's reply settles. */
  ghost predicate LogsVisits(rows: seq<LogRow>, pending: seq<Path>, replies: seq<Reply>)
  {
    && |rows| <= |pending| && |rows| <= |replies|
    && forall i :: 0 <= i < |rows| ==> Settle(replies[i]) == Some(rows[i].outcome) && rows[i].path == pending[i]
  }

  /** The bucket after the moves a log records. */
  function MoveAll(bucket: Bucket, rows: seq<LogRow>): Bucket
  {
    if rows == [] then bucket
    else Move(MoveAll(bucket, rows[..|rows| - 1]), rows[|rows| - 1].path, rows[|rows| - 1].outcome)
  }

  predicate SameAt(a: Bucket, b: Bucket, p: Path)
  {
    && (p in a.pending <==> p in b.pending) && (p in a.pending ==> a.pending[p] == b.pending[p])
    && (p in a.archive <==> p in b.archive) && (p in a.archive ==> a.archive[p] == b.archive[p])
    && (p in a.failed <==> p in b.failed) && (p in a.failed ==> a.failed[p] == b.failed[p])
  }

  ghost predicate MovedAt(before: Bucket, after: Bucket, row: LogRow)
  {
    && row.path in before.pending && row.path !in after.pending
    && (match row.outcome
        case Delivered(_) => row.path in after.archive && after.archive[row.path] == before.pending[row.path]
        case Rejected => row.path in after.failed && after.failed[row.path] == before.pending[row.path])
  }

  ghost predicate DistinctPaths(rows: seq<LogRow>)
  {
    forall i, j :: 0 <= i < j < |rows| ==> rows[i].path != rows[j].path
  }

  ghost predicate AllPending(rows: seq<LogRow>, bucket: Bucket)
  {
    forall i :: 0 <= i < |rows| ==> rows[i].path in bucket.pending
  }

  predicate Mentions(rows: seq<LogRow>, path: Path)
  {
    exists i :: 0 <= i < |rows| && rows[i].path == path
  }

  /**
    The moves of a log over distinct pending objects: each logged object has left `events/` with its
    bytes for the area its outcome names, and no other object is touched in any area.
   */
  lemma {:induction false} MoveAllEffect(bucket: Bucket, rows: seq<LogRow>)
    requires DistinctPaths(rows) && AllPending(rows, bucket)
    ensures forall i :: 0 <= i < |rows| ==> MovedAt(bucket, MoveAll(bucket, rows), rows[i])
    ensures forall p :: !Mentions(rows, p) ==> SameAt(bucket, MoveAll(bucket, rows), p)
  {
    if rows != [] {
      var n := |rows| - 1;
      var init, last := rows[..n], rows[n];
      MoveAllEffect(bucket, init);
      var mid, end := MoveAll(bucket, init), MoveAll(bucket, rows);
      assert !Mentions(init, last.path) && SameAt(bucket, mid, last.path);
      forall i | 0 <= i < |rows| ensures MovedAt(bucket, end, rows[i]) {
        if i < n {
          assert init[i] == rows[i] && MovedAt(bucket, mid, init[i]);
        }
      }
      forall p | !Mentions(rows, p) ensures SameAt(bucket, end, p) {
        assert p != last.path && !Mentions(init, p) && SameAt(bucket, mid, p);
      }
    }
  }

  /** The objects of a listing, oldest first, are exactly the pending ones of the environment. */
  ghost predicate IsListing(pending: seq<Path>, bucket: Bucket, env: string)
  {
    && PartitionKeys.Sorted(pending)
    && forall p :: p in pending <==> p in bucket.pending && PartitionKeys.EnvironmentPath(env) <= p
  }

  datatype ObjectResult = Answered(outcome: Outcome) | RunError(failure: Failure) | S3Error

  /** Where S3 fails while one object is handled, if it does. */
  datatype Fault = NoFault | FetchFails | CopyFails | DeleteFails

  /** The object is read before the insert, and moved only once the warehouse has answered for it. */
  predicate Strikes(reply: Reply, fault: Fault)
  {
    fault.FetchFails? || (Settle(reply).Some? && !fault.NoFault?)
  }

  /** What a failed visit leaves: a copy that was made stays, next to the original. */
  function AfterFault(bucket: Bucket, path: Path, reply: Reply, fault: Fault): Bucket
  {
    if path !in bucket.pending || Settle(reply).None? || !fault.DeleteFails? then bucket
    else if Settle(reply).value.Delivered? then bucket.(archive := bucket.archive[path := bucket.pending[path]])
    else bucket.(failed := bucket.failed[path := bucket.pending[path]])
  }

  /** How the run ended at its first unvisited object, and the totals of a run that was not cut short. */
  ghost predicate EndsAs(run: RunResult, rows: seq<LogRow>, before: Bucket,
                         pending: seq<Path>, replies: seq<Reply>, faults: seq<Fault>, clock: seq<real>)
    requires |rows| <= |pending| == |replies| == |faults| && |clock| == |pending| + 1
  {
    match run
    case Completed(delivered, rejected, total) =>
      && delivered == CountDelivered(rows) && delivered + rejected == |rows| && total == SumRows(rows)
      && (|rows| < |pending| ==> clock[|rows| + 1] > clock[0] + DELIVERY_TIME_BUDGET_SECONDS)
    case Aborted(failure) =>
      && |rows| < |pending| && Settle(replies[|rows|]).None? && failure == FailureOf(replies[|rows|])
      && !Strikes(replies[|rows|], faults[|rows|])
      && clock[|rows| + 1] <= clock[0] + DELIVERY_TIME_BUDGET_SECONDS
    case TaskFailed =>
      && |rows| < |pending| && clock[|rows| + 1] <= clock[0] + DELIVERY_TIME_BUDGET_SECONDS
      && (|| Strikes(replies[|rows|], faults[|rows|])
          || (pending[|rows|] in before.pending ==> pending[|rows|] in pending[..|rows|]))
  }

  /** The outcome is what the warehouse said: that the rows are written, or that the bytes are bad. */
  predicate Says(reply: Reply, outcome: Outcome)
  {
    match outcome
    case Delivered(n) => reply == Written(n)
    case Rejected => IsBadData(reply)
  }

  /**
    Every object moved was written, or refused for its own bytes, as its log row says, and its visit began
    within 210 seconds.
   */
  ghost predicate SaidAndInTime(rows: seq<LogRow>, replies: seq<Reply>, clock: seq<real>)
  {
    |rows| <= |replies| && |rows| < |clock| &&
    forall k :: 0 <= k < |rows| ==> Says(replies[k], rows[k].outcome) && clock[k + 1] <= clock[0] + 210.0
  }

  /** Exactly a prefix of the listing is logged and moved. */
  ghost predicate PrefixSettled(rows: seq<LogRow>, pending: seq<Path>, replies: seq<Reply>, before: Bucket,
                                after: Bucket)
  {
    && LogsVisits(rows, pending, replies) && DistinctPaths(rows)
    && AllPending(rows, before)
    && after == MoveAll(before, rows)
  }

  /** An object a run did not move is where it was. */
  lemma StillPending(before: Bucket, after: Bucket, rows: seq<LogRow>, pending: seq<Path>, replies: seq<Reply>,
                     path: Path)
    requires PrefixSettled(rows, pending, replies, before, after)
    ensures path in after.pending <==> path in before.pending && path !in pending[..|rows|]
  {
    MoveAllEffect(before, rows);
    if path in pending[..|rows|] {
      var i :| 0 <= i < |rows| && pending[..|rows|][i] == path;
      assert rows[i].path == path && MovedAt(before, after, rows[i]);
    } else {
      assert forall i :: 0 <= i < |rows| ==> rows[i].path == pending[..|rows|][i];
      assert !Mentions(rows, path) && SameAt(before, after, path);
    }
  }

  lemma OneMoreRow(rows: seq<LogRow>, row: LogRow, bucket: Bucket)
    ensures MoveAll(bucket, rows + [row]) == Move(MoveAll(bucket, rows), row.path, row.outcome)
    ensures CountDelivered(rows + [row]) == CountDelivered(rows) + (if row.outcome.Delivered? then 1 else 0)
    ensures SumRows(rows + [row]) == SumRows(rows) + (if row.outcome.Delivered? then row.outcome.rows else 0)
  {
  }

  lemma OneMoreSaid(rows: seq<LogRow>, row: LogRow, replies: seq<Reply>, clock: seq<real>)
    requires SaidAndInTime(rows, replies, clock) && |rows| < |replies| && |rows| + 1 < |clock|
    requires Settle(replies[|rows|]) == Some(row.outcome)
             && clock[|rows| + 1] <= clock[0] + DELIVERY_TIME_BUDGET_SECONDS
    ensures SaidAndInTime(rows + [row], replies, clock)
  {
    SettleIff(replies[|rows|]);
    var grown := rows + [row];
    forall k | 0 <= k < |grown|
      ensures Says(replies[k], grown[k].outcome) && clock[k + 1] <= clock[0] + 210.0
    {
      assert k < |rows| ==> grown[k] == rows[k] && Says(replies[k], rows[k].outcome);
    }
  }

  /** Settling one more object extends the prefix. */
  lemma PrefixGrows(rows: seq<LogRow>, row: LogRow, pending: seq<Path>, replies: seq<Reply>, before: Bucket,
                    after: Bucket)
    requires PrefixSettled(rows, pending, replies, before, after)
    requires |rows| < |pending| == |replies|
    requires row.path == pending[|rows|] && row.path in after.pending && Settle(replies[|rows|]) == Some(row.outcome)
    ensures PrefixSettled(rows + [row], pending, replies, before, Move(after, row.path, row.outcome))
  {
    StillPending(before, after, rows, pending, replies, row.path);
    OneMoreRow(rows, row, before);
    assert DistinctPaths(rows + [row]) by {
      forall i | 0 <= i < |rows| ensures rows[i].path != row.path {
        assert pending[..|rows|][i] == rows[i].path;
      }
    }
  }

  /** Every shorter prefix was settled on the way. */
  lemma PrefixShrinks(rows: seq<LogRow>, pending: seq<Path>, replies: seq<Reply>, before: Bucket)
    requires rows != [] && PrefixSettled(rows, pending, replies, before, MoveAll(before, rows))
    ensures var init, last := rows[..|rows| - 1], rows[|rows| - 1];
            && PrefixSettled(init, pending, replies, before, MoveAll(before, init))
            && last.path in MoveAll(before, init).pending
  {
    var init, last := rows[..|rows| - 1], rows[|rows| - 1];
    MoveAllEffect(before, init);
    assert !Mentions(init, last.path) && SameAt(before, MoveAll(before, init), last.path);
  }

  /** A run over some objects has left the bucket, the log and the worker like this. */
  ghost predicate HasRun(s: State, t: State, w: WorkerId, pending: seq<Path>, rows: seq<LogRow>)
  {
    && t.bucket == MoveAll(s.bucket, rows) && t.log == s.log + rows && t.arrived == s.arrived
    && |rows| <= |pending| && PcOf(t, w) == AtLoop(pending[|rows|..])
  }

  /** One more visit. */
  lemma RunGrows(s: State, mid: State, w: WorkerId, pending: seq<Path>, rows: seq<LogRow>, last: LogRow, reply: Reply)
    requires HasRun(s, mid, w, pending, rows) && |rows| < |pending| && last.path == pending[|rows|]
    requires last.path in mid.bucket.pending && Settle(reply) == Some(last.outcome)
    ensures HasRun(s, Exec(mid, ObjectSteps(w, reply)), w, pending, rows + [last])
  {
    var n := |rows|;
    assert pending[n..] == [last.path] + pending[n + 1..];
    ObjectStepsMove(mid, w, last.path, pending[n + 1..], reply);
    assert (rows + [last])[..n] == rows;
    assert s.log + (rows + [last]) == (s.log + rows) + [last];
  }

  /** An undisturbed run over a prefix of its listing is a run of the protocol. */
  lemma {:induction false} RunIsProtocolRun(s: State, w: WorkerId, pending: seq<Path>, replies: seq<Reply>,
                                            rows: seq<LogRow>)
    requires PcOf(s, w) == AtLoop(pending)
    requires PrefixSettled(rows, pending, replies, s.bucket, MoveAll(s.bucket, rows))
    ensures HasRun(s, Exec(s, RunSteps(w, replies[..|rows|])), w, pending, rows)
  {
    if rows == [] {
      assert pending[0..] == pending;
    } else {
      var n := |rows| - 1;
      PrefixShrinks(rows, pending, replies, s.bucket);
      RunIsProtocolRun(s, w, pending, replies, rows[..n]);
      RunGrows(s, Exec(s, RunSteps(w, replies[..n])), w, pending, rows[..n], rows[n], replies[n]);
      assert replies[..n + 1][..n] == replies[..n] && rows == rows[..n] + [rows[n]];
      ExecConcat(s, RunSteps(w, replies[..n]), ObjectSteps(w, replies[n]));
    }
  }

  /** So is one from the listing on, by a worker that had nothing to do. */
  lemma {:induction false} ListedRunIsProtocolRun(s: State, w: WorkerId, pending: seq<Path>, replies: seq<Reply>,
                                                  rows: seq<LogRow>)
    requires PcOf(s, w).Idle? && forall p :: p in pending ==> p in s.arrived
    requires PrefixSettled(rows, pending, replies, s.bucket, MoveAll(s.bucket, rows))
    ensures HasRun(s, Exec(s, [List(w, pending)] + RunSteps(w, replies[..|rows|])), w, pending, rows)
  {
    var listed := Apply(s, List(w, pending));
    assert [List(w, pending)][1..] == [];
    ExecConcat(s, [List(w, pending)], RunSteps(w, replies[..|rows|]));
    RunIsProtocolRun(listed, w, pending, replies, rows);
  }

  const TASK_TIMEOUT_SECONDS := 540.0
  const INSERT_TIMEOUT_SECONDS := 300.0

  /**
    A run is over before its task times out, and so before the task is tried again: no visit begins after
    the budget, so if the last one takes no longer than an insert may, half a minute is left.
   */
  lemma RunEndsBeforeTimeout(rows: seq<LogRow>, replies: seq<Reply>, clock: seq<real>, last: nat, over: real)
    requires SaidAndInTime(rows, replies, clock) && last < |rows|
    requires over <= clock[last + 1] + INSERT_TIMEOUT_SECONDS
    ensures over - clock[0] <= TASK_TIMEOUT_SECONDS - 30.0
  {
    assert Says(replies[last], rows[last].outcome);
  }

  /** A visit that fails at the deletion is one of the protocol in which the worker then crashes. */
  lemma FailedVisitIsCrash(s: State, w: WorkerId, path: Path, rest: seq<Path>, reply: Reply)
    requires PcOf(s, w) == AtLoop([path] + rest) && path in s.bucket.pending && Settle(reply).Some?
    ensures Exec(s, [Fetch(w), Insert(w, reply), Copy(w), Crash(w)]).bucket ==
            AfterFault(s.bucket, path, reply, DeleteFails)
  {
    var steps := [Fetch(w), Insert(w, reply), Copy(w), Crash(w)];
    var s1 := ApplyFetch(s, w);
    var s2 := ApplyInsert(s1, w, reply);
    var s3 := ApplyCopy(s2, w);
    assert steps[1..][1..][1..][1..] == [];
    assert Exec(s3, steps[1..][1..][1..]) == Goto(s3, w, Idle);
    assert Exec(s2, steps[1..][1..]) == Goto(s3, w, Idle);
    assert Exec(s1, steps[1..]) == Goto(s3, w, Idle);
  }

  lemma NoPathListedTwice(pending: seq<Path>, n: nat)
    requires PartitionKeys.Sorted(pending) && n < |pending|
    ensures pending[n] !in pending[..n]
  {
    forall i | 0 <= i < n ensures pending[i] != pending[n] {
      LessTrichotomy(pending[i], pending[n]);
    }
  }

  function Truncated(message: string): (r: string)
    ensures r <= message && (if |message| <= 255 then r == message else |r| == 255)
  {
    if |message| <= 255 then message else message[..255]
  }

  /** What a customer is told of the reply that ended a run. */
  predicate Explains(detail: Option<string>, reply: Reply)
  {
    match reply
    case Written(_) => false
    case ConnectionError => detail == Some("Could not connect to the host.")
    case OtherClientError => detail == Some("Connection failed.")
    case DatabaseError(code) =>
      detail == Some(
        if code == 516 then "Authentication failed."
        else if code == 81 then "Database does not exist."
        else if code == 60 then "Events table not found in the configured database. Run the setup SQL to create it."
        else "The ClickHouse server rejected the request.")
  }

  lemma DescriptionExplains(reply: Reply)
    requires Settle(reply).None?
    ensures Explains(Some(Truncated(Describe(FailureOf(reply)))), reply)
  {
  }

  class Connection {
    var bucket: Bucket
    var log: seq<LogRow>
    var status: Status
    var detail: Option<string>

    /** One visit of the loop: insert the object, move it, log the outcome. */
    method DeliverObject(path: Path, reply: Reply, fault: Fault) returns (result: ObjectResult)
      modifies this`bucket, this`log
      ensures match result
              case Answered(outcome) =>
                && path in old(bucket.pending) && Settle(reply) == Some(outcome) && fault.NoFault?
                && log == old(log) + [LogRow(path, outcome)] && bucket == Move(old(bucket), path, outcome)
              case RunError(failure) =>
                && path in old(bucket.pending) && Settle(reply).None? && failure == FailureOf(reply)
                && !Strikes(reply, fault) && log == old(log) && bucket == old(bucket)
              case S3Error =>
                && (path !in old(bucket.pending) || Strikes(reply, fault))
                && log == old(log) && bucket == AfterFault(old(bucket), path, reply, fault)
      ensures result.Answered? <==>
                path in old(bucket.pending) && fault.NoFault? && (reply.Written? || IsBadData(reply))
      ensures result.RunError? <==>
                path in old(bucket.pending) && !fault.FetchFails? && !reply.Written? && !IsBadData(reply)
      ensures result.Answered? && result.outcome.Rejected? ==> IsBadData(reply)
      ensures result.Answered? && result.outcome.Delivered? ==> reply == Written(result.outcome.rows)
      ensures !reply.Written? && !IsBadData(reply) ==> bucket == old(bucket) && log == old(log)
    {
      SettleIff(reply);
      if path !in bucket.pending || fault.FetchFails? {
        return S3Error;
      }
      var body := bucket.pending[path];
      var settled := Settle(reply);
      if settled.None? {
        return RunError(FailureOf(reply));
      }
      if fault.CopyFails? {
        return S3Error;
      }
      if settled.value.Rejected? {
        bucket := bucket.(failed := bucket.failed[path := body]);
      } else {
        bucket := bucket.(archive := bucket.archive[path := body]);
      }
      if fault.DeleteFails? {
        return S3Error;
      }
      bucket := bucket.(pending := bucket.pending - {path});
      log := log + [LogRow(path, settled.value)];
      return Answered(settled.value);
    }

    /**
      The loop of a run. `replies[i]` is the warehouse's answer to the i-th insert and `faults[i]` what
      S3 does to that visit; `clock` holds the reading that sets the deadline and then one reading per
      iteration. `rows` is what the run adds to the log, one row per object moved: exactly a prefix of
      the listing is, and of the next object there is at most a copy.
     */
    method DeliverPendingObjects(pending: seq<Path>, replies: seq<Reply>, faults: seq<Fault>, clock: seq<real>)
      returns (run: RunResult, ghost rows: seq<LogRow>)
      requires |replies| == |faults| == |pending| && |clock| == |pending| + 1
      modifies this`bucket, this`log
      ensures log == old(log) + rows && |rows| <= |pending|
      ensures PrefixSettled(rows, pending, replies, old(bucket), MoveAll(old(bucket), rows))
      ensures EndsAs(run, rows, old(bucket), pending, replies, faults, clock)
      ensures SaidAndInTime(rows, replies, clock)
      ensures run.Aborted? ==> |rows| < |pending| && !replies[|rows|].Written? && !IsBadData(replies[|rows|])
      ensures var moved := MoveAll(old(bucket), rows);
              bucket == if run.TaskFailed? then AfterFault(moved, pending[|rows|], replies[|rows|], faults[|rows|])
                  else moved
    {
      var deadline := clock[0] + DELIVERY_TIME_BUDGET_SECONDS;
      var delivered, rejected, total := 0, 0, 0;
      rows := [];
      var index := 0;
      while index < |pending|
        invariant 0 <= index == |rows| <= |pending|
        invariant log == old(log) + rows && PrefixSettled(rows, pending, replies, old(bucket), bucket)
        invariant delivered == CountDelivered(rows) && delivered + rejected == index && total == SumRows(rows)
        invariant SaidAndInTime(rows, replies, clock)
      {
        if clock[index + 1] > deadline {
          break;
        }
        StillPending(old(bucket), bucket, rows, pending, replies, pending[index]);
        ghost var current := bucket;
        var result := DeliverObject(pending[index], replies[index], faults[index]);
        match result {
          case S3Error =>
            return TaskFailed, rows;
          case RunError(failure) =>
            SettleIff(replies[index]);
            return Aborted(failure), rows;
          case Answered(outcome) =>
            PrefixGrows(rows, LogRow(pending[index], outcome), pending, replies, old(bucket), current);
            OneMoreRow(rows, LogRow(pending[index], outcome), old(bucket));
            OneMoreSaid(rows, LogRow(pending[index], outcome), replies, clock);
            rows := rows + [LogRow(pending[index], outcome)];
            match outcome {
              case Rejected =>
                rejected := rejected + 1;
              case Delivered(n) =>
                total := total + n;
                delivered := delivered + 1;
            }
        }
        index := index + 1;
      }
      return Completed(delivered, rejected, total), rows;
    }

    method MarkDeliveryFailed(message: string)
      modifies this`status, this`detail
      ensures status == Errored && detail == Some(Truncated(message))
    {
      status := Errored;
      detail := Some(Truncated(message));
    }

    method MarkDeliverySucceeded()
      modifies this`status, this`detail
      ensures status == Connected
      ensures old(status) != Connected ==> detail == None
      ensures old(status) == Connected ==> detail == old(detail)
    {
      if status == Connected {
        return;
      }
      status := Connected;
      detail := None;
    }

    /**
      A whole run. `listed` is the listing, unless S3 fails it; `configError` is the failure to open a
      client, if any. The status says what the run met: an unusable warehouse and a run that only
      rejected are errors, and a run with nothing to do says nothing. An S3 failure ends the task and
      leaves the status alone. Undisturbed, a listed object is never missing.
     */
    method DeliverWarehouseEvents(env: string, listed: Option<seq<Path>>, configError: Option<Failure>,
                                  replies: seq<Reply>, faults: seq<Fault>, clock: seq<real>)
      returns (taskFailed: bool, ghost rows: seq<LogRow>)
      requires listed.Some? ==>
                 && IsListing(listed.value, bucket, env)
                 && |replies| == |faults| == |listed.value| && |clock| == |listed.value| + 1
      modifies this
      ensures log == old(log) + rows
      ensures listed.None? ==>
                taskFailed && rows == [] && bucket == old(bucket) && status == old(status) && detail == old(detail)
      ensures listed == Some([]) ==>
                !taskFailed && rows == [] && bucket == old(bucket) && status == old(status) && detail == old(detail)
      ensures listed.Some? && listed.value != [] && configError.Some? ==>
                && !taskFailed && rows == [] && bucket == old(bucket)
                && status == Errored && detail == Some(Truncated(Describe(configError.value)))
                && (configError.value.ConfigError? ==> detail == Some(Truncated(configError.value.message)))
      ensures listed.Some? && listed.value != [] && configError.None? ==>
                var pending, n, moved := listed.value, |rows|, MoveAll(old(bucket), rows);
                && n <= |pending| && PrefixSettled(rows, pending, replies, old(bucket), moved)
                && SaidAndInTime(rows, replies, clock)
                && var stopped := n < |pending| && clock[n + 1] <= clock[0] + DELIVERY_TIME_BUDGET_SECONDS;
                && (taskFailed <==> stopped && Strikes(replies[n], faults[n]))
                && if taskFailed then
                     && bucket == AfterFault(moved, pending[n], replies[n], faults[n])
                     && status == old(status) && detail == old(detail)
                   else
                     && bucket == moved
                     && if stopped then
                          && !replies[n].Written? && !IsBadData(replies[n])
                          && status == Errored && Explains(detail, replies[n])
                        else if rows != [] && CountDelivered(rows) == 0 then
                          status == Errored && detail == Some(Truncated(ALL_REJECTED_DETAIL))
                        else
                          && status == Connected && (old(status) != Connected ==> detail == None)
                          && (old(status) == Connected ==> detail == old(detail))
    {
      taskFailed, rows := false, [];
      if listed.None? {
        return true, [];
      }
      var pending := listed.value;
      if pending == [] {
        return;
      }
      if configError.Some? {
        MarkDeliveryFailed(Describe(configError.value));
        return;
      }
      var run;
      run, rows := DeliverPendingObjects(pending, replies, faults, clock);
      match run {
        case TaskFailed =>
          NoPathListedTwice(pending, |rows|);
          taskFailed := true;
        case Aborted(failure) =>
          DescriptionExplains(replies[|rows|]);
          MarkDeliveryFailed(Describe(failure));
        case Completed(delivered, rejected, total) =>
          if delivered == 0 && rejected > 0 {
            MarkDeliveryFailed(ALL_REJECTED_DETAIL);
          } else {
            MarkDeliverySucceeded();
          }
      }
    }
  }
}
