/**
  Delivery of event objects from the lake bucket into a customer's warehouse, as a protocol.

  Any number of workers run the delivery loop over the same bucket. One step is one effect on
  the bucket, on the warehouse or on the delivery log, so that runs interleave workers, crashes
  and arriving objects in every possible way. A step that is not enabled leaves the state alone.
 */
module DeliveryProtocol {
  import opened Options
  import opened Strings

  /** An object's partition path and file name: its key without the area prefix. */
  type Path = string
  type Body = string
  type WorkerId = nat

  /** The prefixes an object moves between; `Pending` is exactly the work still outstanding. */
  datatype Area = Pending | Archive | Failed
  {
    function Prefix(): string {
      match this
      case Pending => "events/"
      case Archive => "archive/"
      case Failed => "failed/"
    }
  }

  /** The full object key. */
  function Key(area: Area, path: Path): string
  {
    area.Prefix() + path
  }

  /** Keys of different areas or paths never collide, so a bucket is one map per area. */
  lemma KeyInjective(a: Area, p: Path, b: Area, q: Path)
    requires Key(a, p) == Key(b, q)
    ensures a == b && p == q
  {
    assert Key(a, p)[0] == Key(b, q)[0];
    assert p == Key(a, p)[|a.Prefix()|..] && q == Key(b, q)[|b.Prefix()|..];
  }

  /** `move_object` strips the pending prefix and keeps the rest: the path is preserved. */
  lemma MoveKeepsPath(to: Area, path: Path)
    ensures to.Prefix() + RemovePrefix(Key(Pending, path), Pending.Prefix()) == Key(to, path)
    ensures Key(Pending, path) == "events/" + path
    ensures Key(Archive, path) == "archive/" + path && Key(Failed, path) == "failed/" + path
  {
  }

  /** The objects of the bucket, by area. */
  datatype Bucket = Bucket(pending: map<Path, Body>, archive: map<Path, Body>, failed: map<Path, Body>)

  /** ClickHouse error codes raised by the object's own bytes. */
  const OBJECT_LEVEL_ERROR_CODES: set<int> := {6, 26, 27, 38, 41, 53, 69, 72, 117, 469}

  /** The warehouse's answer to one insert. */
  datatype Reply =
    | Written(rows: nat)
    | DatabaseError(code: int)
    | ConnectionError
    | OtherClientError

  /** What becomes of an object that got an object-level answer. */
  datatype Outcome =
    | Delivered(rows: nat)
    | Rejected

  /** The split between errors of one object and errors of the whole run. */
  function Settle(reply: Reply): Option<Outcome>
  {
    match reply
    case Written(rows) => Some(Delivered(rows))
    case DatabaseError(code) => if code in OBJECT_LEVEL_ERROR_CODES then Some(Rejected) else None
    case ConnectionError => None
    case OtherClientError => None
  }

  datatype LogRow = LogRow(path: Path, outcome: Outcome)

  /** Where one worker stands in the delivery loop; `rest` is still to be visited. */
  datatype Pc =
    | Idle
    | AtLoop(rest: seq<Path>)
    | Fetched(path: Path, body: Body, rest: seq<Path>)
    | Settled(path: Path, outcome: Outcome, rest: seq<Path>)
    | Copied(path: Path, outcome: Outcome, rest: seq<Path>)
    | Deleted(path: Path, outcome: Outcome, rest: seq<Path>)

  /**
    `arrived`, `replies` and `answers` are histories: every object the ingestion pipeline ever put under
    `events/`, every reply the warehouse ever gave for a path and body, and what the object-level ones
    among them were taken for.
   */
  datatype State = State(
    bucket: Bucket,
    arrived: map<Path, Body>,
    replies: set<(Path, Body, Reply)>,
    answers: set<(Path, Body, Outcome)>,
    log: seq<LogRow>,
    workers: map<WorkerId, Pc>)

  const INIT := State(Bucket(map[], map[], map[]), map[], {}, {}, [], map[])

  datatype Step =
    | Arrive(path: Path, body: Body)
    | List(w: WorkerId, paths: seq<Path>)
    | Fetch(w: WorkerId)
    | Insert(w: WorkerId, reply: Reply)
    | Copy(w: WorkerId)
    | Delete(w: WorkerId)
    | Log(w: WorkerId)
    | Finish(w: WorkerId)
    | Crash(w: WorkerId)

  function PcOf(s: State, w: WorkerId): Pc
  {
    if w in s.workers then s.workers[w] else Idle
  }

  function Goto(s: State, w: WorkerId, pc: Pc): State
  {
    s.(workers := s.workers[w := pc])
  }

  /** Objects under `events/` are named afresh by the pipeline. */
  function ApplyArrive(s: State, path: Path, body: Body): State
  {
    if path in s.arrived then s
    else s.(bucket := s.bucket.(pending := s.bucket.pending[path := body]), arrived := s.arrived[path := body])
  }

  /**
    The pages of a listing may be read at different times: an object listed has arrived at some
    point and may be gone by now.
   */
  function ApplyList(s: State, w: WorkerId, paths: seq<Path>): State
  {
    if PcOf(s, w).Idle? && forall p :: p in paths ==> p in s.arrived then Goto(s, w, AtLoop(paths)) else s
  }

  /** Reading a missing object raises an S3 error, which fails the task. */
  function ApplyFetch(s: State, w: WorkerId): State
  {
    if !PcOf(s, w).AtLoop? || PcOf(s, w).rest == [] then s
    else
      var path, rest := PcOf(s, w).rest[0], PcOf(s, w).rest[1..];
      if path in s.bucket.pending then Goto(s, w, Fetched(path, s.bucket.pending[path], rest)) else Goto(s, w, Idle)
  }

  /** An answer that is not about the object abandons the run. */
  function ApplyInsert(s: State, w: WorkerId, reply: Reply): State
  {
    match PcOf(s, w)
    case Fetched(path, body, rest) =>
      var heard := s.(replies := s.replies + {(path, body, reply)});
      if Settle(reply).None? then Goto(heard, w, Idle)
      else
        var outcome := Settle(reply).value;
        Goto(heard, w, Settled(path, outcome, rest)).(answers := s.answers + {(path, body, outcome)})
    case _ => s
  }

  /** The first half of `move_object`; copying a missing object fails the task. */
  function ApplyCopy(s: State, w: WorkerId): State
  {
    match PcOf(s, w)
    case Settled(path, outcome, rest) =>
      if path !in s.bucket.pending then Goto(s, w, Idle)
      else
        var body := s.bucket.pending[path];
        Goto(s, w, Copied(path, outcome, rest)).(
          bucket := if outcome.Delivered? then s.bucket.(archive := s.bucket.archive[path := body])
                    else s.bucket.(failed := s.bucket.failed[path := body]))
    case _ => s
  }

  /** The second half of `move_object`; deleting a missing object is not an error. */
  function ApplyDelete(s: State, w: WorkerId): State
  {
    match PcOf(s, w)
    case Copied(path, outcome, rest) =>
      Goto(s, w, Deleted(path, outcome, rest)).(bucket := s.bucket.(pending := s.bucket.pending - {path}))
    case _ => s
  }

  function ApplyLog(s: State, w: WorkerId): State
  {
    match PcOf(s, w)
    case Deleted(path, outcome, rest) => Goto(s, w, AtLoop(rest)).(log := s.log + [LogRow(path, outcome)])
    case _ => s
  }

  function Apply(s: State, step: Step): State
  {
    match step
    case Arrive(path, body) => ApplyArrive(s, path, body)
    case List(w, paths) => ApplyList(s, w, paths)
    case Fetch(w) => ApplyFetch(s, w)
    case Insert(w, reply) => ApplyInsert(s, w, reply)
    case Copy(w) => ApplyCopy(s, w)
    case Delete(w) => ApplyDelete(s, w)
    case Log(w) => ApplyLog(s, w)
    case Finish(w) => if PcOf(s, w).AtLoop? then Goto(s, w, Idle) else s
    case Crash(w) => Goto(s, w, Idle)
  }

  function Exec(s: State, steps: seq<Step>): State
    decreases |steps|
  {
    if steps == [] then s else Exec(Apply(s, steps[0]), steps[1..])
  }

  // ----- What every run keeps -----

  /** The warehouse gave this very answer for this object. */
  ghost predicate Backed(s: State, path: Path, outcome: Outcome)
  {
    path in s.arrived && (path, s.arrived[path], outcome) in s.answers
  }

  ghost predicate WasInserted(s: State, path: Path)
  {
    exists rows: nat :: Backed(s, path, Delivered(rows))
  }

  /** An area holds the object exactly as it arrived. */
  predicate Holds(s: State, area: map<Path, Body>, path: Path)
  {
    path in area && path in s.arrived && area[path] == s.arrived[path]
  }

  /** No object is ever lost. */
  ghost predicate NothingLost(s: State)
  {
    forall p :: p in s.arrived ==>
      Holds(s, s.bucket.pending, p) || Holds(s, s.bucket.archive, p) || Holds(s, s.bucket.failed, p)
  }

  /** Whatever is archived was inserted, whatever is under `failed/` was rejected, bytes intact. */
  ghost predicate AreasMeanWhatTheySay(s: State)
  {
    && (forall p :: p in s.bucket.pending ==> Holds(s, s.bucket.pending, p))
    && (forall p :: p in s.bucket.archive ==> Holds(s, s.bucket.archive, p) && WasInserted(s, p))
    && (forall p :: p in s.bucket.failed ==> Holds(s, s.bucket.failed, p) && Backed(s, p, Rejected))
  }

  ghost predicate Filed(s: State, path: Path, outcome: Outcome)
  {
    && Backed(s, path, outcome)
    && (if outcome.Delivered? then path in s.bucket.archive else path in s.bucket.failed)
  }

  /** The copy is filed and the original is gone. */
  ghost predicate Moved(s: State, path: Path, outcome: Outcome)
  {
    Filed(s, path, outcome) && path !in s.bucket.pending
  }

  /** A log row implies that the move already happened. */
  ghost predicate LogIsBacked(s: State)
  {
    forall row :: row in s.log ==> Moved(s, row.path, row.outcome)
  }

  predicate RestOk(s: State, rest: seq<Path>)
  {
    forall p :: p in rest ==> p in s.arrived
  }

  ghost predicate PcOk(s: State, pc: Pc)
  {
    match pc
    case Idle => true
    case AtLoop(rest) => RestOk(s, rest)
    case Fetched(path, body, rest) => path in s.arrived && body == s.arrived[path] && RestOk(s, rest)
    case Settled(path, outcome, rest) => Backed(s, path, outcome) && RestOk(s, rest)
    case Copied(path, outcome, rest) => Filed(s, path, outcome) && RestOk(s, rest)
    case Deleted(path, outcome, rest) => Moved(s, path, outcome) && RestOk(s, rest)
  }

  ghost predicate WorkersOk(s: State)
  {
    forall w :: w in s.workers ==> PcOk(s, s.workers[w])
  }

  ghost predicate Inv(s: State)
  {
    NothingLost(s) && AreasMeanWhatTheySay(s) && LogIsBacked(s) && WorkersOk(s)
  }

  /** What no step takes back: histories grow, filed copies stay, a moved original stays gone. */
  ghost predicate Grows(s: State, t: State)
  {
    && s.answers <= t.answers
    && s.bucket.archive.Keys <= t.bucket.archive.Keys && s.bucket.failed.Keys <= t.bucket.failed.Keys
    && (forall p :: p in s.arrived ==> p in t.arrived && t.arrived[p] == s.arrived[p])
    && (forall p :: p in s.arrived && p in t.bucket.pending ==> p in s.bucket.pending)
  }

  lemma StepGrows(s: State, step: Step)
    ensures Grows(s, Apply(s, step))
  {
  }

  /** The warehouse's answers are never taken back. */
  lemma AnswersStay(s: State, t: State)
    requires s.answers <= t.answers
    requires forall p :: p in s.arrived ==> p in t.arrived && t.arrived[p] == s.arrived[p]
    ensures forall p, o :: Backed(s, p, o) ==> Backed(t, p, o)
    ensures forall p :: WasInserted(s, p) ==> WasInserted(t, p)
  {
  }

  /** Facts about other workers and the log survive every step. */
  lemma GrowthKeepsFacts(s: State, t: State)
    requires Grows(s, t)
    ensures forall pc :: PcOk(s, pc) ==> PcOk(t, pc)
    ensures forall p, o :: Moved(s, p, o) ==> Moved(t, p, o)
  {
  }

  lemma CopyKeepsObjects(s: State, w: WorkerId)
    requires Inv(s) && PcOk(s, PcOf(s, w))
    ensures NothingLost(ApplyCopy(s, w)) && AreasMeanWhatTheySay(ApplyCopy(s, w))
  {
    var t := ApplyCopy(s, w);
    match PcOf(s, w)
    case Settled(path, outcome, rest) =>
      if path in s.bucket.pending {
        AnswersStay(s, t);
        assert Holds(s, s.bucket.pending, path) && Backed(t, path, outcome);
      }
    case _ =>
  }

  lemma DeleteKeepsObjects(s: State, w: WorkerId)
    requires Inv(s) && PcOk(s, PcOf(s, w))
    ensures NothingLost(ApplyDelete(s, w)) && AreasMeanWhatTheySay(ApplyDelete(s, w))
  {
  }

  lemma ArriveKeepsObjects(s: State, path: Path, body: Body)
    requires Inv(s)
    ensures NothingLost(ApplyArrive(s, path, body)) && AreasMeanWhatTheySay(ApplyArrive(s, path, body))
  {
  }

  /** A step that leaves the bucket alone only has to keep the warehouse's answers. */
  lemma SameBucketKeepsObjects(s: State, t: State)
    requires Inv(s)
    requires t.bucket == s.bucket && t.arrived == s.arrived && s.answers <= t.answers
    ensures NothingLost(t) && AreasMeanWhatTheySay(t)
  {
  }

  lemma StepKeepsObjects(s: State, step: Step)
    requires Inv(s)
    ensures NothingLost(Apply(s, step)) && AreasMeanWhatTheySay(Apply(s, step))
  {
    match step
    case Arrive(path, body) => ArriveKeepsObjects(s, path, body);
    case Copy(w) => CopyKeepsObjects(s, w);
    case Delete(w) => DeleteKeepsObjects(s, w);
    case _ => SameBucketKeepsObjects(s, Apply(s, step));
  }

  lemma StepKeepsWorkers(s: State, step: Step)
    requires Inv(s)
    ensures WorkersOk(Apply(s, step)) && LogIsBacked(Apply(s, step))
  {
    var t := Apply(s, step);
    StepGrows(s, step);
    GrowthKeepsFacts(s, t);
    if !step.Arrive? {
      assert PcOk(t, PcOf(s, step.w));
      assert PcOk(t, PcOf(t, step.w));
    }
  }

  lemma {:induction false} ExecKeepsInv(s: State, steps: seq<Step>)
    requires Inv(s)
    ensures Inv(Exec(s, steps))
    decreases |steps|
  {
    if steps != [] {
      StepKeepsObjects(s, steps[0]);
      StepKeepsWorkers(s, steps[0]);
      ExecKeepsInv(Apply(s, steps[0]), steps[1..]);
    }
  }

  /**
    At-least-once delivery, over every interleaving of any number of workers, crashes and arrivals:
    no object is lost, what is filed was answered for, and the log never runs ahead of the move.
   */
  lemma NoEventObjectIsLost(steps: seq<Step>)
    ensures var s := Exec(INIT, steps);
            && NothingLost(s)
            && AreasMeanWhatTheySay(s)
            && LogIsBacked(s)
            && (forall p :: p in s.arrived ==> p in s.bucket.pending || WasInserted(s, p) || Backed(s, p, Rejected))
  {
    ExecKeepsInv(INIT, steps);
  }

  // ----- What the warehouse said -----

  /** The warehouse wrote this object at least once. */
  ghost predicate SaidWritten(s: State, path: Path, body: Body)
  {
    exists rows: nat :: (path, body, Written(rows)) in s.replies
  }

  /** The errors that an object's own bytes raise: text, numbers, dates or types that do not fit, and constraints. */
  predicate IsBadData(reply: Reply)
  {
    reply.DatabaseError? && reply.code in {6, 26, 27, 38, 41, 53, 69, 72, 117, 469}
  }

  /** Exactly those errors reject an object, and only a written one is delivered. */
  lemma SettleIff(reply: Reply)
    ensures Settle(reply) == Some(Rejected) <==> IsBadData(reply)
    ensures forall rows :: Settle(reply) == Some(Delivered(rows)) <==> reply == Written(rows)
    ensures Settle(reply).None? <==> reply.ConnectionError? || reply.OtherClientError? ||
                                     (reply.DatabaseError? && !IsBadData(reply))
  {
  }

  /** The warehouse refused this object for its own bytes at least once. */
  ghost predicate SaidBadData(s: State, path: Path, body: Body)
  {
    exists reply :: IsBadData(reply) && (path, body, reply) in s.replies
  }

  ghost predicate AnswersWereSaid(s: State)
  {
    forall p, b, o :: (p, b, o) in s.answers ==> if o.Delivered? then SaidWritten(s, p, b) else SaidBadData(s, p, b)
  }

  lemma StepKeepsAnswersSaid(s: State, step: Step)
    requires AnswersWereSaid(s)
    ensures AnswersWereSaid(Apply(s, step))
  {
    var t := Apply(s, step);
    assert s.replies <= t.replies;
    forall p, b, o | (p, b, o) in t.answers
      ensures if o.Delivered? then SaidWritten(t, p, b) else SaidBadData(t, p, b)
    {
      if (p, b, o) !in s.answers {
        assert step.Insert? && Settle(step.reply) == Some(o) && (p, b, step.reply) in t.replies;
      }
    }
  }

  lemma {:induction false} ExecKeepsAnswersSaid(s: State, steps: seq<Step>)
    requires AnswersWereSaid(s)
    ensures AnswersWereSaid(Exec(s, steps))
    decreases |steps|
  {
    if steps != [] {
      StepKeepsAnswersSaid(s, steps[0]);
      ExecKeepsAnswersSaid(Apply(s, steps[0]), steps[1..]);
    }
  }

  /**
    Over every run: what is archived was written, what is under `failed/` was refused for its own bytes,
    and an object the warehouse said neither of is still pending, whatever else went wrong.
   */
  lemma FiledAsTheWarehouseSaid(steps: seq<Step>, p: Path)
    ensures var s := Exec(INIT, steps);
            && (p in s.bucket.archive ==> SaidWritten(s, p, s.bucket.archive[p]))
            && (p in s.bucket.failed ==> SaidBadData(s, p, s.bucket.failed[p]))
            && (p in s.arrived && !SaidWritten(s, p, s.arrived[p]) && !SaidBadData(s, p, s.arrived[p]) ==>
                  p in s.bucket.pending && s.bucket.pending[p] == s.arrived[p])
  {
    ExecKeepsInv(INIT, steps);
    ExecKeepsAnswersSaid(INIT, steps);
    var s := Exec(INIT, steps);
    if p in s.bucket.archive {
      var n: nat :| Backed(s, p, Delivered(n));
    }
    if p in s.bucket.failed {
      assert Backed(s, p, Rejected);
    }
  }
}
