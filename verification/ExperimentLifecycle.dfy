/**
  An experiment's status with its timestamps, and the two cached computations over its window that
  tasks refresh while it runs and freeze once it is completed.
 */
module ExperimentLifecycle {
  import opened Options

  datatype Status = Created | Running | Paused | Completed

  datatype Lifecycle = Lifecycle(status: Status, startedAt: Option<int>, endedAt: Option<int>)

  /** A computed summary, with the window that it was asked for. */
  datatype Summary = Summary(windowStart: int, windowEnd: int, content: string)

  datatype Row = Row(asOf: Option<int>, payload: Option<Summary>, lastErrorAt: Option<int>,
                     refreshRequestedAt: Option<int>)

  const NEW_EXPERIMENT := Lifecycle(Created, None, None)
  const NEW_ROW := Row(None, None, None, None)

  // ----- One experiment -----

  predicate ValidTransition(status: Status, target: Status)
  {
    match status
    case Created => target == Running
    case Running => target == Paused || target == Completed
    case Paused => target == Running || target == Completed
    case Completed => false
  }

  /** The experiment after a transition; the first start and the completion are stamped. */
  function Transitioned(e: Lifecycle, target: Status, now: int): Lifecycle
  {
    Lifecycle(target,
              if target == Running && e.startedAt.None? then Some(now) else e.startedAt,
              if target == Completed then Some(now) else e.endedAt)
  }

  predicate IsFinal(e: Lifecycle, row: Row)
  {
    e.endedAt.Some? && row.asOf.Some? && row.asOf.value >= e.endedAt.value
  }

  // ----- The system -----

  datatype Kind = Exposures | Results

  /** Whether a task had read the completed experiment, and the time it took for its window. */
  datatype Origin = Origin(readEnded: bool, openedAt: int)

  /** A task by what it has done: read the experiment, fetched its row, passed the check, or opened its window. */
  datatype Task =
    | Loaded(kind: Kind, seen: Lifecycle)
    | Fetched(kind: Kind, seen: Lifecycle, row: Row)
    | Checked(kind: Kind, seen: Lifecycle)
    | Computing(kind: Kind, windowStart: int, windowEnd: int, origin: Origin)

  type TaskId = nat

  /** `origins` is history: where each recorded payload came from. */
  datatype State = State(experiment: Lifecycle, rows: map<Kind, Row>, tasks: map<TaskId, Task>, clock: int,
                         origins: map<Kind, Origin>)

  /** Each statement of a task is a step of its own, and any number of tasks are at work at a time. */
  datatype Step =
    | Transition(target: Status, now: int)
    | RequestRefresh(kind: Kind, minInterval: int, now: int)
    | Load(id: TaskId, kind: Kind)
    | Fetch(id: TaskId)
    | Check(id: TaskId)
    | Open(id: TaskId, now: int)
    | Succeed(id: TaskId, content: string)
    | Fail(id: TaskId, now: int)
    | Abandon(id: TaskId)

  function Initial(now: int): State
  {
    State(NEW_EXPERIMENT, map[], map[], now, map[])
  }

  function RowOf(s: State, kind: Kind): Row
  {
    if kind in s.rows then s.rows[kind] else NEW_ROW
  }

  predicate Throttled(row: Row, minInterval: int, now: int)
  {
    row.refreshRequestedAt.Some? && minInterval - (now - row.refreshRequestedAt.value) > 0
  }

  predicate RefreshAllowed(e: Lifecycle, row: Row, minInterval: int, now: int)
  {
    e.startedAt.Some? && !IsFinal(e, row) && !Throttled(row, minInterval, now)
  }

  function Refreshed(row: Row, summary: Summary): Row
  {
    row.(payload := Some(summary), asOf := Some(summary.windowEnd), lastErrorAt := None)
  }

  function WindowEnd(e: Lifecycle, now: int): int
  {
    if e.endedAt.Some? then e.endedAt.value else now
  }

  /** The steps of a task. The check reads the experiment again, through the row that was fetched. */
  function ApplyTask(s: State, step: Step): State
    requires !step.Transition? && !step.RequestRefresh?
  {
    match step
    case Load(id, kind) =>
      if id in s.tasks || s.experiment.startedAt.None? then s
      else s.(tasks := s.tasks[id := Loaded(kind, s.experiment)])
    case Fetch(id) =>
      if id !in s.tasks || !s.tasks[id].Loaded? then s
      else
        var Loaded(kind, seen) := s.tasks[id];
        s.(rows := s.rows[kind := RowOf(s, kind)], tasks := s.tasks[id := Fetched(kind, seen, RowOf(s, kind))])
    case Check(id) =>
      if id !in s.tasks || !s.tasks[id].Fetched? then s
      else
        var Fetched(kind, seen, row) := s.tasks[id];
        s.(tasks := if IsFinal(s.experiment, row) then s.tasks - {id} else s.tasks[id := Checked(kind, seen)])
    case Open(id, now) =>
      if id !in s.tasks || !s.tasks[id].Checked? || now < s.clock || s.tasks[id].seen.startedAt.None? then s
      else
        var Checked(kind, seen) := s.tasks[id];
        var task := Computing(kind, seen.startedAt.value, WindowEnd(seen, now), Origin(seen.endedAt.Some?, now));
        s.(tasks := s.tasks[id := task], clock := now)
    case Succeed(id, content) =>
      if id !in s.tasks || !s.tasks[id].Computing? then s
      else
        var Computing(kind, windowStart, windowEnd, origin) := s.tasks[id];
        s.(rows := s.rows[kind := Refreshed(RowOf(s, kind), Summary(windowStart, windowEnd, content))],
           tasks := s.tasks - {id}, origins := s.origins[kind := origin])
    case Fail(id, now) =>
      if id !in s.tasks || !s.tasks[id].Computing? || now < s.clock then s
      else
        var kind := s.tasks[id].kind;
        s.(rows := s.rows[kind := RowOf(s, kind).(lastErrorAt := Some(now))], tasks := s.tasks - {id}, clock := now)
    case Abandon(id) => s.(tasks := s.tasks - {id})
  }

  /** Steps that are not enabled change nothing; the clock never goes back. */
  function Apply(s: State, step: Step): State
  {
    match step
    case Transition(target, now) =>
      if now >= s.clock && ValidTransition(s.experiment.status, target)
      then s.(experiment := Transitioned(s.experiment, target, now), clock := now)
      else s
    case RequestRefresh(kind, minInterval, now) =>
      if now >= s.clock && RefreshAllowed(s.experiment, RowOf(s, kind), minInterval, now)
      then s.(rows := s.rows[kind := RowOf(s, kind).(refreshRequestedAt := Some(now))], clock := now)
      else s
    case _ => ApplyTask(s, step)
  }

  function Exec(s: State, steps: seq<Step>): State
  {
    if steps == [] then s else Apply(Exec(s, steps[..|steps| - 1]), steps[|steps| - 1])
  }

  // ----- What every run keeps -----

  ghost predicate LifecycleInv(e: Lifecycle, clock: int)
  {
    && (e.startedAt.Some? <==> e.status != Created)
    && (e.endedAt.Some? <==> e.status == Completed)
    && (e.startedAt.Some? ==> e.startedAt.value <= clock)
    && (e.endedAt.Some? ==> e.startedAt.value <= e.endedAt.value <= clock)
  }

  /** A task may have read the experiment before it was completed. */
  ghost predicate SeenInv(e: Lifecycle, seen: Lifecycle)
  {
    seen.startedAt.Some? && seen.startedAt == e.startedAt && (seen.endedAt.Some? ==> seen.endedAt == e.endedAt)
  }

  /** A window from the start, to the end if the task had read one, else to the time the task took. */
  ghost predicate WindowInv(e: Lifecycle, clock: int, windowStart: int, windowEnd: int, origin: Origin)
  {
    && e.startedAt == Some(windowStart) && windowStart <= windowEnd <= clock && origin.openedAt <= clock
    && (if origin.readEnded then e.endedAt == Some(windowEnd) else windowEnd == origin.openedAt)
  }

  ghost predicate TaskInv(e: Lifecycle, clock: int, task: Task)
  {
    if task.Computing? then WindowInv(e, clock, task.windowStart, task.windowEnd, task.origin)
    else SeenInv(e, task.seen)
  }

  ghost predicate RowInv(s: State, kind: Kind)
  {
    var row := RowOf(s, kind);
    && (row.payload.Some? <==> row.asOf.Some?)
    && (row.payload.Some? ==>
          && row.asOf == Some(row.payload.value.windowEnd) && kind in s.origins
          && WindowInv(s.experiment, s.clock, row.payload.value.windowStart, row.payload.value.windowEnd,
                       s.origins[kind]))
  }

  ghost predicate Inv(s: State)
  {
    && LifecycleInv(s.experiment, s.clock)
    && (forall k :: RowInv(s, k))
    && (forall id :: id in s.tasks ==> TaskInv(s.experiment, s.clock, s.tasks[id]))
  }

  lemma TaskStepKeepsInv(s: State, step: Step)
    requires Inv(s) && !step.Transition? && !step.RequestRefresh?
    ensures Inv(ApplyTask(s, step))
  {
    forall k ensures RowInv(ApplyTask(s, step), k) { assert RowInv(s, k); }
  }

  lemma StepKeepsInv(s: State, step: Step)
    requires Inv(s)
    ensures Inv(Apply(s, step))
  {
    if step.Transition? || step.RequestRefresh? {
      forall k ensures RowInv(Apply(s, step), k) { assert RowInv(s, k); }
    } else {
      TaskStepKeepsInv(s, step);
    }
  }

  lemma {:induction false} EveryRunKeepsInv(now: int, steps: seq<Step>)
    ensures Inv(Exec(Initial(now), steps))
  {
    if steps != [] {
      EveryRunKeepsInv(now, steps[..|steps| - 1]);
      StepKeepsInv(Exec(Initial(now), steps[..|steps| - 1]), steps[|steps| - 1]);
    }
  }

  /**
    Timestamps record the status, and a payload is the one for `[started_at, as_of)`. A final payload
    ends where the experiment does, unless its task read the experiment before the end and took its
    time after it: then it reaches past the end.
   */
  lemma TimestampsAndPayloads(now: int, steps: seq<Step>, kind: Kind)
    ensures var s := Exec(Initial(now), steps); var e, row := s.experiment, RowOf(s, kind);
            && (e.startedAt.Some? <==> e.status != Created)
            && (e.endedAt.Some? <==> e.status == Completed)
            && (row.payload.Some? ==>
                  && e.startedAt == Some(row.payload.value.windowStart)
                  && row.asOf == Some(row.payload.value.windowEnd))
            && (IsFinal(e, row) ==>
                  && kind in s.origins
                  && (row.asOf == e.endedAt <==>
                      s.origins[kind].readEnded || s.origins[kind].openedAt <= e.endedAt.value))
  {
    EveryRunKeepsInv(now, steps);
    assert RowInv(Exec(Initial(now), steps), kind);
  }

  /** Whatever happens after, timestamps that are set stay, and a completed experiment stays completed. */
  lemma {:induction false} TimestampsNeverChange(s: State, steps: seq<Step>)
    requires Inv(s)
    ensures Inv(Exec(s, steps)) && Exec(s, steps).clock >= s.clock
    ensures s.experiment.startedAt.Some? ==> Exec(s, steps).experiment.startedAt == s.experiment.startedAt
    ensures s.experiment.status == Completed ==> Exec(s, steps).experiment == s.experiment
  {
    if steps != [] {
      TimestampsNeverChange(s, steps[..|steps| - 1]);
      StepKeepsInv(Exec(s, steps[..|steps| - 1]), steps[|steps| - 1]);
    }
  }

  // ----- Frozen computations -----

  /** A payload and its time change only when a task for that row succeeds. Failures keep them. */
  lemma OnlySuccessChangesThePayload(s: State, step: Step, kind: Kind)
    requires RowOf(Apply(s, step), kind).payload != RowOf(s, kind).payload ||
             RowOf(Apply(s, step), kind).asOf != RowOf(s, kind).asOf
    ensures step.Succeed? && step.id in s.tasks && s.tasks[step.id].kind == kind
  {
  }

  /** A task that has its check before it, and will not pass it while the row stays final. */
  predicate WillStop(e: Lifecycle, task: Task)
  {
    task.Loaded? || (task.Fetched? && IsFinal(e, task.row))
  }

  predicate Idle(s: State, kind: Kind)
  {
    forall id :: id in s.tasks && s.tasks[id].kind == kind ==> WillStop(s.experiment, s.tasks[id])
  }

  ghost predicate Final(s: State, kind: Kind)
  {
    IsFinal(s.experiment, RowOf(s, kind))
  }

  ghost predicate SamePayload(s: State, t: State, kind: Kind)
  {
    RowOf(t, kind).payload == RowOf(s, kind).payload && RowOf(t, kind).asOf == RowOf(s, kind).asOf
  }

  lemma StepKeepsFrozen(s: State, step: Step, kind: Kind)
    requires Inv(s) && Final(s, kind) && Idle(s, kind)
    ensures var t := Apply(s, step); Final(t, kind) && Idle(t, kind) && SamePayload(s, t, kind)
  {
  }

  /** A final computation whose tasks all have the check before them never changes again. */
  lemma {:induction false} FinalIsFrozen(s: State, steps: seq<Step>, kind: Kind)
    requires Inv(s) && Final(s, kind) && Idle(s, kind)
    ensures var t := Exec(s, steps); Final(t, kind) && Idle(t, kind) && SamePayload(s, t, kind)
  {
    if steps != [] {
      FinalIsFrozen(s, steps[..|steps| - 1], kind);
      TimestampsNeverChange(s, steps[..|steps| - 1]);
      StepKeepsFrozen(Exec(s, steps[..|steps| - 1]), steps[|steps| - 1], kind);
    }
  }

  lemma ExecSnoc(s: State, steps: seq<Step>, step: Step)
    ensures Exec(s, steps + [step]) == Apply(Exec(s, steps), step)
  {
  }

  /** What a task that passes its check, or has passed it, can go on to do. */
  function Recording(id: TaskId, now: int, content: string): seq<Step>
  {
    [] + [Check(id)] + [Open(id, now)] + [Succeed(id, content)]
  }

  lemma RecordingChanges(s: State, id: TaskId, content: string)
    requires Inv(s) && s.experiment.endedAt.Some? && id in s.tasks && !WillStop(s.experiment, s.tasks[id])
    ensures var row := RowOf(Exec(s, Recording(id, s.clock, content)), s.tasks[id].kind);
            row.payload.Some? && row.payload.value.content == content
  {
    var checked := Apply(s, Check(id));
    var computing := Apply(checked, Open(id, s.clock));
    assert checked.clock == s.clock && id in checked.tasks && checked.tasks[id].kind == s.tasks[id].kind;
    assert !checked.tasks[id].Computing? ==> checked.tasks[id].Checked? && checked.tasks[id].seen.startedAt.Some?;
    assert id in computing.tasks && computing.tasks[id].Computing? && computing.tasks[id].kind == s.tasks[id].kind;
    ExecSnoc(s, [], Check(id));
    ExecSnoc(s, [] + [Check(id)], Open(id, s.clock));
    ExecSnoc(s, [] + [Check(id)] + [Open(id, s.clock)], Succeed(id, content));
  }

  /** A final computation is safe in every future exactly if no task on it is past its check or will pass it. */
  lemma FrozenIffIdle(s: State, kind: Kind)
    requires Inv(s) && Final(s, kind)
    ensures Idle(s, kind) <==> forall steps :: RowOf(Exec(s, steps), kind).payload == RowOf(s, kind).payload
  {
    if Idle(s, kind) {
      forall steps ensures RowOf(Exec(s, steps), kind).payload == RowOf(s, kind).payload {
        FinalIsFrozen(s, steps, kind);
      }
    } else {
      var id :| id in s.tasks && s.tasks[id].kind == kind && !WillStop(s.experiment, s.tasks[id]);
      assert RowInv(s, kind);
      var content := RowOf(s, kind).payload.value.content + "!";
      RecordingChanges(s, id, content);
    }
  }

  /** A task that records on a final row leaves it final exactly if its window ends no earlier than the experiment. */
  lemma LateTaskUnfreezes(s: State, id: TaskId, content: string)
    requires Inv(s) && id in s.tasks && s.tasks[id].Computing? && Final(s, s.tasks[id].kind)
    ensures Final(Apply(s, Succeed(id, content)), s.tasks[id].kind) <==>
            s.tasks[id].windowEnd >= s.experiment.endedAt.value
  {
  }

  // ----- Two runs -----

  /** One task on its own, from reading the experiment to opening its window. */
  function Started(s: State, id: TaskId, kind: Kind, now: int): State
  {
    Apply(Apply(Apply(Apply(s, Load(id, kind)), Fetch(id)), Check(id)), Open(id, now))
  }

  function StartSteps(id: TaskId, kind: Kind, now: int): seq<Step>
  {
    [Load(id, kind), Fetch(id), Check(id), Open(id, now)]
  }

  lemma {:induction false} ExecAppend(s: State, steps: seq<Step>, more: seq<Step>)
    ensures Exec(s, steps + more) == Exec(Exec(s, steps), more)
  {
    if more == [] {
      assert steps + more == steps;
    } else {
      var n := |more| - 1;
      ExecAppend(s, steps, more[..n]);
      assert (steps + more)[..|steps + more| - 1] == steps + more[..n];
    }
  }

  lemma StartIsRun(s: State, id: TaskId, kind: Kind, now: int)
    ensures Exec(s, StartSteps(id, kind, now)) == Started(s, id, kind, now)
  {
    var steps := StartSteps(id, kind, now);
    assert steps[..3] == steps[..2] + [Check(id)] && steps[..2] == steps[..1] + [Fetch(id)] &&
           steps[..1] == [] + [Load(id, kind)];
    ExecSnoc(s, [], Load(id, kind));
    ExecSnoc(s, steps[..1], Fetch(id));
    ExecSnoc(s, steps[..2], Check(id));
    assert steps == steps[..3] + [Open(id, now)];
    ExecSnoc(s, steps[..3], Open(id, now));
  }

  /** What a task opens that starts now and is not stopped. */
  lemma StartedTask(s: State, id: TaskId, kind: Kind, now: int)
    requires id !in s.tasks && s.experiment.startedAt.Some? && now >= s.clock && !IsFinal(s.experiment, RowOf(s, kind))
    ensures var e := s.experiment;
            var task := Computing(kind, e.startedAt.value, WindowEnd(e, now), Origin(e.endedAt.Some?, now));
            Started(s, id, kind, now) == s.(rows := s.rows[kind := RowOf(s, kind)], tasks := s.tasks[id := task],
                                            clock := now)
  {
    var loaded := Apply(s, Load(id, kind));
    var fetched := Apply(loaded, Fetch(id));
    var checked := Apply(fetched, Check(id));
    assert fetched == s.(rows := s.rows[kind := RowOf(s, kind)],
                         tasks := s.tasks[id := Fetched(kind, s.experiment, RowOf(s, kind))]);
    assert checked == s.(rows := s.rows[kind := RowOf(s, kind)], tasks := s.tasks[id := Checked(kind, s.experiment)]);
  }

  /** The experiment was completed while a task was computing over a window that ends before. */
  const OVERTAKEN := State(Lifecycle(Completed, Some(1), Some(3)), map[Exposures := NEW_ROW],
                           map[0 := Computing(Exposures, 1, 2, Origin(false, 2))], 3, map[])

  /** The experiment was completed after a task had read it. */
  const OUTDATED := State(Lifecycle(Completed, Some(1), Some(3)), map[],
                          map[0 := Loaded(Exposures, Lifecycle(Running, Some(1), None))], 3, map[])

  function FirstSteps(): seq<Step>
  {
    [Transition(Running, 1)] + StartSteps(0, Exposures, 2) + [Transition(Completed, 3)]
  }

  lemma RunStarts()
    ensures Exec(Initial(0), [Transition(Running, 1)]) ==
            State(Lifecycle(Running, Some(1), None), map[], map[], 1, map[])
  {
    assert [] + [Transition(Running, 1)] == [Transition(Running, 1)];
    ExecSnoc(Initial(0), [], Transition(Running, 1));
  }

  lemma RunIsOvertaken()
    ensures Exec(Initial(0), FirstSteps()) == OVERTAKEN
  {
    var running := State(Lifecycle(Running, Some(1), None), map[], map[], 1, map[]);
    var first := StartSteps(0, Exposures, 2);
    RunStarts();
    ExecAppend(Initial(0), [Transition(Running, 1)], first);
    StartIsRun(running, 0, Exposures, 2);
    StartedTask(running, 0, Exposures, 2);
    ExecSnoc(Initial(0), [Transition(Running, 1)] + first, Transition(Completed, 3));
  }

  lemma SecondTask()
    ensures var s := Apply(Started(OVERTAKEN, 1, Exposures, 4), Succeed(1, "final"));
            && Final(s, Exposures) && RowOf(s, Exposures).payload == Some(Summary(1, 3, "final"))
            && RowOf(Apply(s, Succeed(0, "late")), Exposures).payload == Some(Summary(1, 2, "late"))
            && !Final(Apply(s, Succeed(0, "late")), Exposures)
  {
    StartedTask(OVERTAKEN, 1, Exposures, 4);
  }

  /** A task opens its window while the experiment runs, and another one after the end records first. */
  lemma SomeRunUnfreezes() returns (steps: seq<Step>, late: Step)
    ensures var s := Exec(Initial(0), steps);
            && Final(s, Exposures) && RowOf(s, Exposures).payload == Some(Summary(1, 3, "final"))
            && RowOf(Apply(s, late), Exposures).payload == Some(Summary(1, 2, "late"))
            && !Final(Apply(s, late), Exposures)
  {
    var second := StartSteps(1, Exposures, 4);
    steps, late := FirstSteps() + second + [Succeed(1, "final")], Succeed(0, "late");
    RunIsOvertaken();
    ExecAppend(Initial(0), FirstSteps(), second);
    StartIsRun(OVERTAKEN, 1, Exposures, 4);
    ExecSnoc(Initial(0), FirstSteps() + second, Succeed(1, "final"));
    SecondTask();
  }

  lemma RunIsOutdated()
    ensures Exec(Initial(0), [Transition(Running, 1), Load(0, Exposures), Transition(Completed, 3)]) == OUTDATED
  {
    var steps := [Transition(Running, 1), Load(0, Exposures), Transition(Completed, 3)];
    assert steps[..1] == [Transition(Running, 1)] && steps[..2] == steps[..1] + [steps[1]] &&
           steps == steps[..2] + [steps[2]];
    RunStarts();
    ExecSnoc(Initial(0), steps[..1], steps[1]);
    ExecSnoc(Initial(0), steps[..2], steps[2]);
  }

  lemma OutdatedTask()
    ensures var s := Apply(Apply(Apply(Apply(OUTDATED, Fetch(0)), Check(0)), Open(0, 4)), Succeed(0, "late"));
            && s.experiment.endedAt == Some(3) && Final(s, Exposures) && s.tasks == map[]
            && RowOf(s, Exposures).payload == Some(Summary(1, 4, "late"))
  {
    var seen, rows := Lifecycle(Running, Some(1), None), map[Exposures := NEW_ROW];
    var fetched := Apply(OUTDATED, Fetch(0));
    assert fetched == OUTDATED.(rows := rows, tasks := map[0 := Fetched(Exposures, seen, NEW_ROW)]);
    var checked := Apply(fetched, Check(0));
    assert checked == OUTDATED.(rows := rows, tasks := map[0 := Checked(Exposures, seen)]);
    var tasks := map[0 := Computing(Exposures, 1, 4, Origin(false, 4))];
    assert Apply(checked, Open(0, 4)) == OUTDATED.(rows := rows, tasks := tasks, clock := 4);
  }

  /** A task reads the running experiment, and takes its time after the end: its window is frozen past the end. */
  lemma SomeRunFreezesPastTheEnd() returns (steps: seq<Step>)
    ensures var s := Exec(Initial(0), steps);
            && s.experiment.endedAt == Some(3) && Final(s, Exposures) && Idle(s, Exposures)
            && RowOf(s, Exposures).payload == Some(Summary(1, 4, "late"))
  {
    var run := [Transition(Running, 1), Load(0, Exposures), Transition(Completed, 3)];
    RunIsOutdated();
    ExecSnoc(Initial(0), run, Fetch(0));
    ExecSnoc(Initial(0), run + [Fetch(0)], Check(0));
    ExecSnoc(Initial(0), run + [Fetch(0)] + [Check(0)], Open(0, 4));
    ExecSnoc(Initial(0), run + [Fetch(0)] + [Check(0)] + [Open(0, 4)], Succeed(0, "late"));
    steps := run + [Fetch(0)] + [Check(0)] + [Open(0, 4)] + [Succeed(0, "late")];
    OutdatedTask();
  }

  // ----- Tasks one at a time -----

  datatype Outcome = Computed(content: string) | Failed(at: int)

  /** What happens when each task runs on its own. */
  datatype Action =
    | Change(target: Status, at: int)
    | Request(kind: Kind, minInterval: int, at: int)
    | Compute(kind: Kind, at: int, outcome: Outcome)

  /** The step that ends a task. */
  function Ending(outcome: Outcome): Step
  {
    if outcome.Computed? then Succeed(0, outcome.content) else Fail(0, outcome.at)
  }

  function StepsOf(a: Action): seq<Step>
  {
    match a
    case Change(target, at) => [Transition(target, at)]
    case Request(kind, minInterval, at) => [RequestRefresh(kind, minInterval, at)]
    case Compute(kind, at, outcome) => StartSteps(0, kind, at) + [Ending(outcome)] + [Abandon(0)]
  }

  function Perform(s: State, a: Action): State
  {
    match a
    case Change(target, at) => Apply(s, Transition(target, at))
    case Request(kind, minInterval, at) => Apply(s, RequestRefresh(kind, minInterval, at))
    case Compute(kind, at, outcome) => Apply(Apply(Started(s, 0, kind, at), Ending(outcome)), Abandon(0))
  }

  function PerformAll(s: State, actions: seq<Action>): State
  {
    if actions == [] then s else Perform(PerformAll(s, actions[..|actions| - 1]), actions[|actions| - 1])
  }

  lemma PerformIsRun(s: State, a: Action)
    ensures Perform(s, a) == Exec(s, StepsOf(a))
  {
    if a.Compute? {
      var start := StartSteps(0, a.kind, a.at);
      StartIsRun(s, 0, a.kind, a.at);
      ExecSnoc(s, start, Ending(a.outcome));
      ExecSnoc(s, start + [Ending(a.outcome)], Abandon(0));
    } else {
      assert StepsOf(a) == [] + [StepsOf(a)[0]];
      ExecSnoc(s, [], StepsOf(a)[0]);
    }
  }

  ghost predicate NotBefore(a: Option<int>, b: Option<int>)
  {
    a.Some? ==> b.Some? && a.value <= b.value
  }

  /** The row ends no later than the experiment. */
  ghost predicate WithinEnd(s: State, kind: Kind)
  {
    NotBefore(RowOf(s, kind).asOf, Some(WindowEnd(s.experiment, s.clock)))
  }

  /** The row moves forward: its time never decreases, and a final row never changes. */
  ghost predicate MovesForward(s: State, t: State, kind: Kind)
  {
    && NotBefore(RowOf(s, kind).asOf, RowOf(t, kind).asOf)
    && (Final(s, kind) ==> Final(t, kind) && SamePayload(s, t, kind))
  }

  /** A task that is stopped, or whose time is in the past, opens no window. */
  lemma StoppedTask(s: State, id: TaskId, kind: Kind, now: int)
    requires s.tasks == map[]
    requires s.experiment.startedAt.None? || now < s.clock || IsFinal(s.experiment, RowOf(s, kind))
    ensures var t := Started(s, id, kind, now);
            && t == s.(rows := t.rows, tasks := t.tasks) && (forall k :: RowOf(t, k) == RowOf(s, k))
            && t.tasks.Keys <= {id} && (id in t.tasks ==> t.tasks[id].Checked?)
  {
    var loaded := Apply(s, Load(id, kind));
    var fetched := Apply(loaded, Fetch(id));
    var checked := Apply(fetched, Check(id));
    assert fetched == s.(rows := fetched.rows, tasks := fetched.tasks) && forall k :: RowOf(fetched, k) == RowOf(s, k);
    assert checked == s.(rows := fetched.rows, tasks := checked.tasks);
    assert checked.tasks.Keys <= {id} && (id in checked.tasks ==> checked.tasks[id].Checked?);
  }

  predicate Opens(s: State, kind: Kind, at: int)
  {
    s.experiment.startedAt.Some? && at >= s.clock && !IsFinal(s.experiment, RowOf(s, kind))
  }

  /** What a task on its own makes of its row. */
  function Made(s: State, kind: Kind, at: int, outcome: Outcome): Row
  {
    var e, row := s.experiment, RowOf(s, kind);
    if !Opens(s, kind, at) then row
    else if outcome.Computed? then Refreshed(row, Summary(e.startedAt.value, WindowEnd(e, at), outcome.content))
    else if outcome.at >= at then row.(lastErrorAt := Some(outcome.at))
    else row
  }

  /** How a task ends that has opened its window. */
  lemma EndingEffect(s: State, kind: Kind, windowStart: int, windowEnd: int, origin: Origin, outcome: Outcome)
    requires s.tasks == map[0 := Computing(kind, windowStart, windowEnd, origin)] && kind in s.rows
    ensures var t, row := Apply(Apply(s, Ending(outcome)), Abandon(0)), s.rows[kind];
            && t.tasks == map[] && t.experiment == s.experiment && t.clock >= s.clock
            && t.rows == s.rows[kind :=
                 if outcome.Computed? then Refreshed(row, Summary(windowStart, windowEnd, outcome.content))
                 else if outcome.at >= s.clock then row.(lastErrorAt := Some(outcome.at))
                 else row]
  {
  }

  lemma OpenedEffect(s: State, kind: Kind, at: int, outcome: Outcome)
    requires s.tasks == map[] && Opens(s, kind, at)
    ensures var t := Perform(s, Compute(kind, at, outcome));
            && t.tasks == map[] && t.experiment == s.experiment && t.clock >= at
            && t.rows == s.rows[kind := Made(s, kind, at, outcome)]
  {
    var e := s.experiment;
    StartedTask(s, 0, kind, at);
    EndingEffect(Started(s, 0, kind, at), kind, e.startedAt.value, WindowEnd(e, at), Origin(e.endedAt.Some?, at),
                 outcome);
  }

  lemma StoppedEffect(s: State, kind: Kind, at: int, outcome: Outcome)
    requires s.tasks == map[] && !Opens(s, kind, at)
    ensures var t := Perform(s, Compute(kind, at, outcome));
            && t.tasks == map[] && t.experiment == s.experiment && t.clock == s.clock
            && forall k :: RowOf(t, k) == RowOf(s, k)
  {
    StoppedTask(s, 0, kind, at);
  }

  /** A task on its own leaves no task behind and changes nothing but its row. */
  lemma ComputeEffect(s: State, kind: Kind, at: int, outcome: Outcome, k: Kind)
    requires s.tasks == map[]
    ensures var t := Perform(s, Compute(kind, at, outcome));
            && t.tasks == map[] && t.experiment == s.experiment && t.clock >= s.clock &&
               (Opens(s, kind, at) ==> t.clock >= at)
            && RowOf(t, k) == if k == kind then Made(s, kind, at, outcome) else RowOf(s, k)
  {
    if Opens(s, kind, at) {
      OpenedEffect(s, kind, at, outcome);
    } else {
      StoppedEffect(s, kind, at, outcome);
    }
  }

  lemma MadeMovesForward(s: State, kind: Kind, at: int, outcome: Outcome)
    requires Inv(s) && WithinEnd(s, kind)
    ensures NotBefore(RowOf(s, kind).asOf, Made(s, kind, at, outcome).asOf)
    ensures if Opens(s, kind, at) then NotBefore(Made(s, kind, at, outcome).asOf, Some(WindowEnd(s.experiment, at)))
            else Made(s, kind, at, outcome) == RowOf(s, kind)
  {
    assert RowInv(s, kind);
  }

  lemma ComputeMovesForward(s: State, computed: Kind, at: int, outcome: Outcome, kind: Kind)
    requires Inv(s) && s.tasks == map[] && WithinEnd(s, kind)
    ensures var t := Perform(s, Compute(computed, at, outcome));
            t.tasks == map[] && WithinEnd(t, kind) && NotBefore(RowOf(s, kind).asOf, RowOf(t, kind).asOf)
  {
    ComputeEffect(s, computed, at, outcome, kind);
    if kind == computed {
      MadeMovesForward(s, kind, at, outcome);
    }
  }

  lemma ActionMovesForward(s: State, a: Action, kind: Kind)
    requires Inv(s) && s.tasks == map[] && WithinEnd(s, kind)
    ensures var t := Perform(s, a); Inv(t) && t.tasks == map[] && WithinEnd(t, kind) && MovesForward(s, t, kind)
  {
    if a.Compute? {
      ComputeMovesForward(s, a.kind, a.at, a.outcome, kind);
    }
    PerformIsRun(s, a);
    TimestampsNeverChange(s, StepsOf(a));
    if Final(s, kind) {
      FinalIsFrozen(s, StepsOf(a), kind);
    }
  }

  /**
    With tasks one at a time, a computation only moves forward, is frozen once final, and ends no later
    than its experiment.
   */
  lemma {:induction false} OneTaskAtATime(s: State, actions: seq<Action>, kind: Kind)
    requires Inv(s) && s.tasks == map[] && WithinEnd(s, kind)
    ensures var t := PerformAll(s, actions);
            Inv(t) && t.tasks == map[] && WithinEnd(t, kind) && MovesForward(s, t, kind)
  {
    if actions != [] {
      OneTaskAtATime(s, actions[..|actions| - 1], kind);
      ActionMovesForward(PerformAll(s, actions[..|actions| - 1]), actions[|actions| - 1], kind);
    }
  }

  /** So with tasks one at a time final means that the window ends with the experiment. */
  lemma FinalIsWholeWindow(now: int, actions: seq<Action>, kind: Kind)
    ensures var s := PerformAll(Initial(now), actions);
            Final(s, kind) <==> s.experiment.endedAt.Some? && RowOf(s, kind).asOf == s.experiment.endedAt
  {
    OneTaskAtATime(Initial(now), actions, kind);
  }

  // ----- The objects -----

  /** What a whole task makes of a row. */
  function Recomputed(e: Lifecycle, row: Row, now: int, outcome: Outcome): Row
  {
    if e.startedAt.None? || IsFinal(e, row) then row
    else
      match outcome
      case Computed(content) => Refreshed(row, Summary(e.startedAt.value, WindowEnd(e, now), content))
      case Failed(at) => row.(lastErrorAt := Some(at))
  }

  /** That is what it does to the system, when it runs on its own. */
  lemma TaskIsPerform(s: State, kind: Kind, at: int, outcome: Outcome)
    requires s.tasks == map[] && at >= s.clock && (outcome.Failed? ==> outcome.at >= at)
    ensures RowOf(Perform(s, Compute(kind, at, outcome)), kind) == Recomputed(s.experiment, RowOf(s, kind), at, outcome)
  {
    ComputeEffect(s, kind, at, outcome, kind);
  }

  /** A transition that is taken stamps the first start and the completion, and one that is not changes nothing. */
  lemma TransitionStep(s: State, target: Status, now: int)
    requires now >= s.clock
    ensures var t := Apply(s, Transition(target, now));
            var allowed := (s.experiment.status, target) in
              {(Created, Running), (Running, Paused), (Running, Completed), (Paused, Running), (Paused, Completed)};
            && t.rows == s.rows && t.tasks == s.tasks && t.clock == (if allowed then now else s.clock)
            && t.experiment.status == (if allowed then target else s.experiment.status)
            && t.experiment.startedAt ==
               (if allowed && target == Running && s.experiment.startedAt.None? then Some(now)
                else s.experiment.startedAt)
            && t.experiment.endedAt == (if allowed && target == Completed then Some(now) else s.experiment.endedAt)
  {
  }

  /**
    A refresh request is noted exactly if the experiment has started, its row is not final, and the last
    one is old enough.
   */
  lemma RequestStep(s: State, kind: Kind, minInterval: int, now: int)
    requires now >= s.clock
    ensures var t, e, row := Apply(s, RequestRefresh(kind, minInterval, now)), s.experiment, RowOf(s, kind);
            var allowed :=
              && e.startedAt.Some?
              && !(e.endedAt.Some? && row.asOf.Some? && row.asOf.value >= e.endedAt.value)
              && (row.refreshRequestedAt.Some? ==> now >= row.refreshRequestedAt.value + minInterval);
            t == if allowed
                 then s.(rows := s.rows[kind := row.(refreshRequestedAt := Some(now))], clock := now)
                 else s
  {
  }

  class Experiment {
    var status: Status
    var startedAt: Option<int>
    var endedAt: Option<int>

    ghost function Value(): Lifecycle
      reads this
    {
      Lifecycle(status, startedAt, endedAt)
    }

    constructor ()
      ensures Value() == NEW_EXPERIMENT
    {
      status, startedAt, endedAt := Created, None, None;
    }

    /** `transition_experiment_status`; an invalid transition is refused and changes nothing. */
    method Transition(target: Status, now: int) returns (ok: bool)
      modifies this
      ensures ok <==> ValidTransition(old(status), target)
      ensures ok <==> (old(status), target) in {(Created, Running), (Running, Paused), (Running, Completed),
                                                (Paused, Running), (Paused, Completed)}
      ensures Value() == if ok then Transitioned(old(Value()), target, now) else old(Value())
      ensures status == (if ok then target else old(status))
      ensures startedAt == (if ok && target == Running && old(startedAt).None? then Some(now) else old(startedAt))
      ensures endedAt == (if ok && target == Completed then Some(now) else old(endedAt))
    {
      if !ValidTransition(status, target) {
        return false;
      }
      status := target;
      if target == Running && startedAt.None? {
        startedAt := Some(now);
      } else if target == Completed {
        endedAt := Some(now);
      }
      return true;
    }
  }

  class Computation {
    const experiment: Experiment
    var asOf: Option<int>
    var payload: Option<Summary>
    var lastErrorAt: Option<int>
    var refreshRequestedAt: Option<int>

    ghost function Value(): Row
      reads this
    {
      Row(asOf, payload, lastErrorAt, refreshRequestedAt)
    }

    constructor (experiment: Experiment)
      ensures this.experiment == experiment && Value() == NEW_ROW
    {
      this.experiment := experiment;
      asOf, payload, lastErrorAt, refreshRequestedAt := None, None, None, None;
    }

    predicate Final()
      reads this, experiment
      ensures Final() <==> IsFinal(experiment.Value(), Value())
    {
      experiment.endedAt.Some? && asOf.Some? && asOf.value >= experiment.endedAt.value
    }

    method RecordRefresh(summary: Summary, at: int)
      modifies this
      ensures Value() == old(Value()).(payload := Some(summary), asOf := Some(at), lastErrorAt := None)
    {
      payload := Some(summary);
      asOf := Some(at);
      lastErrorAt := None;
    }

    method RecordFailure(now: int)
      modifies this
      ensures Value() == old(Value()).(lastErrorAt := Some(now))
    {
      lastErrorAt := Some(now);
    }

    method RecordRefreshRequest(now: int)
      modifies this
      ensures Value() == old(Value()).(refreshRequestedAt := Some(now))
    {
      refreshRequestedAt := Some(now);
    }
  }

  /** The value of a row that may not exist yet. */
  ghost function ValueOf(row: Computation?): Row
    reads row
  {
    if row == null then NEW_ROW else row.Value()
  }

  /** `compute_experiment_exposures` and `compute_experiment_results`; the computation itself is the outcome. */
  method ComputeTask(experiment: Experiment?, row: Computation?, now: int, outcome: Outcome)
    returns (row': Computation?)
    requires row != null ==> row.experiment == experiment
    modifies row
    ensures experiment == null || experiment.startedAt.None? ==> row' == row && ValueOf(row') == old(ValueOf(row))
    ensures experiment != null && experiment.startedAt.Some? ==>
              && row' != null && row'.experiment == experiment && (row != null ==> row' == row)
              && row'.Value() == Recomputed(experiment.Value(), old(ValueOf(row)), now, outcome)
    ensures experiment != null && experiment.startedAt.Some? ==>
              var was := old(ValueOf(row));
              && row'.refreshRequestedAt == was.refreshRequestedAt
              && (if experiment.endedAt.Some? && was.asOf.Some? && was.asOf.value >= experiment.endedAt.value
                  then row'.Value() == was
                  else if outcome.Failed?
                  then row'.asOf == was.asOf && row'.payload == was.payload && row'.lastErrorAt == Some(outcome.at)
                  else
                    var end := if experiment.endedAt.Some? then experiment.endedAt.value else now;
                    && row'.asOf == Some(end) && row'.lastErrorAt == None
                    && row'.payload == Some(Summary(experiment.startedAt.value, end, outcome.content)))
  {
    if experiment == null || experiment.startedAt.None? {
      return row;
    }
    row' := row;
    if row' == null {
      row' := new Computation(experiment);
    }
    if row'.Final() {
      return;
    }
    var asOf := if experiment.endedAt.Some? then experiment.endedAt.value else now;
    match outcome
    case Computed(content) =>
      row'.RecordRefresh(Summary(experiment.startedAt.value, asOf, content), asOf);
    case Failed(at) =>
      row'.RecordFailure(at);
  }

  datatype Verdict = Accepted | NotStarted | AlreadyFinal | TooSoon

  /** The refresh endpoints. Only an accepted request enqueues a task. */
  method Refresh(experiment: Experiment, row: Computation?, minInterval: int, now: int)
    returns (verdict: Verdict, row': Computation?)
    requires row != null ==> row.experiment == experiment
    modifies row
    ensures verdict == Accepted <==> RefreshAllowed(experiment.Value(), old(ValueOf(row)), minInterval, now)
    ensures var was := old(ValueOf(row));
            var final := experiment.endedAt.Some? && was.asOf.Some? && was.asOf.value >= experiment.endedAt.value;
            && (verdict == NotStarted <==> experiment.startedAt.None?)
            && (verdict == AlreadyFinal <==> experiment.startedAt.Some? && final)
            && (verdict == TooSoon <==>
                  && experiment.startedAt.Some? && !final && was.refreshRequestedAt.Some?
                  && now < was.refreshRequestedAt.value + minInterval)
    ensures row != null ==> row' == row
    ensures ValueOf(row') ==
            if verdict == Accepted then old(ValueOf(row)).(refreshRequestedAt := Some(now)) else old(ValueOf(row))
  {
    row' := row;
    if experiment.startedAt.None? {
      return NotStarted, row';
    }
    if row != null && row.Final() {
      return AlreadyFinal, row';
    }
    if row != null && row.refreshRequestedAt.Some? {
      var retryAfter := minInterval - (now - row.refreshRequestedAt.value);
      if retryAfter > 0 {
        return TooSoon, row';
      }
    }
    if row' == null {
      row' := new Computation(experiment);
    }
    row'.RecordRefreshRequest(now);
    return Accepted, row';
  }
}
