/**
  Counting in the cohort ledger, for any number of appliers: every row changes state once and is
  accounted for once. And why one applier at a time is needed for the ledger to be trusted.
 */
module CohortCounts {
  import opened CohortLedger

  function Held(pc: Pc, adds: bool): nat
  {
    if adds then HeldAdds(pc) else HeldRemoves(pc)
  }

  /** What the appliers below `n` hold between them. */
  function Sum(workers: map<WorkerId, Pc>, adds: bool, n: nat): nat
  {
    if n == 0 then 0
    else Sum(workers, adds, n - 1) + (if n - 1 in workers then Held(workers[n - 1], adds) else 0)
  }

  lemma {:induction false} SumUpdate(workers: map<WorkerId, Pc>, adds: bool, n: nat, w: WorkerId, pc: Pc)
    ensures w < n ==>
              Sum(workers[w := pc], adds, n) + (if w in workers then Held(workers[w], adds) else 0) ==
              Sum(workers, adds, n) + Held(pc, adds)
    ensures w >= n ==> Sum(workers[w := pc], adds, n) == Sum(workers, adds, n)
  {
    if n > 0 {
      SumUpdate(workers, adds, n - 1, w, pc);
    }
  }

  /**
    The histories are exact: `removed` are the rows issued and gone, `applied` holds every row now
    applied, and a row in it never becomes pending-add again.
   */
  ghost predicate HistoriesOk(s: State)
  {
    && (forall id :: id in s.rows ==> id < s.nextId)
    && (forall id: RowId :: id in s.removed <==> id < s.nextId && id !in s.rows)
    && (forall id :: id in s.applied ==> id < s.nextId && (id in s.rows ==> s.rows[id].state != PendingAdd))
    && (forall id :: id in s.rows && s.rows[id].state == Applied ==> id in s.applied)
  }

  ghost predicate Bounds(s: State, n: nat)
  {
    forall w :: w in s.workers ==> w < n
  }

  /** Every change of state is reported, or held by an applier, or was lost in a crash: once. */
  ghost predicate Balanced(s: State, n: nat)
  {
    && |s.applied| == s.addsReported + s.addsLost + Sum(s.workers, true, n)
    && |s.removed| == s.removesReported + s.removesLost + Sum(s.workers, false, n)
  }

  lemma MarkKeepsHistories(s: State, ids: set<RowId>, t: State)
    requires HistoriesOk(s) && t.nextId == s.nextId && t.removed == s.removed
    requires t.rows == MarkApplied(s.rows, ids) && t.applied == s.applied + Hits(s.rows, ids, PendingAdd)
    ensures HistoriesOk(t)
  {
  }

  lemma DeleteKeepsHistories(s: State, ids: set<RowId>, t: State)
    requires HistoriesOk(s) && t.nextId == s.nextId && t.applied == s.applied
    requires t.rows == DeleteRemoved(s.rows, ids) && t.removed == s.removed + Hits(s.rows, ids, PendingRemove)
    ensures HistoriesOk(t)
  {
  }

  /** What an applier adds to the histories it then holds, and what it reports it held. */
  ghost predicate Conserves(s: State, pc: Pc, t: State, pc': Pc)
  {
    && t.addsLost == s.addsLost && t.removesLost == s.removesLost
    && |t.applied| + s.addsReported + HeldAdds(pc) == |s.applied| + t.addsReported + HeldAdds(pc')
    && |t.removed| + s.removesReported + HeldRemoves(pc) == |s.removed| + t.removesReported + HeldRemoves(pc')
  }

  /** Writing traits and reporting touch no row. */
  lemma OtherPhasesTouchNoRow(s: State, w: WorkerId, pc: Pc, t: State)
    requires pc.InBatch? && !pc.phase.MarkingApplied? && !pc.phase.DeletingRemoved? && t == AdvanceBatch(s, w, pc)
    ensures t.rows == s.rows && t.nextId == s.nextId && t.applied == s.applied && t.removed == s.removed
  {
  }

  lemma WritingTraitsConserves(s: State, w: WorkerId, pc: Pc)
    requires pc.InBatch? && (pc.phase.Setting? || pc.phase.Unsetting?)
    ensures Conserves(s, pc, AdvanceBatch(s, w, pc), PcOf(AdvanceBatch(s, w, pc), w))
  {
  }

  lemma ReportingConserves(s: State, w: WorkerId, pc: Pc)
    requires pc.InBatch? && (pc.phase.ReportingAdds? || pc.phase.ReportingRemoves? || pc.phase.Checking?)
    ensures Conserves(s, pc, AdvanceBatch(s, w, pc), PcOf(AdvanceBatch(s, w, pc), w))
  {
  }

  lemma SameHistories(s: State, t: State)
    requires HistoriesOk(s) && t.rows == s.rows && t.nextId == s.nextId && t.applied == s.applied &&
             t.removed == s.removed
    ensures HistoriesOk(t)
  {
  }

  lemma BatchKeepsHistories(s: State, w: WorkerId, pc: Pc, t: State)
    requires HistoriesOk(s) && pc.InBatch? && t == AdvanceBatch(s, w, pc)
    ensures HistoriesOk(t)
  {
    if pc.phase.MarkingApplied? {
      MarkKeepsHistories(s, pc.batch.adds, t);
    } else if pc.phase.DeletingRemoved? {
      DeleteKeepsHistories(s, pc.batch.removes, t);
    } else {
      OtherPhasesTouchNoRow(s, w, pc, t);
      SameHistories(s, t);
    }
  }

  lemma StepKeepsHistories(s: State, step: Step)
    requires HistoriesOk(s)
    ensures HistoriesOk(Apply(s, step))
  {
    match step
    case Advance(w) =>
      if PcOf(s, w).InBatch? { BatchKeepsHistories(s, w, PcOf(s, w), ApplyAdvance(s, w)); }
    case NewRow(_) =>
    case RequestDeletion =>
    case Start(_) =>
    case Crash(_) =>
  }

  lemma MarkConserves(s: State, w: WorkerId, pc: Pc)
    requires HistoriesOk(s) && pc.InBatch? && pc.phase.MarkingApplied?
    ensures Conserves(s, pc, AdvanceBatch(s, w, pc), PcOf(AdvanceBatch(s, w, pc), w))
  {
  }

  lemma DeleteConserves(s: State, w: WorkerId, pc: Pc)
    requires HistoriesOk(s) && pc.InBatch? && pc.phase.DeletingRemoved?
    ensures Conserves(s, pc, AdvanceBatch(s, w, pc), PcOf(AdvanceBatch(s, w, pc), w))
  {
  }

  lemma BatchConserves(s: State, w: WorkerId, pc: Pc)
    requires HistoriesOk(s) && pc.InBatch?
    ensures Conserves(s, pc, AdvanceBatch(s, w, pc), PcOf(AdvanceBatch(s, w, pc), w))
  {
    if pc.phase.MarkingApplied? {
      MarkConserves(s, w, pc);
    } else if pc.phase.DeletingRemoved? {
      DeleteConserves(s, w, pc);
    } else if pc.phase.Setting? || pc.phase.Unsetting? {
      WritingTraitsConserves(s, w, pc);
    } else {
      ReportingConserves(s, w, pc);
    }
  }

  lemma AdvanceConserves(s: State, w: WorkerId, t: State)
    requires HistoriesOk(s) && t == ApplyAdvance(s, w)
    ensures Conserves(s, PcOf(s, w), t, PcOf(t, w))
  {
    if PcOf(s, w).InBatch? {
      BatchConserves(s, w, PcOf(s, w));
    }
  }

  /** What one applier conserves, all of them do. */
  lemma MoveKeepsBalance(s: State, w: WorkerId, n: nat, t: State)
    requires Balanced(s, n) && w < n && t.workers == s.workers[w := PcOf(t, w)]
    requires Conserves(s, PcOf(s, w), t, PcOf(t, w))
    ensures Balanced(t, n)
  {
    SumUpdate(s.workers, true, n, w, PcOf(t, w));
    SumUpdate(s.workers, false, n, w, PcOf(t, w));
  }

  lemma AdvanceKeepsBalance(s: State, w: WorkerId, n: nat, t: State)
    requires HistoriesOk(s) && Balanced(s, n) && t == ApplyAdvance(s, w) && Bounds(t, n)
    ensures Balanced(t, n)
  {
    OnlyTheMoverMoves(s, w);
    if !PcOf(s, w).Idle? {
      assert w in t.workers;
      AdvanceConserves(s, w, t);
      MoveKeepsBalance(s, w, n, t);
    }
  }

  lemma StepKeepsBalance(s: State, step: Step, n: nat)
    requires HistoriesOk(s) && Balanced(s, n) && Bounds(Apply(s, step), n)
    ensures Balanced(Apply(s, step), n)
  {
    var t := Apply(s, step);
    match step
    case Advance(w) =>
      AdvanceKeepsBalance(s, w, n, t);
    case Start(w) =>
      SumUpdate(s.workers, true, n, w, Reading(s.deletionRequested, 0));
      SumUpdate(s.workers, false, n, w, Reading(s.deletionRequested, 0));
      assert t != s ==> w in t.workers;
    case Crash(w) =>
      SumUpdate(s.workers, true, n, w, Idle);
      SumUpdate(s.workers, false, n, w, Idle);
      assert w in t.workers;
    case NewRow(_) =>
    case RequestDeletion =>
  }

  lemma WorkersOnlyGrow(s: State, step: Step)
    ensures s.workers.Keys <= Apply(s, step).workers.Keys
  {
    if step.Advance? {
      OnlyTheMoverMoves(s, step.w);
    }
  }

  lemma {:induction false} ExecWorkersOnlyGrow(s: State, steps: seq<Step>)
    ensures s.workers.Keys <= Exec(s, steps).workers.Keys
    decreases |steps|
  {
    if steps != [] {
      WorkersOnlyGrow(s, steps[0]);
      ExecWorkersOnlyGrow(Apply(s, steps[0]), steps[1..]);
    }
  }

  lemma {:induction false} ExecKeepsBalance(s: State, steps: seq<Step>, n: nat)
    requires HistoriesOk(s) && Balanced(s, n) && Bounds(Exec(s, steps), n)
    ensures HistoriesOk(Exec(s, steps)) && Balanced(Exec(s, steps), n)
    decreases |steps|
  {
    if steps != [] {
      ExecWorkersOnlyGrow(Apply(s, steps[0]), steps[1..]);
      StepKeepsHistories(s, steps[0]);
      StepKeepsBalance(s, steps[0], n);
      ExecKeepsBalance(Apply(s, steps[0]), steps[1..], n);
    }
  }

  lemma {:induction false} EmptySum(adds: bool, n: nat)
    ensures Sum(map[], adds, n) == 0
  {
    if n > 0 {
      EmptySum(adds, n - 1);
    }
  }

  /**
    Across any interleaving of any number of appliers, crashes and replays: the counts reported are
    exactly the rows that changed state, each once, but for what crashes forgot and what is in flight.
   */
  lemma EachRowIsCountedOnce(steps: seq<Step>, n: nat)
    requires Bounds(Exec(INIT, steps), n)
    ensures HistoriesOk(Exec(INIT, steps)) && Balanced(Exec(INIT, steps), n)
  {
    EmptySum(true, n);
    EmptySum(false, n);
    ExecKeepsBalance(INIT, steps, n);
  }

  // ----- Two appliers -----

  lemma {:induction false} ExecSnoc(s: State, steps: seq<Step>, step: Step)
    ensures Exec(s, steps + [step]) == Apply(Exec(s, steps), step)
    decreases |steps|
  {
    if steps == [] {
      assert ([] + [step])[1..] == [];
      assert Exec(Apply(s, step), []) == Apply(s, step);
    } else {
      assert (steps + [step])[1..] == steps[1..] + [step];
      ExecSnoc(Apply(s, steps[0]), steps[1..], step);
    }
  }

  const STALE := InBatch(false, 0, Batch({0}, {}, ["u"], []), Setting(["u"]))
  const REMOVAL := Batch({}, {0}, [], ["u"])

  /** A deletion under way in applier 2 while applier 1 still holds the batch it read before. */
  ghost predicate Snapshot(s: State, rows: map<RowId, Row>, deleted: bool, pc: Pc)
  {
    && s.rows == rows && s.nextId == 1 && s.deleted == deleted && s.deletionRequested && s.traits == {}
    && PcOf(s, 1) == STALE && PcOf(s, 2) == pc
  }

  const LEFT_TO_REMOVE: map<RowId, Row> := map[0 := Row("u", PendingRemove)]

  lemma OneRowBatch(state: RowState)
    requires state != Applied
    ensures var rows := map[0 := Row("u", state)];
            && BatchOf(rows, 1) == [0]
            && BatchFrom(rows, [0]) == (if state == PendingAdd then Batch({0}, {}, ["u"], [])
                                        else Batch({}, {0}, [], ["u"]))
  {
    var rows := map[0 := Row("u", state)];
    assert PendingIds(rows, 1) == PendingIds(rows, 0) + [0] == [0];
    assert Names(rows, [0][1..], PendingAdd) == [] && Names(rows, [0][1..], PendingRemove) == [];
  }

  lemma StepTo(s: State, steps: seq<Step>, step: Step) returns (t: State)
    requires s == Exec(INIT, steps)
    ensures t == Exec(INIT, steps + [step]) == Apply(s, step)
  {
    t := Apply(s, step);
    ExecSnoc(INIT, steps, step);
  }

  /** Applier 1 has read the one row there is, and the deletion is not requested yet. */
  ghost predicate BatchRead(s: State)
  {
    && s.rows == map[0 := Row("u", PendingAdd)] && s.nextId == 1 && !s.deleted && !s.deletionRequested && s.traits == {}
    && s.workers == map[1 := STALE]
  }

  lemma ReadsTheRow(s: State)
    requires s == INIT.(rows := map[0 := Row("u", PendingAdd)], nextId := 1, workers := map[1 := Reading(false, 0)])
    ensures BatchRead(Apply(s, Advance(1)))
  {
    OneRowBatch(PendingAdd);
  }

  lemma UntilBatchRead() returns (steps: seq<Step>)
    ensures BatchRead(Exec(INIT, steps))
  {
    var listed := INIT.(rows := map[0 := Row("u", PendingAdd)], nextId := 1);
    var s := StepTo(INIT, [], NewRow("u"));
    assert s == listed;
    steps := [] + [NewRow("u")];
    s := StepTo(s, steps, Start(1));
    assert s == listed.(workers := map[1 := Reading(false, 0)]);
    steps := steps + [Start(1)];
    ReadsTheRow(s);
    s := StepTo(s, steps, Advance(1));
    steps := steps + [Advance(1)];
  }

  lemma UntilDeletionRequested() returns (steps: seq<Step>)
    ensures Snapshot(Exec(INIT, steps), LEFT_TO_REMOVE, false, Reading(true, 0))
  {
    steps := UntilBatchRead();
    var s := StepTo(Exec(INIT, steps), steps, RequestDeletion);
    assert s.rows == LEFT_TO_REMOVE;
    steps := steps + [RequestDeletion];
    s := StepTo(s, steps, Start(2));
    steps := steps + [Start(2)];
  }

  /** Applier 2 runs its removal to the end. */
  lemma {:induction false} RemovalRuns(s: State, steps: seq<Step>, phase: Phase) returns (steps': seq<Step>)
    requires s == Exec(INIT, steps)
    requires phase in {Setting([]), Unsetting(["u"]), Unsetting([]), MarkingApplied, DeletingRemoved(0)}
    requires Snapshot(s, LEFT_TO_REMOVE, false, InBatch(true, 0, REMOVAL, phase))
    ensures Snapshot(Exec(INIT, steps'), map[], false, InBatch(true, 0, REMOVAL, ReportingAdds(0, 1)))
    decreases if phase.Setting? then 4 else if phase == Unsetting(["u"]) then 3 else if phase.Unsetting? then 2
      else if phase.MarkingApplied? then 1 else 0
  {
    var t := StepTo(s, steps, Advance(2));
    assert ["u"][1..] == [];
    if phase.DeletingRemoved? {
      assert Hits(LEFT_TO_REMOVE, {0}, PendingRemove) == {0};
      assert t.rows == map[];
      steps' := steps + [Advance(2)];
    } else if phase.MarkingApplied? {
      assert Hits(LEFT_TO_REMOVE, {}, PendingAdd) == {};
      assert t.rows == LEFT_TO_REMOVE;
      steps' := RemovalRuns(t, steps + [Advance(2)], DeletingRemoved(0));
    } else {
      steps' := RemovalRuns(t, steps + [Advance(2)], PcOf(t, 2).phase);
    }
  }

  lemma {:induction false} DeletionFinishes(s: State, steps: seq<Step>, pc: Pc) returns (steps': seq<Step>)
    requires s == Exec(INIT, steps)
    requires pc in {InBatch(true, 0, REMOVAL, ReportingAdds(0, 1)), InBatch(true, 0, REMOVAL, ReportingRemoves(1)),
                    InBatch(true, 0, REMOVAL, Checking), Finalising}
    requires Snapshot(s, map[], false, pc)
    ensures Snapshot(Exec(INIT, steps'), map[], true, Idle)
    decreases if pc.Finalising? then 0 else if pc.phase.Checking? then 1 else if pc.phase.ReportingRemoves? then 2
      else 3
  {
    var t := StepTo(s, steps, Advance(2));
    assert PendingIds(map[], 1) == PendingIds(map[], 0) == [];
    if pc.Finalising? {
      steps' := steps + [Advance(2)];
    } else {
      steps' := DeletionFinishes(t, steps + [Advance(2)], PcOf(t, 2));
    }
  }

  /**
    One applier at a time is needed: an applier overtaken by a second one leaves an identity holding
    the trait of a cohort that is gone.
   */
  lemma TwoAppliersCanLeaveATrait()
    ensures exists steps :: Exec(INIT, steps).deleted && "u" in Exec(INIT, steps).traits
  {
    var steps := UntilDeletionRequested();
    OneRowBatch(PendingRemove);
    var t := StepTo(Exec(INIT, steps), steps, Advance(2));
    steps := RemovalRuns(t, steps + [Advance(2)], Setting([]));
    steps := DeletionFinishes(Exec(INIT, steps), steps, InBatch(true, 0, REMOVAL, ReportingAdds(0, 1)));
    t := StepTo(Exec(INIT, steps), steps, Advance(1));
    assert Exec(INIT, steps + [Advance(1)]).deleted && "u" in Exec(INIT, steps + [Advance(1)]).traits;
  }

  // ----- A deleted cohort -----

  /** What an applier saw of the deletion request, however many there are. */
  ghost predicate SeenOk(s: State, pc: Pc)
  {
    match pc
    case Idle => true
    case Reading(deletionSeen, _) => deletionSeen ==> s.deletionRequested
    case InBatch(deletionSeen, _, _, _) => deletionSeen ==> s.deletionRequested
    case Finalising => s.deletionRequested && s.rows == map[]
  }

  ghost predicate DeletionInv(s: State)
  {
    RowsOk(s) && DeletionSticks(s) && forall w :: w in s.workers ==> SeenOk(s, s.workers[w])
  }

  lemma MarkKeepsDeletionInv(s: State, ids: set<RowId>, t: State)
    requires RowsOk(s) && DeletionSticks(s)
    requires t.rows == MarkApplied(s.rows, ids) && t.nextId == s.nextId
    requires t.deletionRequested == s.deletionRequested && t.deleted == s.deleted
    ensures RowsOk(t) && DeletionSticks(t) && (s.rows == map[] ==> t.rows == map[])
  {
  }

  lemma DeleteKeepsDeletionInv(s: State, ids: set<RowId>, t: State)
    requires RowsOk(s) && DeletionSticks(s)
    requires t.rows == DeleteRemoved(s.rows, ids) && t.nextId == s.nextId
    requires t.deletionRequested == s.deletionRequested && t.deleted == s.deleted
    ensures RowsOk(t) && DeletionSticks(t) && (s.rows == map[] ==> t.rows == map[])
  {
  }

  lemma PhasesKeepFlags(s: State, w: WorkerId, pc: Pc, t: State)
    requires pc.InBatch? && t == AdvanceBatch(s, w, pc)
    ensures t.nextId == s.nextId && t.deletionRequested == s.deletionRequested && t.deleted == s.deleted
  {
  }

  lemma BatchKeepsDeletionInv(s: State, w: WorkerId, pc: Pc, t: State)
    requires DeletionInv(s) && pc.InBatch? && t == AdvanceBatch(s, w, pc)
    ensures RowsOk(t) && DeletionSticks(t) && (s.rows == map[] ==> t.rows == map[])
  {
    PhasesKeepFlags(s, w, pc, t);
    if pc.phase.MarkingApplied? {
      MarkKeepsDeletionInv(s, pc.batch.adds, t);
    } else if pc.phase.DeletingRemoved? {
      DeleteKeepsDeletionInv(s, pc.batch.removes, t);
    } else {
      OtherPhasesTouchNoRow(s, w, pc, t);
    }
  }

  lemma BatchKeepsSeen(s: State, w: WorkerId, pc: Pc, t: State)
    requires DeletionInv(s) && SeenOk(s, pc) && pc.InBatch? && t == AdvanceBatch(s, w, pc)
    ensures SeenOk(t, PcOf(t, w)) && t.deletionRequested == s.deletionRequested
  {
    if pc.phase.Checking? && pc.deletionSeen && PendingIds(s.rows, s.nextId) == [] {
      NothingPendingMeansEmpty(s);
    }
  }

  lemma ReadKeepsDeletionInv(s: State, w: WorkerId, deletionSeen: bool, batches: nat, t: State)
    requires DeletionInv(s) && (deletionSeen ==> s.deletionRequested) && t == ReadBatch(s, w, deletionSeen, batches)
    ensures t == s.(workers := t.workers) && SeenOk(t, PcOf(t, w))
  {
    if deletionSeen && PendingIds(s.rows, s.nextId) == [] {
      NothingPendingMeansEmpty(s);
    }
  }

  lemma AdvanceKeepsDeletionInv(s: State, w: WorkerId, t: State)
    requires DeletionInv(s) && t == ApplyAdvance(s, w)
    ensures DeletionInv(t)
  {
    OnlyTheMoverMoves(s, w);
    match PcOf(s, w)
    case Idle =>
    case Reading(deletionSeen, batches) => ReadKeepsDeletionInv(s, w, deletionSeen, batches, t);
    case InBatch(_, _, _, _) =>
      BatchKeepsDeletionInv(s, w, PcOf(s, w), t);
      BatchKeepsSeen(s, w, PcOf(s, w), t);
    case Finalising =>
  }

  lemma StepKeepsDeletionInv(s: State, step: Step)
    requires DeletionInv(s)
    ensures DeletionInv(Apply(s, step))
  {
    if step.Advance? {
      AdvanceKeepsDeletionInv(s, step.w, ApplyAdvance(s, step.w));
    }
  }

  lemma {:induction false} ExecKeepsDeletionInv(s: State, steps: seq<Step>)
    requires DeletionInv(s)
    ensures DeletionInv(Exec(s, steps))
    decreases |steps|
  {
    if steps != [] {
      StepKeepsDeletionInv(s, steps[0]);
      ExecKeepsDeletionInv(Apply(s, steps[0]), steps[1..]);
    }
  }

  predicate WillSet(pc: Pc)
  {
    pc.InBatch? && pc.phase.Setting? && pc.phase.left != []
  }

  /** No identity holds the trait, and no applier has one left to write. */
  predicate Gone(s: State)
  {
    s.traits == {} && forall w :: w in s.workers ==> !WillSet(s.workers[w])
  }

  lemma {:induction false} NothingPending(n: nat)
    ensures PendingIds(map[], n) == []
  {
    if n > 0 {
      NothingPending(n - 1);
    }
  }

  lemma StepKeepsGone(s: State, step: Step)
    requires DeletionInv(s) && s.deleted && Gone(s)
    ensures Apply(s, step).deleted && Gone(Apply(s, step))
  {
    if step.Advance? {
      OnlyTheMoverMoves(s, step.w);
      NothingPending(s.nextId);
    }
  }

  lemma {:induction false} ExecKeepsGone(s: State, steps: seq<Step>)
    requires DeletionInv(s) && s.deleted && Gone(s)
    ensures Exec(s, steps).deleted && Gone(Exec(s, steps))
    decreases |steps|
  {
    if steps != [] {
      StepKeepsDeletionInv(s, steps[0]);
      StepKeepsGone(s, steps[0]);
      ExecKeepsGone(Apply(s, steps[0]), steps[1..]);
    }
  }

  lemma NotGoneIsUnsafe(s: State) returns (more: seq<Step>)
    requires !Gone(s)
    ensures Exec(s, more).traits != {}
  {
    more := [];
    if s.traits == {} {
      var w :| w in s.workers && WillSet(s.workers[w]);
      more := [] + [Advance(w)];
      ExecSnoc(s, [], Advance(w));
      assert s.workers[w].phase.left[0] in Exec(s, more).traits;
    }
  }

  /**
    Whatever appliers there were: after a cohort is deleted no identity ever holds its trait again
    exactly if none does now and no applier has a trait left to write.
   */
  lemma DeletedIsSafeIff(steps: seq<Step>, s: State)
    requires s == Exec(INIT, steps) && s.deleted
    ensures Gone(s) <==> forall more :: Exec(s, more).traits == {}
  {
    ExecKeepsDeletionInv(INIT, steps);
    if Gone(s) {
      forall more ensures Exec(s, more).traits == {} {
        ExecKeepsGone(s, more);
      }
    } else {
      var more := NotGoneIsUnsafe(s);
    }
  }
}
