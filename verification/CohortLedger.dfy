/**
  The membership ledger of one cohort and the trait store it is kept in step with, as a protocol.

  One step is one database statement, one write to the trait store or one metric update, so that
  runs interleave appliers, new rows, the deletion request and crashes in every possible way.
  A step that is not enabled leaves the state alone.
 */
module CohortLedger {
  import opened Sequences

  type RowId = nat
  type Identifier = string
  type WorkerId = nat

  const APPLY_BATCH_SIZE := 100
  const MAX_BATCHES_PER_RUN := 10

  datatype RowState = PendingAdd | Applied | PendingRemove
  datatype Row = Row(identifier: Identifier, state: RowState)

  // ----- The statements on the ledger -----

  /** Ids of the pending rows below `n`, in id order. */
  function PendingIds(rows: map<RowId, Row>, n: nat): seq<RowId>
  {
    if n == 0 then []
    else PendingIds(rows, n - 1) + (if n - 1 in rows && rows[n - 1].state != Applied then [n - 1] else [])
  }

  function BatchOf(rows: map<RowId, Row>, n: nat): seq<RowId>
  {
    var ids := PendingIds(rows, n);
    if |ids| <= APPLY_BATCH_SIZE then ids else ids[..APPLY_BATCH_SIZE]
  }

  /** The chosen rows that are in a given state: what a guarded update or delete touches. */
  function Hits(rows: map<RowId, Row>, ids: set<RowId>, state: RowState): set<RowId>
  {
    set id | id in ids && id in rows && rows[id].state == state
  }

  /** The identifiers of the listed rows in a given state, in list order. */
  function Names(rows: map<RowId, Row>, ids: seq<RowId>, state: RowState): seq<Identifier>
  {
    if ids == [] then []
    else (if ids[0] in rows && rows[ids[0]].state == state then [rows[ids[0]].identifier] else []) +
         Names(rows, ids[1..], state)
  }

  /** `PENDING_ADD` rows of the chosen rows become `APPLIED`; any other row is left alone. */
  function MarkApplied(rows: map<RowId, Row>, ids: set<RowId>): map<RowId, Row>
  {
    map id | id in rows :: if id in ids && rows[id].state == PendingAdd then rows[id].(state := Applied) else rows[id]
  }

  /** `PENDING_REMOVE` of the chosen rows are deleted; any other row is left alone. */
  function DeleteRemoved(rows: map<RowId, Row>, ids: set<RowId>): map<RowId, Row>
  {
    map id | id in rows && !(id in ids && rows[id].state == PendingRemove) :: rows[id]
  }

  function AllToRemove(rows: map<RowId, Row>): map<RowId, Row>
  {
    map id | id in rows :: rows[id].(state := PendingRemove)
  }

  lemma {:induction false} PendingIdsSpec(rows: map<RowId, Row>, n: nat)
    ensures Ascending(PendingIds(rows, n))
    ensures forall id :: id in PendingIds(rows, n) <==> id < n && id in rows && rows[id].state != Applied
  {
    if n > 0 {
      PendingIdsSpec(rows, n - 1);
      var ids := PendingIds(rows, n - 1);
      forall i | 0 <= i < |ids| ensures ids[i] < n - 1 {
        assert ids[i] in ids;
      }
    }
  }

  lemma {:induction false} NamesSpec(rows: map<RowId, Row>, ids: seq<RowId>, state: RowState)
    ensures forall id :: id in ids && id in rows && rows[id].state == state ==>
            rows[id].identifier in Names(rows, ids, state)
    ensures forall x :: x in Names(rows, ids, state) ==>
              exists id :: id in ids && id in rows && rows[id].state == state && rows[id].identifier == x
  {
    if ids != [] {
      NamesSpec(rows, ids[1..], state);
      forall x | x in Names(rows, ids[1..], state)
        ensures exists id :: id in ids && id in rows && rows[id].state == state && rows[id].identifier == x
      {
        var id :| id in ids[1..] && id in rows && rows[id].state == state && rows[id].identifier == x;
        assert id in ids;
      }
    }
  }

  // ----- The protocol -----

  /** How far a batch has come; `left` are the identifiers whose trait is still to be written. */
  datatype Phase =
    | Setting(left: seq<Identifier>)
    | Unsetting(left: seq<Identifier>)
    | MarkingApplied
    | DeletingRemoved(added: nat)
    | ReportingAdds(added: nat, removed: nat)
    | ReportingRemoves(removed: nat)
    | Checking

  /** What an applier read of its batch: the rows to add and to remove, and their identifiers. */
  datatype Batch = Batch(adds: set<RowId>, removes: set<RowId>, addNames: seq<Identifier>, removeNames: seq<Identifier>)

  /** An applier; `deletionSeen` is what it read when the task started, `batches` counts finished ones. */
  datatype Pc =
    | Idle
    | Reading(deletionSeen: bool, batches: nat)
    | InBatch(deletionSeen: bool, batches: nat, batch: Batch, phase: Phase)
    | Finalising

  /**
    `applied` and `removed` are histories of the rows that changed state. `addsReported` and
    `addsLost` account for them: counted in the metric, or forgotten in a crash before it.
   */
  datatype State = State(
    rows: map<RowId, Row>,
    nextId: RowId,
    traits: set<Identifier>,
    deletionRequested: bool,
    deleted: bool,
    workers: map<WorkerId, Pc>,
    applied: set<RowId>,
    removed: set<RowId>,
    addsReported: nat,
    addsLost: nat,
    removesReported: nat,
    removesLost: nat)

  const INIT := State(map[], 0, {}, false, false, map[], {}, {}, 0, 0, 0, 0)

  datatype Step =
    | NewRow(identifier: Identifier)
    | RequestDeletion
    | Start(w: WorkerId)
    | Advance(w: WorkerId)
    | Crash(w: WorkerId)

  function PcOf(s: State, w: WorkerId): Pc
  {
    if w in s.workers then s.workers[w] else Idle
  }

  function Goto(s: State, w: WorkerId, pc: Pc): State
  {
    s.(workers := s.workers[w := pc])
  }

  /** Rows are unique per identifier, and none arrive once deletion is requested. */
  function ApplyNewRow(s: State, identifier: Identifier): State
  {
    if s.deletionRequested || exists id :: id in s.rows && s.rows[id].identifier == identifier then s
    else s.(rows := s.rows[s.nextId := Row(identifier, PendingAdd)], nextId := s.nextId + 1)
  }

  function ApplyRequestDeletion(s: State): State
  {
    if s.deleted then s else s.(deletionRequested := true, rows := AllToRemove(s.rows))
  }

  function WhenDrained(deletionSeen: bool): Pc
  {
    if deletionSeen then Finalising else Idle
  }

  function BatchFrom(rows: map<RowId, Row>, ids: seq<RowId>): Batch
  {
    var chosen := set id | id in ids;
    Batch(Hits(rows, chosen, PendingAdd), Hits(rows, chosen, PendingRemove),
          Names(rows, ids, PendingAdd), Names(rows, ids, PendingRemove))
  }

  function ReadBatch(s: State, w: WorkerId, deletionSeen: bool, batches: nat): State
  {
    var ids := BatchOf(s.rows, s.nextId);
    if ids == [] then Goto(s, w, WhenDrained(deletionSeen))
    else
      var batch := BatchFrom(s.rows, ids);
      Goto(s, w, InBatch(deletionSeen, batches, batch, Setting(batch.addNames)))
  }

  function AdvanceBatch(s: State, w: WorkerId, pc: Pc): State
    requires pc.InBatch?
  {
    match pc.phase
    case Setting(left) =>
      if left != [] then Goto(s, w, pc.(phase := Setting(left[1..]))).(traits := s.traits + {left[0]})
      else Goto(s, w, pc.(phase := Unsetting(pc.batch.removeNames)))
    case Unsetting(left) =>
      if left != [] then Goto(s, w, pc.(phase := Unsetting(left[1..]))).(traits := s.traits - {left[0]})
      else Goto(s, w, pc.(phase := MarkingApplied))
    case MarkingApplied =>
      var hits := Hits(s.rows, pc.batch.adds, PendingAdd);
      Goto(s, w, pc.(phase := DeletingRemoved(|hits|))).(
        rows := MarkApplied(s.rows, pc.batch.adds), applied := s.applied + hits)
    case DeletingRemoved(added) =>
      var hits := Hits(s.rows, pc.batch.removes, PendingRemove);
      Goto(s, w, pc.(phase := ReportingAdds(added, |hits|))).(
        rows := DeleteRemoved(s.rows, pc.batch.removes), removed := s.removed + hits)
    case ReportingAdds(added, removed) =>
      Goto(s, w, pc.(phase := ReportingRemoves(removed))).(addsReported := s.addsReported + added)
    case ReportingRemoves(removed) =>
      Goto(s, w, pc.(phase := Checking)).(removesReported := s.removesReported + removed)
    case Checking =>
      if PendingIds(s.rows, s.nextId) == [] then Goto(s, w, WhenDrained(pc.deletionSeen))
      else if pc.batches + 1 < MAX_BATCHES_PER_RUN then Goto(s, w, Reading(pc.deletionSeen, pc.batches + 1))
      else Goto(s, w, Idle)
  }

  function ApplyAdvance(s: State, w: WorkerId): State
  {
    match PcOf(s, w)
    case Idle => s
    case Reading(deletionSeen, batches) => ReadBatch(s, w, deletionSeen, batches)
    case InBatch(_, _, _, _) => AdvanceBatch(s, w, PcOf(s, w))
    case Finalising => Goto(s, w, Idle).(deleted := true)
  }

  /** Row counts an applier has obtained from the database but not yet reported. */
  function HeldAdds(pc: Pc): nat
  {
    if !pc.InBatch? then 0
    else match pc.phase
         case DeletingRemoved(added) => added
         case ReportingAdds(added, _) => added
         case _ => 0
  }

  function HeldRemoves(pc: Pc): nat
  {
    if !pc.InBatch? then 0
    else match pc.phase
         case ReportingAdds(_, removed) => removed
         case ReportingRemoves(removed) => removed
         case _ => 0
  }

  function Apply(s: State, step: Step): State
  {
    match step
    case NewRow(identifier) => ApplyNewRow(s, identifier)
    case RequestDeletion => ApplyRequestDeletion(s)
    case Start(w) =>
      if PcOf(s, w).Idle? && !s.deleted then Goto(s, w, Reading(s.deletionRequested, 0)) else s
    case Advance(w) => ApplyAdvance(s, w)
    case Crash(w) =>
      Goto(s, w, Idle).(addsLost := s.addsLost + HeldAdds(PcOf(s, w)),
                        removesLost := s.removesLost + HeldRemoves(PcOf(s, w)))
  }

  function Exec(s: State, steps: seq<Step>): State
    decreases |steps|
  {
    if steps == [] then s else Exec(Apply(s, steps[0]), steps[1..])
  }

  // ----- What a run with one applier at a time keeps -----

  predicate AllIdle(s: State)
  {
    forall w :: w in s.workers ==> s.workers[w].Idle?
  }

  /** No applier starts while another is still at work. */
  ghost predicate OneAtATime(s: State, steps: seq<Step>)
    decreases |steps|
  {
    steps == [] || ((steps[0].Start? ==> AllIdle(s)) && OneAtATime(Apply(s, steps[0]), steps[1..]))
  }

  ghost predicate RowsOk(s: State)
  {
    && (forall id :: id in s.rows ==> id < s.nextId)
    && (forall i, j :: i in s.rows && j in s.rows && s.rows[i].identifier == s.rows[j].identifier ==> i == j)
  }

  /** `APPLIED` means the identity holds the trait. */
  ghost predicate AppliedHoldsTrait(s: State)
  {
    forall id :: id in s.rows && s.rows[id].state == Applied ==> s.rows[id].identifier in s.traits
  }

  ghost predicate HasRow(rows: map<RowId, Row>, x: Identifier)
  {
    exists id :: id in rows && rows[id].identifier == x
  }

  /** An identity holds the trait only while the ledger has a row for it. */
  ghost predicate TraitHasRow(s: State)
  {
    forall x :: x in s.traits ==> HasRow(s.rows, x)
  }

  /** After the deletion request nothing but removals is left: a late `APPLIED` is blocked. */
  ghost predicate DeletionSticks(s: State)
  {
    && (s.deletionRequested ==> forall id :: id in s.rows ==> s.rows[id].state == PendingRemove)
    && (s.deleted ==> s.deletionRequested && s.rows == map[])
  }

  ghost predicate LedgerOk(s: State)
  {
    RowsOk(s) && AppliedHoldsTrait(s) && TraitHasRow(s) && DeletionSticks(s)
  }

  /** The rows are still there in the ledger, with a name among those read, and not applied yet. */
  ghost predicate AddsOk(s: State, batch: Batch)
  {
    forall id :: id in batch.adds ==>
      id in s.rows && s.rows[id].state != Applied && s.rows[id].identifier in batch.addNames
  }

  ghost predicate RemovesOk(s: State, batch: Batch)
  {
    forall id :: id in batch.removes ==>
      id in s.rows && s.rows[id].state == PendingRemove && s.rows[id].identifier in batch.removeNames
  }

  /** Every name belongs to one of the rows. */
  ghost predicate Owned(s: State, ids: set<RowId>, names: seq<Identifier>)
  {
    forall x :: x in names ==> exists id :: id in ids && id in s.rows && s.rows[id].identifier == x
  }

  /** Every row's trait is written, or still to be written. */
  ghost predicate SetExcept(s: State, ids: set<RowId>, left: seq<Identifier>)
  {
    forall id :: id in ids && id in s.rows ==> s.rows[id].identifier in s.traits || s.rows[id].identifier in left
  }

  ghost predicate UnsetExcept(s: State, ids: set<RowId>, left: seq<Identifier>)
  {
    forall id :: id in ids && id in s.rows ==> s.rows[id].identifier !in s.traits || s.rows[id].identifier in left
  }

  ghost predicate BatchOk(s: State, batch: Batch, phase: Phase)
  {
    match phase
    case Setting(left) =>
      && AddsOk(s, batch) && RemovesOk(s, batch) && batch.adds !! batch.removes
      && Owned(s, batch.adds, left) && Owned(s, batch.removes, batch.removeNames)
      && SetExcept(s, batch.adds, left)
    case Unsetting(left) =>
      && AddsOk(s, batch) && RemovesOk(s, batch) && batch.adds !! batch.removes
      && Owned(s, batch.removes, left)
      && SetExcept(s, batch.adds, []) && UnsetExcept(s, batch.removes, left)
    case MarkingApplied =>
      && AddsOk(s, batch) && RemovesOk(s, batch) && batch.adds !! batch.removes
      && SetExcept(s, batch.adds, []) && UnsetExcept(s, batch.removes, [])
    case DeletingRemoved(_) => RemovesOk(s, batch) && UnsetExcept(s, batch.removes, [])
    case _ => true
  }

  ghost predicate PcOk(s: State, pc: Pc)
  {
    match pc
    case Idle => true
    case Reading(deletionSeen, _) => deletionSeen ==> s.deletionRequested
    case InBatch(deletionSeen, _, batch, phase) => (deletionSeen ==> s.deletionRequested) && BatchOk(s, batch, phase)
    case Finalising => s.deletionRequested && s.rows == map[]
  }

  /** All appliers but one are idle, and that one's reading of the ledger still stands. */
  ghost predicate WorkersOk(s: State)
  {
    && (forall w :: w in s.workers ==> PcOk(s, s.workers[w]))
    && (forall v, w :: v in s.workers && w in s.workers && !s.workers[v].Idle? && !s.workers[w].Idle? ==> v == w)
  }

  ghost predicate Inv(s: State)
  {
    LedgerOk(s) && WorkersOk(s)
  }

  /** A batch's reading stands as long as its rows keep their names and do not become applied. */
  lemma RowsKeepBatch(s: State, t: State, batch: Batch, phase: Phase)
    requires BatchOk(s, batch, phase) && t.traits == s.traits
    requires forall id :: id in s.rows ==>
               id in t.rows && t.rows[id].identifier == s.rows[id].identifier
               && (t.rows[id].state == s.rows[id].state || t.rows[id].state == PendingRemove)
    ensures BatchOk(t, batch, phase)
  {
  }

  lemma NewRowKeepsInv(s: State, identifier: Identifier)
    requires Inv(s)
    ensures Inv(ApplyNewRow(s, identifier))
  {
    var t := ApplyNewRow(s, identifier);
    if t != s {
      forall x | x in t.traits ensures HasRow(t.rows, x) {
        var id :| id in s.rows && s.rows[id].identifier == x;
        assert id in t.rows && t.rows[id] == s.rows[id];
      }
      forall pc | PcOk(s, pc) ensures PcOk(t, pc) {
        if pc.InBatch? {
          RowsKeepBatch(s, t, pc.batch, pc.phase);
        }
      }
    }
  }

  lemma RequestDeletionKeepsInv(s: State)
    requires Inv(s)
    ensures Inv(ApplyRequestDeletion(s))
  {
    var t := ApplyRequestDeletion(s);
    if t != s {
      forall x | x in t.traits ensures HasRow(t.rows, x) {
        var id :| id in s.rows && s.rows[id].identifier == x;
        assert id in t.rows && t.rows[id].identifier == x;
      }
      forall pc | PcOk(s, pc) ensures PcOk(t, pc) {
        if pc.InBatch? {
          RowsKeepBatch(s, t, pc.batch, pc.phase);
        }
      }
    }
  }

  /** What a fresh reading of a batch establishes. */
  lemma BatchFromOk(s: State)
    requires RowsOk(s)
    ensures BatchOk(s, BatchFrom(s.rows, BatchOf(s.rows, s.nextId)),
                    Setting(BatchFrom(s.rows, BatchOf(s.rows, s.nextId)).addNames))
  {
    var ids := BatchOf(s.rows, s.nextId);
    NamesSpec(s.rows, ids, PendingAdd);
    NamesSpec(s.rows, ids, PendingRemove);
  }

  /** Writing a trait that belongs to a row still to be added. */
  lemma SetTraitKeepsLedger(s: State, w: WorkerId, pc: Pc)
    requires Inv(s) && PcOf(s, w) == pc && pc.InBatch? && pc.phase.Setting? && pc.phase.left != []
    ensures LedgerOk(AdvanceBatch(s, w, pc)) && PcOk(AdvanceBatch(s, w, pc), PcOf(AdvanceBatch(s, w, pc), w))
  {
    var t := AdvanceBatch(s, w, pc);
    var x, left := pc.phase.left[0], pc.phase.left[1..];
    assert BatchOk(s, pc.batch, pc.phase);
    assert forall y :: y in left ==> y in pc.phase.left;
    assert x in pc.phase.left && HasRow(t.rows, x);
    assert SetExcept(t, pc.batch.adds, left) by {
      forall id | id in pc.batch.adds && id in t.rows
        ensures t.rows[id].identifier in t.traits || t.rows[id].identifier in left
      {
        assert t.rows[id].identifier in s.traits || t.rows[id].identifier in pc.phase.left;
      }
    }
  }

  /** Taking away a trait that belongs to a row to be removed. */
  lemma UnsetTraitKeepsLedger(s: State, w: WorkerId, pc: Pc)
    requires Inv(s) && PcOf(s, w) == pc && pc.InBatch? && pc.phase.Unsetting? && pc.phase.left != []
    ensures LedgerOk(AdvanceBatch(s, w, pc)) && PcOk(AdvanceBatch(s, w, pc), PcOf(AdvanceBatch(s, w, pc), w))
  {
    var t := AdvanceBatch(s, w, pc);
    var x, left := pc.phase.left[0], pc.phase.left[1..];
    assert BatchOk(s, pc.batch, pc.phase);
    assert x in pc.phase.left;
    var owner :| owner in pc.batch.removes && owner in s.rows && s.rows[owner].identifier == x;
    assert forall id :: id in s.rows && s.rows[id].identifier == x ==> id == owner;
    assert forall y :: y in left ==> y in pc.phase.left;
    assert SetExcept(t, pc.batch.adds, []) && UnsetExcept(t, pc.batch.removes, left) by {
      forall id | id in pc.batch.adds && id in t.rows ensures t.rows[id].identifier in t.traits {
        assert id != owner;
      }
    }
  }

  /** The guarded update: only rows whose trait is written become applied. */
  lemma MarkAppliedKeepsLedger(s: State, w: WorkerId, pc: Pc)
    requires Inv(s) && PcOf(s, w) == pc && pc.InBatch? && pc.phase.MarkingApplied?
    ensures LedgerOk(AdvanceBatch(s, w, pc)) && PcOk(AdvanceBatch(s, w, pc), PcOf(AdvanceBatch(s, w, pc), w))
  {
    var t := AdvanceBatch(s, w, pc);
    assert BatchOk(s, pc.batch, pc.phase);
    forall x | x in t.traits ensures HasRow(t.rows, x) {
      var id :| id in s.rows && s.rows[id].identifier == x;
      assert id in t.rows && t.rows[id].identifier == x;
    }
    assert forall id :: id in pc.batch.removes ==> t.rows[id] == s.rows[id];
  }

  /** The guarded delete: only rows whose trait is gone disappear. */
  lemma DeleteRemovedKeepsLedger(s: State, w: WorkerId, pc: Pc)
    requires Inv(s) && PcOf(s, w) == pc && pc.InBatch? && pc.phase.DeletingRemoved?
    ensures LedgerOk(AdvanceBatch(s, w, pc)) && PcOk(AdvanceBatch(s, w, pc), PcOf(AdvanceBatch(s, w, pc), w))
  {
    var t := AdvanceBatch(s, w, pc);
    assert BatchOk(s, pc.batch, pc.phase);
    forall x | x in t.traits ensures HasRow(t.rows, x) {
      var id :| id in s.rows && s.rows[id].identifier == x;
      assert id !in pc.batch.removes;
      assert id in t.rows && t.rows[id].identifier == x;
    }
  }

  /** With deletion requested, nothing pending means nothing left at all. */
  lemma NothingPendingMeansEmpty(s: State)
    requires RowsOk(s) && DeletionSticks(s) && s.deletionRequested
    requires PendingIds(s.rows, s.nextId) == []
    ensures s.rows == map[]
  {
    PendingIdsSpec(s.rows, s.nextId);
    assert forall id :: id in s.rows ==> id in PendingIds(s.rows, s.nextId);
  }

  lemma AdvanceBatchKeepsLedger(s: State, w: WorkerId, pc: Pc)
    requires Inv(s) && PcOf(s, w) == pc && pc.InBatch?
    ensures LedgerOk(AdvanceBatch(s, w, pc)) && PcOk(AdvanceBatch(s, w, pc), PcOf(AdvanceBatch(s, w, pc), w))
  {
    match pc.phase
    case Setting(left) =>
      if left != [] { SetTraitKeepsLedger(s, w, pc); }
    case Unsetting(left) =>
      if left != [] { UnsetTraitKeepsLedger(s, w, pc); }
    case MarkingApplied => MarkAppliedKeepsLedger(s, w, pc);
    case DeletingRemoved(_) => DeleteRemovedKeepsLedger(s, w, pc);
    case ReportingAdds(_, _) =>
    case ReportingRemoves(_) =>
    case Checking =>
      if PendingIds(s.rows, s.nextId) == [] && pc.deletionSeen { NothingPendingMeansEmpty(s); }
  }

  lemma ReadBatchKeepsLedger(s: State, w: WorkerId, deletionSeen: bool, batches: nat)
    requires Inv(s) && PcOf(s, w) == Reading(deletionSeen, batches)
    ensures var t := ReadBatch(s, w, deletionSeen, batches); LedgerOk(t) && PcOk(t, PcOf(t, w))
  {
    var t := ReadBatch(s, w, deletionSeen, batches);
    BatchFromOk(s);
    if BatchOf(s.rows, s.nextId) == [] {
      assert PendingIds(s.rows, s.nextId) == [];
      if deletionSeen { NothingPendingMeansEmpty(s); }
    } else {
      RowsKeepBatch(s, t, BatchFrom(s.rows, BatchOf(s.rows, s.nextId)), PcOf(t, w).phase);
    }
  }

  /** The one applier at work moves; the others stay idle. */
  lemma MoverKeepsWorkers(s: State, t: State, w: WorkerId, pc: Pc)
    requires WorkersOk(s) && !PcOf(s, w).Idle?
    requires t.workers == s.workers[w := pc] && PcOk(t, pc)
    ensures WorkersOk(t)
  {
  }

  lemma OnlyTheMoverMovesInBatch(s: State, w: WorkerId, pc: Pc, t: State)
    requires pc.InBatch? && t == AdvanceBatch(s, w, pc)
    ensures t.workers == s.workers[w := PcOf(t, w)]
  {
    match pc.phase
    case Setting(left) =>
    case Unsetting(left) =>
    case _ =>
  }

  lemma OnlyTheMoverMoves(s: State, w: WorkerId)
    ensures PcOf(s, w).Idle? ==> ApplyAdvance(s, w) == s
    ensures !PcOf(s, w).Idle? ==> ApplyAdvance(s, w).workers == s.workers[w := PcOf(ApplyAdvance(s, w), w)]
  {
    if PcOf(s, w).InBatch? {
      OnlyTheMoverMovesInBatch(s, w, PcOf(s, w), AdvanceBatch(s, w, PcOf(s, w)));
    }
  }

  lemma AdvanceKeepsLedger(s: State, w: WorkerId)
    requires Inv(s)
    ensures LedgerOk(ApplyAdvance(s, w)) && PcOk(ApplyAdvance(s, w), PcOf(ApplyAdvance(s, w), w))
  {
    match PcOf(s, w)
    case Idle =>
    case Reading(deletionSeen, batches) => ReadBatchKeepsLedger(s, w, deletionSeen, batches);
    case InBatch(_, _, _, _) => AdvanceBatchKeepsLedger(s, w, PcOf(s, w));
    case Finalising =>
  }

  lemma AdvanceKeepsInv(s: State, w: WorkerId, t: State)
    requires Inv(s) && t == ApplyAdvance(s, w)
    ensures Inv(t)
  {
    OnlyTheMoverMoves(s, w);
    if !PcOf(s, w).Idle? {
      AdvanceKeepsLedger(s, w);
      MoverKeepsWorkers(s, t, w, PcOf(t, w));
    }
  }

  lemma StartKeepsInv(s: State, w: WorkerId)
    requires Inv(s) && AllIdle(s)
    ensures Inv(Apply(s, Start(w)))
  {
  }

  lemma SameLedger(s: State, t: State)
    requires LedgerOk(s)
    requires t.rows == s.rows && t.nextId == s.nextId && t.traits == s.traits
             && t.deletionRequested == s.deletionRequested && t.deleted == s.deleted
    ensures LedgerOk(t)
  {
  }

  lemma CrashKeepsInv(s: State, w: WorkerId)
    requires Inv(s)
    ensures Inv(Apply(s, Crash(w)))
  {
    var t := Apply(s, Crash(w));
    SameLedger(s, t);
    forall pc | PcOk(s, pc) ensures PcOk(t, pc) {
      if pc.InBatch? {
        RowsKeepBatch(s, t, pc.batch, pc.phase);
      }
    }
  }

  lemma StepKeepsInv(s: State, step: Step)
    requires Inv(s)
    requires step.Start? ==> AllIdle(s)
    ensures Inv(Apply(s, step))
  {
    match step
    case NewRow(identifier) => NewRowKeepsInv(s, identifier);
    case RequestDeletion => RequestDeletionKeepsInv(s);
    case Advance(w) => AdvanceKeepsInv(s, w, ApplyAdvance(s, w));
    case Start(w) => StartKeepsInv(s, w);
    case Crash(w) => CrashKeepsInv(s, w);
  }

  lemma {:induction false} ExecKeepsInv(s: State, steps: seq<Step>)
    requires Inv(s) && OneAtATime(s, steps)
    ensures Inv(Exec(s, steps))
    decreases |steps|
  {
    if steps != [] {
      StepKeepsInv(s, steps[0]);
      ExecKeepsInv(Apply(s, steps[0]), steps[1..]);
    }
  }

  /**
    Over every run with one applier at a time, interleaved with new rows, the deletion request and
    crashes: the ledger tells the truth about the trait store, the deletion request sticks, and a
    cohort is gone only when no identity holds its trait.
   */
  lemma LedgerTellsTheTruth(steps: seq<Step>)
    requires OneAtATime(INIT, steps)
    ensures var s := Exec(INIT, steps);
            && AppliedHoldsTrait(s) && TraitHasRow(s) && DeletionSticks(s)
            && (s.deleted ==> s.traits == {})
  {
    ExecKeepsInv(INIT, steps);
    var s := Exec(INIT, steps);
    if s.deleted {
      assert forall x :: x in s.traits ==> HasRow(s.rows, x);
      assert forall x :: !HasRow(s.rows, x);
    }
  }

  // ----- How much a task takes -----

  /** A batch is made of pending rows, at most 100, and leaves out only newer ones, when it is full. */
  lemma BatchIsOldest(rows: map<RowId, Row>, n: nat)
    ensures var batch := BatchOf(rows, n);
            && |batch| <= 100
            && (forall b :: b in batch ==> b < n && b in rows && rows[b].state != Applied)
            && (forall id :: id in rows && id < n && rows[id].state != Applied && id !in batch ==>
                  |batch| == 100 && forall b :: b in batch ==> b < id)
  {
    PendingIdsSpec(rows, n);
    var ids, batch := PendingIds(rows, n), BatchOf(rows, n);
    assert forall k :: 0 <= k < |batch| ==> batch[k] == ids[k];
    forall b | b in batch ensures b < n && b in rows && rows[b].state != Applied {
      assert b in ids;
    }
    forall id | id in ids && id !in batch
      ensures |batch| == 100 && forall b :: b in batch ==> b < id
    {
      var j :| 0 <= j < |ids| && ids[j] == id;
    }
  }

  /** A task starts, or reads a batch. */
  function TakenAfter(s: State, step: Step, w: WorkerId, before: nat): nat
  {
    if step == Start(w) && PcOf(s, w).Idle? then 0
    else if step == Advance(w) && PcOf(s, w).Reading? && PendingIds(s.rows, s.nextId) != [] then before + 1
    else before
  }

  /** How many batches an applier has read since its task started. */
  function Taken(s: State, steps: seq<Step>, w: WorkerId, before: nat): nat
    decreases |steps|
  {
    if steps == [] then before else Taken(Apply(s, steps[0]), steps[1..], w, TakenAfter(s, steps[0], w, before))
  }

  ghost predicate CountsBatches(pc: Pc, taken: nat)
  {
    && taken <= 10
    && (pc.Reading? ==> pc.batches == taken < 10)
    && (pc.InBatch? ==> pc.batches + 1 == taken)
  }

  /** Until the check a batch stays the batch that it is. */
  lemma SameBatch(s: State, w: WorkerId, pc: Pc)
    requires pc.InBatch? && !pc.phase.Checking?
    ensures var next := PcOf(AdvanceBatch(s, w, pc), w); next.InBatch? && next.batches == pc.batches
  {
    match pc.phase
    case Setting(_) =>
    case Unsetting(_) =>
    case _ =>
  }

  lemma AfterCheck(s: State, w: WorkerId, pc: Pc)
    requires pc.InBatch? && pc.phase.Checking?
    ensures PcOf(AdvanceBatch(s, w, pc), w) ==
            if PendingIds(s.rows, s.nextId) == [] then WhenDrained(pc.deletionSeen)
            else if pc.batches < 9 then Reading(pc.deletionSeen, pc.batches + 1)
            else Idle
  {
  }

  lemma AdvanceCountsBatches(s: State, w: WorkerId, taken: nat)
    requires CountsBatches(PcOf(s, w), taken)
    ensures CountsBatches(PcOf(ApplyAdvance(s, w), w), TakenAfter(s, Advance(w), w, taken))
  {
    var pc := PcOf(s, w);
    if pc.InBatch? {
      if pc.phase.Checking? {
        AfterCheck(s, w, pc);
      } else {
        SameBatch(s, w, pc);
      }
    }
  }

  lemma StepCountsBatches(s: State, step: Step, w: WorkerId, taken: nat)
    requires CountsBatches(PcOf(s, w), taken)
    ensures CountsBatches(PcOf(Apply(s, step), w), TakenAfter(s, step, w, taken))
  {
    if step == Advance(w) {
      AdvanceCountsBatches(s, w, taken);
    } else if step.Advance? {
      OnlyTheMoverMoves(s, step.w);
    }
  }

  lemma {:induction false} RunCountsBatches(s: State, steps: seq<Step>, w: WorkerId, taken: nat)
    requires CountsBatches(PcOf(s, w), taken)
    ensures CountsBatches(PcOf(Exec(s, steps), w), Taken(s, steps, w, taken))
    decreases |steps|
  {
    if steps != [] {
      StepCountsBatches(s, steps[0], w, taken);
      RunCountsBatches(Apply(s, steps[0]), steps[1..], w, TakenAfter(s, steps[0], w, taken));
    }
  }

  /**
    Over every run, with any number of appliers: a task never reads more than ten batches, and one that
    finds rows still pending after a batch stops there exactly if that was its tenth.
   */
  lemma TasksAreBounded(steps: seq<Step>, w: WorkerId)
    ensures Taken(INIT, steps, w, 0) <= 10
    ensures var s := Exec(INIT, steps);
            PcOf(s, w).InBatch? && PcOf(s, w).phase.Checking? && PendingIds(s.rows, s.nextId) != [] ==>
              (PcOf(Apply(s, Advance(w)), w).Idle? <==> Taken(INIT, steps, w, 0) == 10)
  {
    RunCountsBatches(INIT, steps, w, 0);
  }
}
