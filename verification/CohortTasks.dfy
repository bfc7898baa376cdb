/** Draining a cohort's pending memberships: one batch, one task run, and the whole queue of runs. */
module CohortTasks {
  import opened Sequences
  import opened CohortLedger

  function CeilDiv(n: nat, d: nat): (q: nat)
    requires d > 0
    ensures q * d >= n && (q > 0 ==> (q - 1) * d < n)
  {
    (n + d - 1) / d
  }

  /** What one undisturbed batch makes of the ledger and the trait store. */
  function AfterBatch(s: State, batch: Batch): State
  {
    s.(rows := DeleteRemoved(MarkApplied(s.rows, batch.adds), batch.removes),
       traits := s.traits + (set x | x in batch.addNames) - (set x | x in batch.removeNames))
  }

  /** The rows of a batch end up where their pending state asks, and no other row or trait changes. */
  ghost predicate BatchDone(s: State, t: State, ids: seq<RowId>)
  {
    && (forall id :: id in s.rows && id !in ids ==> id in t.rows && t.rows[id] == s.rows[id])
    && (forall id :: id in t.rows ==> id in s.rows && t.rows[id].identifier == s.rows[id].identifier)
    && (forall id :: id in s.rows && id in ids && s.rows[id].state == PendingAdd ==>
          id in t.rows && t.rows[id].state == Applied && s.rows[id].identifier in t.traits)
    && (forall id :: id in s.rows && id in ids && s.rows[id].state == PendingRemove ==>
          id !in t.rows && s.rows[id].identifier !in t.traits)
    && (forall x :: (forall id :: id in ids && id in s.rows ==> s.rows[id].identifier != x) ==>
        (x in t.traits <==> x in s.traits))
  }

  /** What a batch read of the ledger holds: its rows by state, and their names. */
  ghost predicate Describes(rows: map<RowId, Row>, ids: seq<RowId>, batch: Batch)
  {
    && (forall id :: id in rows ==> (id in batch.adds <==> id in ids && rows[id].state == PendingAdd))
    && (forall id :: id in rows ==> (id in batch.removes <==> id in ids && rows[id].state == PendingRemove))
    && (forall x :: x in batch.addNames <==>
          exists id :: id in ids && id in rows && rows[id].state == PendingAdd && rows[id].identifier == x)
    && (forall x :: x in batch.removeNames <==>
          exists id :: id in ids && id in rows && rows[id].state == PendingRemove && rows[id].identifier == x)
  }

  lemma BatchFromDescribes(rows: map<RowId, Row>, ids: seq<RowId>)
    ensures Describes(rows, ids, BatchFrom(rows, ids))
  {
    NamesSpec(rows, ids, PendingAdd);
    NamesSpec(rows, ids, PendingRemove);
  }

  lemma BatchRows(s: State, ids: seq<RowId>, batch: Batch)
    requires RowsOk(s) && Describes(s.rows, ids, batch)
    ensures var t := AfterBatch(s, batch);
            && (forall id :: id in t.rows <==> id in s.rows && !(id in ids && s.rows[id].state == PendingRemove))
            && (forall id :: id in t.rows ==>
                  t.rows[id] == if id in ids && s.rows[id].state == PendingAdd then s.rows[id].(state := Applied)
                      else s.rows[id])
  {
  }

  lemma BatchIsDone(s: State, ids: seq<RowId>, batch: Batch, t: State)
    requires RowsOk(s) && Describes(s.rows, ids, batch) && t == AfterBatch(s, batch)
    requires forall id :: id in ids ==> id in s.rows && s.rows[id].state != Applied
    ensures BatchDone(s, t, ids)
  {
    BatchRows(s, ids, batch);
    assert forall x :: x in t.traits <==> (x in s.traits || x in batch.addNames) && x !in batch.removeNames;
  }

  lemma DoneKeepsLedger(s: State, t: State, ids: seq<RowId>)
    requires LedgerOk(s) && BatchDone(s, t, ids)
    requires t.nextId == s.nextId && t.deletionRequested == s.deletionRequested && t.deleted == s.deleted
    requires forall id :: id in ids ==> id in s.rows && s.rows[id].state != Applied
    ensures LedgerOk(t)
  {
  }

  lemma {:induction false} AscendingUnique(a: seq<RowId>, b: seq<RowId>)
    requires Ascending(a) && Ascending(b)
    requires forall id :: id in a <==> id in b
    ensures a == b
  {
    assert a != [] ==> a[0] in b;
    assert b != [] ==> b[0] in a;
    if a != [] && b != [] {
      assert a[0] in b && b[0] in a;
      assert a[0] == b[0];
      forall id ensures id in a[1..] <==> id in b[1..] {
        assert id in a[1..] <==> id in a && id != a[0];
        assert id in b[1..] <==> id in b && id != b[0];
      }
      AscendingUnique(a[1..], b[1..]);
      assert a == [a[0]] + a[1..] && b == [b[0]] + b[1..];
    }
  }

  /** A batch takes the oldest pending rows off the queue; the rest stay pending, in order. */
  lemma DoneDropsBatch(s: State, t: State)
    requires RowsOk(s) && BatchDone(s, t, BatchOf(s.rows, s.nextId)) && t.nextId == s.nextId
    ensures PendingIds(t.rows, t.nextId) == PendingIds(s.rows, s.nextId)[|BatchOf(s.rows, s.nextId)|..]
  {
    var p, ids := PendingIds(s.rows, s.nextId), BatchOf(s.rows, s.nextId);
    var q := PendingIds(t.rows, t.nextId);
    PendingIdsSpec(s.rows, s.nextId);
    PendingIdsSpec(t.rows, t.nextId);
    assert p == ids + p[|ids|..];
    forall id ensures id in q <==> id in p[|ids|..] {
      if id in p[|ids|..] {
        assert id in p && id !in ids;
      }
      assert id in ids ==> id in p;
    }
    AscendingUnique(q, p[|ids|..]);
  }

  lemma {:induction false} NamesSnoc(rows: map<RowId, Row>, ids: seq<RowId>, id: RowId, state: RowState)
    ensures Names(rows, ids + [id], state) == Names(rows, ids, state) + Names(rows, [id], state)
  {
    if ids == [] {
      assert [] + [id] == [id];
    } else {
      assert (ids + [id])[1..] == ids[1..] + [id];
      NamesSnoc(rows, ids[1..], id, state);
    }
  }

  lemma BatchFromSnoc(rows: map<RowId, Row>, ids: seq<RowId>, id: RowId)
    requires id in rows && rows[id].state != Applied
    ensures var b, b', name := BatchFrom(rows, ids), BatchFrom(rows, ids + [id]), rows[id].identifier;
            b' == if rows[id].state == PendingAdd
                  then b.(adds := b.adds + {id}, addNames := b.addNames + [name])
                  else b.(removes := b.removes + {id}, removeNames := b.removeNames + [name])
  {
    NamesSnoc(rows, ids, id, PendingAdd);
    NamesSnoc(rows, ids, id, PendingRemove);
    assert [id][1..] == [];
    var b, b' := BatchFrom(rows, ids), BatchFrom(rows, ids + [id]);
    assert b'.adds == if rows[id].state == PendingAdd then b.adds + {id} else b.adds;
    assert b'.removes == if rows[id].state == PendingAdd then b.removes else b.removes + {id};
  }

  /** The whole effect of one undisturbed batch. */
  lemma BatchOutcome(s: State, t: State)
    requires LedgerOk(s)
    requires var u := AfterBatch(s, BatchFrom(s.rows, BatchOf(s.rows, s.nextId)));
             t.rows == u.rows && t.traits == u.traits
    requires t.nextId == s.nextId && t.deletionRequested == s.deletionRequested && t.deleted == s.deleted
    ensures BatchDone(s, t, BatchOf(s.rows, s.nextId)) && LedgerOk(t)
    ensures PendingIds(t.rows, t.nextId) == PendingIds(s.rows, s.nextId)[|BatchOf(s.rows, s.nextId)|..]
  {
    var ids := BatchOf(s.rows, s.nextId);
    PendingIdsSpec(s.rows, s.nextId);
    BatchFromDescribes(s.rows, ids);
    BatchIsDone(s, ids, BatchFrom(s.rows, ids), AfterBatch(s, BatchFrom(s.rows, ids)));
    DoneDropsBatch(s, t);
    DoneKeepsLedger(s, t, ids);
  }

  /** Undisturbed, both guarded statements touch all the rows that were read. */
  lemma UndisturbedHits(rows: map<RowId, Row>, ids: seq<RowId>)
    ensures var batch := BatchFrom(rows, ids);
            && Hits(rows, batch.adds, PendingAdd) == batch.adds
            && Hits(MarkApplied(rows, batch.adds), batch.removes, PendingRemove) == batch.removes
  {
  }

  lemma EmptyBatch(rows: map<RowId, Row>)
    ensures BatchFrom(rows, []) == Batch({}, {}, [], [])
  {
  }

  class Cohort {
    var rows: map<RowId, Row>
    var nextId: RowId
    var traits: set<Identifier>
    var deletionRequested: bool
    var deleted: bool
    var addsReported: nat
    var removesReported: nat

    ghost function View(): State
      reads this
    {
      State(rows, nextId, traits, deletionRequested, deleted, map[], {}, {}, addsReported, 0, removesReported, 0)
    }

    ghost predicate Valid()
      reads this
    {
      LedgerOk(View())
    }

    function Pending(): seq<RowId>
      reads this
    {
      PendingIds(rows, nextId)
    }

    /** The identities' writes: the trait is set for some and taken from others. */
    method WriteTraits(added: seq<Identifier>, removed: seq<Identifier>)
      modifies this`traits
      ensures traits == old(traits) + (set x | x in added) - (set x | x in removed)
    {
      traits := traits + (set x | x in added);
      traits := traits - (set x | x in removed);
    }

    /** Sort a batch into the rows to add and the rows to remove. */
    method SplitBatch(ids: seq<RowId>) returns (batch: Batch)
      requires forall id :: id in ids ==> id in rows && rows[id].state != Applied
      ensures batch == BatchFrom(rows, ids)
    {
      var adds, removes: set<RowId> := {}, {};
      var addNames, removeNames := [], [];
      for i := 0 to |ids|
        invariant Batch(adds, removes, addNames, removeNames) == BatchFrom(rows, ids[..i])
      {
        BatchFromSnoc(rows, ids[..i], ids[i]);
        assert ids[..i + 1] == ids[..i] + [ids[i]] && ids[i] in ids;
        if rows[ids[i]].state == PendingAdd {
          adds := adds + {ids[i]};
          addNames := addNames + [rows[ids[i]].identifier];
        } else {
          removes := removes + {ids[i]};
          removeNames := removeNames + [rows[ids[i]].identifier];
        }
      }
      assert ids[..|ids|] == ids;
      batch := Batch(adds, removes, addNames, removeNames);
    }

    /** Write the traits of a batch, then settle its rows; both statements count the rows they touched. */
    method ApplyBatch(ids: seq<RowId>)
      requires forall id :: id in ids ==> id in rows && rows[id].state != Applied
      modifies this`rows, this`traits, this`addsReported, this`removesReported
      ensures var batch := BatchFrom(old(rows), ids); var after := AfterBatch(old(View()), batch);
              && rows == after.rows && traits == after.traits
              && addsReported == old(addsReported) + |batch.adds|
              && removesReported == old(removesReported) + |batch.removes|
    {
      var batch := SplitBatch(ids);
      UndisturbedHits(rows, ids);
      WriteTraits(batch.addNames, batch.removeNames);
      var added := |Hits(rows, batch.adds, PendingAdd)|;
      rows := MarkApplied(rows, batch.adds);
      var removed := |Hits(rows, batch.removes, PendingRemove)|;
      rows := DeleteRemoved(rows, batch.removes);
      addsReported := addsReported + added;
      removesReported := removesReported + removed;
    }

    /** Apply the oldest batch of pending memberships; whether more are pending. */
    method ApplyPendingMemberships() returns (more: bool)
      requires Valid()
      modifies this`rows, this`traits, this`addsReported, this`removesReported
      ensures Valid()
      ensures BatchDone(old(View()), View(), BatchOf(old(rows), nextId))
      ensures Pending() == old(Pending())[|BatchOf(old(rows), nextId)|..]
      ensures addsReported == old(addsReported) + |BatchFrom(old(rows), BatchOf(old(rows), nextId)).adds|
      ensures removesReported == old(removesReported) + |BatchFrom(old(rows), BatchOf(old(rows), nextId)).removes|
      ensures more <==> Pending() != []
    {
      var ids := BatchOf(rows, nextId);
      PendingIdsSpec(rows, nextId);
      ghost var s := View();
      if ids == [] {
        EmptyBatch(rows);
        return false;
      }
      ApplyBatch(ids);
      BatchOutcome(s, View());
      return PendingIds(rows, nextId) != [];
    }

    method FinaliseDeletion()
      requires Valid() && deletionRequested && Pending() == []
      modifies this`deleted
      ensures Valid() && deleted && traits == {}
    {
      NothingPendingMeansEmpty(View());
      assert forall x :: x in traits ==> HasRow(rows, x);
      deleted := true;
    }

    /** One task run: up to ten batches, then either the cohort is drained or a fresh run is queued. */
    method ApplyMembershipDeltas() returns (requeue: bool, ghost batches: nat)
      requires Valid() && !deleted
      modifies this
      ensures Valid() && deletionRequested == old(deletionRequested)
      ensures var n := |old(Pending())|;
              && |Pending()| == (if n <= 1000 then 0 else n - 1000)
              && (requeue <==> n > 1000)
              && batches == (if n <= 1000 then CeilDiv(n, 100) else 10)
      ensures deleted <==> !requeue && deletionRequested
      ensures deleted ==> traits == {}
    {
      batches := 0;
      ghost var n := |Pending()|;
      for i := 0 to MAX_BATCHES_PER_RUN
        invariant Valid() && !deleted && deletionRequested == old(deletionRequested)
        invariant batches == i && |Pending()| == n - i * APPLY_BATCH_SIZE
        invariant i > 0 ==> |Pending()| > 0
      {
        if Pending() != [] {
          batches := batches + 1;
        }
        var more := ApplyPendingMemberships();
        if !more {
          if deletionRequested {
            FinaliseDeletion();
          }
          return false, batches;
        }
      }
      return true, batches;
    }

    /** The request marks every membership for removal, whatever its state. */
    method RequestDeletion()
      requires Valid() && !deleted
      modifies this`deletionRequested, this`rows
      ensures Valid() && deletionRequested && rows == AllToRemove(old(rows))
    {
      ghost var s := View();
      deletionRequested := true;
      rows := AllToRemove(rows);
      forall x | x in traits ensures HasRow(rows, x) {
        var id :| id in s.rows && s.rows[id].identifier == x;
        assert id in rows && rows[id].identifier == x;
      }
    }

    /**
      The queue of runs, undisturbed: n pending memberships take ceil(n/1000) runs (one, if there are
      none) and ceil(n/100) batches, and a cohort awaiting deletion is gone at the end.
     */
    method Drain() returns (runs: nat, ghost batches: nat)
      requires Valid() && !deleted
      modifies this
      ensures Valid() && Pending() == []
      ensures var n := |old(Pending())|;
              runs == (if n == 0 then 1 else CeilDiv(n, MAX_BATCHES_PER_RUN * APPLY_BATCH_SIZE)) &&
                  batches == CeilDiv(n, APPLY_BATCH_SIZE)
      ensures deleted <==> old(deletionRequested)
      ensures deleted ==> traits == {}
    {
      var requeue := true;
      runs, batches := 0, 0;
      ghost var n := |Pending()|;
      while requeue
        invariant Valid() && deletionRequested == old(deletionRequested)
        invariant requeue ==>
                    && !deleted && |Pending()| == n - 1000 * runs && batches == 10 * runs
                    && (runs > 0 ==> |Pending()| > 0)
        invariant !requeue ==> Pending() == [] && (deleted <==> deletionRequested) && (deleted ==> traits == {})
        invariant !requeue ==> runs == (if n == 0 then 1 else CeilDiv(n, 1000)) && batches == CeilDiv(n, 100)
        decreases requeue, |Pending()|
      {
        ghost var more;
        requeue, more := ApplyMembershipDeltas();
        runs := runs + 1;
        batches := batches + more;
      }
    }
  }
}
