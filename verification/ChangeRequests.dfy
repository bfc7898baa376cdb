/** Committing a change request under v1 versioning: publishing its draft feature states. */
module ChangeRequests {
  import opened Options
  import opened FeatureStates

  // ----- The table of feature states -----

  ghost predicate UniqueIds(rows: seq<FeatureState>)
  {
    forall i, j :: 0 <= i < j < |rows| ==> rows[i].id != rows[j].id
  }

  /** The highest version of a lineage; none if no row of it is versioned. */
  function MaxVersion(rows: seq<FeatureState>, fs: FeatureState): Option<int>
  {
    if rows == [] then None
    else
      var rest := MaxVersion(rows[1..], fs);
      if !SameLineage(rows[0], fs) || rows[0].version.None? then rest
      else if rest.None? || rest.value < rows[0].version.value then rows[0].version
      else rest
  }

  lemma {:induction false} MaxVersionSpec(rows: seq<FeatureState>, fs: FeatureState)
    ensures MaxVersion(rows, fs).None? <==>
            forall i :: 0 <= i < |rows| && SameLineage(rows[i], fs) ==> rows[i].version.None?
    ensures forall i :: 0 <= i < |rows| && SameLineage(rows[i], fs) && rows[i].version.Some? ==>
              MaxVersion(rows, fs).Some? && rows[i].version.value <= MaxVersion(rows, fs).value
  {
    if rows != [] {
      MaxVersionSpec(rows[1..], fs);
      assert forall i :: 1 <= i < |rows| ==> rows[i] == rows[1..][i - 1];
    }
  }

  lemma {:induction false} MaxVersionOfLineage(rows: seq<FeatureState>, a: FeatureState, b: FeatureState)
    requires SameLineage(a, b)
    ensures MaxVersion(rows, a) == MaxVersion(rows, b)
  {
    if rows != [] {
      MaxVersionOfLineage(rows[1..], a, b);
    }
  }

  /** When a draft goes live: at once, unless it is scheduled for later. */
  function PublishedLiveFrom(fs: FeatureState, now: int): int
  {
    if fs.liveFrom.None? || fs.liveFrom.value < now then now else fs.liveFrom.value
  }

  function PublishedRow(rows: seq<FeatureState>, fs: FeatureState, now: int): FeatureState
    requires MaxVersion(rows, fs).Some?
  {
    fs.(liveFrom := Some(PublishedLiveFrom(fs, now)), version := Some(MaxVersion(rows, fs).value + 1))
  }

  /** Without a versioned state in the lineage there is no maximum to add one to. */
  predicate Publishable(rows: seq<FeatureState>, request: set<nat>)
  {
    forall i :: 0 <= i < |rows| && rows[i].id in request ==> MaxVersion(rows, rows[i]).Some?
  }

  /** The table after publishing: every version number is taken from the table before it. */
  function Published(rows: seq<FeatureState>, request: set<nat>, now: int): seq<FeatureState>
    requires Publishable(rows, request)
  {
    seq(|rows|, i requires 0 <= i < |rows| => if rows[i].id in request then PublishedRow(rows, rows[i], now)
        else rows[i])
  }

  // ----- Versions stay distinct -----

  ghost predicate VersionsDistinct(rows: seq<FeatureState>)
  {
    forall i, j :: 0 <= i < j < |rows| ==> DistinctVersions(rows[i], rows[j])
  }

  ghost predicate OnePerLineage(rows: seq<FeatureState>, request: set<nat>)
  {
    forall i, j :: 0 <= i < j < |rows| && rows[i].id in request && rows[j].id in request ==>
        !SameLineage(rows[i], rows[j])
  }

  /**
    A commit keeps versions distinct exactly when it publishes at most one state per lineage: two
    of them would be given the same number.
   */
  lemma CommitKeepsVersionsDistinct(rows: seq<FeatureState>, request: set<nat>, now: int)
    requires Publishable(rows, request) && VersionsDistinct(rows)
    ensures VersionsDistinct(Published(rows, request, now)) <==> OnePerLineage(rows, request)
  {
    var after := Published(rows, request, now);
    forall i | 0 <= i < |rows| ensures SameLineage(after[i], rows[i]) {}
    forall i, j | 0 <= i < j < |rows| && rows[i].id in request && rows[j].id in request && SameLineage(rows[i], rows[j])
      ensures !DistinctVersions(after[i], after[j])
    {
      MaxVersionOfLineage(rows, rows[i], rows[j]);
    }
    if OnePerLineage(rows, request) {
      forall i, j | 0 <= i < j < |rows| ensures DistinctVersions(after[i], after[j]) {
        MaxVersionSpec(rows, rows[i]);
        MaxVersionSpec(rows, rows[j]);
        assert DistinctVersions(rows[i], rows[j]);
      }
    }
  }

  // ----- What a commit changes -----

  /** A state published for now becomes the highest live state of its lineage, even on equal `live_from`. */
  lemma UnscheduledWins(rows: seq<FeatureState>, request: set<nat>, now: int, p: nat, q: nat)
    requires Publishable(rows, request) && OnePerLineage(rows, request)
    requires p < |rows| && q < |rows| && p != q && rows[p].id in request && SameLineage(rows[p], rows[q])
    requires rows[p].liveFrom.None? || rows[p].liveFrom.value <= now
    ensures var after := Published(rows, request, now);
            && IsLive(after[p], now)
            && Newer(after[p], after[q], now) && Beats(after[p], after[q], now)
            && (after[p].identity.None? ==> !Beats(after[q], after[p], now))
  {
    MaxVersionSpec(rows, rows[p]);
    assert !(rows[q].id in request);
  }

  /** `w` is the newest live state of a lineage. */
  ghost predicate IsNewest(w: FeatureState, rows: seq<FeatureState>, lineage: FeatureState, now: int)
  {
    && w in rows && SameLineage(w, lineage) && IsLive(w, now)
    && forall i :: 0 <= i < |rows| && SameLineage(rows[i], lineage) && rows[i] != w ==> Newer(w, rows[i], now)
  }

  /** Before its time a scheduled state changes no winner of its lineage. */
  lemma ScheduledWaits(rows: seq<FeatureState>, request: set<nat>, now: int, p: nat, t: int, w: FeatureState)
    requires UniqueIds(rows) && Publishable(rows, request) && OnePerLineage(rows, request)
    requires p < |rows| && rows[p].id in request && rows[p].liveFrom.Some? && now <= t < rows[p].liveFrom.value
    ensures IsNewest(w, Published(rows, request, now), rows[p], t) <==> IsNewest(w, rows, rows[p], t)
  {
    var after := Published(rows, request, now);
    forall i | 0 <= i < |rows| && SameLineage(rows[i], rows[p])
      ensures i != p ==> after[i] == rows[i]
      ensures i == p ==> !IsLive(rows[i], t) && !IsLive(after[i], t)
    {}
    assert forall i :: 0 <= i < |rows| ==> (SameLineage(after[i], rows[p]) <==> SameLineage(rows[i], rows[p]));
    forall x, y | IsLive(x, t) && !IsLive(y, t) ensures Newer(x, y, t) && x != y {}
    if IsNewest(w, after, rows[p], t) {
      var k :| 0 <= k < |rows| && after[k] == w;
      assert rows[k] == w;
    }
    if IsNewest(w, rows, rows[p], t) {
      var k :| 0 <= k < |rows| && rows[k] == w;
      assert after[k] == w;
    }
  }

  /** From its time on, of the states there are, only a live one with a later `live_from` is above it. */
  lemma ScheduledYieldsOnlyToLater(rows: seq<FeatureState>, request: set<nat>, now: int, p: nat, q: nat, t: int)
    requires Publishable(rows, request) && OnePerLineage(rows, request)
    requires p < |rows| && q < |rows| && p != q && rows[p].id in request && SameLineage(rows[p], rows[q])
    requires now <= t && (rows[p].liveFrom.Some? ==> rows[p].liveFrom.value <= t)
    ensures var after := Published(rows, request, now);
            && IsLive(after[p], t)
            && (Newer(after[q], after[p], t) <==>
                && IsLive(after[q], t) && after[q].liveFrom.value > now
                && (rows[p].liveFrom.Some? ==> after[q].liveFrom.value > rows[p].liveFrom.value))
            && (!Newer(after[q], after[p], t) ==> Newer(after[p], after[q], t))
  {
    MaxVersionSpec(rows, rows[p]);
    assert !(rows[q].id in request);
  }

  /** A row for the same environment, feature and identity, and for the same override row or also for none. */
  predicate SameKey(x: FeatureState, fs: FeatureState)
  {
    && x.environment == fs.environment && x.feature == fs.feature && x.identity == fs.identity
    && (x.segment.Some? <==> fs.segment.Some?)
    && (x.segment.Some? && fs.segment.Some? ==> x.segment.value.id == fs.segment.value.id)
  }

  /** `highest` is the row with the highest version of all for the same key. */
  ghost predicate HasHighestVersion(rows: seq<FeatureState>, fs: FeatureState, highest: FeatureState)
  {
    && highest in rows && SameKey(highest, fs) && highest.version.Some?
    && forall x :: x in rows && SameKey(x, fs) && x.version.Some? ==> x.version.value <= highest.version.value
  }

  lemma {:induction false} MaxVersionOccurs(rows: seq<FeatureState>, fs: FeatureState)
    requires MaxVersion(rows, fs).Some?
    ensures exists x :: x in rows && SameLineage(x, fs) && x.version == MaxVersion(rows, fs)
  {
    if MaxVersion(rows[1..], fs) == MaxVersion(rows, fs) {
      MaxVersionOccurs(rows[1..], fs);
      var x :| x in rows[1..] && SameLineage(x, fs) && x.version == MaxVersion(rows[1..], fs);
      assert x in rows;
    } else {
      assert rows[0] in rows;
    }
  }

  lemma {:induction false} MaxVersionIs(rows: seq<FeatureState>, fs: FeatureState, highest: FeatureState)
    requires HasHighestVersion(rows, fs, highest)
    ensures MaxVersion(rows, fs) == highest.version
  {
    MaxVersionSpec(rows, fs);
    var i :| 0 <= i < |rows| && rows[i] == highest;
    MaxVersionOccurs(rows, fs);
  }

  /**
    What is published: one version above the highest of the lineage, at the draft's own time if that is
    still to come and else now. Nothing else changes, of it or of the rest of the table.
   */
  lemma PublishedRows(rows: seq<FeatureState>, request: set<nat>, now: int, p: nat, highest: FeatureState)
    requires Publishable(rows, request) && p < |rows| && HasHighestVersion(rows, rows[p], highest)
    ensures var before, after := rows[p], Published(rows, request, now)[p];
            if before.id !in request then after == before
            else
              && after == before.(version := after.version, liveFrom := after.liveFrom)
              && after.version == Some(highest.version.value + 1)
              && after.liveFrom == (if before.liveFrom.Some? && before.liveFrom.value > now then before.liveFrom
                                    else Some(now))
    ensures |Published(rows, request, now)| == |rows|
  {
    MaxVersionIs(rows, rows[p], highest);
  }

  /** A request can be published exactly if each of its states has a state with a version in its lineage. */
  lemma PublishableIff(rows: seq<FeatureState>, request: set<nat>)
    ensures Publishable(rows, request) <==>
            forall p :: 0 <= p < |rows| && rows[p].id in request ==>
              exists q :: 0 <= q < |rows| && SameLineage(rows[q], rows[p]) && rows[q].version.Some?
  {
    forall p | 0 <= p < |rows| && rows[p].id in request
      ensures MaxVersion(rows, rows[p]).Some? <==>
              exists q :: 0 <= q < |rows| && SameLineage(rows[q], rows[p]) && rows[q].version.Some?
    {
      MaxVersionSpec(rows, rows[p]);
    }
  }

  /** A scheduled state is live exactly from its own time on, and any other one exactly from the commit on. */
  lemma PublishedIsLiveIff(rows: seq<FeatureState>, request: set<nat>, now: int, p: nat, t: int)
    requires Publishable(rows, request) && p < |rows| && rows[p].id in request
    ensures IsLive(Published(rows, request, now)[p], t) <==>
            t >= now && (rows[p].liveFrom.Some? ==> t >= rows[p].liveFrom.value)
  {
  }

  // ----- The commit itself -----

  datatype CommitResult = Committed | NotApproved | ManagedSegment | NoVersionedState

  class ChangeRequest {
    var request: set<nat>
    var approved: bool
    var changesManagedSegment: bool
    var committedAt: Option<int>
    var committedBy: Option<nat>
    var rows: seq<FeatureState>

    /** Compute the published rows first, then write them all: a raised error writes nothing. */
    method PublishFeatureStates(now: int) returns (ok: bool)
      modifies this`rows
      ensures ok <==> Publishable(old(rows), request)
      ensures rows == if ok then Published(old(rows), request, now) else old(rows)
    {
      var updates: map<nat, FeatureState> := map[];
      for i := 0 to |rows|
        invariant rows == old(rows)
        invariant forall j :: 0 <= j < i && rows[j].id in request ==> MaxVersion(rows, rows[j]).Some?
        invariant forall j :: j in updates <==> 0 <= j < i && rows[j].id in request
        invariant forall j :: j in updates ==> updates[j] == PublishedRow(rows, rows[j], now)
      {
        var fs := rows[i];
        if fs.id in request {
          var liveFrom := if fs.liveFrom.None? || fs.liveFrom.value < now then now else fs.liveFrom.value;
          var highest := MaxVersion(rows, fs);
          if highest.None? {
            return false;
          }
          updates := updates[i := fs.(liveFrom := Some(liveFrom), version := Some(highest.value + 1))];
        }
      }
      for i := 0 to |rows|
        invariant |rows| == |old(rows)|
        invariant forall j :: 0 <= j < |rows| ==> rows[j] == if j < i && j in updates then updates[j] else old(rows)[j]
      {
        if i in updates {
          rows := rows[i := updates[i]];
        }
      }
      assert rows == Published(old(rows), request, now);
      return true;
    }

    /** Both refusals come before anything is published. */
    method Commit(user: nat, now: int) returns (result: CommitResult)
      modifies this`rows, this`committedAt, this`committedBy
      ensures result.NotApproved? <==> !approved
      ensures result.ManagedSegment? <==> approved && changesManagedSegment
      ensures result.Committed? <==> approved && !changesManagedSegment && Publishable(old(rows), request)
      ensures if result.Committed?
              then rows == Published(old(rows), request, now) && committedAt == Some(now) && committedBy == Some(user)
              else rows == old(rows) && committedAt == old(committedAt) && committedBy == old(committedBy)
    {
      if !approved {
        return NotApproved;
      }
      if changesManagedSegment {
        return ManagedSegment;
      }
      var ok := PublishFeatureStates(now);
      if !ok {
        return NoVersionedState;
      }
      committedAt, committedBy := Some(now), Some(user);
      return Committed;
    }
  }
}
