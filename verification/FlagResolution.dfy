/**
  Resolving an identity's flags: the live filter, the exclusion of superseded versions, and the two
  passes that keep the highest state, first per override and then per feature.
 */
module FlagResolution {
  import opened Options
  import opened Sequences
  import opened FeatureStates

  /** `get_live_feature_states` under v1 versioning. */
  function LiveStates(states: seq<FeatureState>, environment: nat, now: int): seq<FeatureState>
  {
    if states == [] then []
    else (if states[0].environment == environment && IsLive(states[0], now) then [states[0]] else []) +
         LiveStates(states[1..], environment, now)
  }

  lemma {:induction false} LiveStatesSpec(states: seq<FeatureState>, environment: nat, now: int)
    ensures forall fs :: fs in LiveStates(states, environment, now) <==>
              fs in states && fs.environment == environment && IsLive(fs, now)
  {
    if states != [] {
      LiveStatesSpec(states[1..], environment, now);
    }
  }

  /** The window `_exclude_superseded_versions` ranks in. */
  predicate SamePartition(a: FeatureState, b: FeatureState)
  {
    a.feature == b.feature && a.identity == b.identity && SegmentRowId(a) == SegmentRowId(b)
  }

  predicate Superseded(fs: FeatureState, states: seq<FeatureState>, now: int)
  {
    exists i :: 0 <= i < |states| && SamePartition(states[i], fs) && Newer(states[i], fs, now)
  }

  /** The rows ranked first in their window. */
  function Current(states: seq<FeatureState>, all: seq<FeatureState>, now: int): seq<FeatureState>
  {
    if states == [] then []
    else (if Superseded(states[0], all, now) then [] else [states[0]]) + Current(states[1..], all, now)
  }

  lemma {:induction false} CurrentSpec(states: seq<FeatureState>, all: seq<FeatureState>, now: int)
    ensures forall fs :: fs in Current(states, all, now) <==> fs in states && !Superseded(fs, all, now)
  {
    if states != [] {
      CurrentSpec(states[1..], all, now);
    }
  }

  /** `fs` is the state that wins among those of its feature in the collection. */
  ghost predicate IsHighest(fs: FeatureState, states: seq<FeatureState>, now: int)
  {
    && fs in states
    && forall other :: other in states && other.feature == fs.feature && other != fs ==> Precedes(fs, other, now)
  }

  /** Live states of one identity's flags: what the queries hand to the two passes. */
  ghost predicate Flags(states: seq<FeatureState>, now: int)
  {
    && (forall a :: a in states ==> IsLive(a, now) && WellFormed(a))
    && (forall a, b :: a in states && b in states && a.feature == b.feature ==>
          Comparable(a, b) && DistinctPriorities(a, b) && (a != b ==> DistinctVersions(a, b)))
  }

  /** At most one state is left of each override, and so at most one identity override. */
  ghost predicate OnePerOverride(states: seq<FeatureState>)
  {
    forall a, b :: a in states && b in states && SamePartition(a, b) ==> a == b
  }

  /** Among versions of one override the newest survives, and nothing else does. */
  lemma CurrentIsOnePerOverride(states: seq<FeatureState>, now: int)
    requires Flags(states, now)
    ensures OnePerOverride(Current(states, states, now)) && Flags(Current(states, states, now), now)
  {
    CurrentSpec(states, states, now);
    var kept := Current(states, states, now);
    assert forall x, y :: x in states && SamePartition(x, y) && Newer(x, y, now) ==> Superseded(y, states, now);
    forall a, b | a in kept && b in kept && SamePartition(a, b) ensures a == b {
      if a != b { LiveTotal(a, b, now); }
    }
  }

  /** A superseded state has a version above it that is not superseded. */
  lemma {:induction false} NewestAbove(fs: FeatureState, states: seq<FeatureState>, now: int)
    returns (newest: FeatureState)
    requires Flags(states, now) && fs in states
    ensures newest in states && !Superseded(newest, states, now) && SamePartition(newest, fs)
    ensures newest == fs || Newer(newest, fs, now)
    decreases set x | x in states && Newer(x, fs, now)
  {
    newest := fs;
    if Superseded(fs, states, now) {
      var i :| 0 <= i < |states| && SamePartition(states[i], fs) && Newer(states[i], fs, now);
      ghost var above := set x | x in states && Newer(x, fs, now);
      ghost var above' := set x | x in states && Newer(x, states[i], now);
      assert above' <= above && states[i] in above && states[i] !in above';
      newest := NewestAbove(states[i], states, now);
    }
  }

  /** Excluding superseded versions does not change who wins. */
  lemma CurrentKeepsHighest(fs: FeatureState, states: seq<FeatureState>, now: int)
    requires Flags(states, now)
    ensures IsHighest(fs, Current(states, states, now), now) <==> IsHighest(fs, states, now)
  {
    CurrentSpec(states, states, now);
    var kept := Current(states, states, now);
    if IsHighest(fs, kept, now) {
      forall other | other in states && other.feature == fs.feature && other != fs ensures Precedes(fs, other, now) {
        var newest := NewestAbove(other, states, now);
        assert Tier(newest) == Tier(other);
      }
    }
    if IsHighest(fs, states, now) {
      assert forall i :: 0 <= i < |states| && SamePartition(states[i], fs) && states[i] != fs ==>
             !Newer(states[i], fs, now);
    }
  }

  // ----- The two passes -----

  /** The key the first pass groups by: feature, segment and identity. */
  datatype Key = Key(feature: nat, segmentId: Option<nat>, identity: Option<nat>)

  function OverrideKey(fs: FeatureState): Key
  {
    Key(fs.feature, if fs.segment.Some? then Some(fs.segment.value.segmentId) else None, fs.identity)
  }

  function FeatureKey(fs: FeatureState): Key
  {
    Key(fs.feature, None, None)
  }

  /** The keys the pass has met map to the highest state met for them. */
  ghost predicate Kept(kept: map<Key, FeatureState>, visited: seq<FeatureState>, keyOf: FeatureState -> Key, now: int)
  {
    && (forall fs :: fs in visited ==> keyOf(fs) in kept)
    && (forall k :: k in kept ==> kept[k] in visited && keyOf(kept[k]) == k)
    && (forall k, fs :: k in kept && fs in visited && keyOf(fs) == k && fs != kept[k] ==> Precedes(kept[k], fs, now))
  }

  /** Visiting one more state: it replaces the kept one exactly when it precedes it. */
  lemma KeptGrows(kept: map<Key, FeatureState>, visited: seq<FeatureState>, fs: FeatureState,
                  keyOf: FeatureState -> Key, now: int)
    requires Flags(visited + [fs], now) && Kept(kept, visited, keyOf, now)
    requires keyOf(fs) in kept ==> kept[keyOf(fs)].feature == fs.feature
    ensures keyOf(fs) !in kept ==> Kept(kept[keyOf(fs) := fs], visited + [fs], keyOf, now)
    ensures keyOf(fs) in kept && Precedes(fs, kept[keyOf(fs)], now) ==>
            Kept(kept[keyOf(fs) := fs], visited + [fs], keyOf, now)
    ensures keyOf(fs) in kept && !Precedes(fs, kept[keyOf(fs)], now) ==> Kept(kept, visited + [fs], keyOf, now)
  {
  }

  /** For two live states of one flag the comparison, at any later time, is the order. */
  lemma CompareLive(a: FeatureState, b: FeatureState, states: seq<FeatureState>, now: int, later: int)
    requires Flags(states, now) && OnePerOverride(states) && now <= later
    requires a in states && b in states && a.feature == b.feature && a != b
    ensures Gt(a, b, later) == Ok(Precedes(a, b, now))
  {
  }

  /**
    One pass: keep, per key, the state no other one beats. `clock` gives the time of every
    comparison; the states were live at `now`, and the clock has only moved on since.
   */
  method KeepHighest(states: seq<FeatureState>, keyOf: FeatureState -> Key, now: int, clock: nat -> int)
    returns (kept: map<Key, FeatureState>)
    requires Flags(states, now) && OnePerOverride(states) && Distinct(states)
    requires forall i :: now <= clock(i)
    requires forall a, b :: a in states && b in states && keyOf(a) == keyOf(b) ==> a.feature == b.feature
    ensures Kept(kept, states, keyOf, now)
  {
    kept := map[];
    for i := 0 to |states|
      invariant Kept(kept, states[..i], keyOf, now)
    {
      var fs := states[i];
      assert states[..i + 1] == states[..i] + [fs];
      if keyOf(fs) !in kept {
        KeptGrows(kept, states[..i], fs, keyOf, now);
        kept := kept[keyOf(fs) := fs];
      } else {
        var current := kept[keyOf(fs)];
        assert current in states[..i] && current in states;
        CompareLive(fs, current, states, now, clock(i));
        KeptGrows(kept, states[..i], fs, keyOf, now);
        if Gt(fs, current, clock(i)).value {
          kept := kept[keyOf(fs) := fs];
        }
      }
    }
    assert states[..|states|] == states;
  }

  lemma {:induction false} CurrentNoDuplicates(states: seq<FeatureState>, all: seq<FeatureState>, now: int)
    requires Distinct(states)
    ensures Distinct(Current(states, all, now))
  {
    if states != [] {
      CurrentNoDuplicates(states[1..], all, now);
      CurrentSpec(states[1..], all, now);
      assert states[0] !in states[1..];
    }
  }

  lemma {:induction false} LiveNoDuplicates(states: seq<FeatureState>, environment: nat, now: int)
    requires Distinct(states)
    ensures Distinct(LiveStates(states, environment, now))
  {
    if states != [] {
      LiveNoDuplicates(states[1..], environment, now);
      LiveStatesSpec(states[1..], environment, now);
      assert states[0] !in states[1..];
    }
  }

  /** The values of the first pass's dictionary, in some order. */
  method Values(kept: map<Key, FeatureState>, ghost visited: seq<FeatureState>, ghost keyOf: FeatureState -> Key,
                ghost now: int)
    returns (values: seq<FeatureState>)
    requires Kept(kept, visited, keyOf, now)
    ensures forall fs :: fs in values <==> exists k :: k in kept && kept[k] == fs
    ensures Distinct(values)
  {
    values := [];
    var keys := kept.Keys;
    while keys != {}
      invariant keys <= kept.Keys && Distinct(values)
      invariant forall fs :: fs in values <==> exists k :: k in kept && k !in keys && kept[k] == fs
    {
      var k :| k in keys;
      assert kept[k] !in values;
      values := values + [kept[k]];
      keys := keys - {k};
    }
  }

  /** The passes' outcome: per feature exactly one state, the one that precedes every other live one. */
  ghost predicate Resolved(flags: map<Key, FeatureState>, live: seq<FeatureState>, now: int)
  {
    && (forall fs :: fs in live ==> FeatureKey(fs) in flags)
    && (forall k :: k in flags ==> FeatureKey(flags[k]) == k && IsHighest(flags[k], live, now))
  }

  /** The same feature, identity and segment, or the lack of one. */
  ghost predicate SameOverride(a: FeatureState, b: FeatureState)
  {
    && a.feature == b.feature && a.identity == b.identity && a.segment.Some? == b.segment.Some?
    && (a.segment.Some? && b.segment.Some? ==> a.segment.value.segmentId == b.segment.value.segmentId)
  }

  lemma FirstPassFinds(overrides: map<Key, FeatureState>, live: seq<FeatureState>, x: FeatureState, now: int)
    requires Flags(live, now) && Kept(overrides, Current(live, live, now), OverrideKey, now) && x in live
    ensures exists k :: k in overrides && SameOverride(overrides[k], x) &&
                        (overrides[k] == x || Precedes(overrides[k], x, now))
  {
    CurrentSpec(live, live, now);
    var newest := NewestAbove(x, live, now);
    var found := overrides[OverrideKey(newest)];
    assert SameOverride(found, x) && found in live;
  }

  /**
    The first pass: every live state has one kept for its feature, identity and segment, itself or one
    that precedes it, and no two are kept for the same.
   */
  lemma FirstPassByColumns(overrides: map<Key, FeatureState>, live: seq<FeatureState>, now: int)
    requires Flags(live, now) && Kept(overrides, Current(live, live, now), OverrideKey, now)
    ensures forall x :: x in live ==>
              exists k :: k in overrides && SameOverride(overrides[k], x) &&
                          (overrides[k] == x || Precedes(overrides[k], x, now))
    ensures forall k, l :: k in overrides && l in overrides && SameOverride(overrides[k], overrides[l]) ==> k == l
    ensures forall k :: k in overrides ==> overrides[k] in live
  {
    CurrentSpec(live, live, now);
    forall x | x in live
      ensures exists k :: k in overrides && SameOverride(overrides[k], x) &&
                          (overrides[k] == x || Precedes(overrides[k], x, now))
    {
      FirstPassFinds(overrides, live, x, now);
    }
  }

  /** A feature's flag is above every state of the feature, through the highest of that state's override. */
  lemma TopIsHighest(current: seq<FeatureState>, overrides: map<Key, FeatureState>, values: seq<FeatureState>,
                     flags: map<Key, FeatureState>, k: Key, now: int)
    requires Flags(current, now) && k in flags
    requires Kept(overrides, current, OverrideKey, now) && Kept(flags, values, FeatureKey, now)
    requires forall fs :: fs in values <==> exists k :: k in overrides && overrides[k] == fs
    ensures IsHighest(flags[k], current, now)
  {
    var top := flags[k];
    assert top in values;
    forall other | other in current && other.feature == top.feature && other != top ensures Precedes(top, other, now) {
      var best := overrides[OverrideKey(other)];
      assert best in values && FeatureKey(best) == k;
    }
  }

  /** The highest of every group's highest is the highest of all. */
  lemma HighestOfHighest(current: seq<FeatureState>, overrides: map<Key, FeatureState>, values: seq<FeatureState>,
                         flags: map<Key, FeatureState>, now: int)
    requires Flags(current, now)
    requires Kept(overrides, current, OverrideKey, now) && Kept(flags, values, FeatureKey, now)
    requires forall fs :: fs in values <==> exists k :: k in overrides && overrides[k] == fs
    ensures Resolved(flags, current, now)
  {
    forall fs | fs in current ensures FeatureKey(fs) in flags {
      var best := overrides[OverrideKey(fs)];
      assert best in values && FeatureKey(best) == FeatureKey(fs);
    }
    forall k | k in flags ensures IsHighest(flags[k], current, now) {
      TopIsHighest(current, overrides, values, flags, k, now);
    }
  }

  lemma ResolvedBeforeExclusion(flags: map<Key, FeatureState>, live: seq<FeatureState>, now: int)
    requires Flags(live, now) && Resolved(flags, Current(live, live, now), now)
    ensures Resolved(flags, live, now)
  {
    CurrentSpec(live, live, now);
    forall k | k in flags ensures IsHighest(flags[k], live, now) {
      CurrentKeepsHighest(flags[k], live, now);
    }
    forall fs | fs in live ensures FeatureKey(fs) in flags {
      var newest := NewestAbove(fs, live, now);
      assert newest in Current(live, live, now) && FeatureKey(newest) == FeatureKey(fs);
    }
  }

  /**
    An identity's flags, from the rows its query selects. Whatever order the rows come in, and
    however the clock moves between comparisons, each feature gets its highest live state.
   */
  method ResolveFlags(rows: seq<FeatureState>, environment: nat, now: int, clock: nat -> int, clock': nat -> int)
    returns (flags: map<Key, FeatureState>)
    requires Distinct(rows) && Flags(LiveStates(rows, environment, now), now)
    requires forall i :: now <= clock(i) && now <= clock'(i)
    ensures Resolved(flags, LiveStates(rows, environment, now), now)
  {
    var live := LiveStates(rows, environment, now);
    var current := Current(live, live, now);
    LiveNoDuplicates(rows, environment, now);
    CurrentNoDuplicates(live, live, now);
    CurrentIsOnePerOverride(live, now);
    var overrides := KeepHighest(current, OverrideKey, now, clock);
    var values := Values(overrides, current, OverrideKey, now);
    flags := KeepHighest(values, FeatureKey, now, clock');
    HighestOfHighest(current, overrides, values, flags, now);
    ResolvedBeforeExclusion(flags, live, now);
  }

  /**
    Who wins: the identity override if there is one, else the segment override with the lowest
    priority number, else the environment default; and of that override the newest live version.
   */
  lemma WinnerByPrecedence(fs: FeatureState, live: seq<FeatureState>, now: int)
    requires Flags(live, now) && IsHighest(fs, live, now)
    ensures fs.identity.None? ==> forall x :: x in live && x.feature == fs.feature ==> x.identity.None?
    ensures fs.identity.None? && fs.segment.Some? ==>
              forall x :: x in live && x.feature == fs.feature && x.segment.Some? ==>
                fs.segment.value.priority <= x.segment.value.priority
    ensures fs.identity.None? && fs.segment.None? ==>
              forall x :: x in live && x.feature == fs.feature ==> x.segment.None?
    ensures forall x :: x in live && SamePartition(x, fs) ==>
              x.liveFrom.value < fs.liveFrom.value
              || (x.liveFrom == fs.liveFrom && x.version.value <= fs.version.value)
  {
  }

  /** Any two runs over the same rows, in any order and at any pace, resolve alike. */
  lemma ResolutionIsUnique(flags: map<Key, FeatureState>, flags': map<Key, FeatureState>,
                           live: seq<FeatureState>, live': seq<FeatureState>, now: int)
    requires Resolved(flags, live, now) && Resolved(flags', live', now)
    requires forall x :: x in live <==> x in live'
    ensures flags == flags'
  {
  }

  /** A version that is live at a time, by its columns. */
  predicate LiveAt(x: FeatureState, environment: nat, now: int)
  {
    x.environment == environment && x.version.Some? && x.liveFrom.Some? && x.liveFrom.value <= now
  }

  /**
    Why one live state of a flag is served and another is not: an identity override comes before anything
    else, a segment override before the default, of two segments' the one with the lower priority number,
    and of two versions of one the later `live_from`, or on the same the higher version.
   */
  predicate ServedBefore(a: FeatureState, b: FeatureState)
    requires a.version.Some? && a.liveFrom.Some? && b.version.Some? && b.liveFrom.Some?
  {
    var newer := a.liveFrom.value > b.liveFrom.value || (a.liveFrom == b.liveFrom && a.version.value > b.version.value);
    if a.identity.Some? then b.identity.None? || newer
    else if b.identity.Some? then false
    else if a.segment.Some? then
      b.segment.None? || a.segment.value.priority < b.segment.value.priority
      || (a.segment.value.priority == b.segment.value.priority && newer)
    else b.segment.None? && newer
  }

  /**
    The resolved flags, by the columns of the rows: each feature with a live state gets the one served
    before all others.
   */
  lemma ResolvedByColumns(rows: seq<FeatureState>, environment: nat, now: int, flags: map<Key, FeatureState>,
                          feature: nat)
    requires Flags(LiveStates(rows, environment, now), now) && Resolved(flags, LiveStates(rows, environment, now), now)
    ensures var key := Key(feature, None, None);
            && (key in flags <==> exists x :: x in rows && LiveAt(x, environment, now) && x.feature == feature)
            && (key in flags ==>
                  && flags[key] in rows && LiveAt(flags[key], environment, now) && flags[key].feature == feature
                  && forall x :: x in rows && LiveAt(x, environment, now) && x.feature == feature && x != flags[key] ==>
                       ServedBefore(flags[key], x))
  {
    var live := LiveStates(rows, environment, now);
    LiveStatesSpec(rows, environment, now);
    assert forall x :: x in live <==> x in rows && LiveAt(x, environment, now);
    var key := Key(feature, None, None);
    if key in flags {
      assert IsHighest(flags[key], live, now) && FeatureKey(flags[key]) == key;
    }
    if x :| x in rows && LiveAt(x, environment, now) && x.feature == feature {
      assert FeatureKey(x) == key;
    }
  }
}
