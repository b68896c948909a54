/** What a replica and a delta in flight know about a node, relative to everything that node ever wrote.

The reference is the owner's write log: entry `i` is the record the owner gave version `i + 1`, and nothing
is ever taken out of it, although owner and replicas collect tombstones. */
module Replication {
  import opened ChitchatTypes
  import opened NodeStates
  import opened NodeRuns

  type Log = seq<KeyValueMutation>

  ghost predicate ValidLog(log: Log) {
    forall i :: 0 <= i < |log| ==> log[i].version == i + 1
  }

  ghost function LatestUpTo(log: Log, key: Text, n: nat): (v: Version)
    requires n <= |log|
    ensures v <= n
    ensures v > 0 ==> log[v - 1].key == key
  {
    if n == 0 then 0
    else if log[n - 1].key == key then n
    else LatestUpTo(log, key, n - 1)
  }

  /** The version of the current record of `key`; 0 if the owner never wrote it. */
  ghost function Latest(log: Log, key: Text): (v: Version)
    ensures v <= |log|
    ensures v > 0 ==> log[v - 1].key == key
  {
    LatestUpTo(log, key, |log|)
  }

  lemma {:induction false} LatestUpToPrefix(log: Log, m: KeyValueMutation, key: Text, n: nat)
    requires n <= |log|
    ensures LatestUpTo(log + [m], key, n) == LatestUpTo(log, key, n)
  {
    if n > 0 {
      LatestUpToPrefix(log, m, key, n - 1);
    }
  }

  /** The current record of `key` may have been collected by a node whose `last_gc_version` is `gc`. */
  ghost predicate Collectable(log: Log, key: Text, gc: Version) {
    var v := Latest(log, key);
    0 < v <= gc && log[v - 1].status.ScheduledForDeletion()
  }

  ghost predicate HoldsOnlyWritten(log: Log, s: State)
    requires s.maxVersion <= |log|
  {
    forall k :: k in s.keyValues ==>
      && 0 < s.keyValues[k].version <= s.maxVersion
      && log[s.keyValues[k].version - 1] == ToMutation(k, s.keyValues[k])
  }

  ghost predicate HoldsCurrent(log: Log, s: State) {
    forall k :: k in s.keyValues ==>
      || s.keyValues[k].version == Latest(log, k)
      || (s.maxVersion < Latest(log, k) && s.lastGcVersion < Latest(log, k))
  }

  ghost predicate LacksOnlyCollectable(log: Log, s: State) {
    forall k :: 0 < Latest(log, k) <= s.maxVersion ==> k in s.keyValues || Collectable(log, k, s.lastGcVersion)
  }

  /** The replica invariant, for any state of the owner's key space held by anyone (the owner included):
      it holds only records that the owner wrote;
      whatever it holds of a key whose current record is at most its `max_version` or its
      `last_gc_version` is that current record;
      and a current record at most its `max_version` that it lacks is scheduled for deletion and at most
      its `last_gc_version`. */
  ghost predicate ReplicaOf(log: Log, s: State) {
    && s.maxVersion <= |log|
    && s.lastGcVersion <= |log|
    && HoldsOnlyWritten(log, s)
    && HoldsCurrent(log, s)
    && LacksOnlyCollectable(log, s)
  }

  function LastVersion(d: NodeDelta): Version {
    if d.keyValues == [] then d.fromVersionExcluded else d.keyValues[|d.keyValues| - 1].version
  }

  ghost predicate Carries(d: NodeDelta, v: Version) {
    exists i :: 0 <= i < |d.keyValues| && d.keyValues[i].version == v
  }

  ghost predicate CarriesOnlyWritten(log: Log, d: NodeDelta) {
    forall i :: 0 <= i < |d.keyValues| ==>
      && d.fromVersionExcluded < d.keyValues[i].version <= |log|
      && log[d.keyValues[i].version - 1] == d.keyValues[i]
  }

  ghost predicate CarriesAll(log: Log, d: NodeDelta) {
    forall k :: d.fromVersionExcluded < Latest(log, k) <= LastVersion(d) ==>
      Carries(d, Latest(log, k)) || Collectable(log, k, d.lastGcVersion)
  }

  ghost predicate CarriesCurrent(log: Log, d: NodeDelta) {
    forall i :: 0 <= i < |d.keyValues| ==>
      || d.keyValues[i].version == Latest(log, d.keyValues[i].key)
      || (LastVersion(d) < Latest(log, d.keyValues[i].key) && d.lastGcVersion < Latest(log, d.keyValues[i].key))
  }

  ghost predicate AnnouncesMaxVersion(log: Log, d: NodeDelta) {
    d.maxVersion.Some? ==>
      && d.keyValues == []
      && d.maxVersion.value <= |log|
      && (forall k :: d.fromVersionExcluded < Latest(log, k) <= d.maxVersion.value ==>
            Collectable(log, k, d.lastGcVersion))
  }

  /** The delta invariant: it carries records that the owner wrote, by increasing version; the current
      records in `(from, last]` are all there unless they are collectable; and what it carries of a key
      whose current record is at most `last` or its `last_gc_version` is that current record. */
  ghost predicate DeltaOf(log: Log, d: NodeDelta) {
    && d.lastGcVersion <= |log|
    && StrictlyIncreasing(d.keyValues)
    && CarriesOnlyWritten(log, d)
    && CarriesAll(log, d)
    && CarriesCurrent(log, d)
    && AnnouncesMaxVersion(log, d)
  }

  // ----- the log grows -----

  lemma LatestAfter(log: Log, m: KeyValueMutation, key: Text)
    ensures Latest(log + [m], key) == if m.key == key then |log| + 1 else Latest(log, key)
  {
    LatestUpToPrefix(log, m, key, |log|);
  }

  lemma LatestAfterAll(log: Log, m: KeyValueMutation)
    ensures forall k :: Latest(log + [m], k) == if m.key == k then |log| + 1 else Latest(log, k)
  {
    forall k ensures Latest(log + [m], k) == if m.key == k then |log| + 1 else Latest(log, k) {
      LatestAfter(log, m, k);
    }
  }

  lemma WriteKeepsReplica(log: Log, m: KeyValueMutation, s: State)
    requires ReplicaOf(log, s)
    ensures ReplicaOf(log + [m], s)
  {
    LatestAfterAll(log, m);
  }

  lemma WriteKeepsDelta(log: Log, m: KeyValueMutation, d: NodeDelta)
    requires DeltaOf(log, d)
    ensures DeltaOf(log + [m], d)
  {
    hide Latest, StrictlyIncreasing;
    LatestAfterAll(log, m);
    assert LastVersion(d) <= |log| || d.keyValues == [];
  }

  // ----- the owner writes -----

  function Inserted(s: State, key: Text, vv: VersionedValue): State {
    s.(maxVersion := vv.version, keyValues := s.keyValues[key := vv])
  }

  /** The log after the owner's state went from `s` to `t` by the write `w`. */
  ghost function LogAfter(log: Log, s: State, w: Write, t: State): Log
    requires t == s || w.key in t.keyValues
  {
    if t == s then log else log + [ToMutation(w.key, t.keyValues[w.key])]
  }

  /** The owner gives `key` the next version. */
  lemma OwnerPuts(log: Log, s: State, key: Text, vv: VersionedValue)
    requires ReplicaOf(log, s) && s.maxVersion == |log|
    requires vv.version == |log| + 1
    ensures ReplicaOf(log + [ToMutation(key, vv)], Inserted(s, key, vv))
  {
    LatestAfterAll(log, ToMutation(key, vv));
  }

  lemma WriteIsPut(s: State, w: Write, now: Instant)
    requires forall k :: k in s.keyValues ==> s.keyValues[k].version <= s.maxVersion
    ensures var t := ApplyWrite(s, w, now);
            t != s ==>
              && w.key in t.keyValues
              && t.keyValues[w.key].version == s.maxVersion + 1
              && t == Inserted(s, w.key, t.keyValues[w.key])
  {
  }

  lemma OwnerWrites(log: Log, s: State, w: Write, now: Instant)
    requires ValidLog(log) && ReplicaOf(log, s) && s.maxVersion == |log|
    ensures var t := ApplyWrite(s, w, now);
            && (t == s || w.key in t.keyValues)
            && var grown := LogAfter(log, s, w, t);
            && ValidLog(grown) && ReplicaOf(grown, t) && t.maxVersion == |grown|
            && t.lastGcVersion == s.lastGcVersion
  {
    var t := ApplyWrite(s, w, now);
    WriteIsPut(s, w, now);
    if t != s {
      OwnerPuts(log, s, w.key, t.keyValues[w.key]);
    }
  }

  // ----- anyone collects keys -----

  lemma CollectKeepsReplica(log: Log, s: State, now: Instant, grace: Duration, t: State)
    requires ReplicaOf(log, s)
    requires Collected(s, now, grace, t)
    ensures ReplicaOf(log, t)
  {
    hide Latest;
    assert t.lastGcVersion <= Max(s.maxVersion, s.lastGcVersion);
    forall k | 0 < Latest(log, k) <= t.maxVersion && k !in t.keyValues
      ensures Collectable(log, k, t.lastGcVersion)
    {
      if k in s.keyValues {
        assert Expired(s.keyValues[k], now, grace);
      }
    }
  }

  // ----- a sender computes a node delta -----

  /** `d` holds exactly the sender's records in `(from, last]`, or, when there is none above `from`, possibly
      its `max_version`. Any cut at the end is allowed. */
  ghost predicate IsNodeDelta(s: State, from: Version, d: NodeDelta) {
    && d.fromVersionExcluded == from
    && d.lastGcVersion == s.lastGcVersion
    && StrictlyIncreasing(d.keyValues)
    && (forall i :: 0 <= i < |d.keyValues| ==>
          var m := d.keyValues[i];
          m.key in s.keyValues && m == ToMutation(m.key, s.keyValues[m.key]) && from < m.version)
    && (forall k :: k in s.keyValues && from < s.keyValues[k].version <= LastVersion(d) ==>
          Carries(d, s.keyValues[k].version))
    && (d.maxVersion.Some? ==>
          && d.keyValues == []
          && d.maxVersion.value == s.maxVersion
          && (forall k :: k in s.keyValues ==> s.keyValues[k].version <= from))
  }

  lemma SenderCarriesAll(log: Log, s: State, from: Version, d: NodeDelta)
    requires ReplicaOf(log, s) && IsNodeDelta(s, from, d)
    ensures LastVersion(d) <= Max(from, s.maxVersion)
    ensures CarriesAll(log, d)
  {
    if d.keyValues != [] {
      var m := d.keyValues[|d.keyValues| - 1];
      assert m == ToMutation(m.key, s.keyValues[m.key]);
    }
    forall k | from < Latest(log, k) <= LastVersion(d)
      ensures Carries(d, Latest(log, k)) || Collectable(log, k, d.lastGcVersion)
    {
      if k in s.keyValues {
        assert s.keyValues[k].version == Latest(log, k);
      }
    }
  }

  lemma SenderCarriesCurrent(log: Log, s: State, from: Version, d: NodeDelta)
    requires ReplicaOf(log, s) && IsNodeDelta(s, from, d)
    requires LastVersion(d) <= Max(from, s.maxVersion)
    ensures CarriesOnlyWritten(log, d) && CarriesCurrent(log, d)
  {
    hide Latest, StrictlyIncreasing;
    forall i | 0 <= i < |d.keyValues|
      ensures from < d.keyValues[i].version <= |log| && log[d.keyValues[i].version - 1] == d.keyValues[i]
      ensures || d.keyValues[i].version == Latest(log, d.keyValues[i].key)
              || (LastVersion(d) < Latest(log, d.keyValues[i].key) && d.lastGcVersion < Latest(log, d.keyValues[i].key))
    {
      var key := d.keyValues[i].key;
      assert key in s.keyValues && d.keyValues[i] == ToMutation(key, s.keyValues[key]);
    }
  }

  lemma SenderMakesDelta(log: Log, s: State, from: Version, d: NodeDelta)
    requires ReplicaOf(log, s)
    requires IsNodeDelta(s, from, d)
    ensures DeltaOf(log, d)
  {
    SenderCarriesAll(log, s, from, d);
    SenderCarriesCurrent(log, s, from, d);
  }

  // ----- a receiver applies a node delta -----

  /** Every mutation that gets in is current, or of a key rewritten after the receiver's `last_gc_version`. */
  ghost predicate NothingResurrected(log: Log, d: NodeDelta, floor: Version, lastGc: Version) {
    forall i :: 0 <= i < |d.keyValues| && !Skipped(d.keyValues[i], floor, lastGc) ==>
      d.keyValues[i].version == Latest(log, d.keyValues[i].key) || lastGc < Latest(log, d.keyValues[i].key)
  }

  /** The loop over the mutations, before mutation `i`: `floor` is the `max_version` before the loop, and
      every earlier mutation that was not skipped is in. */
  ghost predicate InLoop(s: State, d: NodeDelta, i: nat, floor: Version)
    requires i <= |d.keyValues|
  {
    && d.fromVersionExcluded <= floor <= s.maxVersion
    && (floor > d.lastGcVersion || s.lastGcVersion >= d.lastGcVersion)
    && (s.maxVersion > floor ==> i > 0 && s.maxVersion <= d.keyValues[i - 1].version)
    && (forall j :: 0 <= j < i && !Skipped(d.keyValues[j], floor, s.lastGcVersion) ==>
          d.keyValues[j].version <= s.maxVersion && d.keyValues[j].key in s.keyValues)
  }

  lemma LoopAdvances(s: State, d: NodeDelta, i: nat, floor: Version, now: Instant)
    requires StrictlyIncreasing(d.keyValues)
    requires i < |d.keyValues| && InLoop(s, d, i, floor)
    ensures var t := ApplyMutation(s, d.keyValues[i], floor, now);
            InLoop(t, d, i + 1, floor) && t.lastGcVersion == s.lastGcVersion
  {
  }

  /** A current record strictly between `max_version` and the mutation to apply was passed over, by the
      sender or just before. */
  lemma OnlyCollectableInBetween(log: Log, s: State, d: NodeDelta, i: nat, floor: Version, k: Text)
    requires StrictlyIncreasing(d.keyValues) && CarriesOnlyWritten(log, d) && CarriesAll(log, d)
    requires i < |d.keyValues| && InLoop(s, d, i, floor)
    requires s.maxVersion < Latest(log, k) < d.keyValues[i].version
    ensures Collectable(log, k, s.lastGcVersion)
  {
    var v := Latest(log, k);
    assert d.keyValues[i].version <= LastVersion(d);
    assert Carries(d, v) || Collectable(log, k, d.lastGcVersion);
    if Carries(d, v) {
      var j :| 0 <= j < |d.keyValues| && d.keyValues[j].version == v;
      assert j < i;
      assert Skipped(d.keyValues[j], floor, s.lastGcVersion);
    }
  }

  lemma InsertHoldsOnlyWritten(log: Log, s: State, key: Text, vv: VersionedValue)
    requires s.maxVersion < vv.version <= |log| && log[vv.version - 1] == ToMutation(key, vv)
    requires HoldsOnlyWritten(log, s)
    ensures HoldsOnlyWritten(log, Inserted(s, key, vv))
  {
  }

  lemma InsertHoldsCurrent(log: Log, s: State, key: Text, vv: VersionedValue)
    requires HoldsCurrent(log, s)
    requires s.maxVersion < vv.version <= |log| && log[vv.version - 1].key == key
    requires vv.version == Latest(log, key) || (vv.version < Latest(log, key) && s.lastGcVersion < Latest(log, key))
    requires forall k :: s.maxVersion < Latest(log, k) < vv.version ==> Latest(log, k) <= s.lastGcVersion
    ensures HoldsCurrent(log, Inserted(s, key, vv))
  {
    var t := Inserted(s, key, vv);
    forall k | k in t.keyValues && k != key
      ensures || t.keyValues[k].version == Latest(log, k)
              || (t.maxVersion < Latest(log, k) && t.lastGcVersion < Latest(log, k))
    {
      assert k in s.keyValues;
      assert Latest(log, k) != vv.version;
    }
  }

  lemma InsertLacksOnlyCollectable(log: Log, s: State, key: Text, vv: VersionedValue)
    requires LacksOnlyCollectable(log, s)
    requires s.maxVersion < vv.version <= |log| && log[vv.version - 1].key == key
    requires forall k :: s.maxVersion < Latest(log, k) < vv.version ==> Collectable(log, k, s.lastGcVersion)
    ensures LacksOnlyCollectable(log, Inserted(s, key, vv))
  {
    var t := Inserted(s, key, vv);
    forall k | 0 < Latest(log, k) <= vv.version && k !in t.keyValues
      ensures Collectable(log, k, t.lastGcVersion)
    {
      assert k !in s.keyValues;
      assert Latest(log, k) != vv.version;
    }
  }

  /** Inserting a record above `max_version` when all current records in between may be collected. */
  lemma InsertKeepsReplica(log: Log, s: State, m: KeyValueMutation, now: Instant)
    requires ReplicaOf(log, s)
    requires s.maxVersion < m.version <= |log| && m == log[m.version - 1]
    requires m.version == Latest(log, m.key) || (m.version < Latest(log, m.key) && s.lastGcVersion < Latest(log, m.key))
    requires forall k :: s.maxVersion < Latest(log, k) < m.version ==> Collectable(log, k, s.lastGcVersion)
    ensures ReplicaOf(log, SetVersioned(s, m.key, VersionedValue(m.value, m.version, m.status.IntoStatus(now))))
  {
    var vv := VersionedValue(m.value, m.version, m.status.IntoStatus(now));
    assert SetVersioned(s, m.key, vv) == Inserted(s, m.key, vv);
    InsertHoldsOnlyWritten(log, s, m.key, vv);
    InsertHoldsCurrent(log, s, m.key, vv);
    InsertLacksOnlyCollectable(log, s, m.key, vv);
  }

  lemma MutationKeepsReplica(log: Log, s: State, d: NodeDelta, i: nat, floor: Version, now: Instant)
    requires ReplicaOf(log, s) && DeltaOf(log, d)
    requires i < |d.keyValues| && InLoop(s, d, i, floor)
    requires NothingResurrected(log, d, floor, s.lastGcVersion)
    ensures ReplicaOf(log, ApplyMutation(s, d.keyValues[i], floor, now))
  {
    var m := d.keyValues[i];
    if !Skipped(m, floor, s.lastGcVersion) {
      forall k | s.maxVersion < Latest(log, k) < m.version
        ensures Collectable(log, k, s.lastGcVersion)
      {
        OnlyCollectableInBetween(log, s, d, i, floor, k);
      }
      assert m.version <= LastVersion(d);
      InsertKeepsReplica(log, s, m, now);
    }
  }

  lemma {:induction false} MutationsKeepReplica(log: Log, s: State, d: NodeDelta, n: nat, now: Instant)
    requires ReplicaOf(log, s) && DeltaOf(log, d)
    requires n <= |d.keyValues|
    requires InLoop(s, d, 0, s.maxVersion)
    requires NothingResurrected(log, d, s.maxVersion, s.lastGcVersion)
    ensures var t := ApplyMutations(s, d.keyValues[..n], s.maxVersion, now);
            ReplicaOf(log, t) && InLoop(t, d, n, s.maxVersion) && t.lastGcVersion == s.lastGcVersion
  {
    hide ReplicaOf, InLoop, NothingResurrected, ApplyMutation;
    if n > 0 {
      MutationsKeepReplica(log, s, d, n - 1, now);
      assert d.keyValues[..n][..n - 1] == d.keyValues[..n - 1];
      var t := ApplyMutations(s, d.keyValues[..n - 1], s.maxVersion, now);
      assert ApplyMutations(s, d.keyValues[..n], s.maxVersion, now)
             == ApplyMutation(t, d.keyValues[n - 1], s.maxVersion, now);
      MutationKeepsReplica(log, t, d, n - 1, s.maxVersion, now);
      LoopAdvances(t, d, n - 1, s.maxVersion, now);
    }
  }

  lemma MutationsKeepReplicaAll(log: Log, s: State, d: NodeDelta, now: Instant)
    requires ReplicaOf(log, s) && DeltaOf(log, d)
    requires InLoop(s, d, 0, s.maxVersion)
    requires NothingResurrected(log, d, s.maxVersion, s.lastGcVersion)
    ensures ReplicaOf(log, ApplyMutations(s, d.keyValues, s.maxVersion, now))
  {
    assert d.keyValues[..|d.keyValues|] == d.keyValues;
    MutationsKeepReplica(log, s, d, |d.keyValues|, now);
  }

  // ----- exactly when a delivery does harm -----

  /** A reset by `d` ends at `v` or beyond, provided that `v` is at most where the delta starts. */
  predicate ResetReaches(d: NodeDelta, v: Version) {
    if d.keyValues == [] then d.maxVersion.Some? && v <= d.maxVersion.value
    else exists i :: 0 <= i < |d.keyValues| && !Skipped(d.keyValues[i], 0, d.lastGcVersion)
  }

  /** A reset by a delta that does not start from scratch drops a current record at or below `from`. */
  ghost predicate LosesKeys(log: Log, s: State, d: NodeDelta) {
    && Prepare(s, d).Reset?
    && exists k :: 0 < Latest(log, k) <= d.fromVersionExcluded
                   && !log[Latest(log, k) - 1].status.ScheduledForDeletion()
                   && ResetReaches(d, Latest(log, k))
  }

  /** A delta brings back an outdated record of a key whose current record the receiver takes for collected. */
  ghost predicate ResurrectsKeys(log: Log, s: State, d: NodeDelta) {
    Prepare(s, d).Keep? && !NothingResurrected(log, d, s.maxVersion, s.lastGcVersion)
  }

  /** Where the records of a state come from after the loop. */
  lemma {:induction false} MutationsOrigin(s: State, kvs: seq<KeyValueMutation>, floor: Version, now: Instant)
    ensures var t := ApplyMutations(s, kvs, floor, now);
            forall k :: k in t.keyValues ==>
              || (k in s.keyValues && t.keyValues[k] == s.keyValues[k])
              || (exists i :: 0 <= i < |kvs| && kvs[i].key == k && kvs[i].version == t.keyValues[k].version
                              && !Skipped(kvs[i], floor, s.lastGcVersion))
  {
    if kvs != [] {
      var n := |kvs| - 1;
      MutationsOrigin(s, kvs[..n], floor, now);
      MutationsEffect(s, kvs[..n], floor, now);
      var u := ApplyMutations(s, kvs[..n], floor, now);
      forall k | k in u.keyValues && !(k in s.keyValues && u.keyValues[k] == s.keyValues[k])
        ensures exists i :: 0 <= i < |kvs| && kvs[i].key == k && kvs[i].version == u.keyValues[k].version
                            && !Skipped(kvs[i], floor, s.lastGcVersion)
      {
        var i :| 0 <= i < n && kvs[..n][i].key == k && kvs[..n][i].version == u.keyValues[k].version
                 && !Skipped(kvs[..n][i], floor, s.lastGcVersion);
        assert kvs[i] == kvs[..n][i];
      }
    }
  }

  lemma {:induction false} MutationsArrive(s: State, kvs: seq<KeyValueMutation>, floor: Version, now: Instant)
    ensures var t := ApplyMutations(s, kvs, floor, now);
            forall i :: 0 <= i < |kvs| && !Skipped(kvs[i], floor, s.lastGcVersion) ==>
              kvs[i].key in t.keyValues && kvs[i].version <= t.keyValues[kvs[i].key].version
  {
    if kvs != [] {
      var n := |kvs| - 1;
      MutationsArrive(s, kvs[..n], floor, now);
      MutationsEffect(s, kvs[..n], floor, now);
      var u := ApplyMutations(s, kvs[..n], floor, now);
      forall i | 0 <= i < n && !Skipped(kvs[i], floor, s.lastGcVersion)
        ensures kvs[i].key in u.keyValues && kvs[i].version <= u.keyValues[kvs[i].key].version
      {
        assert kvs[..n][i] == kvs[i];
      }
    }
  }

  /** A record that is not skipped leaves its key at the version of a record of the delta. */
  lemma HeldFromDelta(s: State, kvs: seq<KeyValueMutation>, i: nat, now: Instant) returns (j: nat)
    requires i < |kvs| && !Skipped(kvs[i], s.maxVersion, s.lastGcVersion)
    requires kvs[i].key in s.keyValues ==> s.keyValues[kvs[i].key].version <= s.maxVersion
    ensures var t := ApplyMutations(s, kvs, s.maxVersion, now);
            && j < |kvs| && kvs[i].key in t.keyValues && t.keyValues[kvs[i].key].version == kvs[j].version
            && t.lastGcVersion == s.lastGcVersion
  {
    hide ApplyMutations;
    MutationsOrigin(s, kvs, s.maxVersion, now);
    MutationsArrive(s, kvs, s.maxVersion, now);
    MutationsEffect(s, kvs, s.maxVersion, now);
    var t, key := ApplyMutations(s, kvs, s.maxVersion, now), kvs[i].key;
    assert s.maxVersion < t.keyValues[key].version;
    j :| 0 <= j < |kvs| && kvs[j].key == key && kvs[j].version == t.keyValues[key].version;
  }

  lemma ResurrectionDoesHarm(log: Log, s: State, d: NodeDelta, now: Instant)
    requires ReplicaOf(log, s) && DeltaOf(log, d)
    requires ResurrectsKeys(log, s, d)
    ensures !ReplicaOf(log, ApplyDelta(s, d, now))
  {
    hide Latest, ApplyMutations;
    var i :| 0 <= i < |d.keyValues| && !Skipped(d.keyValues[i], s.maxVersion, s.lastGcVersion)
             && d.keyValues[i].version != Latest(log, d.keyValues[i].key)
             && Latest(log, d.keyValues[i].key) <= s.lastGcVersion;
    var j := HeldFromDelta(s, d.keyValues, i, now);
    assert d.keyValues[j].version <= LastVersion(d) < Latest(log, d.keyValues[i].key);
  }

  /** A reset by `d` is a reset by the same delta taken from scratch, if all below `from` may be collected. */
  lemma ResetAsFromScratch(log: Log, s: State, d: NodeDelta)
    requires DeltaOf(log, d) && Prepare(s, d).Reset? && d.keyValues != []
    requires forall k :: 0 < Latest(log, k) <= d.fromVersionExcluded ==>
                           log[Latest(log, k) - 1].status.ScheduledForDeletion()
    ensures DeltaOf(log, d.(fromVersionExcluded := 0))
  {
    hide Latest, StrictlyIncreasing;
    var e := d.(fromVersionExcluded := 0);
    forall k | 0 < Latest(log, k) <= LastVersion(e)
      ensures Carries(e, Latest(log, k)) || Collectable(log, k, e.lastGcVersion)
    {
      if d.fromVersionExcluded < Latest(log, k) && Carries(d, Latest(log, k)) {
        var i :| 0 <= i < |d.keyValues| && d.keyValues[i].version == Latest(log, k);
        assert e.keyValues[i].version == Latest(log, k);
      }
    }
  }

  lemma ResetIsReplica(log: Log, d: NodeDelta, now: Instant)
    requires DeltaOf(log, d) && d.fromVersionExcluded == 0
    ensures ReplicaOf(log, ApplyMutations(ResetTo(d), d.keyValues, ResetTo(d).maxVersion, now))
  {
    if d.keyValues != [] {
      MutationsKeepReplicaAll(log, ResetTo(d), d, now);
    }
  }

  predicate HoldsAt(s: State, k: Text, v: Version) { k in s.keyValues && s.keyValues[k].version == v }

  lemma ResetReachesExactly(log: Log, s: State, d: NodeDelta, now: Instant, v: Version)
    requires DeltaOf(log, d) && Prepare(s, d).Reset? && 0 < v <= d.fromVersionExcluded
    ensures ResetReaches(d, v) <==> v <= ApplyDelta(s, d, now).maxVersion
  {
    MutationsEffect(ResetTo(d), d.keyValues, ResetTo(d).maxVersion, now);
    if !ResetReaches(d, v) {
      MutationsAllSkipped(ResetTo(d), d.keyValues, ResetTo(d).maxVersion, now);
    }
  }

  lemma LossBreaksReplica(log: Log, s: State, d: NodeDelta, now: Instant)
    requires DeltaOf(log, d) && d.keyValues != [] && LosesKeys(log, s, d)
    ensures !ReplicaOf(log, ApplyDelta(s, d, now))
  {
    hide Latest, ApplyMutations, StrictlyIncreasing;
    var t := ApplyDelta(s, d, now);
    MutationsOrigin(ResetTo(d), d.keyValues, 0, now);
    var k :| 0 < Latest(log, k) <= d.fromVersionExcluded
             && !log[Latest(log, k) - 1].status.ScheduledForDeletion() && ResetReaches(d, Latest(log, k));
    ResetReachesExactly(log, s, d, now, Latest(log, k));
    assert !HoldsAt(t, k, Latest(log, k));
  }

  lemma ResetWithoutLoss(log: Log, s: State, d: NodeDelta, now: Instant)
    requires ReplicaOf(log, s) && DeltaOf(log, d)
    requires Prepare(s, d).Reset? && d.keyValues != [] && !LosesKeys(log, s, d)
    ensures ReplicaOf(log, ApplyDelta(s, d, now))
  {
    if forall i :: 0 <= i < |d.keyValues| ==> Skipped(d.keyValues[i], 0, d.lastGcVersion) {
      MutationsAllSkipped(ResetTo(d), d.keyValues, 0, now);
    } else {
      ResetAsFromScratch(log, s, d);
      ResetIsReplica(log, d.(fromVersionExcluded := 0), now);
    }
  }

  lemma ResetWithRecords(log: Log, s: State, d: NodeDelta, now: Instant)
    requires ReplicaOf(log, s) && DeltaOf(log, d)
    requires Prepare(s, d).Reset? && d.keyValues != []
    ensures ReplicaOf(log, ApplyDelta(s, d, now)) <==> !LosesKeys(log, s, d)
  {
    hide ReplicaOf, DeltaOf, LosesKeys, ApplyDelta;
    if LosesKeys(log, s, d) {
      LossBreaksReplica(log, s, d, now);
    } else {
      ResetWithoutLoss(log, s, d, now);
    }
  }

  /** Delivering any delta, however old, to any replica keeps the replica invariant exactly when it neither
      loses nor resurrects keys. */
  lemma DeliveryKeepsReplicaExactly(log: Log, s: State, d: NodeDelta, now: Instant)
    requires ReplicaOf(log, s) && DeltaOf(log, d)
    ensures ReplicaOf(log, ApplyDelta(s, d, now)) <==> !LosesKeys(log, s, d) && !ResurrectsKeys(log, s, d)
  {
    match Prepare(s, d)
    case Refuse =>
    case Keep =>
      if ResurrectsKeys(log, s, d) {
        ResurrectionDoesHarm(log, s, d, now);
      } else {
        MutationsKeepReplicaAll(log, s, d, now);
      }
    case Reset =>
      if d.keyValues != [] {
        ResetWithRecords(log, s, d, now);
      }
  }

  // ----- a test on the two version pairs that rules both out -----

  /** What a receiver could test: it resets only from scratch, and its `last_gc_version` is not beyond all
      that the delta accounts for. */
  predicate SafeFor(s: State, d: NodeDelta) {
    && (Prepare(s, d).Reset? ==> d.fromVersionExcluded == 0)
    && (Prepare(s, d).Keep? ==> s.lastGcVersion <= Max(LastVersion(d), d.lastGcVersion))
  }

  lemma SafeDeliveryKeepsReplica(log: Log, s: State, d: NodeDelta, now: Instant)
    requires ReplicaOf(log, s) && DeltaOf(log, d) && SafeFor(s, d)
    ensures ReplicaOf(log, ApplyDelta(s, d, now))
  {
    DeliveryKeepsReplicaExactly(log, s, d, now);
  }

  /** A delta changes the owner's own state exactly if it resets it. */
  lemma OwnerUnmovedExactly(log: Log, s: State, d: NodeDelta, now: Instant)
    requires s.maxVersion == |log| && DeltaOf(log, d)
    ensures ApplyDelta(s, d, now) == s <==> !Prepare(s, d).Reset?
  {
    if Prepare(s, d).Reset? {
      MutationsEffect(ResetTo(d), d.keyValues, ResetTo(d).maxVersion, now);
    } else {
      MutationsAllSkipped(s, d.keyValues, s.maxVersion, now);
    }
  }

  // ----- what the invariant says about an owner and a replica -----

  /** The owner `o` and a replica `r` of it: every record the owner holds that is at most the replica's
      `max_version` is at the replica, unless it is scheduled for deletion and at most its `last_gc_version`;
      and what the replica holds of a key the owner holds is never newer, and is the owner's own former record. */
  lemma ReplicaHoldsOwnersRecords(log: Log, o: State, r: State, k: Text)
    requires ReplicaOf(log, o) && o.maxVersion == |log| && ReplicaOf(log, r)
    requires k in o.keyValues && o.keyValues[k].version <= r.maxVersion
    ensures || (k in r.keyValues && ToMutation(k, r.keyValues[k]) == ToMutation(k, o.keyValues[k]))
            || (k !in r.keyValues && o.keyValues[k].status.ScheduledForDeletion()
                && o.keyValues[k].version <= r.lastGcVersion)
  {
    assert o.keyValues[k].version == Latest(log, k);
    assert log[Latest(log, k) - 1] == ToMutation(k, o.keyValues[k]);
  }

  /** A key that a replica holds and the owner has collected is that same scheduled record, or else the
      replica is behind the owner's collection by both its versions, so that the owner resets it next. */
  lemma CollectedKeysAreScheduledOrWiped(log: Log, o: State, r: State, k: Text)
    requires ReplicaOf(log, o) && o.maxVersion == |log| && ReplicaOf(log, r)
    requires k in r.keyValues && k !in o.keyValues
    ensures || (r.keyValues[k].status.ScheduledForDeletion()
                && r.keyValues[k].version == Latest(log, k) <= o.lastGcVersion)
            || (r.maxVersion < o.lastGcVersion && r.lastGcVersion < o.lastGcVersion)
  {
    var v := r.keyValues[k].version;
    assert log[v - 1] == ToMutation(k, r.keyValues[k]);
    LatestIsLast(log, k, |log|, v);
    assert Collectable(log, k, o.lastGcVersion);
  }

  lemma {:induction false} LatestIsLast(log: Log, key: Text, n: nat, v: Version)
    requires 0 < v <= n <= |log| && log[v - 1].key == key
    ensures v <= LatestUpTo(log, key, n)
  {
    if v < n && log[n - 1].key != key {
      LatestIsLast(log, key, n - 1, v);
    }
  }

  /** Two replicas agree on every key whose current record neither is behind on. */
  lemma ReplicasAgree(log: Log, a: State, b: State, k: Text)
    requires ReplicaOf(log, a) && ReplicaOf(log, b)
    requires k in a.keyValues && k in b.keyValues
    requires Latest(log, k) <= a.maxVersion && Latest(log, k) <= b.maxVersion
    ensures ToMutation(k, a.keyValues[k]) == ToMutation(k, b.keyValues[k])
  {
  }

  /** Without collections a replica that has caught up with the owner's `max_version` holds the same records. */
  lemma CaughtUpReplicaIsEqual(log: Log, o: State, r: State)
    requires ReplicaOf(log, o) && ReplicaOf(log, r)
    requires o.lastGcVersion == 0 && r.lastGcVersion == 0
    requires o.maxVersion == |log| && r.maxVersion == |log|
    ensures o.keyValues.Keys == r.keyValues.Keys
    ensures forall k :: k in o.keyValues ==> ToMutation(k, o.keyValues[k]) == ToMutation(k, r.keyValues[k])
  {
    forall k ensures k in o.keyValues <==> 0 < Latest(log, k) {
      if k in o.keyValues { assert o.keyValues[k].version == Latest(log, k); }
    }
    forall k ensures k in r.keyValues <==> 0 < Latest(log, k) {
      if k in r.keyValues { assert r.keyValues[k].version == Latest(log, k); }
    }
    forall k | k in o.keyValues ensures ToMutation(k, o.keyValues[k]) == ToMutation(k, r.keyValues[k]) {
      ReplicasAgree(log, o, r, k);
    }
  }

  // ----- exactly when two replicas with equal versions agree -----

  ghost predicate SameRecords(a: State, b: State) {
    && a.keyValues.Keys == b.keyValues.Keys
    && (forall k :: k in a.keyValues ==> ToMutation(k, a.keyValues[k]) == ToMutation(k, b.keyValues[k]))
  }

  ghost predicate UncollectedAt(log: Log, v: Version, s: State) {
    ReplicaOf(log, s) && s.maxVersion == v && s.lastGcVersion == 0
  }

  /** What was written up to `v` was not written again after `v`. */
  ghost predicate NoneRewrittenAfter(log: Log, v: Version)
    requires v <= |log|
  {
    forall i :: 0 <= i < v ==> Latest(log, log[i].key) <= v
  }

  lemma HeldAtExactly(log: Log, v: Version, s: State, k: Text)
    requires v <= |log| && NoneRewrittenAfter(log, v) && UncollectedAt(log, v, s)
    ensures k in s.keyValues <==> 0 < Latest(log, k) <= v
    ensures k in s.keyValues ==> ToMutation(k, s.keyValues[k]) == log[Latest(log, k) - 1]
  {
    hide Latest;
    if k in s.keyValues {
      var w := s.keyValues[k].version;
      assert log[w - 1] == ToMutation(k, s.keyValues[k]);
      WrittenIsAtMostLatest(log, k, w);
    }
  }

  lemma WrittenIsAtMostLatest(log: Log, k: Text, v: Version)
    requires 0 < v <= |log| && log[v - 1].key == k
    ensures v <= Latest(log, k)
  {
    LatestIsLast(log, k, |log|, v);
  }

  function Record(m: KeyValueMutation): VersionedValue { VersionedValue(m.value, m.version, m.status.IntoStatus(0.0)) }

  /** The replica of all current records up to `v`. */
  ghost function CurrentUpTo(log: Log, v: Version): State {
    var keys := set i | 0 <= i < |log| :: log[i].key;
    State(0, map k | k in keys && 0 < Latest(log, k) <= v :: Record(log[Latest(log, k) - 1]), v, 0)
  }

  lemma CurrentAt(log: Log, v: Version, k: Text)
    requires v <= |log|
    ensures var s := CurrentUpTo(log, v);
            && (k in s.keyValues <==> 0 < Latest(log, k) <= v)
            && (k in s.keyValues ==> s.keyValues[k] == Record(log[Latest(log, k) - 1]))
  {
    hide Latest;
    if 0 < Latest(log, k) <= v {
      var keys := set i | 0 <= i < |log| :: log[i].key;
      assert log[Latest(log, k) - 1].key in keys;
    }
  }

  lemma CurrentIsReplica(log: Log, v: Version)
    requires ValidLog(log) && v <= |log|
    ensures UncollectedAt(log, v, CurrentUpTo(log, v))
  {
    hide CurrentUpTo, Latest;
    var s := CurrentUpTo(log, v);
    forall k ensures k in s.keyValues <==> 0 < Latest(log, k) <= v
             ensures k in s.keyValues ==> s.keyValues[k] == Record(log[Latest(log, k) - 1])
    {
      CurrentAt(log, v, k);
    }
    CurrentVersions(log, v);
  }

  lemma CurrentVersions(log: Log, v: Version)
    ensures CurrentUpTo(log, v).maxVersion == v && CurrentUpTo(log, v).lastGcVersion == 0
  {
  }

  /** The former record of a key that is rewritten after `v` may be there too. */
  lemma FormerRecordMayStay(log: Log, v: Version, s: State, i: nat)
    requires ValidLog(log) && v <= |log| && UncollectedAt(log, v, s)
    requires i < v < Latest(log, log[i].key)
    ensures UncollectedAt(log, v, s.(keyValues := s.keyValues[log[i].key := Record(log[i])]))
  {
    hide Latest;
    var t := s.(keyValues := s.keyValues[log[i].key := Record(log[i])]);
    assert ToMutation(log[i].key, Record(log[i])) == log[i];
  }

  /** Any two replicas at `v` that have collected nothing hold the same records, if and only if no key written up to
      `v` was written again later. */
  lemma EqualVersionsAgreeExactly(log: Log, v: Version)
    requires ValidLog(log) && v <= |log|
    ensures (forall a, b :: UncollectedAt(log, v, a) && UncollectedAt(log, v, b) ==> SameRecords(a, b)) <==>
            NoneRewrittenAfter(log, v)
  {
    hide UncollectedAt, CurrentUpTo, Latest;
    if NoneRewrittenAfter(log, v) {
      forall a, b | UncollectedAt(log, v, a) && UncollectedAt(log, v, b) ensures SameRecords(a, b) {
        forall k ensures k in a.keyValues <==> k in b.keyValues
                 ensures k in a.keyValues ==> ToMutation(k, a.keyValues[k]) == ToMutation(k, b.keyValues[k])
        {
          HeldAtExactly(log, v, a, k);
          HeldAtExactly(log, v, b, k);
        }
      }
    } else {
      var i :| 0 <= i < v && Latest(log, log[i].key) > v;
      var a := CurrentUpTo(log, v);
      var b := a.(keyValues := a.keyValues[log[i].key := Record(log[i])]);
      CurrentIsReplica(log, v);
      CurrentAt(log, v, log[i].key);
      FormerRecordMayStay(log, v, a, i);
      assert !SameRecords(a, b);
    }
  }
}
