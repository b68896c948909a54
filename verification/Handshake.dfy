/** An owner and one replica that it brings up to date by synchronous handshakes, with key collection on both
sides: the invariant over all runs, and exactly what happens at the one boundary where the code breaks it. */
module Handshake {
  import opened ChitchatTypes
  import opened NodeStates
  import opened NodeRuns
  import opened Replication
  import opened Gossip

  datatype Pair = Pair(log: Log, owner: State, replica: State)

  datatype PairStep =
    | OwnerWrite(write: Write, now: Instant)
    | OwnerCollect(now: Instant, grace: Duration)
    | ReplicaCollect(now: Instant, grace: Duration)
    | ReplicaForget
    | Sync(delta: NodeDelta, now: Instant)

  function DigestFor(s: State): NodeDigest {
    NodeDigest(s.heartbeat, s.lastGcVersion, s.maxVersion)
  }

  ghost predicate PairNext(p: Pair, step: PairStep, q: Pair) {
    match step
    case OwnerWrite(w, now) =>
      var after := ApplyWrite(p.owner, w, now);
      && (after == p.owner || w.key in after.keyValues)
      && q == Pair(LogAfter(p.log, p.owner, w, after), after, p.replica)
    case OwnerCollect(now, grace) =>
      q == p.(owner := q.owner) && Collected(p.owner, now, grace, q.owner)
    case ReplicaCollect(now, grace) =>
      q == p.(replica := q.replica) && Collected(p.replica, now, grace, q.replica)
    case ReplicaForget =>
      q == p.(replica := EMPTY)
    case Sync(d, now) =>
      && p.replica.maxVersion < p.owner.maxVersion
      && IsNodeDelta(p.owner, FromVersion(p.owner, DigestFor(p.replica)), d)
      && q == p.(replica := ApplyDelta(p.replica, d, now))
  }

  ghost predicate IsPairRun(pairs: seq<Pair>, steps: seq<PairStep>) {
    && |pairs| == |steps| + 1
    && pairs[0] == Pair([], EMPTY, EMPTY)
    && (forall i :: 0 <= i < |steps| ==> PairNext(pairs[i], steps[i], pairs[i + 1]))
  }

  /** The sender compares with `<`, the receiver with `>`: here the sender sends an increment and the receiver
      resets. */
  predicate AtBoundary(owner: State, replica: State) {
    replica.lastGcVersion < owner.lastGcVersion && replica.maxVersion == owner.lastGcVersion
  }

  ghost predicate InSync(p: Pair) {
    && ValidLog(p.log)
    && ReplicaOf(p.log, p.owner) && p.owner.maxVersion == |p.log|
    && ReplicaOf(p.log, p.replica)
    && p.replica.lastGcVersion <= Max(p.replica.maxVersion, p.owner.lastGcVersion)
  }

  lemma HandshakeIsSafe(p: Pair, d: NodeDelta)
    requires InSync(p) && !AtBoundary(p.owner, p.replica)
    requires IsNodeDelta(p.owner, FromVersion(p.owner, DigestFor(p.replica)), d)
    ensures SafeFor(p.replica, d)
  {
  }

  lemma SyncKeepsLastGc(p: Pair, d: NodeDelta, now: Instant)
    requires InSync(p)
    requires IsNodeDelta(p.owner, FromVersion(p.owner, DigestFor(p.replica)), d)
    ensures var r := ApplyDelta(p.replica, d, now);
            r.lastGcVersion <= Max(r.maxVersion, p.owner.lastGcVersion)
  {
    MutationsEffect(p.replica, d.keyValues, p.replica.maxVersion, now);
    MutationsEffect(ResetTo(d), d.keyValues, ResetTo(d).maxVersion, now);
  }

  lemma PairStepKeeps(p: Pair, step: PairStep, q: Pair)
    requires InSync(p) && PairNext(p, step, q)
    requires step.Sync? ==> !AtBoundary(p.owner, p.replica)
    ensures InSync(q)
  {
    match step
    case OwnerWrite(w, now) =>
      OwnerWrites(p.log, p.owner, w, now);
      if q.log != p.log {
        WriteKeepsReplica(p.log, ToMutation(w.key, q.owner.keyValues[w.key]), p.replica);
      }
    case OwnerCollect(now, grace) =>
      CollectKeepsReplica(p.log, p.owner, now, grace, q.owner);
    case ReplicaCollect(now, grace) =>
      CollectKeepsReplica(p.log, p.replica, now, grace, q.replica);
    case ReplicaForget =>
      assert ReplicaOf(p.log, EMPTY);
    case Sync(d, now) =>
      SenderMakesDelta(p.log, p.owner, FromVersion(p.owner, DigestFor(p.replica)), d);
      HandshakeIsSafe(p, d);
      SafeDeliveryKeepsReplica(p.log, p.replica, d, now);
      SyncKeepsLastGc(p, d, now);
  }

  /** Whatever the owner writes and both sides collect, wherever deltas are cut and however often the replica
      starts over, handshakes away from the boundary keep the pair in sync. */
  lemma {:induction false} HandshakesKeepInSync(pairs: seq<Pair>, steps: seq<PairStep>, n: nat)
    requires IsPairRun(pairs, steps) && n < |pairs|
    requires forall i :: 0 <= i < n && steps[i].Sync? ==> !AtBoundary(pairs[i].owner, pairs[i].replica)
    ensures InSync(pairs[n])
  {
    if n > 0 {
      HandshakesKeepInSync(pairs, steps, n - 1);
      PairStepKeeps(pairs[n - 1], steps[n - 1], pairs[n]);
    } else {
      assert ReplicaOf([], EMPTY);
    }
  }

  lemma ResetHoldsOnlyTheDelta(s: State, d: NodeDelta, now: Instant, k: Text)
    requires Prepare(s, d).Reset? && k in ApplyDelta(s, d, now).keyValues
    ensures exists i :: 0 <= i < |d.keyValues| && d.keyValues[i].key == k
  {
    MutationsOrigin(ResetTo(d), d.keyValues, ResetTo(d).maxVersion, now);
  }

  /** The current record of the key, scheduled for deletion. */
  ghost predicate IsCollectedRecord(log: Log, vv: VersionedValue, k: Text) {
    vv.status.ScheduledForDeletion() && vv.version == Latest(log, k)
  }

  lemma LeftoversForceReset(p: Pair, d: NodeDelta, k: Text)
    requires InSync(p) && k in p.replica.keyValues && k !in p.owner.keyValues
    requires !IsCollectedRecord(p.log, p.replica.keyValues[k], k)
    requires IsNodeDelta(p.owner, FromVersion(p.owner, DigestFor(p.replica)), d)
    requires d.keyValues != [] || d.maxVersion.Some?
    ensures Prepare(p.replica, d).Reset?
  {
    hide ReplicaOf, ToMutation, Latest;
    CollectedKeysAreScheduledOrWiped(p.log, p.owner, p.replica, k);
  }

  /** In sync, a key that only the replica holds is the very record that the owner collected, or the replica is so
      far behind that the owner's next delta, if it brings anything, wipes it. */
  lemma LeftoversAreWiped(p: Pair, d: NodeDelta, now: Instant, k: Text)
    requires InSync(p) && k in p.replica.keyValues && k !in p.owner.keyValues
    requires !IsCollectedRecord(p.log, p.replica.keyValues[k], k)
    requires IsNodeDelta(p.owner, FromVersion(p.owner, DigestFor(p.replica)), d)
    requires d.keyValues != [] || d.maxVersion.Some?
    ensures Prepare(p.replica, d).Reset?
    ensures k !in ApplyDelta(p.replica, d, now).keyValues
  {
    LeftoversForceReset(p, d, k);
    hide Prepare, ApplyDelta, InSync;
    if k in ApplyDelta(p.replica, d, now).keyValues {
      ResetHoldsOnlyTheDelta(p.replica, d, now, k);
    }
  }

  lemma BoundaryResets(o: State, r: State, d: NodeDelta)
    requires AtBoundary(o, r) && o.lastGcVersion <= o.maxVersion
    requires IsNodeDelta(o, FromVersion(o, DigestFor(r)), d)
    requires d.keyValues != [] || d.maxVersion.Some?
    ensures Prepare(r, d).Reset? && d.fromVersionExcluded == o.lastGcVersion
    ensures forall v: Version :: v <= d.fromVersionExcluded ==> ResetReaches(d, v)
  {
    assert d.keyValues != [] ==> !Skipped(d.keyValues[0], 0, d.lastGcVersion);
  }

  predicate OnlyScheduledUpTo(o: State, version: Version) {
    forall k :: k in o.keyValues && o.keyValues[k].version <= version ==> o.keyValues[k].status.ScheduledForDeletion()
  }

  lemma OwnerHoldsLiveRecords(log: Log, o: State, version: Version)
    requires ReplicaOf(log, o) && o.maxVersion == |log|
    ensures OnlyScheduledUpTo(o, version) <==>
            forall k :: 0 < Latest(log, k) <= version ==> log[Latest(log, k) - 1].status.ScheduledForDeletion()
  {
    forall k | k in o.keyValues
      ensures 0 < o.keyValues[k].version == Latest(log, k)
      ensures log[Latest(log, k) - 1].status == o.keyValues[k].status.Erase()
    {
    }
    forall k | 0 < Latest(log, k) ensures k in o.keyValues || log[Latest(log, k) - 1].status.ScheduledForDeletion() {
      assert k in o.keyValues || Collectable(log, k, o.lastGcVersion);
    }
  }

  lemma CollectedAtMostWritten(p: Pair)
    requires InSync(p)
    ensures p.owner.lastGcVersion <= p.owner.maxVersion
  {
  }

  /** At the boundary, a handshake that brings anything keeps the pair in sync exactly when the owner holds
      nothing but scheduled records up to its `last_gc_version`: the others are lost at the replica. */
  lemma BoundaryHandshake(p: Pair, d: NodeDelta, now: Instant)
    requires InSync(p) && AtBoundary(p.owner, p.replica)
    requires IsNodeDelta(p.owner, FromVersion(p.owner, DigestFor(p.replica)), d)
    requires d.keyValues != [] || d.maxVersion.Some?
    ensures InSync(p.(replica := ApplyDelta(p.replica, d, now))) <==>
            OnlyScheduledUpTo(p.owner, p.owner.lastGcVersion)
  {
    hide ReplicaOf, DeltaOf, LosesKeys, ResetReaches, IsNodeDelta, ApplyDelta, OnlyScheduledUpTo, Latest, Prepare,
      AtBoundary;
    CollectedAtMostWritten(p);
    SenderMakesDelta(p.log, p.owner, FromVersion(p.owner, DigestFor(p.replica)), d);
    DeliveryKeepsReplicaExactly(p.log, p.replica, d, now);
    SyncKeepsLastGc(p, d, now);
    BoundaryResets(p.owner, p.replica, d);
    OwnerHoldsLiveRecords(p.log, p.owner, p.owner.lastGcVersion);
    LossMeansLiveRecord(p.log, p.replica, d);
  }

  lemma LossMeansLiveRecord(log: Log, s: State, d: NodeDelta)
    requires Prepare(s, d).Reset? && forall v: Version :: v <= d.fromVersionExcluded ==> ResetReaches(d, v)
    ensures !LosesKeys(log, s, d) <==>
            forall k :: 0 < Latest(log, k) <= d.fromVersionExcluded ==>
                          log[Latest(log, k) - 1].status.ScheduledForDeletion()
  {
  }

  // ----- messages are handshakes -----

  /** A delta answering a digest holds, for each node that is not about to be removed, a delta as in a handshake
      with the state that the digest was taken from; a node never heard of counts as empty. */
  lemma AnswerIsHandshake(theirs: View, going: set<ChitchatId>, mine: View, scheduled: set<ChitchatId>,
                          delta: Delta, i: nat)
    requires IsPartialDelta(mine, ComputeDigest(theirs, going), scheduled, delta) && i < |delta.nodeDeltas|
    requires delta.nodeDeltas[i].id !in going
    ensures var d := delta.nodeDeltas[i];
            var r := NodeOf(theirs, d.id);
            && d.id in mine && d.id !in scheduled && r.maxVersion < mine[d.id].maxVersion
            && IsNodeDelta(mine[d.id], FromVersion(mine[d.id], DigestFor(r)), d)
  {
    hide IsNodeDelta;
  }

  // ----- handshakes bring the replica up to date -----

  /** The delta was not cut: it carries all the owner's records above its starting version, or the owner's
      `max_version` if there are none. */
  ghost predicate IsWhole(o: State, d: NodeDelta) {
    && (forall k :: k in o.keyValues && d.fromVersionExcluded < o.keyValues[k].version ==>
          Carries(d, o.keyValues[k].version))
    && (d.keyValues == [] ==> d.maxVersion == Some(o.maxVersion))
  }

  lemma {:induction false} MaxVersionOrigin(s: State, kvs: seq<KeyValueMutation>, floor: Version, now: Instant)
    ensures var t := ApplyMutations(s, kvs, floor, now);
            || t.maxVersion == s.maxVersion
            || exists i :: 0 <= i < |kvs| && kvs[i].version == t.maxVersion && !Skipped(kvs[i], floor, s.lastGcVersion)
  {
    if kvs != [] {
      var n := |kvs| - 1;
      MaxVersionOrigin(s, kvs[..n], floor, now);
      MutationsEffect(s, kvs[..n], floor, now);
      var u, t := ApplyMutations(s, kvs[..n], floor, now), ApplyMutations(s, kvs, floor, now);
      if t.maxVersion != s.maxVersion && t.maxVersion == u.maxVersion {
        var i :| 0 <= i < n && kvs[..n][i].version == u.maxVersion && !Skipped(kvs[..n][i], floor, s.lastGcVersion);
        assert kvs[i] == kvs[..n][i];
      }
    }
  }

  /** The state that the mutations of `d` are applied to. */
  function Prepared(s: State, d: NodeDelta): State { if Prepare(s, d).Reset? then ResetTo(d) else s }

  lemma DeltaAppliesToPrepared(s: State, d: NodeDelta, now: Instant)
    requires !Prepare(s, d).Refuse?
    ensures ApplyDelta(s, d, now) == ApplyMutations(Prepared(s, d), d.keyValues, Prepared(s, d).maxVersion, now)
  {
  }

  /** In sync, the replica does not refuse what the owner sends. */
  lemma WholeDeltaIsApplied(p: Pair, d: NodeDelta)
    requires InSync(p)
    requires IsNodeDelta(p.owner, FromVersion(p.owner, DigestFor(p.replica)), d) && IsWhole(p.owner, d)
    ensures !Prepare(p.replica, d).Refuse?
    ensures Prepared(p.replica, d).maxVersion <= p.owner.maxVersion
  {
    hide HoldsCurrent, HoldsOnlyWritten, LacksOnlyCollectable, StrictlyIncreasing, Carries, MaxVersionOf;
    FreshnessTestNeverFires(p.replica, d);
  }

  lemma WholeHandshakeKeeps(p: Pair, d: NodeDelta, now: Instant)
    requires InSync(p) && !AtBoundary(p.owner, p.replica)
    requires IsNodeDelta(p.owner, FromVersion(p.owner, DigestFor(p.replica)), d)
    ensures ReplicaOf(p.log, ApplyDelta(p.replica, d, now))
    ensures Prepare(p.replica, d).Reset? ==> d.fromVersionExcluded == 0
  {
    hide ReplicaOf, DeltaOf, IsNodeDelta, ApplyDelta, Prepare, AtBoundary;
    SenderMakesDelta(p.log, p.owner, FromVersion(p.owner, DigestFor(p.replica)), d);
    HandshakeIsSafe(p, d);
    SafeDeliveryKeepsReplica(p.log, p.replica, d, now);
  }

  /** A record of the owner above what the replica has then is carried by a whole delta. */
  lemma CarriedRecord(p: Pair, d: NodeDelta, k: Text) returns (i: nat)
    requires InSync(p) && k in p.owner.keyValues && d.fromVersionExcluded < p.owner.keyValues[k].version
    requires IsNodeDelta(p.owner, d.fromVersionExcluded, d) && IsWhole(p.owner, d)
    ensures i < |d.keyValues| && d.keyValues[i] == ToMutation(k, p.owner.keyValues[k])
  {
    hide HoldsCurrent, LacksOnlyCollectable, StrictlyIncreasing;
    i :| 0 <= i < |d.keyValues| && d.keyValues[i].version == p.owner.keyValues[k].version;
    var key := d.keyValues[i].key;
    assert p.log[d.keyValues[i].version - 1] == ToMutation(key, p.owner.keyValues[key]);
    assert p.log[p.owner.keyValues[k].version - 1] == ToMutation(k, p.owner.keyValues[k]);
  }

  /** A record of the owner is at the replica after a whole delta, unless it is scheduled for deletion and the
      replica has collected that far. */
  lemma WholeHandshakeDelivers(p: Pair, d: NodeDelta, now: Instant, k: Text)
    requires InSync(p) && !AtBoundary(p.owner, p.replica) && k in p.owner.keyValues
    requires IsNodeDelta(p.owner, FromVersion(p.owner, DigestFor(p.replica)), d) && IsWhole(p.owner, d)
    ensures var r, vv := ApplyDelta(p.replica, d, now), p.owner.keyValues[k];
            || (k in r.keyValues && ToMutation(k, r.keyValues[k]) == ToMutation(k, vv))
            || (k !in r.keyValues && vv.status.ScheduledForDeletion() && vv.version <= r.lastGcVersion)
  {
    hide IsWhole, AtBoundary, IsNodeDelta, ApplyMutations, Latest;
    var r, vv, s := ApplyDelta(p.replica, d, now), p.owner.keyValues[k], Prepared(p.replica, d);
    WholeHandshakeKeeps(p, d, now);
    WholeDeltaIsApplied(p, d);
    DeltaAppliesToPrepared(p.replica, d, now);
    MutationsEffect(s, d.keyValues, s.maxVersion, now);
    StartsWhereAsked(p, d);
    if vv.version <= r.maxVersion {
      ReplicaHoldsOwnersRecords(p.log, p.owner, r, k);
    } else {
      var i := CarriedRecord(p, d, k);
      assert Skipped(d.keyValues[i], s.maxVersion, s.lastGcVersion);
      assert vv.version == Latest(p.log, k);
    }
  }

  lemma StartsWhereAsked(p: Pair, d: NodeDelta)
    requires IsNodeDelta(p.owner, FromVersion(p.owner, DigestFor(p.replica)), d)
    ensures d.fromVersionExcluded == FromVersion(p.owner, DigestFor(p.replica))
  {
  }

  lemma NewestArrives(p: Pair, d: NodeDelta, now: Instant, k: Text)
    requires InSync(p) && p.replica.maxVersion < p.owner.maxVersion && !Prepare(p.replica, d).Refuse?
    requires Prepare(p.replica, d).Reset? ==> d.fromVersionExcluded == 0
    requires IsNodeDelta(p.owner, d.fromVersionExcluded, d) && IsWhole(p.owner, d)
    requires NewestIsHeld(p.owner, k, Prepared(p.replica, d).lastGcVersion)
    ensures p.owner.maxVersion <= ApplyDelta(p.replica, d, now).maxVersion
  {
    hide InSync, IsWhole, IsNodeDelta, ApplyMutations;
    var s := Prepared(p.replica, d);
    DeltaAppliesToPrepared(p.replica, d, now);
    MutationsEffect(s, d.keyValues, s.maxVersion, now);
    var i := CarriedRecord(p, d, k);
    assert !Skipped(d.keyValues[i], s.maxVersion, s.lastGcVersion);
  }

  lemma OnlyNewestCatchesUp(p: Pair, d: NodeDelta, now: Instant) returns (k: Text)
    requires p.replica.maxVersion < p.owner.maxVersion && !Prepare(p.replica, d).Refuse?
    requires IsNodeDelta(p.owner, d.fromVersionExcluded, d) && d.keyValues != []
    requires ApplyDelta(p.replica, d, now).maxVersion == p.owner.maxVersion
    ensures NewestIsHeld(p.owner, k, Prepared(p.replica, d).lastGcVersion)
  {
    hide ApplyMutations, StrictlyIncreasing;
    var s := Prepared(p.replica, d);
    DeltaAppliesToPrepared(p.replica, d, now);
    MaxVersionOrigin(s, d.keyValues, s.maxVersion, now);
    var i :| 0 <= i < |d.keyValues| && d.keyValues[i].version == p.owner.maxVersion
             && !Skipped(d.keyValues[i], s.maxVersion, s.lastGcVersion);
    k := d.keyValues[i].key;
  }

  /** Whether the replica then stands at the owner's `max_version`: exactly if the newest record is still held by
      the owner and not already collected here, or if a reset announced the version because no record is left.
      Otherwise the replica has every record but stays behind, and the owner goes on sending it nothing. */
  lemma WholeHandshakeCatchesUpExactly(p: Pair, d: NodeDelta, now: Instant)
    requires InSync(p) && !AtBoundary(p.owner, p.replica) && p.replica.maxVersion < p.owner.maxVersion
    requires IsNodeDelta(p.owner, FromVersion(p.owner, DigestFor(p.replica)), d) && IsWhole(p.owner, d)
    ensures ApplyDelta(p.replica, d, now).maxVersion == p.owner.maxVersion <==>
            || (Prepare(p.replica, d).Reset? && d.keyValues == [])
            || exists k :: NewestIsHeld(p.owner, k, Prepared(p.replica, d).lastGcVersion)
  {
    hide AtBoundary, IsNodeDelta, NewestIsHeld, HoldsCurrent, HoldsOnlyWritten, LacksOnlyCollectable;
    var r := ApplyDelta(p.replica, d, now);
    WholeHandshakeKeeps(p, d, now);
    WholeDeltaIsApplied(p, d);
    StartsWhereAsked(p, d);
    if k :| NewestIsHeld(p.owner, k, Prepared(p.replica, d).lastGcVersion) {
      NewestArrives(p, d, now, k);
    }
    if r.maxVersion == p.owner.maxVersion && d.keyValues != [] {
      var k := OnlyNewestCatchesUp(p, d, now);
    }
  }

  predicate NewestIsHeld(o: State, k: Text, lastGc: Version) {
    && k in o.keyValues && o.keyValues[k].version == o.maxVersion
    && !(o.keyValues[k].status.ScheduledForDeletion() && o.maxVersion <= lastGc)
  }
}
