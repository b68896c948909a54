/** What every run of local writes, received deltas and key collections keeps of one node state. */
module NodeRuns {
  import opened ChitchatTypes
  import opened NodeStates

  datatype Write =
    | WriteSet(key: Text, value: Text)
    | WriteWithTtl(key: Text, value: Text)
    | WriteDelete(key: Text)
    | WriteDeleteAfterTtl(key: Text)

  function ApplyWrite(s: State, w: Write, now: Instant): State {
    match w
    case WriteSet(k, v) => SetKey(s, k, v)
    case WriteWithTtl(k, v) => SetKeyWithTtl(s, k, v, now)
    case WriteDelete(k) => DeleteKey(s, k, now)
    case WriteDeleteAfterTtl(k) => DeleteKeyAfterTtl(s, k, now)
  }

  datatype NodeOp = Local(write: Write) | Receive(delta: NodeDelta) | Collect(grace: Duration)

  ghost predicate NodeStep(s: State, op: NodeOp, now: Instant, t: State) {
    match op
    case Local(w) => t == ApplyWrite(s, w, now)
    case Receive(d) => t == ApplyDelta(s, d, now)
    case Collect(grace) => Collected(s, now, grace, t)
  }

  /** What a write leaves behind: the key as written, with a version of its own if anything changed, and nothing
      else touched. */
  lemma WriteTakesEffect(s: State, w: Write, now: Instant)
    requires w.key in s.keyValues ==> s.keyValues[w.key].version <= s.maxVersion
    ensures var t := ApplyWrite(s, w, now);
            && t.keyValues - {w.key} == s.keyValues - {w.key}
            && t.heartbeat == s.heartbeat && t.lastGcVersion == s.lastGcVersion
            && (t != s ==> w.key in t.keyValues && t.keyValues[w.key].version == t.maxVersion == s.maxVersion + 1)
    ensures var t := ApplyWrite(s, w, now).keyValues;
            match w
            case WriteSet(key, value) => key in t && t[key].value == value && t[key].status.Set?
            case WriteWithTtl(key, value) =>
              && key in t && t[key].value == value && t[key].status.DeleteAfterTtl?
              && (t != s.keyValues ==> t[key].status == DeleteAfterTtl(now))
            case WriteDelete(key) =>
              if key in s.keyValues then key in t && t[key].value == [] && t[key].status == Deleted(now)
              else t == s.keyValues
            case WriteDeleteAfterTtl(key) =>
              if key in s.keyValues then
                key in t && t[key].value == s.keyValues[key].value && t[key].status == DeleteAfterTtl(now)
              else t == s.keyValues
  {
  }

  /** A write changes nothing exactly if it sets what is there already, or deletes what is not. */
  lemma WriteIsFreeExactly(s: State, w: Write, now: Instant)
    requires w.key in s.keyValues ==> s.keyValues[w.key].version <= s.maxVersion
    ensures ApplyWrite(s, w, now) == s <==>
            match w
            case WriteSet(key, value) =>
              key in s.keyValues && s.keyValues[key].value == value && s.keyValues[key].status == Set
            case WriteWithTtl(key, value) =>
              key in s.keyValues && s.keyValues[key].value == value
              && exists since :: s.keyValues[key].status == DeleteAfterTtl(since)
            case WriteDelete(key) => key !in s.keyValues
            case WriteDeleteAfterTtl(key) => key !in s.keyValues
  {
    if w.key in s.keyValues && s.keyValues[w.key].status.DeleteAfterTtl? {
      assert s.keyValues[w.key].status == DeleteAfterTtl(s.keyValues[w.key].status.since);
    }
  }

  /** Heartbeats may arrive in any order: the greatest one stays, and it is news only after a first one. */
  lemma HeartbeatsMerge(s: State, a: nat, b: nat)
    ensures var (t, _) := TrySetHeartbeat(s, a);
            var (u, isNews) := TrySetHeartbeat(t, b);
            && u == s.(heartbeat := Max(s.heartbeat, Max(a, b)))
            && (isNews <==> 0 < Max(s.heartbeat, a) < b)
  {
  }

  /** A run: `states[i]` becomes `states[i + 1]` by `ops[i]` at `times[i]`. */
  ghost predicate IsRun(states: seq<State>, ops: seq<NodeOp>, times: seq<Instant>) {
    && |states| == |ops| + 1
    && |times| == |ops|
    && states[0] == EMPTY
    && (forall i :: 0 <= i < |ops| ==> NodeStep(states[i], ops[i], times[i], states[i + 1]))
  }

  // ----- applying the mutations of a delta -----

  lemma {:induction false} MutationsEffect(s: State, kvs: seq<KeyValueMutation>, floor: Version, now: Instant)
    ensures var t := ApplyMutations(s, kvs, floor, now);
            && t.lastGcVersion == s.lastGcVersion
            && t.heartbeat == s.heartbeat
            && s.maxVersion <= t.maxVersion
            && forall i :: 0 <= i < |kvs| ==>
                 Skipped(kvs[i], floor, s.lastGcVersion) || kvs[i].version <= t.maxVersion
  {
    if kvs != [] {
      MutationsEffect(s, kvs[..|kvs| - 1], floor, now);
    }
  }

  lemma {:induction false} MutationsAllSkipped(s: State, kvs: seq<KeyValueMutation>, floor: Version, now: Instant)
    requires forall i :: 0 <= i < |kvs| ==> Skipped(kvs[i], floor, s.lastGcVersion)
    ensures ApplyMutations(s, kvs, floor, now) == s
  {
    if kvs != [] {
      MutationsAllSkipped(s, kvs[..|kvs| - 1], floor, now);
    }
  }

  /** The "does not bring us to a fresher state" test of `prepare_apply_delta` never fires. */
  lemma FreshnessTestNeverFires(s: State, d: NodeDelta)
    ensures Prepare(s, d).Reset? <==>
              && d.fromVersionExcluded <= s.maxVersion <= d.lastGcVersion
              && s.lastGcVersion < d.lastGcVersion
              && (d.keyValues != [] || d.maxVersion.Some?)
  {
  }

  /** Receiving a delta twice, at whatever instants, is receiving it once. */
  lemma DeltaIdempotent(s: State, d: NodeDelta, now: Instant, later: Instant)
    ensures ApplyDelta(ApplyDelta(s, d, now), d, later) == ApplyDelta(s, d, now)
  {
    var t := ApplyDelta(s, d, now);
    match Prepare(s, d)
    case Refuse =>
    case Keep =>
      MutationsEffect(s, d.keyValues, s.maxVersion, now);
      MutationsAllSkipped(t, d.keyValues, t.maxVersion, later);
    case Reset =>
      MutationsEffect(ResetTo(d), d.keyValues, ResetTo(d).maxVersion, now);
      MutationsAllSkipped(t, d.keyValues, t.maxVersion, later);
  }

  // ----- (last_gc_version, max_version) never goes back -----

  ghost predicate Progress(s: State, t: State) {
    LexLessOrEqual(s.lastGcVersion, s.maxVersion, t.lastGcVersion, t.maxVersion)
  }

  lemma StepProgress(s: State, op: NodeOp, now: Instant, t: State)
    requires NodeStep(s, op, now, t)
    ensures Progress(s, t)
    ensures op.Receive? && Prepare(s, op.delta).Reset? ==> s.lastGcVersion < t.lastGcVersion
  {
    if op.Receive? {
      var d := op.delta;
      MutationsEffect(s, d.keyValues, s.maxVersion, now);
      MutationsEffect(ResetTo(d), d.keyValues, ResetTo(d).maxVersion, now);
    }
  }

  /** Along every run the pair only grows, and every reset makes it grow strictly. */
  lemma {:induction false} RunProgress(states: seq<State>, ops: seq<NodeOp>, times: seq<Instant>, i: nat, j: nat)
    requires IsRun(states, ops, times)
    requires i <= j < |states|
    ensures Progress(states[i], states[j])
    ensures forall r :: i <= r < j && ops[r].Receive? && Prepare(states[r], ops[r].delta).Reset? ==>
                          !Progress(states[j], states[i])
    decreases j - i
  {
    if i < j {
      StepProgress(states[i], ops[i], times[i], states[i + 1]);
      RunProgress(states, ops, times, i + 1, j);
    }
  }

  // ----- the retained tombstones are the young ones -----

  /** Scheduled entries are younger than the last collection, and their version order is the order
      of the instants at which they were scheduled. */
  ghost predicate TombstonesInOrder(s: State, now: Instant) {
    && (forall k :: k in s.keyValues ==> s.keyValues[k].version <= s.maxVersion)
    && (forall k :: k in s.keyValues && s.keyValues[k].status.ScheduledForDeletion() ==>
                      s.lastGcVersion < s.keyValues[k].version && s.keyValues[k].status.since <= now)
    && (forall k, l :: k in s.keyValues && l in s.keyValues
                       && s.keyValues[k].status.ScheduledForDeletion()
                       && s.keyValues[l].status.ScheduledForDeletion()
                       && s.keyValues[k].version <= s.keyValues[l].version ==>
                         s.keyValues[k].status.since <= s.keyValues[l].status.since)
  }

  ghost predicate ScheduledNow(s: State, floor: Version, now: Instant) {
    forall k :: k in s.keyValues && s.keyValues[k].status.ScheduledForDeletion() && floor < s.keyValues[k].version ==>
                  s.keyValues[k].status.since == now
  }

  lemma NewestKeepsOrder(s: State, key: Text, u: VersionedValue, floor: Version, now: Instant)
    requires TombstonesInOrder(s, now) && ScheduledNow(s, floor, now) && floor < u.version
    requires u.status.ScheduledForDeletion() ==> u.status.since == now && s.lastGcVersion < u.version
    ensures var t := SetVersioned(s, key, u);
            TombstonesInOrder(t, now) && ScheduledNow(t, floor, now)
  {
    hide DeletionStatus.ScheduledForDeletion;
  }

  lemma MutationKeepsOrder(s: State, m: KeyValueMutation, floor: Version, now: Instant)
    requires TombstonesInOrder(s, now) && ScheduledNow(s, floor, now)
    ensures var t := ApplyMutation(s, m, floor, now);
            TombstonesInOrder(t, now) && ScheduledNow(t, floor, now)
  {
    hide TombstonesInOrder, ScheduledNow, SetVersioned;
    if !Skipped(m, floor, s.lastGcVersion) {
      NewestKeepsOrder(s, m.key, VersionedValue(m.value, m.version, m.status.IntoStatus(now)), floor, now);
    }
  }

  lemma {:induction false} MutationsKeepOrder(s: State, kvs: seq<KeyValueMutation>, floor: Version, now: Instant)
    requires TombstonesInOrder(s, now)
    requires s.maxVersion <= floor
    ensures var t := ApplyMutations(s, kvs, floor, now);
            TombstonesInOrder(t, now) && ScheduledNow(t, floor, now)
  {
    assert ScheduledNow(s, floor, now);
    hide TombstonesInOrder, ScheduledNow, ApplyMutation;
    if kvs != [] {
      var n := |kvs| - 1;
      MutationsKeepOrder(s, kvs[..n], floor, now);
      MutationKeepsOrder(ApplyMutations(s, kvs[..n], floor, now), kvs[n], floor, now);
    }
  }

  lemma CollectKeepsOrder(s: State, now: Instant, grace: Duration, t: State)
    requires TombstonesInOrder(s, now)
    requires Collected(s, now, grace, t)
    ensures TombstonesInOrder(t, now)
  {
    if t.lastGcVersion != s.lastGcVersion {
      // an entry at or below the newest collected one is at least as old, so it is gone too
      var dead :| dead in s.keyValues && Expired(s.keyValues[dead], now, grace)
                  && s.keyValues[dead].version == t.lastGcVersion;
      assert forall k :: k in t.keyValues ==> k in s.keyValues && !Expired(s.keyValues[k], now, grace);
    }
  }

  lemma PutKeepsOrder(s: State, key: Text, vv: VersionedValue, now: Instant)
    requires TombstonesInOrder(s, now) && s.lastGcVersion <= s.maxVersion < vv.version
    requires vv.status.ScheduledForDeletion() ==> vv.status.since == now
    ensures TombstonesInOrder(s.(maxVersion := vv.version, keyValues := s.keyValues[key := vv]), now)
  {
    hide DeletionStatus.ScheduledForDeletion;
  }

  lemma VersionIsAtMostMax(s: State, key: Text, now: Instant)
    requires TombstonesInOrder(s, now)
    ensures key in s.keyValues ==> s.keyValues[key].version <= s.maxVersion
  {
  }

  lemma WriteKeepsOrder(s: State, w: Write, now: Instant)
    requires TombstonesInOrder(s, now) && s.lastGcVersion <= s.maxVersion
    ensures TombstonesInOrder(ApplyWrite(s, w, now), now)
  {
    hide TombstonesInOrder;
    VersionIsAtMostMax(s, w.key, now);
    var t := ApplyWrite(s, w, now);
    if t != s {
      PutKeepsOrder(s, w.key, t.keyValues[w.key], now);
    }
  }

  lemma EmptyKeepsOrder(s: State, now: Instant)
    requires s.keyValues == map[]
    ensures TombstonesInOrder(s, now)
  {
  }

  lemma StepKeepsOrder(s: State, op: NodeOp, before: Instant, now: Instant, t: State)
    requires TombstonesInOrder(s, before)
    requires before <= now
    requires NodeStep(s, op, now, t)
    requires op.Local? ==> s.lastGcVersion <= s.maxVersion
    ensures TombstonesInOrder(t, now)
  {
    assert TombstonesInOrder(s, now);
    hide ApplyMutations, ApplyWrite, Collected, TombstonesInOrder;
    match op
    case Local(w) =>
      WriteKeepsOrder(s, w, now);
    case Receive(d) =>
      MutationsKeepOrder(s, d.keyValues, s.maxVersion, now);
      EmptyKeepsOrder(ResetTo(d), now);
      MutationsKeepOrder(ResetTo(d), d.keyValues, ResetTo(d).maxVersion, now);
    case Collect(grace) =>
      CollectKeepsOrder(s, now, grace, t);
  }

  /** With a clock that never goes back, and local writes only where `last_gc_version` has not overtaken
      `max_version`, every scheduled entry a node still holds is newer than its last collection. */
  lemma {:induction false} RetainedTombstonesAreYoung(
      states: seq<State>, ops: seq<NodeOp>, times: seq<Instant>, n: nat)
    requires IsRun(states, ops, times)
    requires forall i, j :: 0 <= i < j < |times| ==> times[i] <= times[j]
    requires forall i :: 0 <= i < |ops| && ops[i].Local? ==> states[i].lastGcVersion <= states[i].maxVersion
    requires n < |ops|
    ensures TombstonesInOrder(states[n + 1], times[n])
  {
    if n > 0 {
      RetainedTombstonesAreYoung(states, ops, times, n - 1);
      StepKeepsOrder(states[n], ops[n], times[n - 1], times[n], states[n + 1]);
    } else {
      StepKeepsOrder(states[0], ops[0], times[0], times[0], states[1]);
    }
  }
}
