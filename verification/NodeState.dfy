/** One node's versioned key-value state (chitchat/src/state.rs, `NodeState`).

`State` and the functions on it say what each operation computes; the class `NodeState` performs the
operations step by step, in place, and is proved to compute exactly those functions. */
module NodeStates {
  import opened ChitchatTypes

  datatype State = State(
    heartbeat: nat,
    keyValues: map<Text, VersionedValue>,
    maxVersion: Version,
    lastGcVersion: Version)

  const EMPTY := State(0, map[], 0, 0)

  // ----- local operations -----

  function SetVersioned(s: State, key: Text, vv: VersionedValue): State {
    var bumped := s.(maxVersion := Max(vv.version, s.maxVersion));
    if key in s.keyValues && s.keyValues[key].version >= vv.version then bumped
    else bumped.(keyValues := s.keyValues[key := vv])
  }

  function SetKey(s: State, key: Text, value: Text): State {
    if key in s.keyValues && s.keyValues[key].value == value && s.keyValues[key].status.Set? then s
    else SetVersioned(s, key, VersionedValue(value, s.maxVersion + 1, Set))
  }

  function SetKeyWithTtl(s: State, key: Text, value: Text, now: Instant): State {
    if key in s.keyValues && s.keyValues[key].value == value && s.keyValues[key].status.DeleteAfterTtl? then s
    else SetVersioned(s, key, VersionedValue(value, s.maxVersion + 1, DeleteAfterTtl(now)))
  }

  function DeleteKey(s: State, key: Text, now: Instant): State {
    if key !in s.keyValues then s
    else
      s.(maxVersion := s.maxVersion + 1,
         keyValues := s.keyValues[key := VersionedValue([], s.maxVersion + 1, Deleted(now))])
  }

  function DeleteKeyAfterTtl(s: State, key: Text, now: Instant): State {
    if key !in s.keyValues then s
    else
      s.(maxVersion := s.maxVersion + 1,
         keyValues := s.keyValues[key := VersionedValue(s.keyValues[key].value, s.maxVersion + 1, DeleteAfterTtl(now))])
  }

  /** Returns the new state and whether the value counts as a fresh heartbeat. */
  function TrySetHeartbeat(s: State, heartbeat: nat): (State, bool) {
    if s.heartbeat == 0 then (s.(heartbeat := heartbeat), false)
    else if heartbeat > s.heartbeat then (s.(heartbeat := heartbeat), true)
    else (s, false)
  }

  // ----- garbage collection of keys -----

  predicate Expired(vv: VersionedValue, now: Instant, grace: Duration) {
    vv.status.ScheduledForDeletion() && now >= vv.status.since + grace
  }

  /** `t` is `s` after a garbage collection at `now`. */
  ghost predicate Collected(s: State, now: Instant, grace: Duration, t: State) {
    && t.heartbeat == s.heartbeat
    && t.maxVersion == s.maxVersion
    && t.keyValues == (map k | k in s.keyValues && !Expired(s.keyValues[k], now, grace) :: s.keyValues[k])
    && s.lastGcVersion <= t.lastGcVersion
    && (forall k :: k in s.keyValues && Expired(s.keyValues[k], now, grace) ==>
                      s.keyValues[k].version <= t.lastGcVersion)
    && (t.lastGcVersion == s.lastGcVersion
        || exists k :: k in s.keyValues && Expired(s.keyValues[k], now, grace)
                       && s.keyValues[k].version == t.lastGcVersion)
  }

  // ----- applying a delta -----

  function MaxVersionOf(kvs: seq<KeyValueMutation>): (m: Option<Version>)
    ensures m.None? <==> kvs == []
    ensures m.Some? ==> forall i :: 0 <= i < |kvs| ==> kvs[i].version <= m.value
  {
    if kvs == [] then None
    else
      var n := |kvs| - 1;
      match MaxVersionOf(kvs[..n])
      case None => Some(kvs[n].version)
      case Some(m) => Some(Max(m, kvs[n].version))
  }

  predicate LexLessOrEqual(a: Version, b: Version, c: Version, d: Version) {
    a < c || (a == c && b <= d)
  }

  function DeltaMaxVersion(d: NodeDelta): Option<Version> {
    if d.keyValues == [] then d.maxVersion else MaxVersionOf(d.keyValues)
  }

  datatype Preparation = Refuse | Keep | Reset

  /** What `prepare_apply_delta` decides. The "inapplicable delta" warning for a positive
      `from_version_excluded` does not return: the delta may still reset the state. */
  function Prepare(s: State, d: NodeDelta): Preparation {
    if d.fromVersionExcluded > s.maxVersion then Refuse
    else if s.maxVersion > d.lastGcVersion then Keep
    else if s.lastGcVersion >= d.lastGcVersion then Keep
    else
      match DeltaMaxVersion(d)
      case None => Refuse
      case Some(m) =>
        if LexLessOrEqual(d.lastGcVersion, m, s.lastGcVersion, s.maxVersion) then Refuse else Reset
  }

  function ResetTo(d: NodeDelta): State {
    State(0, map[],
          if d.maxVersion.Some? && d.keyValues == [] then d.maxVersion.value else 0,
          d.lastGcVersion)
  }

  predicate Skipped(m: KeyValueMutation, floor: Version, lastGc: Version) {
    m.version <= floor || (m.status.ScheduledForDeletion() && m.version <= lastGc)
  }

  function ApplyMutation(s: State, m: KeyValueMutation, floor: Version, now: Instant): State {
    if Skipped(m, floor, s.lastGcVersion) then s
    else SetVersioned(s, m.key, VersionedValue(m.value, m.version, m.status.IntoStatus(now)))
  }

  function ApplyMutations(s: State, kvs: seq<KeyValueMutation>, floor: Version, now: Instant): State {
    if kvs == [] then s
    else
      var n := |kvs| - 1;
      ApplyMutation(ApplyMutations(s, kvs[..n], floor, now), kvs[n], floor, now)
  }

  function ApplyDelta(s: State, d: NodeDelta, now: Instant): State {
    match Prepare(s, d)
    case Refuse => s
    case Keep => ApplyMutations(s, d.keyValues, s.maxVersion, now)
    case Reset => ApplyMutations(ResetTo(d), d.keyValues, ResetTo(d).maxVersion, now)
  }

  // ----- the object -----

  class NodeState {
    var heartbeat: nat
    var keyValues: map<Text, VersionedValue>
    var maxVersion: Version
    var lastGcVersion: Version

    constructor (s: State)
      ensures Abs() == s
    {
      heartbeat, keyValues, maxVersion, lastGcVersion := s.heartbeat, s.keyValues, s.maxVersion, s.lastGcVersion;
    }

    function Abs(): State
      reads this
    {
      State(heartbeat, keyValues, maxVersion, lastGcVersion)
    }

    /** Listeners are notified of what is written, unless it is a deletion. */
    method SetVersionedValue(key: Text, update: VersionedValue) returns (notifies: bool)
      modifies this
      ensures Abs() == SetVersioned(old(Abs()), key, update)
      ensures notifies <==> keyValues != old(keyValues) && !update.status.Deleted?
    {
      maxVersion := Max(update.version, maxVersion);
      if key in keyValues {
        if keyValues[key].version >= update.version {
          return false;
        }
      }
      ghost var before := keyValues;
      keyValues := keyValues[key := update];
      assert key in keyValues && (key in before ==> before[key] != keyValues[key]);
      return !update.IsDeleted();
    }

    method SetValue(key: Text, value: Text)
      modifies this
      ensures Abs() == SetKey(old(Abs()), key, value)
    {
      if key in keyValues {
        var previous := keyValues[key];
        if previous.value == value && previous.status.Set? {
          return;
        }
      }
      var _ := SetVersionedValue(key, VersionedValue(value, maxVersion + 1, Set));
    }

    method SetWithTtl(key: Text, value: Text, now: Instant)
      modifies this
      ensures Abs() == SetKeyWithTtl(old(Abs()), key, value, now)
    {
      if key in keyValues {
        var previous := keyValues[key];
        if previous.value == value && previous.status.DeleteAfterTtl? {
          return;
        }
      }
      var _ := SetVersionedValue(key, VersionedValue(value, maxVersion + 1, DeleteAfterTtl(now)));
    }

    method Delete(key: Text, now: Instant)
      modifies this
      ensures Abs() == DeleteKey(old(Abs()), key, now)
    {
      if key !in keyValues {
        return;
      }
      maxVersion := maxVersion + 1;
      keyValues := keyValues[key := VersionedValue([], maxVersion, Deleted(now))];
    }

    method ScheduleDeletion(key: Text, now: Instant)
      modifies this
      ensures Abs() == DeleteKeyAfterTtl(old(Abs()), key, now)
    {
      if key !in keyValues {
        return;
      }
      maxVersion := maxVersion + 1;
      keyValues := keyValues[key := keyValues[key].(version := maxVersion, status := DeleteAfterTtl(now))];
    }

    method OfferHeartbeat(value: nat) returns (isUpdate: bool)
      modifies this
      ensures (Abs(), isUpdate) == TrySetHeartbeat(old(Abs()), value)
    {
      if heartbeat == 0 {
        heartbeat := value;
        return false;
      }
      if value > heartbeat {
        heartbeat := value;
        return true;
      }
      return false;
    }

    /** `BTreeMap::retain` visits the entries one by one; here in an arbitrary order. */
    method GcKeysMarkedForDeletion(now: Instant, grace: Duration)
      modifies this
      ensures Collected(old(Abs()), now, grace, Abs())
    {
      var maxDeletedVersion := lastGcVersion;
      var before := keyValues;
      var pending := keyValues.Keys;
      var retained: map<Text, VersionedValue> := map[];
      while pending != {}
        invariant pending <= before.Keys
        invariant retained == map k | k in before.Keys - pending && !Expired(before[k], now, grace) :: before[k]
        invariant lastGcVersion <= maxDeletedVersion
        invariant forall k :: k in before.Keys - pending && Expired(before[k], now, grace) ==>
                                before[k].version <= maxDeletedVersion
        invariant maxDeletedVersion == lastGcVersion
                  || exists k :: k in before && Expired(before[k], now, grace)
                                 && before[k].version == maxDeletedVersion
        decreases pending
      {
        var key :| key in pending;
        pending := pending - {key};
        if Expired(before[key], now, grace) {
          maxDeletedVersion := Max(before[key].version, maxDeletedVersion);
        } else {
          retained := retained[key := before[key]];
        }
      }
      keyValues := retained;
      lastGcVersion := maxDeletedVersion;
    }

    method PrepareApplyDelta(d: NodeDelta) returns (applicable: bool)
      modifies this
      ensures Prepare(old(Abs()), d).Refuse? ==> !applicable && Abs() == old(Abs())
      ensures Prepare(old(Abs()), d).Keep? ==> applicable && Abs() == old(Abs())
      ensures Prepare(old(Abs()), d).Reset? ==> applicable && Abs() == ResetTo(d)
    {
      if d.fromVersionExcluded > maxVersion {
        return false;
      }
      if maxVersion > d.lastGcVersion {
        return true;
      }
      if lastGcVersion >= d.lastGcVersion {
        return true;
      }
      var deltaMaxVersion := DeltaMaxVersion(d);
      if deltaMaxVersion.None? || LexLessOrEqual(d.lastGcVersion, deltaMaxVersion.value, lastGcVersion, maxVersion) {
        return false;
      }
      heartbeat, keyValues, maxVersion := 0, map[], 0;
      if d.maxVersion.Some? {
        if d.keyValues == [] {
          maxVersion := d.maxVersion.value;
        }
      }
      lastGcVersion := d.lastGcVersion;
      return true;
    }

    method Apply(d: NodeDelta, now: Instant)
      modifies this
      ensures Abs() == ApplyDelta(old(Abs()), d, now)
    {
      var applicable := PrepareApplyDelta(d);
      if !applicable {
        return;
      }
      ghost var prepared := Abs();
      var currentMaxVersion := maxVersion;
      for i := 0 to |d.keyValues|
        invariant Abs() == ApplyMutations(prepared, d.keyValues[..i], currentMaxVersion, now)
      {
        assert d.keyValues[..i + 1][..i] == d.keyValues[..i];
        var m := d.keyValues[i];
        if m.version <= currentMaxVersion {
          continue;
        }
        if m.status.ScheduledForDeletion() {
          if m.version <= lastGcVersion {
            continue;
          }
        }
        var _ := SetVersionedValue(m.key, VersionedValue(m.value, m.version, m.status.IntoStatus(now)));
      }
      assert d.keyValues[..|d.keyValues|] == d.keyValues;
    }
  }
}
