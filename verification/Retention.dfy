/** How long deleted keys are kept (chitchat/src/state.rs, `gc_keys_marked_for_deletion`). */
module Retention {
  import opened ChitchatTypes
  import opened NodeStates
  import opened NodeRuns
  import opened Gossip
  import opened Scuttlebutt

  // ----- one collection -----

  /** A record is due when it has been deleted, or given a time to live, for the grace period. */
  predicate IsDue(vv: VersionedValue, now: Instant, grace: Duration) {
    match vv.status
    case Set => false
    case Deleted(since) => since + grace <= now
    case DeleteAfterTtl(since) => since + grace <= now
  }

  /** A collection drops exactly the records that are due, and leaves the others as they are. */
  lemma CollectsExactly(s: State, now: Instant, grace: Duration, t: State, k: Text)
    requires Collected(s, now, grace, t)
    ensures k in t.keyValues <==> k in s.keyValues && !IsDue(s.keyValues[k], now, grace)
    ensures k in t.keyValues ==> t.keyValues[k] == s.keyValues[k]
  {
  }

  /** `last_gc_version` becomes the greatest version that was dropped, if that is greater. */
  lemma GcVersionMovesExactly(s: State, now: Instant, grace: Duration, t: State)
    requires Collected(s, now, grace, t)
    ensures t.lastGcVersion != s.lastGcVersion <==>
            exists k :: k in s.keyValues && k !in t.keyValues && s.lastGcVersion < s.keyValues[k].version
    ensures forall k :: k in s.keyValues && k !in t.keyValues ==> s.keyValues[k].version <= t.lastGcVersion
    ensures t.lastGcVersion != s.lastGcVersion ==>
              exists k :: k in s.keyValues && IsDue(s.keyValues[k], now, grace)
                          && s.keyValues[k].version == t.lastGcVersion
  {
  }

  // ----- runs -----

  /** The operation may change the record of `k`, other than by collecting it. */
  predicate Touches(s: State, op: NodeOp, k: Text) {
    match op
    case Local(w) => w.key == k
    case Receive(d) => Prepare(s, d).Reset? || exists i :: 0 <= i < |d.keyValues| && d.keyValues[i].key == k
    case Collect(_) => false
  }

  lemma {:induction false} MutationsElsewhere(
      s: State, kvs: seq<KeyValueMutation>, floor: Version, now: Instant, k: Text)
    requires forall i :: 0 <= i < |kvs| ==> kvs[i].key != k
    ensures var t := ApplyMutations(s, kvs, floor, now).keyValues;
            (k in t <==> k in s.keyValues) && (k in t ==> t[k] == s.keyValues[k])
  {
    if kvs != [] {
      MutationsElsewhere(s, kvs[..|kvs| - 1], floor, now, k);
    }
  }

  lemma StepElsewhere(s: State, op: NodeOp, now: Instant, t: State, k: Text)
    requires NodeStep(s, op, now, t) && !Touches(s, op, k) && !op.Collect?
    ensures (k in t.keyValues <==> k in s.keyValues) && (k in t.keyValues ==> t.keyValues[k] == s.keyValues[k])
  {
    match op
    case Local(w) =>
    case Receive(d) =>
      MutationsElsewhere(s, d.keyValues, s.maxVersion, now, k);
  }

  /** A record that was deleted, or given a time to live, in step `i` and not touched since is still there after any
      number of steps if and only if no collection among them came as late as its grace period. */
  lemma {:induction false} DeletedKeyLasts(
      states: seq<State>, ops: seq<NodeOp>, times: seq<Instant>, i: nat, n: nat, k: Text)
    requires IsRun(states, ops, times) && i < n < |states|
    requires k in states[i + 1].keyValues
    requires var status := states[i + 1].keyValues[k].status;
             status == Deleted(times[i]) || status == DeleteAfterTtl(times[i])
    requires forall m :: i < m < n ==> !Touches(states[m], ops[m], k)
    ensures k in states[n].keyValues <==>
            forall m :: i < m < n && ops[m].Collect? ==> times[m] < times[i] + ops[m].grace
    ensures k in states[n].keyValues ==> states[n].keyValues[k] == states[i + 1].keyValues[k]
  {
    if i + 1 < n {
      var m := n - 1;
      DeletedKeyLasts(states, ops, times, i, m, k);
      assert NodeStep(states[m], ops[m], times[m], states[n]);
      if ops[m].Collect? {
        CollectsExactly(states[m], times[m], ops[m].grace, states[n], k);
      } else {
        StepElsewhere(states[m], ops[m], times[m], states[n], k);
      }
    }
  }

  // ----- peers -----

  /** A peer collects of every node that it knows exactly the records due after its own grace period. */
  lemma CollectStepExactly(s: System, at: ChitchatId, now: Instant, t: System, o: ChitchatId, k: Text)
    requires Next(s, DoCollectKeys(at, now), t)
    ensures o in t.peers[at].view <==> o in s.peers[at].view
    ensures var before, after := NodeOf(s.peers[at].view, o).keyValues, NodeOf(t.peers[at].view, o).keyValues;
            && (k in after <==> k in before && !IsDue(before[k], now, s.peers[at].keyGrace))
            && (k in after ==> after[k] == before[k])
  {
    hide Collected;
    var p, q := s.peers[at], t.peers[at];
    if o in p.view {
      CollectsExactly(p.view[o], now, p.keyGrace, q.view[o], k);
    }
  }
}
