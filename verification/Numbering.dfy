/** Every record of a node has a version of its own, whatever is delivered, collected or reset: what the assertion
on the delta builder rests on (chitchat/src/delta.rs, chitchat/src/state.rs). */
module Numbering {
  import opened ChitchatTypes
  import opened NodeStates
  import opened NodeRuns
  import opened FailureDetectors
  import opened Gossip
  import opened Scuttlebutt

  // ----- one state -----

  ghost predicate DistinctVersions(s: State) {
    forall k, l :: k in s.keyValues && l in s.keyValues && s.keyValues[k].version == s.keyValues[l].version ==> k == l
  }

  ghost predicate AllAtMost(s: State, bound: Version) {
    forall k :: k in s.keyValues ==> s.keyValues[k].version <= bound
  }

  ghost predicate Numbered(s: State) {
    DistinctVersions(s) && AllAtMost(s, s.maxVersion)
  }

  lemma WriteKeepsNumbers(s: State, w: Write, now: Instant)
    requires Numbered(s)
    ensures Numbered(ApplyWrite(s, w, now))
  {
  }

  lemma CollectKeepsNumbers(s: State, now: Instant, grace: Duration, t: State)
    requires Numbered(s) && Collected(s, now, grace, t)
    ensures Numbered(t)
  {
  }

  /** A record above all others is added without disturbing them. */
  lemma NewestKeepsNumbers(s: State, key: Text, vv: VersionedValue, bound: Version)
    requires Numbered(s) && AllAtMost(s, bound) && bound < vv.version
    ensures Numbered(SetVersioned(s, key, vv)) && AllAtMost(SetVersioned(s, key, vv), vv.version)
  {
  }

  lemma MutationKeepsNumbers(s: State, m: KeyValueMutation, floor: Version, now: Instant, bound: Version)
    requires Numbered(s) && AllAtMost(s, bound) && (floor < m.version ==> bound < m.version)
    ensures var t := ApplyMutation(s, m, floor, now);
            Numbered(t) && AllAtMost(t, Max(bound, m.version))
  {
    hide Numbered, SetVersioned;
    if !Skipped(m, floor, s.lastGcVersion) {
      NewestKeepsNumbers(s, m.key, VersionedValue(m.value, m.version, m.status.IntoStatus(now)), bound);
    }
  }

  function LastOr(kvs: seq<KeyValueMutation>, floor: Version): Version {
    if kvs == [] then floor else Max(floor, kvs[|kvs| - 1].version)
  }

  lemma {:induction false} MutationsKeepNumbers(s: State, kvs: seq<KeyValueMutation>, floor: Version, now: Instant)
    requires Numbered(s) && AllAtMost(s, floor) && StrictlyIncreasing(kvs)
    ensures var t := ApplyMutations(s, kvs, floor, now);
            Numbered(t) && AllAtMost(t, LastOr(kvs, floor))
  {
    hide Numbered, ApplyMutation;
    if kvs != [] {
      var n := |kvs| - 1;
      MutationsKeepNumbers(s, kvs[..n], floor, now);
      MutationKeepsNumbers(ApplyMutations(s, kvs[..n], floor, now), kvs[n], floor, now, LastOr(kvs[..n], floor));
    }
  }

  /** Any delta whose records are in order, safe or not, keeps the versions of a state apart. */
  lemma DeltaKeepsNumbers(s: State, d: NodeDelta, now: Instant)
    requires Numbered(s) && StrictlyIncreasing(d.keyValues)
    ensures Numbered(ApplyDelta(s, d, now))
  {
    hide ApplyMutations;
    match Prepare(s, d)
    case Refuse =>
    case Keep =>
      MutationsKeepNumbers(s, d.keyValues, s.maxVersion, now);
    case Reset =>
      MutationsKeepNumbers(ResetTo(d), d.keyValues, ResetTo(d).maxVersion, now);
  }

  // ----- one peer -----

  ghost predicate NumberedView(view: View) {
    forall o :: o in view ==> Numbered(view[o])
  }

  lemma NumberedIsDistinct(view: View)
    requires NumberedView(view)
    ensures forall o :: o in view ==> DistinctVersions(view[o])
  {
    forall o | o in view ensures DistinctVersions(view[o]) {
      assert Numbered(view[o]);
    }
  }

  ghost predicate VersionsInOrder(ds: seq<NodeDelta>) {
    forall i :: 0 <= i < |ds| ==> StrictlyIncreasing(ds[i].keyValues)
  }

  lemma EmptyIsNumbered(heartbeat: nat)
    ensures Numbered(EMPTY.(heartbeat := heartbeat))
  {
  }

  lemma HeartbeatKeepsNumbers(s: State, heartbeat: nat)
    requires Numbered(s)
    ensures Numbered(s.(heartbeat := heartbeat))
  {
  }

  lemma BumpKeepsNumbers(p: Peer)
    requires NumberedView(p.view)
    ensures NumberedView(BumpSelf(p).view)
  {
    hide Numbered;
    EmptyIsNumbered(0);
    HeartbeatKeepsNumbers(NodeOf(p.view, p.id), BumpSelf(p).view[p.id].heartbeat);
  }

  lemma ReportKeepsNumbers(p: Peer, digest: Digest, now: Instant)
    requires NumberedView(p.view)
    ensures NumberedView(ReportHeartbeats(p, digest, now).view)
  {
    hide Numbered, Heard, FreshHeartbeats;
    var q := ReportHeartbeats(p, digest, now);
    EmptyIsNumbered(0);
    forall o | o in q.view ensures Numbered(q.view[o]) {
      HeartbeatKeepsNumbers(NodeOf(p.view, o), q.view[o].heartbeat);
    }
  }

  lemma {:induction false} DeltasKeepNumbers(view: View, ds: seq<NodeDelta>, now: Instant)
    requires NumberedView(view) && VersionsInOrder(ds)
    ensures NumberedView(ApplyAll(view, ds, now))
  {
    hide Numbered, ApplyDelta, StrictlyIncreasing;
    if ds != [] {
      var n := |ds| - 1;
      DeltasKeepNumbers(view, ds[..n], now);
      EmptyIsNumbered(0);
      DeltaKeepsNumbers(NodeOf(ApplyAll(view, ds[..n], now), ds[n].id), ds[n], now);
    }
  }

  lemma AnswerIsInOrder(view: View, digest: Digest, scheduled: set<ChitchatId>, delta: Delta)
    requires IsPartialDelta(view, digest, scheduled, delta)
    ensures VersionsInOrder(delta.nodeDeltas)
  {
  }

  lemma ReceiveKeepsNumbers(p: Peer, msg: Message, now: Instant, q: Peer, reply: Option<Message>)
    requires NumberedView(p.view) && VersionsInOrder(DeltasIn(msg)) && Received(p, msg, now, q, reply)
    ensures NumberedView(q.view)
    ensures reply.Some? ==> VersionsInOrder(DeltasIn(reply.value))
  {
    hide NumberedView, VersionsInOrder, IsPartialDelta, BumpSelf, ReportHeartbeats, ApplyAll, ComputeDigest;
    var bumped := BumpSelf(p);
    BumpKeepsNumbers(p);
    NothingIsInOrder();
    match msg
    case Syn(clusterId, digest) =>
      if clusterId == p.clusterId {
        ReportKeepsNumbers(bumped, digest, now);
        AnswerIsInOrder(q.view, digest, Scheduled(q, now), reply.value.delta);
      }
    case SynAck(digest, delta) =>
      ReportKeepsNumbers(bumped, digest, now);
      DeltasKeepNumbers(ReportHeartbeats(bumped, digest, now).view, delta.nodeDeltas, now);
      AnswerIsInOrder(q.view, digest, Scheduled(q, now), reply.value.delta);
    case Ack(delta) =>
      DeltasKeepNumbers(bumped.view, delta.nodeDeltas, now);
    case BadCluster =>
  }

  lemma NothingIsInOrder()
    ensures VersionsInOrder([])
  {
  }

  lemma CollectedKeysKeepNumbers(p: Peer, now: Instant, q: Peer)
    requires NumberedView(p.view) && CollectedKeys(p, now, q)
    ensures NumberedView(q.view)
  {
    hide Numbered, Collected;
    forall o | o in q.view ensures Numbered(q.view[o]) {
      CollectKeepsNumbers(p.view[o], now, p.keyGrace, q.view[o]);
    }
  }

  // ----- every run -----

  ghost predicate NumberedSystem(s: System) {
    && (forall n :: n in s.peers ==> NumberedView(s.peers[n].view))
    && (forall msg :: msg in s.network ==> VersionsInOrder(DeltasIn(msg)))
  }

  lemma PeerStepKeepsNumbers(s: System, at: ChitchatId, t: System)
    requires NumberedSystem(s) && at in s.peers && t.peers.Keys == s.peers.Keys
    requires forall n :: n in s.peers && n != at ==> t.peers[n] == s.peers[n]
    requires NumberedView(t.peers[at].view)
    requires forall msg :: msg in t.network && msg !in s.network ==> VersionsInOrder(DeltasIn(msg))
    ensures NumberedSystem(t)
  {
    hide NumberedView, VersionsInOrder;
    forall n | n in t.peers ensures NumberedView(t.peers[n].view) {
      assert n != at ==> t.peers[n] == s.peers[n];
    }
  }

  lemma LivenessKeepsNumbers(p: Peer, now: Instant)
    requires NumberedView(p.view) && p.cfg.Valid() && AllSampled(p.cfg, p.detector)
    ensures NumberedView(UpdateNodesLiveness(p, now).view)
  {
    hide Numbered, UpdateAll, AllSampled;
  }

  lemma WriteAtKeepsNumbers(view: View, at: ChitchatId, w: Write, now: Instant)
    requires NumberedView(view) && at in view
    ensures NumberedView(view[at := ApplyWrite(view[at], w, now)])
  {
    hide Numbered, ApplyWrite;
    WriteKeepsNumbers(view[at], w, now);
  }

  lemma StepKeepsNumbers(s: System, step: Step, t: System)
    requires NumberedSystem(s) && Next(s, step, t)
    ensures NumberedSystem(t)
  {
    hide NumberedView, VersionsInOrder, ApplyWrite, CollectedKeys, UpdateNodesLiveness;
    hide BumpSelf, ComputeDigest, Received, AllSampled;
    var p, q := s.peers[step.at], t.peers[step.at];
    NothingIsInOrder();
    match step
    case DoWrite(at, w, now) =>
      WriteAtKeepsNumbers(p.view, at, w, now);
      PeerStepKeepsNumbers(s, at, t);
    case DoCollectKeys(at, now) =>
      CollectedKeysKeepNumbers(p, now, q);
      PeerStepKeepsNumbers(s, at, t);
    case DoUpdateLiveness(at, now) =>
      LivenessKeepsNumbers(p, now);
      PeerStepKeepsNumbers(s, at, t);
    case DoGossip(at, now) =>
      BumpKeepsNumbers(p);
      PeerStepKeepsNumbers(s, at, t);
    case DoReceive(at, msg, now) =>
      var reply :| Received(p, msg, now, q, reply)
                   && t.network == s.network + (if reply.Some? then {reply.value} else {});
      ReceiveKeepsNumbers(p, msg, now, q, reply);
      PeerStepKeepsNumbers(s, at, t);
  }

  lemma InitialIsNumbered(s: System)
    requires Initial(s)
    ensures NumberedSystem(s)
  {
    hide Numbered;
    EmptyIsNumbered(1);
  }

  /** In every run, with collections, deliveries that do harm and resets of owners, the records of every node in every
      view have distinct versions, at most its `max_version`, and the records of every delta in flight are in order. */
  lemma {:induction false} EveryRunIsNumbered(states: seq<System>, steps: seq<Step>, n: nat)
    requires IsExecution(states, steps) && n < |states|
    ensures NumberedSystem(states[n])
  {
    hide Next, NumberedSystem, Initial;
    if n == 0 {
      InitialIsNumbered(states[0]);
    } else {
      EveryRunIsNumbered(states, steps, n - 1);
      StepKeepsNumbers(states[n - 1], steps[n - 1], states[n]);
    }
  }
}
