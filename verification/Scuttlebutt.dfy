/** The whole cluster as a transition system: any number of peers, a network that loses, duplicates, delays and
reorders messages, and the replication invariant over all of its runs. */
module Scuttlebutt {
  import opened ChitchatTypes
  import opened NodeStates
  import opened NodeRuns
  import opened Replication
  import opened FailureDetectors
  import opened Gossip

  /** Every message ever sent stays in `network`: a peer may receive it any number of times, at any later
      moment, or never. `logs` records what each owner wrote; no step reads it. */
  datatype System = System(peers: map<ChitchatId, Peer>, logs: map<ChitchatId, Log>, network: set<Message>)

  datatype Step =
    | DoWrite(at: ChitchatId, write: Write, now: Instant)
    | DoCollectKeys(at: ChitchatId, now: Instant)
    | DoUpdateLiveness(at: ChitchatId, now: Instant)
    | DoGossip(at: ChitchatId, now: Instant)
    | DoReceive(at: ChitchatId, msg: Message, now: Instant)

  ghost predicate Initial(s: System) {
    && s.logs.Keys == s.peers.Keys
    && s.network == {}
    && (forall n :: n in s.peers ==>
          && s.logs[n] == []
          && s.peers[n].id == n
          && s.peers[n].view == map[n := EMPTY.(heartbeat := 1)]
          && s.peers[n].cfg.Valid()
          && s.peers[n].detector == NEW_DETECTOR)
  }

  ghost predicate Next(s: System, step: Step, t: System) {
    && step.at in s.peers
    && t.peers.Keys == s.peers.Keys
    && (forall n :: n in s.peers && n != step.at ==> t.peers[n] == s.peers[n])
    && t.logs.Keys == s.logs.Keys
    && var p, q := s.peers[step.at], t.peers[step.at];
    match step
    case DoWrite(at, w, now) =>
      && at in p.view && at in s.logs
      && var after := ApplyWrite(p.view[at], w, now);
      && q == p.(view := p.view[at := after])
      && (after == p.view[at] || w.key in after.keyValues)
      && t.logs == s.logs[at := LogAfter(s.logs[at], p.view[at], w, after)]
      && t.network == s.network
    case DoCollectKeys(_, now) =>
      CollectedKeys(p, now, q) && t.logs == s.logs && t.network == s.network
    case DoUpdateLiveness(_, now) =>
      && p.cfg.Valid() && AllSampled(p.cfg, p.detector)
      && q == UpdateNodesLiveness(p, now) && t.logs == s.logs && t.network == s.network
    case DoGossip(_, now) =>
      q == BumpSelf(p) && t.logs == s.logs && t.network == s.network + {CreateSyn(q, now)}
    case DoReceive(_, msg, now) =>
      && msg in s.network
      && t.logs == s.logs
      && exists reply :: Received(p, msg, now, q, reply)
                         && t.network == s.network + (if reply.Some? then {reply.value} else {})
  }

  ghost predicate IsExecution(states: seq<System>, steps: seq<Step>) {
    && |states| == |steps| + 1
    && Initial(states[0])
    && (forall i :: 0 <= i < |steps| ==> Next(states[i], steps[i], states[i + 1]))
  }

  // ----- the invariant -----

  ghost predicate GoodView(logs: map<ChitchatId, Log>, self: ChitchatId, view: View) {
    && self in view && self in logs
    && view[self].maxVersion == |logs[self]|
    && (forall o :: o in view ==> o in logs && ReplicaOf(logs[o], view[o]))
  }

  ghost predicate GoodDetector(p: Peer) {
    p.cfg.Valid() && AllSampled(p.cfg, p.detector) && p.id !in p.detector.dead
  }

  ghost predicate GoodPeer(logs: map<ChitchatId, Log>, n: ChitchatId, p: Peer) {
    p.id == n && GoodView(logs, n, p.view) && GoodDetector(p)
  }

  ghost predicate GoodDelta(logs: map<ChitchatId, Log>, d: NodeDelta) {
    d.id in logs && DeltaOf(logs[d.id], d)
  }

  ghost predicate GoodDeltas(logs: map<ChitchatId, Log>, ds: seq<NodeDelta>) {
    DistinctIds(ds) && forall i :: 0 <= i < |ds| ==> GoodDelta(logs, ds[i])
  }

  ghost predicate GoodMessage(logs: map<ChitchatId, Log>, msg: Message) {
    match msg
    case Syn(_, digest) => digest.Keys <= logs.Keys
    case SynAck(digest, delta) => digest.Keys <= logs.Keys && GoodDeltas(logs, delta.nodeDeltas)
    case Ack(delta) => GoodDeltas(logs, delta.nodeDeltas)
    case BadCluster => true
  }

  ghost predicate Replicated(s: System) {
    && s.logs.Keys == s.peers.Keys
    && (forall n :: n in s.logs ==> ValidLog(s.logs[n]))
    && (forall n :: n in s.peers ==> GoodPeer(s.logs, n, s.peers[n]))
    && (forall msg :: msg in s.network ==> GoodMessage(s.logs, msg))
  }

  /** A delivery that passes the receiver's test `SafeFor` and does not reset a node's own state. */
  predicate SafeDelta(self: ChitchatId, s: State, d: NodeDelta) {
    SafeFor(s, d) && (d.id == self ==> !Prepare(s, d).Reset?)
  }

  predicate SafeDeltas(p: Peer, ds: seq<NodeDelta>) {
    forall i :: 0 <= i < |ds| ==> SafeDelta(p.id, NodeOf(p.view, ds[i].id), ds[i])
  }

  predicate SafeMessage(p: Peer, msg: Message) {
    match msg
    case SynAck(_, delta) => SafeDeltas(p, delta.nodeDeltas)
    case Ack(delta) => SafeDeltas(p, delta.nodeDeltas)
    case _ => true
  }

  ghost predicate SafeStep(s: System, step: Step) {
    step.DoReceive? && step.at in s.peers ==> SafeMessage(s.peers[step.at], step.msg)
  }

  // ----- each kind of step keeps it -----

  lemma EmptyIsReplica(log: Log, heartbeat: nat)
    ensures ReplicaOf(log, EMPTY.(heartbeat := heartbeat))
  {
  }

  lemma HeartbeatKeepsReplica(log: Log, s: State, heartbeat: nat)
    requires ReplicaOf(log, s)
    ensures ReplicaOf(log, s.(heartbeat := heartbeat))
  {
    var t := s.(heartbeat := heartbeat);
    assert HoldsOnlyWritten(log, t) && HoldsCurrent(log, t) && LacksOnlyCollectable(log, t);
  }

  lemma BumpKeepsView(logs: map<ChitchatId, Log>, p: Peer)
    requires GoodView(logs, p.id, p.view)
    ensures GoodView(logs, p.id, BumpSelf(p).view)
  {
    HeartbeatKeepsReplica(logs[p.id], p.view[p.id], BumpSelf(p).view[p.id].heartbeat);
  }

  lemma ReportKeepsView(logs: map<ChitchatId, Log>, p: Peer, digest: Digest, now: Instant)
    requires GoodView(logs, p.id, p.view) && digest.Keys <= logs.Keys
    ensures GoodView(logs, p.id, ReportHeartbeats(p, digest, now).view)
    ensures ReportHeartbeats(p, digest, now).view[p.id] == p.view[p.id]
  {
    hide ReplicaOf;
    var q := ReportHeartbeats(p, digest, now);
    forall o | o in q.view ensures o in logs && ReplicaOf(logs[o], q.view[o]) {
      if o in digest && o != p.id {
        EmptyIsReplica(logs[o], 0);
        HeartbeatKeepsReplica(logs[o], NodeOf(p.view, o), q.view[o].heartbeat);
      }
    }
  }

  lemma DeltaKeepsState(logs: map<ChitchatId, Log>, self: ChitchatId, s: State, d: NodeDelta, now: Instant)
    requires GoodDelta(logs, d) && ReplicaOf(logs[d.id], s) && SafeDelta(self, s, d)
    ensures ReplicaOf(logs[d.id], ApplyDelta(s, d, now))
    ensures d.id == self && s.maxVersion == |logs[self]| ==> ApplyDelta(s, d, now) == s
  {
    SafeDeliveryKeepsReplica(logs[d.id], s, d, now);
    if d.id == self && s.maxVersion == |logs[self]| {
      OwnerUnmovedExactly(logs[self], s, d, now);
    }
  }

  lemma DeltaKeepsView(logs: map<ChitchatId, Log>, self: ChitchatId, view: View, d: NodeDelta, now: Instant)
    requires GoodView(logs, self, view) && GoodDelta(logs, d) && SafeDelta(self, NodeOf(view, d.id), d)
    ensures var after := view[d.id := ApplyDelta(NodeOf(view, d.id), d, now)];
            GoodView(logs, self, after) && after[self] == view[self]
  {
    EmptyIsReplica(logs[d.id], 0);
    DeltaKeepsState(logs, self, NodeOf(view, d.id), d, now);
  }

  lemma {:induction false} DeltasKeepView(
      logs: map<ChitchatId, Log>, self: ChitchatId, view: View, ds: seq<NodeDelta>, now: Instant)
    requires GoodView(logs, self, view) && DistinctIds(ds)
    requires forall i :: 0 <= i < |ds| ==> GoodDelta(logs, ds[i]) && SafeDelta(self, NodeOf(view, ds[i].id), ds[i])
    ensures GoodView(logs, self, ApplyAll(view, ds, now))
    ensures ApplyAll(view, ds, now)[self] == view[self]
  {
    if ds != [] {
      var n := |ds| - 1;
      DeltasKeepView(logs, self, view, ds[..n], now);
      ApplyAllElsewhere(view, ds[..n], now, ds[n].id);
      var before := ApplyAll(view, ds[..n], now);
      DeltaKeepsView(logs, self, before, ds[n], now);
    }
  }

  /** Heartbeats do not matter to how a delta is received. */
  lemma HeartbeatKeepsSafety(p: Peer, q: Peer, ds: seq<NodeDelta>)
    requires SafeDeltas(p, ds) && q.id == p.id
    requires forall o :: NodeOf(q.view, o).maxVersion == NodeOf(p.view, o).maxVersion
                         && NodeOf(q.view, o).lastGcVersion == NodeOf(p.view, o).lastGcVersion
    ensures SafeDeltas(q, ds)
  {
    forall i | 0 <= i < |ds|
      ensures SafeDelta(q.id, NodeOf(q.view, ds[i].id), ds[i])
    {
    }
  }

  lemma DeltaIsGood(logs: map<ChitchatId, Log>, self: ChitchatId, view: View, digest: Digest,
                    scheduled: set<ChitchatId>, delta: Delta)
    requires GoodView(logs, self, view) && IsPartialDelta(view, digest, scheduled, delta)
    ensures GoodDeltas(logs, delta.nodeDeltas)
  {
    forall i | 0 <= i < |delta.nodeDeltas|
      ensures GoodDelta(logs, delta.nodeDeltas[i])
    {
      var d := delta.nodeDeltas[i];
      SenderMakesDelta(logs[d.id], view[d.id], FromVersion(view[d.id], DigestOf(digest, d.id)), d);
    }
  }

  lemma BumpKeepsPeer(logs: map<ChitchatId, Log>, p: Peer)
    requires GoodPeer(logs, p.id, p)
    ensures GoodPeer(logs, p.id, BumpSelf(p))
  {
    BumpKeepsView(logs, p);
  }

  lemma ReportKeepsPeer(logs: map<ChitchatId, Log>, p: Peer, digest: Digest, now: Instant)
    requires GoodPeer(logs, p.id, p) && digest.Keys <= logs.Keys
    ensures GoodPeer(logs, p.id, ReportHeartbeats(p, digest, now))
    ensures ReportHeartbeats(p, digest, now).view[p.id] == p.view[p.id]
  {
    ReportKeepsView(logs, p, digest, now);
    ReportKeepsSampled(p, digest, now);
  }

  lemma DeltasKeepPeer(logs: map<ChitchatId, Log>, p: Peer, ds: seq<NodeDelta>, now: Instant)
    requires GoodPeer(logs, p.id, p) && GoodDeltas(logs, ds) && SafeDeltas(p, ds)
    ensures GoodPeer(logs, p.id, p.(view := ApplyAll(p.view, ds, now)))
    ensures p.id in p.view && p.id in ApplyAll(p.view, ds, now)
    ensures ApplyAll(p.view, ds, now)[p.id] == p.view[p.id]
  {
    DeltasKeepView(logs, p.id, p.view, ds, now);
  }

  lemma BumpKeepsSafety(p: Peer, ds: seq<NodeDelta>)
    requires SafeDeltas(p, ds)
    ensures SafeDeltas(BumpSelf(p), ds)
  {
    HeartbeatKeepsSafety(p, BumpSelf(p), ds);
  }

  lemma ReportKeepsSafety(p: Peer, digest: Digest, now: Instant, ds: seq<NodeDelta>)
    requires SafeDeltas(p, ds)
    ensures SafeDeltas(ReportHeartbeats(p, digest, now), ds)
  {
    hide SafeDelta, Heard, FreshHeartbeats;
    HeartbeatKeepsSafety(p, ReportHeartbeats(p, digest, now), ds);
  }

  lemma ReplyIsGood(logs: map<ChitchatId, Log>, q: Peer, digest: Digest, now: Instant, delta: Delta)
    requires GoodPeer(logs, q.id, q) && IsPartialDelta(q.view, digest, Scheduled(q, now), delta)
    ensures GoodMessage(logs, SynAck(ComputeDigest(q.view, Scheduled(q, now)), delta))
    ensures GoodMessage(logs, Ack(delta))
  {
    DeltaIsGood(logs, q.id, q.view, digest, Scheduled(q, now), delta);
  }

  lemma ReceiveKeeps(logs: map<ChitchatId, Log>, p: Peer, msg: Message, now: Instant, q: Peer, reply: Option<Message>)
    requires GoodPeer(logs, p.id, p) && GoodMessage(logs, msg) && SafeMessage(p, msg)
    requires Received(p, msg, now, q, reply)
    ensures GoodPeer(logs, p.id, q)
    ensures q.view[p.id] == BumpSelf(p).view[p.id]
    ensures reply.Some? ==> GoodMessage(logs, reply.value)
  {
    var bumped := BumpSelf(p);
    BumpKeepsPeer(logs, p);
    match msg
    case Syn(clusterId, digest) =>
      if clusterId == p.clusterId {
        ReportKeepsPeer(logs, bumped, digest, now);
        ReplyIsGood(logs, q, digest, now, reply.value.delta);
      }
    case SynAck(digest, delta) =>
      var heard := ReportHeartbeats(bumped, digest, now);
      ReportKeepsPeer(logs, bumped, digest, now);
      BumpKeepsSafety(p, delta.nodeDeltas);
      ReportKeepsSafety(bumped, digest, now, delta.nodeDeltas);
      DeltasKeepPeer(logs, heard, delta.nodeDeltas, now);
      ReplyIsGood(logs, q, digest, now, reply.value.delta);
    case Ack(delta) =>
      BumpKeepsSafety(p, delta.nodeDeltas);
      DeltasKeepPeer(logs, bumped, delta.nodeDeltas, now);
    case BadCluster =>
  }

  lemma CollectKeepsPeer(logs: map<ChitchatId, Log>, p: Peer, now: Instant, q: Peer)
    requires GoodPeer(logs, p.id, p) && CollectedKeys(p, now, q)
    ensures GoodPeer(logs, p.id, q)
  {
    forall o | o in q.view ensures ReplicaOf(logs[o], q.view[o]) {
      CollectKeepsReplica(logs[o], p.view[o], now, p.keyGrace, q.view[o]);
    }
  }

  lemma LivenessKeepsPeer(logs: map<ChitchatId, Log>, p: Peer, now: Instant)
    requires GoodPeer(logs, p.id, p)
    ensures GoodPeer(logs, p.id, UpdateNodesLiveness(p, now))
  {
  }

  lemma GrowthKeepsPeer(logs: map<ChitchatId, Log>, at: ChitchatId, m: KeyValueMutation, n: ChitchatId, p: Peer)
    requires GoodPeer(logs, n, p) && at in logs && n != at
    ensures GoodPeer(logs[at := logs[at] + [m]], n, p)
  {
    if at in p.view {
      WriteKeepsReplica(logs[at], m, p.view[at]);
    }
  }

  lemma GrowthKeepsDeltas(logs: map<ChitchatId, Log>, at: ChitchatId, m: KeyValueMutation, ds: seq<NodeDelta>)
    requires at in logs && GoodDeltas(logs, ds)
    ensures GoodDeltas(logs[at := logs[at] + [m]], ds)
  {
    forall i | 0 <= i < |ds| ensures GoodDelta(logs[at := logs[at] + [m]], ds[i]) {
      if ds[i].id == at {
        WriteKeepsDelta(logs[at], m, ds[i]);
      }
    }
  }

  lemma GrowthKeepsMessage(logs: map<ChitchatId, Log>, at: ChitchatId, m: KeyValueMutation, msg: Message)
    requires at in logs && GoodMessage(logs, msg)
    ensures GoodMessage(logs[at := logs[at] + [m]], msg)
  {
    if msg.SynAck? || msg.Ack? {
      GrowthKeepsDeltas(logs, at, m, msg.delta.nodeDeltas);
    }
  }

  /** The owner's own view after it wrote. */
  lemma OwnerWritesInView(logs: map<ChitchatId, Log>, p: Peer, w: Write, now: Instant)
    requires GoodPeer(logs, p.id, p) && ValidLog(logs[p.id])
    ensures var after := ApplyWrite(p.view[p.id], w, now);
            && (after == p.view[p.id] || w.key in after.keyValues)
            && var grown := logs[p.id := LogAfter(logs[p.id], p.view[p.id], w, after)];
            && ValidLog(grown[p.id])
            && GoodPeer(grown, p.id, p.(view := p.view[p.id := after]))
  {
    hide ReplicaOf, ApplyWrite, ValidLog;
    OwnerWrites(logs[p.id], p.view[p.id], w, now);
  }

  /** A step by which one owner's log grows. */
  lemma GrowthStepKeeps(s: System, at: ChitchatId, m: KeyValueMutation, t: System)
    requires Replicated(s) && at in s.peers
    requires t.network == s.network && t.peers.Keys == s.peers.Keys
    requires t.logs == s.logs[at := s.logs[at] + [m]] && ValidLog(t.logs[at])
    requires forall n :: n in s.peers && n != at ==> t.peers[n] == s.peers[n]
    requires GoodPeer(t.logs, at, t.peers[at])
    ensures Replicated(t)
  {
    hide GoodPeer, GoodMessage, ValidLog;
    forall n | n in t.peers ensures GoodPeer(t.logs, n, t.peers[n]) {
      if n != at {
        GrowthKeepsPeer(s.logs, at, m, n, s.peers[n]);
      }
    }
    forall msg | msg in s.network ensures GoodMessage(t.logs, msg) {
      GrowthKeepsMessage(s.logs, at, m, msg);
    }
  }

  /** A step that changes one peer, leaves the logs alone and only adds good messages. */
  lemma LocalStepKeeps(s: System, at: ChitchatId, t: System)
    requires Replicated(s) && at in s.peers
    requires t.logs == s.logs && t.peers.Keys == s.peers.Keys
    requires forall n :: n in s.peers && n != at ==> t.peers[n] == s.peers[n]
    requires GoodPeer(s.logs, at, t.peers[at])
    requires forall msg :: msg in t.network && msg !in s.network ==> GoodMessage(s.logs, msg)
    ensures Replicated(t)
  {
    forall n | n in t.peers ensures GoodPeer(t.logs, n, t.peers[n]) {
      if n != at {
        assert t.peers[n] == s.peers[n];
      }
    }
  }

  lemma ReplicatedPeer(s: System, n: ChitchatId)
    requires Replicated(s) && n in s.peers
    ensures n in s.logs && ValidLog(s.logs[n]) && s.peers[n].id == n && GoodPeer(s.logs, n, s.peers[n])
  {
  }

  lemma WriteStepKeeps(s: System, step: Step, t: System)
    requires Replicated(s) && Next(s, step, t) && step.DoWrite?
    ensures Replicated(t)
  {
    hide Replicated, GoodPeer, ValidLog, ApplyWrite;
    var at, w := step.at, step.write;
    var p := s.peers[at];
    ReplicatedPeer(s, at);
    OwnerWritesInView(s.logs, p, w, step.now);
    var after := ApplyWrite(p.view[at], w, step.now);
    if after == p.view[at] {
      assert t.logs == s.logs;
      LocalStepKeeps(s, at, t);
    } else {
      GrowthStepKeeps(s, at, ToMutation(w.key, after.keyValues[w.key]), t);
    }
  }

  lemma ReceiveStepKeeps(s: System, step: Step, t: System)
    requires Replicated(s) && Next(s, step, t) && SafeStep(s, step) && step.DoReceive?
    ensures Replicated(t)
  {
    var p, q := s.peers[step.at], t.peers[step.at];
    var reply :| Received(p, step.msg, step.now, q, reply)
                 && t.network == s.network + (if reply.Some? then {reply.value} else {});
    ReceiveKeeps(s.logs, p, step.msg, step.now, q, reply);
    LocalStepKeeps(s, step.at, t);
  }

  lemma GossipKeeps(logs: map<ChitchatId, Log>, p: Peer, now: Instant)
    requires GoodPeer(logs, p.id, p)
    ensures GoodPeer(logs, p.id, BumpSelf(p))
    ensures GoodMessage(logs, CreateSyn(BumpSelf(p), now))
  {
    BumpKeepsPeer(logs, p);
  }

  lemma StepKeepsReplicated(s: System, step: Step, t: System)
    requires Replicated(s) && Next(s, step, t) && SafeStep(s, step)
    ensures Replicated(t)
  {
    hide Replicated, GoodPeer, GoodMessage, SafeStep, Received, CollectedKeys, UpdateNodesLiveness, BumpSelf, CreateSyn;
    var p, q := s.peers[step.at], t.peers[step.at];
    ReplicatedPeer(s, step.at);
    match step
    case DoWrite(_, _, _) =>
      WriteStepKeeps(s, step, t);
    case DoCollectKeys(_, now) =>
      CollectKeepsPeer(s.logs, p, now, q);
      LocalStepKeeps(s, step.at, t);
    case DoUpdateLiveness(_, now) =>
      LivenessKeepsPeer(s.logs, p, now);
      LocalStepKeeps(s, step.at, t);
    case DoGossip(_, now) =>
      GossipKeeps(s.logs, p, now);
      LocalStepKeeps(s, step.at, t);
    case DoReceive(_, _, _) =>
      ReceiveStepKeeps(s, step, t);
  }

  lemma InitialIsReplicated(s: System)
    requires Initial(s)
    ensures Replicated(s)
  {
    hide ReplicaOf;
    forall n | n in s.peers ensures GoodView(s.logs, n, s.peers[n].view) {
      EmptyIsReplica(s.logs[n], 1);
    }
  }

  /** In every run whose deliveries are safe, with collections, truncated deltas, resets, removed replicas and
      any behaviour of the network, every view and every message in flight satisfies the invariant. */
  lemma {:induction false} EveryRunIsReplicated(states: seq<System>, steps: seq<Step>, n: nat)
    requires IsExecution(states, steps) && n < |states|
    requires forall i :: 0 <= i < |steps| ==> SafeStep(states[i], steps[i])
    ensures Replicated(states[n])
  {
    hide Next, SafeStep, Replicated, Initial;
    if n == 0 {
      InitialIsReplicated(states[0]);
    } else {
      EveryRunIsReplicated(states, steps, n - 1);
      StepKeepsReplicated(states[n - 1], steps[n - 1], states[n]);
    }
  }

  // ----- a peer's own state -----

  function DeltasIn(msg: Message): seq<NodeDelta> {
    if msg.SynAck? || msg.Ack? then msg.delta.nodeDeltas else []
  }

  /** The message holds a delta of the receiver's own node that resets it. */
  predicate ResetsOwn(p: Peer, ds: seq<NodeDelta>) {
    exists i :: 0 <= i < |ds| && ds[i].id == p.id && Prepare(NodeOf(p.view, p.id), ds[i]).Reset?
  }

  lemma DeltasLeaveOwnExactly(logs: map<ChitchatId, Log>, p: Peer, ds: seq<NodeDelta>, now: Instant)
    requires GoodView(logs, p.id, p.view) && GoodDeltas(logs, ds)
    ensures p.id in ApplyAll(p.view, ds, now)
    ensures ApplyAll(p.view, ds, now)[p.id] == p.view[p.id] <==> !ResetsOwn(p, ds)
  {
    hide ReplicaOf, DeltaOf, ApplyDelta, Prepare, ApplyAll;
    if i :| 0 <= i < |ds| && ds[i].id == p.id {
      ApplyAllAt(p.view, ds, now, i);
      OwnerUnmovedExactly(logs[p.id], p.view[p.id], ds[i], now);
    } else {
      ApplyAllElsewhere(p.view, ds, now, p.id);
    }
  }

  /** Heartbeats do not matter to whether a delta resets. */
  lemma HeartbeatKeepsReset(p: Peer, q: Peer, ds: seq<NodeDelta>)
    requires q.id == p.id && p.id in p.view && p.id in q.view
    requires q.view[p.id] == p.view[p.id].(heartbeat := q.view[p.id].heartbeat)
    ensures ResetsOwn(p, ds) <==> ResetsOwn(q, ds)
  {
    forall i | 0 <= i < |ds| && ds[i].id == p.id
      ensures Prepare(p.view[p.id], ds[i]).Reset? <==> Prepare(q.view[p.id], ds[i]).Reset?
    {
    }
  }

  /** A message changes what a peer holds of itself, apart from the heartbeat, exactly if it holds a delta that
      resets it. */
  lemma OwnStateChangesExactly(s: System, step: Step, t: System)
    requires Replicated(s) && Next(s, step, t) && step.DoReceive?
    ensures step.at in s.peers[step.at].view && step.at in t.peers[step.at].view
    ensures t.peers[step.at].view[step.at] == BumpSelf(s.peers[step.at]).view[step.at] <==>
            !ResetsOwn(s.peers[step.at], DeltasIn(step.msg))
  {
    hide Replicated, GoodDetector, GoodDeltas, ReplicaOf, ApplyAll, ResetsOwn;
    var p, q := s.peers[step.at], t.peers[step.at];
    ReplicatedPeer(s, step.at);
    ReplicatedMessage(s, step.msg);
    var reply :| Received(p, step.msg, step.now, q, reply);
    var bumped, ds := BumpSelf(p), DeltasIn(step.msg);
    BumpKeepsPeer(s.logs, p);
    HeartbeatKeepsReset(p, bumped, ds);
    match step.msg
    case Syn(clusterId, digest) =>
      ReportKeepsPeer(s.logs, bumped, digest, step.now);
      NothingResetsOwn(p);
    case SynAck(digest, delta) =>
      var heard := ReportHeartbeats(bumped, digest, step.now);
      ReportKeepsPeer(s.logs, bumped, digest, step.now);
      HeartbeatKeepsReset(bumped, heard, ds);
      DeltasLeaveOwnExactly(s.logs, heard, ds, step.now);
    case Ack(delta) =>
      DeltasLeaveOwnExactly(s.logs, bumped, ds, step.now);
    case BadCluster =>
      NothingResetsOwn(p);
  }

  lemma ReplicatedMessage(s: System, msg: Message)
    requires Replicated(s) && msg in s.network
    ensures GoodMessage(s.logs, msg)
  {
  }

  lemma NothingResetsOwn(p: Peer)
    ensures !ResetsOwn(p, [])
  {
  }

  // ----- runs without key collection -----

  ghost predicate NoneCollectedIn(view: View) {
    forall o :: o in view ==> view[o].lastGcVersion == 0
  }

  ghost predicate NoneCollectedBy(ds: seq<NodeDelta>) {
    forall i :: 0 <= i < |ds| ==> ds[i].lastGcVersion == 0
  }

  ghost predicate UncollectedMessage(msg: Message) {
    msg.SynAck? || msg.Ack? ==> NoneCollectedBy(msg.delta.nodeDeltas)
  }

  ghost predicate Uncollected(s: System) {
    && (forall n :: n in s.peers ==> NoneCollectedIn(s.peers[n].view))
    && (forall msg :: msg in s.network ==> UncollectedMessage(msg))
  }

  lemma UncollectedIsSafe(p: Peer, msg: Message)
    requires NoneCollectedIn(p.view) && UncollectedMessage(msg)
    ensures SafeMessage(p, msg)
  {
    if msg.SynAck? || msg.Ack? {
      var ds := msg.delta.nodeDeltas;
      forall i | 0 <= i < |ds| ensures SafeDelta(p.id, NodeOf(p.view, ds[i].id), ds[i]) {
        assert ds[i].lastGcVersion == 0;
      }
    }
  }

  lemma {:induction false} DeltasCollectNone(view: View, ds: seq<NodeDelta>, now: Instant)
    requires NoneCollectedIn(view) && NoneCollectedBy(ds)
    ensures NoneCollectedIn(ApplyAll(view, ds, now))
  {
    if ds != [] {
      var n := |ds| - 1;
      DeltasCollectNone(view, ds[..n], now);
      var s := NodeOf(ApplyAll(view, ds[..n], now), ds[n].id);
      assert ds[n].lastGcVersion == 0;
      MutationsEffect(s, ds[n].keyValues, s.maxVersion, now);
    }
  }

  lemma DeltaOfUncollected(view: View, digest: Digest, scheduled: set<ChitchatId>, delta: Delta)
    requires NoneCollectedIn(view) && IsPartialDelta(view, digest, scheduled, delta)
    ensures NoneCollectedBy(delta.nodeDeltas)
  {
  }

  lemma ReportCollectsNone(p: Peer, digest: Digest, now: Instant)
    requires NoneCollectedIn(p.view)
    ensures NoneCollectedIn(ReportHeartbeats(p, digest, now).view)
  {
  }

  lemma ReceiveCollectsNone(p: Peer, msg: Message, now: Instant, q: Peer, reply: Option<Message>)
    requires NoneCollectedIn(p.view) && UncollectedMessage(msg) && Received(p, msg, now, q, reply)
    ensures NoneCollectedIn(q.view)
    ensures reply.Some? ==> UncollectedMessage(reply.value)
  {
    var bumped := BumpSelf(p);
    assert NoneCollectedIn(bumped.view);
    match msg
    case Syn(clusterId, digest) =>
      if clusterId == p.clusterId {
        ReportCollectsNone(bumped, digest, now);
        DeltaOfUncollected(q.view, digest, Scheduled(q, now), reply.value.delta);
      }
    case SynAck(digest, delta) =>
      ReportCollectsNone(bumped, digest, now);
      DeltasCollectNone(ReportHeartbeats(bumped, digest, now).view, delta.nodeDeltas, now);
      DeltaOfUncollected(q.view, digest, Scheduled(q, now), reply.value.delta);
    case Ack(delta) =>
      DeltasCollectNone(bumped.view, delta.nodeDeltas, now);
    case BadCluster =>
  }

  lemma StepCollectsNone(s: System, step: Step, t: System)
    requires Uncollected(s) && Next(s, step, t) && !step.DoCollectKeys?
    ensures Uncollected(t)
  {
    var p, q := s.peers[step.at], t.peers[step.at];
    if step.DoReceive? {
      var reply :| Received(p, step.msg, step.now, q, reply)
                   && t.network == s.network + (if reply.Some? then {reply.value} else {});
      ReceiveCollectsNone(p, step.msg, step.now, q, reply);
    }
    assert NoneCollectedIn(q.view);
  }

  lemma StepWithoutCollection(s: System, step: Step, t: System)
    requires Replicated(s) && Uncollected(s) && Next(s, step, t) && !step.DoCollectKeys?
    ensures Replicated(t) && Uncollected(t)
  {
    if step.DoReceive? {
      UncollectedIsSafe(s.peers[step.at], step.msg);
    }
    StepKeepsReplicated(s, step, t);
    StepCollectsNone(s, step, t);
  }

  /** Without key collection every delivery is safe, so the invariant needs no assumption about deliveries. */
  lemma {:induction false} RunsWithoutCollection(states: seq<System>, steps: seq<Step>, n: nat)
    requires IsExecution(states, steps) && n < |states|
    requires forall i :: 0 <= i < |steps| ==> !steps[i].DoCollectKeys?
    ensures Replicated(states[n]) && Uncollected(states[n])
  {
    hide Next, Replicated;
    if n == 0 {
      InitialIsReplicated(states[0]);
    } else {
      RunsWithoutCollection(states, steps, n - 1);
      StepWithoutCollection(states[n - 1], steps[n - 1], states[n]);
    }
  }

  lemma UncollectedNeverResets(s: System, n: ChitchatId, msg: Message)
    requires Uncollected(s) && n in s.peers && msg in s.network
    ensures !ResetsOwn(s.peers[n], DeltasIn(msg))
  {
    assert UncollectedMessage(msg);
    var p, ds := s.peers[n], DeltasIn(msg);
    forall i | 0 <= i < |ds| ensures !Prepare(NodeOf(p.view, p.id), ds[i]).Reset? {
      assert ds[i].lastGcVersion == 0;
      FreshnessTestNeverFires(NodeOf(p.view, p.id), ds[i]);
    }
  }

  /** Without key collection no message ever changes what a peer holds of itself, apart from the heartbeat. */
  lemma OwnStateIsOwn(states: seq<System>, steps: seq<Step>, i: nat)
    requires IsExecution(states, steps) && i < |steps| && steps[i].DoReceive?
    requires forall j :: 0 <= j < |steps| ==> !steps[j].DoCollectKeys?
    ensures var at := steps[i].at;
            && at in states[i].peers && at in states[i + 1].peers
            && at in states[i + 1].peers[at].view
            && NodeOf(states[i + 1].peers[at].view, at) == NodeOf(BumpSelf(states[i].peers[at]).view, at)
  {
    hide Replicated, Uncollected, Received, ResetsOwn, Initial;
    RunsWithoutCollection(states, steps, i);
    assert Next(states[i], steps[i], states[i + 1]);
    UncollectedNeverResets(states[i], steps[i].at, steps[i].msg);
    OwnStateChangesExactly(states[i], steps[i], states[i + 1]);
  }

  /** The Scuttlebutt invariant, for the view `r` that any peer has of an owner whose own state is `o`:
      what the owner holds at a version the view has reached, the view holds too, the same record;
      every key of the view is a key of the owner, at the same version or at an older one;
      and a view that has reached the owner's `max_version` is equal to it. */
  lemma ScuttlebuttWithoutCollection(
      states: seq<System>, steps: seq<Step>, n: nat, owner: ChitchatId, holder: ChitchatId)
    requires IsExecution(states, steps) && n < |states|
    requires forall i :: 0 <= i < |steps| ==> !steps[i].DoCollectKeys?
    requires owner in states[n].peers && holder in states[n].peers && owner in states[n].peers[holder].view
    ensures owner in states[n].peers[owner].view
    ensures var o, r := states[n].peers[owner].view[owner], states[n].peers[holder].view[owner];
            && r.maxVersion <= o.maxVersion
            && (forall k :: k in o.keyValues && o.keyValues[k].version <= r.maxVersion ==>
                  k in r.keyValues && ToMutation(k, r.keyValues[k]) == ToMutation(k, o.keyValues[k]))
            && (forall k :: k in r.keyValues ==>
                  k in o.keyValues && r.keyValues[k].version <= o.keyValues[k].version)
            && (r.maxVersion == o.maxVersion ==> r.keyValues.Keys == o.keyValues.Keys)
  {
    RunsWithoutCollection(states, steps, n);
    assert GoodPeer(states[n].logs, owner, states[n].peers[owner]);
    assert GoodPeer(states[n].logs, holder, states[n].peers[holder]);
    ViewFollowsOwner(states[n].logs[owner], states[n].peers[owner].view[owner], states[n].peers[holder].view[owner]);
  }

  lemma ViewFollowsOwner(log: Log, o: State, r: State)
    requires ReplicaOf(log, o) && ReplicaOf(log, r) && o.maxVersion == |log|
    requires o.lastGcVersion == 0 && r.lastGcVersion == 0
    ensures forall k :: k in o.keyValues && o.keyValues[k].version <= r.maxVersion ==>
              k in r.keyValues && ToMutation(k, r.keyValues[k]) == ToMutation(k, o.keyValues[k])
    ensures forall k :: k in r.keyValues ==> k in o.keyValues && r.keyValues[k].version <= o.keyValues[k].version
    ensures r.maxVersion == o.maxVersion ==> r.keyValues.Keys == o.keyValues.Keys
  {
    forall k | k in o.keyValues && o.keyValues[k].version <= r.maxVersion
      ensures k in r.keyValues && ToMutation(k, r.keyValues[k]) == ToMutation(k, o.keyValues[k])
    {
      ReplicaHoldsOwnersRecords(log, o, r, k);
    }
    forall k | k in r.keyValues ensures k in o.keyValues && r.keyValues[k].version <= o.keyValues[k].version {
      LatestIsLast(log, k, |log|, r.keyValues[k].version);
    }
    if r.maxVersion == o.maxVersion {
      CaughtUpReplicaIsEqual(log, o, r);
    }
  }
}
