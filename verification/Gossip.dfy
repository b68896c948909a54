/** One gossiping peer as a value: its view of every node's state, its failure detector, and what each message
and each periodic step makes of them (chitchat/src/lib.rs, and `ClusterState` of chitchat/src/state.rs). */
module Gossip {
  import opened ChitchatTypes
  import opened NodeStates
  import opened Replication
  import opened FailureDetectors

  type View = map<ChitchatId, State>

  datatype Peer = Peer(
    id: ChitchatId,
    clusterId: Text,
    cfg: Config,
    keyGrace: Duration,
    view: View,
    detector: Detector)

  /** `node_state_mut`: a node never heard of starts out empty. */
  function NodeOf(view: View, id: ChitchatId): State {
    if id in view then view[id] else EMPTY
  }

  function BumpSelf(p: Peer): Peer {
    var s := NodeOf(p.view, p.id);
    p.(view := p.view[p.id := s.(heartbeat := (s.heartbeat + 1) % U64_MODULUS)])
  }

  function Scheduled(p: Peer, now: Instant): set<ChitchatId> {
    ScheduledForDeletion(p.cfg, p.detector, now)
  }

  // ----- heartbeats -----

  /** The nodes of a digest whose heartbeat is news. */
  function FreshHeartbeats(p: Peer, digest: Digest): set<ChitchatId> {
    set o | o in digest && o != p.id && TrySetHeartbeat(NodeOf(p.view, o), digest[o].heartbeat).1
  }

  function ReportHeartbeats(p: Peer, digest: Digest, now: Instant): Peer {
    var fresh' := FreshHeartbeats(p, digest);
    p.(view :=
         map o | o in p.view.Keys + (digest.Keys - {p.id}) ::
           if o in digest && o != p.id then TrySetHeartbeat(NodeOf(p.view, o), digest[o].heartbeat).0
           else p.view[o],
       detector := p.detector.(samples :=
         map o | o in p.detector.samples.Keys + fresh' ::
           if o in fresh' then Heard(p.cfg, WindowOf(p.detector, o), now) else p.detector.samples[o]))
  }

  // ----- digests and deltas -----

  function ComputeDigest(view: View, scheduled: set<ChitchatId>): Digest {
    map o | o in view && o !in scheduled :: NodeDigest(view[o].heartbeat, view[o].lastGcVersion, view[o].maxVersion)
  }

  function DigestOf(digest: Digest, o: ChitchatId): NodeDigest {
    if o in digest then digest[o] else NodeDigest(0, 0, 0)
  }

  predicate IsStale(view: View, digest: Digest, scheduled: set<ChitchatId>, o: ChitchatId) {
    o in view && o !in scheduled && view[o].maxVersion > DigestOf(digest, o).maxVersion
  }

  /** From scratch, if tombstones that the other side does not know about are already collected here. */
  function FromVersion(s: State, digest: NodeDigest): Version {
    if digest.lastGcVersion < s.lastGcVersion && digest.maxVersion < s.lastGcVersion then 0 else digest.maxVersion
  }

  /** Any delta that `compute_partial_delta_respecting_mtu` may return, wherever the payload limit cuts it and
      in whatever order it takes the stale nodes. */
  ghost predicate IsPartialDelta(view: View, digest: Digest, scheduled: set<ChitchatId>, delta: Delta) {
    && DistinctIds(delta.nodeDeltas)
    && (forall i :: 0 <= i < |delta.nodeDeltas| ==>
          var d := delta.nodeDeltas[i];
          && IsStale(view, digest, scheduled, d.id)
          && IsNodeDelta(view[d.id], FromVersion(view[d.id], DigestOf(digest, d.id)), d))
  }

  function ApplyAll(view: View, ds: seq<NodeDelta>, now: Instant): View {
    if ds == [] then view
    else
      var n := |ds| - 1;
      var before := ApplyAll(view, ds[..n], now);
      before[ds[n].id := ApplyDelta(NodeOf(before, ds[n].id), ds[n], now)]
  }

  // ----- the steps -----

  /** `process_message`: `q` is the peer after it, `reply` what it answers. */
  ghost predicate Received(p: Peer, msg: Message, now: Instant, q: Peer, reply: Option<Message>) {
    var bumped := BumpSelf(p);
    match msg
    case Syn(clusterId, digest) =>
      if clusterId != p.clusterId then
        q == bumped && reply == Some(BadCluster)
      else
        && q == ReportHeartbeats(bumped, digest, now)
        && reply.Some? && reply.value.SynAck?
        && reply.value.digest == ComputeDigest(q.view, Scheduled(q, now))
        && IsPartialDelta(q.view, digest, Scheduled(q, now), reply.value.delta)
    case SynAck(digest, delta) =>
      var heard := ReportHeartbeats(bumped, digest, now);
      && q == heard.(view := ApplyAll(heard.view, delta.nodeDeltas, now))
      && reply.Some? && reply.value.Ack?
      && IsPartialDelta(q.view, digest, Scheduled(q, now), reply.value.delta)
    case Ack(delta) =>
      q == bumped.(view := ApplyAll(bumped.view, delta.nodeDeltas, now)) && reply == None
    case BadCluster =>
      q == bumped && reply == None
  }

  function CreateSyn(p: Peer, now: Instant): Message {
    Syn(p.clusterId, ComputeDigest(p.view, Scheduled(p, now)))
  }

  /** `gc_keys_marked_for_deletion` on every node state. */
  ghost predicate CollectedKeys(p: Peer, now: Instant, q: Peer) {
    && q == p.(view := q.view)
    && q.view.Keys == p.view.Keys
    && (forall o :: o in p.view ==> Collected(p.view[o], now, p.keyGrace, q.view[o]))
  }

  /** `update_node_liveness` for each of `ids`. */
  function UpdateAll(cfg: Config, d: Detector, ids: set<ChitchatId>, now: Instant): Detector
    requires cfg.Valid() && AllSampled(cfg, d)
  {
    Detector(
      map o | o in d.samples ::
        if o in ids && !IsAlive(cfg, d, o, now) then d.samples[o].(intervals := []) else d.samples[o],
      (d.live + (set o | o in ids && IsAlive(cfg, d, o, now))) - (set o | o in ids && !IsAlive(cfg, d, o, now)),
      map o | o in d.dead.Keys + ids && !(o in ids && IsAlive(cfg, d, o, now)) ::
        if o in d.dead then d.dead[o] else now)
  }

  /** `update_nodes_liveness`: every known node but oneself is judged, then the long dead are forgotten. */
  function UpdateNodesLiveness(p: Peer, now: Instant): Peer
    requires p.cfg.Valid() && AllSampled(p.cfg, p.detector)
  {
    Forgotten(Judged(p, now), now)
  }

  function Judged(p: Peer, now: Instant): Peer
    requires p.cfg.Valid() && AllSampled(p.cfg, p.detector)
  {
    p.(detector := UpdateAll(p.cfg, p.detector, p.view.Keys - {p.id}, now))
  }

  function Forgotten(p: Peer, now: Instant): Peer {
    p.(view := p.view - Collectible(p.cfg, p.detector, now), detector := GarbageCollect(p.cfg, p.detector, now))
  }

  ghost predicate Healthy(p: Peer) { p.cfg.Valid() && AllSampled(p.cfg, p.detector) }

  // ----- what they leave alone -----

  lemma {:induction false} ApplyAllElsewhere(view: View, ds: seq<NodeDelta>, now: Instant, o: ChitchatId)
    requires forall i :: 0 <= i < |ds| ==> ds[i].id != o
    ensures o in ApplyAll(view, ds, now) <==> o in view
    ensures NodeOf(ApplyAll(view, ds, now), o) == NodeOf(view, o)
  {
    if ds != [] {
      ApplyAllElsewhere(view, ds[..|ds| - 1], now, o);
    }
  }

  lemma {:induction false} ApplyAllAt(view: View, ds: seq<NodeDelta>, now: Instant, i: nat)
    requires DistinctIds(ds) && i < |ds|
    ensures ds[i].id in ApplyAll(view, ds, now)
    ensures ApplyAll(view, ds, now)[ds[i].id] == ApplyDelta(NodeOf(view, ds[i].id), ds[i], now)
  {
    hide ApplyDelta;
    var n := |ds| - 1;
    if i < n {
      ApplyAllAt(view, ds[..n], now, i);
    } else {
      ApplyAllElsewhere(view, ds[..n], now, ds[n].id);
    }
  }

  lemma ReportKeepsSampled(p: Peer, digest: Digest, now: Instant)
    requires p.cfg.Valid() && AllSampled(p.cfg, p.detector)
    ensures AllSampled(p.cfg, ReportHeartbeats(p, digest, now).detector)
  {
    var q := ReportHeartbeats(p, digest, now);
    forall o | o in q.detector.samples ensures Sampled(p.cfg, q.detector.samples[o]) {
      HeardKeepsSampled(p.cfg, WindowOf(p.detector, o), now);
    }
  }

  lemma UpdateKeepsSampled(p: Peer, now: Instant)
    requires Healthy(p)
    ensures Healthy(UpdateNodesLiveness(p, now))
  {
    hide IsAlive;
  }

  lemma {:induction false} ApplyAllKeepsKeys(view: View, ds: seq<NodeDelta>, now: Instant, n: ChitchatId)
    requires n in view
    ensures n in ApplyAll(view, ds, now)
  {
    if ds != [] {
      ApplyAllKeepsKeys(view, ds[..|ds| - 1], now, n);
    }
  }
}
