/** The peer as an object (chitchat/src/lib.rs, `Chitchat`): its methods do what the relations of `Gossip` say. */
module Chitchats {
  import opened ChitchatTypes
  import opened NodeStates
  import opened FailureDetectors
  import opened Gossip
  import opened Streams
  import opened Deltas
  import opened Wire
  import opened DeltaSerializers
  import opened ClusterStates
  import opened Scuttlebutt
  import opened Numbering
  import opened Watchers

  // ----- heartbeats and liveness, one node at a time -----

  function Restrict(digest: Digest, ids: set<ChitchatId>): Digest {
    map o | o in digest && o in ids :: digest[o]
  }

  /** `report_heartbeat`. */
  function ReportOne(p: Peer, o: ChitchatId, heartbeat: nat, now: Instant): Peer {
    if o == p.id then p
    else
      var (s, isUpdate) := TrySetHeartbeat(NodeOf(p.view, o), heartbeat);
      p.(view := p.view[o := s],
         detector := if isUpdate then ReportHeartbeat(p.cfg, p.detector, o, now) else p.detector)
  }

  lemma ViewOneMore(p: Peer, digest: Digest, done: set<ChitchatId>, o: ChitchatId, now: Instant)
    requires o in digest && o !in done && o != p.id
    ensures var q := ReportHeartbeats(p, Restrict(digest, done), now);
            && NodeOf(q.view, o) == NodeOf(p.view, o)
            && ReportHeartbeats(p, Restrict(digest, done + {o}), now).view
               == q.view[o := TrySetHeartbeat(NodeOf(p.view, o), digest[o].heartbeat).0]
  {
    hide TrySetHeartbeat, Heard, FreshHeartbeats;
  }

  lemma FreshOneMore(p: Peer, digest: Digest, done: set<ChitchatId>, o: ChitchatId)
    requires o in digest && o !in done && o != p.id
    ensures FreshHeartbeats(p, Restrict(digest, done + {o}))
            == FreshHeartbeats(p, Restrict(digest, done))
               + if TrySetHeartbeat(NodeOf(p.view, o), digest[o].heartbeat).1 then {o} else {}
    ensures o !in FreshHeartbeats(p, Restrict(digest, done))
  {
    hide TrySetHeartbeat, Heard, NodeOf;
  }

  lemma SamplesOneMore(p: Peer, d0: Digest, d1: Digest, o: ChitchatId, now: Instant)
    requires o !in FreshHeartbeats(p, d0) && FreshHeartbeats(p, d1) == FreshHeartbeats(p, d0) + {o}
    ensures ReportHeartbeats(p, d1, now).detector
            == ReportHeartbeat(p.cfg, ReportHeartbeats(p, d0, now).detector, o, now)
  {
    hide TrySetHeartbeat, Heard, NodeOf, FreshHeartbeats;
    assert ReportHeartbeats(p, d1, now).detector.samples
           == ReportHeartbeat(p.cfg, ReportHeartbeats(p, d0, now).detector, o, now).samples;
  }

  /** The entries of a digest can be reported in any order. */
  lemma ReportOneMore(p: Peer, digest: Digest, done: set<ChitchatId>, o: ChitchatId, now: Instant)
    requires o in digest && o !in done
    ensures ReportHeartbeats(p, Restrict(digest, done + {o}), now)
            == ReportOne(ReportHeartbeats(p, Restrict(digest, done), now), o, digest[o].heartbeat, now)
  {
    hide TrySetHeartbeat, Heard, NodeOf, FreshHeartbeats;
    if o == p.id {
      OwnEntryIsIgnored(p, Restrict(digest, done), Restrict(digest, done + {o}), now);
    } else {
      ViewOneMore(p, digest, done, o, now);
      FreshOneMore(p, digest, done, o);
      if TrySetHeartbeat(NodeOf(p.view, o), digest[o].heartbeat).1 {
        SamplesOneMore(p, Restrict(digest, done), Restrict(digest, done + {o}), o, now);
      }
    }
  }

  lemma OwnEntryIsIgnored(p: Peer, d0: Digest, d1: Digest, now: Instant)
    requires d0 - {p.id} == d1 - {p.id}
    ensures ReportHeartbeats(p, d0, now) == ReportHeartbeats(p, d1, now)
  {
    hide TrySetHeartbeat, Heard, NodeOf;
    assert forall o :: o != p.id ==> (o in d0 <==> o in d1 - {p.id}) && (o in d1 <==> o in d1 - {p.id});
    assert forall o :: o != p.id && o in d0 ==> d0[o] == (d1 - {p.id})[o] == d1[o];
    assert FreshHeartbeats(p, d0) == FreshHeartbeats(p, d1);
    assert ReportHeartbeats(p, d0, now).view == ReportHeartbeats(p, d1, now).view;
  }

  lemma JudgedIndependently(cfg: Config, d: Detector, done: set<ChitchatId>, o: ChitchatId, now: Instant)
    requires cfg.Valid() && AllSampled(cfg, d) && AllSampled(cfg, UpdateAll(cfg, d, done, now)) && o !in done
    ensures IsAlive(cfg, UpdateAll(cfg, d, done, now), o, now) == IsAlive(cfg, d, o, now)
  {
    hide Phi;
  }

  lemma SamplesAfterOneMore(cfg: Config, d: Detector, done: set<ChitchatId>, o: ChitchatId, now: Instant)
    requires cfg.Valid() && AllSampled(cfg, d) && o !in done
    ensures var before := UpdateAll(cfg, d, done, now).samples;
            UpdateAll(cfg, d, done + {o}, now).samples
            == if !IsAlive(cfg, d, o, now) && o in before then before[o := before[o].(intervals := [])] else before
  {
    hide IsAlive;
  }

  lemma LiveAfterOneMore(cfg: Config, d: Detector, done: set<ChitchatId>, o: ChitchatId, now: Instant)
    requires cfg.Valid() && AllSampled(cfg, d) && o !in done
    ensures var before := UpdateAll(cfg, d, done, now).live;
            UpdateAll(cfg, d, done + {o}, now).live
            == if IsAlive(cfg, d, o, now) then before + {o} else before - {o}
  {
    hide IsAlive;
  }

  lemma DeadAfterOneMore(cfg: Config, d: Detector, done: set<ChitchatId>, o: ChitchatId, now: Instant)
    requires cfg.Valid() && AllSampled(cfg, d) && o !in done
    ensures var before := UpdateAll(cfg, d, done, now).dead;
            UpdateAll(cfg, d, done + {o}, now).dead
            == if IsAlive(cfg, d, o, now) then before - {o}
               else if o in before then before else before[o := now]
  {
    hide IsAlive;
  }

  /** So can the nodes be judged. */
  lemma UpdateOneMore(cfg: Config, d: Detector, done: set<ChitchatId>, o: ChitchatId, now: Instant)
    requires cfg.Valid() && AllSampled(cfg, d) && AllSampled(cfg, UpdateAll(cfg, d, done, now)) && o !in done
    ensures UpdateAll(cfg, d, done + {o}, now) == UpdateLiveness(cfg, UpdateAll(cfg, d, done, now), o, now)
  {
    hide IsAlive, UpdateAll, AllSampled;
    JudgedIndependently(cfg, d, done, o, now);
    SamplesAfterOneMore(cfg, d, done, o, now);
    LiveAfterOneMore(cfg, d, done, o, now);
    DeadAfterOneMore(cfg, d, done, o, now);
  }

  // ----- what the source asserts about its answers -----

  /** A delta can be computed: the limit is at least 100, and what is accepted fits the 16-bit length of a stored
      block. That the versions of a node's records are distinct, every peer keeps by itself. */
  ghost predicate Sendable(view: View, digest: Digest, mtu: int) {
    && mtu >= MIN_MTU
    && (forall o :: o in view ==> Writable(mtu, StaleNode(o, view[o], FromVersion(view[o], DigestOf(digest, o)))))
  }

  ghost predicate Answerable(z: Zstd, p: Peer, maxPayload: nat, msg: Message, now: Instant) {
    match msg
    case Syn(clusterId, digest) =>
      clusterId == p.clusterId ==>
        var q := ReportHeartbeats(BumpSelf(p), digest, now);
        forall es :: Enumerates(es, ComputeDigest(q.view, Scheduled(q, now))) ==>
                       Sendable(q.view, digest, maxPayload - 1 - |PutDigest(z, es)|)
    case SynAck(digest, delta) =>
      Sendable(ApplyAll(ReportHeartbeats(BumpSelf(p), digest, now).view, delta.nodeDeltas, now), digest, maxPayload - 1)
    case Ack(_) => true
    case BadCluster => true
  }

  /** The limit that the source sets for the delta of an answer. */
  ghost function Room(z: Zstd, maxPayload: nat, reply: Message, es: seq<Entry>): int {
    maxPayload - 1 - if reply.SynAck? then |PutDigest(z, es)| else 0
  }

  /** The exact length of an answer, and what its delta keeps to. */
  ghost predicate Measured(z: Zstd, maxPayload: nat, reply: Message, es: seq<Entry>) {
    match reply
    case Syn(_, _) => false
    case SynAck(digest, delta) =>
      && Enumerates(es, digest) && WellFormed(delta.nodeDeltas)
      && |PutMessage(z, reply, es)| == HEADER_LEN + |PutDigest(z, es)| + delta.serializedLen
      && (Predictable(maxPayload, Operations(delta.nodeDeltas)) ==>
            delta.serializedLen <= Room(z, maxPayload, reply, es))
    case Ack(delta) =>
      && WellFormed(delta.nodeDeltas)
      && |PutMessage(z, reply, es)| == HEADER_LEN + delta.serializedLen
      && (Predictable(maxPayload, Operations(delta.nodeDeltas)) ==>
            delta.serializedLen <= Room(z, maxPayload, reply, es))
    case BadCluster => |PutMessage(z, reply, es)| == HEADER_LEN
  }

  /** The header takes 4 bytes, of which the source sets 1 aside: an answer fits the payload size exactly if its delta
      leaves 3 bytes of its limit, and is at most 3 bytes too long. */
  lemma AnswerFitsExactly(z: Zstd, maxPayload: nat, reply: Message, es: seq<Entry>)
    requires Measured(z, maxPayload, reply, es) && (reply.SynAck? || reply.Ack?)
    ensures |PutMessage(z, reply, es)| <= maxPayload <==>
            reply.delta.serializedLen + 3 <= Room(z, maxPayload, reply, es)
    ensures Predictable(maxPayload, Operations(reply.delta.nodeDeltas)) ==>
              |PutMessage(z, reply, es)| <= maxPayload + 3
  {
    hide PutMessage, PutDigest, Predictable, Operations;
  }

  lemma SynAckLength(z: Zstd, maxPayload: nat, digest: Digest, delta: Delta, es: seq<Entry>)
    requires maxPayload >= 1 + |PutDigest(z, es)| && Enumerates(es, digest) && WellFormed(delta.nodeDeltas)
    requires delta.serializedLen == |DeltaPayload(z, delta.nodeDeltas)|
    requires Predictable(maxPayload - 1 - |PutDigest(z, es)|, Operations(delta.nodeDeltas)) ==>
               delta.serializedLen <= maxPayload - 1 - |PutDigest(z, es)|
    ensures Measured(z, maxPayload, SynAck(digest, delta), es)
  {
    hide Enumerates, PutDigest, DeltaPayload, Operations, PutOp, WellFormed, Header;
    HeaderLength(1);
  }

  lemma AckLength(z: Zstd, maxPayload: nat, delta: Delta)
    requires maxPayload >= 1 && WellFormed(delta.nodeDeltas)
    requires delta.serializedLen == |DeltaPayload(z, delta.nodeDeltas)|
    requires Predictable(maxPayload - 1, Operations(delta.nodeDeltas)) ==> delta.serializedLen <= maxPayload - 1
    ensures Measured(z, maxPayload, Ack(delta), [])
  {
    hide DeltaPayload, Operations, PutOp, WellFormed, Header;
    HeaderLength(2);
  }

  // ----- the object -----

  class Chitchat {
    const id: ChitchatId
    const clusterId: Text
    const keyGrace: Duration
    const maxPayload: nat
    const zstd: LawfulZstd
    /** The extra predicate on nodes that are shown to watchers; always true, if none is configured. */
    const isReady: State -> bool
    const cluster: ClusterState
    const detector: FailureDetector
    var previousLiveNodes: map<ChitchatId, Version>

    function Abs(): Peer
      reads cluster, detector
    {
      Peer(id, clusterId, detector.cfg, keyGrace, cluster.nodeStates, detector.Abs())
    }

    ghost predicate Valid()
      reads cluster, detector
    {
      detector.Valid() && NumberedView(cluster.nodeStates) && Tended(Abs())
    }

    /** A new peer: its own state has a heartbeat and the initial records. */
    constructor (id: ChitchatId, clusterId: Text, cfg: Config, keyGrace: Duration, maxPayload: nat, zstd: LawfulZstd,
                 isReady: State -> bool, initial: seq<(Text, Text)>)
      requires cfg.Valid()
      ensures Valid() && fresh(cluster) && fresh(detector)
      ensures this.maxPayload == maxPayload && this.zstd == zstd
      ensures this.isReady == isReady && previousLiveNodes == map[]
      ensures Abs() == Peer(id, clusterId, cfg, keyGrace,
                            map[id := SetAll(EMPTY.(heartbeat := 1), initial)], NEW_DETECTOR)
    {
      this.id, this.clusterId, this.keyGrace, this.maxPayload, this.zstd := id, clusterId, keyGrace, maxPayload, zstd;
      this.isReady, previousLiveNodes := isReady, map[];
      cluster := new ClusterState(map[]);
      detector := new FailureDetector(cfg);
      new;
      var self := new NodeState(EMPTY.(heartbeat := 1));
      for i := 0 to |initial|
        invariant fresh(self) && self.Abs() == SetAll(EMPTY.(heartbeat := 1), initial[..i])
        invariant cluster.nodeStates == map[] && detector.Abs() == NEW_DETECTOR && detector.Valid()
        invariant previousLiveNodes == map[]
      {
        assert initial[..i + 1][..i] == initial[..i];
        self.SetValue(initial[i].0, initial[i].1);
      }
      assert initial[..|initial|] == initial;
      cluster.nodeStates := map[id := self.Abs()];
      EmptyIsNumbered(1);
      SetAllKeepsNumbers(EMPTY.(heartbeat := 1), initial);
    }

    method UpdateSelfHeartbeat()
      modifies cluster
      ensures Abs() == BumpSelf(old(Abs()))
    {
      var s := NodeOf(cluster.nodeStates, id);
      cluster.nodeStates := cluster.nodeStates[id := s.(heartbeat := (s.heartbeat + 1) % U64_MODULUS)];
    }

    method ReportHeartbeat(o: ChitchatId, heartbeat: nat, now: Instant)
      requires detector.Valid()
      modifies cluster, detector
      ensures detector.Valid() && Abs() == ReportOne(old(Abs()), o, heartbeat, now)
    {
      hide TrySetHeartbeat, Heard, AllSampled;
      if o == id {
        return;
      }
      var node := new NodeState(NodeOf(cluster.nodeStates, o));
      var isUpdate := node.OfferHeartbeat(heartbeat);
      cluster.nodeStates := cluster.nodeStates[o := node.Abs()];
      if isUpdate {
        detector.Report(o, now);
      }
    }

    method ReportHeartbeatsInDigest(digest: Digest, now: Instant)
      requires detector.Valid()
      modifies cluster, detector
      ensures detector.Valid() && Abs() == ReportHeartbeats(old(Abs()), digest, now)
    {
      hide ReportOne, AllSampled, TrySetHeartbeat, Heard;
      ghost var p := Abs();
      ghost var done: set<ChitchatId> := {};
      var pending := digest.Keys;
      NothingToReport(p, Restrict(digest, done), now);
      hide ReportHeartbeats;
      while pending != {}
        invariant detector.Valid() && pending + done == digest.Keys && pending !! done
        invariant Abs() == ReportHeartbeats(p, Restrict(digest, done), now)
        decreases pending
      {
        var o :| o in pending;
        pending := pending - {o};
        ReportOneMore(p, digest, done, o, now);
        ReportHeartbeat(o, digest[o].heartbeat, now);
        done := done + {o};
      }
      assert Restrict(digest, done) == digest;
    }

    /** Every known node but oneself is judged. */
    method JudgeNodes(now: Instant)
      requires detector.Valid()
      modifies detector
      ensures detector.Valid() && Abs() == Judged(old(Abs()), now)
    {
      hide AllSampled, UpdateLiveness, IsAlive;
      ghost var d := detector.Abs();
      ghost var done: set<ChitchatId> := {};
      var pending := cluster.nodeStates.Keys - {id};
      NothingToJudge(detector.cfg, d, now);
      hide UpdateAll;
      while pending != {}
        invariant detector.Valid() && pending + done == cluster.nodeStates.Keys - {id} && pending !! done
        invariant detector.Abs() == UpdateAll(detector.cfg, d, done, now)
        decreases pending
      {
        var o :| o in pending;
        pending := pending - {o};
        UpdateOneMore(detector.cfg, d, done, o, now);
        detector.UpdateNodeLiveness(o, now);
        done := done + {o};
      }
      assert done == cluster.nodeStates.Keys - {id};
    }

    /** The watchers are sent the live nodes when their versions are not what they were. */
    method PublishLiveNodes() returns (published: Option<View>)
      modifies this`previousLiveNodes
      ensures previousLiveNodes == LiveVersions(Abs())
      ensures published.Some? <==> old(previousLiveNodes) != LiveVersions(Abs())
      ensures published.Some? ==> published.value == LiveStates(Abs(), isReady)
    {
      var live := {id} + detector.live;
      var current := map o | o in live && o in cluster.nodeStates :: cluster.nodeStates[o].maxVersion;
      if previousLiveNodes == current {
        return None;
      }
      previousLiveNodes := current;
      return Some(map o | o in current && isReady(cluster.nodeStates[o]) :: cluster.nodeStates[o]);
    }

    /** What the failure detector forgets is removed. */
    method ForgetCollected(now: Instant)
      requires detector.Valid()
      modifies cluster, detector
      ensures detector.Valid() && Abs() == Forgotten(old(Abs()), now)
    {
      hide AllSampled;
      ghost var judged := detector.Abs();
      var collected := detector.CollectGarbage(now);
      hide GarbageCollect;
      for i := 0 to |collected|
        modifies cluster
        invariant cluster.nodeStates == old(cluster.nodeStates) - (set o | o in collected[..i])
      {
        cluster.nodeStates := cluster.nodeStates - {collected[i]};
      }
      assert collected[..|collected|] == collected;
      assert (set o | o in collected) == Collectible(detector.cfg, judged, now);
    }

    method UpdateNodesLiveness(now: Instant) returns (published: Option<View>)
      requires Valid()
      modifies this`previousLiveNodes, cluster, detector
      ensures Valid() && Abs() == Gossip.UpdateNodesLiveness(old(Abs()), now)
      ensures previousLiveNodes == LiveVersions(Judged(old(Abs()), now))
      ensures published.Some? <==> old(previousLiveNodes) != LiveVersions(Judged(old(Abs()), now))
      ensures published.Some? ==> published.value == LiveStates(Judged(old(Abs()), now), isReady)
    {
      hide NumberedView, Tended, AllSampled, UpdateAll, GarbageCollect, Collectible, LiveVersions, LiveStates;
      LivenessKeepsNumbers(Abs(), now);
      UpdateKeepsTended(Abs(), now);
      JudgeNodes(now);
      published := PublishLiveNodes();
      ForgetCollected(now);
    }

    /** The answer to a `Syn` of the same cluster, once its heartbeats are reported. */
    method AnswerSyn(digest: Digest, now: Instant) returns (reply: Message, ghost es: seq<Entry>)
      requires NumberedView(cluster.nodeStates)
      requires forall es :: Enumerates(es, ComputeDigest(cluster.nodeStates, Scheduled(Abs(), now))) ==>
                              Sendable(cluster.nodeStates, digest, maxPayload - 1 - |PutDigest(zstd, es)|)
      ensures reply.SynAck?
      ensures reply.digest == ComputeDigest(cluster.nodeStates, Scheduled(Abs(), now))
      ensures IsPartialDelta(cluster.nodeStates, digest, Scheduled(Abs(), now), reply.delta)
      ensures Measured(zstd, maxPayload, reply, es)
    {
      hide Enumerates, PutDigest, ComputeDigest, ScheduledForDeletion, DeltaPayload, Predictable, Operations;
      hide NumberedView, DistinctVersions, Writable, Follows, IsNext, Overflows, IsPartialDelta, WellFormed,
        Measured, Ranked;
      var scheduled := ScheduledForDeletion(detector.cfg, detector.Abs(), now);
      var own := ComputeDigest(cluster.nodeStates, scheduled);
      var written;
      written, es := SerializeDigest(zstd, own, []);
      var mtu := maxPayload - 1 - |written|;
      assert Sendable(cluster.nodeStates, digest, mtu);
      NumberedIsDistinct(cluster.nodeStates);
      var delta, _, _, _ := cluster.ComputePartialDelta(zstd, digest, mtu, scheduled);
      reply := SynAck(own, delta);
      SynAckLength(zstd, maxPayload, own, delta, es);
    }

    /** The answer to a `SynAck`, once its heartbeats are reported and its delta is applied. */
    method AnswerSynAck(digest: Digest, now: Instant) returns (reply: Message)
      requires NumberedView(cluster.nodeStates) && Sendable(cluster.nodeStates, digest, maxPayload - 1)
      ensures reply.Ack?
      ensures IsPartialDelta(cluster.nodeStates, digest, Scheduled(Abs(), now), reply.delta)
      ensures Measured(zstd, maxPayload, reply, [])
    {
      hide ScheduledForDeletion, DeltaPayload, Predictable, Operations;
      hide NumberedView, DistinctVersions, Writable, Follows, IsNext, Overflows, IsPartialDelta, WellFormed,
        Measured, Ranked;
      var scheduled := ScheduledForDeletion(detector.cfg, detector.Abs(), now);
      NumberedIsDistinct(cluster.nodeStates);
      var delta, _, _, _ := cluster.ComputePartialDelta(zstd, digest, maxPayload - 1, scheduled);
      reply := Ack(delta);
      AckLength(zstd, maxPayload, delta);
    }

    method ProcessMessage(msg: Message, now: Instant) returns (reply: Option<Message>, ghost es: seq<Entry>)
      requires Valid() && VersionsInOrder(DeltasIn(msg)) && Answerable(zstd, Abs(), maxPayload, msg, now)
      modifies cluster, detector
      ensures Valid() && Received(old(Abs()), msg, now, Abs(), reply)
      ensures reply.Some? ==> Measured(zstd, maxPayload, reply.value, es)
    {
      hide AllSampled, BumpSelf, ReportHeartbeats, ComputeDigest, IsPartialDelta, ApplyAll, ScheduledForDeletion;
      hide Enumerates, PutDigest, Sendable, DeltaPayload, Predictable, Operations, WellFormed, Header;
      hide NumberedView, VersionsInOrder, Tended;
      ghost var p := Abs();
      BumpKeepsNumbers(p);
      BumpKeepsTended(p);
      UpdateSelfHeartbeat();
      reply, es := None, [];
      match msg {
        case Syn(theirCluster, digest) =>
          if theirCluster != clusterId {
            HeaderLength(3);
            reply := Some(BadCluster);
          } else {
            ReportKeepsNumbers(BumpSelf(p), digest, now);
            ReportKeepsTended(BumpSelf(p), digest, now);
            ReportHeartbeatsInDigest(digest, now);
            var answer;
            answer, es := AnswerSyn(digest, now);
            reply := Some(answer);
          }
        case SynAck(digest, delta) =>
          ReportKeepsNumbers(BumpSelf(p), digest, now);
          DeltasKeepNumbers(ReportHeartbeats(BumpSelf(p), digest, now).view, delta.nodeDeltas, now);
          ReportKeepsTended(BumpSelf(p), digest, now);
          DeltasKeepTended(ReportHeartbeats(BumpSelf(p), digest, now), delta.nodeDeltas, now);
          ReportHeartbeatsInDigest(digest, now);
          cluster.ApplyDelta(delta, now);
          var answer := AnswerSynAck(digest, now);
          reply := Some(answer);
        case Ack(delta) =>
          DeltasKeepNumbers(BumpSelf(p).view, delta.nodeDeltas, now);
          DeltasKeepTended(BumpSelf(p), delta.nodeDeltas, now);
          cluster.ApplyDelta(delta, now);
        case BadCluster =>
      }
    }

    method GcKeysMarkedForDeletion(now: Instant)
      requires Valid()
      modifies cluster
      ensures Valid() && CollectedKeys(old(Abs()), now, Abs())
    {
      hide Collected, AllSampled, Numbered, Tended;
      ghost var p := Abs();
      cluster.GcKeysMarkedForDeletion(now, keyGrace);
      CollectedKeysKeepNumbers(p, now, Abs());
      CollectKeepsTended(p, now, Abs());
    }
  }

  function SetAll(s: State, kvs: seq<(Text, Text)>): State
    decreases |kvs|
  {
    if kvs == [] then s else SetKey(SetAll(s, kvs[..|kvs| - 1]), kvs[|kvs| - 1].0, kvs[|kvs| - 1].1)
  }

  lemma {:induction false} SetAllKeepsNumbers(s: State, kvs: seq<(Text, Text)>)
    requires Numbered(s)
    ensures Numbered(SetAll(s, kvs))
    decreases |kvs|
  {
    hide Numbered;
    if kvs != [] {
      var n := |kvs| - 1;
      SetAllKeepsNumbers(s, kvs[..n]);
      WriteKeepsNumbers(SetAll(s, kvs[..n]), NodeRuns.WriteSet(kvs[n].0, kvs[n].1), 0.0);
    }
  }

  /** The initial records of a peer: of every key that is given a value, the last one, not scheduled for deletion. */
  lemma {:induction false} InitialRecords(kvs: seq<(Text, Text)>, k: Text)
    ensures var s := SetAll(EMPTY.(heartbeat := 1), kvs).keyValues;
            && (k in s <==> exists i :: 0 <= i < |kvs| && kvs[i].0 == k)
            && (k in s ==> && s[k].status == Set
                           && exists i :: 0 <= i < |kvs| && kvs[i] == (k, s[k].value)
                                          && forall j :: i < j < |kvs| ==> kvs[j].0 != k)
    decreases |kvs|
  {
    if kvs != [] {
      var n := |kvs| - 1;
      InitialRecords(kvs[..n], k);
      var before := SetAll(EMPTY.(heartbeat := 1), kvs[..n]);
      EmptyIsNumbered(1);
      SetAllKeepsNumbers(EMPTY.(heartbeat := 1), kvs[..n]);
      assert kvs == kvs[..n] + [kvs[n]];
      var s := SetAll(EMPTY.(heartbeat := 1), kvs).keyValues;
      if kvs[n].0 == k {
        assert kvs[n] == (k, s[k].value);
      } else if k in s {
        var i :| && 0 <= i < n && kvs[..n][i] == (k, before.keyValues[k].value)
                 && forall j :: i < j < n ==> kvs[..n][j].0 != k;
        assert kvs[i] == (k, s[k].value);
      }
    }
  }

  lemma NothingToReport(p: Peer, digest: Digest, now: Instant)
    requires digest == map[]
    ensures ReportHeartbeats(p, digest, now) == p
  {
    var q := ReportHeartbeats(p, digest, now);
    assert FreshHeartbeats(p, digest) == {};
    assert q.view == p.view && q.detector.samples == p.detector.samples;
  }

  lemma NothingToJudge(cfg: Config, d: Detector, now: Instant)
    requires cfg.Valid() && AllSampled(cfg, d)
    ensures UpdateAll(cfg, d, {}, now) == d
  {
    hide IsAlive;
    var e := UpdateAll(cfg, d, {}, now);
    assert e.samples == d.samples && e.live == d.live && e.dead == d.dead;
  }
}
