/** Removing a dead node from the whole cluster: half of the grace period for the peers to stop talking about it,
the other half for the last messages to die out (chitchat/src/failure_detector.rs, chitchat/src/lib.rs). */
module Removal {
  import opened ChitchatTypes
  import opened NodeStates
  import opened NodeRuns
  import opened FailureDetectors
  import opened Gossip

  datatype Envelope = Envelope(sentAt: Instant, msg: Message)

  /** All peers at one moment. A message may be received, any number of times, up to `delay` after it was sent. */
  datatype Timed = Timed(now: Instant, peers: map<ChitchatId, Peer>, network: set<Envelope>)

  datatype TimedStep =
    | Advance
    | WriteAt(at: ChitchatId, write: Write)
    | CollectKeysAt(at: ChitchatId)
    | UpdateLivenessAt(at: ChitchatId)
    | GossipAt(at: ChitchatId)
    | ReceiveAt(at: ChitchatId, envelope: Envelope)

  /** What is fixed in a run: the dead node, its last heartbeat, the first and the last instant at which a peer
      declared it dead, the grace period and the greatest delay of a message. */
  datatype Death = Death(
    node: ChitchatId,
    heartbeat: nat,
    first: Instant,
    last: Instant,
    grace: Duration,
    delay: Duration)
  {
    predicate Sound() { 0 < heartbeat && first <= last && 0.0 <= grace && 0.0 <= delay }

    /** The peers declared the node dead so close to each other that the last message about it has died out when the
        first of them removes it. */
    predicate InTime() { last - first < grace / 2.0 - delay }

    predicate Valid() { Sound() && InTime() }
  }

  ghost predicate OnlyPeerChanges(s: Timed, at: ChitchatId, t: Timed) {
    && t.now == s.now && at in s.peers && t.peers.Keys == s.peers.Keys
    && (forall n :: n in s.peers && n != at ==> t.peers[n] == s.peers[n])
  }

  ghost predicate TimedNext(d: Death, s: Timed, step: TimedStep, t: Timed) {
    match step
    case Advance =>
      s.now <= t.now && t == s.(now := t.now)
    case WriteAt(at, w) =>
      && OnlyPeerChanges(s, at, t) && t.network == s.network
      && t.peers[at] == s.peers[at].(view := s.peers[at].view[at := ApplyWrite(NodeOf(s.peers[at].view, at), w, s.now)])
    case CollectKeysAt(at) =>
      OnlyPeerChanges(s, at, t) && t.network == s.network && CollectedKeys(s.peers[at], s.now, t.peers[at])
    case UpdateLivenessAt(at) =>
      && OnlyPeerChanges(s, at, t) && t.network == s.network
      && s.peers[at].cfg.Valid() && AllSampled(s.peers[at].cfg, s.peers[at].detector)
      && t.peers[at] == UpdateNodesLiveness(s.peers[at], s.now)
    case GossipAt(at) =>
      && OnlyPeerChanges(s, at, t)
      && t.peers[at] == BumpSelf(s.peers[at])
      && t.network == s.network + {Envelope(s.now, CreateSyn(t.peers[at], s.now))}
    case ReceiveAt(at, env) =>
      && OnlyPeerChanges(s, at, t)
      && env in s.network && s.now <= env.sentAt + d.delay
      && exists reply :: Received(s.peers[at], env.msg, s.now, t.peers[at], reply)
                         && t.network == s.network + (if reply.Some? then {Envelope(s.now, reply.value)} else {})
  }

  // ----- the invariant -----

  ghost predicate Mentions(msg: Message, x: ChitchatId) {
    match msg
    case Syn(_, digest) => x in digest
    case SynAck(digest, delta) => x in digest || exists i :: 0 <= i < |delta.nodeDeltas| && delta.nodeDeltas[i].id == x
    case Ack(delta) => exists i :: 0 <= i < |delta.nodeDeltas| && delta.nodeDeltas[i].id == x
    case BadCluster => false
  }

  ghost predicate QuietDigest(d: Death, digest: Digest) {
    d.node in digest ==> digest[d.node].heartbeat == 0 || digest[d.node].heartbeat == d.heartbeat
  }

  /** The message dates from when its sender still talked about the node, and brings no new heartbeat of it. */
  ghost predicate QuietEnvelope(d: Death, env: Envelope) {
    && (Mentions(env.msg, d.node) ==> env.sentAt <= d.last + d.grace / 2.0)
    && (env.msg.Syn? || env.msg.SynAck? ==> QuietDigest(d, env.msg.digest))
  }

  /** The peer knows that the node is dead, since an instant in the window. */
  ghost predicate Mourns(d: Death, p: Peer) {
    && d.node in p.view && d.node in p.detector.dead
    && d.first <= p.detector.dead[d.node] <= d.last
    && (p.view[d.node].heartbeat == 0 || p.view[d.node].heartbeat == d.heartbeat)
    && (d.node in p.detector.samples ==> p.detector.samples[d.node].intervals == [])
  }

  ghost predicate Forgot(d: Death, p: Peer, now: Instant) {
    && d.node !in p.view && d.node !in p.detector.dead && d.node !in p.detector.samples
    && d.first + d.grace <= now
  }

  ghost predicate CopesWithDeath(d: Death, n: ChitchatId, p: Peer, now: Instant) {
    && p.id == n && n != d.node && n in p.view && n !in p.detector.dead
    && p.cfg.deadNodeGracePeriod == d.grace
    && (Mourns(d, p) || Forgot(d, p, now))
  }

  ghost predicate Settled(d: Death, s: Timed) {
    && (forall n :: n in s.peers ==> CopesWithDeath(d, n, s.peers[n], s.now))
    && (forall env :: env in s.network && s.now <= env.sentAt + d.delay ==> QuietEnvelope(d, env))
  }

  // ----- what a peer sends -----

  lemma MourningDigestIsQuiet(d: Death, n: ChitchatId, p: Peer, now: Instant)
    requires d.Valid() && CopesWithDeath(d, n, p, now)
    ensures var digest := ComputeDigest(p.view, Scheduled(p, now));
            QuietDigest(d, digest) && (d.node in digest ==> now <= d.last + d.grace / 2.0)
  {
  }

  lemma MourningDeltaIsQuiet(d: Death, n: ChitchatId, p: Peer, now: Instant, digest: Digest, delta: Delta)
    requires d.Valid() && CopesWithDeath(d, n, p, now)
    requires IsPartialDelta(p.view, digest, Scheduled(p, now), delta)
    ensures (exists i :: 0 <= i < |delta.nodeDeltas| && delta.nodeDeltas[i].id == d.node) ==>
              now <= d.last + d.grace / 2.0
  {
    if i :| 0 <= i < |delta.nodeDeltas| && delta.nodeDeltas[i].id == d.node {
      assert IsStale(p.view, digest, Scheduled(p, now), d.node);
    }
  }

  // ----- what a peer receives -----

  lemma {:induction false} DeltasKeepQuiet(d: Death, view: View, ds: seq<NodeDelta>, now: Instant)
    requires d.node in view && (view[d.node].heartbeat == 0 || view[d.node].heartbeat == d.heartbeat)
    ensures var after := ApplyAll(view, ds, now);
            d.node in after && (after[d.node].heartbeat == 0 || after[d.node].heartbeat == d.heartbeat)
  {
    if ds != [] {
      var n := |ds| - 1;
      DeltasKeepQuiet(d, view, ds[..n], now);
      if ds[n].id == d.node {
        var s := ApplyAll(view, ds[..n], now)[d.node];
        MutationsEffect(s, ds[n].keyValues, s.maxVersion, now);
        MutationsEffect(ResetTo(ds[n]), ds[n].keyValues, ResetTo(ds[n]).maxVersion, now);
      }
    }
  }

  lemma ReportKeepsMourning(d: Death, p: Peer, digest: Digest, now: Instant)
    requires d.Valid() && Mourns(d, p) && p.id != d.node && QuietDigest(d, digest)
    ensures Mourns(d, ReportHeartbeats(p, digest, now))
  {
    assert d.node !in FreshHeartbeats(p, digest);
  }

  lemma ReceiveKeepsMourning(d: Death, p: Peer, msg: Message, now: Instant, q: Peer, reply: Option<Message>)
    requires d.Valid() && Mourns(d, p) && p.id != d.node && Received(p, msg, now, q, reply)
    requires msg.Syn? || msg.SynAck? ==> QuietDigest(d, msg.digest)
    ensures Mourns(d, q)
  {
    var bumped := BumpSelf(p);
    assert Mourns(d, bumped);
    match msg
    case Syn(_, digest) =>
      ReportKeepsMourning(d, bumped, digest, now);
    case SynAck(digest, delta) =>
      ReportKeepsMourning(d, bumped, digest, now);
      DeltasKeepQuiet(d, ReportHeartbeats(bumped, digest, now).view, delta.nodeDeltas, now);
    case Ack(delta) =>
      DeltasKeepQuiet(d, bumped.view, delta.nodeDeltas, now);
    case BadCluster =>
  }

  lemma ReceiveKeepsForgotten(d: Death, p: Peer, msg: Message, now: Instant, q: Peer, reply: Option<Message>)
    requires Forgot(d, p, now) && p.id != d.node && Received(p, msg, now, q, reply)
    requires !Mentions(msg, d.node)
    ensures Forgot(d, q, now)
  {
    var bumped := BumpSelf(p);
    match msg
    case Syn(_, _) =>
    case SynAck(digest, delta) =>
      ApplyAllElsewhere(ReportHeartbeats(bumped, digest, now).view, delta.nodeDeltas, now, d.node);
    case Ack(delta) =>
      ApplyAllElsewhere(bumped.view, delta.nodeDeltas, now, d.node);
    case BadCluster =>
  }

  lemma ReceivedFrame(p: Peer, msg: Message, now: Instant, q: Peer, reply: Option<Message>)
    requires Received(p, msg, now, q, reply)
    ensures q.id == p.id && q.cfg == p.cfg && p.id in q.view && q.detector.dead == p.detector.dead
  {
    var bumped := BumpSelf(p);
    if msg.SynAck? {
      ApplyAllKeepsKeys(ReportHeartbeats(bumped, msg.digest, now).view, msg.delta.nodeDeltas, now, p.id);
    } else if msg.Ack? {
      ApplyAllKeepsKeys(bumped.view, msg.delta.nodeDeltas, now, p.id);
    }
  }

  /** A message that mentions the node is too old to be still under way once anyone has forgotten it. */
  lemma ReceiveCopes(d: Death, n: ChitchatId, p: Peer, env: Envelope, now: Instant, q: Peer, reply: Option<Message>)
    requires d.Valid() && CopesWithDeath(d, n, p, now) && QuietEnvelope(d, env) && now <= env.sentAt + d.delay
    requires Received(p, env.msg, now, q, reply)
    ensures CopesWithDeath(d, n, q, now)
    ensures d.node !in p.view ==> d.node !in q.view
  {
    ReceivedFrame(p, env.msg, now, q, reply);
    if Mourns(d, p) {
      ReceiveKeepsMourning(d, p, env.msg, now, q, reply);
    } else {
      assert !Mentions(env.msg, d.node);
      ReceiveKeepsForgotten(d, p, env.msg, now, q, reply);
    }
  }

  lemma ReplyIsQuiet(d: Death, n: ChitchatId, p: Peer, msg: Message, now: Instant, q: Peer, reply: Option<Message>)
    requires d.Valid() && CopesWithDeath(d, n, q, now) && Received(p, msg, now, q, reply)
    ensures reply.Some? ==> QuietEnvelope(d, Envelope(now, reply.value))
  {
    if reply.Some? && reply.value.SynAck? {
      MourningDigestIsQuiet(d, n, q, now);
      MourningDeltaIsQuiet(d, n, q, now, msg.digest, reply.value.delta);
    } else if reply.Some? && reply.value.Ack? {
      MourningDeltaIsQuiet(d, n, q, now, msg.digest, reply.value.delta);
    }
  }

  // ----- judging and forgetting -----

  lemma LivenessCopes(d: Death, n: ChitchatId, p: Peer, now: Instant)
    requires d.Valid() && CopesWithDeath(d, n, p, now)
    requires p.cfg.Valid() && AllSampled(p.cfg, p.detector)
    ensures CopesWithDeath(d, n, UpdateNodesLiveness(p, now), now)
    ensures d.node !in p.view ==> d.node !in UpdateNodesLiveness(p, now).view
  {
    if Mourns(d, p) {
      assert !IsAlive(p.cfg, p.detector, d.node, now);
    }
  }

  // ----- every step -----

  lemma PeerStepSettles(d: Death, s: Timed, at: ChitchatId, t: Timed)
    requires Settled(d, s) && OnlyPeerChanges(s, at, t) && CopesWithDeath(d, at, t.peers[at], s.now)
    requires forall env :: env in t.network && env !in s.network ==> QuietEnvelope(d, env)
    ensures Settled(d, t)
  {
  }

  lemma LaterCopes(d: Death, s: Timed, t: Timed)
    requires Settled(d, s) && s.now <= t.now && t == s.(now := t.now)
    ensures Settled(d, t)
  {
    hide Mourns, QuietEnvelope;
  }

  lemma WriteCopes(d: Death, n: ChitchatId, p: Peer, w: Write, now: Instant)
    requires CopesWithDeath(d, n, p, now)
    ensures CopesWithDeath(d, n, p.(view := p.view[n := ApplyWrite(NodeOf(p.view, n), w, now)]), now) && n != d.node
  {
    hide ApplyWrite;
  }

  lemma CollectCopes(d: Death, n: ChitchatId, p: Peer, now: Instant, q: Peer)
    requires CopesWithDeath(d, n, p, now) && CollectedKeys(p, now, q)
    ensures CopesWithDeath(d, n, q, now) && q.view.Keys == p.view.Keys
  {
  }

  lemma GossipCopes(d: Death, n: ChitchatId, p: Peer, now: Instant)
    requires d.Valid() && CopesWithDeath(d, n, p, now)
    ensures CopesWithDeath(d, n, BumpSelf(p), now) && BumpSelf(p).view.Keys == p.view.Keys
    ensures QuietEnvelope(d, Envelope(now, CreateSyn(BumpSelf(p), now)))
  {
    MourningDigestIsQuiet(d, n, BumpSelf(p), now);
  }

  lemma StepSettles(d: Death, s: Timed, step: TimedStep, t: Timed)
    requires d.Valid() && Settled(d, s) && TimedNext(d, s, step, t)
    ensures Settled(d, t) && t.peers.Keys == s.peers.Keys
    ensures forall n :: n in s.peers && d.node !in s.peers[n].view ==> d.node !in t.peers[n].view
  {
    hide CopesWithDeath, QuietEnvelope, Received, CollectedKeys, ApplyWrite;
    match step
    case Advance =>
      LaterCopes(d, s, t);
    case WriteAt(at, w) =>
      WriteCopes(d, at, s.peers[at], w, s.now);
      PeerStepSettles(d, s, at, t);
    case CollectKeysAt(at) =>
      CollectCopes(d, at, s.peers[at], s.now, t.peers[at]);
      PeerStepSettles(d, s, at, t);
    case UpdateLivenessAt(at) =>
      LivenessCopes(d, at, s.peers[at], s.now);
      PeerStepSettles(d, s, at, t);
    case GossipAt(at) =>
      GossipCopes(d, at, s.peers[at], s.now);
      PeerStepSettles(d, s, at, t);
    case ReceiveAt(at, env) =>
      var reply :| Received(s.peers[at], env.msg, s.now, t.peers[at], reply)
                   && t.network == s.network + (if reply.Some? then {Envelope(s.now, reply.value)} else {});
      ReceiveCopes(d, at, s.peers[at], env, s.now, t.peers[at], reply);
      ReplyIsQuiet(d, at, s.peers[at], env.msg, s.now, t.peers[at], reply);
      PeerStepSettles(d, s, at, t);
  }

  ghost predicate IsTimedRun(d: Death, states: seq<Timed>, steps: seq<TimedStep>) {
    && |states| == |steps| + 1
    && (forall i :: 0 <= i < |steps| ==> TimedNext(d, states[i], steps[i], states[i + 1]))
  }

  /** The last peer has just declared the node dead, and nobody has anything new to say about it: its last heartbeat
      is known everywhere, and no message that can still be received has another one. */
  ghost predicate AllMourn(d: Death, s: Timed) {
    && s.now <= d.last + d.grace / 2.0
    && (forall n :: n in s.peers ==> CopesWithDeath(d, n, s.peers[n], s.now) && Mourns(d, s.peers[n]))
    && (forall env :: env in s.network && s.now <= env.sentAt + d.delay ==>
          env.sentAt <= s.now && (env.msg.Syn? || env.msg.SynAck? ==> QuietDigest(d, env.msg.digest)))
  }

  lemma MourningIsSettled(d: Death, s: Timed)
    requires d.Valid() && AllMourn(d, s)
    ensures Settled(d, s)
  {
    hide CopesWithDeath, Mourns, Mentions;
  }

  lemma {:induction false} RunSettles(d: Death, states: seq<Timed>, steps: seq<TimedStep>, n: nat)
    requires d.Valid() && IsTimedRun(d, states, steps) && AllMourn(d, states[0])
    requires n < |states|
    ensures Settled(d, states[n]) && states[n].peers.Keys == states[0].peers.Keys
  {
    hide TimedNext, CopesWithDeath, QuietEnvelope;
    if n == 0 {
      MourningIsSettled(d, states[0]);
    } else {
      RunSettles(d, states, steps, n - 1);
      StepSettles(d, states[n - 1], steps[n - 1], states[n]);
    }
  }

  /** If the peers declared the node dead within half the grace period minus the message delay, then no peer that
      has removed it ever has it again. */
  lemma {:induction false} RemovalIsFinal(
      d: Death, states: seq<Timed>, steps: seq<TimedStep>, i: nat, j: nat, n: ChitchatId)
    requires d.Valid() && IsTimedRun(d, states, steps) && AllMourn(d, states[0])
    requires i <= j < |states| && n in states[0].peers
    ensures n in states[i].peers && n in states[j].peers
    ensures d.node !in states[i].peers[n].view ==> d.node !in states[j].peers[n].view
    decreases j - i
  {
    hide TimedNext, Settled, AllMourn;
    RunSettles(d, states, steps, i);
    RunSettles(d, states, steps, j);
    if i < j {
      StepSettles(d, states[i], steps[i], states[i + 1]);
      RemovalIsFinal(d, states, steps, i + 1, j, n);
    }
  }

  lemma OverdueIsForgotten(d: Death, n: ChitchatId, p: Peer, now: Instant)
    requires d.Valid() && CopesWithDeath(d, n, p, now) && d.last + d.grace <= now
    requires p.cfg.Valid() && AllSampled(p.cfg, p.detector)
    ensures d.node !in UpdateNodesLiveness(p, now).view
  {
    if Mourns(d, p) {
      assert !IsAlive(p.cfg, p.detector, d.node, now);
    }
  }

  /** Once a peer has updated the liveness of its nodes after the grace period, it never has the node again. */
  lemma RemovalIsComplete(d: Death, states: seq<Timed>, steps: seq<TimedStep>, i: nat, j: nat, n: ChitchatId)
    requires d.Valid() && IsTimedRun(d, states, steps) && AllMourn(d, states[0])
    requires i < j < |states| && n in states[0].peers
    requires steps[i] == UpdateLivenessAt(n) && d.last + d.grace <= states[i].now
    ensures n in states[j].peers && d.node !in states[j].peers[n].view
  {
    RunSettles(d, states, steps, i);
    assert TimedNext(d, states[i], steps[i], states[i + 1]);
    OverdueIsForgotten(d, n, states[i].peers[n], states[i].now);
    hide TimedNext, AllMourn;
    RemovalIsFinal(d, states, steps, i + 1, j, n);
  }
}
