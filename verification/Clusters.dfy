/** Peers of different clusters do not mix (chitchat/src/lib.rs, `process_message`). */
module Clusters {
  import opened ChitchatTypes
  import opened NodeStates
  import opened Replication
  import opened FailureDetectors
  import opened Gossip
  import opened Scuttlebutt

  // ----- a `Syn` of another cluster -----

  /** It is answered with `BadCluster`, and nothing of it is taken over: only the receiver's own heartbeat counts on. */
  lemma ForeignSynIsRefused(s: System, step: Step, t: System)
    requires Next(s, step, t) && step.DoReceive? && step.msg.Syn? && step.msg.clusterId != s.peers[step.at].clusterId
    ensures var p, q := s.peers[step.at], t.peers[step.at];
            && q.detector == p.detector && q.view - {p.id} == p.view - {p.id}
            && p.id in q.view && q.view[p.id] == NodeOf(p.view, p.id).(heartbeat := q.view[p.id].heartbeat)
    ensures t.network == s.network + {BadCluster}
  {
  }

  // ----- who sent what to whom -----

  /** `senders[i]` is the peer from which step `i` receives its message. A `Syn` may go to anyone; an answer goes to the
      peer whose message it answers. */
  ghost predicate IsSentTo(states: seq<System>, steps: seq<Step>, senders: seq<ChitchatId>, i: nat, j: nat)
    requires |states| == |steps| + 1 && |senders| == |steps| && j < i < |steps| && steps[i].DoReceive?
  {
    && steps[j].at == senders[i] && senders[i] in states[j].peers && senders[i] in states[j + 1].peers
    && match steps[i].msg
       case Syn(_, _) => steps[j].DoGossip? && steps[i].msg == CreateSyn(states[j + 1].peers[senders[i]], steps[j].now)
       case SynAck(_, _) => IsAnswer(states, steps, senders, i, j) && steps[j].msg.Syn?
       case Ack(_) => IsAnswer(states, steps, senders, i, j) && steps[j].msg.SynAck?
       case BadCluster => true
  }

  ghost predicate IsAnswer(states: seq<System>, steps: seq<Step>, senders: seq<ChitchatId>, i: nat, j: nat)
    requires |states| == |steps| + 1 && |senders| == |steps| && j < i < |steps| && steps[i].DoReceive?
    requires senders[i] in states[j].peers && senders[i] in states[j + 1].peers
  {
    && steps[j].DoReceive? && senders[j] == steps[i].at
    && Received(states[j].peers[senders[i]], steps[j].msg, steps[j].now, states[j + 1].peers[senders[i]],
                Some(steps[i].msg))
  }

  /** Every message is received by a peer it was sent to. */
  ghost predicate IsAddressed(states: seq<System>, steps: seq<Step>, senders: seq<ChitchatId>) {
    && |states| == |steps| + 1 && |senders| == |steps|
    && (forall i :: 0 <= i < |steps| && steps[i].DoReceive? ==>
          exists j :: 0 <= j < i && IsSentTo(states, steps, senders, i, j))
  }

  // ----- one cluster -----

  /** The cluster of each peer is the one it started with. */
  ghost predicate KeepsClusters(s: System, t: System) {
    && t.peers.Keys == s.peers.Keys
    && (forall n :: n in s.peers ==> t.peers[n].id == n && t.peers[n].clusterId == s.peers[n].clusterId)
  }

  /** The peers of a view are of the cluster `c` of the start `s`. */
  ghost predicate OnlyOf(s: System, c: Text, ids: set<ChitchatId>) {
    forall o :: o in ids ==> o in s.peers && s.peers[o].clusterId == c
  }

  ghost predicate Separate(start: System, s: System) {
    && KeepsClusters(start, s)
    && (forall n :: n in s.peers ==> OnlyOf(start, start.peers[n].clusterId, s.peers[n].view.Keys))
  }

  /** What any step leaves alone, and what it may add to the view of its peer without receiving anything. */
  lemma StepFrame(s: System, step: Step, t: System)
    requires Next(s, step, t)
    ensures step.at in s.peers && t.peers.Keys == s.peers.Keys
    ensures forall n :: n in s.peers && n != step.at ==> t.peers[n] == s.peers[n]
    ensures var p, q := s.peers[step.at], t.peers[step.at];
            && q.id == p.id && q.clusterId == p.clusterId
            && (!step.DoReceive? ==> q.view.Keys <= p.view.Keys + {p.id})
            && (step.DoReceive? ==> exists reply :: Received(p, step.msg, step.now, q, reply))
  {
    hide Received, UpdateAll, GarbageCollect, Collectible;
    if step.DoReceive? {
      var reply :| Received(s.peers[step.at], step.msg, step.now, t.peers[step.at], reply);
      ReceivedKeepsCluster(s.peers[step.at], step.msg, step.now, t.peers[step.at], reply);
    }
  }

  lemma ReceivedKeepsCluster(p: Peer, msg: Message, now: Instant, q: Peer, reply: Option<Message>)
    requires Received(p, msg, now, q, reply)
    ensures q.id == p.id && q.clusterId == p.clusterId
  {
  }

  /** The nodes that a message speaks of. */
  function NodesIn(msg: Message): set<ChitchatId> {
    (if msg.Syn? || msg.SynAck? then msg.digest.Keys else {}) + set d | d in DeltasIn(msg) :: d.id
  }

  lemma {:induction false} KeysAfterDeltas(view: View, ds: seq<NodeDelta>, now: Instant)
    ensures ApplyAll(view, ds, now).Keys == view.Keys + set d | d in ds :: d.id
  {
    hide ApplyDelta;
    if ds != [] {
      var n := |ds| - 1;
      KeysAfterDeltas(view, ds[..n], now);
      assert ds == ds[..n] + [ds[n]];
    }
  }

  /** A view grows only by nodes that the message speaks of, and not by a `Syn` of another cluster. */
  lemma ReceivedAdds(p: Peer, msg: Message, now: Instant, q: Peer, reply: Option<Message>)
    requires Received(p, msg, now, q, reply)
    ensures q.view.Keys <= p.view.Keys + {p.id} + NodesIn(msg)
    ensures msg.Syn? && msg.clusterId != p.clusterId ==> q.view.Keys <= p.view.Keys + {p.id}
  {
    hide Heard, FreshHeartbeats, ApplyAll, ComputeDigest, IsPartialDelta;
    var bumped := BumpSelf(p);
    match msg
    case Syn(_, _) =>
    case SynAck(digest, delta) =>
      KeysAfterDeltas(ReportHeartbeats(bumped, digest, now).view, delta.nodeDeltas, now);
    case Ack(delta) =>
      KeysAfterDeltas(bumped.view, delta.nodeDeltas, now);
    case BadCluster =>
  }

  /** An answer holds what the peer holds when it has taken over the message. */
  lemma AnswerSpeaksOfView(p: Peer, msg: Message, now: Instant, q: Peer, reply: Message)
    requires Received(p, msg, now, q, Some(reply))
    ensures NodesIn(reply) <= q.view.Keys
    ensures msg.Syn? && reply.SynAck? ==> msg.clusterId == p.clusterId
    ensures forall d :: d in DeltasIn(reply) && d.id in q.view ==> IsNodeDelta(q.view[d.id], d.fromVersionExcluded, d)
  {
    hide ReportHeartbeats, ApplyAll, ScheduledForDeletion;
    if reply.SynAck? || reply.Ack? {
      forall d | d in reply.delta.nodeDeltas ensures d.id in q.view {
        var i :| 0 <= i < |reply.delta.nodeDeltas| && reply.delta.nodeDeltas[i] == d;
        assert IsStale(q.view, msg.digest, Scheduled(q, now), reply.delta.nodeDeltas[i].id);
      }
    }
  }

  // ----- runs -----

  ghost predicate IsAddressedRun(states: seq<System>, steps: seq<Step>, senders: seq<ChitchatId>) {
    IsExecution(states, steps) && IsAddressed(states, steps, senders)
  }

  lemma RunStep(states: seq<System>, steps: seq<Step>, i: nat)
    requires IsExecution(states, steps) && i < |steps|
    ensures |states| == |steps| + 1 && Next(states[i], steps[i], states[i + 1])
  {
  }

  lemma {:induction false} RunKeepsClusters(states: seq<System>, steps: seq<Step>, n: nat)
    requires IsExecution(states, steps) && n < |states|
    ensures KeepsClusters(states[0], states[n])
  {
    hide Next;
    if n > 0 {
      RunKeepsClusters(states, steps, n - 1);
      StepFrame(states[n - 1], steps[n - 1], states[n]);
    }
  }

  /** A `Syn` is of its sender's cluster. */
  lemma SynIsOfSender(states: seq<System>, steps: seq<Step>, senders: seq<ChitchatId>, i: nat) returns (j: nat)
    requires IsAddressedRun(states, steps, senders) && i < |steps| && steps[i].DoReceive? && steps[i].msg.Syn?
    ensures j < i && senders[i] in states[0].peers && senders[i] in states[j + 1].peers
    ensures steps[i].msg.clusterId == states[0].peers[senders[i]].clusterId
    ensures NodesIn(steps[i].msg) <= states[j + 1].peers[senders[i]].view.Keys
  {
    hide IsExecution;
    j :| 0 <= j < i && IsSentTo(states, steps, senders, i, j);
    RunLength(states, steps);
    RunKeepsClusters(states, steps, j + 1);
  }

  lemma RunLength(states: seq<System>, steps: seq<Step>)
    requires IsExecution(states, steps)
    ensures |states| == |steps| + 1
  {
  }

  /** Whoever answers a `Syn` is of the cluster of the peer that it answers. */
  lemma SynAckIsOfCluster(states: seq<System>, steps: seq<Step>, senders: seq<ChitchatId>, i: nat) returns (j: nat)
    requires IsAddressedRun(states, steps, senders) && i < |steps| && steps[i].DoReceive? && steps[i].msg.SynAck?
    ensures j < i && steps[i].at in states[0].peers
    ensures senders[i] in states[0].peers && senders[i] in states[j + 1].peers
    ensures states[0].peers[senders[i]].clusterId == states[0].peers[steps[i].at].clusterId
    ensures NodesIn(steps[i].msg) <= states[j + 1].peers[senders[i]].view.Keys
  {
    hide IsExecution, Received, NodesIn;
    j :| 0 <= j < i && IsSentTo(states, steps, senders, i, j);
    RunLength(states, steps);
    RunKeepsClusters(states, steps, j);
    RunKeepsClusters(states, steps, j + 1);
    var p, q := states[j].peers[senders[i]], states[j + 1].peers[senders[i]];
    AnswerSpeaksOfView(p, steps[j].msg, steps[j].now, q, steps[i].msg);
    var _ := SynIsOfSender(states, steps, senders, j);
  }

  lemma AckIsOfCluster(states: seq<System>, steps: seq<Step>, senders: seq<ChitchatId>, i: nat) returns (j: nat)
    requires IsAddressedRun(states, steps, senders) && i < |steps| && steps[i].DoReceive? && steps[i].msg.Ack?
    ensures j < i && steps[i].at in states[0].peers
    ensures senders[i] in states[0].peers && senders[i] in states[j + 1].peers
    ensures states[0].peers[senders[i]].clusterId == states[0].peers[steps[i].at].clusterId
    ensures NodesIn(steps[i].msg) <= states[j + 1].peers[senders[i]].view.Keys
  {
    hide IsExecution, Received, NodesIn;
    j :| 0 <= j < i && IsSentTo(states, steps, senders, i, j);
    RunLength(states, steps);
    RunKeepsClusters(states, steps, j + 1);
    var p, q := states[j].peers[senders[i]], states[j + 1].peers[senders[i]];
    AnswerSpeaksOfView(p, steps[j].msg, steps[j].now, q, steps[i].msg);
    var _ := SynAckIsOfCluster(states, steps, senders, j);
  }

  /** What a peer takes over in a step is of its own cluster. */
  lemma StepAddsOwnCluster(states: seq<System>, steps: seq<Step>, senders: seq<ChitchatId>, i: nat)
    requires IsAddressedRun(states, steps, senders) && i < |steps|
    requires forall k :: 0 <= k <= i ==> Separate(states[0], states[k])
    ensures steps[i].at in states[0].peers && steps[i].at in states[i + 1].peers
    ensures OnlyOf(states[0], states[0].peers[steps[i].at].clusterId, states[i + 1].peers[steps[i].at].view.Keys)
  {
    hide Next, Received, Initial, IsAddressed, NodesIn;
    RunStep(states, steps, i);
    StepFrame(states[i], steps[i], states[i + 1]);
    assert Separate(states[0], states[i]);
    var p, q := states[i].peers[steps[i].at], states[i + 1].peers[steps[i].at];
    if steps[i].DoReceive? {
      var reply :| Received(p, steps[i].msg, steps[i].now, q, reply);
      ReceivedAdds(p, steps[i].msg, steps[i].now, q, reply);
      MessageIsOfCluster(states, steps, senders, i);
    }
  }

  lemma MessageIsOfCluster(states: seq<System>, steps: seq<Step>, senders: seq<ChitchatId>, i: nat)
    requires IsAddressedRun(states, steps, senders) && i < |steps| && steps[i].DoReceive? && |states| == |steps| + 1
    requires forall k :: 0 <= k <= i ==> Separate(states[0], states[k])
    requires steps[i].at in states[0].peers
    ensures var c := states[0].peers[steps[i].at].clusterId;
            OnlyOf(states[0], c, NodesIn(steps[i].msg)) || (steps[i].msg.Syn? && steps[i].msg.clusterId != c)
  {
    hide IsAddressedRun, KeepsClusters;
    match steps[i].msg
    case Syn(_, _) =>
      var j := SynIsOfSender(states, steps, senders, i);
      assert Separate(states[0], states[j + 1]);
    case SynAck(_, _) =>
      var j := SynAckIsOfCluster(states, steps, senders, i);
      assert Separate(states[0], states[j + 1]);
    case Ack(_) =>
      var j := AckIsOfCluster(states, steps, senders, i);
      assert Separate(states[0], states[j + 1]);
    case BadCluster =>
  }

  /** In every run in which answers go to the peer they answer, whoever a `Syn` reaches, a peer knows only peers of its
      own cluster. */
  lemma {:induction false} ClustersStaySeparate(
      states: seq<System>, steps: seq<Step>, senders: seq<ChitchatId>, n: nat)
    requires IsAddressedRun(states, steps, senders) && n < |states|
    ensures forall k :: 0 <= k <= n ==> Separate(states[0], states[k])
  {
    hide Next, OnlyOf, IsAddressed, Separate, KeepsClusters;
    RunKeepsClusters(states, steps, n);
    if n == 0 {
      StartIsSeparate(states[0]);
    } else {
      ClustersStaySeparate(states, steps, senders, n - 1);
      StepFrame(states[n - 1], steps[n - 1], states[n]);
      StepAddsOwnCluster(states, steps, senders, n - 1);
      assert Separate(states[0], states[n - 1]);
      StillSeparate(states[0], states[n - 1], steps[n - 1].at, states[n]);
    }
  }

  lemma StillSeparate(start: System, s: System, at: ChitchatId, t: System)
    requires Separate(start, s) && KeepsClusters(start, t) && at in t.peers
    requires forall n :: n in s.peers && n != at ==> t.peers[n] == s.peers[n]
    requires OnlyOf(start, start.peers[at].clusterId, t.peers[at].view.Keys)
    ensures Separate(start, t)
  {
    hide OnlyOf;
  }

  lemma StartIsSeparate(s: System)
    requires Initial(s)
    ensures Separate(s, s)
  {
  }
}
