/** How heartbeats travel (chitchat/src/lib.rs, chitchat/src/state.rs): from a peer's own counter into its digests, from
there into the views of others, and from two of them to a live node. */
module Heartbeats {
  import opened ChitchatTypes
  import opened NodeStates
  import opened NodeRuns
  import opened FailureDetectors
  import opened Gossip
  import opened Scuttlebutt
  import opened Watchers

  /** The heartbeat of `o` that `p` sends when it gossips: its own is one more than before, modulo 2^64. */
  function SentHeartbeat(p: Peer, o: ChitchatId): nat {
    if o == p.id then (NodeOf(p.view, o).heartbeat + 1) % 0x1_0000_0000_0000_0000 else NodeOf(p.view, o).heartbeat
  }

  /** `p` talks about itself and about the nodes it knows that are not dead for more than half the grace period. */
  predicate TalksAbout(p: Peer, o: ChitchatId, now: Instant) {
    && (o == p.id || o in p.view)
    && (o in p.detector.dead ==> now <= p.detector.dead[o] + p.cfg.deadNodeGracePeriod / 2.0)
  }

  lemma GossipCarriesHeartbeats(p: Peer, now: Instant, o: ChitchatId)
    ensures var syn := CreateSyn(BumpSelf(p), now);
            && syn.Syn? && syn.clusterId == p.clusterId
            && (o in syn.digest <==> TalksAbout(p, o, now))
            && (o in syn.digest ==> syn.digest[o].heartbeat == SentHeartbeat(p, o))
  {
  }

  lemma {:induction false} HeartbeatUnderDeltas(view: View, ds: seq<NodeDelta>, now: Instant, o: ChitchatId)
    requires DistinctIds(ds)
    ensures var reset := exists i :: 0 <= i < |ds| && ds[i].id == o && Prepare(NodeOf(view, o), ds[i]).Reset?;
            NodeOf(ApplyAll(view, ds, now), o).heartbeat == if reset then 0 else NodeOf(view, o).heartbeat
  {
    hide Prepare, ApplyMutations, ApplyAll;
    if i :| 0 <= i < |ds| && ds[i].id == o {
      ApplyAllAt(view, ds, now, i);
      var s := NodeOf(view, o);
      MutationsEffect(s, ds[i].keyValues, s.maxVersion, now);
      MutationsEffect(ResetTo(ds[i]), ds[i].keyValues, ResetTo(ds[i]).maxVersion, now);
    } else {
      ApplyAllElsewhere(view, ds, now, o);
    }
  }

  /** The heartbeats that a message brings to a peer. */
  function Brought(q: Peer, msg: Message): Digest {
    match msg
    case Syn(clusterId, digest) => if clusterId == q.clusterId then digest else map[]
    case SynAck(digest, _) => digest
    case Ack(_) => map[]
    case BadCluster => map[]
  }

  /** The heartbeat of `o` once a peer has counted its own on and merged those of a digest. */
  function Merged(q: Peer, digest: Digest, o: ChitchatId): nat {
    if o == q.id then SentHeartbeat(q, o)
    else if o in digest then Max(NodeOf(q.view, o).heartbeat, digest[o].heartbeat)
    else NodeOf(q.view, o).heartbeat
  }

  lemma ReportMerges(q: Peer, digest: Digest, now: Instant, o: ChitchatId)
    ensures NodeOf(BumpSelf(q).view, o) == NodeOf(q.view, o).(heartbeat := Merged(q, map[], o))
    ensures NodeOf(ReportHeartbeats(BumpSelf(q), digest, now).view, o)
            == NodeOf(q.view, o).(heartbeat := Merged(q, digest, o))
  {
    hide Heard, FreshHeartbeats;
  }

  /** A delta in the message resets what `q` has of `o`. */
  ghost predicate Resets(q: Peer, ds: seq<NodeDelta>, o: ChitchatId) {
    exists i :: 0 <= i < |ds| && ds[i].id == o && Prepare(NodeOf(q.view, o), ds[i]).Reset?
  }

  /** Of every other node the receiver has the greater of the heartbeat it had and the one in the digest, unless a delta
      in the message resets the node; its own heartbeat is one more. */
  lemma HeartbeatsAreMerged(q: Peer, msg: Message, now: Instant, r: Peer, reply: Option<Message>, o: ChitchatId)
    requires Received(q, msg, now, r, reply) && DistinctIds(DeltasIn(msg))
    ensures NodeOf(r.view, o).heartbeat == if Resets(q, DeltasIn(msg), o) then 0 else Merged(q, Brought(q, msg), o)
  {
    hide BumpSelf, ReportHeartbeats, Prepare, ApplyAll, IsPartialDelta, ComputeDigest, NodeOf, Merged, DistinctIds;
    var bumped := BumpSelf(q);
    match msg
    case Syn(clusterId, digest) =>
      ReportMerges(q, digest, now, o);
    case SynAck(digest, delta) =>
      var heard := ReportHeartbeats(bumped, digest, now);
      ReportMerges(q, digest, now, o);
      HeartbeatUnderDeltas(heard.view, delta.nodeDeltas, now, o);
      ResetIgnoresHeartbeat(NodeOf(q.view, o), NodeOf(heard.view, o), delta.nodeDeltas, o);
    case Ack(delta) =>
      ReportMerges(q, map[], now, o);
      HeartbeatUnderDeltas(bumped.view, delta.nodeDeltas, now, o);
      ResetIgnoresHeartbeat(NodeOf(q.view, o), NodeOf(bumped.view, o), delta.nodeDeltas, o);
    case BadCluster =>
      ReportMerges(q, map[], now, o);
  }

  lemma ResetIgnoresHeartbeat(s: State, t: State, ds: seq<NodeDelta>, o: ChitchatId)
    requires t == s.(heartbeat := t.heartbeat)
    ensures (exists i :: 0 <= i < |ds| && ds[i].id == o && Prepare(s, ds[i]).Reset?) <==>
            (exists i :: 0 <= i < |ds| && ds[i].id == o && Prepare(t, ds[i]).Reset?)
  {
    assert forall i :: 0 <= i < |ds| ==> Prepare(s, ds[i]) == Prepare(t, ds[i]);
  }

  /** End to end: once `q` has received what `p` of the same cluster gossiped, it has of every node that `p` talks about
      the greater of its own heartbeat and that of `p`. */
  lemma GossipSpreadsHeartbeats(p: Peer, at: Instant, q: Peer, now: Instant, r: Peer, reply: Option<Message>,
                                o: ChitchatId)
    requires Received(q, CreateSyn(BumpSelf(p), at), now, r, reply) && p.clusterId == q.clusterId
    requires o != q.id && TalksAbout(p, o, at)
    ensures o in r.view && r.view[o].heartbeat == Max(NodeOf(q.view, o).heartbeat, SentHeartbeat(p, o))
  {
    hide Heard, FreshHeartbeats;
    GossipCarriesHeartbeats(p, at, o);
  }

  // ----- what the failure detector makes of it -----

  /** A heartbeat greater than a known one is noted with its time; nothing else is. */
  lemma NewsIsNoted(q: Peer, msg: Message, now: Instant, r: Peer, reply: Option<Message>, o: ChitchatId)
    requires Received(q, msg, now, r, reply)
    ensures var isNews := && o != q.id && o in Brought(q, msg)
                          && 0 < NodeOf(q.view, o).heartbeat < Brought(q, msg)[o].heartbeat;
            && (o in r.detector.samples <==> o in q.detector.samples || isNews)
            && WindowOf(r.detector, o)
               == if isNews then Heard(q.cfg, WindowOf(q.detector, o), now) else WindowOf(q.detector, o)
    ensures r.id == q.id && r.clusterId == q.clusterId && r.cfg == q.cfg
    ensures r.detector.live == q.detector.live && r.detector.dead == q.detector.dead
  {
    hide Heard, ApplyAll, IsPartialDelta, ComputeDigest;
    var bumped := BumpSelf(q);
    assert o != q.id ==> NodeOf(bumped.view, o) == NodeOf(q.view, o);
  }

  /** What `p` says about itself, as `q` takes it. */
  lemma HearsPeer(p: Peer, sent: Instant, q: Peer, heard: Instant, r: Peer, reply: Option<Message>)
    requires Received(q, CreateSyn(BumpSelf(p), sent), heard, r, reply) && p.clusterId == q.clusterId
    requires Tended(p) && p.id != q.id && p.id in q.view
    requires 0 < q.view[p.id].heartbeat <= p.view[p.id].heartbeat < 0xFFFF_FFFF_FFFF_FFFF
    ensures p.id in r.view && p.id in r.detector.samples && r.cfg == q.cfg && r.clusterId == q.clusterId
    ensures r.view[p.id].heartbeat == p.view[p.id].heartbeat + 1
    ensures r.detector.samples[p.id] == Heard(q.cfg, WindowOf(q.detector, p.id), heard)
  {
    hide Heard, Received, CreateSyn, BumpSelf;
    GossipCarriesHeartbeats(p, sent, p.id);
    GossipSpreadsHeartbeats(p, sent, q, heard, r, reply, p.id);
    NewsIsNoted(q, CreateSyn(BumpSelf(p), sent), heard, r, reply, p.id);
  }

  lemma OwnHeartbeatCounts(p: Peer)
    requires Tended(p) && p.view[p.id].heartbeat < 0xFFFF_FFFF_FFFF_FFFF
    ensures var q := BumpSelf(p);
            && p.id in q.view && q.view[p.id].heartbeat == p.view[p.id].heartbeat + 1
            && q.clusterId == p.clusterId && q.id == p.id && q.detector == p.detector
  {
  }

  /** `p` gossips, and `q` receives it next. */
  ghost predicate Exchange(s: System, p: ChitchatId, sent: Instant, q: ChitchatId, heard: Instant, t: System) {
    exists mid :: && p in s.peers && Next(s, DoGossip(p, sent), mid)
                  && Next(mid, DoReceive(q, CreateSyn(BumpSelf(s.peers[p]), sent), heard), t)
  }

  lemma ExchangeIsReceived(s: System, p: ChitchatId, sent: Instant, q: ChitchatId, heard: Instant, t: System)
    returns (reply: Option<Message>)
    requires AllTended(s) && Exchange(s, p, sent, q, heard, t) && p != q
    ensures AllTended(t) && p in s.peers && q in s.peers && p in t.peers && q in t.peers
    ensures t.peers[p] == BumpSelf(s.peers[p])
    ensures Received(s.peers[q], CreateSyn(BumpSelf(s.peers[p]), sent), heard, t.peers[q], reply)
  {
    hide Received, CreateSyn, BumpSelf, AllTended;
    var syn := CreateSyn(BumpSelf(s.peers[p]), sent);
    var mid :| Next(s, DoGossip(p, sent), mid) && Next(mid, DoReceive(q, syn, heard), t);
    StepKeepsTended(s, DoGossip(p, sent), mid);
    StepKeepsTended(mid, DoReceive(q, syn, heard), t);
    reply :| Received(mid.peers[q], syn, heard, t.peers[q], reply);
  }

  /** `q` knows `p` at a heartbeat that is not ahead of it, and `p` is away from the end of its counter. */
  ghost predicate Knows(s: System, q: ChitchatId, p: ChitchatId, left: nat) {
    && p in s.peers && q in s.peers && p in s.peers[q].view && p in s.peers[p].view
    && s.peers[p].clusterId == s.peers[q].clusterId
    && 0 < s.peers[q].view[p].heartbeat <= s.peers[p].view[p].heartbeat
    && s.peers[p].view[p].heartbeat + left <= 0xFFFF_FFFF_FFFF_FFFF
  }

  lemma HearsOnce(s: System, p: ChitchatId, sent: Instant, q: ChitchatId, heard: Instant, t: System, left: nat)
    requires AllTended(s) && Exchange(s, p, sent, q, heard, t) && p != q && Knows(s, q, p, left + 1)
    ensures AllTended(t) && Knows(t, q, p, left) && t.peers[q].cfg == s.peers[q].cfg
    ensures p in t.peers[q].detector.samples
    ensures t.peers[q].detector.samples[p] == Heard(s.peers[q].cfg, WindowOf(s.peers[q].detector, p), heard)
  {
    var reply := ExchangeIsReceived(s, p, sent, q, heard, t);
    hide Heard, Received, CreateSyn, BumpSelf, Exchange, Tended;
    OwnHeartbeatCounts(s.peers[p]);
    HearsPeer(s.peers[p], sent, s.peers[q], heard, t.peers[q], reply);
  }

  /** What `q` has sampled of `p`, and whether it takes it for live. */
  function WindowAt(s: System, q: ChitchatId, p: ChitchatId): Window {
    if q in s.peers then WindowOf(s.peers[q].detector, p) else NEW_WINDOW
  }

  predicate IsLiveAt(s: System, q: ChitchatId, p: ChitchatId) { q in s.peers && p in s.peers[q].detector.live }

  /** Two messages in a row that `p` gossips and `q` of the same cluster receives, at most `max_interval` apart, make
      `p` live at the next update of `q`, if and only if that comes within `phi_threshold` times the mean. */
  lemma HeardTwiceIsLive(s: System, p: ChitchatId, sent: seq<Instant>, q: ChitchatId, heard: seq<Instant>,
                         t: System, u: System, now: Instant, v: System, cfg: Config)
    requires |sent| == 2 && |heard| == 2 && heard[0] <= heard[1] <= now && heard[1] - heard[0] <= cfg.maxInterval
    requires p != q && Knows(s, q, p, 2) && cfg == s.peers[q].cfg && AllTended(s)
    requires Exchange(s, p, sent[0], q, heard[0], t) && Exchange(t, p, sent[1], q, heard[1], u)
    requires Next(u, DoUpdateLiveness(q, now), v)
    ensures var intervals := WindowAt(u, q, p).intervals;
            && intervals != [] && intervals[|intervals| - 1] == heard[1] - heard[0]
            && (IsLiveAt(v, q, p) <==>
                (now - heard[1]) * (|intervals| as real + 5.0)
                <= cfg.phiThreshold * (Sum(intervals) + 5.0 * cfg.initialInterval))
  {
    hide Exchange, Next, AllTended, Heard, IsTimely, IsAlive, Sum;
    HearsOnce(s, p, sent[0], q, heard[0], t, 1);
    HearsOnce(t, p, sent[1], q, heard[1], u, 0);
    SecondInterval(cfg, WindowOf(s.peers[q].detector, p), heard[0], heard[1]);
    JudgedInRun(u, q, p, now, v);
    TimelyIs(cfg, u.peers[q].detector.samples[p], now);
  }

  lemma TimelyIs(cfg: Config, w: Window, now: Instant)
    requires w.intervals != [] && w.lastHeartbeat.Some? && w.lastHeartbeat.value <= now
    ensures IsTimely(cfg, w, now) <==>
            (now - w.lastHeartbeat.value) * (|w.intervals| as real + 5.0)
            <= cfg.phiThreshold * (Sum(w.intervals) + 5.0 * cfg.initialInterval)
  {
  }

  lemma SecondInterval(cfg: Config, w: Window, first: Instant, second: Instant)
    requires first <= second && second - first <= cfg.maxInterval
    ensures var twice := Heard(cfg, Heard(cfg, w, first), second);
            && twice.intervals != [] && twice.intervals[|twice.intervals| - 1] == second - first
            && twice.lastHeartbeat == Some(second)
  {
  }

  /** The exact judgement, at an update of any peer. */
  lemma JudgedInRun(s: System, q: ChitchatId, o: ChitchatId, now: Instant, t: System)
    requires AllTended(s) && Next(s, DoUpdateLiveness(q, now), t) && o != q && q in s.peers && o in s.peers[q].view
    ensures q in t.peers
    ensures o in t.peers[q].detector.live <==>
            o in s.peers[q].detector.samples && IsTimely(s.peers[q].cfg, s.peers[q].detector.samples[o], now)
  {
    hide IsAlive, IsTimely, AllSampled, Tended;
    var p := s.peers[q];
    JudgedExactly(p.cfg, p.detector, o, now);
  }
}
