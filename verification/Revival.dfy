/** What brings a removed or a dead node back (chitchat/src/failure_detector.rs, chitchat/src/lib.rs). */
module Revival {
  import opened ChitchatTypes
  import opened NodeStates
  import opened NodeRuns
  import opened Replication
  import opened FailureDetectors
  import opened Gossip
  import opened Removal

  // ----- the bound on the times of death is sharp -----

  /** A peer that has removed the node has it again. */
  ghost predicate Returns(d: Death, states: seq<Timed>, steps: seq<TimedStep>, i: nat, j: nat, n: ChitchatId) {
    && IsTimedRun(d, states, steps) && AllMourn(d, states[0]) && i <= j < |states|
    && n in states[0].peers && n in states[i].peers && n in states[j].peers
    && d.node !in states[i].peers[n].view && d.node in states[j].peers[n].view
  }

  function Early(d: Death): ChitchatId { d.node.(nodeId := d.node.nodeId + [0]) }
  function Late(d: Death): ChitchatId { d.node.(nodeId := d.node.nodeId + [0, 0]) }

  lemma NodesDiffer(d: Death)
    ensures d.node != Early(d) && Early(d) != Late(d) && d.node != Late(d)
  {
    assert |d.node.nodeId| < |Early(d).nodeId| < |Late(d).nodeId|;
  }

  /** A peer that declared the node dead at `since`. */
  function Mourner(d: Death, id: ChitchatId, since: Instant): Peer {
    Peer(id, [], Config(1.0, 1, 1.0, 1.0, d.grace), 0.0,
         map[d.node := EMPTY.(heartbeat := d.heartbeat), id := EMPTY.(heartbeat := 1)],
         Detector(map[], {}, map[d.node := since]))
  }

  function StartOf(d: Death): Timed {
    Timed(d.last + d.grace / 2.0,
          map[Early(d) := Mourner(d, Early(d), d.first), Late(d) := Mourner(d, Late(d), d.last)], {})
  }

  lemma StartMourns(d: Death)
    requires d.Sound()
    ensures AllMourn(d, StartOf(d))
  {
    NodesDiffer(d);
  }

  /** The last moment at which a peer that declared the node dead at `d.last` talks about it. */
  lemma LateGossips(d: Death) returns (t: Timed, env: Envelope)
    requires d.Sound()
    ensures TimedNext(d, StartOf(d), GossipAt(Late(d)), t) && t.now == StartOf(d).now
    ensures Early(d) in t.peers && t.peers[Early(d)] == Mourner(d, Early(d), d.first)
    ensures env in t.network && env.sentAt == t.now
    ensures env.msg.Syn? && env.msg.clusterId == [] && d.node in env.msg.digest
  {
    NodesDiffer(d);
    var s := StartOf(d);
    var p := BumpSelf(s.peers[Late(d)]);
    env := Envelope(s.now, CreateSyn(p, s.now));
    t := Timed(s.now, s.peers[Late(d) := p], s.network + {env});
  }

  lemma EarlyRemoves(d: Death, s: Timed) returns (t: Timed)
    requires d.Sound() && Early(d) in s.peers && s.peers[Early(d)] == Mourner(d, Early(d), d.first)
    requires d.first + d.grace <= s.now
    ensures TimedNext(d, s, UpdateLivenessAt(Early(d)), t) && t.now == s.now && t.network == s.network
    ensures Early(d) in t.peers && d.node !in t.peers[Early(d)].view
    ensures t.peers[Early(d)].id == Early(d) && t.peers[Early(d)].clusterId == []
  {
    NodesDiffer(d);
    var p := s.peers[Early(d)];
    assert !IsAlive(p.cfg, p.detector, d.node, s.now);
    t := s.(peers := s.peers[Early(d) := UpdateNodesLiveness(p, s.now)]);
  }

  lemma EarlyHears(d: Death, s: Timed, env: Envelope) returns (t: Timed)
    requires Early(d) in s.peers && s.peers[Early(d)].id == Early(d) && s.peers[Early(d)].clusterId == []
    requires env in s.network && s.now <= env.sentAt + d.delay
    requires env.msg.Syn? && env.msg.clusterId == [] && d.node in env.msg.digest
    ensures TimedNext(d, s, ReceiveAt(Early(d), env), t)
    ensures Early(d) in t.peers && d.node in t.peers[Early(d)].view
  {
    NodesDiffer(d);
    var p, digest := s.peers[Early(d)], env.msg.digest;
    var q := ReportHeartbeats(BumpSelf(p), digest, s.now);
    var reply := SynAck(ComputeDigest(q.view, Scheduled(q, s.now)), Delta([], 0));
    assert Received(p, env.msg, s.now, q, Some(reply));
    t := Timed(s.now, s.peers[Early(d) := q], s.network + {Envelope(s.now, reply)});
  }

  /** If the times of death are too far apart, a message about the node is received after a peer has removed it. */
  lemma LateMessageReturns(d: Death) returns (states: seq<Timed>, steps: seq<TimedStep>)
    requires d.Sound() && !d.InTime()
    ensures Returns(d, states, steps, 3, 4, Early(d))
  {
    hide TimedNext, AllMourn;
    StartMourns(d);
    var s1, env := LateGossips(d);
    var s2 := s1.(now := if s1.now < d.first + d.grace then d.first + d.grace else s1.now);
    Later(d, s1, s2);
    var s3 := EarlyRemoves(d, s2);
    var s4 := EarlyHears(d, s3, env);
    NodesDiffer(d);
    states := [StartOf(d), s1, s2, s3, s4];
    steps := [GossipAt(Late(d)), Advance, UpdateLivenessAt(Early(d)), ReceiveAt(Early(d), env)];
  }

  lemma Later(d: Death, s: Timed, t: Timed)
    requires s.now <= t.now && t == s.(now := t.now)
    ensures TimedNext(d, s, Advance, t)
  {
  }

  /** No peer that has removed the node ever has it again, in any run that starts when all peers mourn it, if and only
      if the peers declared it dead within half the grace period minus the message delay. */
  lemma RemovalIsFinalExactly(d: Death)
    requires d.Sound()
    ensures (forall states, steps, i, j, n :: !Returns(d, states, steps, i, j, n)) <==> d.InTime()
  {
    hide IsTimedRun, AllMourn;
    if d.InTime() {
      forall states, steps, i, j, n ensures !Returns(d, states, steps, i, j, n) {
        if Returns(d, states, steps, i, j, n) {
          RemovalIsFinal(d, states, steps, i, j, n);
        }
      }
    } else {
      var states, steps := LateMessageReturns(d);
    }
  }

  // ----- one report -----

  /** The node is known and not live, and without samples, as after the update that declared it dead. */
  predicate IsSilent(p: Peer, o: ChitchatId) {
    && o != p.id && o in p.view && o !in p.detector.live
    && (o in p.detector.samples ==> p.detector.samples[o].intervals == [])
  }

  predicate IsNews(p: Peer, o: ChitchatId, digest: Digest)
    requires o in p.view
  {
    o in digest && 0 < p.view[o].heartbeat < digest[o].heartbeat
  }

  /** The last news of the node is recent enough for an interval. */
  predicate HeardWithin(p: Peer, o: ChitchatId, now: Instant) {
    && o in p.detector.samples && p.detector.samples[o].lastHeartbeat.Some?
    && Elapsed(p.detector.samples[o].lastHeartbeat.value, now) <= p.cfg.maxInterval
  }

  lemma OneInterval(cfg: Config, w: Window, at: Instant, now: Instant)
    requires cfg.Valid() && w.intervals == [] && w.lastHeartbeat.Some?
    requires Elapsed(w.lastHeartbeat.value, at) <= cfg.maxInterval
    ensures var interval, heard := Elapsed(w.lastHeartbeat.value, at), Heard(cfg, w, at);
            && heard == Window([interval], Some(at)) && Sampled(cfg, heard)
            && Phi(cfg, heard, now).Some?
            && (Phi(cfg, heard, now).value <= cfg.phiThreshold <==>
                Elapsed(at, now) * 6.0 <= cfg.phiThreshold * (interval + 5.0 * cfg.initialInterval))
  {
    var interval := Elapsed(w.lastHeartbeat.value, at);
    MeanBounds(cfg, [interval]);
    assert [interval][..0] == [];
    assert Sum([interval]) == interval;
    PhiCompare(Elapsed(at, now), interval + 5.0 * cfg.initialInterval, 6.0, cfg.phiThreshold);
  }

  /** A message with a digest makes a silent node live at the next update if and only if it has news of the node, the
      news before it is at most `max_interval` old, and the update comes soon enough. */
  lemma RevivedExactly(p: Peer, o: ChitchatId, digest: Digest, at: Instant, now: Instant)
    requires Healthy(p) && IsSilent(p, o)
    ensures Healthy(ReportHeartbeats(p, digest, at))
    ensures o in UpdateNodesLiveness(ReportHeartbeats(p, digest, at), now).detector.live <==>
            && IsNews(p, o, digest) && HeardWithin(p, o, at)
            && var interval := Elapsed(p.detector.samples[o].lastHeartbeat.value, at);
               Elapsed(at, now) * 6.0 <= p.cfg.phiThreshold * (interval + 5.0 * p.cfg.initialInterval)
  {
    hide Phi, Mean, Sampled, Heard, UpdateAll, GarbageCollect, Collectible;
    ReportKeepsSampled(p, digest, at);
    var q := ReportHeartbeats(p, digest, at);
    assert o in FreshHeartbeats(p, digest) <==> IsNews(p, o, digest);
    LiveAfterUpdate(q, o, now);
    if !IsNews(p, o, digest) {
      SilentIsNotAlive(q, o, now);
    } else if HeardWithin(p, o, at) {
      OneInterval(p.cfg, p.detector.samples[o], at, now);
    } else {
      FirstNewsIsSilent(p.cfg, WindowOf(p.detector, o), at);
      SilentIsNotAlive(q, o, now);
    }
  }

  lemma LiveAfterUpdate(p: Peer, o: ChitchatId, now: Instant)
    requires Healthy(p) && o != p.id && o in p.view
    ensures o in UpdateNodesLiveness(p, now).detector.live <==> IsAlive(p.cfg, p.detector, o, now)
  {
    hide IsAlive;
  }

  /** A node that an update does not find alive has no samples after it, and needs two more heartbeats; it is dead since
      the first such update. */
  lemma DeclaredDeadIsSilent(p: Peer, o: ChitchatId, now: Instant)
    requires Healthy(p) && o != p.id && o in p.view && !IsAlive(p.cfg, p.detector, o, now)
    requires (if o in p.detector.dead then p.detector.dead[o] else now) + p.cfg.deadNodeGracePeriod > now
    ensures var q := UpdateNodesLiveness(p, now);
            && IsSilent(q, o) && o in q.detector.dead
            && q.detector.dead[o] == if o in p.detector.dead then p.detector.dead[o] else now
  {
    hide IsAlive;
  }

  lemma SilentIsNotAlive(p: Peer, o: ChitchatId, now: Instant)
    requires Healthy(p) && (o in p.detector.samples ==> p.detector.samples[o].intervals == [])
    ensures !IsAlive(p.cfg, p.detector, o, now)
  {
  }

  lemma FirstNewsIsSilent(cfg: Config, w: Window, at: Instant)
    requires w.intervals == []
    requires w.lastHeartbeat.Some? ==> cfg.maxInterval < Elapsed(w.lastHeartbeat.value, at)
    ensures Heard(cfg, w, at) == Window([], Some(at))
  {
  }

  // ----- any number of messages and updates, until the node is removed -----

  datatype Event =
    | HearAt(digest: Digest, at: Instant)
    | ApplyAt(deltas: seq<NodeDelta>, at: Instant)
    | UpdateAt(at: Instant)

  ghost function AfterEvent(p: Peer, e: Event): (q: Peer)
    requires Healthy(p)
    ensures Healthy(q)
  {
    match e
    case HearAt(digest, at) =>
      ReportKeepsSampled(p, digest, at);
      ReportHeartbeats(p, digest, at)
    case ApplyAt(deltas, at) =>
      p.(view := ApplyAll(p.view, deltas, at))
    case UpdateAt(at) =>
      UpdateKeepsSampled(p, at);
      UpdateNodesLiveness(p, at)
  }

  ghost function AfterEvents(p: Peer, events: seq<Event>): (q: Peer)
    requires Healthy(p)
    ensures Healthy(q)
  {
    if events == [] then p else AfterEvent(AfterEvents(p, events[..|events| - 1]), events[|events| - 1])
  }

  ghost predicate IsSent(d: NodeDelta) {
    exists s :: IsNodeDelta(s, d.fromVersionExcluded, d)
  }

  /** What a peer may be told of a node whose last heartbeat is `last`. */
  ghost predicate MayHear(o: ChitchatId, last: nat, e: Event) {
    match e
    case HearAt(digest, _) => o in digest ==> digest[o].heartbeat <= last
    case ApplyAt(deltas, _) => forall i :: 0 <= i < |deltas| ==> IsSent(deltas[i])
    case UpdateAt(_) => true
  }

  ghost predicate IsHistory(o: ChitchatId, last: nat, from: Instant, until: Instant, events: seq<Event>) {
    && (forall i :: 0 <= i < |events| ==> from <= events[i].at < until && MayHear(o, last, events[i]))
    && (forall i, j :: 0 <= i < j < |events| ==> events[i].at <= events[j].at)
  }

  predicate OnlyDigests(events: seq<Event>) {
    forall i :: 0 <= i < |events| ==> !events[i].ApplyAt?
  }

  /** How often the heartbeat of the node can still be news: the first one is not, if there was none. */
  function NewsLeft(s: State, last: nat): int { last - Max(1, s.heartbeat) }

  predicate IsRevivable(p: Peer, o: ChitchatId, last: nat, now: Instant)
    requires o in p.view
  {
    var left := NewsLeft(p.view[o], last);
    left >= 2 || (left == 1 && HeardWithin(p, o, now))
  }

  /** Dead since the same instant. */
  ghost predicate StaysDead(p: Peer, o: ChitchatId, since: Instant, grace: Duration) {
    IsSilent(p, o) && o in p.detector.dead && p.detector.dead[o] == since && p.cfg.deadNodeGracePeriod == grace
  }

  lemma UpdateLeavesDead(p: Peer, o: ChitchatId, since: Instant, now: Instant, grace: Duration)
    requires Healthy(p) && StaysDead(p, o, since, grace) && now < since + grace
    ensures var q := UpdateNodesLiveness(p, now);
            && StaysDead(q, o, since, grace) && q.view[o] == p.view[o]
            && (o in q.detector.samples <==> o in p.detector.samples)
            && (o in q.detector.samples ==> q.detector.samples[o] == p.detector.samples[o])
  {
    SilentIsNotAlive(p, o, now);
    hide IsAlive;
  }

  lemma UnrevivableStays(p: Peer, o: ChitchatId, since: Instant, grace: Duration, last: nat, from: Instant, e: Event)
    requires Healthy(p) && StaysDead(p, o, since, grace) && !IsRevivable(p, o, last, from)
    requires from <= e.at < since + grace && MayHear(o, last, e) && !e.ApplyAt?
    ensures StaysDead(AfterEvent(p, e), o, since, grace) && !IsRevivable(AfterEvent(p, e), o, last, e.at)
  {
    hide Heard;
    match e
    case HearAt(digest, at) =>
      assert o in FreshHeartbeats(p, digest) <==> IsNews(p, o, digest);
      if IsNews(p, o, digest) {
        assert !HeardWithin(p, o, at);
        FirstNewsIsSilent(p.cfg, WindowOf(p.detector, o), at);
      }
    case UpdateAt(at) =>
      UpdateLeavesDead(p, o, since, at, grace);
  }

  lemma {:induction false} UnrevivableStaysDead(
      p: Peer, o: ChitchatId, since: Instant, grace: Duration, last: nat, from: Instant, events: seq<Event>)
    requires Healthy(p) && StaysDead(p, o, since, grace) && !IsRevivable(p, o, last, from)
    requires IsHistory(o, last, from, since + grace, events) && OnlyDigests(events)
    ensures var q := AfterEvents(p, events);
            StaysDead(q, o, since, grace)
            && !IsRevivable(q, o, last, if events == [] then from else events[|events| - 1].at)
  {
    hide StaysDead, IsRevivable, AfterEvent, MayHear;
    if events != [] {
      var n := |events| - 1;
      UnrevivableStaysDead(p, o, since, grace, last, from, events[..n]);
      var before := if n == 0 then from else events[n - 1].at;
      KnownWhileDead(AfterEvents(p, events[..n]), o, since, grace);
      UnrevivableStays(AfterEvents(p, events[..n]), o, since, grace, last, before, events[n]);
    }
  }

  lemma KnownWhileDead(p: Peer, o: ChitchatId, since: Instant, grace: Duration)
    requires StaysDead(p, o, since, grace)
    ensures o in p.view
  {
  }

  lemma {:induction false} AfterConcat(p: Peer, first: seq<Event>, second: seq<Event>)
    requires Healthy(p)
    ensures AfterEvents(p, first + second) == AfterEvents(AfterEvents(p, first), second)
  {
    hide AfterEvent;
    if second == [] {
      assert first + second == first;
    } else {
      var n := |second| - 1;
      AfterConcat(p, first, second[..n]);
      assert (first + second)[..|first + second| - 1] == first + second[..n];
    }
  }

  lemma AfterOne(p: Peer, e: Event)
    requires Healthy(p)
    ensures AfterEvents(p, [e]) == AfterEvent(p, e)
  {
    hide AfterEvent;
    assert [e][..0] == [];
  }

  function Only(o: ChitchatId, heartbeat: nat): Digest { map[o := NodeDigest(heartbeat, 0, 0)] }

  /** What `p` and `q` have of the node is the same, but for the heartbeat and the samples. */
  ghost predicate OnlyHears(p: Peer, o: ChitchatId, q: Peer) {
    && q.id == p.id && q.cfg == p.cfg && q.detector.dead == p.detector.dead && q.detector.live == p.detector.live
    && o in q.view
  }

  lemma HearsFirst(p: Peer, o: ChitchatId, now: Instant)
    requires Healthy(p) && o != p.id && o in p.view
    ensures var q := AfterEvent(p, HearAt(Only(o, Max(1, p.view[o].heartbeat)), now));
            && OnlyHears(p, o, q) && q.view[o].heartbeat == Max(1, p.view[o].heartbeat)
            && q.detector.samples == p.detector.samples
  {
    hide Heard;
    var digest := Only(o, Max(1, p.view[o].heartbeat));
    assert FreshHeartbeats(p, digest) == {};
  }

  lemma HearsNews(p: Peer, o: ChitchatId, now: Instant)
    requires Healthy(p) && o != p.id && o in p.view && 0 < p.view[o].heartbeat
    ensures var q := AfterEvent(p, HearAt(Only(o, p.view[o].heartbeat + 1), now));
            && OnlyHears(p, o, q) && q.view[o].heartbeat == p.view[o].heartbeat + 1
            && o in q.detector.samples && q.detector.samples[o] == Heard(p.cfg, WindowOf(p.detector, o), now)
  {
    hide Heard;
    var digest := Only(o, p.view[o].heartbeat + 1);
    assert o in FreshHeartbeats(p, digest);
  }

  lemma NewsIsAlive(cfg: Config, w: Window, now: Instant)
    requires cfg.Valid() && Sampled(cfg, w) && w.lastHeartbeat.Some?
    requires Elapsed(w.lastHeartbeat.value, now) <= cfg.maxInterval
    ensures Sampled(cfg, Heard(cfg, w, now)) && Phi(cfg, Heard(cfg, w, now), now) == Some(0.0)
  {
    HeardKeepsSampled(cfg, w, now);
    MeanBounds(cfg, Heard(cfg, w, now).intervals);
  }

  lemma TwiceHeard(cfg: Config, w: Window, now: Instant)
    requires cfg.Valid() && Sampled(cfg, w)
    ensures var twice := Heard(cfg, Heard(cfg, w, now), now);
            Sampled(cfg, twice) && Phi(cfg, twice, now) == Some(0.0)
  {
    HeardKeepsSampled(cfg, w, now);
    NewsIsAlive(cfg, Heard(cfg, w, now), now);
  }

  lemma UpdateRevives(p: Peer, o: ChitchatId, now: Instant)
    requires Healthy(p) && o != p.id && o in p.view
    requires o in p.detector.samples && Phi(p.cfg, p.detector.samples[o], now) == Some(0.0)
    ensures o in AfterEvent(p, UpdateAt(now)).detector.live
  {
    hide Phi;
    LiveAfterUpdate(p, o, now);
  }

  lemma ReviveByDigests(p: Peer, o: ChitchatId, last: nat, now: Instant, until: Instant) returns (events: seq<Event>)
    requires Healthy(p) && o != p.id && o in p.view && IsRevivable(p, o, last, now) && now < until
    ensures IsHistory(o, last, now, until, events) && OnlyDigests(events)
    ensures o in AfterEvents(p, events).detector.live
  {
    hide AfterEvent, Heard, Phi, Sampled;
    var h := Max(1, p.view[o].heartbeat);
    var e0, e1, e2 := HearAt(Only(o, h), now), HearAt(Only(o, h + 1), now), HearAt(Only(o, h + 2), now);
    var p1 := AfterEvent(p, e0);
    HearsFirst(p, o, now);
    var p2 := AfterEvent(p1, e1);
    HearsNews(p1, o, now);
    if HeardWithin(p, o, now) {
      NewsIsAlive(p.cfg, p.detector.samples[o], now);
      UpdateRevives(p2, o, now);
      events := [e0, e1, UpdateAt(now)];
      AfterThree(p, e0, e1, UpdateAt(now));
    } else {
      var p3 := AfterEvent(p2, e2);
      HearsNews(p2, o, now);
      NewWindowIsSampled(p.cfg, p.detector, o);
      TwiceHeard(p.cfg, WindowOf(p.detector, o), now);
      UpdateRevives(p3, o, now);
      events := [e0, e1, e2] + [UpdateAt(now)];
      AfterThree(p, e0, e1, e2);
      AfterConcat(p, [e0, e1, e2], [UpdateAt(now)]);
      AfterOne(p3, UpdateAt(now));
    }
  }

  lemma NewWindowIsSampled(cfg: Config, d: Detector, o: ChitchatId)
    requires AllSampled(cfg, d)
    ensures Sampled(cfg, WindowOf(d, o))
  {
  }

  lemma AfterThree(p: Peer, a: Event, b: Event, c: Event)
    requires Healthy(p)
    ensures AfterEvents(p, [a, b, c]) == AfterEvent(AfterEvent(AfterEvent(p, a), b), c)
  {
    hide AfterEvent;
    assert [a, b, c][..2] == [a, b] && [a, b][..1] == [a];
    AfterOne(p, a);
  }

  /** A dead node is never live again, whatever digests with heartbeats up to `last` arrive and whenever the peer
      updates its nodes before it removes this one, if and only if no heartbeat can be news any more, or just one can
      and it comes too late for an interval. */
  lemma StaysDeadExactly(p: Peer, o: ChitchatId, last: nat, now: Instant)
    requires Healthy(p) && IsSilent(p, o) && o in p.detector.dead
    requires now < p.detector.dead[o] + p.cfg.deadNodeGracePeriod
    ensures (forall events ::
               && IsHistory(o, last, now, p.detector.dead[o] + p.cfg.deadNodeGracePeriod, events)
               && OnlyDigests(events) ==>
                 o !in AfterEvents(p, events).detector.live) <==>
            !IsRevivable(p, o, last, now)
  {
    hide AfterEvents, IsHistory, OnlyDigests, IsRevivable;
    var since, grace := p.detector.dead[o], p.cfg.deadNodeGracePeriod;
    if IsRevivable(p, o, last, now) {
      var events := ReviveByDigests(p, o, last, now, since + grace);
    } else {
      forall events | IsHistory(o, last, now, since + grace, events) && OnlyDigests(events)
        ensures o !in AfterEvents(p, events).detector.live
      {
        UnrevivableStaysDead(p, o, since, grace, last, now, events);
      }
    }
  }

  // ----- resets -----

  /** The delta of a sender that has collected everything up to `gc`. */
  function CollectedUpTo(o: ChitchatId, gc: Version): NodeDelta { NodeDelta(o, 0, gc, [], Some(gc)) }

  lemma ResetHeartbeat(p: Peer, o: ChitchatId, now: Instant) returns (e: Event)
    requires Healthy(p) && o in p.view
    ensures e.ApplyAt? && e.at == now && MayHear(o, 0, e)
    ensures var q := AfterEvent(p, e);
            OnlyHears(p, o, q) && q.detector == p.detector && q.view[o].heartbeat == 0
  {
    var s := p.view[o];
    var gc := Max(s.lastGcVersion, s.maxVersion) + 1;
    var d := CollectedUpTo(o, gc);
    e := ApplyAt([d], now);
    assert IsNodeDelta(State(0, map[], gc, gc), 0, d);
    FreshnessTestNeverFires(s, d);
    assert [d][..0] == [];
    assert ApplyAll(p.view, [d], now) == p.view[o := ApplyDelta(s, d, now)];
  }

  /** After a reset the first heartbeat is taken again, and the second is news again. */
  lemma NewsAfterReset(p: Peer, o: ChitchatId, now: Instant) returns (events: seq<Event>)
    requires Healthy(p) && o != p.id && o in p.view
    ensures |events| == 3
    ensures forall i :: 0 <= i < 3 ==> events[i].at == now && MayHear(o, 2, events[i])
    ensures var q := AfterEvents(p, events);
            && OnlyHears(p, o, q) && o in q.detector.samples
            && q.detector.samples[o] == Heard(p.cfg, WindowOf(p.detector, o), now)
  {
    hide AfterEvent, Heard, IsSent;
    var e := ResetHeartbeat(p, o, now);
    var p1 := AfterEvent(p, e);
    var first, second := HearAt(Only(o, 1), now), HearAt(Only(o, 2), now);
    HearsFirst(p1, o, now);
    HearsNews(AfterEvent(p1, first), o, now);
    events := [e, first, second];
    AfterThree(p, e, first, second);
  }

  lemma ReviveByResets(p: Peer, o: ChitchatId, last: nat, now: Instant, until: Instant) returns (events: seq<Event>)
    requires Healthy(p) && o != p.id && o in p.view && 2 <= last && now < until
    ensures IsHistory(o, last, now, until, events) && o in AfterEvents(p, events).detector.live
  {
    hide AfterEvents, AfterEvent, Heard, IsSent, Phi, Sampled;
    var once := NewsAfterReset(p, o, now);
    var p1 := AfterEvents(p, once);
    var twice := NewsAfterReset(p1, o, now);
    var p2 := AfterEvents(p1, twice);
    NewWindowIsSampled(p.cfg, p.detector, o);
    TwiceHeard(p.cfg, WindowOf(p.detector, o), now);
    UpdateRevives(p2, o, now);
    events := once + twice + [UpdateAt(now)];
    AfterConcat(p, once, twice);
    AfterConcat(p, once + twice, [UpdateAt(now)]);
    AfterOne(p2, UpdateAt(now));
    HistoryAt(o, last, now, until, events);
  }

  lemma HistoryAt(o: ChitchatId, last: nat, now: Instant, until: Instant, events: seq<Event>)
    requires now < until
    requires forall i :: 0 <= i < |events| ==> events[i].at == now && MayHear(o, last, events[i])
    ensures IsHistory(o, last, now, until, events)
  {
  }

  lemma NoNewsStays(p: Peer, o: ChitchatId, since: Instant, grace: Duration, e: Event)
    requires Healthy(p) && StaysDead(p, o, since, grace) && e.at < since + grace && MayHear(o, 1, e)
    ensures StaysDead(AfterEvent(p, e), o, since, grace)
  {
    match e
    case HearAt(digest, at) =>
      assert o !in FreshHeartbeats(p, digest);
    case ApplyAt(deltas, at) =>
      ApplyAllKeepsKeys(p.view, deltas, at, o);
    case UpdateAt(at) =>
      UpdateLeavesDead(p, o, since, at, grace);
  }

  lemma {:induction false} NoNewsStaysDead(
      p: Peer, o: ChitchatId, since: Instant, grace: Duration, from: Instant, events: seq<Event>)
    requires Healthy(p) && StaysDead(p, o, since, grace) && IsHistory(o, 1, from, since + grace, events)
    ensures StaysDead(AfterEvents(p, events), o, since, grace)
  {
    hide StaysDead, AfterEvent, MayHear;
    if events != [] {
      NoNewsStaysDead(p, o, since, grace, from, events[..|events| - 1]);
      NoNewsStays(AfterEvents(p, events[..|events| - 1]), o, since, grace, events[|events| - 1]);
    }
  }

  /** With deltas that may reset the node's state, and with it the heartbeat, it stays dead in every history if and only
      if it never had a second heartbeat. */
  lemma StaysDeadUnderResetsExactly(p: Peer, o: ChitchatId, last: nat, now: Instant)
    requires Healthy(p) && IsSilent(p, o) && o in p.detector.dead
    requires now < p.detector.dead[o] + p.cfg.deadNodeGracePeriod
    ensures (forall events ::
               IsHistory(o, last, now, p.detector.dead[o] + p.cfg.deadNodeGracePeriod, events) ==>
                 o !in AfterEvents(p, events).detector.live) <==>
            last <= 1
  {
    hide AfterEvents, IsHistory;
    var since, grace := p.detector.dead[o], p.cfg.deadNodeGracePeriod;
    if last >= 2 {
      var events := ReviveByResets(p, o, last, now, since + grace);
    } else {
      forall events | IsHistory(o, last, now, since + grace, events)
        ensures o !in AfterEvents(p, events).detector.live
      {
        EarlierHistory(o, last, now, since + grace, events);
        NoNewsStaysDead(p, o, since, grace, now, events);
      }
    }
  }

  lemma EarlierHistory(o: ChitchatId, last: nat, from: Instant, until: Instant, events: seq<Event>)
    requires IsHistory(o, last, from, until, events) && last <= 1
    ensures IsHistory(o, 1, from, until, events)
  {
    hide IsSent;
  }
}
