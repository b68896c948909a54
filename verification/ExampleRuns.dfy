/** Runs of the whole cluster, step by step: what can be said of a state apart from its heartbeat, and the two
examples in which deliveries that are not safe do harm. */
module ExampleRuns {
  import opened ChitchatTypes
  import opened NodeStates
  import opened NodeRuns
  import opened Replication
  import opened FailureDetectors
  import opened Gossip
  import opened Scuttlebutt
  import opened Handshake
  import opened Counterexamples

  // ----- states apart from heartbeats -----

  function Core(s: State): State { s.(heartbeat := 0) }

  function CoreAt(s: System, n: ChitchatId, o: ChitchatId): State
    requires n in s.peers
  {
    Core(NodeOf(s.peers[n].view, o))
  }

  lemma {:induction false} MutationsOnCore(s: State, kvs: seq<KeyValueMutation>, floor: Version, now: Instant)
    ensures Core(ApplyMutations(s, kvs, floor, now)) == ApplyMutations(Core(s), kvs, floor, now)
  {
    if kvs != [] {
      MutationsOnCore(s, kvs[..|kvs| - 1], floor, now);
    }
  }

  lemma DeltaOnCore(s: State, d: NodeDelta, now: Instant)
    ensures Core(ApplyDelta(s, d, now)) == ApplyDelta(Core(s), d, now)
  {
    hide ApplyMutations;
    MutationsOnCore(s, d.keyValues, s.maxVersion, now);
    MutationsOnCore(ResetTo(d), d.keyValues, ResetTo(d).maxVersion, now);
  }

  lemma WriteOnCore(s: State, w: Write, now: Instant)
    ensures Core(ApplyWrite(s, w, now)) == ApplyWrite(Core(s), w, now)
  {
  }

  /** Nobody is known to be dead. */
  ghost predicate PeerCalm(n: ChitchatId, p: Peer) {
    p.id == n && n in p.view && p.clusterId == [] && p.detector.dead == map[]
  }

  ghost predicate Calm(s: System) {
    s.logs.Keys == s.peers.Keys && forall n :: n in s.peers ==> PeerCalm(n, s.peers[n])
  }

  /** Apart from heartbeats only what is held of the nodes in `but` has changed. */
  ghost predicate SameView(p: Peer, q: Peer, but: set<ChitchatId>) {
    && p.view.Keys <= q.view.Keys && q.keyGrace == p.keyGrace
    && (forall x :: x !in but ==> Core(NodeOf(q.view, x)) == Core(NodeOf(p.view, x)))
  }

  /** Apart from heartbeats only what `at` holds of the nodes in `but` has changed. */
  ghost predicate OnlyChanges(s: System, t: System, at: ChitchatId, but: set<ChitchatId>) {
    && at in s.peers && t.peers.Keys == s.peers.Keys && s.network <= t.network
    && (forall n :: n in s.peers && n != at ==> t.peers[n] == s.peers[n])
    && SameView(s.peers[at], t.peers[at], but)
  }

  lemma PeerChanges(s: System, at: ChitchatId, q: Peer, log: Log, sent: set<Message>, but: set<ChitchatId>, t: System)
    requires Calm(s) && at in s.peers && PeerCalm(at, q) && SameView(s.peers[at], q, but)
    requires t == System(s.peers[at := q], s.logs[at := log], s.network + sent)
    ensures Calm(t) && OnlyChanges(s, t, at, but)
  {
    hide PeerCalm, SameView;
  }

  // ----- the steps -----

  lemma WriteStep(s: System, at: ChitchatId, w: Write, now: Instant) returns (t: System)
    requires Calm(s) && at in s.peers && w.key in ApplyWrite(CoreAt(s, at, at), w, now).keyValues
    ensures Calm(t) && Next(s, DoWrite(at, w, now), t) && OnlyChanges(s, t, at, {at})
    ensures CoreAt(t, at, at) == ApplyWrite(CoreAt(s, at, at), w, now)
  {
    hide ApplyWrite, OnlyChanges;
    var p := s.peers[at];
    assert PeerCalm(at, p);
    var after := ApplyWrite(p.view[at], w, now);
    WriteOnCore(p.view[at], w, now);
    var q, log := p.(view := p.view[at := after]), LogAfter(s.logs[at], p.view[at], w, after);
    t := System(s.peers[at := q], s.logs[at := log], s.network + {});
    PeerChanges(s, at, q, log, {}, {at}, t);
  }

  lemma BumpIsSame(n: ChitchatId, p: Peer)
    requires PeerCalm(n, p)
    ensures PeerCalm(n, BumpSelf(p)) && SameView(p, BumpSelf(p), {})
  {
  }

  lemma ReportIsSame(n: ChitchatId, p: Peer, digest: Digest, now: Instant)
    requires PeerCalm(n, p)
    ensures PeerCalm(n, ReportHeartbeats(p, digest, now)) && SameView(p, ReportHeartbeats(p, digest, now), {})
  {
    hide Heard, FreshHeartbeats;
  }

  lemma HeardIsSame(n: ChitchatId, p: Peer, digest: Digest, now: Instant) returns (q: Peer)
    requires PeerCalm(n, p)
    ensures q == ReportHeartbeats(BumpSelf(p), digest, now)
    ensures PeerCalm(n, q) && SameView(p, q, {}) && Scheduled(q, now) == {}
  {
    hide BumpSelf, ReportHeartbeats;
    BumpIsSame(n, p);
    ReportIsSame(n, BumpSelf(p), digest, now);
    q := ReportHeartbeats(BumpSelf(p), digest, now);
  }

  /** The digest has the versions of everything that the peer knows. */
  ghost predicate Digests(s: System, at: ChitchatId, digest: Digest)
    requires at in s.peers
  {
    forall o :: && DigestOf(digest, o).lastGcVersion == CoreAt(s, at, o).lastGcVersion
                && DigestOf(digest, o).maxVersion == CoreAt(s, at, o).maxVersion
  }

  lemma GossipStep(s: System, at: ChitchatId, now: Instant) returns (t: System, syn: Message)
    requires Calm(s) && at in s.peers
    ensures Calm(t) && Next(s, DoGossip(at, now), t) && OnlyChanges(s, t, at, {})
    ensures syn in t.network && syn.Syn? && syn.clusterId == [] && Digests(s, at, syn.digest)
  {
    hide OnlyChanges;
    var p := s.peers[at];
    assert PeerCalm(at, p);
    BumpIsSame(at, p);
    var q := BumpSelf(p);
    syn := CreateSyn(q, now);
    assert Scheduled(q, now) == {};
    t := System(s.peers[at := q], s.logs[at := s.logs[at]], s.network + {syn});
    PeerChanges(s, at, q, s.logs[at], {syn}, {}, t);
  }

  lemma NodeDeltaOfCore(s: State, from: Version, d: NodeDelta)
    requires IsNodeDelta(Core(s), from, d)
    ensures IsNodeDelta(s, from, d)
  {
  }

  /** The peer answers with a delta of one node. */
  lemma AnswerStep(s: System, at: ChitchatId, syn: Message, d: NodeDelta, now: Instant)
    returns (t: System, answer: Message)
    requires Calm(s) && at in s.peers && syn in s.network && syn.Syn? && syn.clusterId == []
    requires d.id in s.peers[at].view && DigestOf(syn.digest, d.id).maxVersion < CoreAt(s, at, d.id).maxVersion
    requires IsNodeDelta(CoreAt(s, at, d.id), FromVersion(CoreAt(s, at, d.id), DigestOf(syn.digest, d.id)), d)
    ensures Calm(t) && Next(s, DoReceive(at, syn, now), t) && OnlyChanges(s, t, at, {})
    ensures answer in t.network && answer.SynAck? && answer.delta.nodeDeltas == [d]
  {
    hide BumpSelf, ReportHeartbeats, ComputeDigest, IsNodeDelta, OnlyChanges;
    var p := s.peers[at];
    assert PeerCalm(at, p);
    var q := HeardIsSame(at, p, syn.digest, now);
    assert Core(NodeOf(q.view, d.id)) == CoreAt(s, at, d.id);
    NodeDeltaOfCore(q.view[d.id], FromVersion(q.view[d.id], DigestOf(syn.digest, d.id)), d);
    answer := SynAck(ComputeDigest(q.view, Scheduled(q, now)), Delta([d], 0));
    t := System(s.peers[at := q], s.logs[at := s.logs[at]], s.network + {answer});
    PeerChanges(s, at, q, s.logs[at], {answer}, {}, t);
    assert Received(p, syn, now, q, Some(answer));
  }

  lemma ApplyOneDelta(view: View, d: NodeDelta, now: Instant)
    ensures ApplyAll(view, [d], now) == view[d.id := ApplyDelta(NodeOf(view, d.id), d, now)]
  {
    hide ApplyDelta;
    assert [d][..0] == [];
  }

  /** The peer applies a delta of one node, and has nothing to send in return. */
  lemma ApplyStep(s: System, at: ChitchatId, msg: Message, d: NodeDelta, now: Instant) returns (t: System)
    requires Calm(s) && at in s.peers && msg in s.network && msg.SynAck? && msg.delta.nodeDeltas == [d]
    ensures Calm(t) && Next(s, DoReceive(at, msg, now), t) && OnlyChanges(s, t, at, {d.id})
    ensures d.id in t.peers[at].view && CoreAt(t, at, d.id) == ApplyDelta(CoreAt(s, at, d.id), d, now)
  {
    hide BumpSelf, ReportHeartbeats, ApplyDelta, ApplyAll, OnlyChanges;
    var p := s.peers[at];
    assert PeerCalm(at, p);
    var heard := HeardIsSame(at, p, msg.digest, now);
    ApplyOneDelta(heard.view, d, now);
    DeltaOnCore(NodeOf(heard.view, d.id), d, now);
    var q := heard.(view := ApplyAll(heard.view, [d], now));
    var reply := Ack(Delta([], 0));
    t := System(s.peers[at := q], s.logs[at := s.logs[at]], s.network + {reply});
    PeerChanges(s, at, q, s.logs[at], {reply}, {d.id}, t);
    assert Received(p, msg, now, q, Some(reply));
  }

  lemma CollectOne(p: Peer, o: ChitchatId, now: Instant, after: State)
    requires o in p.view && Collected(Core(p.view[o]), now, p.keyGrace, after)
    requires forall x :: x in p.view && x != o ==> p.view[x].keyValues == map[]
    ensures CollectedKeys(p, now, p.(view := p.view[o := after.(heartbeat := p.view[o].heartbeat)]))
  {
    var q := p.(view := p.view[o := after.(heartbeat := p.view[o].heartbeat)]);
    forall x | x in p.view ensures Collected(p.view[x], now, p.keyGrace, q.view[x]) {
      if x != o {
        NothingToCollect(p.view[x], now, p.keyGrace);
      }
    }
  }

  lemma NothingToCollect(s: State, now: Instant, grace: Duration)
    requires s.keyValues == map[]
    ensures Collected(s, now, grace, s)
  {
  }

  /** The peer collects the keys of one node; of the others it holds none. */
  lemma CollectStep(s: System, at: ChitchatId, o: ChitchatId, now: Instant, after: State) returns (t: System)
    requires Calm(s) && at in s.peers && o in s.peers[at].view
    requires forall x :: x != o ==> CoreAt(s, at, x).keyValues == map[]
    requires Collected(CoreAt(s, at, o), now, s.peers[at].keyGrace, after)
    ensures Calm(t) && Next(s, DoCollectKeys(at, now), t) && OnlyChanges(s, t, at, {o})
    ensures CoreAt(t, at, o) == after
  {
    hide OnlyChanges, CollectedKeys;
    var p := s.peers[at];
    assert PeerCalm(at, p);
    forall x | x in p.view && x != o ensures p.view[x].keyValues == map[] {
      assert CoreAt(s, at, x).keyValues == map[];
    }
    CollectOne(p, o, now, after);
    assert after.heartbeat == 0 by { CollectedKeepsHeartbeat(CoreAt(s, at, o), now, p.keyGrace, after); }
    hide Collected;
    var q := p.(view := p.view[o := after.(heartbeat := p.view[o].heartbeat)]);
    t := System(s.peers[at := q], s.logs[at := s.logs[at]], s.network + {});
    PeerChanges(s, at, q, s.logs[at], {}, {o}, t);
    assert s.network + {} == s.network && s.logs[at := s.logs[at]] == s.logs;
  }

  lemma CollectedKeepsHeartbeat(s: State, now: Instant, grace: Duration, t: State)
    requires Collected(s, now, grace, t)
    ensures t.heartbeat == s.heartbeat
  {
  }

  // ----- runs -----

  datatype Run = Run(states: seq<System>, steps: seq<Step>)
  {
    ghost predicate Valid() { states != [] && IsExecution(states, steps) }

    function Last(): System
      requires states != []
    {
      states[|states| - 1]
    }
  }

  /** Only the given pairs of a holder and a node have another state than before. */
  ghost predicate Differ(s: System, t: System, pairs: set<(ChitchatId, ChitchatId)>) {
    && t.peers.Keys == s.peers.Keys && s.network <= t.network
    && (forall n :: n in s.peers ==>
          s.peers[n].view.Keys <= t.peers[n].view.Keys && t.peers[n].keyGrace == s.peers[n].keyGrace)
    && (forall n, x :: n in s.peers && (n, x) !in pairs ==> CoreAt(t, n, x) == CoreAt(s, n, x))
  }

  function Pairs(at: ChitchatId, but: set<ChitchatId>): set<(ChitchatId, ChitchatId)> { set x | x in but :: (at, x) }

  lemma FewPairs(at: ChitchatId, o: ChitchatId)
    ensures Pairs(at, {}) == {} && Pairs(at, {o}) == {(at, o)}
  {
  }

  lemma ChangesDiffer(s: System, t: System, at: ChitchatId, but: set<ChitchatId>)
    requires OnlyChanges(s, t, at, but)
    ensures Differ(s, t, Pairs(at, but))
  {
    forall n, x | n in s.peers && (n, x) !in Pairs(at, but) ensures CoreAt(t, n, x) == CoreAt(s, n, x) {
      if n == at {
        assert x !in but;
      }
    }
  }

  lemma DifferTwice(s: System, t: System, u: System, a: set<(ChitchatId, ChitchatId)>, b: set<(ChitchatId, ChitchatId)>)
    requires Differ(s, t, a) && Differ(t, u, b)
    ensures Differ(s, u, a + b)
  {
    forall n, x | n in s.peers && (n, x) !in a + b ensures CoreAt(u, n, x) == CoreAt(s, n, x) {
      assert CoreAt(t, n, x) == CoreAt(s, n, x);
    }
  }

  lemma Extend(run: Run, step: Step, t: System) returns (longer: Run)
    requires run.Valid() && Next(run.Last(), step, t)
    ensures longer.Valid() && longer.Last() == t
    ensures longer.states == run.states + [t] && longer.steps == run.steps + [step]
  {
    hide Next, Initial;
    longer := Run(run.states + [t], run.steps + [step]);
    forall i | 0 <= i < |longer.steps| ensures Next(longer.states[i], longer.steps[i], longer.states[i + 1]) {
      if i < |run.steps| {
        assert Next(run.states[i], run.steps[i], run.states[i + 1]);
      }
    }
  }

  lemma DoTheWrite(run: Run, at: ChitchatId, w: Write, now: Instant) returns (longer: Run)
    requires run.Valid() && Calm(run.Last()) && at in run.Last().peers
    requires w.key in ApplyWrite(CoreAt(run.Last(), at, at), w, now).keyValues
    ensures longer.Valid() && Calm(longer.Last()) && Differ(run.Last(), longer.Last(), {(at, at)})
    ensures run.states <= longer.states
    ensures CoreAt(longer.Last(), at, at) == ApplyWrite(CoreAt(run.Last(), at, at), w, now)
  {
    hide Calm, Next, Differ, ApplyWrite, OnlyChanges, IsExecution;
    var s := run.Last();
    var t := WriteStep(s, at, w, now);
    longer := Extend(run, DoWrite(at, w, now), t);
    ChangesDiffer(s, t, at, {at});
    FewPairs(at, at);
  }

  lemma DoTheCollection(run: Run, at: ChitchatId, o: ChitchatId, now: Instant, after: State) returns (longer: Run)
    requires run.Valid() && Calm(run.Last()) && at in run.Last().peers && o in run.Last().peers[at].view
    requires forall x :: x != o ==> CoreAt(run.Last(), at, x).keyValues == map[]
    requires Collected(CoreAt(run.Last(), at, o), now, run.Last().peers[at].keyGrace, after)
    ensures longer.Valid() && Calm(longer.Last()) && Differ(run.Last(), longer.Last(), {(at, o)})
    ensures CoreAt(longer.Last(), at, o) == after
  {
    hide Calm, Next, Differ, OnlyChanges, IsExecution, Collected;
    var s := run.Last();
    var t := CollectStep(s, at, o, now, after);
    longer := Extend(run, DoCollectKeys(at, now), t);
    ChangesDiffer(s, t, at, {o});
    FewPairs(at, o);
  }

  /** A peer gossips; the message may be answered much later. */
  lemma DoTheGossip(run: Run, at: ChitchatId, now: Instant) returns (longer: Run, syn: Message)
    requires run.Valid() && Calm(run.Last()) && at in run.Last().peers
    ensures longer.Valid() && Calm(longer.Last()) && Differ(run.Last(), longer.Last(), {})
    ensures syn in longer.Last().network && syn.Syn? && syn.clusterId == [] && Digests(run.Last(), at, syn.digest)
  {
    hide Calm, Next, Differ, OnlyChanges, IsExecution, Digests;
    var s := run.Last();
    var t;
    t, syn := GossipStep(s, at, now);
    longer := Extend(run, DoGossip(at, now), t);
    ChangesDiffer(s, t, at, {});
    FewPairs(at, at);
  }

  /** `sender` answers a digest of `holder`, which applies the answer. */
  lemma DoTheAnswer(run: Run, syn: Message, holder: ChitchatId, sender: ChitchatId, d: NodeDelta, now: Instant)
    returns (longer: Run)
    requires run.Valid() && Calm(run.Last()) && holder in run.Last().peers && sender in run.Last().peers
    requires syn in run.Last().network && syn.Syn? && syn.clusterId == [] && d.id in run.Last().peers[sender].view
    requires DigestOf(syn.digest, d.id).maxVersion < CoreAt(run.Last(), sender, d.id).maxVersion
    requires var o := CoreAt(run.Last(), sender, d.id);
             IsNodeDelta(o, FromVersion(o, DigestOf(syn.digest, d.id)), d)
    ensures longer.Valid() && Calm(longer.Last()) && Differ(run.Last(), longer.Last(), {(holder, d.id)})
    ensures run.states <= longer.states
    ensures d.id in longer.Last().peers[holder].view
    ensures CoreAt(longer.Last(), holder, d.id) == ApplyDelta(CoreAt(run.Last(), holder, d.id), d, now)
  {
    hide Calm, Next, OnlyChanges, IsExecution, IsNodeDelta, ApplyDelta;
    var s := run.Last();
    var t, answer := AnswerStep(s, sender, syn, d, now);
    var answered := Extend(run, DoReceive(sender, syn, now), t);
    ChangesDiffer(s, t, sender, {});
    var u := ApplyStep(t, holder, answer, d, now);
    longer := Extend(answered, DoReceive(holder, answer, now), u);
    ChangesDiffer(t, u, holder, {d.id});
    FewPairs(sender, sender);
    FewPairs(holder, d.id);
    DifferTwice(s, t, u, {}, {(holder, d.id)});
    assert {} + {(holder, d.id)} == {(holder, d.id)};
  }

  // ----- the start -----

  function Fresh(n: ChitchatId, cfg: Config, grace: Duration): Peer {
    Peer(n, [], cfg, grace, map[n := EMPTY.(heartbeat := 1)], NEW_DETECTOR)
  }

  lemma Start(nodes: set<ChitchatId>, cfg: Config, grace: Duration) returns (run: Run)
    requires cfg.Valid()
    ensures run.Valid() && run.steps == [] && Calm(run.Last()) && run.Last().peers.Keys == nodes
    ensures forall n, x :: n in nodes ==> CoreAt(run.Last(), n, x) == EMPTY
    ensures forall n :: n in nodes ==> run.Last().peers[n].keyGrace == grace
  {
    var s := System(map n | n in nodes :: Fresh(n, cfg, grace), map n | n in nodes :: [], {});
    run := Run([s], []);
  }

  const STALE := OWNER.(nodeId := [115])
  const NEWCOMER := OWNER.(nodeId := [110])

  /** What the owner and two replicas hold of the owner. */
  datatype Trio = Trio(owner: State, stale: State, newcomer: State)

  ghost predicate HoldsNothingElse(s: System, n: ChitchatId)
    requires n in s.peers
  {
    forall x :: x != OWNER ==> CoreAt(s, n, x).keyValues == map[]
  }

  ghost predicate Shows(s: System, trio: Trio, grace: Duration) {
    && Calm(s) && s.peers.Keys == {OWNER, STALE, NEWCOMER}
    && CoreAt(s, OWNER, OWNER) == trio.owner && CoreAt(s, STALE, OWNER) == trio.stale
    && CoreAt(s, NEWCOMER, OWNER) == trio.newcomer
    && (forall n :: n in s.peers ==> s.peers[n].keyGrace == grace && HoldsNothingElse(s, n))
  }

  lemma NodesDiffer()
    ensures OWNER != STALE && OWNER != NEWCOMER && STALE != NEWCOMER
  {
    assert OWNER.nodeId[0] != STALE.nodeId[0];
    assert OWNER.nodeId[0] != NEWCOMER.nodeId[0] && STALE.nodeId[0] != NEWCOMER.nodeId[0];
  }

  lemma ShowsAfter(s: System, t: System, at: ChitchatId, trio: Trio, grace: Duration)
    requires Shows(s, trio, grace) && Calm(t) && Differ(s, t, {(at, OWNER)}) && at in s.peers
    ensures Shows(t, Trio(if at == OWNER then CoreAt(t, at, OWNER) else trio.owner,
                          if at == STALE then CoreAt(t, at, OWNER) else trio.stale,
                          if at == NEWCOMER then CoreAt(t, at, OWNER) else trio.newcomer), grace)
  {
    hide Calm;
    NodesDiffer();
    forall n | n in t.peers ensures HoldsNothingElse(t, n) {
      forall x | x != OWNER ensures CoreAt(t, n, x).keyValues == map[] {
        assert CoreAt(t, n, x) == CoreAt(s, n, x);
      }
    }
  }

  lemma ShowsStill(s: System, t: System, trio: Trio, grace: Duration)
    requires Shows(s, trio, grace) && Calm(t) && Differ(s, t, {})
    ensures Shows(t, trio, grace)
  {
    hide Calm;
    forall n | n in t.peers ensures HoldsNothingElse(t, n) {
      forall x | x != OWNER ensures CoreAt(t, n, x).keyValues == map[] {
        assert CoreAt(t, n, x) == CoreAt(s, n, x);
      }
    }
  }

  lemma TrioWrites(run: Run, trio: Trio, grace: Duration, w: Write, now: Instant) returns (longer: Run)
    requires run.Valid() && Shows(run.Last(), trio, grace) && w.key in ApplyWrite(trio.owner, w, now).keyValues
    ensures longer.Valid() && Shows(longer.Last(), trio.(owner := ApplyWrite(trio.owner, w, now)), grace)
    ensures run.Last().network <= longer.Last().network && run.states <= longer.states
  {
    hide Calm, IsExecution, ApplyWrite;
    longer := DoTheWrite(run, OWNER, w, now);
    NodesDiffer();
    ShowsAfter(run.Last(), longer.Last(), OWNER, trio, grace);
  }

  function HeldBy(trio: Trio, n: ChitchatId): State {
    if n == OWNER then trio.owner else if n == STALE then trio.stale else trio.newcomer
  }

  function Holds(trio: Trio, n: ChitchatId, s: State): Trio {
    if n == OWNER then trio.(owner := s) else if n == STALE then trio.(stale := s) else trio.(newcomer := s)
  }

  lemma TrioCollects(run: Run, trio: Trio, grace: Duration, at: ChitchatId, now: Instant, after: State)
    returns (longer: Run)
    requires run.Valid() && Shows(run.Last(), trio, grace) && at in run.Last().peers && 0 < HeldBy(trio, at).maxVersion
    requires Collected(HeldBy(trio, at), now, grace, after)
    ensures longer.Valid() && Shows(longer.Last(), Holds(trio, at, after), grace)
    ensures run.Last().network <= longer.Last().network
  {
    hide Calm, IsExecution, Collected;
    assert HoldsNothingElse(run.Last(), at);
    longer := DoTheCollection(run, at, OWNER, now, after);
    NodesDiffer();
    ShowsAfter(run.Last(), longer.Last(), at, trio, grace);
  }

  /** The answer to `syn` by `sender`, applied by `holder`. */
  lemma TrioAnswers(run: Run, trio: Trio, grace: Duration, syn: Message, holder: ChitchatId, sender: ChitchatId,
                    d: NodeDelta, now: Instant)
    returns (longer: Run)
    requires run.Valid() && Shows(run.Last(), trio, grace)
    requires holder in run.Last().peers && sender in run.Last().peers
    requires syn in run.Last().network && syn.Syn? && syn.clusterId == [] && d.id == OWNER
    requires DigestOf(syn.digest, OWNER).maxVersion < HeldBy(trio, sender).maxVersion
    requires IsNodeDelta(HeldBy(trio, sender), FromVersion(HeldBy(trio, sender), DigestOf(syn.digest, OWNER)), d)
    ensures longer.Valid()
    ensures Shows(longer.Last(), Holds(trio, holder, ApplyDelta(HeldBy(trio, holder), d, now)), grace)
    ensures run.Last().network <= longer.Last().network && run.states <= longer.states
  {
    hide Calm, IsExecution, IsNodeDelta, ApplyDelta, HoldsNothingElse;
    NodesDiffer();
    longer := DoTheAnswer(run, syn, holder, sender, d, now);
    ShowsAfter(run.Last(), longer.Last(), holder, trio, grace);
  }

  /** A handshake of `holder` with `sender`. */
  lemma TrioSyncs(run: Run, trio: Trio, grace: Duration, holder: ChitchatId, sender: ChitchatId, d: NodeDelta,
                  now: Instant)
    returns (longer: Run)
    requires run.Valid() && Shows(run.Last(), trio, grace) && d.id == OWNER
    requires holder in run.Last().peers && sender in run.Last().peers
    requires HeldBy(trio, holder).maxVersion < HeldBy(trio, sender).maxVersion
    requires IsNodeDelta(HeldBy(trio, sender), FromVersion(HeldBy(trio, sender), DigestFor(HeldBy(trio, holder))), d)
    ensures longer.Valid()
    ensures Shows(longer.Last(), Holds(trio, holder, ApplyDelta(HeldBy(trio, holder), d, now)), grace)
    ensures run.Last().network <= longer.Last().network
  {
    hide Calm, IsExecution, IsNodeDelta, ApplyDelta, HoldsNothingElse;
    NodesDiffer();
    var gossiped, syn := DoTheGossip(run, holder, now);
    ShowsStill(run.Last(), gossiped.Last(), trio, grace);
    longer := TrioAnswers(gossiped, trio, grace, syn, holder, sender, d, now);
  }

  // ----- the runs -----

  lemma StartShows(s: System, grace: Duration)
    requires Calm(s) && s.peers.Keys == {OWNER, STALE, NEWCOMER}
    requires forall n, x :: n in s.peers ==> CoreAt(s, n, x) == EMPTY
    requires forall n :: n in s.peers ==> s.peers[n].keyGrace == grace
    ensures Shows(s, Trio(EMPTY, EMPTY, EMPTY), grace)
  {
    hide Calm;
    assert OWNER in s.peers && STALE in s.peers && NEWCOMER in s.peers;
  }

  /** Keys a and b are written and replicated, b is deleted and collected, c is written. */
  lemma ReplicaGoesStale(cfg: Config, grace: Duration) returns (run: Run)
    requires cfg.Valid()
    ensures run.Valid() && Shows(run.Last(), Trio(C_SET, SET_BOTH, EMPTY), grace)
  {
    hide Run.Valid, Calm, HoldsNothingElse, IsNodeDelta, ApplyDelta, Collected;
    NodesDiffer();
    KeysDiffer();
    OwnersHistory(grace);
    run := Start({OWNER, STALE, NEWCOMER}, cfg, grace);
    StartShows(run.Last(), grace);
    run := TrioWrites(run, Trio(EMPTY, EMPTY, EMPTY), grace, WriteSet(A, VALUE), 0.0);
    run := TrioWrites(run, Trio(SetKey(EMPTY, A, VALUE), EMPTY, EMPTY), grace, WriteSet(B, VALUE), 0.0);
    var both := SyncBoth(0.0);
    run := TrioSyncs(run, Trio(SET_BOTH, EMPTY, EMPTY), grace, STALE, OWNER, both, 0.0);
    run := TrioWrites(run, Trio(SET_BOTH, SET_BOTH, EMPTY), grace, WriteDelete(B), 0.0);
    run := TrioCollects(run, Trio(B_DELETED, SET_BOTH, EMPTY), grace, OWNER, grace, B_COLLECTED);
    run := TrioWrites(run, Trio(B_COLLECTED, SET_BOTH, EMPTY), grace, WriteSet(C, VALUE), grace);
  }

  /** A new replica then hears the owner, whose delta is cut, and the stale replica. */
  lemma NewcomerHearsBoth(cfg: Config, grace: Duration) returns (run: Run)
    requires cfg.Valid()
    ensures run.Valid() && Shows(run.Last(), Trio(C_SET, SET_BOTH, MIXED), grace)
  {
    hide Run.Valid, Calm, HoldsNothingElse, IsNodeDelta, ApplyDelta;
    NodesDiffer();
    KeysDiffer();
    run := ReplicaGoesStale(cfg, grace);
    var cut := SyncCut(grace);
    run := TrioSyncs(run, Trio(C_SET, SET_BOTH, EMPTY), grace, NEWCOMER, OWNER, cut, grace);
    var outdated := SyncStale(grace);
    run := TrioSyncs(run, Trio(C_SET, SET_BOTH, CUT), grace, NEWCOMER, STALE, outdated, grace);
  }

  /** Once it has heard the owner again, it ends with b live at the owner's `max_version` and `last_gc_version`. */
  lemma ThirdPartyRun(cfg: Config, grace: Duration) returns (run: Run)
    requires cfg.Valid()
    ensures run.Valid() && OWNER in run.Last().peers && NEWCOMER in run.Last().peers
    ensures var o, r := CoreAt(run.Last(), OWNER, OWNER), CoreAt(run.Last(), NEWCOMER, OWNER);
            && B !in o.keyValues && B in r.keyValues && r.keyValues[B].status.Set?
            && r.maxVersion == o.maxVersion && o.lastGcVersion == r.lastGcVersion
  {
    hide Run.Valid, Calm, HoldsNothingElse, IsNodeDelta, ApplyDelta;
    NodesDiffer();
    KeysDiffer();
    run := NewcomerHearsBoth(cfg, grace);
    var rest := SyncRest(grace);
    run := TrioSyncs(run, Trio(C_SET, SET_BOTH, MIXED), grace, NEWCOMER, OWNER, rest, grace);
  }

  /** The digest of an owner that holds nothing yet. */
  lemma OwnerGossips(run: Run, grace: Duration) returns (longer: Run, syn: Message)
    requires run.Valid() && Shows(run.Last(), Trio(EMPTY, EMPTY, EMPTY), grace)
    ensures longer.Valid() && Shows(longer.Last(), Trio(EMPTY, EMPTY, EMPTY), grace)
    ensures syn in longer.Last().network && syn.Syn? && syn.clusterId == []
    ensures DigestOf(syn.digest, OWNER).lastGcVersion == DigestOf(syn.digest, OWNER).maxVersion == 0
  {
    hide Calm, IsExecution, HoldsNothingElse;
    longer, syn := DoTheGossip(run, OWNER, 0.0);
    ShowsStill(run.Last(), longer.Last(), Trio(EMPTY, EMPTY, EMPTY), grace);
  }

  /** The owner gossips, writes a and b and deletes b; a peer replicates that and collects b. */
  lemma PeerCollectsFirst(cfg: Config, grace: Duration) returns (run: Run, syn: Message)
    requires cfg.Valid()
    ensures run.Valid() && Shows(run.Last(), Trio(B_DELETED, B_COLLECTED, EMPTY), grace)
    ensures syn in run.Last().network && syn.Syn? && syn.clusterId == []
    ensures DigestOf(syn.digest, OWNER).lastGcVersion == DigestOf(syn.digest, OWNER).maxVersion == 0
  {
    hide Run.Valid, Calm, HoldsNothingElse, IsNodeDelta, ApplyDelta, Collected, DigestOf;
    NodesDiffer();
    KeysDiffer();
    OwnersHistory(grace);
    run := Start({OWNER, STALE, NEWCOMER}, cfg, grace);
    StartShows(run.Last(), grace);
    run, syn := OwnerGossips(run, grace);
    run := TrioWrites(run, Trio(EMPTY, EMPTY, EMPTY), grace, WriteSet(A, VALUE), 0.0);
    run := TrioWrites(run, Trio(SetKey(EMPTY, A, VALUE), EMPTY, EMPTY), grace, WriteSet(B, VALUE), 0.0);
    run := TrioWrites(run, Trio(SET_BOTH, EMPTY, EMPTY), grace, WriteDelete(B), 0.0);
    var first := FirstHandshake();
    run := TrioSyncs(run, Trio(B_DELETED, EMPTY, EMPTY), grace, STALE, OWNER, first, 0.0);
    run := TrioCollects(run, Trio(B_DELETED, B_DELETED, EMPTY), grace, STALE, grace, B_COLLECTED);
  }

  /** The owner's digest from before its first write is answered once it has written a and b, deleted b and a peer has
      collected b: the answer resets the owner's own state, and its next write gets a version it has already used. */
  lemma LateAnswerRun(cfg: Config, grace: Duration) returns (early: Run, run: Run)
    requires cfg.Valid()
    ensures early.Valid() && run.Valid() && early.states <= run.states
    ensures OWNER in early.Last().peers && OWNER in run.Last().peers
    ensures CoreAt(early.Last(), OWNER, OWNER) == B_DELETED && B_DELETED.maxVersion == 3
    ensures var last := CoreAt(run.Last(), OWNER, OWNER);
            last.maxVersion == 2 && C in last.keyValues && last.keyValues[C].version == 2
  {
    hide Run.Valid, Calm, HoldsNothingElse, IsNodeDelta, ApplyDelta, DigestOf;
    NodesDiffer();
    KeysDiffer();
    var syn;
    early, syn := PeerCollectsFirst(cfg, grace);
    var peer, late, own := LateAnswerResetsOwner(grace, grace);
    var reset := TrioAnswers(early, Trio(B_DELETED, B_COLLECTED, EMPTY), grace, syn, OWNER, STALE, late, grace);
    run := TrioWrites(reset, Trio(CUT, B_COLLECTED, EMPTY), grace, WriteSet(C, VALUE), grace);
  }
}
