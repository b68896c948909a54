/** What the watchers of live nodes are told (chitchat/src/lib.rs, `update_nodes_liveness` and
`live_nodes_watch_stream`). */
module Watchers {
  import opened ChitchatTypes
  import opened NodeStates
  import opened NodeRuns
  import opened FailureDetectors
  import opened Gossip
  import opened Scuttlebutt
  import opened Numbering

  /** The versions of the known nodes that are live, oneself included. */
  function LiveVersions(p: Peer): map<ChitchatId, Version> {
    map o | o in {p.id} + p.detector.live && o in p.view :: p.view[o].maxVersion
  }

  function LiveStates(p: Peer, isReady: State -> bool): View {
    map o | o in {p.id} + p.detector.live && o in p.view && isReady(p.view[o]) :: p.view[o]
  }

  // ----- the failure detector speaks only of known nodes -----

  predicate Tended(p: Peer) {
    && p.id in p.view
    && p.detector.live + p.detector.dead.Keys + p.detector.samples.Keys <= p.view.Keys - {p.id}
    && p.detector.live !! p.detector.dead.Keys
  }

  lemma BumpKeepsTended(p: Peer)
    requires Tended(p)
    ensures Tended(BumpSelf(p))
  {
  }

  lemma ReportKeepsTended(p: Peer, digest: Digest, now: Instant)
    requires Tended(p)
    ensures Tended(ReportHeartbeats(p, digest, now)) && ReportHeartbeats(p, digest, now).id == p.id
  {
    hide Heard;
  }

  lemma DeltasKeepTended(p: Peer, ds: seq<NodeDelta>, now: Instant)
    requires Tended(p)
    ensures Tended(p.(view := ApplyAll(p.view, ds, now)))
  {
    hide ApplyAll;
    forall o | o in p.view ensures o in ApplyAll(p.view, ds, now) {
      ApplyAllKeepsKeys(p.view, ds, now, o);
    }
  }

  lemma CollectKeepsTended(p: Peer, now: Instant, q: Peer)
    requires Tended(p) && CollectedKeys(p, now, q)
    ensures Tended(q)
  {
    hide Collected;
  }

  lemma JudgingKeepsTended(p: Peer, now: Instant)
    requires Tended(p) && Healthy(p)
    ensures Tended(Judged(p, now)) && Judged(p, now).id == p.id
  {
    hide IsAlive;
  }

  lemma ForgettingKeepsTended(p: Peer, now: Instant)
    requires Tended(p)
    ensures Tended(Forgotten(p, now)) && Forgotten(p, now).id == p.id
  {
  }

  lemma UpdateKeepsTended(p: Peer, now: Instant)
    requires Tended(p) && Healthy(p)
    ensures Tended(UpdateNodesLiveness(p, now)) && UpdateNodesLiveness(p, now).id == p.id
  {
    hide Tended, Judged, Forgotten;
    JudgingKeepsTended(p, now);
    ForgettingKeepsTended(Judged(p, now), now);
  }

  lemma ReceiveKeepsTended(p: Peer, msg: Message, now: Instant, q: Peer, reply: Option<Message>)
    requires Tended(p) && Healthy(p) && Received(p, msg, now, q, reply)
    ensures Tended(q) && Healthy(q) && q.id == p.id
  {
    hide Tended, AllSampled, ReportHeartbeats, ApplyAll, BumpSelf, IsPartialDelta, ComputeDigest;
    var bumped := BumpSelf(p);
    BumpKeepsTended(p);
    BumpKeepsDetector(p);
    match msg
    case Syn(clusterId, digest) =>
      ReportKeepsTended(bumped, digest, now);
      ReportKeepsHealthy(bumped, digest, now);
    case SynAck(digest, delta) =>
      ReportKeepsTended(bumped, digest, now);
      ReportKeepsHealthy(bumped, digest, now);
      DeltasKeepTended(ReportHeartbeats(bumped, digest, now), delta.nodeDeltas, now);
    case Ack(delta) =>
      DeltasKeepTended(bumped, delta.nodeDeltas, now);
    case BadCluster =>
  }

  lemma BumpKeepsDetector(p: Peer)
    ensures BumpSelf(p).detector == p.detector && BumpSelf(p).cfg == p.cfg && BumpSelf(p).id == p.id
  {
  }

  lemma ReportKeepsHealthy(p: Peer, digest: Digest, now: Instant)
    requires Healthy(p)
    ensures Healthy(ReportHeartbeats(p, digest, now))
  {
    ReportKeepsSampled(p, digest, now);
  }

  ghost predicate AllTended(s: System) {
    forall n :: n in s.peers ==> s.peers[n].id == n && Tended(s.peers[n]) && Healthy(s.peers[n])
  }

  lemma StepKeepsTended(s: System, step: Step, t: System)
    requires AllTended(s) && Next(s, step, t)
    ensures AllTended(t)
  {
    hide Received, AllSampled, ApplyWrite, UpdateNodesLiveness, CollectedKeys, BumpSelf;
    var p, q := s.peers[step.at], t.peers[step.at];
    match step {
      case DoWrite(_, _, _) =>
      case DoCollectKeys(_, now) =>
        CollectKeepsTended(p, now, q);
        CollectKeepsDetector(p, now, q);
      case DoUpdateLiveness(_, now) =>
        UpdateKeepsTended(p, now);
        UpdateKeepsSampled(p, now);
      case DoGossip(_, _) =>
        BumpKeepsTended(p);
        BumpKeepsDetector(p);
      case DoReceive(_, msg, now) =>
        var reply :| Received(p, msg, now, q, reply);
        ReceiveKeepsTended(p, msg, now, q, reply);
    }
  }

  lemma CollectKeepsDetector(p: Peer, now: Instant, q: Peer)
    requires CollectedKeys(p, now, q)
    ensures q.detector == p.detector && q.cfg == p.cfg && q.id == p.id
  {
  }

  /** In every run the live, the dead and the sampled nodes of every peer are among the others that it knows, and none
      is both live and dead. */
  lemma {:induction false} EveryRunIsTended(states: seq<System>, steps: seq<Step>, n: nat)
    requires IsExecution(states, steps) && n < |states|
    ensures AllTended(states[n])
  {
    hide Next;
    if n > 0 {
      EveryRunIsTended(states, steps, n - 1);
      StepKeepsTended(states[n - 1], steps[n - 1], states[n]);
    }
  }

  // ----- what is published -----

  /** Known, and oneself or alive by its samples. */
  ghost predicate IsShown(p: Peer, now: Instant, o: ChitchatId)
    requires Healthy(p)
  {
    o in p.view && (o == p.id || IsAlive(p.cfg, p.detector, o, now))
  }

  lemma LiveAreShown(p: Peer, now: Instant, o: ChitchatId)
    requires Healthy(p) && Tended(p)
    ensures o in LiveVersions(Judged(p, now)) <==> IsShown(p, now, o)
    ensures IsShown(p, now, o) ==> LiveVersions(Judged(p, now))[o] == p.view[o].maxVersion
  {
    hide IsAlive;
  }

  /** What is sent when anything is: the states of the shown nodes that are ready. */
  lemma ReadyAreSent(p: Peer, now: Instant, isReady: State -> bool, o: ChitchatId)
    requires Healthy(p) && Tended(p)
    ensures var sent := LiveStates(Judged(p, now), isReady);
            && (o in sent <==> IsShown(p, now, o) && isReady(p.view[o]))
            && (o in sent ==> sent[o] == p.view[o])
  {
    hide IsAlive;
  }

  /** A node joins, leaves or changes its `max_version` between two updates. */
  ghost predicate IsNoticed(p: Peer, before: Instant, q: Peer, now: Instant, o: ChitchatId)
    requires Healthy(p) && Healthy(q)
  {
    || IsShown(p, before, o) != IsShown(q, now, o)
    || (IsShown(p, before, o) && p.view[o].maxVersion != q.view[o].maxVersion)
  }

  lemma PublishedExactly(p: Peer, before: Instant, q: Peer, now: Instant)
    requires Healthy(p) && Tended(p) && Healthy(q) && Tended(q)
    ensures LiveVersions(Judged(p, before)) != LiveVersions(Judged(q, now)) <==>
            exists o :: IsNoticed(p, before, q, now, o)
  {
    hide LiveVersions, Judged, IsShown, AllSampled;
    var a, b := LiveVersions(Judged(p, before)), LiveVersions(Judged(q, now));
    forall o ensures o in a <==> IsShown(p, before, o)
             ensures o in b <==> IsShown(q, now, o)
             ensures o in a ==> o in p.view && a[o] == p.view[o].maxVersion
             ensures o in b ==> o in q.view && b[o] == q.view[o].maxVersion
    {
      LiveAreShown(p, before, o);
      LiveAreShown(q, now, o);
      ShownIsKnown(p, before, o);
      ShownIsKnown(q, now, o);
    }
    if forall o :: !IsNoticed(p, before, q, now, o) {
      forall o ensures o in a <==> o in b ensures o in a && o in b ==> a[o] == b[o] {
        assert !IsNoticed(p, before, q, now, o);
      }
      assert a == b;
    }
  }

  lemma ShownIsKnown(p: Peer, now: Instant, o: ChitchatId)
    requires Healthy(p)
    ensures IsShown(p, now, o) ==> o in p.view
  {
  }

  predicate IsUpdate(steps: seq<Step>, i: nat, at: ChitchatId) {
    i < |steps| && steps[i].DoUpdateLiveness? && steps[i].at == at
  }

  /** `steps[i]` is the last update of the peer before `steps[n]`. */
  predicate IsLastUpdate(steps: seq<Step>, i: nat, n: nat, at: ChitchatId) {
    i < n && IsUpdate(steps, i, at) && forall k :: i < k < n ==> !IsUpdate(steps, k, at)
  }

  /** The live nodes that the peer remembers when `n` steps are done. */
  ghost function Remembered(states: seq<System>, steps: seq<Step>, n: nat, at: ChitchatId): map<ChitchatId, Version>
    requires IsExecution(states, steps) && n <= |steps|
  {
    if n == 0 then map[]
    else if IsUpdate(steps, n - 1, at) then
      assert Next(states[n - 1], steps[n - 1], states[n]);
      LiveVersions(Judged(states[n - 1].peers[at], steps[n - 1].now))
    else Remembered(states, steps, n - 1, at)
  }

  lemma UpdaterIsTended(states: seq<System>, steps: seq<Step>, i: nat, at: ChitchatId)
    requires IsExecution(states, steps) && IsUpdate(steps, i, at)
    ensures at in states[i].peers && Healthy(states[i].peers[at]) && Tended(states[i].peers[at])
  {
    EveryRunIsTended(states, steps, i);
    assert Next(states[i], steps[i], states[i + 1]);
  }

  lemma {:induction false} RememberedFromLastUpdate(
      states: seq<System>, steps: seq<Step>, n: nat, at: ChitchatId) returns (i: Option<nat>)
    requires IsExecution(states, steps) && n <= |steps|
    ensures i.None? ==> Remembered(states, steps, n, at) == map[] && forall k :: 0 <= k < n ==> !IsUpdate(steps, k, at)
    ensures i.Some? ==>
              && IsLastUpdate(steps, i.value, n, at)
              && at in states[i.value].peers && Healthy(states[i.value].peers[at])
              && Remembered(states, steps, n, at) == LiveVersions(Judged(states[i.value].peers[at], steps[i.value].now))
  {
    hide LiveVersions, Judged, Initial, AllSampled, Next;
    if n == 0 {
      i := None;
    } else if IsUpdate(steps, n - 1, at) {
      UpdaterIsTended(states, steps, n - 1, at);
      i := Some(n - 1);
    } else {
      i := RememberedFromLastUpdate(states, steps, n - 1, at);
    }
  }

  /** The peer's first update, or a node joins, leaves or changes its `max_version` since its last update. */
  ghost predicate IsNews(states: seq<System>, steps: seq<Step>, j: nat, at: ChitchatId)
    requires IsExecution(states, steps) && IsUpdate(steps, j, at)
  {
    UpdaterIsTended(states, steps, j, at);
    || (forall i :: 0 <= i < j ==> !IsUpdate(steps, i, at))
    || exists i: nat, o :: IsLastUpdate(steps, i, j, at) &&
         (UpdaterIsTended(states, steps, i, at);
          IsNoticed(states[i].peers[at], steps[i].now, states[j].peers[at], steps[j].now, o))
  }

  /** In every run, watchers are sent something at an update exactly if it is the first one, or since the last one a
      node has joined, has left or has another `max_version`. */
  lemma WatchersHearExactly(states: seq<System>, steps: seq<Step>, j: nat, at: ChitchatId)
    requires IsExecution(states, steps) && IsUpdate(steps, j, at)
    ensures at in states[j].peers && Healthy(states[j].peers[at])
    ensures Remembered(states, steps, j, at) != LiveVersions(Judged(states[j].peers[at], steps[j].now)) <==>
            IsNews(states, steps, j, at)
  {
    hide LiveVersions, Judged, Initial, AllSampled, Remembered, IsNoticed, Tended, Next;
    UpdaterIsTended(states, steps, j, at);
    var q, now := states[j].peers[at], steps[j].now;
    var last := RememberedFromLastUpdate(states, steps, j, at);
    match last
    case None =>
      SelfIsShown(q, now);
      LiveAreShown(q, now, q.id);
    case Some(i) =>
      UpdaterIsTended(states, steps, i, at);
      PublishedExactly(states[i].peers[at], steps[i].now, q, now);
      forall k | IsLastUpdate(steps, k, j, at) ensures k == i {
      }
  }

  lemma SelfIsShown(p: Peer, now: Instant)
    requires Healthy(p) && Tended(p)
    ensures IsShown(p, now, p.id)
  {
  }

  /** Heartbeats are noticed only as far as they bring a node to life. */
  lemma HeartbeatsAreNotNotified(p: Peer, before: Instant, digest: Digest, at: Instant, now: Instant)
    requires Healthy(p) && Tended(p)
    ensures var q := ReportHeartbeats(p, digest, at);
            && Healthy(q)
            && (LiveVersions(Judged(p, before)) != LiveVersions(Judged(q, now)) <==>
                exists o :: o != p.id && IsShown(p, before, o) != IsShown(q, now, o))
  {
    hide LiveVersions, Judged, AllSampled, Tended, IsAlive, Heard, FreshHeartbeats;
    var q := ReportHeartbeats(p, digest, at);
    ReportKeepsTended(p, digest, at);
    ReportKeepsHealthy(p, digest, at);
    PublishedExactly(p, before, q, now);
    forall o ensures IsNoticed(p, before, q, now, o) <==> o != p.id && IsShown(p, before, o) != IsShown(q, now, o) {
      SelfIsKnown(p);
    }
  }

  lemma SelfIsKnown(p: Peer)
    requires Tended(p)
    ensures p.id in p.view
  {
  }

  /** Collected keys are not noticed at all. */
  lemma CollectionIsNotNotified(p: Peer, at: Instant, q: Peer, now: Instant)
    requires Healthy(p) && Tended(p) && CollectedKeys(p, at, q)
    ensures Healthy(q) && LiveVersions(Judged(p, now)) == LiveVersions(Judged(q, now))
  {
    hide IsAlive, UpdateAll;
    CollectKeepsTended(p, at, q);
    PublishedExactly(p, now, q, now);
  }

  /** A write of one's own that changes anything is always noticed. */
  lemma OwnWriteIsNotified(p: Peer, before: Instant, w: Write, at: Instant, now: Instant)
    requires Healthy(p) && Tended(p) && NumberedView(p.view)
    requires ApplyWrite(NodeOf(p.view, p.id), w, at) != NodeOf(p.view, p.id)
    ensures var q := p.(view := p.view[p.id := ApplyWrite(NodeOf(p.view, p.id), w, at)]);
            Healthy(q) && LiveVersions(Judged(p, before)) != LiveVersions(Judged(q, now))
  {
    hide ApplyWrite, IsAlive, LiveVersions, Judged;
    assert Numbered(p.view[p.id]);
    WriteTakesEffect(p.view[p.id], w, at);
    var q := p.(view := p.view[p.id := ApplyWrite(NodeOf(p.view, p.id), w, at)]);
    PublishedExactly(p, before, q, now);
    assert IsNoticed(p, before, q, now, p.id);
  }
}
