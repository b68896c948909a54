/** How many rounds of gossip bring everything of a quiet owner to the end of a chain of peers, while nothing is
collected (chitchat/src/state.rs, chitchat/src/lib.rs). */
module Spreading {
  import opened ChitchatTypes
  import opened NodeStates
  import opened NodeRuns
  import opened Replication
  import opened Gossip
  import opened Scuttlebutt
  import opened Handshake
  import opened CatchUp

  // ----- one exchange -----

  /** All states are replicas of the first one, the owner's, and nothing is collected. */
  ghost predicate IsLine(log: Log, line: seq<State>) {
    && ValidLog(log) && line != [] && line[0].maxVersion == |log|
    && (forall i :: 0 <= i < |line| ==> ReplicaOf(log, line[i]) && line[i].lastGcVersion == 0)
  }

  lemma ExchangeKeepsReplica(log: Log, s: State, r: State, d: NodeDelta, now: Instant)
    requires ReplicaOf(log, s) && ReplicaOf(log, r) && s.lastGcVersion == 0 && r.lastGcVersion == 0 && Brings(s, r, d)
    ensures var t := ApplyDelta(r, d, now);
            ReplicaOf(log, t) && t.lastGcVersion == 0 && r.maxVersion <= t.maxVersion
  {
    SenderMakesDelta(log, s, d.fromVersionExcluded, d);
    hide ReplicaOf, DeltaOf, ApplyMutations;
    SafeDeliveryKeepsReplica(log, r, d, now);
    MutationsEffect(r, d.keyValues, r.maxVersion, now);
  }

  lemma AheadOfEqual(log: Log, o: State, s: State, r: State)
    requires ReplicaOf(log, o) && ReplicaOf(log, s) && o.lastGcVersion == 0 && s.lastGcVersion == 0
    requires o.maxVersion == |log| && s.maxVersion == |log|
    ensures Ahead(s, r) == Ahead(o, r)
  {
    CaughtUpReplicaIsEqual(log, o, s);
    hide ReplicaOf;
    forall k | k in o.keyValues ensures o.keyValues[k].version == s.keyValues[k].version {
      assert ToMutation(k, o.keyValues[k]) == ToMutation(k, s.keyValues[k]);
    }
  }

  /** From a peer that has caught up, a delta brings the receiver past one more key of the owner. */
  lemma ExchangeAdvances(log: Log, o: State, s: State, r: State, d: NodeDelta, now: Instant)
    requires ValidLog(log) && ReplicaOf(log, o) && ReplicaOf(log, s) && ReplicaOf(log, r)
    requires o.lastGcVersion == 0 && s.lastGcVersion == 0 && r.lastGcVersion == 0
    requires o.maxVersion == |log| && s.maxVersion == |log| && Brings(s, r, d)
    ensures Ahead(o, ApplyDelta(r, d, now)) < Ahead(o, r) || Ahead(o, r) == {}
  {
    AheadOfEqual(log, o, s, r);
    AheadOfEqual(log, o, s, ApplyDelta(r, d, now));
    if d.keyValues != [] {
      WrittenAreYoung(log, s);
      hide ReplicaOf, Brings, ApplyDelta, Ahead;
      HandshakeAdvances(Pair(log, s, r), d, now);
    } else {
      NothingToBring(s, r, d);
    }
  }

  lemma WrittenAreYoung(log: Log, s: State)
    requires ReplicaOf(log, s) && s.lastGcVersion == 0
    ensures HoldsOnlyYoung(s)
  {
  }

  lemma NothingToBring(s: State, r: State, d: NodeDelta)
    requires s.lastGcVersion == 0 && Brings(s, r, d) && d.keyValues == []
    ensures Ahead(s, r) == {}
  {
  }

  lemma NothingAhead(log: Log, o: State, r: State)
    requires ReplicaOf(log, o) && ReplicaOf(log, r) && o.lastGcVersion == 0 && o.maxVersion == |log|
    requires Ahead(o, r) == {}
    ensures r.maxVersion == |log|
  {
    if |log| > 0 {
      var k := log[|log| - 1].key;
      assert Latest(log, k) == |log|;
      assert k !in Ahead(o, r);
    }
  }

  lemma AheadShrinks(o: State, r: State, t: State)
    requires r.maxVersion <= t.maxVersion
    ensures Ahead(o, t) <= Ahead(o, r)
  {
  }

  // ----- any number of exchanges, between any two peers -----

  datatype Exchange = Exchange(from: nat, to: nat, delta: NodeDelta, now: Instant)

  predicate InRange(n: nat, es: seq<Exchange>) {
    forall i :: 0 <= i < |es| ==> es[i].from < n && 0 < es[i].to < n
  }

  function After(line: seq<State>, es: seq<Exchange>): (after: seq<State>)
    requires InRange(|line|, es)
    ensures |after| == |line|
  {
    if es == [] then line
    else
      var e, before := es[|es| - 1], After(line, es[..|es| - 1]);
      before[e.to := ApplyDelta(before[e.to], e.delta, e.now)]
  }

  /** Each answers the digest of its receiver, and brings at least one record or all there are, which may be none. */
  ghost predicate AreExchanges(line: seq<State>, es: seq<Exchange>)
    requires InRange(|line|, es)
  {
    es == []
    || var e, before := es[|es| - 1], After(line, es[..|es| - 1]);
       AreExchanges(line, es[..|es| - 1]) && Brings(before[e.from], before[e.to], e.delta)
  }

  lemma {:induction false} ExchangesKeepLine(log: Log, line: seq<State>, es: seq<Exchange>)
    requires IsLine(log, line) && InRange(|line|, es) && AreExchanges(line, es)
    ensures IsLine(log, After(line, es))
    ensures forall i :: 0 <= i < |line| ==> line[i].maxVersion <= After(line, es)[i].maxVersion
    ensures After(line, es)[0] == line[0]
  {
    hide ReplicaOf, Brings, ApplyDelta, ValidLog;
    if es != [] {
      var e, before := es[|es| - 1], After(line, es[..|es| - 1]);
      ExchangesKeepLine(log, line, es[..|es| - 1]);
      ExchangeKeepsReplica(log, before[e.from], before[e.to], e.delta, e.now);
    }
  }

  ghost predicate HasReached(log: Log, line: seq<State>, k: nat) {
    forall i :: 0 <= i <= k && i < |line| ==> line[i].maxVersion == |log|
  }

  lemma LineIsBounded(log: Log, line: seq<State>, i: nat)
    requires IsLine(log, line) && i < |line|
    ensures line[i].maxVersion <= |log| && ReplicaOf(log, line[i])
  {
  }

  lemma ExchangesKeepReached(log: Log, line: seq<State>, es: seq<Exchange>, k: nat)
    requires IsLine(log, line) && InRange(|line|, es) && AreExchanges(line, es) && HasReached(log, line, k)
    ensures HasReached(log, After(line, es), k)
  {
    hide IsLine, AreExchanges, After;
    ExchangesKeepLine(log, line, es);
    forall i | 0 <= i <= k && i < |line| ensures After(line, es)[i].maxVersion == |log| {
      LineIsBounded(log, After(line, es), i);
    }
  }

  /** Peer `k + 1` hears of peer `k`. */
  predicate Passes(es: seq<Exchange>, k: nat) {
    exists j :: 0 <= j < |es| && es[j].from == k && es[j].to == k + 1
  }

  /** One exchange of a line, seen by the receiver. */
  lemma ExchangeInLine(log: Log, line: seq<State>, e: Exchange)
    requires IsLine(log, line) && e.from < |line| && 0 < e.to < |line| && Brings(line[e.from], line[e.to], e.delta)
    ensures var r, t := line[e.to], ApplyDelta(line[e.to], e.delta, e.now);
            && Ahead(line[0], t) <= Ahead(line[0], r)
            && (line[e.from].maxVersion == |log| ==> Ahead(line[0], t) < Ahead(line[0], r) || Ahead(line[0], r) == {})
  {
    hide ReplicaOf, Brings, ApplyDelta, Ahead, ValidLog;
    var o, s, r := line[0], line[e.from], line[e.to];
    ExchangeKeepsReplica(log, s, r, e.delta, e.now);
    AheadShrinks(o, r, ApplyDelta(r, e.delta, e.now));
    if s.maxVersion == |log| {
      ExchangeAdvances(log, o, s, r, e.delta, e.now);
    }
  }

  lemma {:induction false} PassingAdvances(log: Log, line: seq<State>, es: seq<Exchange>, k: nat)
    requires IsLine(log, line) && InRange(|line|, es) && AreExchanges(line, es)
    requires k + 1 < |line| && HasReached(log, line, k) && Passes(es, k)
    ensures var o := line[0];
            Ahead(o, After(line, es)[k + 1]) < Ahead(o, line[k + 1]) || Ahead(o, After(line, es)[k + 1]) == {}
  {
    hide IsLine, Brings, ApplyDelta, Ahead;
    var n := |es| - 1;
    var o, e, before := line[0], es[n], After(line, es[..n]);
    ExchangesKeepLine(log, line, es[..n]);
    ExchangesKeepReached(log, line, es[..n], k);
    ExchangeInLine(log, before, e);
    AheadShrinks(o, line[k + 1], before[k + 1]);
    if !(e.from == k && e.to == k + 1) {
      PassesBefore(es, k);
      PassingAdvances(log, line, es[..n], k);
    }
  }

  lemma PassesBefore(es: seq<Exchange>, k: nat)
    requires Passes(es, k) && !(es[|es| - 1].from == k && es[|es| - 1].to == k + 1)
    ensures Passes(es[..|es| - 1], k)
  {
    var j :| 0 <= j < |es| && es[j].from == k && es[j].to == k + 1;
    assert es[..|es| - 1][j] == es[j];
  }

  // ----- rounds along the chain -----

  /** In a round every peer but the owner hears of the one before it, whatever else is exchanged. */
  predicate IsRound(n: nat, es: seq<Exchange>) {
    InRange(n, es) && forall k :: 0 <= k && k + 1 < n ==> Passes(es, k)
  }

  predicate AllRounds(n: nat, rounds: seq<seq<Exchange>>) {
    forall i :: 0 <= i < |rounds| ==> IsRound(n, rounds[i])
  }

  function AfterRounds(line: seq<State>, rounds: seq<seq<Exchange>>): (after: seq<State>)
    requires AllRounds(|line|, rounds)
    ensures |after| == |line|
  {
    if rounds == [] then line else After(AfterRounds(line, rounds[..|rounds| - 1]), rounds[|rounds| - 1])
  }

  ghost predicate AreRounds(line: seq<State>, rounds: seq<seq<Exchange>>)
    requires AllRounds(|line|, rounds)
  {
    rounds == []
    || (&& AreRounds(line, rounds[..|rounds| - 1])
        && AreExchanges(AfterRounds(line, rounds[..|rounds| - 1]), rounds[|rounds| - 1]))
  }

  lemma {:induction false} RoundsKeepLine(log: Log, line: seq<State>, rounds: seq<seq<Exchange>>)
    requires IsLine(log, line) && AllRounds(|line|, rounds) && AreRounds(line, rounds)
    ensures IsLine(log, AfterRounds(line, rounds)) && AfterRounds(line, rounds)[0] == line[0]
  {
    hide IsLine, AreExchanges, After;
    if rounds != [] {
      RoundsKeepLine(log, line, rounds[..|rounds| - 1]);
      ExchangesKeepLine(log, AfterRounds(line, rounds[..|rounds| - 1]), rounds[|rounds| - 1]);
    }
  }

  /** After `j` rounds with peer `k` caught up, peer `k + 1` is past `j` keys. */
  ghost predicate IsPast(o: State, r: State, j: nat) {
    |Ahead(o, r)| + j <= |o.keyValues| || Ahead(o, r) == {}
  }

  lemma PastOneMore(o: State, r: State, t: State, j: nat)
    requires IsPast(o, r, j) && (Ahead(o, t) < Ahead(o, r) || Ahead(o, t) == {})
    ensures IsPast(o, t, j + 1)
  {
    if Ahead(o, t) < Ahead(o, r) {
      SubsetSize(Ahead(o, t), Ahead(o, r));
    }
  }

  lemma PastNone(o: State, r: State)
    ensures IsPast(o, r, 0)
  {
    SubsetSize(Ahead(o, r), o.keyValues.Keys);
  }

  /** `start` rounds have brought the peers up to `k` to the end, and `j` more follow. */
  lemma {:induction false} RoundsPass(
      log: Log, line: seq<State>, rounds: seq<seq<Exchange>>, k: nat, start: nat)
    requires IsLine(log, line) && AllRounds(|line|, rounds) && AreRounds(line, rounds)
    requires k + 1 < |line| && start <= |rounds|
    requires AllRounds(|line|, rounds[..start]) && HasReached(log, AfterRounds(line, rounds[..start]), k)
    ensures var after := AfterRounds(line, rounds);
            HasReached(log, after, k) && IsPast(line[0], after[k + 1], |rounds| - start)
  {
    hide IsLine, HasReached, IsPast, AreExchanges, After, Passes, InRange;
    if start == |rounds| {
      assert rounds[..start] == rounds;
      PastNone(line[0], AfterRounds(line, rounds)[k + 1]);
    } else {
      var n := |rounds| - 1;
      assert rounds[..n][..start] == rounds[..start];
      RoundsPass(log, line, rounds[..n], k, start);
      RoundsKeepLine(log, line, rounds[..n]);
      var before := AfterRounds(line, rounds[..n]);
      assert IsRound(|line|, rounds[n]);
      ExchangesKeepReached(log, before, rounds[n], k);
      PassingAdvances(log, before, rounds[n], k);
      PastOneMore(line[0], before[k + 1], AfterRounds(line, rounds)[k + 1], n - start);
    }
  }

  lemma ReachedOneMore(log: Log, line: seq<State>, k: nat)
    requires IsLine(log, line) && k + 1 < |line| && HasReached(log, line, k)
    requires IsPast(line[0], line[k + 1], |line[0].keyValues|)
    ensures HasReached(log, line, k + 1)
  {
    hide ReplicaOf;
    NothingAhead(log, line[0], line[k + 1]);
  }

  /** After `k` times as many rounds as the owner has keys, peer `k` of the chain has reached the owner. */
  lemma {:induction false} RoundsReach(log: Log, line: seq<State>, rounds: seq<seq<Exchange>>, k: nat)
    requires IsLine(log, line) && AllRounds(|line|, rounds) && AreRounds(line, rounds) && k < |line|
    requires k * |line[0].keyValues| <= |rounds|
    ensures HasReached(log, AfterRounds(line, rounds), k)
    decreases k
  {
    hide IsLine, AreExchanges, After, IsPast;
    RoundsKeepLine(log, line, rounds);
    if k == 0 {
      OwnerHasReached(log, AfterRounds(line, rounds));
    } else {
      var keys := |line[0].keyValues|;
      assert k * keys == (k - 1) * keys + keys;
      var start := |rounds| - keys;
      RoundsPrefix(line, rounds, start);
      RoundsReach(log, line, rounds[..start], k - 1);
      RoundsPass(log, line, rounds, k - 1, start);
      ReachedOneMore(log, AfterRounds(line, rounds), k - 1);
    }
  }

  lemma OwnerHasReached(log: Log, line: seq<State>)
    requires IsLine(log, line)
    ensures HasReached(log, line, 0)
  {
  }

  lemma {:induction false} RoundsPrefix(line: seq<State>, rounds: seq<seq<Exchange>>, n: nat)
    requires AllRounds(|line|, rounds) && AreRounds(line, rounds) && n <= |rounds|
    ensures AllRounds(|line|, rounds[..n]) && AreRounds(line, rounds[..n])
    decreases |rounds|
  {
    hide AreExchanges, IsRound;
    if n == |rounds| {
      assert rounds[..n] == rounds;
    } else {
      assert rounds[..|rounds| - 1][..n] == rounds[..n];
      RoundsPrefix(line, rounds[..|rounds| - 1], n);
    }
  }

  /** Everything of a quiet owner is at every peer of a chain after as many rounds as the owner has keys for each link
      of the chain, however short the deltas are cut and whatever else the peers exchange. */
  lemma ChainCatchesUp(log: Log, line: seq<State>, rounds: seq<seq<Exchange>>, k: nat)
    requires IsLine(log, line) && AllRounds(|line|, rounds) && AreRounds(line, rounds) && k < |line|
    requires k * |line[0].keyValues| <= |rounds|
    ensures SameRecords(line[0], AfterRounds(line, rounds)[k])
  {
    hide ReplicaOf, AreRounds, AfterRounds;
    RoundsReach(log, line, rounds, k);
    RoundsKeepLine(log, line, rounds);
    CaughtUpReplicaIsEqual(log, line[0], AfterRounds(line, rounds)[k]);
  }

  // ----- after any run -----

  /** What the hosts hold of the first one. */
  ghost function LineOf(s: System, hosts: seq<ChitchatId>): seq<State>
    requires hosts != [] && forall i :: 0 <= i < |hosts| ==> hosts[i] in s.peers
  {
    seq(|hosts|, i requires 0 <= i < |hosts| => NodeOf(s.peers[hosts[i]].view, hosts[0]))
  }

  lemma ViewIsInLine(s: System, owner: ChitchatId, host: ChitchatId)
    requires Replicated(s) && Uncollected(s) && owner in s.peers && host in s.peers
    ensures owner in s.logs && ValidLog(s.logs[owner])
    ensures var r := NodeOf(s.peers[host].view, owner);
            && ReplicaOf(s.logs[owner], r) && r.lastGcVersion == 0
            && (host == owner ==> r.maxVersion == |s.logs[owner]|)
  {
    hide ReplicaOf, GoodMessage, GoodDetector;
    assert GoodPeer(s.logs, host, s.peers[host]) && NoneCollectedIn(s.peers[host].view);
    EmptyIsReplica(s.logs[owner], 0);
  }

  lemma RunsMakeLines(s: System, hosts: seq<ChitchatId>)
    requires Replicated(s) && Uncollected(s)
    requires hosts != [] && forall i :: 0 <= i < |hosts| ==> hosts[i] in s.peers
    ensures hosts[0] in s.logs && IsLine(s.logs[hosts[0]], LineOf(s, hosts))
  {
    hide ReplicaOf, Replicated, Uncollected, ValidLog;
    var line := LineOf(s, hosts);
    ViewIsInLine(s, hosts[0], hosts[0]);
    forall i | 0 <= i < |line| ensures ReplicaOf(s.logs[hosts[0]], line[i]) && line[i].lastGcVersion == 0 {
      ViewIsInLine(s, hosts[0], hosts[i]);
    }
  }

  /** The same from any state of any run without key collection. */
  lemma EveryRunSpreads(states: seq<System>, steps: seq<Step>, n: nat, hosts: seq<ChitchatId>,
                        rounds: seq<seq<Exchange>>, k: nat)
    requires IsExecution(states, steps) && n < |states|
    requires forall i :: 0 <= i < |steps| ==> !steps[i].DoCollectKeys?
    requires k < |hosts| && forall i :: 0 <= i < |hosts| ==> hosts[i] in states[n].peers
    requires AllRounds(|hosts|, rounds) && AreRounds(LineOf(states[n], hosts), rounds)
    requires k * |NodeOf(states[n].peers[hosts[0]].view, hosts[0]).keyValues| <= |rounds|
    ensures SameRecords(NodeOf(states[n].peers[hosts[0]].view, hosts[0]),
                        AfterRounds(LineOf(states[n], hosts), rounds)[k])
  {
    hide IsExecution, Replicated, Uncollected, AreRounds, AfterRounds, SameRecords;
    RunsWithoutCollection(states, steps, n);
    RunsMakeLines(states[n], hosts);
    ChainCatchesUp(states[n].logs[hosts[0]], LineOf(states[n], hosts), rounds, k);
  }
}
