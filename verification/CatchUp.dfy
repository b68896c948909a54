/** How many handshakes a replica needs when each may be cut short (chitchat/src/state.rs). */
module CatchUp {
  import opened ChitchatTypes
  import opened NodeStates
  import opened NodeRuns
  import opened Replication
  import opened Gossip
  import opened Handshake

  /** What the owner holds of a key is at the replica, or is scheduled for deletion and collected there. */
  ghost predicate Has(o: State, r: State, k: Text)
    requires k in o.keyValues
  {
    || (k in r.keyValues && ToMutation(k, r.keyValues[k]) == ToMutation(k, o.keyValues[k]))
    || (k !in r.keyValues && o.keyValues[k].status.ScheduledForDeletion() && o.keyValues[k].version <= r.lastGcVersion)
  }

  ghost predicate HasAll(o: State, r: State) {
    forall k :: k in o.keyValues ==> Has(o, r, k)
  }

  /** The owner's keys that the replica has not reached. */
  function Ahead(o: State, r: State): set<Text> {
    set k | k in o.keyValues && r.maxVersion < o.keyValues[k].version
  }

  /** The owner holds no scheduled record at or below its `last_gc_version`; `NodeRuns.RetainedTombstonesAreYoung`
      shows this of every run with a clock that never goes back. */
  predicate HoldsOnlyYoung(o: State) {
    forall k :: k in o.keyValues && o.keyValues[k].status.ScheduledForDeletion() ==>
                  o.lastGcVersion < o.keyValues[k].version
  }

  /** A delta for the replica that carries at least one record, or all there are. */
  ghost predicate Brings(o: State, r: State, d: NodeDelta) {
    && IsNodeDelta(o, FromVersion(o, DigestFor(r)), d)
    && (d.keyValues != [] || IsWhole(o, d))
  }

  /** Handshakes with an owner that is quiet meanwhile. */
  ghost predicate AreHandshakes(o: State, rs: seq<State>, ds: seq<NodeDelta>, times: seq<Instant>) {
    && |rs| == |ds| + 1 && |times| == |ds|
    && (forall i :: 0 <= i < |ds| ==>
          Brings(o, rs[i], ds[i]) && rs[i + 1] == ApplyDelta(rs[i], ds[i], times[i]))
  }

  // ----- one handshake -----

  /** After a handshake no further one resets, nor is the boundary met. */
  predicate PastReset(o: State, r: State) {
    o.lastGcVersion <= r.lastGcVersion || o.lastGcVersion < r.maxVersion
  }

  lemma HandshakePassesReset(o: State, r: State, d: NodeDelta, now: Instant)
    requires Brings(o, r, d)
    ensures Prepare(r, d).Refuse? || PastReset(o, ApplyDelta(r, d, now))
    ensures PastReset(o, r) ==> !Prepare(r, d).Reset?
  {
    hide ApplyMutations;
    MutationsEffect(r, d.keyValues, r.maxVersion, now);
    MutationsEffect(ResetTo(d), d.keyValues, ResetTo(d).maxVersion, now);
  }

  lemma NotRefused(p: Pair, d: NodeDelta)
    requires InSync(p) && Brings(p.owner, p.replica, d)
    ensures !Prepare(p.replica, d).Refuse?
  {
    hide HoldsCurrent, HoldsOnlyWritten, LacksOnlyCollectable, StrictlyIncreasing, Carries, MaxVersionOf;
    FreshnessTestNeverFires(p.replica, d);
  }

  lemma HandshakeKeepsPair(p: Pair, d: NodeDelta, now: Instant)
    requires InSync(p) && !AtBoundary(p.owner, p.replica) && Brings(p.owner, p.replica, d)
    ensures InSync(p.(replica := ApplyDelta(p.replica, d, now)))
  {
    hide ReplicaOf, IsNodeDelta, ApplyDelta, AtBoundary;
    WholeHandshakeKeeps(p, d, now);
    SyncKeepsLastGc(p, d, now);
  }

  lemma ReachedIsHad(p: Pair)
    requires InSync(p) && Ahead(p.owner, p.replica) == {}
    ensures HasAll(p.owner, p.replica)
  {
    hide ReplicaOf;
    forall k | k in p.owner.keyValues ensures Has(p.owner, p.replica, k) {
      assert k !in Ahead(p.owner, p.replica);
      ReplicaHoldsOwnersRecords(p.log, p.owner, p.replica, k);
    }
  }

  lemma WholeIsHad(p: Pair, d: NodeDelta, now: Instant)
    requires InSync(p) && !AtBoundary(p.owner, p.replica) && Brings(p.owner, p.replica, d) && IsWhole(p.owner, d)
    ensures HasAll(p.owner, ApplyDelta(p.replica, d, now))
  {
    hide InSync, AtBoundary, IsNodeDelta, IsWhole, ApplyDelta;
    forall k | k in p.owner.keyValues ensures Has(p.owner, ApplyDelta(p.replica, d, now), k) {
      WholeHandshakeDelivers(p, d, now, k);
    }
  }

  /** The first record of a delta is reached by the replica: it is not skipped. */
  lemma FirstRecordIsReached(p: Pair, d: NodeDelta, now: Instant)
    requires InSync(p) && !AtBoundary(p.owner, p.replica) && HoldsOnlyYoung(p.owner)
    requires Brings(p.owner, p.replica, d) && d.keyValues != []
    ensures d.keyValues[0].key in p.owner.keyValues
    ensures d.keyValues[0].key !in Ahead(p.owner, ApplyDelta(p.replica, d, now))
  {
    hide ApplyMutations, HoldsCurrent, HoldsOnlyWritten, LacksOnlyCollectable;
    var s := Prepared(p.replica, d);
    NotRefused(p, d);
    DeltaAppliesToPrepared(p.replica, d, now);
    MutationsEffect(s, d.keyValues, s.maxVersion, now);
  }

  lemma HandshakeAdvances(p: Pair, d: NodeDelta, now: Instant)
    requires InSync(p) && PastReset(p.owner, p.replica) && HoldsOnlyYoung(p.owner)
    requires Brings(p.owner, p.replica, d) && d.keyValues != []
    ensures Ahead(p.owner, ApplyDelta(p.replica, d, now)) < Ahead(p.owner, p.replica)
            || Ahead(p.owner, p.replica) == {}
  {
    hide ApplyMutations, ReplicaOf;
    FirstRecordIsReached(p, d, now);
    HandshakePassesReset(p.owner, p.replica, d, now);
    MutationsEffect(p.replica, d.keyValues, p.replica.maxVersion, now);
  }

  /** What the replica has, it keeps. */
  lemma HadStays(p: Pair, d: NodeDelta, now: Instant, k: Text)
    requires InSync(p) && PastReset(p.owner, p.replica) && Brings(p.owner, p.replica, d)
    requires k in p.owner.keyValues && Has(p.owner, p.replica, k)
    ensures Has(p.owner, ApplyDelta(p.replica, d, now), k)
  {
    hide ApplyMutations, IsNodeDelta, Latest, LacksOnlyCollectable, Prepare;
    var r := ApplyDelta(p.replica, d, now);
    HandshakePassesReset(p.owner, p.replica, d, now);
    HandshakeKeepsPair(p, d, now);
    MutationsEffect(p.replica, d.keyValues, p.replica.maxVersion, now);
    if p.owner.keyValues[k].version <= r.maxVersion {
      ReplicaHoldsOwnersRecords(p.log, p.owner, r, k);
    } else {
      assert p.owner.keyValues[k].version == Latest(p.log, k);
    }
  }

  lemma AllHadStays(p: Pair, d: NodeDelta, now: Instant)
    requires InSync(p) && PastReset(p.owner, p.replica) && Brings(p.owner, p.replica, d)
    requires HasAll(p.owner, p.replica)
    ensures HasAll(p.owner, ApplyDelta(p.replica, d, now))
  {
    hide InSync, Has, Brings, ApplyDelta;
    forall k | k in p.owner.keyValues ensures Has(p.owner, ApplyDelta(p.replica, d, now), k) {
      HadStays(p, d, now, k);
    }
  }

  // ----- any number of handshakes -----

  /** The replica has everything, or each handshake so far has brought it past one more key. */
  ghost predicate Progressed(o: State, r: State, n: nat) {
    HasAll(o, r) || |Ahead(o, r)| + n <= |o.keyValues|
  }

  lemma AheadWithout(o: State, r: State, k: Text)
    requires k in o.keyValues && k !in Ahead(o, r)
    ensures |Ahead(o, r)| + 1 <= |o.keyValues|
  {
    assert Ahead(o, r) + {k} <= o.keyValues.Keys;
    SubsetSize(Ahead(o, r) + {k}, o.keyValues.Keys);
  }

  lemma SubsetSize<T>(a: set<T>, b: set<T>)
    requires a <= b
    ensures |a| <= |b| && (a != b ==> |a| < |b|)
  {
    assert b == a + (b - a);
  }

  lemma FirstHandshake(p: Pair, d: NodeDelta, now: Instant)
    requires InSync(p) && !AtBoundary(p.owner, p.replica) && HoldsOnlyYoung(p.owner) && Brings(p.owner, p.replica, d)
    ensures Progressed(p.owner, ApplyDelta(p.replica, d, now), 1)
  {
    hide InSync, AtBoundary, HoldsOnlyYoung, Ahead, HasAll, ApplyDelta, IsNodeDelta;
    if d.keyValues == [] {
      WholeIsHad(p, d, now);
    } else {
      FirstRecordIsReached(p, d, now);
      AheadWithout(p.owner, ApplyDelta(p.replica, d, now), d.keyValues[0].key);
    }
  }

  lemma NextHandshake(p: Pair, d: NodeDelta, now: Instant, n: nat)
    requires InSync(p) && PastReset(p.owner, p.replica) && HoldsOnlyYoung(p.owner) && Brings(p.owner, p.replica, d)
    requires Progressed(p.owner, p.replica, n)
    ensures Progressed(p.owner, ApplyDelta(p.replica, d, now), n + 1)
  {
    hide InSync, HoldsOnlyYoung, Ahead, HasAll, ApplyDelta, IsNodeDelta;
    if HasAll(p.owner, p.replica) {
      AllHadStays(p, d, now);
    } else if d.keyValues == [] {
      WholeIsHad(p, d, now);
    } else {
      HandshakeAdvances(p, d, now);
      if Ahead(p.owner, p.replica) == {} {
        ReachedIsHad(p);
      } else {
        SubsetSize(Ahead(p.owner, ApplyDelta(p.replica, d, now)), Ahead(p.owner, p.replica));
      }
    }
  }

  lemma {:induction false} HandshakesProgress(p: Pair, rs: seq<State>, ds: seq<NodeDelta>, times: seq<Instant>, n: nat)
    requires InSync(p) && !AtBoundary(p.owner, p.replica) && HoldsOnlyYoung(p.owner)
    requires AreHandshakes(p.owner, rs, ds, times) && rs[0] == p.replica && 1 <= n <= |ds|
    ensures InSync(p.(replica := rs[n])) && PastReset(p.owner, rs[n]) && Progressed(p.owner, rs[n], n)
  {
    hide InSync, AtBoundary, HoldsOnlyYoung, Progressed, ApplyDelta, Brings, PastReset, Prepare;
    var q := p.(replica := rs[n - 1]);
    if n == 1 {
      assert q == p;
      FirstHandshake(p, ds[0], times[0]);
    } else {
      HandshakesProgress(p, rs, ds, times, n - 1);
      PastBoundary(q);
      NextHandshake(q, ds[n - 1], times[n - 1], n - 1);
    }
    NotRefused(q, ds[n - 1]);
    HandshakePassesReset(p.owner, rs[n - 1], ds[n - 1], times[n - 1]);
    HandshakeKeepsPair(q, ds[n - 1], times[n - 1]);
    assert q.(replica := rs[n]) == p.(replica := rs[n]);
  }

  lemma PastBoundary(p: Pair)
    requires PastReset(p.owner, p.replica)
    ensures !AtBoundary(p.owner, p.replica)
  {
  }

  /** From any state in sync that is not at the boundary, a replica has every record of a quiet owner after as many
      handshakes as the owner has keys, however short each of them is cut. */
  lemma HandshakesCatchUp(p: Pair, rs: seq<State>, ds: seq<NodeDelta>, times: seq<Instant>, n: nat)
    requires InSync(p) && !AtBoundary(p.owner, p.replica) && HoldsOnlyYoung(p.owner)
    requires AreHandshakes(p.owner, rs, ds, times) && rs[0] == p.replica
    requires Max(1, |p.owner.keyValues|) <= n <= |ds|
    ensures HasAll(p.owner, rs[n])
  {
    hide InSync, AtBoundary, HoldsOnlyYoung, HasAll, Ahead, Brings;
    HandshakesProgress(p, rs, ds, times, n);
    if !HasAll(p.owner, rs[n]) {
      ReachedIsHad(p.(replica := rs[n]));
    }
  }

  // ----- after any run -----

  predicate ByOwner(step: PairStep) { step.OwnerWrite? || step.OwnerCollect? }

  /** The owner's clock never goes back. */
  predicate OwnerClock(steps: seq<PairStep>) {
    forall i, j :: 0 <= i < j < |steps| && ByOwner(steps[i]) && ByOwner(steps[j]) ==> steps[i].now <= steps[j].now
  }

  ghost predicate OwnerInOrder(o: State, now: Instant) {
    TombstonesInOrder(o, now) && o.lastGcVersion <= o.maxVersion
  }

  lemma OwnerStepKeepsOrder(p: Pair, step: PairStep, q: Pair)
    requires ByOwner(step) && PairNext(p, step, q) && OwnerInOrder(p.owner, step.now)
    ensures OwnerInOrder(q.owner, step.now)
  {
    match step
    case OwnerWrite(w, now) =>
      StepKeepsOrder(p.owner, Local(w), now, now, q.owner);
    case OwnerCollect(now, grace) =>
      StepKeepsOrder(p.owner, Collect(grace), now, now, q.owner);
  }

  lemma {:induction false} OwnersStayInOrder(pairs: seq<Pair>, steps: seq<PairStep>, n: nat, now: Instant)
    requires IsPairRun(pairs, steps) && OwnerClock(steps) && n < |pairs|
    requires forall i :: 0 <= i < n && ByOwner(steps[i]) ==> steps[i].now <= now
    ensures OwnerInOrder(pairs[n].owner, now)
  {
    if n > 0 {
      var step := steps[n - 1];
      assert PairNext(pairs[n - 1], step, pairs[n]);
      if ByOwner(step) {
        OwnersStayInOrder(pairs, steps, n - 1, step.now);
        OwnerStepKeepsOrder(pairs[n - 1], step, pairs[n]);
      } else {
        OwnersStayInOrder(pairs, steps, n - 1, now);
      }
    }
  }

  lemma {:induction false} LatestTime(steps: seq<PairStep>) returns (now: Instant)
    ensures forall i :: 0 <= i < |steps| && ByOwner(steps[i]) ==> steps[i].now <= now
  {
    now := 0.0;
    if steps != [] {
      var last := steps[|steps| - 1];
      now := LatestTime(steps[..|steps| - 1]);
      if ByOwner(last) && now < last.now {
        now := last.now;
      }
    }
  }

  /** The catching up above after any run of the owner and the replica that met no boundary. */
  lemma EveryRunCatchesUp(pairs: seq<Pair>, steps: seq<PairStep>,
                          rs: seq<State>, ds: seq<NodeDelta>, times: seq<Instant>, n: nat)
    requires IsPairRun(pairs, steps) && OwnerClock(steps)
    requires forall i :: 0 <= i < |steps| && steps[i].Sync? ==> !AtBoundary(pairs[i].owner, pairs[i].replica)
    requires var last := pairs[|pairs| - 1];
             && !AtBoundary(last.owner, last.replica)
             && AreHandshakes(last.owner, rs, ds, times) && rs[0] == last.replica
             && Max(1, |last.owner.keyValues|) <= n <= |ds|
    ensures HasAll(pairs[|pairs| - 1].owner, rs[n])
  {
    hide InSync, AtBoundary, HasAll, Brings, AreHandshakes;
    var now := LatestTime(steps);
    OwnersStayInOrder(pairs, steps, |pairs| - 1, now);
    HandshakesKeepInSync(pairs, steps, |pairs| - 1);
    HandshakesCatchUp(pairs[|pairs| - 1], rs, ds, times, n);
  }
}
