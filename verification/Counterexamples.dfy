/** Concrete runs of the code on which a plausible property fails; each shows that a condition of a theorem in
this project cannot be dropped. */
module Counterexamples {
  import opened ChitchatTypes
  import opened NodeStates
  import opened NodeRuns
  import opened Replication
  import opened Gossip
  import opened Handshake

  const A: Text := [97]
  const B: Text := [98]
  const C: Text := [99]
  const VALUE: Text := [120]
  const OWNER := ChitchatId([111], 0, SocketAddr(V4([127, 0, 0, 1]), 7280))

  function Live(version: Version): VersionedValue { VersionedValue(VALUE, version, Set) }
  function Tombstone(version: Version, since: Instant): VersionedValue { VersionedValue([], version, Deleted(since)) }
  function LiveMutation(key: Text, version: Version): KeyValueMutation { ToMutation(key, Live(version)) }

  lemma KeysDiffer()
    ensures A != B && A != C && B != C
  {
    assert A[0] != B[0] && A[0] != C[0] && B[0] != C[0];
  }

  lemma ApplyOne(s: State, m: KeyValueMutation, floor: Version, now: Instant)
    ensures ApplyMutations(s, [m], floor, now) == ApplyMutation(s, m, floor, now)
  {
    assert [m][..0] == [];
  }

  lemma ApplyTwo(s: State, m1: KeyValueMutation, m2: KeyValueMutation, floor: Version, now: Instant)
    ensures ApplyMutations(s, [m1, m2], floor, now) == ApplyMutation(ApplyMutation(s, m1, floor, now), m2, floor, now)
  {
    assert [m1, m2][..1] == [m1];
    ApplyOne(s, m1, floor, now);
  }

  /** A state with one live key and one old tombstone, after a collection. */
  lemma CollectTombstone(live: Text, dead: Text, v: Version, w: Version, grace: Duration)
    requires live != dead && 0 < w
    ensures Collected(State(0, map[live := Live(v), dead := Tombstone(w, 0.0)], w, 0), grace, grace,
                      State(0, map[live := Live(v)], w, w))
  {
    var s := State(0, map[live := Live(v), dead := Tombstone(w, 0.0)], w, 0);
    assert Expired(s.keyValues[dead], grace, grace);
    assert (map k | k in s.keyValues && !Expired(s.keyValues[k], grace, grace) :: s.keyValues[k])
           == map[live := Live(v)];
  }

  lemma LiveKeyIsNotScheduled(s: State, k: Text, v: Version)
    requires k in s.keyValues && s.keyValues[k].status.Set? && s.keyValues[k].version <= v
    ensures !OnlyScheduledUpTo(s, v)
  {
  }

  /** The first handshake of the run below. */
  lemma FirstHandshake() returns (d: NodeDelta)
    ensures d == NodeDelta(OWNER, 0, 0, [LiveMutation(A, 1), ToMutation(B, Tombstone(3, 0.0))], None)
    ensures IsNodeDelta(State(0, map[A := Live(1), B := Tombstone(3, 0.0)], 3, 0), 0, d)
    ensures ApplyDelta(EMPTY, d, 0.0) == State(0, map[A := Live(1), B := Tombstone(3, 0.0)], 3, 0)
  {
    KeysDiffer();
    d := NodeDelta(OWNER, 0, 0, [LiveMutation(A, 1), ToMutation(B, Tombstone(3, 0.0))], None);
    assert d.keyValues[0].version == 1 && d.keyValues[1].version == 3;
    ApplyTwo(EMPTY, LiveMutation(A, 1), ToMutation(B, Tombstone(3, 0.0)), 0, 0.0);
  }

  /** The second one. */
  lemma SecondHandshake(now: Instant) returns (d: NodeDelta)
    ensures d == NodeDelta(OWNER, 3, 3, [LiveMutation(C, 4)], None)
    ensures IsNodeDelta(State(0, map[A := Live(1), C := Live(4)], 4, 3), 3, d)
    ensures ApplyDelta(State(0, map[A := Live(1), B := Tombstone(3, 0.0)], 3, 0), d, now)
            == State(0, map[C := Live(4)], 4, 3)
  {
    KeysDiffer();
    d := NodeDelta(OWNER, 3, 3, [LiveMutation(C, 4)], None);
    assert d.keyValues[0].version == 4;
    ApplyOne(ResetTo(d), LiveMutation(C, 4), 0, now);
  }

  /** Set a, set b, delete b, handshake, the owner collects b, set c, handshake: at the second handshake the
      replica stands exactly at the owner's `last_gc_version`, resets on an increment, and loses the live key a
      for good: it is at the owner's `max_version`, so nothing more will be sent. */
  lemma BoundaryHandshakeLosesLiveKey(grace: Duration) returns (pairs: seq<Pair>, steps: seq<PairStep>)
    ensures IsPairRun(pairs, steps) && |steps| == 7
    ensures AtBoundary(pairs[6].owner, pairs[6].replica) && InSync(pairs[6])
    ensures var o, r := pairs[7].owner, pairs[7].replica;
            A in o.keyValues && o.keyValues[A] == Live(1) && A !in r.keyValues && r.maxVersion == o.maxVersion
    ensures !InSync(pairs[7])
  {
    hide IsNodeDelta, ApplyDelta, Collected, InSync, OnlyScheduledUpTo;
    KeysDiffer();
    var o3 := State(0, map[A := Live(1), B := Tombstone(3, 0.0)], 3, 0);
    var o6 := State(0, map[A := Live(1), C := Live(4)], 4, 3);
    var l1 := [LiveMutation(A, 1)];
    var l2 := l1 + [LiveMutation(B, 2)];
    var l3 := l2 + [ToMutation(B, Tombstone(3, 0.0))];
    var l6 := l3 + [LiveMutation(C, 4)];
    var first := FirstHandshake();
    var second := SecondHandshake(grace);
    CollectTombstone(A, B, 1, 3, grace);
    pairs := [Pair([], EMPTY, EMPTY),
              Pair(l1, State(0, map[A := Live(1)], 1, 0), EMPTY),
              Pair(l2, State(0, map[A := Live(1), B := Live(2)], 2, 0), EMPTY),
              Pair(l3, o3, EMPTY),
              Pair(l3, o3, o3),
              Pair(l3, State(0, map[A := Live(1)], 3, 3), o3),
              Pair(l6, o6, o3),
              Pair(l6, o6, State(0, map[C := Live(4)], 4, 3))];
    steps := [OwnerWrite(WriteSet(A, VALUE), 0.0), OwnerWrite(WriteSet(B, VALUE), 0.0),
              OwnerWrite(WriteDelete(B), 0.0), Sync(first, 0.0), OwnerCollect(grace, grace),
              OwnerWrite(WriteSet(C, VALUE), grace), Sync(second, grace)];
    assert PairNext(pairs[3], steps[3], pairs[4]);
    assert PairNext(pairs[4], steps[4], pairs[5]);
    assert PairNext(pairs[6], steps[6], pairs[7]);
    assert forall i :: 0 <= i < 7 ==> PairNext(pairs[i], steps[i], pairs[i + 1]);
    HandshakesKeepInSync(pairs, steps, 6);
    BoundaryHandshake(pairs[6], second, grace);
    LiveKeyIsNotScheduled(o6, A, 3);
  }

  /** The owner after set a, set b. */
  const SET_BOTH := State(0, map[A := Live(1), B := Live(2)], 2, 0)
  /** ... and delete b. */
  const B_DELETED := State(0, map[A := Live(1), B := Tombstone(3, 0.0)], 3, 0)
  /** ... and collect b. */
  const B_COLLECTED := State(0, map[A := Live(1)], 3, 3)
  /** ... and set c. */
  const C_SET := State(0, map[A := Live(1), C := Live(4)], 4, 3)

  lemma OwnersHistory(grace: Duration)
    ensures SetKey(SetKey(EMPTY, A, VALUE), B, VALUE) == SET_BOTH
    ensures DeleteKey(SET_BOTH, B, 0.0) == B_DELETED
    ensures Collected(B_DELETED, grace, grace, B_COLLECTED)
    ensures SetKey(B_COLLECTED, C, VALUE) == C_SET
  {
    KeysDiffer();
    CollectTombstone(A, B, 1, 3, grace);
  }

  lemma SyncBoth(now: Instant) returns (d: NodeDelta)
    ensures d.id == OWNER && IsNodeDelta(SET_BOTH, 0, d) && ApplyDelta(EMPTY, d, now) == SET_BOTH
  {
    KeysDiffer();
    d := NodeDelta(OWNER, 0, 0, [LiveMutation(A, 1), LiveMutation(B, 2)], None);
    assert d.keyValues[0].version == 1 && d.keyValues[1].version == 2;
    ApplyTwo(EMPTY, LiveMutation(A, 1), LiveMutation(B, 2), 0, now);
  }

  /** A new replica that the owner resets, with a delta cut after a. */
  const CUT := State(0, map[A := Live(1)], 1, 3)
  /** The same replica after a handshake with one that only knows a and b. */
  const MIXED := State(0, map[A := Live(1), B := Live(2)], 2, 3)

  lemma SyncCut(now: Instant) returns (d: NodeDelta)
    ensures d.id == OWNER && IsNodeDelta(C_SET, 0, d) && ApplyDelta(EMPTY, d, now) == CUT
  {
    KeysDiffer();
    d := NodeDelta(OWNER, 0, 3, [LiveMutation(A, 1)], None);
    assert d.keyValues[0].version == 1;
    ApplyOne(ResetTo(d), LiveMutation(A, 1), 0, now);
  }

  lemma SyncStale(now: Instant) returns (d: NodeDelta)
    ensures d.id == OWNER && IsNodeDelta(SET_BOTH, 1, d) && !SafeFor(CUT, d) && ApplyDelta(CUT, d, now) == MIXED
  {
    KeysDiffer();
    d := NodeDelta(OWNER, 1, 0, [LiveMutation(B, 2)], None);
    assert d.keyValues[0].version == 2;
    ApplyOne(CUT, LiveMutation(B, 2), 1, now);
  }

  lemma SyncRest(now: Instant) returns (d: NodeDelta)
    ensures d.id == OWNER && IsNodeDelta(C_SET, 2, d)
    ensures ApplyDelta(MIXED, d, now) == MIXED.(keyValues := MIXED.keyValues[C := Live(4)], maxVersion := 4)
  {
    KeysDiffer();
    d := NodeDelta(OWNER, 2, 3, [LiveMutation(C, 4)], None);
    assert d.keyValues[0].version == 4;
    ApplyOne(MIXED, LiveMutation(C, 4), 2, now);
  }

  /** A replica `stale` that got a and b, and a new replica that the owner resets after it deleted and collected
      b, with a delta cut after a. A handshake with `stale` gives the new replica the deleted key b, the owner's
      next increment completes it, and b stays: everybody is at the owner's `max_version`. */
  lemma ThirdPartyResurrectsDeletedKey(now: Instant) returns (stale: State, cut: State, mixed: State, final: State)
    ensures exists d :: IsNodeDelta(SET_BOTH, FromVersion(SET_BOTH, DigestFor(EMPTY)), d)
                        && stale == ApplyDelta(EMPTY, d, now)
    ensures exists d :: IsNodeDelta(C_SET, FromVersion(C_SET, DigestFor(EMPTY)), d)
                        && cut == ApplyDelta(EMPTY, d, now)
    ensures exists d :: IsNodeDelta(stale, FromVersion(stale, DigestFor(cut)), d)
                        && !SafeFor(cut, d) && mixed == ApplyDelta(cut, d, now)
    ensures exists d :: IsNodeDelta(C_SET, FromVersion(C_SET, DigestFor(mixed)), d)
                        && final == ApplyDelta(mixed, d, now)
    ensures B !in C_SET.keyValues && B in final.keyValues && final.keyValues[B].status.Set?
    ensures final.maxVersion == C_SET.maxVersion
  {
    hide IsNodeDelta, ApplyDelta, SafeFor;
    KeysDiffer();
    var d1 := SyncBoth(now);
    var d2 := SyncCut(now);
    var d3 := SyncStale(now);
    var d4 := SyncRest(now);
    stale, cut, mixed := SET_BOTH, CUT, MIXED;
    final := ApplyDelta(MIXED, d4, now);
    assert IsNodeDelta(SET_BOTH, FromVersion(SET_BOTH, DigestFor(EMPTY)), d1);
    assert IsNodeDelta(C_SET, FromVersion(C_SET, DigestFor(EMPTY)), d2);
    assert IsNodeDelta(stale, FromVersion(stale, DigestFor(cut)), d3);
    assert IsNodeDelta(C_SET, FromVersion(C_SET, DigestFor(mixed)), d4);
  }

  /** A peer that collects the owner's tombstone before the owner does, and answers a digest that the owner sent
      before it wrote anything, resets the owner's own state: its `max_version` falls back from 3 to 1, and
      its next write reuses version 2. */
  lemma LateAnswerResetsOwner(grace: Duration, now: Instant) returns (peer: State, d: NodeDelta, own: State)
    ensures peer == B_COLLECTED && Collected(B_DELETED, grace, grace, peer)
    ensures d.id == OWNER && IsNodeDelta(peer, FromVersion(peer, DigestFor(EMPTY)), d)
    ensures Prepare(B_DELETED, d).Reset? && own == CUT && own == ApplyDelta(B_DELETED, d, now)
    ensures own.maxVersion < B_DELETED.maxVersion
    ensures C in SetKey(own, C, VALUE).keyValues && SetKey(own, C, VALUE).keyValues[C].version == 2
  {
    KeysDiffer();
    CollectTombstone(A, B, 1, 3, grace);
    peer := B_COLLECTED;
    d := NodeDelta(OWNER, 0, 3, [LiveMutation(A, 1)], None);
    assert d.keyValues[0].version == 1;
    ApplyOne(ResetTo(d), LiveMutation(A, 1), 0, now);
    own := ApplyDelta(B_DELETED, d, now);
    assert own == State(0, map[A := Live(1)], 1, 3);
  }

  /** A replica that has everything and stays behind: the owner's newest record is collected, so a whole delta
      ends below the owner's `max_version`, and the next one, which announces it, is not a reset. */
  lemma ReplicaStaysBehind(now: Instant) returns (first: NodeDelta, next: NodeDelta)
    ensures IsNodeDelta(B_COLLECTED, FromVersion(B_COLLECTED, DigestFor(EMPTY)), first) && IsWhole(B_COLLECTED, first)
    ensures ApplyDelta(EMPTY, first, now) == CUT && CUT.keyValues == B_COLLECTED.keyValues
    ensures IsNodeDelta(B_COLLECTED, FromVersion(B_COLLECTED, DigestFor(CUT)), next) && IsWhole(B_COLLECTED, next)
    ensures CUT.maxVersion < B_COLLECTED.maxVersion
    ensures forall d :: IsNodeDelta(B_COLLECTED, FromVersion(B_COLLECTED, DigestFor(CUT)), d) ==>
                          ApplyDelta(CUT, d, now) == CUT
  {
    first := NodeDelta(OWNER, 0, 3, [LiveMutation(A, 1)], None);
    assert first.keyValues[0].version == 1;
    ApplyOne(ResetTo(first), LiveMutation(A, 1), 0, now);
    next := NodeDelta(OWNER, 1, 3, [], Some(3));
    forall d | IsNodeDelta(B_COLLECTED, FromVersion(B_COLLECTED, DigestFor(CUT)), d)
      ensures ApplyDelta(CUT, d, now) == CUT
    {
      NothingAboveOne(d);
    }
  }

  lemma NothingAboveOne(d: NodeDelta)
    requires IsNodeDelta(B_COLLECTED, 1, d)
    ensures d.keyValues == []
  {
    if d.keyValues != [] {
      FirstIsAbove(B_COLLECTED, 1, d);
    }
  }

  lemma FirstIsAbove(s: State, from: Version, d: NodeDelta)
    requires IsNodeDelta(s, from, d) && d.keyValues != []
    ensures d.keyValues[0].key in s.keyValues && from < s.keyValues[d.keyValues[0].key].version
  {
  }

  /** Two replicas with the same `max_version` need not hold the same keys, even if nothing is ever collected:
      one got a and b, the other a delta cut after b once a had been rewritten. */
  lemma EqualVersionsDifferentKeys(now: Instant) returns (early: State, late: State)
    ensures exists d :: IsNodeDelta(SET_BOTH, 0, d) && early == ApplyDelta(EMPTY, d, now)
    ensures exists d :: IsNodeDelta(SetKey(SET_BOTH, A, []), 0, d) && late == ApplyDelta(EMPTY, d, now)
    ensures early.maxVersion == late.maxVersion && A in early.keyValues && A !in late.keyValues
  {
    KeysDiffer();
    var d1 := SyncBoth(now);
    early := SET_BOTH;
    var d2 := NodeDelta(OWNER, 0, 0, [LiveMutation(B, 2)], None);
    assert d2.keyValues[0].version == 2;
    ApplyOne(EMPTY, LiveMutation(B, 2), 0, now);
    late := ApplyDelta(EMPTY, d2, now);
    assert SetKey(SET_BOTH, A, []).keyValues[A].version == 3;
    assert IsNodeDelta(SetKey(SET_BOTH, A, []), 0, d2);
  }
}
