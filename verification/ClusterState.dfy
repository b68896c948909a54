/** A peer's view of all node states (chitchat/src/state.rs, `ClusterState`): which nodes are stale with respect to
a digest, in which order they are taken, and the delta that fits a payload limit. */
module ClusterStates {
  import opened ChitchatTypes
  import opened NodeStates
  import opened Replication
  import opened Gossip
  import opened Handshake
  import opened Numbering
  import opened Streams
  import opened Deltas
  import opened Wire
  import opened DeltaSerializers

  // ----- staleness -----

  datatype Staleness = Staleness(isUnknown: bool, maxVersion: Version, numStaleKeyValues: nat)
  {
    /** `cmp` is not `Less`: unknown nodes first, the ones with the lowest `max_version` before the others; then
        the ones with the most stale records. */
    predicate AtLeast(other: Staleness) {
      if isUnknown != other.isUnknown then isUnknown
      else if isUnknown then maxVersion <= other.maxVersion
      else numStaleKeyValues >= other.numStaleKeyValues
    }
  }

  lemma StalenessIsTotal(a: Staleness, b: Staleness, c: Staleness)
    ensures a.AtLeast(b) || b.AtLeast(a)
    ensures a.AtLeast(b) && b.AtLeast(c) ==> a.AtLeast(c)
  {
  }

  function StaleKeys(s: State, floor: Version): set<Text> {
    set k | k in s.keyValues && s.keyValues[k].version > floor
  }

  /** For an unknown node the number is that of its live records; it is not compared. */
  function StalenessOf(s: State, floor: Version): Staleness {
    Staleness(floor == 0, s.maxVersion,
              if floor == 0 then |set k | k in s.keyValues && !s.keyValues[k].IsDeleted()| else |StaleKeys(s, floor)|)
  }

  datatype StaleNode = StaleNode(id: ChitchatId, state: State, from: Version)
  {
    function Score(): Staleness { StalenessOf(state, from) }
  }

  ghost predicate Ranked(nodes: seq<StaleNode>) {
    forall i, j :: 0 <= i < j < |nodes| ==> nodes[i].Score().AtLeast(nodes[j].Score())
  }

  /** Unknown nodes come first, by increasing `max_version`; then the others, by decreasing number of stale records. */
  lemma RankedOrder(nodes: seq<StaleNode>, i: nat, j: nat)
    requires Ranked(nodes) && i < j < |nodes|
    ensures nodes[j].from == 0 ==> nodes[i].from == 0 && nodes[i].state.maxVersion <= nodes[j].state.maxVersion
    ensures nodes[i].from > 0 ==>
              nodes[j].from > 0
              && |StaleKeys(nodes[i].state, nodes[i].from)| >= |StaleKeys(nodes[j].state, nodes[j].from)|
  {
    assert nodes[i].Score().AtLeast(nodes[j].Score());
  }

  ghost predicate DistinctNodes(nodes: seq<StaleNode>) {
    forall i, j :: 0 <= i < j < |nodes| ==> nodes[i].id != nodes[j].id
  }

  ghost predicate Offers(view: View, digest: Digest, scheduled: set<ChitchatId>, n: StaleNode) {
    && IsStale(view, digest, scheduled, n.id)
    && n.state == view[n.id]
    && n.from == FromVersion(view[n.id], DigestOf(digest, n.id))
  }

  /** `SortedStaleNodes::offer`: after the nodes of at least the same staleness. Which of several equally stale
      nodes comes first depends on the order of the offers, which is arbitrary. */
  method Offer(nodes: seq<StaleNode>, n: StaleNode) returns (r: seq<StaleNode>, ghost at: nat)
    requires Ranked(nodes)
    ensures Ranked(r) && at <= |nodes| && r == nodes[..at] + [n] + nodes[at..]
  {
    var i := 0;
    while i < |nodes| && nodes[i].Score().AtLeast(n.Score())
      invariant i <= |nodes|
      invariant forall j :: 0 <= j < i ==> nodes[j].Score().AtLeast(n.Score())
    {
      i := i + 1;
    }
    r, at := nodes[..i] + [n] + nodes[i..], i;
    forall j | i <= j < |nodes| ensures n.Score().AtLeast(nodes[j].Score()) {
      StalenessIsTotal(nodes[i].Score(), n.Score(), n.Score());
      StalenessIsTotal(n.Score(), nodes[i].Score(), nodes[j].Score());
    }
  }

  // ----- the stale records of one node, by version -----

  predicate IsOldest(s: State, keys: set<Text>, key: Text)
    requires keys <= s.keyValues.Keys
  {
    key in keys && forall k :: k in keys ==> s.keyValues[key].version <= s.keyValues[k].version
  }

  lemma {:induction false} OldestKey(s: State, keys: set<Text>) returns (oldest: Text)
    requires keys != {} && keys <= s.keyValues.Keys
    ensures IsOldest(s, keys, oldest)
    decreases keys
  {
    var some :| some in keys;
    if keys == {some} {
      oldest := some;
    } else {
      var rest := keys - {some};
      var best := OldestKey(s, rest);
      oldest := if s.keyValues[some].version <= s.keyValues[best].version then some else best;
    }
  }

  /** `kvs` are records of `s` above `from`, by increasing version. */
  ghost predicate AreRecords(s: State, from: Version, kvs: seq<KeyValueMutation>) {
    && StrictlyIncreasing(kvs)
    && (forall i :: 0 <= i < |kvs| ==>
          && kvs[i].key in s.keyValues && kvs[i] == ToMutation(kvs[i].key, s.keyValues[kvs[i].key])
          && from < kvs[i].version)
  }

  ghost predicate HasKey(kvs: seq<KeyValueMutation>, k: Text) {
    exists i :: 0 <= i < |kvs| && kvs[i].key == k
  }

  ghost predicate HasKeys(kvs: seq<KeyValueMutation>, keys: set<Text>) {
    forall k :: k in keys ==> HasKey(kvs, k)
  }

  ghost predicate AllBefore(s: State, kvs: seq<KeyValueMutation>, pending: set<Text>)
    requires pending <= s.keyValues.Keys
  {
    forall i, k :: 0 <= i < |kvs| && k in pending ==> kvs[i].version < s.keyValues[k].version
  }

  lemma TakeOldest(s: State, from: Version, kvs: seq<KeyValueMutation>, pending: set<Text>, key: Text)
    requires DistinctVersions(s) && pending <= StaleKeys(s, from)
    requires AreRecords(s, from, kvs) && AllBefore(s, kvs, pending) && HasKeys(kvs, StaleKeys(s, from) - pending)
    requires IsOldest(s, pending, key)
    ensures var more := kvs + [ToMutation(key, s.keyValues[key])];
            && AreRecords(s, from, more) && AllBefore(s, more, pending - {key})
            && HasKeys(more, StaleKeys(s, from) - (pending - {key}))
  {
    var more := kvs + [ToMutation(key, s.keyValues[key])];
    forall k | k in StaleKeys(s, from) - (pending - {key}) ensures HasKey(more, k) {
      if k == key {
        assert more[|kvs|].key == k;
      } else {
        assert HasKey(kvs, k);
        var i :| 0 <= i < |kvs| && kvs[i].key == k;
        assert more[i].key == k;
      }
    }
  }

  /** `StaleNode::stale_key_values`: all records above `from`, in increasing order of version. */
  method StaleKeyValues(s: State, from: Version) returns (kvs: seq<KeyValueMutation>)
    requires DistinctVersions(s)
    ensures AreRecords(s, from, kvs) && HasKeys(kvs, StaleKeys(s, from))
  {
    kvs := [];
    var pending := StaleKeys(s, from);
    while pending != {}
      invariant pending <= StaleKeys(s, from)
      invariant AreRecords(s, from, kvs) && AllBefore(s, kvs, pending) && HasKeys(kvs, StaleKeys(s, from) - pending)
      decreases pending
    {
      ghost var oldest := OldestKey(s, pending);
      var key :| key in pending && IsOldest(s, pending, key);
      TakeOldest(s, from, kvs, pending, key);
      kvs := kvs + [ToMutation(key, s.keyValues[key])];
      pending := pending - {key};
    }
    assert StaleKeys(s, from) - {} == StaleKeys(s, from);
  }

  // ----- all stale nodes, ranked -----

  ghost function NodeIds(nodes: seq<StaleNode>): set<ChitchatId> {
    set i | 0 <= i < |nodes| :: nodes[i].id
  }

  lemma InsertNode(nodes: seq<StaleNode>, n: StaleNode, at: nat, r: seq<StaleNode>)
    requires at <= |nodes| && r == nodes[..at] + [n] + nodes[at..]
    requires DistinctNodes(nodes) && n.id !in NodeIds(nodes)
    ensures DistinctNodes(r) && NodeIds(r) == NodeIds(nodes) + {n.id}
    ensures forall i :: 0 <= i < |r| ==> r[i] == n || r[i] in nodes
  {
    forall i | 0 <= i < |nodes| ensures nodes[i].id in NodeIds(r) && nodes[i].id != n.id {
      assert nodes[i] == r[if i < at then i else i + 1];
    }
    assert r[at] == n;
  }

  method SortStaleNodes(view: View, digest: Digest, scheduled: set<ChitchatId>) returns (nodes: seq<StaleNode>)
    ensures Ranked(nodes) && DistinctNodes(nodes)
    ensures forall i :: 0 <= i < |nodes| ==> Offers(view, digest, scheduled, nodes[i])
    ensures NodeIds(nodes) == set o | o in view && IsStale(view, digest, scheduled, o)
  {
    nodes := [];
    var pending := view.Keys;
    while pending != {}
      invariant pending <= view.Keys
      invariant Ranked(nodes) && DistinctNodes(nodes)
      invariant forall i :: 0 <= i < |nodes| ==> Offers(view, digest, scheduled, nodes[i])
      invariant NodeIds(nodes) == set o | o in view && o !in pending && IsStale(view, digest, scheduled, o)
      decreases pending
    {
      var o :| o in pending;
      pending := pending - {o};
      if o in scheduled {
        continue;
      }
      var d := DigestOf(digest, o);
      if view[o].maxVersion <= d.maxVersion {
        continue;
      }
      var before := nodes;
      var n := StaleNode(o, view[o], FromVersion(view[o], d));
      ghost var at;
      nodes, at := Offer(before, n);
      InsertNode(before, n, at, nodes);
    }
  }

  // ----- one stale node into the delta -----

  /** Everything above `from`, or the `max_version` if there is nothing. */
  ghost predicate IsComplete(s: State, from: Version, d: NodeDelta) {
    && HasKeys(d.keyValues, StaleKeys(s, from))
    && (d.keyValues == [] ==> d.maxVersion == Some(s.maxVersion))
  }

  /** The records can be written at all: the source asserts items to be at most `u16::MAX` bytes. */
  ghost predicate Writable(mtu: nat, n: StaleNode) {
    mtu <= U16_MAX ||
    (&& |PutOp(OpNode(n.id, n.state.lastGcVersion, n.from))| <= U16_MAX
     && forall k :: k in n.state.keyValues ==> |PutOp(OpKeyValue(ToMutation(k, n.state.keyValues[k])))| <= U16_MAX)
  }

  lemma PrefixIsNodeDelta(n: StaleNode, kvs: seq<KeyValueMutation>, i: nat, d: NodeDelta)
    requires AreRecords(n.state, n.from, kvs) && HasKeys(kvs, StaleKeys(n.state, n.from)) && i <= |kvs|
    requires d == NodeDelta(n.id, n.from, n.state.lastGcVersion, kvs[..i], d.maxVersion)
    requires d.maxVersion.Some? ==> kvs == [] && d.maxVersion.value == n.state.maxVersion
    ensures IsNodeDelta(n.state, n.from, d)
  {
    forall k | k in n.state.keyValues && n.from < n.state.keyValues[k].version
      ensures kvs != [] && (n.state.keyValues[k].version <= LastVersion(d) ==> Carries(d, n.state.keyValues[k].version))
    {
      assert HasKey(kvs, k);
      var j :| 0 <= j < |kvs| && kvs[j].key == k;
      if n.state.keyValues[k].version <= LastVersion(d) {
        assert d.keyValues[j].version == n.state.keyValues[k].version;
      }
    }
  }

  /** What is complete here is what a whole delta is there. */
  lemma CompleteIsWhole(n: StaleNode, d: NodeDelta)
    requires IsNodeDelta(n.state, n.from, d) && IsComplete(n.state, n.from, d)
    ensures IsWhole(n.state, d)
  {
    forall k | k in n.state.keyValues && n.from < n.state.keyValues[k].version
      ensures Carries(d, n.state.keyValues[k].version)
    {
      assert HasKey(d.keyValues, k);
      var i :| 0 <= i < |d.keyValues| && d.keyValues[i].key == k;
      assert d.keyValues[i].version == n.state.keyValues[k].version;
    }
  }

  // ----- what is left out, and why -----

  /** The delta for `n` does not yet hold what `op` would add: its oldest missing record, or its `max_version`. */
  ghost predicate IsMissing(n: StaleNode, d: NodeDelta, op: DeltaOp) {
    match op
    case OpNode(_, _, _) => false
    case OpKeyValue(m) =>
      && LastVersion(d) < m.version
      && m.key in StaleKeys(n.state, n.from) && m == ToMutation(m.key, n.state.keyValues[m.key])
      && forall k :: k in StaleKeys(n.state, n.from) && LastVersion(d) < n.state.keyValues[k].version ==>
                       m.version <= n.state.keyValues[k].version
    case OpSetMaxVersion(v) =>
      d.keyValues == [] && d.maxVersion.None? && v == n.state.maxVersion && StaleKeys(n.state, n.from) == {}
  }

  /** The upper bound of the stream of the node deltas followed by `op` exceeds the limit. */
  ghost predicate Overflows(z: Zstd, mtu: nat, ds: seq<NodeDelta>, op: DeltaOp)
    requires mtu >= MIN_MTU
  {
    Exceeds(z, mtu, Operations(ds), op)
  }

  lemma BoundOverflows(ser: DeltaSerializer, op: DeltaOp)
    requires ser.Valid()
    ensures ser.Bound(op) > ser.mtu <==> Overflows(ser.zstd, ser.mtu, ser.builder.Abs().Flushed(), op)
  {
    hide ApplyOps, Operations, PutOp, Upperbound, FullBlocks, Pending;
  }

  lemma OldestIsMissing(n: StaleNode, kvs: seq<KeyValueMutation>, i: nat, d: NodeDelta)
    requires AreRecords(n.state, n.from, kvs) && HasKeys(kvs, StaleKeys(n.state, n.from)) && i < |kvs|
    requires d == NodeDelta(n.id, n.from, n.state.lastGcVersion, kvs[..i], None)
    ensures IsMissing(n, d, OpKeyValue(kvs[i]))
  {
    forall k | k in StaleKeys(n.state, n.from) && LastVersion(d) < n.state.keyValues[k].version
      ensures kvs[i].version <= n.state.keyValues[k].version
    {
      assert HasKey(kvs, k);
      var j :| 0 <= j < |kvs| && kvs[j].key == k;
      assert i > 0 ==> kvs[..i][i - 1] == kvs[i - 1];
      assert j >= i;
    }
  }

  /** Not even a `max_version` would fit any more. */
  ghost predicate Full(ser: DeltaSerializer)
    reads ser, ser.writer
  {
    ser.writer.UpperboundAfter(9) > ser.mtu
  }

  lemma RecordIsAccepted(mtu: nat, b: Builder, n: StaleNode, kvs: seq<KeyValueMutation>, i: nat)
    requires AreRecords(n.state, n.from, kvs) && i < |kvs| && Writable(mtu, n)
    requires b.current == Some(NodeDelta(n.id, n.from, n.state.lastGcVersion, kvs[..i], None))
    ensures Accepts(b, OpKeyValue(kvs[i])) && Orderly(b, OpKeyValue(kvs[i]))
    ensures ApplyOp(b, OpKeyValue(kvs[i])) ==
            b.(current := Some(NodeDelta(n.id, n.from, n.state.lastGcVersion, kvs[..i + 1], None)))
    ensures mtu <= U16_MAX || |PutOp(OpKeyValue(kvs[i]))| <= U16_MAX
  {
    hide PutOp;
    assert kvs[..i] + [kvs[i]] == kvs[..i + 1];
  }

  /** The records of a node after its node operation, up to the first that does not fit. */
  method AddKeyValues(ser: DeltaSerializer, n: StaleNode, kvs: seq<KeyValueMutation>) returns (taken: nat)
    requires ser.Valid() && Writable(ser.mtu, n)
    requires AreRecords(n.state, n.from, kvs)
    requires ser.builder.Abs().current == Some(NodeDelta(n.id, n.from, n.state.lastGcVersion, [], None))
    modifies ser, ser.builder, ser.writer
    ensures ser.Valid() && taken <= |kvs|
    ensures ser.builder.Abs() == old(ser.builder.Abs()).(
              current := Some(NodeDelta(n.id, n.from, n.state.lastGcVersion, kvs[..taken], None)))
    ensures taken < |kvs| ==> ser.Bound(OpKeyValue(kvs[taken])) > ser.mtu
  {
    hide Fitting, ApplyOps, Operations, PutOp, EncodeOps, Upperbound, AreRecords, Writable, Accepts, ApplyOp, Orderly;
    ghost var b := ser.builder.Abs();
    taken := 0;
    while taken < |kvs|
      invariant ser.Valid() && taken <= |kvs|
      invariant ser.builder.Abs() == b.(
                  current := Some(NodeDelta(n.id, n.from, n.state.lastGcVersion, kvs[..taken], None)))
    {
      RecordIsAccepted(ser.mtu, ser.builder.Abs(), n, kvs, taken);
      var added := ser.TryAddOp(OpKeyValue(kvs[taken]));
      if !added {
        return;
      }
      taken := taken + 1;
    }
  }

  /** A node without records above `from` announces its `max_version`, if that still fits. */
  method AddMaxVersion(ser: DeltaSerializer, n: StaleNode) returns (added: bool)
    requires ser.Valid()
    requires ser.builder.Abs().current == Some(NodeDelta(n.id, n.from, n.state.lastGcVersion, [], None))
    modifies ser, ser.builder, ser.writer
    ensures ser.Valid()
    ensures added ==> ser.builder.Abs() == old(ser.builder.Abs()).(
              current := Some(NodeDelta(n.id, n.from, n.state.lastGcVersion, [], Some(n.state.maxVersion))))
    ensures !added ==> Full(ser) && ser.Bound(OpSetMaxVersion(n.state.maxVersion)) > ser.mtu
                       && ser.builder.Abs() == old(ser.builder.Abs())
  {
    hide Fitting, ApplyOps, Operations, PutOp, EncodeOps, Upperbound;
    OpLength(OpSetMaxVersion(n.state.maxVersion));
    added := ser.TryAddOp(OpSetMaxVersion(n.state.maxVersion));
  }

  /** What one stale node may leave behind as the current node delta. */
  ghost predicate Taken(n: StaleNode, d: NodeDelta, next: Option<DeltaOp>) {
    && d.id == n.id && IsNodeDelta(n.state, n.from, d)
    && (if next.None? then IsComplete(n.state, n.from, d) else IsMissing(n, d, next.value))
  }

  /** `try_add_node`; a limit that no `max_version` would fit has no room for a node either. */
  method AddNode(ser: DeltaSerializer, n: StaleNode) returns (added: bool)
    requires ser.Valid() && Writable(ser.mtu, n)
    requires n.id !in ser.builder.Abs().existing
    modifies ser, ser.builder, ser.writer
    ensures ser.Valid()
    ensures old(Full(ser)) ==> !added
    ensures added ==> ser.builder.Abs() ==
                      Builder(old(ser.builder.Abs()).existing + {n.id}, old(ser.builder.Abs()).Flushed(),
                              Some(NodeDelta(n.id, n.from, n.state.lastGcVersion, [], None)))
    ensures !added ==> ser.builder.Abs() == old(ser.builder.Abs()) && ser.Bound(NodeOp(n)) > ser.mtu
  {
    hide Fitting, ApplyOps, Operations, PutOp, EncodeOps, Upperbound;
    OpLength(NodeOp(n));
    UpperboundMonotone(|ser.writer.output|, |ser.writer.uncompressedBlock|, 9, |PutOp(NodeOp(n))|,
                       ser.writer.blockThreshold);
    added := ser.TryAddOp(NodeOp(n));
  }

  function NodeOp(n: StaleNode): DeltaOp { OpNode(n.id, n.state.lastGcVersion, n.from) }

  /** What follows `try_add_node` in the loop of `compute_partial_delta_respecting_mtu`: `cut` if a record does
      not fit, `next` what did not fit. */
  method AddContents(ser: DeltaSerializer, n: StaleNode) returns (cut: bool, ghost next: Option<DeltaOp>)
    requires ser.Valid() && Writable(ser.mtu, n) && DistinctVersions(n.state)
    requires ser.builder.Abs().current == Some(NodeDelta(n.id, n.from, n.state.lastGcVersion, [], None))
    modifies ser, ser.builder, ser.writer
    ensures ser.Valid()
    ensures ser.builder.Abs().existing == old(ser.builder.Abs()).existing
    ensures ser.builder.Abs().deltas == old(ser.builder.Abs()).deltas
    ensures ser.builder.Abs().current.Some? && Taken(n, ser.builder.Abs().current.value, next)
    ensures cut ==> next.Some?
    ensures next.Some? ==> (cut || Full(ser)) && ser.Bound(next.value) > ser.mtu
  {
    hide Fitting, ApplyOps, Operations, PutOp, EncodeOps, Upperbound;
    var kvs := StaleKeyValues(n.state, n.from);
    var taken := AddKeyValues(ser, n, kvs);
    cut, next := taken < |kvs|, None;
    if cut {
      OldestIsMissing(n, kvs, taken, ser.builder.Abs().current.value);
      next := Some(OpKeyValue(kvs[taken]));
    } else {
      assert kvs[..taken] == kvs;
    }
    if kvs == [] {
      NoRecords(n);
      var added := AddMaxVersion(ser, n);
      if !added {
        next := Some(OpSetMaxVersion(n.state.maxVersion));
      }
    }
    PrefixIsNodeDelta(n, kvs, taken, ser.builder.Abs().current.value);
  }

  lemma NoRecords(n: StaleNode)
    requires HasKeys([], StaleKeys(n.state, n.from))
    ensures StaleKeys(n.state, n.from) == {}
  {
    assert forall k :: k in StaleKeys(n.state, n.from) ==> HasKey([], k);
  }

  // ----- the nodes one after the other -----

  /** `ds` are node deltas for the first nodes of `order`, complete but for the last one, which lacks `next`. */
  ghost predicate Follows(order: seq<StaleNode>, ds: seq<NodeDelta>, next: Option<DeltaOp>) {
    && |ds| <= |order|
    && (forall j :: 0 <= j < |ds| ==> Taken(order[j], ds[j], if j == |ds| - 1 then next else None))
    && (ds == [] ==> next.None?)
  }

  lemma FollowsOneMore(order: seq<StaleNode>, ds: seq<NodeDelta>, d: NodeDelta, next: Option<DeltaOp>)
    requires Follows(order, ds, None) && |ds| < |order| && Taken(order[|ds|], d, next)
    ensures Follows(order, ds + [d], next)
  {
  }

  /** The next operation after `ds`, if the rest of `order` is to follow. */
  ghost predicate IsNext(order: seq<StaleNode>, ds: seq<NodeDelta>, op: DeltaOp) {
    || (|ds| < |order| && op == NodeOp(order[|ds|]))
    || (0 < |ds| <= |order| && IsMissing(order[|ds| - 1], ds[|ds| - 1], op))
  }

  lemma MissingIsNext(order: seq<StaleNode>, ds: seq<NodeDelta>, d: NodeDelta, op: DeltaOp)
    requires |ds| < |order| && Taken(order[|ds|], d, Some(op))
    ensures IsNext(order, ds + [d], op)
  {
  }

  ghost function FirstIds(order: seq<StaleNode>, n: nat): set<ChitchatId>
    requires n <= |order|
  {
    set i | 0 <= i < n :: order[i].id
  }

  lemma NextIsDistinct(order: seq<StaleNode>, n: nat)
    requires DistinctNodes(order) && n < |order|
    ensures order[n].id !in FirstIds(order, n)
    ensures FirstIds(order, n + 1) == FirstIds(order, n) + {order[n].id}
  {
  }

  /** The loop of `compute_partial_delta_respecting_mtu`: in order, until something does not fit. */
  method AddStaleNodes(ser: DeltaSerializer, order: seq<StaleNode>)
    returns (ghost lacks: Option<DeltaOp>, ghost blocked: Option<DeltaOp>)
    requires ser.Valid() && ser.builder.Abs() == NEW_BUILDER && DistinctNodes(order)
    requires forall i :: 0 <= i < |order| ==> Writable(ser.mtu, order[i]) && DistinctVersions(order[i].state)
    modifies ser, ser.builder, ser.writer
    ensures ser.Valid()
    ensures Follows(order, ser.builder.Abs().Flushed(), lacks)
    ensures blocked.None? ==> lacks.None? && |ser.builder.Abs().Flushed()| == |order|
    ensures blocked.Some? ==> IsNext(order, ser.builder.Abs().Flushed(), blocked.value)
                              && ser.Bound(blocked.value) > ser.mtu
  {
    hide Fitting, ApplyOps, Operations, PutOp, EncodeOps, Upperbound, IsMissing, Taken, Writable, DistinctVersions;
    lacks, blocked := None, None;
    for i := 0 to |order|
      invariant ser.Valid()
      invariant ser.builder.Abs().existing == FirstIds(order, i)
      invariant |ser.builder.Abs().Flushed()| == i
      invariant Follows(order, ser.builder.Abs().Flushed(), lacks) && blocked == lacks
      invariant blocked.Some? ==> Full(ser) && IsNext(order, ser.builder.Abs().Flushed(), blocked.value)
                                  && ser.Bound(blocked.value) > ser.mtu
    {
      NextIsDistinct(order, i);
      ghost var before := ser.builder.Abs().Flushed();
      var added := AddNode(ser, order[i]);
      if !added {
        blocked := Some(NodeOp(order[i]));
        return;
      }
      var cut;
      cut, lacks := AddContents(ser, order[i]);
      blocked := lacks;
      FollowsOneMore(order, before, ser.builder.Abs().current.value, blocked);
      if blocked.Some? {
        MissingIsNext(order, before, ser.builder.Abs().current.value, blocked.value);
      }
      if cut {
        return;
      }
    }
  }

  lemma FollowingIsPartialDelta(view: View, digest: Digest, scheduled: set<ChitchatId>, order: seq<StaleNode>,
                                delta: Delta, lacks: Option<DeltaOp>)
    requires DistinctNodes(order) && Follows(order, delta.nodeDeltas, lacks)
    requires forall i :: 0 <= i < |order| ==> Offers(view, digest, scheduled, order[i])
    ensures IsPartialDelta(view, digest, scheduled, delta) && WellFormed(delta.nodeDeltas)
  {
    hide IsNodeDelta, IsMissing;
    var ds := delta.nodeDeltas;
    forall j | 0 <= j < |ds|
      ensures IsStale(view, digest, scheduled, ds[j].id)
      ensures IsNodeDelta(view[ds[j].id], FromVersion(view[ds[j].id], DigestOf(digest, ds[j].id)), ds[j])
    {
      assert Taken(order[j], ds[j], if j == |ds| - 1 then lacks else None);
      assert Offers(view, digest, scheduled, order[j]);
    }
    IncreasingDeltas(view, digest, scheduled, delta);
  }

  lemma IncreasingDeltas(view: View, digest: Digest, scheduled: set<ChitchatId>, delta: Delta)
    requires IsPartialDelta(view, digest, scheduled, delta)
    ensures WellFormed(delta.nodeDeltas)
  {
  }

  class ClusterState {
    var nodeStates: View

    constructor (view: View)
      ensures nodeStates == view
    {
      nodeStates := view;
    }

    /** `compute_partial_delta_respecting_mtu`: the stale nodes in order of staleness, each with its records by
        version, as far as they fit. The source asserts a limit of at least 100, that the records of a node have
        distinct versions, and that an accepted item is at most `u16::MAX` bytes. */
    method ComputePartialDelta(zstd: LawfulZstd, digest: Digest, mtu: nat, scheduled: set<ChitchatId>)
      returns (delta: Delta, ghost order: seq<StaleNode>, ghost lacks: Option<DeltaOp>, ghost blocked: Option<DeltaOp>)
      requires mtu >= MIN_MTU
      requires forall o :: o in nodeStates ==> DistinctVersions(nodeStates[o])
      requires forall o :: o in nodeStates ==>
                 Writable(mtu, StaleNode(o, nodeStates[o], FromVersion(nodeStates[o], DigestOf(digest, o))))
      ensures Ranked(order) && DistinctNodes(order)
      ensures NodeIds(order) == set o | o in nodeStates && IsStale(nodeStates, digest, scheduled, o)
      ensures forall i :: 0 <= i < |order| ==> Offers(nodeStates, digest, scheduled, order[i])
      ensures Follows(order, delta.nodeDeltas, lacks)
      ensures blocked.None? ==> lacks.None? && |delta.nodeDeltas| == |order|
      ensures blocked.Some? ==> IsNext(order, delta.nodeDeltas, blocked.value)
                                && Overflows(zstd, mtu, delta.nodeDeltas, blocked.value)
      ensures IsPartialDelta(nodeStates, digest, scheduled, delta) && WellFormed(delta.nodeDeltas)
      ensures delta.serializedLen == |DeltaPayload(zstd, delta.nodeDeltas)|
      ensures Predictable(mtu, Operations(delta.nodeDeltas)) ==> delta.serializedLen <= mtu
    {
      hide Fitting, ApplyOps, Operations, PutOp, EncodeOps, Upperbound, IsMissing, IsNext, Taken, Writable;
      hide DistinctVersions, Follows, IsPartialDelta, DeltaPayload, Predictable, Ranked;
      var nodes := SortStaleNodes(nodeStates, digest, scheduled);
      var ser := new DeltaSerializer(zstd, mtu);
      forall i | 0 <= i < |nodes| ensures Writable(ser.mtu, nodes[i]) && DistinctVersions(nodes[i].state) {
        assert Offers(nodeStates, digest, scheduled, nodes[i]);
      }
      lacks, blocked := AddStaleNodes(ser, nodes);
      order := nodes;
      if blocked.Some? {
        BoundOverflows(ser, blocked.value);
      }
      delta := ser.Finish();
      FollowingIsPartialDelta(nodeStates, digest, scheduled, order, delta, lacks);
    }

    /** `apply_delta`: each node delta in turn, on a state that may have to be created. */
    method ApplyDelta(delta: Delta, now: Instant)
      modifies this
      ensures nodeStates == ApplyAll(old(nodeStates), delta.nodeDeltas, now)
    {
      var ds := delta.nodeDeltas;
      for i := 0 to |ds|
        invariant nodeStates == ApplyAll(old(nodeStates), ds[..i], now)
      {
        assert ds[..i + 1][..i] == ds[..i];
        var node := new NodeState(NodeOf(nodeStates, ds[i].id));
        node.Apply(ds[i], now);
        nodeStates := nodeStates[ds[i].id := node.Abs()];
      }
      assert ds[..|ds|] == ds;
    }

    method GcKeysMarkedForDeletion(now: Instant, grace: Duration)
      modifies this
      ensures nodeStates.Keys == old(nodeStates).Keys
      ensures forall o :: o in nodeStates ==> Collected(old(nodeStates)[o], now, grace, nodeStates[o])
    {
      hide Collected;
      var pending := nodeStates.Keys;
      while pending != {}
        invariant pending <= nodeStates.Keys == old(nodeStates).Keys
        invariant forall o :: o in pending ==> nodeStates[o] == old(nodeStates)[o]
        invariant forall o :: o in nodeStates.Keys - pending ==>
                                Collected(old(nodeStates)[o], now, grace, nodeStates[o])
        decreases pending
      {
        var o :| o in pending;
        pending := pending - {o};
        var node := new NodeState(nodeStates[o]);
        node.GcKeysMarkedForDeletion(now, grace);
        nodeStates := nodeStates[o := node.Abs()];
      }
    }
  }
}
