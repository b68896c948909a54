/** Which payload limits are kept (chitchat/src/delta.rs, chitchat/src/message.rs): of the delta, and of the message
that carries it. */
module PayloadLimits {
  import opened ChitchatTypes
  import opened NodeStates
  import opened Replication
  import opened Streams
  import opened Deltas
  import opened Wire
  import opened DeltaSerializers
  import opened ClusterStates

  // ----- the delta -----

  /** The operations that `try_add_op` accepts one after the other. */
  ghost predicate Accepted(z: Zstd, mtu: nat, ops: seq<DeltaOp>)
    requires mtu >= MIN_MTU
  {
    ops == [] || (Accepted(z, mtu, ops[..|ops| - 1]) && !Exceeds(z, mtu, ops[..|ops| - 1], ops[|ops| - 1]))
  }

  ghost predicate KeepsLimit(z: Zstd, mtu: nat, ops: seq<DeltaOp>)
    requires mtu >= MIN_MTU
  {
    |Finished(z, ThresholdFor(mtu), EncodeOps(ops))| <= mtu
  }

  lemma {:induction false} AcceptedAreFitting(z: LawfulZstd, mtu: nat, ops: seq<DeltaOp>)
    requires mtu >= MIN_MTU && Accepted(z, mtu, ops)
    ensures Fitting(z, mtu, ops, EncodeOps(ops))
  {
    hide Fitting, EncodeOps, PutOp;
    if ops == [] {
      NothingFits(z, mtu);
    } else {
      var n := |ops| - 1;
      AcceptedAreFitting(z, mtu, ops[..n]);
      OpLength(ops[n]);
      AcceptedFits(z, mtu, ops[..n], EncodeOps(ops[..n]), ops[n], PutOp(ops[n]));
      EncodeOneMore(ops[..n], ops[n]);
      assert ops == ops[..n] + [ops[n]];
    }
  }

  lemma NothingFits(z: Zstd, mtu: nat)
    requires mtu >= MIN_MTU
    ensures Fitting(z, mtu, [], EncodeOps([]))
  {
    assert Finished(z, ThresholdFor(mtu), []) == [0];
  }

  lemma AcceptedOneMore(z: Zstd, mtu: nat, ops: seq<DeltaOp>, op: DeltaOp)
    requires mtu >= MIN_MTU
    ensures Accepted(z, mtu, ops + [op]) <==> Accepted(z, mtu, ops) && !Exceeds(z, mtu, ops, op)
    ensures Accepted(z, mtu, [])
  {
    assert (ops + [op])[..|ops|] == ops;
  }

  /** What the source asserts of the operations it is given, and that they are those of a delta. */
  ghost predicate Acceptable(ops: seq<DeltaOp>) {
    && ApplyOps(ops).Some? && Operations(ApplyOps(ops).value.Flushed()) == ops
    && forall i :: 0 <= i < |ops| ==> |PutOp(ops[i])| <= U16_MAX
  }

  function RecordOf(length: nat, version: Version): DeltaOp
    requires length >= 14
  {
    OpKeyValue(KeyValueMutation([], seq(length - 14, _ => 0), version, MutationSet))
  }

  /** A node with `n` records of 1000 bytes. */
  function Filler(n: nat): seq<DeltaOp> {
    if n == 0 then [OpNode(ChitchatId([110], 0, SocketAddr(V4([127, 0, 0, 1]), 0)), 0, 0)]
    else Filler(n - 1) + [RecordOf(1000, n)]
  }

  lemma RecordLength(length: nat, version: Version)
    requires length >= 14
    ensures |PutOp(RecordOf(length, version))| == length
  {
    KeyValueOpLength(RecordOf(length, version).mutation);
  }

  lemma AcceptableOneMore(ops: seq<DeltaOp>, op: DeltaOp)
    requires Acceptable(ops) && |PutOp(op)| <= U16_MAX
    requires Accepts(ApplyOps(ops).value, op) && Orderly(ApplyOps(ops).value, op)
    ensures Acceptable(ops + [op]) && ApplyOps(ops + [op]).value == ApplyOp(ApplyOps(ops).value, op)
  {
    hide PutOp, ApplyOp, Operations;
    OperationsAfterOp(ApplyOps(ops).value, op);
    ApplyOneMore(ops, ApplyOps(ops).value, op);
  }

  ghost predicate EndsAt(ops: seq<DeltaOp>, version: Version) {
    && Acceptable(ops) && ApplyOps(ops).value.current.Some? && ApplyOps(ops).value.current.value.maxVersion.None?
    && var kvs := ApplyOps(ops).value.current.value.keyValues;
       kvs == [] || kvs[|kvs| - 1].version <= version
  }

  lemma RecordFollows(ops: seq<DeltaOp>, length: nat, version: Version)
    requires EndsAt(ops, version) && 14 <= length <= U16_MAX
    ensures EndsAt(ops + [RecordOf(length, version + 1)], version + 1)
  {
    hide PutOp, ApplyOps, Operations;
    RecordLength(length, version + 1);
    AcceptableOneMore(ops, RecordOf(length, version + 1));
  }

  lemma {:induction false} FillerIsAcceptable(n: nat)
    ensures EndsAt(Filler(n), n)
  {
    hide PutOp, RecordOf;
    if n == 0 {
      NodeIsAcceptable();
    } else {
      FillerIsAcceptable(n - 1);
      RecordFollows(Filler(n - 1), 1000, n - 1);
    }
  }

  lemma NodeStandsAlone(node: DeltaOp)
    requires node.OpNode?
    ensures ApplyOps([node]).Some? && ApplyOps([node]).value.current.Some?
    ensures var b := ApplyOps([node]).value;
            b.current.value.maxVersion.None? && b.current.value.keyValues == [] && Operations(b.Flushed()) == [node]
  {
    assert [node][..0] == [];
  }

  lemma NodeIsAcceptable()
    ensures EndsAt(Filler(0), 0)
  {
    hide PutOp, Operations, ApplyOps;
    var node := Filler(0)[0];
    NodeOpLength(node.id, 0, 0);
    NodeStandsAlone(node);
    assert Filler(0) == [node];
  }

  /** The bytes written and pending. */
  ghost function Stored(ops: seq<DeltaOp>): nat {
    var raw := EncodeOps(ops);
    |FullBlocks(STORE_ONLY, BLOCK_THRESHOLD, raw)| + |Pending(BLOCK_THRESHOLD, raw)|
  }

  lemma StoredAfterShort(raw: Bytes, item: Bytes)
    requires |item| <= BLOCK_THRESHOLD
    ensures var f := (r: Bytes) => |FullBlocks(STORE_ONLY, BLOCK_THRESHOLD, r)| + |Pending(BLOCK_THRESHOLD, r)|;
            f(raw) + |item| <= f(raw + item) <= f(raw) + |item| + 3
  {
    var t, rest := BLOCK_THRESHOLD, Pending(BLOCK_THRESHOLD, raw) + item;
    CutAfterAppend(STORE_ONLY, t, raw, item);
    PendingAfterAppend(t, raw, item);
    CutFirst(STORE_ONLY, t, rest);
    if |rest| > t {
      CutFirst(STORE_ONLY, t, rest[t..]);
    }
  }

  lemma FillerGrows(n: nat)
    ensures Stored(Filler(n)) + 1000 <= Stored(Filler(n + 1)) <= Stored(Filler(n)) + 1003
  {
    hide PutOp, RecordOf, FullBlocks, Pending;
    RecordLength(1000, n + 1);
    EncodeOneMore(Filler(n), RecordOf(1000, n + 1));
    StoredAfterShort(EncodeOps(Filler(n)), PutOp(RecordOf(1000, n + 1)));
  }

  lemma FillerStarts()
    ensures Stored(Filler(0)) == 35 && Written(Filler(0)) == 0
  {
    hide PutOp, Operations;
    var node := Filler(0)[0];
    NodeOpLength(node.id, 0, 0);
    EncodeOneMore([], node);
    assert [] + [node] == Filler(0);
  }

  /** The bound is at most 7 bytes above what is written, pending and added. */
  lemma ShortIsAccepted(mtu: nat, ops: seq<DeltaOp>, op: DeltaOp)
    requires TWO_BLOCKS < mtu && Accepted(STORE_ONLY, mtu, ops) && Stored(ops) + |PutOp(op)| + 7 <= mtu
    ensures Accepted(STORE_ONLY, mtu, ops + [op])
  {
    hide PutOp, FullBlocks, Pending;
    AcceptedOneMore(STORE_ONLY, mtu, ops, op);
  }

  lemma {:induction false} FillerIsAccepted(mtu: nat, n: nat)
    requires TWO_BLOCKS < mtu && Stored(Filler(n)) + 7 <= mtu
    ensures Accepted(STORE_ONLY, mtu, Filler(n))
  {
    hide PutOp, RecordOf, Accepted, Stored;
    if n == 0 {
      FillerStarts();
      var node := Filler(0)[0];
      NodeOpLength(node.id, 0, 0);
      AcceptedOneMore(STORE_ONLY, mtu, [], node);
      NothingStored();
      ShortIsAccepted(mtu, [], node);
      assert [] + [node] == Filler(0);
    } else {
      FillerGrows(n - 1);
      FillerIsAccepted(mtu, n - 1);
      RecordLength(1000, n);
      ShortIsAccepted(mtu, Filler(n - 1), RecordOf(1000, n));
    }
  }

  lemma NothingStored()
    ensures Stored([]) == 0
  {
  }

  ghost function Written(ops: seq<DeltaOp>): (n: nat)
    ensures n <= Stored(ops)
  {
    |FullBlocks(STORE_ONLY, BLOCK_THRESHOLD, EncodeOps(ops))|
  }

  /** Enough filler that one record of up to `u16::MAX` bytes can use up the rest of the limit. */
  lemma {:induction false} EnoughFiller(mtu: nat, n: nat) returns (m: nat)
    requires Written(Filler(n)) + TWO_BLOCKS < mtu
    ensures mtu - 7 - U16_MAX <= Stored(Filler(m)) && Written(Filler(m)) + TWO_BLOCKS < mtu
    decreases mtu - Stored(Filler(n))
  {
    hide Stored, Written, Filler;
    if mtu - 7 - U16_MAX <= Stored(Filler(n)) {
      m := n;
    } else {
      FillerGrows(n);
      m := EnoughFiller(mtu, n + 1);
    }
  }

  /** One more record that uses up the limit by the bound is cut into more blocks than the bound provides for. */
  lemma LongRecordBreaksLimit(mtu: nat, ops: seq<DeltaOp>, op: DeltaOp)
    requires Written(ops) + TWO_BLOCKS < mtu && Stored(ops) + |PutOp(op)| + 7 == mtu
    ensures !KeepsLimit(STORE_ONLY, mtu, ops + [op])
  {
    hide PutOp, FullBlocks, Pending, Finished, EncodeOps;
    var t, raw := BLOCK_THRESHOLD, EncodeOps(ops);
    EncodeOneMore(ops, op);
    FinishedAfterAppend(STORE_ONLY, t, raw, PutOp(op));
    LongStoredStream(t, Pending(t, raw) + PutOp(op));
  }

  lemma BrokenLimit(mtu: nat) returns (ops: seq<DeltaOp>)
    requires TWO_BLOCKS < mtu
    ensures Acceptable(ops) && Accepted(STORE_ONLY, mtu, ops) && !KeepsLimit(STORE_ONLY, mtu, ops)
  {
    hide Stored, Written, Filler, Accepted, KeepsLimit, RecordOf, PutOp, Acceptable;
    FillerStarts();
    var n := EnoughFiller(mtu, 0);
    PendingIsShort(Filler(n));
    var length := mtu - 7 - Stored(Filler(n));
    RecordLength(length, n + 1);
    FillerIsAccepted(mtu, n);
    FillerIsAcceptable(n);
    RecordFollows(Filler(n), length, n);
    ShortIsAccepted(mtu, Filler(n), RecordOf(length, n + 1));
    LongRecordBreaksLimit(mtu, Filler(n), RecordOf(length, n + 1));
    ops := Filler(n) + [RecordOf(length, n + 1)];
  }

  lemma PendingIsShort(ops: seq<DeltaOp>)
    ensures Stored(ops) <= Written(ops) + BLOCK_THRESHOLD
  {
    hide FullBlocks, Pending, EncodeOps;
  }

  /** Whatever is accepted and however little the compressor manages, the payload is within the limit, if and only
      if the limit is at most two blocks. */
  lemma LimitKeptExactly(mtu: nat)
    requires MIN_MTU <= mtu
    ensures (forall z: LawfulZstd, ops :: Acceptable(ops) && Accepted(z, mtu, ops) ==> KeepsLimit(z, mtu, ops)) <==>
            mtu <= 32775
  {
    hide Accepted, Acceptable;
    if mtu <= TWO_BLOCKS {
      forall z: LawfulZstd, ops | Acceptable(ops) && Accepted(z, mtu, ops) ensures KeepsLimit(z, mtu, ops) {
        AcceptedAreFitting(z, mtu, ops);
      }
    } else {
      var ops := BrokenLimit(mtu);
      assert !KeepsLimit(STORE_ONLY, mtu, ops);
    }
  }

  // ----- the message -----

  /** Of the four bytes of the header one is set aside, so a payload may use its limit only up to the last three. */
  ghost predicate LeavesRoom(z: Zstd, mtu: nat, ops: seq<DeltaOp>)
    requires mtu >= MIN_MTU
  {
    |Finished(z, ThresholdFor(mtu), EncodeOps(ops))| + 3 <= mtu
  }

  /** The one limit at which a second block is never begun, and one block leaves the three bytes. */
  const ONE_BLOCK := BLOCK_THRESHOLD + 7

  lemma {:induction false} OneBlockLeavesRoom(z: LawfulZstd, ops: seq<DeltaOp>)
    requires Accepted(z, ONE_BLOCK, ops)
    ensures |EncodeOps(ops)| <= BLOCK_THRESHOLD
  {
    hide PutOp, EncodeOps;
    if ops == [] {
      NothingEncoded();
    } else {
      var n := |ops| - 1;
      OneBlockLeavesRoom(z, ops[..n]);
      EncodeOneMore(ops[..n], ops[n]);
      assert ops == ops[..n] + [ops[n]];
      CutFirst(z, BLOCK_THRESHOLD, EncodeOps(ops[..n]));
    }
  }

  lemma NothingEncoded()
    ensures EncodeOps([]) == []
  {
  }

  /** A node with one record, `length` bytes in all. */
  function NodeWith(length: nat): seq<DeltaOp>
    requires length >= 49
  {
    Filler(0) + [RecordOf(length - 35, 1)]
  }

  lemma EncodedNodeWith(length: nat)
    requires length >= 49
    ensures |EncodeOps(Filler(0))| == 35 && |EncodeOps(NodeWith(length))| == length
  {
    hide PutOp, RecordOf, EncodeOps;
    var node, record := Filler(0)[0], RecordOf(length - 35, 1);
    NodeOpLength(node.id, 0, 0);
    RecordLength(length - 35, 1);
    NothingEncoded();
    EncodeOneMore([], node);
    assert [] + [node] == Filler(0);
    EncodeOneMore(Filler(0), record);
  }

  /** While nothing is cut off, the bound is that of the lengths. */
  lemma FirstBlockBound(mtu: nat, ops: seq<DeltaOp>, op: DeltaOp)
    requires mtu >= MIN_MTU && |EncodeOps(ops)| <= ThresholdFor(mtu)
    ensures Exceeds(STORE_ONLY, mtu, ops, op) <==>
            Upperbound(0, |EncodeOps(ops)|, |PutOp(op)|, ThresholdFor(mtu)) > mtu
  {
    hide PutOp, EncodeOps, FullBlocks, Pending, Upperbound;
    CutFirst(STORE_ONLY, ThresholdFor(mtu), EncodeOps(ops));
  }

  lemma NodeWithFills(mtu: nat, length: nat)
    requires mtu >= MIN_MTU && 49 <= length && length - 35 <= U16_MAX
    requires length + (if length <= ThresholdFor(mtu) then 4 else 7) <= mtu
    ensures Acceptable(NodeWith(length)) && Accepted(STORE_ONLY, mtu, NodeWith(length))
    ensures |EncodeOps(NodeWith(length))| == length
  {
    hide PutOp, Accepted, Acceptable, RecordOf, EncodeOps, Exceeds;
    var node, record := Filler(0)[0], RecordOf(length - 35, 1);
    EncodedNodeWith(length);
    NodeOpLength(node.id, 0, 0);
    RecordLength(length - 35, 1);
    NothingEncoded();
    assert [] + [node] == Filler(0);
    FirstBlockBound(mtu, [], node);
    FirstBlockBound(mtu, Filler(0), record);
    AcceptedOneMore(STORE_ONLY, mtu, [], node);
    AcceptedOneMore(STORE_ONLY, mtu, Filler(0), record);
    NodeWithIsAcceptable(length);
  }

  lemma NodeWithIsAcceptable(length: nat)
    requires 49 <= length && length - 35 <= U16_MAX
    ensures Acceptable(NodeWith(length))
  {
    hide Acceptable, ApplyOps, RecordOf, Filler;
    FillerIsAcceptable(0);
    RecordFollows(Filler(0), length - 35, 0);
  }

  lemma StoredInOneBlock(threshold: nat, raw: Bytes)
    requires 1 <= threshold && 0 < |raw| <= threshold
    ensures |Finished(STORE_ONLY, threshold, raw)| == |raw| + 4
  {
  }

  lemma StoredInTwoBlocks(threshold: nat, raw: Bytes)
    requires 1 <= threshold < |raw|
    ensures |Finished(STORE_ONLY, threshold, raw)| >= |raw| + 7
  {
    FinishedUnfolds(STORE_ONLY, threshold, raw);
    StoredLength(threshold, raw[threshold..]);
  }

  /** Operations after which a compressor that never succeeds leaves no room for the header. */
  lemma NoRoomLeft(mtu: nat) returns (ops: seq<DeltaOp>)
    requires mtu >= MIN_MTU && mtu != ONE_BLOCK
    ensures Acceptable(ops) && Accepted(STORE_ONLY, mtu, ops) && !LeavesRoom(STORE_ONLY, mtu, ops)
  {
    hide Accepted, Acceptable, Finished, EncodeOps, NodeWith;
    if mtu > TWO_BLOCKS {
      ops := BrokenLimit(mtu);
    } else if mtu > ONE_BLOCK {
      NodeWithFills(mtu, mtu - 7);
      ops := NodeWith(mtu - 7);
      StoredInTwoBlocks(BLOCK_THRESHOLD, EncodeOps(ops));
    } else {
      var length := if mtu - 4 <= BLOCK_THRESHOLD then mtu - 4 else BLOCK_THRESHOLD;
      NodeWithFills(mtu, length);
      ops := NodeWith(length);
      StoredInOneBlock(ThresholdFor(mtu), EncodeOps(ops));
    }
  }

  /** There is exactly one limit at which whatever is accepted leaves room for the header. */
  lemma RoomLeftExactly(mtu: nat)
    requires MIN_MTU <= mtu
    ensures (forall z: LawfulZstd, ops :: Acceptable(ops) && Accepted(z, mtu, ops) ==> LeavesRoom(z, mtu, ops)) <==>
            mtu == 16391
  {
    hide Accepted, Acceptable, Finished;
    if mtu == ONE_BLOCK {
      forall z: LawfulZstd, ops | Acceptable(ops) && Accepted(z, mtu, ops) ensures LeavesRoom(z, mtu, ops) {
        OneBlockLeavesRoom(z, ops);
        ShortStreamLength(z, BLOCK_THRESHOLD, EncodeOps(ops));
      }
    } else {
      var ops := NoRoomLeft(mtu);
      assert !LeavesRoom(STORE_ONLY, mtu, ops);
    }
  }

  ghost predicate AckFits(z: Zstd, maxPayload: nat, ds: seq<NodeDelta>) {
    |PutMessage(z, Ack(Delta(ds, |DeltaPayload(z, ds)|)), [])| <= maxPayload
  }

  lemma AckFitsIfRoomIsLeft(z: LawfulZstd, maxPayload: nat, ds: seq<NodeDelta>)
    requires maxPayload - 1 >= MIN_MTU && Accepted(z, maxPayload - 1, Operations(ds))
    ensures AckFits(z, maxPayload, ds) <==> LeavesRoom(z, maxPayload - 1, Operations(ds))
  {
    hide Accepted, Operations, Finished, EncodeOps, Header, Fitting;
    var mtu, ops := maxPayload - 1, Operations(ds);
    AcceptedAreFitting(z, mtu, ops);
    SamePayload(z, mtu, ops, EncodeOps(ops));
    PayloadOf(z, ds);
    HeaderLength(2);
  }

  lemma PayloadOf(z: Zstd, ds: seq<NodeDelta>)
    ensures DeltaPayload(z, ds) == Finished(z, BLOCK_THRESHOLD, EncodeOps(Operations(ds)))
  {
    hide Finished, Operations;
  }

  /** Every `Ack` that a peer may send is within its payload size, if and only if that size is the one above. */
  lemma EveryAckFitsExactly(maxPayload: nat)
    requires maxPayload - 1 >= MIN_MTU
    ensures (forall z: LawfulZstd, ds ::
               Acceptable(Operations(ds)) && Accepted(z, maxPayload - 1, Operations(ds)) ==>
                 AckFits(z, maxPayload, ds)) <==>
            maxPayload == 16392
  {
    hide Accepted, Acceptable, AckFits, LeavesRoom, Operations;
    var mtu := maxPayload - 1;
    RoomLeftExactly(mtu);
    if mtu == ONE_BLOCK {
      forall z: LawfulZstd, ds | Acceptable(Operations(ds)) && Accepted(z, mtu, Operations(ds))
        ensures AckFits(z, maxPayload, ds)
      {
        AckFitsIfRoomIsLeft(z, maxPayload, ds);
      }
    } else {
      var ops := NoRoomLeft(mtu);
      var ds := DeltaFor(ops);
      AckFitsIfRoomIsLeft(STORE_ONLY, maxPayload, ds);
      assert !AckFits(STORE_ONLY, maxPayload, ds);
    }
  }

  lemma DeltaFor(ops: seq<DeltaOp>) returns (ds: seq<NodeDelta>)
    requires Acceptable(ops)
    ensures Operations(ds) == ops
  {
    ds := ApplyOps(ops).value.Flushed();
  }

  // ----- an answer that is too long -----

  /** A node with one record, whose two operations have 96 bytes together. */
  const NODE := Filler(0)[0].id
  const RECORD := VersionedValue(seq(47, _ => 0), 1, Set)
  const HOLDER := State(1, map[[] := RECORD], 1, 0)

  lemma VersionsDiffer(kvs: seq<KeyValueMutation>)
    requires StrictlyIncreasing(kvs) && |kvs| > 1
    ensures kvs[0].version != kvs[1].version
  {
  }

  lemma NodesDiffer(order: seq<StaleNode>)
    requires DistinctNodes(order) && |order| > 1
    ensures order[0].id != order[1].id
  {
  }

  lemma OnlyOneStaleNode(order: seq<StaleNode>)
    requires DistinctNodes(order) && NodeIds(order) == {NODE}
    requires forall i :: 0 <= i < |order| ==> Offers(map[NODE := HOLDER], map[], {}, order[i])
    ensures order == [StaleNode(NODE, HOLDER, 0)]
  {
    forall i | 0 <= i < |order| ensures order[i] == StaleNode(NODE, HOLDER, 0) {
      assert Offers(map[NODE := HOLDER], map[], {}, order[i]);
    }
    if |order| > 1 {
      NodesDiffer(order);
    }
    assert order == [] ==> NodeIds(order) == {};
  }

  lemma TheOnlyRecord(d: NodeDelta, m: KeyValueMutation)
    requires IsNodeDelta(HOLDER, 0, d) && d.id == NODE && m == ToMutation([], RECORD)
    ensures d == NodeDelta(NODE, 0, 0, if d.keyValues == [] then [] else [m], None)
    ensures StaleKeys(HOLDER, 0) == {[]}
  {
    assert [] in HOLDER.keyValues && HOLDER.keyValues[[]] == RECORD;
    forall i | 0 <= i < |d.keyValues| ensures d.keyValues[i] == m {
      assert d.keyValues[i].key in HOLDER.keyValues;
    }
    if |d.keyValues| > 1 {
      VersionsDiffer(d.keyValues);
    }
    assert d.keyValues == if d.keyValues == [] then [] else [m];
  }

  lemma BothOperationsFit(op: DeltaOp)
    requires op == OpKeyValue(ToMutation([], RECORD))
    ensures !Exceeds(STORE_ONLY, 100, [], Filler(0)[0]) && !Exceeds(STORE_ONLY, 100, Filler(0), op)
    ensures |EncodeOps(Filler(0) + [op])| == 96
  {
    hide PutOp, EncodeOps, Exceeds;
    var node := Filler(0)[0];
    NodeOpLength(node.id, 0, 0);
    KeyValueOpLength(op.mutation);
    NothingEncoded();
    EncodedNodeWith(96);
    EncodeOneMore(Filler(0), op);
    FirstBlockBound(100, [], node);
    FirstBlockBound(100, Filler(0), op);
  }

  lemma NothingIsLeftOut(d: NodeDelta, m: KeyValueMutation, op: DeltaOp)
    requires IsNodeDelta(HOLDER, 0, d) && d.id == NODE && m == ToMutation([], RECORD)
    requires IsMissing(StaleNode(NODE, HOLDER, 0), d, op)
    ensures op == OpKeyValue(m) && Operations([d]) == Filler(0)
  {
    TheOnlyRecord(d, m);
    if op.OpKeyValue? {
      assert op.mutation.key in StaleKeys(HOLDER, 0);
    }
    assert [d][..0] == [] && KeyValueOps([]) == [];
  }

  lemma NothingBlocks(ds: seq<NodeDelta>, lacks: Option<DeltaOp>, op: DeltaOp)
    requires Follows([StaleNode(NODE, HOLDER, 0)], ds, lacks) && IsNext([StaleNode(NODE, HOLDER, 0)], ds, op)
    ensures !Overflows(STORE_ONLY, 100, ds, op)
  {
    hide Exceeds, IsMissing, IsNodeDelta;
    var m := ToMutation([], RECORD);
    BothOperationsFit(OpKeyValue(m));
    if ds == [] {
      assert Operations(ds) == [];
    } else {
      assert Taken(StaleNode(NODE, HOLDER, 0), ds[0], lacks);
      NothingIsLeftOut(ds[0], m, op);
    }
  }

  /** Whatever `compute_partial_delta_respecting_mtu` returns for this node under a payload size of 101, an answer with
      it has 104 bytes, unless the compressor succeeds. */
  lemma OverlongAck(delta: Delta, order: seq<StaleNode>, lacks: Option<DeltaOp>, blocked: Option<DeltaOp>)
    requires DistinctNodes(order) && NodeIds(order) == {NODE}
    requires forall i :: 0 <= i < |order| ==> Offers(map[NODE := HOLDER], map[], {}, order[i])
    requires Follows(order, delta.nodeDeltas, lacks)
    requires blocked.None? ==> lacks.None? && |delta.nodeDeltas| == |order|
    requires blocked.Some? ==> IsNext(order, delta.nodeDeltas, blocked.value)
                               && Overflows(STORE_ONLY, 100, delta.nodeDeltas, blocked.value)
    requires delta.serializedLen == |DeltaPayload(STORE_ONLY, delta.nodeDeltas)|
    ensures delta.serializedLen == 100 && |PutMessage(STORE_ONLY, Ack(delta), [])| == 104
  {
    hide Overflows, PutOp, EncodeOps, Finished, DeltaPayload, Header, IsNext, IsNodeDelta;
    OnlyOneStaleNode(order);
    var m, ds := ToMutation([], RECORD), delta.nodeDeltas;
    if blocked.Some? {
      NothingBlocks(ds, lacks, blocked.value);
    }
    assert Taken(order[0], ds[0], None);
    TheOnlyRecord(ds[0], m);
    assert ds[0].keyValues != [] by {
      assert HasKey(ds[0].keyValues, []);
    }
    assert ds == [ds[0]];
    OperationsOfOne(ds[0], m);
    BothOperationsFit(OpKeyValue(m));
    PayloadOf(STORE_ONLY, ds);
    StoredInOneBlock(BLOCK_THRESHOLD, EncodeOps(Operations(ds)));
    HeaderLength(2);
  }

  lemma OperationsOfOne(d: NodeDelta, m: KeyValueMutation)
    requires d == NodeDelta(NODE, 0, 0, [m], None)
    ensures Operations([d]) == Filler(0) + [OpKeyValue(m)]
  {
    assert [d][..0] == [];
  }
}
