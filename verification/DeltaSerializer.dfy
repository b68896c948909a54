/** Writing a delta operation by operation under a payload limit (chitchat/src/delta.rs, `DeltaSerializer`). */
module DeltaSerializers {
  import opened ChitchatTypes
  import opened Streams
  import opened Deltas
  import opened Wire

  const MIN_MTU := 100

  function EncodeOps(ops: seq<DeltaOp>): Bytes { EncodeAll(OP_CODEC, ops) }

  lemma EncodeOneMore(ops: seq<DeltaOp>, op: DeltaOp)
    ensures EncodeOps(ops + [op]) == EncodeOps(ops) + PutOp(op)
  {
    assert (ops + [op])[..|ops|] == ops;
  }

  lemma OpLength(op: DeltaOp)
    ensures |PutOp(op)| > 0
    ensures op.OpSetMaxVersion? ==> |PutOp(op)| == 9
    ensures op.OpNode? ==> |PutOp(op)| >= 9
  {
  }

  /** What `serialized_len` computes is what is written. */
  lemma NodeOpLength(id: ChitchatId, lastGcVersion: Version, from: Version)
    ensures |PutOp(OpNode(id, lastGcVersion, from))| == 30 + |id.nodeId| + |id.gossipAddr.ip.octets|
  {
    Widths();
  }

  lemma KeyValueOpLength(m: KeyValueMutation)
    ensures |PutOp(OpKeyValue(m))| == 14 + |m.key| + |m.value|
  {
    Widths();
  }

  lemma UpperboundMonotone(output: nat, pending: nat, short: nat, long: nat, threshold: nat)
    requires short <= long
    ensures Upperbound(output, pending, short, threshold) <= Upperbound(output, pending, long, threshold)
  {
  }

  /** Up to this limit, nothing is accepted that does not fit into two blocks. */
  const TWO_BLOCKS := 2 * BLOCK_THRESHOLD + 7

  /** The limit is kept if it is at most two blocks, or if no operation is longer than a block. */
  ghost predicate Predictable(mtu: nat, ops: seq<DeltaOp>) {
    mtu <= TWO_BLOCKS || forall i :: 0 <= i < |ops| ==> |PutOp(ops[i])| <= BLOCK_THRESHOLD
  }

  function ThresholdFor(mtu: nat): nat { if mtu < BLOCK_THRESHOLD then mtu else BLOCK_THRESHOLD }

  /** The stream of the operations accepted so far. */
  ghost predicate Fitting(z: Zstd, mtu: nat, ops: seq<DeltaOp>, raw: Bytes)
    requires mtu >= 1
  {
    && raw == EncodeOps(ops)
    && (mtu < BLOCK_THRESHOLD ==> |raw| <= mtu)
    && (Predictable(mtu, ops) ==> |Finished(z, ThresholdFor(mtu), raw)| <= mtu)
  }

  /** An operation whose upper bound is within the limit keeps the stream within it. */
  lemma AcceptedFits(z: LawfulZstd, mtu: nat, ops: seq<DeltaOp>, raw: Bytes, op: DeltaOp, item: Bytes)
    requires mtu >= MIN_MTU && Fitting(z, mtu, ops, raw) && item == PutOp(op)
    requires |item| > 0
    requires var t := ThresholdFor(mtu);
             Upperbound(|FullBlocks(z, t, raw)|, |Pending(t, raw)|, |item|, t) <= mtu
    ensures Fitting(z, mtu, ops + [op], raw + item)
  {
    var t := ThresholdFor(mtu);
    EncodeOneMore(ops, op);
    if Predictable(mtu, ops + [op]) {
      assert (ops + [op])[|ops|] == op;
      assert |Pending(t, raw)| + |item| <= 2 * t;
      UpperboundForShortItem(z, t, raw, item);
    }
  }

  /** Whatever the limit, the delta is written later with the full threshold and takes the recorded length. */
  lemma SamePayload(z: Zstd, mtu: nat, ops: seq<DeltaOp>, raw: Bytes)
    requires mtu >= MIN_MTU && Fitting(z, mtu, ops, raw)
    ensures Finished(z, ThresholdFor(mtu), raw) == Finished(z, BLOCK_THRESHOLD, raw)
  {
  }

  /** The upper bound of the stream of `ops` followed by `op` exceeds the limit. */
  ghost predicate Exceeds(z: Zstd, mtu: nat, ops: seq<DeltaOp>, op: DeltaOp)
    requires mtu >= MIN_MTU
  {
    var t, raw := ThresholdFor(mtu), EncodeOps(ops);
    Upperbound(|FullBlocks(z, t, raw)|, |Pending(t, raw)|, |PutOp(op)|, t) > mtu
  }

  class DeltaSerializer {
    const mtu: nat
    const zstd: LawfulZstd
    const builder: DeltaBuilder
    const writer: CompressedStreamWriter
    /** The operations accepted so far. */
    ghost var ops: seq<DeltaOp>

    ghost predicate Valid()
      reads this, builder, writer
    {
      && mtu >= MIN_MTU
      && writer.Valid() && writer.zstd == zstd && writer.blockThreshold == ThresholdFor(mtu)
      && ApplyOps(ops) == Some(builder.Abs())
      && Operations(builder.Abs().Flushed()) == ops
      && Fitting(zstd, mtu, ops, writer.raw)
    }

    constructor (zstd: LawfulZstd, mtu: nat)
      requires mtu >= MIN_MTU
      ensures Valid() && ops == [] && builder.Abs() == NEW_BUILDER && this.mtu == mtu && this.zstd == zstd
      ensures fresh(builder) && fresh(writer)
    {
      this.mtu, this.zstd := mtu, zstd;
      builder := new DeltaBuilder();
      writer := new CompressedStreamWriter(zstd, ThresholdFor(mtu));
      ops := [];
      new;
      assert Finished(zstd, ThresholdFor(mtu), []) == [0];
    }

    function Bound(op: DeltaOp): nat
      reads writer
    {
      OpLength(op);
      writer.UpperboundAfter(|PutOp(op)|)
    }

    /** The source asserts that the builder accepts the operation and that an accepted item is at most
        `u16::MAX` bytes long. */
    method TryAddOp(op: DeltaOp) returns (added: bool)
      requires Valid() && Accepts(builder.Abs(), op) && Orderly(builder.Abs(), op)
      requires mtu <= U16_MAX || |PutOp(op)| <= U16_MAX
      modifies this, builder, writer
      ensures Valid()
      ensures added <==> old(Bound(op)) <= mtu
      ensures added ==> ops == old(ops) + [op] && builder.Abs() == ApplyOp(old(builder.Abs()), op)
      ensures !added ==> ops == old(ops) && builder.Abs() == old(builder.Abs())
                         && writer.output == old(writer.output)
                         && writer.uncompressedBlock == old(writer.uncompressedBlock)
    {
      hide ApplyOps, Operations, Fitting, PutOp, FullBlocks, Pending;
      OpLength(op);
      var item := PutOp(op);
      if writer.UpperboundAfter(|item|) > mtu {
        return false;
      }
      AcceptedFits(zstd, mtu, ops, writer.raw, op, item);
      OperationsAfterOp(builder.Abs(), op);
      ApplyOneMore(ops, builder.Abs(), op);
      writer.Append(item);
      var ok := builder.Apply(op);
      assert ok;
      ops := ops + [op];
      return true;
    }

    method Finish() returns (delta: Delta)
      requires Valid()
      modifies this, builder, writer
      ensures delta.nodeDeltas == old(builder.Abs()).Flushed()
      ensures delta.serializedLen == |DeltaPayload(zstd, delta.nodeDeltas)|
      ensures Predictable(mtu, old(ops)) ==> delta.serializedLen <= mtu
    {
      SamePayload(zstd, mtu, ops, writer.raw);
      var stream := writer.Finish();
      delta := builder.Finish(|stream|);
    }
  }
}
