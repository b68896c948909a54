/** A delta as a sequence of operations, and the builder that turns operations into a delta
(chitchat/src/delta.rs, `get_operations` and `DeltaBuilder`). */
module Deltas {
  import opened ChitchatTypes

  datatype DeltaOp =
    | OpNode(id: ChitchatId, lastGcVersion: Version, fromVersionExcluded: Version)
    | OpKeyValue(mutation: KeyValueMutation)
    | OpSetMaxVersion(maxVersion: Version)

  // ----- from a delta to its operations -----

  function KeyValueOps(kvs: seq<KeyValueMutation>): (ops: seq<DeltaOp>)
    ensures |ops| == |kvs|
    ensures forall i :: 0 <= i < |kvs| ==> ops[i] == OpKeyValue(kvs[i])
  {
    seq(|kvs|, i requires 0 <= i < |kvs| => OpKeyValue(kvs[i]))
  }

  function NodeOps(d: NodeDelta): seq<DeltaOp> {
    [OpNode(d.id, d.lastGcVersion, d.fromVersionExcluded)]
    + KeyValueOps(d.keyValues)
    + (if d.maxVersion.Some? then [OpSetMaxVersion(d.maxVersion.value)] else [])
  }

  function Operations(ds: seq<NodeDelta>): seq<DeltaOp> {
    if ds == [] then [] else Operations(ds[..|ds| - 1]) + NodeOps(ds[|ds| - 1])
  }

  // ----- from operations to a delta -----

  datatype Builder = Builder(existing: set<ChitchatId>, deltas: seq<NodeDelta>, current: Option<NodeDelta>)
  {
    function Flushed(): seq<NodeDelta> {
      if current.Some? then deltas + [current.value] else deltas
    }
  }

  const NEW_BUILDER := Builder({}, [], None)

  predicate Accepts(b: Builder, op: DeltaOp) {
    match op
    case OpNode(id, _, _) => id !in b.existing
    case OpKeyValue(m) =>
      && b.current.Some?
      && var kvs := b.current.value.keyValues;
      kvs == [] || kvs[|kvs| - 1].version < m.version
    case OpSetMaxVersion(_) => b.current.Some?
  }

  function ApplyOp(b: Builder, op: DeltaOp): Builder
    requires Accepts(b, op)
  {
    match op
    case OpNode(id, gc, from) =>
      Builder(b.existing + {id}, b.Flushed(), Some(NodeDelta(id, from, gc, [], None)))
    case OpKeyValue(m) =>
      b.(current := Some(b.current.value.(keyValues := b.current.value.keyValues + [m])))
    case OpSetMaxVersion(v) =>
      b.(current := Some(b.current.value.(maxVersion := Some(v))))
  }

  /** `None` as soon as an operation is refused. */
  function ApplyOps(ops: seq<DeltaOp>): Option<Builder> {
    if ops == [] then Some(NEW_BUILDER)
    else
      match ApplyOps(ops[..|ops| - 1])
      case None => None
      case Some(b) => if Accepts(b, ops[|ops| - 1]) then Some(ApplyOp(b, ops[|ops| - 1])) else None
  }

  class DeltaBuilder {
    var existingNodes: set<ChitchatId>
    var nodeDeltas: seq<NodeDelta>
    var currentNodeDelta: Option<NodeDelta>

    function Abs(): Builder
      reads this
    {
      Builder(existingNodes, nodeDeltas, currentNodeDelta)
    }

    constructor ()
      ensures Abs() == NEW_BUILDER
    {
      existingNodes, nodeDeltas, currentNodeDelta := {}, [], None;
    }

    method Flush()
      modifies this
      ensures Abs() == Builder(old(existingNodes), old(Abs()).Flushed(), None)
    {
      if currentNodeDelta.Some? {
        nodeDeltas := nodeDeltas + [currentNodeDelta.value];
        currentNodeDelta := None;
      }
    }

    /** A refused node operation has already flushed the delta before it. */
    method Apply(op: DeltaOp) returns (ok: bool)
      modifies this
      ensures ok <==> Accepts(old(Abs()), op)
      ensures ok ==> Abs() == ApplyOp(old(Abs()), op)
      ensures !ok ==>
                Abs() == if op.OpNode? then Builder(old(existingNodes), old(Abs()).Flushed(), None) else old(Abs())
    {
      match op {
        case OpNode(id, lastGcVersion, fromVersionExcluded) =>
          Flush();
          if id in existingNodes {
            return false;
          }
          existingNodes := existingNodes + {id};
          currentNodeDelta := Some(NodeDelta(id, fromVersionExcluded, lastGcVersion, [], None));
        case OpKeyValue(m) =>
          if currentNodeDelta.None? {
            return false;
          }
          var d := currentNodeDelta.value;
          if d.keyValues != [] && d.keyValues[|d.keyValues| - 1].version >= m.version {
            return false;
          }
          currentNodeDelta := Some(d.(keyValues := d.keyValues + [m]));
        case OpSetMaxVersion(v) =>
          if currentNodeDelta.None? {
            return false;
          }
          currentNodeDelta := Some(currentNodeDelta.value.(maxVersion := Some(v)));
      }
      return true;
    }

    method Finish(len: nat) returns (delta: Delta)
      modifies this
      ensures delta == Delta(old(Abs()).Flushed(), len)
    {
      Flush();
      return Delta(nodeDeltas, len);
    }
  }

  // ----- flattening undoes building -----

  /** The operation is the next one that `Operations` could produce: nothing comes after a `max_version`. */
  predicate Orderly(b: Builder, op: DeltaOp) {
    op.OpNode? || (b.current.Some? && b.current.value.maxVersion.None?)
  }

  lemma FlushedOperations(b: Builder)
    ensures Operations(b.Flushed())
            == Operations(b.deltas) + (if b.current.Some? then NodeOps(b.current.value) else [])
  {
    if b.current.Some? {
      assert b.Flushed()[..|b.Flushed()| - 1] == b.deltas;
    }
  }

  lemma NodeOpsAfterKeyValue(d: NodeDelta, m: KeyValueMutation)
    requires d.maxVersion.None?
    ensures NodeOps(d.(keyValues := d.keyValues + [m])) == NodeOps(d) + [OpKeyValue(m)]
  {
  }

  /** An accepted operation comes back as the last one exactly when it came in its place. */
  lemma OperationsAfterOp(b: Builder, op: DeltaOp)
    requires Accepts(b, op)
    ensures Orderly(b, op) <==> Operations(ApplyOp(b, op).Flushed()) == Operations(b.Flushed()) + [op]
  {
    hide Operations;
    var c := ApplyOp(b, op);
    FlushedOperations(b);
    FlushedOperations(c);
    match op
    case OpNode(id, gc, from) =>
      assert NodeOps(NodeDelta(id, from, gc, [], None)) == [op];
    case OpKeyValue(m) =>
      var d := b.current.value;
      if d.maxVersion.None? {
        NodeOpsAfterKeyValue(d, m);
        assert Operations(b.deltas) + (NodeOps(d) + [op]) == (Operations(b.deltas) + NodeOps(d)) + [op];
      } else {
        var ops := Operations(c.Flushed());
        assert NodeOps(c.current.value)[|NodeOps(c.current.value)| - 1] == OpSetMaxVersion(d.maxVersion.value);
        assert ops[|ops| - 1] == OpSetMaxVersion(d.maxVersion.value);
      }
    case OpSetMaxVersion(v) =>
      var d := b.current.value;
      if d.maxVersion.None? {
        assert NodeOps(c.current.value) == NodeOps(d) + [op];
        assert Operations(b.deltas) + (NodeOps(d) + [op]) == (Operations(b.deltas) + NodeOps(d)) + [op];
      } else {
        assert |NodeOps(c.current.value)| == |NodeOps(d)|;
      }
  }

  // ----- building undoes flattening -----

  ghost predicate WellFormed(ds: seq<NodeDelta>) {
    && DistinctIds(ds)
    && (forall i :: 0 <= i < |ds| ==> StrictlyIncreasing(ds[i].keyValues))
  }

  function Ids(ds: seq<NodeDelta>): set<ChitchatId> {
    set i | 0 <= i < |ds| :: ds[i].id
  }

  lemma ApplyOneMore(ops: seq<DeltaOp>, b: Builder, op: DeltaOp)
    requires ApplyOps(ops) == Some(b) && Accepts(b, op)
    ensures ApplyOps(ops + [op]) == Some(ApplyOp(b, op))
  {
    assert (ops + [op])[..|ops|] == ops;
  }

  lemma KeyValueOpsSplit(ops: seq<DeltaOp>, kvs: seq<KeyValueMutation>, n: nat)
    requires |kvs| == n + 1
    ensures ops + KeyValueOps(kvs) == (ops + KeyValueOps(kvs[..n])) + [OpKeyValue(kvs[n])]
  {
  }

  lemma {:induction false} ApplyKeyValueOps(ops: seq<DeltaOp>, b: Builder, d: NodeDelta, kvs: seq<KeyValueMutation>)
    requires ApplyOps(ops) == Some(b) && b.current == Some(d) && d.keyValues == []
    requires StrictlyIncreasing(kvs)
    ensures ApplyOps(ops + KeyValueOps(kvs)) == Some(b.(current := Some(d.(keyValues := kvs))))
  {
    if kvs == [] {
      assert ops + KeyValueOps(kvs) == ops;
    } else {
      var n := |kvs| - 1;
      ApplyKeyValueOps(ops, b, d, kvs[..n]);
      KeyValueOpsSplit(ops, kvs, n);
      ApplyOneMore(ops + KeyValueOps(kvs[..n]), b.(current := Some(d.(keyValues := kvs[..n]))), OpKeyValue(kvs[n]));
      assert kvs[..n] + [kvs[n]] == kvs;
    }
  }

  lemma ApplyNodeOps(ops: seq<DeltaOp>, b: Builder, d: NodeDelta)
    requires ApplyOps(ops) == Some(b) && d.id !in b.existing && StrictlyIncreasing(d.keyValues)
    ensures ApplyOps(ops + NodeOps(d)) == Some(Builder(b.existing + {d.id}, b.Flushed(), Some(d)))
  {
    hide ApplyOps, KeyValueOps, StrictlyIncreasing;
    var node := OpNode(d.id, d.lastGcVersion, d.fromVersionExcluded);
    ApplyOneMore(ops, b, node);
    var start := NodeDelta(d.id, d.fromVersionExcluded, d.lastGcVersion, [], None);
    ApplyKeyValueOps(ops + [node], ApplyOp(b, node), start, d.keyValues);
    var filled := (ops + [node]) + KeyValueOps(d.keyValues);
    if d.maxVersion.Some? {
      var last := OpSetMaxVersion(d.maxVersion.value);
      ApplyOneMore(filled, ApplyOp(b, node).(current := Some(start.(keyValues := d.keyValues))), last);
      assert ops + NodeOps(d) == filled + [last];
    } else {
      assert ops + NodeOps(d) == filled;
    }
  }

  lemma OneMoreNodeDelta(b: Builder, op: DeltaOp)
    requires Accepts(b, op) && WellFormed(b.Flushed()) && b.existing == Ids(b.Flushed())
    ensures var c := ApplyOp(b, op);
            WellFormed(c.Flushed()) && c.existing == Ids(c.Flushed())
  {
    var ds, es := b.Flushed(), ApplyOp(b, op).Flushed();
    var n := |es| - 1;
    if op.OpNode? {
      assert es == ds + [es[n]];
      assert forall i :: 0 <= i < n ==> es[i] == ds[i] && ds[i].id in Ids(ds);
      assert Ids(es) == Ids(ds) + {es[n].id};
    } else {
      assert forall i :: 0 <= i < n ==> es[i] == ds[i];
      assert es[n].id == ds[n].id;
      assert Ids(es) == Ids(ds);
    }
  }

  /** Whatever operations a builder accepts, it builds a well-formed delta. */
  lemma {:induction false} BuiltIsWellFormed(ops: seq<DeltaOp>)
    requires ApplyOps(ops).Some?
    ensures var b := ApplyOps(ops).value;
            WellFormed(b.Flushed()) && b.existing == Ids(b.Flushed())
  {
    hide WellFormed, ApplyOp;
    if ops == [] {
      NewIsWellFormed();
    } else {
      BuiltIsWellFormed(ops[..|ops| - 1]);
      OneMoreNodeDelta(ApplyOps(ops[..|ops| - 1]).value, ops[|ops| - 1]);
    }
  }

  lemma NewIsWellFormed()
    ensures WellFormed(NEW_BUILDER.Flushed()) && Ids(NEW_BUILDER.Flushed()) == {}
  {
  }

  lemma NothingToBuild()
    ensures ApplyOps(Operations([])) == Some(NEW_BUILDER)
  {
  }

  /** Every well-formed delta is rebuilt from its operations. */
  lemma {:induction false} BuildOperations(ds: seq<NodeDelta>)
    requires WellFormed(ds)
    ensures var b := ApplyOps(Operations(ds));
            b.Some? && b.value.Flushed() == ds && b.value.existing == Ids(ds)
  {
    hide ApplyOps, NodeOps, StrictlyIncreasing;
    if ds == [] {
      NothingToBuild();
    } else {
      var n := |ds| - 1;
      BuildOperations(ds[..n]);
      var b := ApplyOps(Operations(ds[..n])).value;
      assert ds[n].id !in Ids(ds[..n]);
      ApplyNodeOps(Operations(ds[..n]), b, ds[n]);
      assert ds[..n] + [ds[n]] == ds;
      assert Ids(ds) == Ids(ds[..n]) + {ds[n].id};
    }
  }
}
