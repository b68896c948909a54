/** The values that travel through the gossip layer (chitchat/src/types.rs, digest.rs, delta.rs).

Strings are the UTF-8 byte sequences that Rust strings are; instants and durations are reals. */
module ChitchatTypes {
  datatype Option<+T> = None | Some(value: T)

  const U64_MODULUS := 0x1_0000_0000_0000_0000

  type byte = x: int | 0 <= x < 256
  type Bytes = seq<byte>
  type Text = seq<byte>
  type Version = nat
  type Instant = real
  type Duration = real

  datatype IpAddr = V4(octets: Bytes) | V6(octets: Bytes)
  datatype SocketAddr = SocketAddr(ip: IpAddr, port: nat)
  datatype ChitchatId = ChitchatId(nodeId: Text, generationId: nat, gossipAddr: SocketAddr)

  /** Local life-cycle of a record: the instant is the start of the grace period. */
  datatype DeletionStatus = Set | Deleted(since: Instant) | DeleteAfterTtl(since: Instant)
  {
    predicate ScheduledForDeletion() { !Set? }

    function Erase(): DeletionStatusMutation {
      match this
      case Set => MutationSet
      case Deleted(_) => MutationDelete
      case DeleteAfterTtl(_) => MutationDeleteAfterTtl
    }
  }

  /** The part of a status that is sent to peers: the instant is local and is not sent. */
  datatype DeletionStatusMutation = MutationSet | MutationDelete | MutationDeleteAfterTtl
  {
    function IntoStatus(now: Instant): DeletionStatus {
      match this
      case MutationSet => Set
      case MutationDelete => Deleted(now)
      case MutationDeleteAfterTtl => DeleteAfterTtl(now)
    }

    predicate ScheduledForDeletion() { !MutationSet? }
  }

  datatype VersionedValue = VersionedValue(value: Text, version: Version, status: DeletionStatus)
  {
    predicate IsDeleted() { status.Deleted? }
  }

  datatype KeyValueMutation =
    KeyValueMutation(key: Text, value: Text, version: Version, status: DeletionStatusMutation)

  /** The record as it is sent to peers. */
  function ToMutation(key: Text, vv: VersionedValue): KeyValueMutation {
    KeyValueMutation(key, vv.value, vv.version, vv.status.Erase())
  }

  datatype NodeDelta = NodeDelta(
    id: ChitchatId,
    fromVersionExcluded: Version,
    lastGcVersion: Version,
    keyValues: seq<KeyValueMutation>,
    maxVersion: Option<Version>)

  datatype Delta = Delta(nodeDeltas: seq<NodeDelta>, serializedLen: nat)

  datatype NodeDigest = NodeDigest(heartbeat: nat, lastGcVersion: Version, maxVersion: Version)
  type Digest = map<ChitchatId, NodeDigest>

  datatype Message =
    | Syn(clusterId: Text, digest: Digest)
    | SynAck(digest: Digest, delta: Delta)
    | Ack(delta: Delta)
    | BadCluster

  function Max(a: nat, b: nat): nat { if a < b then b else a }

  ghost predicate DistinctIds(ds: seq<NodeDelta>) {
    forall i, j :: 0 <= i < j < |ds| ==> ds[i].id != ds[j].id
  }

  ghost predicate StrictlyIncreasing(kvs: seq<KeyValueMutation>) {
    forall i, j :: 0 <= i < j < |kvs| ==> kvs[i].version < kvs[j].version
  }
}
