/** The binary form of ids, digests, deltas and messages (chitchat/src/serialize.rs, digest.rs, delta.rs,
message.rs). Lengths that the source casts to a narrower integer are cut to it here too. */
module Wire {
  import opened ChitchatTypes
  import opened Streams
  import opened Deltas

  type Parsed<+T> = Option<(T, Bytes)>

  // ----- what has a binary form -----

  predicate IsU16(n: nat) { n < 0x1_0000 }
  predicate IsU64(n: nat) { n < U64_MODULUS }
  predicate IsText(t: Text) { IsU16(|t|) }

  predicate IsIp(ip: IpAddr) { |ip.octets| == if ip.V4? then 4 else 16 }

  predicate IsId(id: ChitchatId) {
    IsText(id.nodeId) && IsU64(id.generationId) && IsIp(id.gossipAddr.ip) && IsU16(id.gossipAddr.port)
  }

  predicate IsMutation(m: KeyValueMutation) { IsText(m.key) && IsText(m.value) && IsU64(m.version) }

  predicate IsOp(op: DeltaOp) {
    match op
    case OpNode(id, gc, from) => IsId(id) && IsU64(gc) && IsU64(from)
    case OpKeyValue(m) => IsMutation(m)
    case OpSetMaxVersion(v) => IsU64(v)
  }

  // ----- fixed-width pieces -----

  function PutInt(n: nat, width: nat): Bytes { LittleEndian(n, width) }

  function GetInt(buf: Bytes, width: nat): Parsed<nat> {
    if |buf| < width then None else Some((FromLittleEndian(buf[..width]), buf[width..]))
  }

  lemma IntRoundTrip(n: nat, width: nat, suffix: Bytes)
    requires n < Pow256(width)
    ensures GetInt(PutInt(n, width) + suffix, width) == Some((n, suffix))
  {
    LittleEndianRoundTrip(n, width);
    var buf := PutInt(n, width) + suffix;
    assert buf[..width] == PutInt(n, width) && buf[width..] == suffix;
  }

  lemma Widths()
    ensures Pow256(2) == 0x1_0000 && Pow256(4) == 0x1_0000_0000 && Pow256(8) == 0x1_0000_0000_0000_0000
  {
    assert Pow256(2) == 0x1_0000;
    assert Pow256(4) == 256 * 256 * Pow256(2);
    assert Pow256(6) == 256 * 256 * Pow256(4);
    assert Pow256(8) == 256 * 256 * Pow256(6);
  }

  function PutText(t: Text): Bytes { PutInt(|t|, 2) + t }
  function GetText(buf: Bytes): Parsed<Text> { TakePrefixed(buf) }

  lemma TextRoundTrip(t: Text, suffix: Bytes)
    requires IsText(t)
    ensures GetText(PutText(t) + suffix) == Some((t, suffix))
  {
    PrefixedIsTaken(0, t, suffix);
    assert (Prefixed(0, t) + suffix)[1..] == PutText(t) + suffix;
  }

  // ----- addresses and ids -----

  function PutIp(ip: IpAddr): Bytes { [if ip.V4? then 4 else 6] + ip.octets }

  function GetIp(buf: Bytes): Parsed<IpAddr> {
    if |buf| >= 5 && buf[0] == 4 then Some((V4(buf[1..5]), buf[5..]))
    else if |buf| >= 17 && buf[0] == 6 then Some((V6(buf[1..17]), buf[17..]))
    else None
  }

  lemma IpRoundTrip(ip: IpAddr, suffix: Bytes)
    requires IsIp(ip)
    ensures GetIp(PutIp(ip) + suffix) == Some((ip, suffix))
  {
    var buf := PutIp(ip) + suffix;
    assert buf[1..1 + |ip.octets|] == ip.octets && buf[1 + |ip.octets|..] == suffix;
  }

  function PutId(id: ChitchatId): Bytes {
    PutText(id.nodeId) + (PutInt(id.generationId, 8) + (PutIp(id.gossipAddr.ip) + PutInt(id.gossipAddr.port, 2)))
  }

  function GetId(buf: Bytes): Parsed<ChitchatId> {
    match GetText(buf)
    case None => None
    case Some((nodeId, b1)) =>
      match GetInt(b1, 8)
      case None => None
      case Some((generation, b2)) =>
        match GetIp(b2)
        case None => None
        case Some((ip, b3)) =>
          match GetInt(b3, 2)
          case None => None
          case Some((port, b4)) => Some((ChitchatId(nodeId, generation, SocketAddr(ip, port)), b4))
  }

  lemma IdRoundTrip(id: ChitchatId, suffix: Bytes)
    requires IsId(id)
    ensures GetId(PutId(id) + suffix) == Some((id, suffix))
  {
    Widths();
    var port := PutInt(id.gossipAddr.port, 2);
    var ip := PutIp(id.gossipAddr.ip);
    var generation := PutInt(id.generationId, 8);
    Associative(PutText(id.nodeId), generation + (ip + port), suffix);
    Associative(generation, ip + port, suffix);
    Associative(ip, port, suffix);
    TextRoundTrip(id.nodeId, generation + (ip + (port + suffix)));
    IntRoundTrip(id.generationId, 8, ip + (port + suffix));
    IpRoundTrip(id.gossipAddr.ip, port + suffix);
    IntRoundTrip(id.gossipAddr.port, 2, suffix);
  }

  // ----- delta operations -----

  function StatusCode(s: DeletionStatusMutation): byte {
    match s
    case MutationSet => 0
    case MutationDelete => 1
    case MutationDeleteAfterTtl => 2
  }

  function GetStatus(buf: Bytes): Parsed<DeletionStatusMutation> {
    if buf == [] then None
    else if buf[0] == 0 then Some((MutationSet, buf[1..]))
    else if buf[0] == 1 then Some((MutationDelete, buf[1..]))
    else if buf[0] == 2 then Some((MutationDeleteAfterTtl, buf[1..]))
    else None
  }

  function PutMutation(m: KeyValueMutation): Bytes {
    PutText(m.key) + (PutText(m.value) + (PutInt(m.version, 8) + [StatusCode(m.status)]))
  }

  function GetMutation(buf: Bytes): Parsed<KeyValueMutation> {
    match GetText(buf)
    case None => None
    case Some((key, b1)) =>
      match GetText(b1)
      case None => None
      case Some((value, b2)) =>
        match GetInt(b2, 8)
        case None => None
        case Some((version, b3)) =>
          match GetStatus(b3)
          case None => None
          case Some((status, b4)) => Some((KeyValueMutation(key, value, version, status), b4))
  }

  lemma MutationRoundTrip(m: KeyValueMutation, suffix: Bytes)
    requires IsMutation(m)
    ensures GetMutation(PutMutation(m) + suffix) == Some((m, suffix))
  {
    Widths();
    var status: Bytes := [StatusCode(m.status)];
    var version := PutInt(m.version, 8);
    Associative(PutText(m.key), PutText(m.value) + (version + status), suffix);
    Associative(PutText(m.value), version + status, suffix);
    Associative(version, status, suffix);
    TextRoundTrip(m.key, PutText(m.value) + (version + (status + suffix)));
    TextRoundTrip(m.value, version + (status + suffix));
    IntRoundTrip(m.version, 8, status + suffix);
    assert (status + suffix)[1..] == suffix;
  }

  function PutOp(op: DeltaOp): Bytes {
    match op
    case OpNode(id, gc, from) => [0] + (PutId(id) + (PutInt(gc, 8) + PutInt(from, 8)))
    case OpKeyValue(m) => [1] + PutMutation(m)
    case OpSetMaxVersion(v) => [2] + PutInt(v, 8)
  }

  function GetNodeOp(buf: Bytes): Parsed<DeltaOp> {
    match GetId(buf)
    case None => None
    case Some((id, b1)) =>
      match GetInt(b1, 8)
      case None => None
      case Some((gc, b2)) =>
        match GetInt(b2, 8)
        case None => None
        case Some((from, b3)) => Some((OpNode(id, gc, from), b3))
  }

  function GetOp(buf: Bytes): Parsed<DeltaOp> {
    if buf == [] then None
    else if buf[0] == 0 then GetNodeOp(buf[1..])
    else if buf[0] == 1 then
      match GetMutation(buf[1..])
      case None => None
      case Some((m, rest)) => Some((OpKeyValue(m), rest))
    else if buf[0] == 2 then
      match GetInt(buf[1..], 8)
      case None => None
      case Some((v, rest)) => Some((OpSetMaxVersion(v), rest))
    else None
  }

  lemma NodeOpRoundTrip(id: ChitchatId, gc: Version, from: Version, suffix: Bytes)
    requires IsId(id) && IsU64(gc) && IsU64(from)
    ensures GetNodeOp((PutId(id) + (PutInt(gc, 8) + PutInt(from, 8))) + suffix) == Some((OpNode(id, gc, from), suffix))
  {
    Widths();
    var a, b := PutInt(gc, 8), PutInt(from, 8);
    Associative(PutId(id), a + b, suffix);
    Associative(a, b, suffix);
    IdRoundTrip(id, a + (b + suffix));
    IntRoundTrip(gc, 8, b + suffix);
    IntRoundTrip(from, 8, suffix);
  }

  lemma TagFirst(tag: byte, body: Bytes, suffix: Bytes)
    ensures ([tag] + body) + suffix == [tag] + (body + suffix)
    ensures (([tag] + body) + suffix)[1..] == body + suffix
  {
  }

  lemma OpRoundTrip(op: DeltaOp, suffix: Bytes)
    requires IsOp(op)
    ensures GetOp(PutOp(op) + suffix) == Some((op, suffix))
  {
    hide PutId, PutMutation, GetMutation, GetNodeOp, PutInt, GetInt;
    match op
    case OpNode(id, gc, from) =>
      TagFirst(0, PutId(id) + (PutInt(gc, 8) + PutInt(from, 8)), suffix);
      NodeOpRoundTrip(id, gc, from, suffix);
    case OpKeyValue(m) =>
      TagFirst(1, PutMutation(m), suffix);
      MutationRoundTrip(m, suffix);
    case OpSetMaxVersion(v) =>
      TagFirst(2, PutInt(v, 8), suffix);
      Widths();
      IntRoundTrip(v, 8, suffix);
  }

  const OP_CODEC: Codec<DeltaOp> := Codec(op => PutOp(op), buf => GetOp(buf))

  lemma OpFits(op: DeltaOp)
    requires IsOp(op)
    ensures OP_CODEC.Fits(op)
  {
    forall suffix ensures OP_CODEC.decode(OP_CODEC.encode(op) + suffix) == Some((op, suffix)) {
      OpRoundTrip(op, suffix);
    }
  }

  // ----- deltas -----

  const BLOCK_THRESHOLD := 16384

  function PutOps(c: Codec<DeltaOp>, z: Zstd, ops: seq<DeltaOp>): Bytes {
    Finished(z, BLOCK_THRESHOLD, EncodeAll(c, ops))
  }

  function GetOps(c: Codec<DeltaOp>, z: Zstd, buf: Bytes): Parsed<Delta> {
    match DecodeStream(c, z, buf)
    case None => None
    case Some((ops, rest)) =>
      match ApplyOps(ops)
      case None => None
      case Some(b) => if |rest| <= |buf| then Some((Delta(b.Flushed(), |buf| - |rest|), rest)) else None
  }

  function DeltaPayload(z: Zstd, ds: seq<NodeDelta>): Bytes { PutOps(OP_CODEC, z, Operations(ds)) }

  function GetDelta(z: Zstd, buf: Bytes): Parsed<Delta> { GetOps(OP_CODEC, z, buf) }

  ghost predicate IsDelta(ds: seq<NodeDelta>) {
    WellFormed(ds) && forall i :: 0 <= i < |Operations(ds)| ==> IsOp(Operations(ds)[i])
  }

  lemma OpsFit(ops: seq<DeltaOp>)
    requires forall i :: 0 <= i < |ops| ==> IsOp(ops[i])
    ensures forall i :: 0 <= i < |ops| ==> OP_CODEC.Fits(ops[i])
  {
    forall i | 0 <= i < |ops| ensures OP_CODEC.Fits(ops[i]) {
      OpFits(ops[i]);
    }
  }

  lemma OperationsAreRead(c: Codec<DeltaOp>, z: LawfulZstd, ops: seq<DeltaOp>, b: Builder, suffix: Bytes)
    requires forall i :: 0 <= i < |ops| ==> c.Fits(ops[i])
    requires ApplyOps(ops) == Some(b)
    ensures GetOps(c, z, PutOps(c, z, ops) + suffix) == Some((Delta(b.Flushed(), |PutOps(c, z, ops)|), suffix))
  {
    hide ApplyOps, Finished, EncodeAll, DecodeStream;
    StreamRoundTrip(c, z, BLOCK_THRESHOLD, ops, suffix);
  }

  /** A well-formed delta is read back as it was, with the length that it took. */
  lemma DeltaRoundTrip(z: LawfulZstd, ds: seq<NodeDelta>, suffix: Bytes)
    requires IsDelta(ds)
    ensures GetDelta(z, DeltaPayload(z, ds) + suffix) == Some((Delta(ds, |DeltaPayload(z, ds)|), suffix))
  {
    BuildOperations(ds);
    OpsFit(Operations(ds));
    OperationsAreRead(OP_CODEC, z, Operations(ds), ApplyOps(Operations(ds)).value, suffix);
  }

  // ----- digests -----

  /** The entries of a digest in the order in which they are written. */
  type Entry = (ChitchatId, NodeDigest)

  function InsertAll(digest: Digest, es: seq<Entry>): Digest
    decreases |es|
  {
    if es == [] then digest else InsertAll(digest[es[0].0 := es[0].1], es[1..])
  }

  /** As many entries as the digest has, and together they are the digest. */
  ghost predicate Enumerates(es: seq<Entry>, digest: Digest) {
    |es| == |digest| && InsertAll(map[], es) == digest
  }

  predicate IsEntry(e: Entry) {
    IsId(e.0) && IsU64(e.1.heartbeat) && IsU64(e.1.lastGcVersion) && IsU64(e.1.maxVersion)
  }

  function PutNodeDigest(d: NodeDigest): Bytes {
    PutInt(d.heartbeat, 8) + (PutInt(d.lastGcVersion, 8) + PutInt(d.maxVersion, 8))
  }

  function GetNodeDigest(buf: Bytes): Parsed<NodeDigest> {
    match GetInt(buf, 8)
    case None => None
    case Some((heartbeat, b1)) =>
      match GetInt(b1, 8)
      case None => None
      case Some((gc, b2)) =>
        match GetInt(b2, 8)
        case None => None
        case Some((max, b3)) => Some((NodeDigest(heartbeat, gc, max), b3))
  }

  function PutEntry(e: Entry): Bytes { PutId(e.0) + PutNodeDigest(e.1) }

  function GetEntry(buf: Bytes): Parsed<Entry> {
    match GetId(buf)
    case None => None
    case Some((id, rest)) =>
      match GetNodeDigest(rest)
      case None => None
      case Some((d, tail)) => Some(((id, d), tail))
  }

  lemma EntryRoundTrip(e: Entry, suffix: Bytes)
    requires IsEntry(e)
    ensures GetEntry(PutEntry(e) + suffix) == Some((e, suffix))
  {
    Widths();
    var a, b, c := PutInt(e.1.heartbeat, 8), PutInt(e.1.lastGcVersion, 8), PutInt(e.1.maxVersion, 8);
    Associative(PutId(e.0), PutNodeDigest(e.1), suffix);
    IdRoundTrip(e.0, PutNodeDigest(e.1) + suffix);
    Associative(a, b + c, suffix);
    Associative(b, c, suffix);
    IntRoundTrip(e.1.heartbeat, 8, b + (c + suffix));
    IntRoundTrip(e.1.lastGcVersion, 8, c + suffix);
    IntRoundTrip(e.1.maxVersion, 8, suffix);
  }

  function PutEntries(es: seq<Entry>): Bytes
    decreases |es|
  {
    if es == [] then [] else PutEntries(es[..|es| - 1]) + PutEntry(es[|es| - 1])
  }

  /** Reads `n` more entries into `digest`. */
  function GetEntries(buf: Bytes, n: nat, digest: Digest): Parsed<Digest> {
    if n == 0 then Some((digest, buf))
    else
      match GetEntry(buf)
      case None => None
      case Some((e, rest)) => GetEntries(rest, n - 1, digest[e.0 := e.1])
  }

  lemma {:induction false} PutEntriesFront(e: Entry, es: seq<Entry>)
    ensures PutEntries([e] + es) == PutEntry(e) + PutEntries(es)
    decreases |es|
  {
    hide PutEntry;
    if es == [] {
      assert [e] + es == [e] && [e][..0] == [];
    } else {
      var n := |es| - 1;
      PutEntriesFront(e, es[..n]);
      var all := [e] + es;
      assert all[..|all| - 1] == [e] + es[..n];
      assert all[|all| - 1] == es[n];
      Associative(PutEntry(e), PutEntries(es[..n]), PutEntry(es[n]));
    }
  }

  lemma {:induction false} EntriesRoundTrip(es: seq<Entry>, digest: Digest, suffix: Bytes)
    requires forall i :: 0 <= i < |es| ==> IsEntry(es[i])
    ensures GetEntries(PutEntries(es) + suffix, |es|, digest) == Some((InsertAll(digest, es), suffix))
    decreases |es|
  {
    if es != [] {
      assert es == [es[0]] + es[1..];
      PutEntriesFront(es[0], es[1..]);
      Associative(PutEntry(es[0]), PutEntries(es[1..]), suffix);
      EntryRoundTrip(es[0], PutEntries(es[1..]) + suffix);
      EntriesRoundTrip(es[1..], digest[es[0].0 := es[0].1], suffix);
    } else {
      assert PutEntries(es) + suffix == suffix;
    }
  }

  lemma {:induction false} InsertOneMore(digest: Digest, es: seq<Entry>, e: Entry)
    ensures InsertAll(digest, es + [e]) == InsertAll(digest, es)[e.0 := e.1]
    decreases |es|
  {
    if es == [] {
      assert es + [e] == [e] && [e][1..] == [];
    } else {
      InsertOneMore(digest[es[0].0 := es[0].1], es[1..], e);
      assert (es + [e])[1..] == es[1..] + [e];
    }
  }

  /** The number of entries is written as 16 bits. */
  function DigestBody(es: seq<Entry>): Bytes { PutInt(|es|, 2) + PutEntries(es) }

  function PutDigest(z: Zstd, es: seq<Entry>): Bytes {
    var compressed := z.encodeAll(DigestBody(es));
    PutInt(|compressed|, 4) + compressed
  }

  function GetDigestBody(body: Bytes): Option<Digest> {
    match GetInt(body, 2)
    case None => None
    case Some((n, rest)) =>
      match GetEntries(rest, n, map[])
      case None => None
      case Some((digest, _)) => Some(digest)
  }

  /** A body that does not decompress is read as an empty one. */
  function GetDigest(z: Zstd, buf: Bytes): Parsed<Digest> {
    match GetInt(buf, 4)
    case None => None
    case Some((len, rest)) =>
      if |rest| < len then None
      else
        var body := z.decodeAll(rest[..len]);
        match GetDigestBody(if body.Some? then body.value else [])
        case None => None
        case Some(digest) => Some((digest, rest[len..]))
  }

  ghost predicate IsDigest(z: Zstd, es: seq<Entry>, digest: Digest) {
    && Enumerates(es, digest)
    && (forall i :: 0 <= i < |es| ==> IsEntry(es[i]))
    && IsU16(|es|)
    && |z.encodeAll(DigestBody(es))| < 0x1_0000_0000
  }

  lemma DigestBodyRoundTrip(es: seq<Entry>, digest: Digest)
    requires Enumerates(es, digest) && IsU16(|es|) && forall i :: 0 <= i < |es| ==> IsEntry(es[i])
    ensures GetDigestBody(DigestBody(es)) == Some(digest)
  {
    Widths();
    IntRoundTrip(|es|, 2, PutEntries(es));
    EntriesRoundTrip(es, map[], []);
    assert PutEntries(es) + [] == PutEntries(es);
  }

  /** Written in any order, a digest is read back as the same map. */
  lemma DigestRoundTrip(z: LawfulZstd, es: seq<Entry>, digest: Digest, suffix: Bytes)
    requires IsDigest(z, es, digest)
    ensures GetDigest(z, PutDigest(z, es) + suffix) == Some((digest, suffix))
  {
    var compressed := z.encodeAll(DigestBody(es));
    Widths();
    Associative(PutInt(|compressed|, 4), compressed, suffix);
    IntRoundTrip(|compressed|, 4, compressed + suffix);
    assert (compressed + suffix)[..|compressed|] == compressed && (compressed + suffix)[|compressed|..] == suffix;
    DigestBodyRoundTrip(es, digest);
  }

  /** `serialize_compressed`: appends to `buf`, taking the entries in some order. */
  method SerializeDigest(z: Zstd, digest: Digest, buf: Bytes) returns (out: Bytes, ghost es: seq<Entry>)
    ensures Enumerates(es, digest) && out == buf + PutDigest(z, es)
  {
    es := [];
    var entries: Bytes := [];
    var pending := digest.Keys;
    while pending != {}
      invariant pending <= digest.Keys
      invariant entries == PutEntries(es)
      invariant |es| + |pending| == |digest|
      invariant InsertAll(map[], es) == map id | id in digest && id !in pending :: digest[id]
      decreases pending
    {
      var id :| id in pending;
      InsertOneMore(map[], es, (id, digest[id]));
      assert (es + [(id, digest[id])])[..|es|] == es;
      pending := pending - {id};
      entries := entries + PutEntry((id, digest[id]));
      es := es + [(id, digest[id])];
    }
    var compressed := z.encodeAll(PutInt(|digest|, 2) + entries);
    Associative(buf, PutInt(|compressed|, 4), compressed);
    out := buf + PutInt(|compressed|, 4);
    out := out + compressed;
  }

  /** `deserialize_uncompressed`, after the number of entries. */
  method DeserializeEntries(buf: Bytes, num: nat) returns (digest: Option<Digest>)
    ensures digest == match GetEntries(buf, num, map[]) case None => None case Some((d, _)) => Some(d)
  {
    var cursor := buf;
    var nodeDigests: Digest := map[];
    for i := 0 to num
      invariant GetEntries(buf, num, map[]) == GetEntries(cursor, num - i, nodeDigests)
    {
      var entry := GetEntry(cursor);
      if entry.None? {
        return None;
      }
      nodeDigests := nodeDigests[entry.value.0.0 := entry.value.0.1];
      cursor := entry.value.1;
    }
    return Some(nodeDigests);
  }

  method DeserializeDigestBody(body: Bytes) returns (digest: Option<Digest>)
    ensures digest == GetDigestBody(body)
  {
    var count := GetInt(body, 2);
    if count.None? {
      return None;
    }
    digest := DeserializeEntries(count.value.1, count.value.0);
  }

  // ----- messages -----

  const MAGIC_NUMBER := 45139
  const HEADER_LEN := 4

  function Header(kind: byte): Bytes { PutInt(MAGIC_NUMBER, 2) + ([0] + [kind]) }

  lemma HeaderLength(kind: byte)
    ensures |Header(kind)| == HEADER_LEN
  {
    Widths();
  }

  /** The message, its digest being written in the order `es`. */
  function PutMessage(z: Zstd, msg: Message, es: seq<Entry>): Bytes {
    match msg
    case Syn(clusterId, _) => Header(0) + (PutDigest(z, es) + PutText(clusterId))
    case SynAck(_, delta) => Header(1) + (PutDigest(z, es) + DeltaPayload(z, delta.nodeDeltas))
    case Ack(delta) => Header(2) + DeltaPayload(z, delta.nodeDeltas)
    case BadCluster => Header(3)
  }

  function GetSyn(z: Zstd, buf: Bytes): Parsed<Message> {
    match GetDigest(z, buf)
    case None => None
    case Some((digest, rest)) =>
      match GetText(rest)
      case None => None
      case Some((clusterId, tail)) => Some((Syn(clusterId, digest), tail))
  }

  function GetSynAck(z: Zstd, buf: Bytes): Parsed<Message> {
    match GetDigest(z, buf)
    case None => None
    case Some((digest, rest)) =>
      match GetDelta(z, rest)
      case None => None
      case Some((delta, tail)) => Some((SynAck(digest, delta), tail))
  }

  function GetAck(z: Zstd, buf: Bytes): Parsed<Message> {
    match GetDelta(z, buf)
    case None => None
    case Some((delta, tail)) => Some((Ack(delta), tail))
  }

  function GetMessage(z: Zstd, buf: Bytes): Parsed<Message> {
    if |buf| < 3 || FromLittleEndian(buf[..2]) != MAGIC_NUMBER || buf[2] != 0 || |buf| < 4 then None
    else if buf[3] == 0 then GetSyn(z, buf[4..])
    else if buf[3] == 1 then GetSynAck(z, buf[4..])
    else if buf[3] == 2 then GetAck(z, buf[4..])
    else if buf[3] == 3 then Some((BadCluster, buf[4..]))
    else None
  }

  /** A message that the source can write: its parts fit their length fields, and the recorded length of its
      delta is the length of the payload, as the source asserts. */
  ghost predicate IsMessage(z: Zstd, msg: Message, es: seq<Entry>) {
    match msg
    case Syn(clusterId, digest) => IsText(clusterId) && IsDigest(z, es, digest)
    case SynAck(digest, delta) =>
      IsDigest(z, es, digest) && IsDelta(delta.nodeDeltas) && delta.serializedLen == |DeltaPayload(z, delta.nodeDeltas)|
    case Ack(delta) => IsDelta(delta.nodeDeltas) && delta.serializedLen == |DeltaPayload(z, delta.nodeDeltas)|
    case BadCluster => true
  }

  /** Whatever bytes a delta is read from, it is well-formed. */
  lemma ReadDeltaIsWellFormed(z: Zstd, buf: Bytes)
    ensures GetDelta(z, buf).Some? ==> WellFormed(GetDelta(z, buf).value.0.nodeDeltas)
  {
    hide ApplyOps, DecodeStream, WellFormed;
    match DecodeStream(OP_CODEC, z, buf)
    case None =>
    case Some((ops, _)) =>
      if ApplyOps(ops).Some? {
        BuiltIsWellFormed(ops);
      }
  }

  /** So is the delta of any message that is read. */
  lemma ReadMessageIsWellFormed(z: Zstd, buf: Bytes)
    requires GetMessage(z, buf).Some?
    ensures var msg := GetMessage(z, buf).value.0;
            msg.SynAck? || msg.Ack? ==> WellFormed(msg.delta.nodeDeltas)
  {
    hide GetDelta, GetDigest, WellFormed;
    var rest := buf[4..];
    ReadDeltaIsWellFormed(z, rest);
    match GetDigest(z, rest)
    case None =>
    case Some((_, tail)) => ReadDeltaIsWellFormed(z, tail);
  }

  lemma HeaderIsRead(kind: byte, body: Bytes)
    ensures var buf := Header(kind) + body;
            && |buf| >= 4 && FromLittleEndian(buf[..2]) == MAGIC_NUMBER
            && buf[2] == 0 && buf[3] == kind && buf[4..] == body
  {
    Widths();
    LittleEndianRoundTrip(MAGIC_NUMBER, 2);
    var buf := Header(kind) + body;
    assert buf[..2] == PutInt(MAGIC_NUMBER, 2);
  }

  /** Every message comes back as it was written, and whatever follows it is left alone. */
  lemma MessageRoundTrip(z: LawfulZstd, msg: Message, es: seq<Entry>, suffix: Bytes)
    requires IsMessage(z, msg, es)
    ensures GetMessage(z, PutMessage(z, msg, es) + suffix) == Some((msg, suffix))
  {
    match msg
    case Syn(clusterId, digest) =>
      var d, t := PutDigest(z, es), PutText(clusterId);
      Associative(Header(0), d + t, suffix);
      Associative(d, t, suffix);
      HeaderIsRead(0, d + (t + suffix));
      DigestRoundTrip(z, es, digest, t + suffix);
      TextRoundTrip(clusterId, suffix);
    case SynAck(digest, delta) =>
      var d, t := PutDigest(z, es), DeltaPayload(z, delta.nodeDeltas);
      Associative(Header(1), d + t, suffix);
      Associative(d, t, suffix);
      HeaderIsRead(1, d + (t + suffix));
      DigestRoundTrip(z, es, digest, t + suffix);
      DeltaRoundTrip(z, delta.nodeDeltas, suffix);
    case Ack(delta) =>
      var t := DeltaPayload(z, delta.nodeDeltas);
      Associative(Header(2), t, suffix);
      HeaderIsRead(2, t + suffix);
      DeltaRoundTrip(z, delta.nodeDeltas, suffix);
    case BadCluster =>
      HeaderIsRead(3, suffix);
  }

  // ----- the bytes -----

  lemma IntLayout(n: nat, width: nat)
    requires n < Pow256(width)
    ensures |PutInt(n, width)| == width && FromLittleEndian(PutInt(n, width)) == n
  {
    LittleEndianRoundTrip(n, width);
  }

  /** Where the parts of an identifier are. */
  lemma IdLayout(id: ChitchatId)
    requires IsId(id)
    ensures var b, n, m := PutId(id), |id.nodeId|, |id.gossipAddr.ip.octets|;
            && |b| == 13 + n + m
            && FromLittleEndian(b[..2]) == n && b[2..2 + n] == id.nodeId
            && FromLittleEndian(b[2 + n..10 + n]) == id.generationId
            && b[10 + n] == (if id.gossipAddr.ip.V4? then 4 else 6) && b[11 + n..11 + n + m] == id.gossipAddr.ip.octets
            && FromLittleEndian(b[11 + n + m..]) == id.gossipAddr.port
  {
    Widths();
    var b, n, m := PutId(id), |id.nodeId|, |id.gossipAddr.ip.octets|;
    IntLayout(n, 2);
    IntLayout(id.generationId, 8);
    IntLayout(id.gossipAddr.port, 2);
    hide PutInt;
    assert b[..2] == PutInt(n, 2) && b[2 + n..10 + n] == PutInt(id.generationId, 8);
    assert b[11 + n + m..] == PutInt(id.gossipAddr.port, 2);
  }

  /** Where the parts of an entry of a digest are. */
  lemma EntryLayout(e: Entry)
    requires IsEntry(e)
    ensures var b, n := PutEntry(e), |PutId(e.0)|;
            && |b| == n + 24 && b[..n] == PutId(e.0) && FromLittleEndian(b[n..n + 8]) == e.1.heartbeat
            && FromLittleEndian(b[n + 8..n + 16]) == e.1.lastGcVersion
            && FromLittleEndian(b[n + 16..]) == e.1.maxVersion
  {
    Widths();
    IntLayout(e.1.heartbeat, 8);
    IntLayout(e.1.lastGcVersion, 8);
    IntLayout(e.1.maxVersion, 8);
    FourParts(PutId(e.0), PutInt(e.1.heartbeat, 8), PutInt(e.1.lastGcVersion, 8), PutInt(e.1.maxVersion, 8));
  }

  lemma FourParts(a: Bytes, b: Bytes, c: Bytes, d: Bytes)
    ensures var all, n := a + (b + (c + d)), |a|;
            && all[..n] == a && all[n..n + |b|] == b
            && all[n + |b|..n + |b| + |c|] == c && all[n + |b| + |c|..] == d
  {
  }

  /** Where the parts of each operation are, after its tag. */
  lemma NodeOpLayout(id: ChitchatId, gc: Version, from: Version)
    requires IsOp(OpNode(id, gc, from))
    ensures var b, n := PutOp(OpNode(id, gc, from)), 1 + |PutId(id)|;
            && |b| == n + 16 && b[0] == 0 && b[1..n] == PutId(id)
            && FromLittleEndian(b[n..n + 8]) == gc && FromLittleEndian(b[n + 8..]) == from
  {
    Widths();
    var b, n := PutOp(OpNode(id, gc, from)), 1 + |PutId(id)|;
    IntLayout(gc, 8);
    IntLayout(from, 8);
    hide PutInt, PutId;
    assert b[n..n + 8] == PutInt(gc, 8) && b[n + 8..] == PutInt(from, 8);
  }

  lemma MaxVersionLayout(v: Version)
    requires IsOp(OpSetMaxVersion(v))
    ensures var b := PutOp(OpSetMaxVersion(v)); |b| == 9 && b[0] == 2 && FromLittleEndian(b[1..]) == v
  {
    Widths();
    IntLayout(v, 8);
    assert PutOp(OpSetMaxVersion(v))[1..] == PutInt(v, 8);
  }

  lemma KeyValueLayout(m: KeyValueMutation)
    requires IsMutation(m)
    ensures var b, n, k := PutOp(OpKeyValue(m)), |m.key|, |m.value|;
            && |b| == n + k + 14 && b[0] == 1
            && FromLittleEndian(b[1..3]) == n && b[3..3 + n] == m.key
            && FromLittleEndian(b[3 + n..5 + n]) == k && b[5 + n..5 + n + k] == m.value
            && FromLittleEndian(b[5 + n + k..13 + n + k]) == m.version
            && b[13 + n + k] == (if m.status.MutationSet? then 0 else if m.status.MutationDelete? then 1 else 2)
  {
    Widths();
    var b, n, k := PutOp(OpKeyValue(m)), |m.key|, |m.value|;
    IntLayout(n, 2);
    IntLayout(k, 2);
    IntLayout(m.version, 8);
    hide PutInt;
    assert b[1..3] == PutInt(n, 2) && b[3 + n..5 + n] == PutInt(k, 2);
    assert b[5 + n + k..13 + n + k] == PutInt(m.version, 8);
  }

  /** Every message begins with the magic number 45139, version 0 and its kind; a digest comes next. */
  lemma MessageLayout(z: Zstd, msg: Message, es: seq<Entry>)
    ensures var b := PutMessage(z, msg, es);
            && |b| >= 4 && b[..3] == [0x53, 0xB0, 0]
            && b[3] == (match msg case Syn(_, _) => 0 case SynAck(_, _) => 1 case Ack(_) => 2 case BadCluster => 3)
            && (msg.Syn? || msg.SynAck? ==> PutDigest(z, es) <= b[4..])
  {
    hide PutDigest, DeltaPayload;
    assert PutInt(MAGIC_NUMBER, 2) == [0x53] + LittleEndian(0xB0, 1);
    assert LittleEndian(0xB0, 1) == [0xB0] + LittleEndian(0, 0);
  }

  // ----- nothing else is read -----

  lemma {:induction false} LittleEndianReadBack(b: Bytes)
    ensures LittleEndian(FromLittleEndian(b), |b|) == b
  {
    if b != [] {
      LittleEndianReadBack(b[1..]);
      assert b == [b[0]] + b[1..];
    }
  }

  lemma IntReadBack(buf: Bytes, width: nat)
    ensures var r := GetInt(buf, width); r.Some? ==> buf == PutInt(r.value.0, width) + r.value.1
  {
    if |buf| >= width {
      LittleEndianReadBack(buf[..width]);
      assert buf == buf[..width] + buf[width..];
    }
  }

  lemma TextReadBack(buf: Bytes)
    ensures var r := GetText(buf); r.Some? ==> buf == PutText(r.value.0) + r.value.1
  {
    if |buf| >= 2 {
      LittleEndianReadBack(buf[..2]);
      var len := FromLittleEndian(buf[..2]);
      if |buf| >= 2 + len {
        assert buf == buf[..2] + buf[2..2 + len] + buf[2 + len..];
      }
    }
  }

  lemma IpReadBack(buf: Bytes)
    ensures var r := GetIp(buf); r.Some? ==> buf == PutIp(r.value.0) + r.value.1 && IsIp(r.value.0)
  {
  }

  /** Whatever is read as an identifier is what would be written for it. */
  lemma IdReadBack(buf: Bytes)
    ensures var r := GetId(buf); r.Some? ==> buf == PutId(r.value.0) + r.value.1
  {
    hide GetText, GetInt, GetIp, PutText, PutInt, PutIp;
    TextReadBack(buf);
    if GetText(buf).Some? {
      var b1 := GetText(buf).value.1;
      IntReadBack(b1, 8);
      if GetInt(b1, 8).Some? {
        var b2 := GetInt(b1, 8).value.1;
        IpReadBack(b2);
        if GetIp(b2).Some? {
          IntReadBack(GetIp(b2).value.1, 2);
        }
      }
    }
  }

  lemma MutationReadBack(buf: Bytes)
    ensures var r := GetMutation(buf); r.Some? ==> buf == PutMutation(r.value.0) + r.value.1
  {
    hide GetText, GetInt, PutText, PutInt;
    TextReadBack(buf);
    if GetText(buf).Some? {
      var b1 := GetText(buf).value.1;
      TextReadBack(b1);
      if GetText(b1).Some? {
        var b2 := GetText(b1).value.1;
        IntReadBack(b2, 8);
        if GetInt(b2, 8).Some? && GetStatus(GetInt(b2, 8).value.1).Some? {
          var b3 := GetInt(b2, 8).value.1;
          assert b3 == [b3[0]] + b3[1..];
        }
      }
    }
  }

  lemma NodeOpReadBack(buf: Bytes)
    ensures var r := GetNodeOp(buf); r.Some? ==> r.value.0.OpNode? && [0] + buf == PutOp(r.value.0) + r.value.1
  {
    hide GetId, GetInt, PutId, PutInt;
    IdReadBack(buf);
    if GetId(buf).Some? {
      var b1 := GetId(buf).value.1;
      IntReadBack(b1, 8);
      if GetInt(b1, 8).Some? {
        IntReadBack(GetInt(b1, 8).value.1, 8);
      }
    }
  }

  /** Whatever is read as an operation is what would be written for it; anything else is refused. */
  lemma OpReadBack(buf: Bytes)
    ensures var r := GetOp(buf); r.Some? ==> buf == PutOp(r.value.0) + r.value.1
  {
    if buf != [] {
      assert buf == [buf[0]] + buf[1..];
      NodeOpReadBack(buf[1..]);
      MutationReadBack(buf[1..]);
      IntReadBack(buf[1..], 8);
      hide GetNodeOp, GetMutation, GetInt, PutId, PutMutation, PutInt;
    }
  }

  /** Whatever is read as a delta, its operations are written in the blocks that were read. */
  lemma DeltaReadBack(z: Zstd, buf: Bytes) returns (blocks: seq<Block>, ops: seq<DeltaOp>)
    requires GetDelta(z, buf).Some?
    ensures var (delta, rest) := GetDelta(z, buf).value;
            && buf == Laid(blocks) + rest && delta.serializedLen == |Laid(blocks)|
            && (forall i :: 0 <= i < |blocks| ==> IsBlock(z, blocks[i]))
            && DataOf(blocks) == EncodeAll(OP_CODEC, ops)
            && ApplyOps(ops).Some? && delta.nodeDeltas == ApplyOps(ops).value.Flushed()
  {
    hide GetOp, PutOp, Laid, DataOf, DecodeBlocks, ApplyOps, IsBlock;
    blocks := BlocksReadBack(z, buf);
    var (raw, rest) := DecodeBlocks(z, buf).value;
    ops := DecodeAll(OP_CODEC, raw).value;
    forall b | OP_CODEC.decode(b).Some?
      ensures b == OP_CODEC.encode(OP_CODEC.decode(b).value.0) + OP_CODEC.decode(b).value.1
    {
      OpReadBack(b);
    }
    ItemsReadBack(OP_CODEC, raw);
  }

  lemma EntryReadBack(buf: Bytes)
    ensures var r := GetEntry(buf); r.Some? ==> buf == PutEntry(r.value.0) + r.value.1
  {
    hide GetId, GetInt, PutId, PutInt;
    IdReadBack(buf);
    if GetId(buf).Some? {
      var b1 := GetId(buf).value.1;
      IntReadBack(b1, 8);
      if GetInt(b1, 8).Some? {
        var b2 := GetInt(b1, 8).value.1;
        IntReadBack(b2, 8);
        if GetInt(b2, 8).Some? {
          IntReadBack(GetInt(b2, 8).value.1, 8);
        }
      }
    }
  }

  /** Only bytes that begin with the magic number, version 0 and a known kind are read, as a message of that kind. */
  lemma HeaderIsChecked(z: Zstd, buf: Bytes)
    ensures GetMessage(z, buf).Some? ==>
              && |buf| >= 4 && buf[..3] == [0x53, 0xB0, 0]
              && match GetMessage(z, buf).value.0
                 case Syn(_, _) => buf[3] == 0
                 case SynAck(_, _) => buf[3] == 1
                 case Ack(_) => buf[3] == 2
                 case BadCluster => buf[3] == 3
  {
    hide GetDigest, GetDelta, GetText;
    if GetMessage(z, buf).Some? {
      LittleEndianReadBack(buf[..2]);
      assert LittleEndian(45139, 2) == [0x53] + LittleEndian(0xB0, 1);
      assert LittleEndian(0xB0, 1) == [0xB0] + LittleEndian(0, 0);
      assert buf[..3] == buf[..2] + [buf[2]];
    }
  }

  /** A digest whose body is cut off, or cannot be decompressed, is refused. */
  lemma BrokenDigestIsRefused(z: Zstd, len: nat, body: Bytes)
    requires len < 0x1_0000_0000 && (|body| < len || z.decodeAll(body[..len]).None?)
    ensures GetDigest(z, PutInt(len, 4) + body).None?
  {
    Widths();
    IntRoundTrip(len, 4, body);
  }
}
