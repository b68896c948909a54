/** The compressed stream under every delta (chitchat/src/serialize.rs): items are concatenated, cut into blocks
without regard to item boundaries, and each block is stored compressed if that fits, raw otherwise. */
module Streams {
  import opened ChitchatTypes

  const U16_MAX := 65535

  // ----- little-endian integers -----

  function Pow256(width: nat): (p: nat)
    ensures p > 0
  {
    if width == 0 then 1 else 256 * Pow256(width - 1)
  }

  /** `to_le_bytes` of the low `width` bytes. */
  function LittleEndian(n: nat, width: nat): (b: Bytes)
    ensures |b| == width
  {
    if width == 0 then [] else [n % 256] + LittleEndian(n / 256, width - 1)
  }

  function FromLittleEndian(b: Bytes): nat {
    if b == [] then 0 else b[0] + 256 * FromLittleEndian(b[1..])
  }

  lemma {:induction false} LittleEndianRoundTrip(n: nat, width: nat)
    requires n < Pow256(width)
    ensures FromLittleEndian(LittleEndian(n, width)) == n
  {
    if width > 0 {
      LittleEndianRoundTrip(n / 256, width - 1);
      assert LittleEndian(n, width)[1..] == LittleEndian(n / 256, width - 1);
    }
  }

  // ----- zstd -----

  /** zstd as functions: `compress` into a buffer of the given capacity, `decompress` into one, and the two
      whole-input forms. */
  datatype Zstd = Zstd(
    compress: (Bytes, nat) -> Option<Bytes>,
    decompress: (Bytes, nat) -> Option<Bytes>,
    encodeAll: Bytes -> Bytes,
    decodeAll: Bytes -> Option<Bytes>)
  {
    /** What is relied on: output fits the buffer, and decompression undoes compression. */
    ghost predicate Lawful() {
      && (forall x, cap {:trigger compress(x, cap)} :: compress(x, cap).Some? ==>
            && |compress(x, cap).value| <= cap
            && forall room {:trigger decompress(compress(x, cap).value, room)} ::
                 |x| <= room ==> decompress(compress(x, cap).value, room) == Some(x))
      && (forall x {:trigger encodeAll(x)} :: decodeAll(encodeAll(x)) == Some(x))
    }
  }

  /** A compressor that never manages to compress. */
  const STORE_ONLY := Zstd((x, cap) => None, (x, cap) => None, x => x, x => Some(x))

  type LawfulZstd = z: Zstd | z.Lawful() ghost witness STORE_ONLY

  // ----- the written form -----

  function Prefixed(tag: byte, block: Bytes): Bytes {
    [tag] + LittleEndian(|block|, 2) + block
  }

  function EncodeBlock(z: Zstd, chunk: Bytes): Bytes {
    match z.compress(chunk, |chunk|)
    case Some(c) => Prefixed(1, c)
    case None => Prefixed(2, chunk)
  }

  /** The blocks cut off so far, and what is still pending, after the bytes `raw` have been appended. */
  function FullBlocks(z: Zstd, threshold: nat, raw: Bytes): Bytes
    requires threshold >= 1
  {
    if |raw| <= threshold then []
    else EncodeBlock(z, raw[..threshold]) + FullBlocks(z, threshold, raw[threshold..])
  }

  function Pending(threshold: nat, raw: Bytes): (rest: Bytes)
    requires threshold >= 1
    ensures |rest| <= threshold && |rest| <= |raw|
  {
    if |raw| <= threshold then raw else Pending(threshold, raw[threshold..])
  }

  function LastBlock(z: Zstd, rest: Bytes): Bytes {
    (if rest == [] then [] else EncodeBlock(z, rest)) + [0]
  }

  /** The finished stream: it depends on the appended bytes only, not on how they were split into items. */
  function Finished(z: Zstd, threshold: nat, raw: Bytes): Bytes
    requires threshold >= 1
  {
    FullBlocks(z, threshold, raw) + LastBlock(z, Pending(threshold, raw))
  }

  /** Up to a threshold of bytes make one block: compressed, if the compressor manages to, and as they are otherwise. */
  lemma ShortStream(z: Zstd, threshold: nat, raw: Bytes)
    requires threshold >= 1 && |raw| <= threshold
    ensures var c := z.compress(raw, |raw|);
            Finished(z, threshold, raw) ==
            if raw == [] then [0]
            else if c.Some? then [1, |c.value| % 256, |c.value| / 256 % 256] + c.value + [0]
            else [2, |raw| % 256, |raw| / 256 % 256] + raw + [0]
  {
    ShortPrefix(1, if z.compress(raw, |raw|).Some? then z.compress(raw, |raw|).value else []);
    ShortPrefix(2, raw);
    hide Prefixed;
  }

  lemma ShortPrefix(tag: byte, block: Bytes)
    ensures Prefixed(tag, block) == [tag, |block| % 256, |block| / 256 % 256] + block
  {
    var n := |block|;
    assert LittleEndian(n, 2) == [n % 256] + LittleEndian(n / 256, 1);
    assert LittleEndian(n / 256, 1) == [n / 256 % 256] + LittleEndian(n / 256 / 256, 0);
  }

  lemma Associative(a: Bytes, b: Bytes, c: Bytes)
    ensures (a + b) + c == a + (b + c)
  {
  }

  lemma CutFirst(z: Zstd, threshold: nat, raw: Bytes)
    requires threshold >= 1
    ensures |raw| <= threshold ==> FullBlocks(z, threshold, raw) == [] && Pending(threshold, raw) == raw
    ensures |raw| > threshold ==>
              && FullBlocks(z, threshold, raw)
                 == EncodeBlock(z, raw[..threshold]) + FullBlocks(z, threshold, raw[threshold..])
              && Pending(threshold, raw) == Pending(threshold, raw[threshold..])
  {
    hide EncodeBlock;
  }

  /** Appending commutes with cutting. */
  lemma {:induction false} CutAfterAppend(z: Zstd, threshold: nat, raw: Bytes, more: Bytes)
    requires threshold >= 1
    ensures FullBlocks(z, threshold, raw + more)
            == FullBlocks(z, threshold, raw) + FullBlocks(z, threshold, Pending(threshold, raw) + more)
    decreases |raw|
  {
    hide FullBlocks, Pending, EncodeBlock;
    CutFirst(z, threshold, raw);
    if |raw| <= threshold {
      assert [] + FullBlocks(z, threshold, raw + more) == FullBlocks(z, threshold, raw + more);
    } else {
      CutFirst(z, threshold, raw + more);
      var rest := raw[threshold..];
      CutAfterAppend(z, threshold, rest, more);
      assert (raw + more)[..threshold] == raw[..threshold];
      assert (raw + more)[threshold..] == rest + more;
      Associative(EncodeBlock(z, raw[..threshold]), FullBlocks(z, threshold, rest),
                  FullBlocks(z, threshold, Pending(threshold, rest) + more));
    }
  }

  lemma {:induction false} PendingAfterAppend(threshold: nat, raw: Bytes, more: Bytes)
    requires threshold >= 1
    ensures Pending(threshold, raw + more) == Pending(threshold, Pending(threshold, raw) + more)
    decreases |raw|
  {
    if |raw| > threshold {
      PendingAfterAppend(threshold, raw[threshold..], more);
      assert (raw + more)[threshold..] == raw[threshold..] + more;
    }
  }

  // ----- the writer -----

  class CompressedStreamWriter {
    const zstd: Zstd
    const blockThreshold: nat
    var output: Bytes
    var uncompressedBlock: Bytes
    /** All bytes appended so far. */
    ghost var raw: Bytes

    ghost predicate Valid()
      reads this
    {
      && 1 <= blockThreshold <= U16_MAX
      && output == FullBlocks(zstd, blockThreshold, raw)
      && uncompressedBlock == Pending(blockThreshold, raw)
    }

    /** A threshold of 0 would make `append` loop forever. */
    constructor (zstd: Zstd, blockThreshold: nat)
      requires 1 <= blockThreshold <= U16_MAX
      ensures Valid() && raw == [] && this.zstd == zstd && this.blockThreshold == blockThreshold
    {
      this.zstd, this.blockThreshold := zstd, blockThreshold;
      output, uncompressedBlock, raw := [], [], [];
    }

    /** Moves the first `block_threshold` pending bytes, or all of them, to the output. */
    method FlushBlock()
      requires 1 <= blockThreshold
      modifies this`output, this`uncompressedBlock
      ensures old(uncompressedBlock) == [] ==> output == old(output) && uncompressedBlock == []
      ensures old(uncompressedBlock) != [] ==>
                var n := if |old(uncompressedBlock)| < blockThreshold then |old(uncompressedBlock)| else blockThreshold;
                && output == old(output) + EncodeBlock(zstd, old(uncompressedBlock)[..n])
                && uncompressedBlock == old(uncompressedBlock)[n..]
    {
      if uncompressedBlock == [] {
        return;
      }
      ghost var before := output;
      var numBytes := if |uncompressedBlock| < blockThreshold then |uncompressedBlock| else blockThreshold;
      match zstd.compress(uncompressedBlock[..numBytes], numBytes) {
      case Some(compressed) =>
        output := output + [1];
        output := output + LittleEndian(|compressed|, 2);
        output := output + compressed;
        assert output == before + Prefixed(1, compressed);
      case None =>
        output := output + [2];
        output := output + LittleEndian(numBytes, 2);
        output := output + uncompressedBlock[..numBytes];
        assert output == before + Prefixed(2, uncompressedBlock[..numBytes]);
      }
      uncompressedBlock := uncompressedBlock[numBytes..];
    }

    /** Items are at most `u16::MAX` bytes long: the source asserts it. */
    method Append(item: Bytes)
      requires Valid() && |item| <= U16_MAX
      modifies this
      ensures Valid() && raw == old(raw) + item
    {
      CutAfterAppend(zstd, blockThreshold, raw, item);
      PendingAfterAppend(blockThreshold, raw, item);
      raw := raw + item;
      uncompressedBlock := uncompressedBlock + item;
      while |uncompressedBlock| > blockThreshold
        invariant raw == old(raw) + item
        invariant output + FullBlocks(zstd, blockThreshold, uncompressedBlock) == FullBlocks(zstd, blockThreshold, raw)
        invariant Pending(blockThreshold, uncompressedBlock) == Pending(blockThreshold, raw)
        decreases |uncompressedBlock|
      {
        Associative(output, EncodeBlock(zstd, uncompressedBlock[..blockThreshold]),
                    FullBlocks(zstd, blockThreshold, uncompressedBlock[blockThreshold..]));
        FlushBlock();
      }
    }

    method Finish() returns (stream: Bytes)
      requires Valid()
      modifies this
      ensures stream == Finished(zstd, blockThreshold, raw) && raw == old(raw)
    {
      FlushBlock();
      output := output + [0];
      stream := output;
      assert Pending(blockThreshold, raw)[..|Pending(blockThreshold, raw)|] == Pending(blockThreshold, raw);
    }

    /** `serialized_len_upperbound_after`; items are never empty. */
    function UpperboundAfter(itemLen: nat): nat
      requires itemLen > 0
      reads this
    {
      Upperbound(|output|, |uncompressedBlock|, itemLen, blockThreshold)
    }
  }

  // ----- reading the blocks back -----

  /** Splits off `tag`-less block bytes: a 16-bit length and that many bytes. */
  function TakePrefixed(buf: Bytes): Option<(Bytes, Bytes)> {
    if |buf| < 2 then None
    else
      var len := FromLittleEndian(buf[..2]);
      if |buf| < 2 + len then None else Some((buf[2..2 + len], buf[2 + len..]))
  }

  function Prepend(data: Bytes, decoded: Option<(Bytes, Bytes)>): Option<(Bytes, Bytes)> {
    match decoded
    case None => None
    case Some((more, rest)) => Some((data + more, rest))
  }

  lemma PrependLaws(a: Bytes, b: Bytes, decoded: Option<(Bytes, Bytes)>)
    ensures Prepend([], decoded) == decoded
    ensures Prepend(a, Prepend(b, decoded)) == Prepend(a + b, decoded)
  {
    if decoded.Some? {
      Associative(a, b, decoded.value.0);
      assert [] + decoded.value.0 == decoded.value.0;
    }
  }

  /** The decompressed bytes of all blocks, and what follows the end marker. */
  function DecodeBlocks(z: Zstd, buf: Bytes): Option<(Bytes, Bytes)>
    decreases |buf|
  {
    if buf == [] then None
    else if buf[0] == 0 then Some(([], buf[1..]))
    else if buf[0] == 1 || buf[0] == 2 then
      match TakePrefixed(buf[1..])
      case None => None
      case Some((block, rest)) =>
        match (if buf[0] == 1 then z.decompress(block, U16_MAX) else Some(block)) {
          case None => None
          case Some(data) => Prepend(data, DecodeBlocks(z, rest))
        }
    else None
  }

  lemma PrefixedIsTaken(tag: byte, block: Bytes, suffix: Bytes)
    requires |block| <= U16_MAX
    ensures var buf := Prefixed(tag, block) + suffix;
            buf[0] == tag && TakePrefixed(buf[1..]) == Some((block, suffix))
  {
    var buf := Prefixed(tag, block) + suffix;
    assert Pow256(2) == 65536;
    LittleEndianRoundTrip(|block|, 2);
    var len := LittleEndian(|block|, 2);
    assert buf[1..] == len + (block + suffix);
    assert buf[1..][..2] == len;
    assert buf[1..][2..2 + |block|] == block;
    assert buf[1..][2 + |block|..] == suffix;
  }

  lemma BlockIsDecoded(z: LawfulZstd, chunk: Bytes, suffix: Bytes)
    requires |chunk| <= U16_MAX
    ensures DecodeBlocks(z, EncodeBlock(z, chunk) + suffix) == Prepend(chunk, DecodeBlocks(z, suffix))
  {
    match z.compress(chunk, |chunk|)
    case Some(c) =>
      assert z.decompress(c, U16_MAX) == Some(chunk);
      PrefixedIsTaken(1, c, suffix);
    case None =>
      PrefixedIsTaken(2, chunk, suffix);
  }

  lemma LastBlockIsDecoded(z: LawfulZstd, threshold: nat, raw: Bytes, suffix: Bytes)
    requires |raw| <= threshold <= U16_MAX && 1 <= threshold
    ensures DecodeBlocks(z, Finished(z, threshold, raw) + suffix) == Some((raw, suffix))
  {
    var end := [0] + suffix;
    assert end[1..] == suffix;
    assert DecodeBlocks(z, end) == Some(([], suffix));
    if raw == [] {
      assert Finished(z, threshold, raw) + suffix == end;
    } else {
      assert Finished(z, threshold, raw) + suffix == EncodeBlock(z, raw) + end;
      BlockIsDecoded(z, raw, end);
      assert raw + [] == raw;
    }
  }

  /** Whatever was appended, and wherever the blocks were cut, reading the finished stream followed by any
      other bytes gives back the appended bytes and leaves exactly those other bytes. */
  lemma {:induction false} BlocksRoundTrip(z: LawfulZstd, threshold: nat, raw: Bytes, suffix: Bytes)
    requires 1 <= threshold <= U16_MAX
    ensures DecodeBlocks(z, Finished(z, threshold, raw) + suffix) == Some((raw, suffix))
    decreases |raw|
  {
    hide DecodeBlocks, Finished, EncodeBlock;
    if |raw| <= threshold {
      LastBlockIsDecoded(z, threshold, raw, suffix);
    } else {
      var head, rest := raw[..threshold], raw[threshold..];
      BlocksRoundTrip(z, threshold, rest, suffix);
      BlockIsDecoded(z, head, Finished(z, threshold, rest) + suffix);
      FinishedUnfolds(z, threshold, raw);
      Associative(EncodeBlock(z, head), Finished(z, threshold, rest), suffix);
      assert raw == head + rest;
    }
  }

  lemma FinishedUnfolds(z: Zstd, threshold: nat, raw: Bytes)
    requires 1 <= threshold < |raw|
    ensures Finished(z, threshold, raw) == EncodeBlock(z, raw[..threshold]) + Finished(z, threshold, raw[threshold..])
  {
    var rest := raw[threshold..];
    Associative(EncodeBlock(z, raw[..threshold]), FullBlocks(z, threshold, rest),
                LastBlock(z, Pending(threshold, rest)));
  }

  /** A block with its tag, and the bytes it stands for. */
  datatype Block = Block(tag: byte, bytes: Bytes, data: Bytes)

  ghost predicate IsBlock(z: Zstd, b: Block) {
    && |b.bytes| <= U16_MAX
    && ((b.tag == 1 && z.decompress(b.bytes, U16_MAX) == Some(b.data)) || (b.tag == 2 && b.data == b.bytes))
  }

  function Laid(blocks: seq<Block>): Bytes {
    if blocks == [] then [0] else Prefixed(blocks[0].tag, blocks[0].bytes) + Laid(blocks[1..])
  }

  function DataOf(blocks: seq<Block>): Bytes {
    if blocks == [] then [] else blocks[0].data + DataOf(blocks[1..])
  }

  lemma PrefixedReadBack(buf: Bytes)
    requires buf != [] && TakePrefixed(buf[1..]).Some?
    ensures var (block, rest) := TakePrefixed(buf[1..]).value;
            |block| <= U16_MAX && buf == Prefixed(buf[0], block) + rest && |rest| < |buf|
  {
    var b := buf[1..];
    LittleEndianOfTwo(b[..2]);
    var len := FromLittleEndian(b[..2]);
    assert buf == [buf[0]] + (b[..2] + (b[2..2 + len] + b[2 + len..]));
  }

  lemma LittleEndianOfTwo(b: Bytes)
    requires |b| == 2
    ensures FromLittleEndian(b) <= U16_MAX && LittleEndian(FromLittleEndian(b), 2) == b
  {
    assert FromLittleEndian(b[1..]) == b[1] + 256 * FromLittleEndian(b[1..][1..]);
    assert LittleEndian(b[1] as nat, 1) == [b[1]] + LittleEndian(0, 0);
    assert b == [b[0]] + [b[1]];
  }

  lemma FirstBlock(z: Zstd, buf: Bytes) returns (b: Block, rest: Bytes)
    requires DecodeBlocks(z, buf).Some? && buf[0] != 0
    ensures IsBlock(z, b) && buf == Prefixed(b.tag, b.bytes) + rest && |rest| < |buf|
    ensures DecodeBlocks(z, buf) == Prepend(b.data, DecodeBlocks(z, rest))
  {
    PrefixedReadBack(buf);
    hide TakePrefixed, Prefixed;
    var (block, tail) := TakePrefixed(buf[1..]).value;
    rest := tail;
    b := Block(buf[0], block, if buf[0] == 1 then z.decompress(block, U16_MAX).value else block);
  }

  lemma LaidUnfolds(b: Block, more: seq<Block>)
    ensures Laid([b] + more) == Prefixed(b.tag, b.bytes) + Laid(more) && DataOf([b] + more) == b.data + DataOf(more)
  {
    assert ([b] + more)[1..] == more;
  }

  lemma EndMarker(z: Zstd, buf: Bytes)
    requires DecodeBlocks(z, buf).Some?
    ensures buf != []
    ensures buf[0] == 0 ==> DecodeBlocks(z, buf) == Some((DataOf([]), buf[1..])) && buf == Laid([]) + buf[1..]
  {
    assert buf == [buf[0]] + buf[1..];
  }

  /** Nothing is read but blocks of the two kinds, of which the compressed ones can be decompressed, up to the end
      marker. */
  lemma {:induction false} BlocksReadBack(z: Zstd, buf: Bytes) returns (blocks: seq<Block>)
    requires DecodeBlocks(z, buf).Some?
    ensures forall i :: 0 <= i < |blocks| ==> IsBlock(z, blocks[i])
    ensures var (raw, rest) := DecodeBlocks(z, buf).value;
            buf == Laid(blocks) + rest && raw == DataOf(blocks)
    decreases |buf|
  {
    hide DecodeBlocks, Prefixed, IsBlock, Laid, DataOf;
    EndMarker(z, buf);
    if buf[0] == 0 {
      blocks := [];
    } else {
      var b, rest := FirstBlock(z, buf);
      var more := BlocksReadBack(z, rest);
      blocks := [b] + more;
      LaidUnfolds(b, more);
      Associative(Prefixed(b.tag, b.bytes), Laid(more), DecodeBlocks(z, rest).value.1);
    }
  }

  // ----- items -----

  /** How one kind of item is written and read. */
  datatype Codec<!T> = Codec(encode: T -> Bytes, decode: Bytes -> Option<(T, Bytes)>)
  {
    /** Reading undoes writing, whatever follows, and no item is written as nothing. */
    ghost predicate Fits(x: T) {
      encode(x) != [] && forall suffix :: decode(encode(x) + suffix) == Some((x, suffix))
    }
  }

  function EncodeAll<T>(c: Codec<T>, items: seq<T>): Bytes {
    if items == [] then [] else EncodeAll(c, items[..|items| - 1]) + c.encode(items[|items| - 1])
  }

  /** Reads items until nothing is left; `None` on an item that cannot be read or that consumes nothing. */
  function DecodeAll<T>(c: Codec<T>, buf: Bytes): Option<seq<T>>
    decreases |buf|
  {
    if buf == [] then Some([])
    else
      match c.decode(buf)
      case None => None
      case Some((x, rest)) =>
        if |rest| >= |buf| then None else PrependItems([x], DecodeAll(c, rest))
  }

  function PrependItems<T>(items: seq<T>, decoded: Option<seq<T>>): Option<seq<T>> {
    match decoded
    case None => None
    case Some(more) => Some(items + more)
  }

  lemma PrependItemsLaws<T>(a: seq<T>, b: seq<T>, decoded: Option<seq<T>>)
    ensures PrependItems([], decoded) == decoded
    ensures PrependItems(a, PrependItems(b, decoded)) == PrependItems(a + b, decoded)
  {
    if decoded.Some? {
      assert (a + b) + decoded.value == a + (b + decoded.value);
      assert [] + decoded.value == decoded.value;
    }
  }

  lemma {:induction false} EncodeAllFront<T(!new)>(c: Codec<T>, x: T, xs: seq<T>)
    ensures EncodeAll(c, [x] + xs) == c.encode(x) + EncodeAll(c, xs)
  {
    if xs == [] {
      assert [x] + xs == [x];
      assert [x][..0] == [];
      assert EncodeAll(c, [x]) == [] + c.encode(x);
    } else {
      EncodeAllFront(c, x, xs[..|xs| - 1]);
      assert ([x] + xs)[..|[x] + xs| - 1] == [x] + xs[..|xs| - 1];
      Associative(c.encode(x), EncodeAll(c, xs[..|xs| - 1]), c.encode(xs[|xs| - 1]));
    }
  }

  lemma {:induction false} ItemsRoundTrip<T(!new)>(c: Codec<T>, items: seq<T>)
    requires forall i :: 0 <= i < |items| ==> c.Fits(items[i])
    ensures DecodeAll(c, EncodeAll(c, items)) == Some(items)
  {
    if items != [] {
      assert items == [items[0]] + items[1..];
      ItemsRoundTrip(c, items[1..]);
      EncodeAllFront(c, items[0], items[1..]);
      assert c.Fits(items[0]);
    }
  }

  /** The first loop of `deserialize_stream`. */
  method ReadBlocks(z: Zstd, buf: Bytes) returns (r: Option<(Bytes, Bytes)>)
    ensures r == DecodeBlocks(z, buf)
  {
    var cursor := buf;
    var data: Bytes := [];
    PrependLaws([], [], DecodeBlocks(z, buf));
    while cursor != [] && cursor[0] != 0
      invariant DecodeBlocks(z, buf) == Prepend(data, DecodeBlocks(z, cursor))
      decreases |cursor|
    {
      var tag := cursor[0];
      if tag != 1 && tag != 2 {
        return None;
      }
      var taken := TakePrefixed(cursor[1..]);
      if taken.None? {
        return None;
      }
      var block, rest := taken.value.0, taken.value.1;
      var chunk := if tag == 1 then z.decompress(block, U16_MAX) else Some(block);
      if chunk.None? {
        return None;
      }
      PrependLaws(data, chunk.value, DecodeBlocks(z, rest));
      data := data + chunk.value;
      cursor := rest;
    }
    if cursor == [] {
      return None;
    }
    assert data + [] == data;
    return Some((data, cursor[1..]));
  }

  /** The second loop. */
  method ReadItems<T>(c: Codec<T>, data: Bytes) returns (r: Option<seq<T>>)
    ensures r == DecodeAll(c, data)
  {
    var items: seq<T> := [];
    var cursor := data;
    PrependItemsLaws<T>([], [], DecodeAll(c, data));
    while cursor != []
      invariant DecodeAll(c, data) == PrependItems(items, DecodeAll(c, cursor))
      decreases |cursor|
    {
      var next := c.decode(cursor);
      if next.None? || |next.value.1| >= |cursor| {
        return None;
      }
      PrependItemsLaws(items, [next.value.0], DecodeAll(c, next.value.1));
      items := items + [next.value.0];
      cursor := next.value.1;
    }
    assert items + [] == items;
    return Some(items);
  }

  /** What `deserialize_stream` returns: the items, and the rest of the buffer. */
  function DecodeStream<T>(c: Codec<T>, z: Zstd, buf: Bytes): Option<(seq<T>, Bytes)> {
    match DecodeBlocks(z, buf)
    case None => None
    case Some((data, rest)) =>
      match DecodeAll(c, data)
      case None => None
      case Some(items) => Some((items, rest))
  }

  method DeserializeStream<T>(c: Codec<T>, z: Zstd, buf: Bytes) returns (r: Option<(seq<T>, Bytes)>)
    ensures r == DecodeStream(c, z, buf)
  {
    var blocks := ReadBlocks(z, buf);
    if blocks.None? {
      return None;
    }
    var items := ReadItems(c, blocks.value.0);
    if items.None? {
      return None;
    }
    return Some((items.value, blocks.value.1));
  }

  /** Any items through any writer, followed by anything, come back as they were. */
  lemma StreamRoundTrip<T(!new)>(c: Codec<T>, z: LawfulZstd, threshold: nat, items: seq<T>, suffix: Bytes)
    requires 1 <= threshold <= U16_MAX
    requires forall i :: 0 <= i < |items| ==> c.Fits(items[i])
    ensures DecodeStream(c, z, Finished(z, threshold, EncodeAll(c, items)) + suffix) == Some((items, suffix))
  {
    BlocksRoundTrip(z, threshold, EncodeAll(c, items), suffix);
    ItemsRoundTrip(c, items);
  }

  // ----- the length bound -----

  /** What `serialized_len_upperbound_after` computes from the lengths of the output, of the pending bytes and of
      the item. */
  function Upperbound(output: nat, pending: nat, item: nat, threshold: nat): nat {
    if pending + item > threshold then 3 + output + pending + 3 + item + 1 else 3 + output + pending + item + 1
  }

  lemma BlockLength(z: LawfulZstd, chunk: Bytes)
    ensures |EncodeBlock(z, chunk)| <= 3 + |chunk|
  {
  }

  lemma ShortStreamLength(z: LawfulZstd, threshold: nat, raw: Bytes)
    requires 1 <= threshold && |raw| <= 2 * threshold
    ensures |Finished(z, threshold, raw)| <= |raw| + (if |raw| > threshold then 7 else 4)
  {
    if |raw| <= threshold {
      BlockLength(z, raw);
    } else {
      FinishedUnfolds(z, threshold, raw);
      BlockLength(z, raw[..threshold]);
      BlockLength(z, raw[threshold..]);
    }
  }

  lemma FinishedAfterAppend(z: Zstd, threshold: nat, raw: Bytes, item: Bytes)
    requires 1 <= threshold
    ensures Finished(z, threshold, raw + item)
            == FullBlocks(z, threshold, raw) + Finished(z, threshold, Pending(threshold, raw) + item)
  {
    CutAfterAppend(z, threshold, raw, item);
    PendingAfterAppend(threshold, raw, item);
    var pending := Pending(threshold, raw) + item;
    Associative(FullBlocks(z, threshold, raw), FullBlocks(z, threshold, pending),
                LastBlock(z, Pending(threshold, pending)));
  }

  lemma LongStoredStream(threshold: nat, raw: Bytes)
    requires 1 <= threshold && 2 * threshold < |raw|
    ensures |Finished(STORE_ONLY, threshold, raw)| > |raw| + 7
  {
    var second := raw[threshold..];
    var third := second[threshold..];
    FinishedUnfolds(STORE_ONLY, threshold, raw);
    FinishedUnfolds(STORE_ONLY, threshold, second);
    StoredLength(threshold, third);
  }

  lemma {:induction false} StoredLength(threshold: nat, raw: Bytes)
    requires 1 <= threshold && raw != []
    ensures |Finished(STORE_ONLY, threshold, raw)| >= |raw| + 4
    decreases |raw|
  {
    if |raw| > threshold {
      FinishedUnfolds(STORE_ONLY, threshold, raw);
      StoredLength(threshold, raw[threshold..]);
    }
  }

  /** The bound holds, whatever the compressor manages, exactly when the pending bytes and the item together fit
      two blocks; when they do not, bytes that do not compress break it. */
  lemma UpperboundExact(threshold: nat, raw: Bytes, item: Bytes)
    requires 1 <= threshold && item != []
    ensures |Pending(threshold, raw)| + |item| <= 2 * threshold <==>
            forall z: LawfulZstd ::
              |Finished(z, threshold, raw + item)|
              <= Upperbound(|FullBlocks(z, threshold, raw)|, |Pending(threshold, raw)|, |item|, threshold)
  {
    var joined := Pending(threshold, raw) + item;
    if |joined| <= 2 * threshold {
      forall z: LawfulZstd
        ensures |Finished(z, threshold, raw + item)|
                <= Upperbound(|FullBlocks(z, threshold, raw)|, |Pending(threshold, raw)|, |item|, threshold)
      {
        FinishedAfterAppend(z, threshold, raw, item);
        ShortStreamLength(z, threshold, joined);
      }
    } else {
      var z: LawfulZstd := STORE_ONLY;
      FinishedAfterAppend(z, threshold, raw, item);
      LongStoredStream(threshold, joined);
      assert |Finished(z, threshold, raw + item)|
             > Upperbound(|FullBlocks(z, threshold, raw)|, |Pending(threshold, raw)|, |item|, threshold);
    }
  }

  /** An item of at most `block_threshold` bytes always fits. */
  lemma UpperboundForShortItem(z: LawfulZstd, threshold: nat, raw: Bytes, item: Bytes)
    requires 1 <= threshold && 0 < |item| && |Pending(threshold, raw)| + |item| <= 2 * threshold
    ensures |Finished(z, threshold, raw + item)|
            <= Upperbound(|FullBlocks(z, threshold, raw)|, |Pending(threshold, raw)|, |item|, threshold)
  {
    UpperboundExact(threshold, raw, item);
  }

  /** If only what was written is read as an item, then only what was written is read as items. */
  lemma {:induction false} ItemsReadBack<T(!new)>(c: Codec<T>, buf: Bytes)
    requires forall b :: c.decode(b).Some? ==> b == c.encode(c.decode(b).value.0) + c.decode(b).value.1
    requires DecodeAll(c, buf).Some?
    ensures EncodeAll(c, DecodeAll(c, buf).value) == buf
    decreases |buf|
  {
    if buf != [] {
      var (x, rest) := c.decode(buf).value;
      ItemsReadBack(c, rest);
      EncodeAllFront(c, x, DecodeAll(c, rest).value);
    }
  }
}
