/** The block area of the first file version: a writer, and a reader that checks every read and swaps the bytes of a
    file of the other byte order. */
module FormatV01 {
  import opened Bytes
  import opened Blocks
  import opened Codec
  import opened Endianness

  /** The bytes of a list of blocks, block after block. */
  function EncodeBlocks(blocks: seq<Core>): Bytes {
    EncodeAll(blocks, EncodeCore)
  }

  /** The loop over the blocks in blockchain_serialize: four writes a block. */
  method WriteBlocks(file: OutFile, blocks: seq<Core>)
    requires forall k :: 0 <= k < |blocks| ==> blocks[k].data.len <= DATA_MAX
    modifies file
    ensures file.bytes == old(file.bytes) + EncodeBlocks(blocks)
  {
    ghost var start := file.bytes;
    for idx := 0 to |blocks|
      invariant file.bytes == start + EncodeBlocks(blocks[..idx])
    {
      var b := blocks[idx];
      ghost var before := file.bytes;
      file.Write(PackInfo(b.info));
      file.Write(Encode32(b.data.len));
      file.Write(b.data.buffer[..b.data.len]);
      file.Write(b.hash);
      FourWrites(before, b);
      assert blocks[..idx + 1][..idx] == blocks[..idx];
      Assoc(start, EncodeBlocks(blocks[..idx]), EncodeCore(b));
    }
    assert blocks[..|blocks|] == blocks;
  }

  lemma {:induction false} FourWrites(before: Bytes, b: Core)
    requires b.data.len <= DATA_MAX
    ensures before + PackInfo(b.info) + Encode32(b.data.len) + Content(b.data) + b.hash == before + EncodeCore(b)
  {
  }

  // ---- the reader ----

  /** The fields of a header written in the other byte order, as the reader puts them right: the macro is meant for 32
      bits, and is used on the 64-bit fields too. */
  function SwapInfo(i: Info): Info {
    Info(Swap32(i.index), Swap32(i.difficulty), Swap32(i.timestamp), Swap32(i.nonce), i.prevHash)
  }

  /** A block of a file of the other byte order. */
  function ParseForeign(bs: Bytes): Parsed<Core> {
    var info := ParseInfo(bs);
    if info.None? then None
    else
      var len := Parse32(info.value.1);
      if len.None? then None
      else
        var buffer := ParseBuffer(Swap32(len.value.0), len.value.1);
        if buffer.None? then None
        else
          var hash := ParseDigest(buffer.value.1);
          if hash.None? then None
          else Some((Core(SwapInfo(info.value.0), buffer.value.0, hash.value.0), hash.value.1))
  }

  /** The reader of a block, by whether the byte order is the other one. */
  function ParserOf(swap: bool): Bytes -> Parsed<Core> {
    if swap then ParseForeign else ParseCore
  }

  /** One round of blocks: None, where the C function gives NULL, as soon as a read comes up short. */
  method ReadBlock(file: InFile, swap: bool) returns (r: Option<Core>)
    modifies file
    ensures r.None? <==> ParserOf(swap)(old(file.rest)).None?
    ensures r.Some? ==> ParserOf(swap)(old(file.rest)) == Some((r.value, file.rest))
  {
    var info := file.Read(ParseInfo);
    if info.None? {
      return None;
    }
    var len := file.Read(Parse32);
    if len.None? {
      return None;
    }
    var size := if swap then Swap32(len.value) else len.value;
    var data := file.Read(bs => ParseBuffer(size, bs));
    if data.None? {
      return None;
    }
    var hash := file.Read(ParseDigest);
    if hash.None? {
      return None;
    }
    return Some(Core(if swap then SwapInfo(info.value) else info.value, data.value, hash.value));
  }

  /** blocks */
  method ReadBlocks(file: InFile, size: uint32, swap: bool) returns (r: Option<seq<Core>>)
    modifies file
    ensures r.None? <==> ParseAll(old(file.rest), size, ParserOf(swap)).None?
    ensures r.Some? ==> ParseAll(old(file.rest), size, ParserOf(swap)) == Some((r.value, file.rest))
  {
    ghost var start := file.rest;
    var list: seq<Core> := [];
    for i := 0 to size
      invariant ParseAll(start, i, ParserOf(swap)) == Some((list, file.rest))
    {
      var block := ReadBlock(file, swap);
      if block.None? {
        ListStaysNone(start, i + 1, size, ParserOf(swap));
        return None;
      }
      list := list + [block.value];
    }
    return Some(list);
  }

  // ---- files of the machine's own byte order ----

  /** A block is read back exactly when its data area is within the buffer and zero past its length. */
  lemma {:induction false} BlockReadsBack(b: Core)
    ensures DataOk(b.data) ==> ReadsBack(EncodeCore, ParseCore, b)
    ensures !DataOk(b.data) ==> ReadsOther(EncodeCore, ParseCore, b)
  {
    if b.data.len <= DATA_MAX {
      TrimmedExactly(b.data);
    }
    forall rest: Bytes
      ensures ParseCore(EncodeCore(b) + rest)
              == if b.data.len <= DATA_MAX then Some((b.(data := Trimmed(b.data)), rest)) else None
    {
      CoreReadsBack(b, rest);
    }
  }

  /** What was written is read back, and nothing of it is left over. */
  lemma {:induction false} BlocksReadBack(blocks: seq<Core>, tail: Bytes)
    requires forall k :: 0 <= k < |blocks| ==> DataOk(blocks[k].data)
    ensures ParseAll(EncodeBlocks(blocks) + tail, |blocks|, ParseCore) == Some((blocks, tail))
  {
    forall k | 0 <= k < |blocks|
      ensures ReadsBack(EncodeCore, ParseCore, blocks[k])
    {
      BlockReadsBack(blocks[k]);
    }
    ListReadsBack(blocks, EncodeCore, ParseCore, tail);
  }

  /** And only then: the blocks come back exactly when all their data areas are as the reader leaves them. */
  lemma {:induction false} BlocksReadBackExactly(blocks: seq<Core>, tail: Bytes)
    ensures ParseAll(EncodeBlocks(blocks) + tail, |blocks|, ParseCore) == Some((blocks, tail))
            <==> forall k :: 0 <= k < |blocks| ==> DataOk(blocks[k].data)
  {
    forall k | 0 <= k < |blocks|
      ensures ReadsBack(EncodeCore, ParseCore, blocks[k]) || ReadsOther(EncodeCore, ParseCore, blocks[k])
      ensures ReadsBack(EncodeCore, ParseCore, blocks[k]) ==> DataOk(blocks[k].data)
    {
      BlockReadsBack(blocks[k]);
      NotBoth(EncodeCore, ParseCore, blocks[k]);
    }
    ListReadsBackExactly(blocks, EncodeCore, ParseCore, tail);
    if forall k :: 0 <= k < |blocks| ==> DataOk(blocks[k].data) {
      BlocksReadBack(blocks, tail);
    }
  }

  /** The block area is prefix-free: no proper prefix of it is read as that many blocks. */
  lemma {:induction false} TruncationIsDetected(blocks: seq<Core>, p: Bytes)
    requires forall k :: 0 <= k < |blocks| ==> DataOk(blocks[k].data)
    requires p < EncodeBlocks(blocks)
    ensures ParseAll(p, |blocks|, ParseCore).None?
  {
    var full := EncodeBlocks(blocks);
    var missing := full[|p|..];
    assert p + missing == full && full + [] == full;
    BlocksReadBack(blocks, []);
    if ParseAll(p, |blocks|, ParseCore).Some? {
      CoreIsLocal();
      ListIsLocal(p, missing, |blocks|, ParseCore);
    }
  }

  /** Two lists of equally many blocks never share their bytes, and neither is the start of the other. */
  lemma {:induction false} BlockAreaDetermines(a: seq<Core>, b: seq<Core>)
    requires |a| == |b|
    requires forall k :: 0 <= k < |a| ==> DataOk(a[k].data) && DataOk(b[k].data)
    requires EncodeBlocks(a) <= EncodeBlocks(b)
    ensures a == b
  {
    var more := EncodeBlocks(b)[|EncodeBlocks(a)|..];
    assert EncodeBlocks(a) + more == EncodeBlocks(b) == EncodeBlocks(b) + [];
    BlocksReadBack(a, more);
    BlocksReadBack(b, []);
  }

  // ---- files of the other byte order ----

  /** A header as a machine of the other byte order writes it. */
  function ForeignInfo(i: Info): (r: Bytes)
    ensures |r| == 56
  {
    ReversedLength(LittleEndian(i.index, 4));
    ReversedLength(LittleEndian(i.difficulty, 4));
    ReversedLength(LittleEndian(i.timestamp, 8));
    ReversedLength(LittleEndian(i.nonce, 8));
    Reversed(LittleEndian(i.index, 4)) + Reversed(LittleEndian(i.difficulty, 4))
    + Reversed(LittleEndian(i.timestamp, 8)) + Reversed(LittleEndian(i.nonce, 8)) + i.prevHash
  }

  function EncodeForeign(b: Core): Bytes {
    ForeignInfo(b.info) + (Reversed(Encode32(b.data.len)) + (Content(b.data) + b.hash))
  }

  /** What becomes of a header: the 64-bit fields keep their upper halves. */
  function Halved(i: Info): Info {
    i.(timestamp := i.timestamp / 0x1_0000_0000, nonce := i.nonce / 0x1_0000_0000)
  }

  lemma {:induction false} ForeignInfoParts(i: Info, tail: Bytes)
    ensures var bs := ForeignInfo(i) + tail;
            && bs[..4] == Reversed(LittleEndian(i.index, 4)) && bs[4..8] == Reversed(LittleEndian(i.difficulty, 4))
            && bs[8..16] == Reversed(LittleEndian(i.timestamp, 8)) && bs[16..24] == Reversed(LittleEndian(i.nonce, 8))
            && bs[24..56] == i.prevHash && bs[56..] == tail
  {
    ReversedLength(LittleEndian(i.index, 4));
    ReversedLength(LittleEndian(i.difficulty, 4));
    ReversedLength(LittleEndian(i.timestamp, 8));
    ReversedLength(LittleEndian(i.nonce, 8));
  }

  lemma {:induction false} ForeignInfoRead(i: Info, tail: Bytes)
    ensures ParseInfo(ForeignInfo(i) + tail).Some? && ParseInfo(ForeignInfo(i) + tail).value.1 == tail
    ensures SwapInfo(ParseInfo(ForeignInfo(i) + tail).value.0) == Halved(i)
  {
    ForeignInfoParts(i, tail);
    SwapReads32(i.index);
    SwapReads32(i.difficulty);
    SwapReads64(i.timestamp);
    SwapReads64(i.nonce);
  }

  lemma {:induction false} ForeignLengthRead(len: uint32, tail: Bytes)
    ensures var p := Parse32(Reversed(Encode32(len)) + tail);
            p.Some? && Swap32(p.value.0) == len && p.value.1 == tail
  {
    ReversedLength(Encode32(len));
    Front(Reversed(Encode32(len)), tail);
    SwapReads32(len);
  }

  /** What is read of a block from a machine of the other byte order: everything right but the 64-bit fields. */
  lemma {:induction false} ForeignBlockRead(b: Core, tail: Bytes)
    requires DataOk(b.data)
    ensures ParseForeign(EncodeForeign(b) + tail) == Some((b.(info := Halved(b.info)), tail))
  {
    var len, content := Reversed(Encode32(b.data.len)), Content(b.data);
    assert EncodeForeign(b) + tail == ForeignInfo(b.info) + (len + (content + (b.hash + tail)));
    ForeignInfoRead(b.info, len + (content + (b.hash + tail)));
    ForeignLengthRead(b.data.len, content + (b.hash + tail));
    BufferReadsBack(b.data, b.hash + tail);
    TrimmedExactly(b.data);
    ParseDigestReadsBack(b.hash, tail);
  }

  lemma {:induction false} HalvedExactly(i: Info)
    ensures Halved(i) == i <==> i.timestamp == 0 && i.nonce == 0
  {
  }

  /** A file of the other byte order gives back its blocks exactly when all their timestamps and nonces are zero. */
  lemma {:induction false} ForeignReadsBackExactly(blocks: seq<Core>, tail: Bytes)
    requires forall k :: 0 <= k < |blocks| ==> DataOk(blocks[k].data)
    ensures var p := ParseAll(EncodeAll(blocks, EncodeForeign) + tail, |blocks|, ParserOf(true));
            p.Some? && p.value.0 == blocks
            <==> forall k :: 0 <= k < |blocks| ==> blocks[k].info.timestamp == 0 && blocks[k].info.nonce == 0
  {
    forall k | 0 <= k < |blocks|
      ensures ReadsBack(EncodeForeign, ParseForeign, blocks[k]) || ReadsOther(EncodeForeign, ParseForeign, blocks[k])
      ensures ReadsBack(EncodeForeign, ParseForeign, blocks[k])
              <==> blocks[k].info.timestamp == 0 && blocks[k].info.nonce == 0
    {
      ForeignReadsBack(blocks[k]);
    }
    ListReadsBackExactly(blocks, EncodeForeign, ParseForeign, tail);
  }

  lemma {:induction false} ForeignReadsBack(b: Core)
    requires DataOk(b.data)
    ensures ReadsBack(EncodeForeign, ParseForeign, b) || ReadsOther(EncodeForeign, ParseForeign, b)
    ensures ReadsBack(EncodeForeign, ParseForeign, b) <==> b.info.timestamp == 0 && b.info.nonce == 0
  {
    forall tail: Bytes
      ensures ParseForeign(EncodeForeign(b) + tail) == Some((b.(info := Halved(b.info)), tail))
    {
      ForeignBlockRead(b, tail);
    }
    HalvedExactly(b.info);
    NotBoth(EncodeForeign, ParseForeign, b);
  }

  /** So no chain survives: the genesis block loses its time. */
  lemma {:induction false} NoForeignChain(blocks: seq<Core>, tail: Bytes)
    requires forall k :: 0 <= k < |blocks| ==> DataOk(blocks[k].data)
    requires blocks != [] && blocks[0].info == Genesis().info
    ensures var p := ParseAll(EncodeAll(blocks, EncodeForeign) + tail, |blocks|, ParserOf(true));
            !(p.Some? && p.value.0 == blocks)
  {
    assert blocks[0].info.timestamp == 1537578000;
    ForeignReadsBackExactly(blocks, tail);
  }
}
