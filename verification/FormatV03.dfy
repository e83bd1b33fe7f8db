/** The file version with transactions and unspent outputs: writer, reader, and the round trip between them. */
module FormatV03 {
  import opened Bytes
  import opened Crypto
  import opened Transactions
  import opened Blocks
  import opened Codec
  import opened Ledger
  import opened ChainLaws
  import opened Mining

  const MAGIC: Bytes := [0x48, 0x42, 0x4C, 0x4B]
  const VERSION: Bytes := [0x30, 0x2E, 0x33]
  const LITTLE_ENDIAN: byte := 1

  /** A NULL list is written as the count -1. */
  const NULL_COUNT: uint32 := 0xFFFF_FFFF

  // ---- records ----

  function EncodeIn(i: TxIn): (r: Bytes)
    ensures |r| == 169
  {
    i.blockHash + i.txId + i.txOutHash + i.sig.sig + [i.sig.len]
  }

  function ParseIn(bs: Bytes): Parsed<TxIn> {
    if |bs| < 169 then None
    else Some((TxIn(bs[..32], bs[32..64], bs[64..96], Sign(bs[96..168], bs[168])), bs[169..]))
  }

  function EncodeOut(o: TxOut): (r: Bytes)
    ensures |r| == 101
  {
    Encode32(o.amount) + o.pub + o.hash
  }

  function ParseOut(bs: Bytes): Parsed<TxOut> {
    if |bs| < 101 then None else Some((TxOut(Read32(bs[..4]), bs[4..69], bs[69..101]), bs[101..]))
  }

  function EncodeUnspent(u: Unspent): (r: Bytes)
    ensures |r| == 165
  {
    u.blockHash + u.txId + EncodeOut(u.out)
  }

  function ParseUnspent(bs: Bytes): Parsed<Unspent> {
    if |bs| < 165 then None
    else Some((Unspent(bs[..32], bs[32..64], TxOut(Read32(bs[64..68]), bs[68..133], bs[133..165])), bs[165..]))
  }

  /** The count a signed 32-bit loop bound makes of a stored number. */
  function Signed(n: uint32): int {
    if n < 0x8000_0000 then n else n - 0x1_0000_0000
  }

  function Count(n: uint32): nat {
    if Signed(n) < 0 then 0 else Signed(n)
  }

  function EncodeTx(tx: Tx): Bytes {
    tx.id + (Encode32(Wrap32(|tx.inputs|)) + (Encode32(Wrap32(|tx.outputs|))
      + (EncodeAll(tx.inputs, EncodeIn) + EncodeAll(tx.outputs, EncodeOut))))
  }

  function ParseTx(bs: Bytes): Parsed<Tx> {
    var id := ParseDigest(bs);
    if id.None? then None
    else
      var ins := Parse32(id.value.1);
      if ins.None? then None
      else
        var outs := Parse32(ins.value.1);
        if outs.None? then None else ParseLists(id.value.0, Count(ins.value.0), Count(outs.value.0), outs.value.1)
  }

  function ParseLists(id: Digest, ins: nat, outs: nat, bs: Bytes): Parsed<Tx> {
    var inputs := ParseAll(bs, ins, ParseIn);
    if inputs.None? then None
    else
      var outputs := ParseAll(inputs.value.1, outs, ParseOut);
      if outputs.None? then None else Some((Tx(id, inputs.value.0, outputs.value.0), outputs.value.1))
  }

  function CoreOf(b: Block): Core {
    Core(b.info, b.data, b.hash)
  }

  function StoredCount(b: Block): uint32 {
    if b.info.index == 0 || b.transactions.None? then NULL_COUNT else Wrap32(|b.transactions.value|)
  }

  function EncodeBlock(b: Block): Bytes {
    EncodeCore(CoreOf(b)) + (Encode32(StoredCount(b)) + EncodeAll(TxList(b), EncodeTx))
  }

  function ParseBlock(bs: Bytes): Parsed<Block> {
    var core := ParseCore(bs);
    if core.None? then None
    else
      var count := Parse32(core.value.1);
      if count.None? then None else ParseTransactions(core.value.0, count.value.0, count.value.1)
  }

  /** fread_transactions, after the count. */
  function ParseTransactions(core: Core, count: uint32, bs: Bytes): Parsed<Block> {
    if count == NULL_COUNT then Some((Block(core.info, core.data, None, core.hash), bs))
    else
      var txs := ParseAll(bs, Count(count), ParseTx);
      if txs.None? then None else Some((Block(core.info, core.data, Some(txs.value.0), core.hash), txs.value.1))
  }

  function EncodeHeader(blocks: nat, unspent: nat): (r: Bytes)
    ensures |r| == 16
  {
    MAGIC + VERSION + [LITTLE_ENDIAN] + Encode32(Wrap32(blocks)) + Encode32(Wrap32(unspent))
  }

  function EncodeFile(chain: seq<Block>, us: seq<Unspent>): Bytes {
    EncodeHeader(|chain|, |us|) + (EncodeAll(chain, EncodeBlock) + EncodeAll(us, EncodeUnspent))
  }

  /** What loading a file gives: a refusal (NULL), a state, or, when the bytes run out, memory nobody has written. */
  datatype Loaded = Refused | Garbage | Loaded(chain: seq<Block>, unspent: seq<Unspent>)

  /** check_header */
  predicate HeaderOk(header: Bytes)
    requires |header| == 16
  {
    header[..4] == MAGIC && header[4..7] == VERSION
  }

  function ParseFile(bs: Bytes): Loaded {
    if |bs| < 16 then Garbage
    else if !HeaderOk(bs[..16]) then Refused
    else
      var chain := ParseAll(bs[16..], Read32(bs[8..12]), ParseBlock);
      if chain.None? then Garbage
      else
        var us := ParseAll(chain.value.1, Read32(bs[12..16]), ParseUnspent);
        if us.None? then Garbage else Loaded(chain.value.0, us.value.0)
  }

  // ---- the writer ----

  /** write_transactions */
  method WriteTransactions(file: OutFile, txs: seq<Tx>)
    modifies file
    ensures file.bytes == old(file.bytes) + EncodeAll(txs, EncodeTx)
  {
    ghost var start := file.bytes;
    for t := 0 to |txs|
      invariant file.bytes == start + EncodeAll(txs[..t], EncodeTx)
    {
      WriteTransaction(file, txs[t]);
      assert txs[..t + 1][..t] == txs[..t];
      Assoc(start, EncodeAll(txs[..t], EncodeTx), EncodeTx(txs[t]));
    }
    assert txs[..|txs|] == txs;
  }

  method WriteTransaction(file: OutFile, tx: Tx)
    modifies file
    ensures file.bytes == old(file.bytes) + EncodeTx(tx)
  {
    ghost var start := file.bytes;
    file.Write(tx.id);
    file.Write(Encode32(Wrap32(|tx.inputs|)));
    file.Write(Encode32(Wrap32(|tx.outputs|)));
    WriteList(file, tx.inputs, EncodeIn);
    WriteList(file, tx.outputs, EncodeOut);
    FiveParts(start, tx.id, Encode32(Wrap32(|tx.inputs|)), Encode32(Wrap32(|tx.outputs|)),
              EncodeAll(tx.inputs, EncodeIn), EncodeAll(tx.outputs, EncodeOut));
  }

  lemma {:induction false} FiveParts(s: Bytes, a: Bytes, b: Bytes, c: Bytes, d: Bytes, e: Bytes)
    ensures s + a + b + c + d + e == s + (a + (b + (c + (d + e))))
  {
  }

  /** One write a record. */
  method WriteList<T>(file: OutFile, xs: seq<T>, enc: T -> Bytes)
    modifies file
    ensures file.bytes == old(file.bytes) + EncodeAll(xs, enc)
  {
    ghost var start := file.bytes;
    for k := 0 to |xs|
      invariant file.bytes == start + EncodeAll(xs[..k], enc)
    {
      file.Write(enc(xs[k]));
      assert xs[..k + 1][..k] == xs[..k];
      Assoc(start, EncodeAll(xs[..k], enc), enc(xs[k]));
    }
    assert xs[..|xs|] == xs;
  }

  method WriteBlock(file: OutFile, b: Block)
    requires b.data.len <= DATA_MAX
    modifies file
    ensures file.bytes == old(file.bytes) + EncodeBlock(b)
  {
    ghost var start := file.bytes;
    file.Write(PackInfo(b.info));
    file.Write(Encode32(b.data.len));
    file.Write(b.data.buffer[..b.data.len]);
    file.Write(b.hash);
    file.Write(Encode32(StoredCount(b)));
    WriteTransactions(file, TxList(b));
    SixParts(start, PackInfo(b.info), Encode32(b.data.len), Content(b.data), b.hash,
             Encode32(StoredCount(b)), EncodeAll(TxList(b), EncodeTx));
  }

  lemma {:induction false} SixParts(s: Bytes, a: Bytes, b: Bytes, c: Bytes, d: Bytes, e: Bytes, f: Bytes)
    ensures s + a + b + c + d + e + f == s + ((a + (b + (c + d))) + (e + f))
  {
  }

  /** blockchain_serialize */
  method Serialize(chain: seq<Block>, us: seq<Unspent>) returns (file: OutFile)
    requires forall k :: 0 <= k < |chain| ==> chain[k].data.len <= DATA_MAX
    ensures fresh(file) && file.bytes == EncodeFile(chain, us)
  {
    file := new OutFile();
    ghost var header := EncodeHeader(|chain|, |us|);
    file.Write(MAGIC + VERSION + [LITTLE_ENDIAN] + Encode32(Wrap32(|chain|)) + Encode32(Wrap32(|us|)));
    assert file.bytes == header;
    for k := 0 to |chain|
      invariant file.bytes == header + EncodeAll(chain[..k], EncodeBlock)
    {
      WriteBlock(file, chain[k]);
      assert chain[..k + 1][..k] == chain[..k];
      Assoc(header, EncodeAll(chain[..k], EncodeBlock), EncodeBlock(chain[k]));
    }
    assert chain[..|chain|] == chain;
    WriteList(file, us, EncodeUnspent);
    Assoc(header, EncodeAll(chain, EncodeBlock), EncodeAll(us, EncodeUnspent));
  }

  // ---- the reader ----

  /** The reading of one transaction: id, two counts, two lists. */
  method ReadTransaction(file: InFile) returns (r: Option<Tx>)
    modifies file
    ensures r.None? <==> ParseTx(old(file.rest)).None?
    ensures r.Some? ==> ParseTx(old(file.rest)) == Some((r.value, file.rest))
  {
    var id := file.Read(ParseDigest);
    if id.None? {
      return None;
    }
    var txIn := file.Read(Parse32);
    if txIn.None? {
      return None;
    }
    var txOut := file.Read(Parse32);
    if txOut.None? {
      return None;
    }
    var inputs := file.ReadList(Signed(txIn.value), ParseIn);
    if inputs.None? {
      return None;
    }
    var outputs := file.ReadList(Signed(txOut.value), ParseOut);
    if outputs.None? {
      return None;
    }
    return Some(Tx(id.value, inputs.value, outputs.value));
  }

  /** The loop of fread_transactions; `size` is the signed loop bound, with negative bounds taken as zero. */
  method ReadTransactionList(file: InFile, size: nat) returns (r: Option<seq<Tx>>)
    modifies file
    ensures r.None? <==> ParseAll(old(file.rest), size, ParseTx).None?
    ensures r.Some? ==> ParseAll(old(file.rest), size, ParseTx) == Some((r.value, file.rest))
  {
    ghost var start := file.rest;
    var txs: seq<Tx> := [];
    for i := 0 to size
      invariant ParseAll(start, i, ParseTx) == Some((txs, file.rest))
    {
      var tx := ReadTransaction(file);
      if tx.None? {
        ListStaysNone(start, i + 1, size, ParseTx);
        return None;
      }
      txs := txs + [tx.value];
    }
    return Some(txs);
  }

  /** fread_transactions, for a block whose other fields are read */
  method ReadTransactions(file: InFile, core: Core) returns (r: Option<Block>)
    modifies file
    ensures var count := Parse32(old(file.rest));
            var p := if count.None? then None else ParseTransactions(core, count.value.0, count.value.1);
            (r.None? <==> p.None?) && (r.Some? ==> p == Some((r.value, file.rest)))
  {
    var count := file.Read(Parse32);
    if count.None? {
      return None;
    }
    if count.value == NULL_COUNT {
      return Some(Block(core.info, core.data, None, core.hash));
    }
    var txs := ReadTransactionList(file, Count(count.value));
    if txs.None? {
      return None;
    }
    return Some(Block(core.info, core.data, Some(txs.value), core.hash));
  }

  method ReadBlock(file: InFile) returns (r: Option<Block>)
    modifies file
    ensures r.None? <==> ParseBlock(old(file.rest)).None?
    ensures r.Some? ==> ParseBlock(old(file.rest)) == Some((r.value, file.rest))
  {
    var core := file.Read(ParseCore);
    if core.None? {
      return None;
    }
    r := ReadTransactions(file, core.value);
  }

  method ReadChain(file: InFile, blocks: uint32) returns (r: Option<seq<Block>>)
    modifies file
    ensures r.None? <==> ParseAll(old(file.rest), blocks, ParseBlock).None?
    ensures r.Some? ==> ParseAll(old(file.rest), blocks, ParseBlock) == Some((r.value, file.rest))
  {
    ghost var start := file.rest;
    var chain: seq<Block> := [];
    for i := 0 to blocks
      invariant ParseAll(start, i, ParseBlock) == Some((chain, file.rest))
    {
      var block := ReadBlock(file);
      if block.None? {
        ListStaysNone(start, i + 1, blocks, ParseBlock);
        return None;
      }
      chain := chain + [block.value];
    }
    return Some(chain);
  }

  /** blockchain_deserialize */
  method Deserialize(bytes: Bytes) returns (r: Loaded)
    ensures r == ParseFile(bytes)
  {
    if |bytes| < 16 {
      return Garbage;
    }
    if !HeaderOk(bytes[..16]) {
      return Refused;
    }
    var file := new InFile(bytes[16..]);
    var chain := ReadChain(file, Read32(bytes[8..12]));
    if chain.None? {
      return Garbage;
    }
    var us := file.ReadList(Read32(bytes[12..16]), ParseUnspent);
    if us.None? {
      return Garbage;
    }
    return Loaded(chain.value, us.value);
  }

  // ---- sizes ----

  /** The documented sizes: a transaction takes 0x28 bytes and 169 an input and 101 an output. */
  lemma {:induction false} TransactionSize(tx: Tx)
    ensures |EncodeTx(tx)| == 0x28 + 169 * |tx.inputs| + 101 * |tx.outputs|
  {
    ListLength(tx.inputs, EncodeIn, 169);
    ListLength(tx.outputs, EncodeOut, 101);
  }

  /** A file is its 0x10-byte header, the blocks, and 165 bytes an unspent output. */
  lemma {:induction false} FileSize(chain: seq<Block>, us: seq<Unspent>)
    ensures |EncodeFile(chain, us)| == 0x10 + |EncodeAll(chain, EncodeBlock)| + 165 * |us|
  {
    ListLength(us, EncodeUnspent, 165);
  }

  // ---- the round trip ----

  /** A number of records that the C code's signed counters can hold. */
  predicate Fits(n: nat) {
    n < 0x8000_0000
  }

  predicate TxFits(tx: Tx) {
    Fits(|tx.inputs|) && Fits(|tx.outputs|)
  }

  /** The counters can hold the lengths of the lists a block's reader reads. */
  predicate CountsFit(b: Block) {
    b.info.index == 0 || (Fits(|TxList(b)|) && forall tx <- TxList(b) :: TxFits(tx))
  }

  /** A block the file holds: its data area is zero past its length, and it has no list if its index is 0. */
  predicate BlockHolds(b: Block) {
    DataOk(b.data) && (b.info.index == 0 ==> b.transactions.None?)
  }

  /** A block as it comes back. */
  function Kept(b: Block): Block
    requires b.data.len <= DATA_MAX
  {
    b.(data := Trimmed(b.data), transactions := if b.info.index == 0 then None else b.transactions)
  }

  /** What of a block's bytes its reader leaves for the next. */
  function LeftOver(b: Block): Bytes {
    if b.info.index == 0 then EncodeAll(TxList(b), EncodeTx) else []
  }

  lemma {:induction false} InReadsBack(i: TxIn)
    ensures ReadsBack(EncodeIn, ParseIn, i)
  {
    forall tail: Bytes
      ensures ParseIn(EncodeIn(i) + tail) == Some((i, tail))
    {
      var x, bs := EncodeIn(i), EncodeIn(i) + tail;
      Front(x, tail);
      assert bs[..32] == i.blockHash && bs[32..64] == i.txId && bs[64..96] == i.txOutHash;
      assert bs[96..168] == i.sig.sig && bs[168] == i.sig.len;
    }
  }

  lemma {:induction false} OutReadsBack(o: TxOut)
    ensures ReadsBack(EncodeOut, ParseOut, o)
  {
    forall tail: Bytes
      ensures ParseOut(EncodeOut(o) + tail) == Some((o, tail))
    {
      var bs := EncodeOut(o) + tail;
      Front(EncodeOut(o), tail);
      assert bs[..4] == Encode32(o.amount) && bs[4..69] == o.pub && bs[69..101] == o.hash;
      RoundTrip32(o.amount);
    }
  }

  lemma {:induction false} UnspentReadsBack(u: Unspent)
    ensures ReadsBack(EncodeUnspent, ParseUnspent, u)
  {
    forall tail: Bytes
      ensures ParseUnspent(EncodeUnspent(u) + tail) == Some((u, tail))
    {
      var bs := EncodeUnspent(u) + tail;
      Front(EncodeUnspent(u), tail);
      assert bs[..32] == u.blockHash && bs[32..64] == u.txId;
      assert bs[64..68] == Encode32(u.out.amount) && bs[68..133] == u.out.pub && bs[133..165] == u.out.hash;
      RoundTrip32(u.out.amount);
    }
  }

  lemma {:induction false} ListsReadBack(tx: Tx, tail: Bytes)
    ensures ParseLists(tx.id, |tx.inputs|, |tx.outputs|,
                       EncodeAll(tx.inputs, EncodeIn) + (EncodeAll(tx.outputs, EncodeOut) + tail)) == Some((tx, tail))
  {
    forall k | 0 <= k < |tx.inputs|
      ensures ReadsBack(EncodeIn, ParseIn, tx.inputs[k])
    {
      InReadsBack(tx.inputs[k]);
    }
    forall k | 0 <= k < |tx.outputs|
      ensures ReadsBack(EncodeOut, ParseOut, tx.outputs[k])
    {
      OutReadsBack(tx.outputs[k]);
    }
    ListReadsBack(tx.inputs, EncodeIn, ParseIn, EncodeAll(tx.outputs, EncodeOut) + tail);
    ListReadsBack(tx.outputs, EncodeOut, ParseOut, tail);
  }

  lemma {:induction false} TxReadsBack(tx: Tx)
    requires TxFits(tx)
    ensures ReadsBack(EncodeTx, ParseTx, tx)
  {
    forall tail: Bytes
      ensures ParseTx(EncodeTx(tx) + tail) == Some((tx, tail))
    {
      var ins, outs := Encode32(Wrap32(|tx.inputs|)), Encode32(Wrap32(|tx.outputs|));
      var inputs, outputs := EncodeAll(tx.inputs, EncodeIn), EncodeAll(tx.outputs, EncodeOut);
      CountOf(|tx.inputs|);
      CountOf(|tx.outputs|);
      Regroup5(tx.id, ins, outs, inputs, outputs, tail);
      ParseDigestReadsBack(tx.id, ins + (outs + (inputs + (outputs + tail))));
      Parse32ReadsBack(Wrap32(|tx.inputs|), outs + (inputs + (outputs + tail)));
      Parse32ReadsBack(Wrap32(|tx.outputs|), inputs + (outputs + tail));
      ListsReadBack(tx, tail);
    }
  }

  lemma {:induction false} CountOf(n: nat)
    requires Fits(n)
    ensures Wrap32(n) == n != NULL_COUNT && Count(Wrap32(n)) == n
  {
  }

  lemma {:induction false} Regroup5(a: Bytes, b: Bytes, c: Bytes, d: Bytes, e: Bytes, tail: Bytes)
    ensures (a + (b + (c + (d + e)))) + tail == a + (b + (c + (d + (e + tail))))
  {
  }

  lemma {:induction false} Regroup3(a: Bytes, b: Bytes, c: Bytes, tail: Bytes)
    ensures (a + (b + c)) + tail == a + (b + (c + tail))
  {
  }

  /** What comes back of any block: of index 0 everything but the list, whose bytes are taken for the following
      record; of any other index the whole block, a NULL list as a NULL list; but for what lies past the data. */
  lemma {:induction false} BlockComesBack(b: Block, tail: Bytes)
    requires CountsFit(b)
    ensures ParseBlock(EncodeBlock(b) + tail)
            == if b.data.len <= DATA_MAX then Some((Kept(b), LeftOver(b) + tail)) else None
  {
    var count, txs := Encode32(StoredCount(b)), EncodeAll(TxList(b), EncodeTx);
    Regroup3(EncodeCore(CoreOf(b)), count, txs, tail);
    CoreReadsBack(CoreOf(b), count + (txs + tail));
    Parse32ReadsBack(StoredCount(b), txs + tail);
    if b.data.len <= DATA_MAX {
      TransactionsComeBack(b, CoreOf(b).(data := Trimmed(b.data)), tail);
    }
  }

  lemma {:induction false} TransactionsComeBack(b: Block, core: Core, tail: Bytes)
    requires CountsFit(b) && core.info == b.info && core.hash == b.hash
    ensures ParseTransactions(core, StoredCount(b), EncodeAll(TxList(b), EncodeTx) + tail)
            == Some((b.(data := core.data, transactions := if b.info.index == 0 then None else b.transactions),
                     LeftOver(b) + tail))
  {
    var txs := TxList(b);
    if b.info.index != 0 {
      assert [] + tail == tail;
      if b.transactions.None? {
        assert EncodeAll(txs, EncodeTx) + tail == tail;
      } else {
        TxListReadsBack(txs, tail);
        CountOf(|txs|);
      }
    }
  }

  /** A block whose lists fit the counters is read back exactly when the file can hold it. */
  lemma {:induction false} BlockReadsBackExactly(b: Block)
    requires CountsFit(b)
    ensures BlockHolds(b) ==> ReadsBack(EncodeBlock, ParseBlock, b)
    ensures !BlockHolds(b) ==> ReadsOther(EncodeBlock, ParseBlock, b)
    ensures ReadsBack(EncodeBlock, ParseBlock, b) <==> BlockHolds(b)
  {
    if b.data.len <= DATA_MAX {
      TrimmedExactly(b.data);
      assert Kept(b) == b <==> BlockHolds(b);
      assert BlockHolds(b) ==> LeftOver(b) == [];
    }
    forall tail: Bytes
      ensures ParseBlock(EncodeBlock(b) + tail)
              == if b.data.len <= DATA_MAX then Some((Kept(b), LeftOver(b) + tail)) else None
      ensures [] + tail == tail
    {
      BlockComesBack(b, tail);
    }
    NotBoth(EncodeBlock, ParseBlock, b);
  }

  lemma {:induction false} TxListReadsBack(txs: seq<Tx>, tail: Bytes)
    requires forall tx <- txs :: TxFits(tx)
    ensures ParseAll(EncodeAll(txs, EncodeTx) + tail, |txs|, ParseTx) == Some((txs, tail))
  {
    forall k | 0 <= k < |txs|
      ensures ReadsBack(EncodeTx, ParseTx, txs[k])
    {
      assert txs[k] in txs;
      TxReadsBack(txs[k]);
    }
    ListReadsBack(txs, EncodeTx, ParseTx, tail);
  }

  lemma {:induction false} HeaderParts(chain: nat, us: nat)
    requires Fits(chain) && Fits(us)
    ensures var header := EncodeHeader(chain, us);
            && header[..4] == MAGIC && header[4..7] == VERSION
            && header[8..12] == Encode32(Wrap32(chain)) && header[12..16] == Encode32(Wrap32(us))
  {
  }

  lemma {:induction false} HeaderReadsBack(chain: nat, us: nat, rest: Bytes)
    requires Fits(chain) && Fits(us)
    ensures var bs := EncodeHeader(chain, us) + rest;
            HeaderOk(bs[..16]) && Read32(bs[8..12]) == chain && Read32(bs[12..16]) == us && bs[16..] == rest
  {
    var header := EncodeHeader(chain, us);
    HeaderParts(chain, us);
    Front(header, rest);
    var bs := header + rest;
    assert bs[8..12] == header[8..12] && bs[12..16] == header[12..16];
    CountOf(chain);
    CountOf(us);
    RoundTrip32(chain);
    RoundTrip32(us);
  }

  lemma {:induction false} ChainReadsBackExactly(chain: seq<Block>, tail: Bytes)
    requires forall k :: 0 <= k < |chain| ==> CountsFit(chain[k])
    ensures var p := ParseAll(EncodeAll(chain, EncodeBlock) + tail, |chain|, ParseBlock);
            if forall k :: 0 <= k < |chain| ==> BlockHolds(chain[k])
            then p == Some((chain, tail))
            else p.Some? ==> p.value.0 != chain
  {
    forall k | 0 <= k < |chain|
      ensures ReadsBack(EncodeBlock, ParseBlock, chain[k]) || ReadsOther(EncodeBlock, ParseBlock, chain[k])
      ensures ReadsBack(EncodeBlock, ParseBlock, chain[k]) <==> BlockHolds(chain[k])
    {
      BlockReadsBackExactly(chain[k]);
    }
    ListReadsBackExactly(chain, EncodeBlock, ParseBlock, tail);
    if forall k :: 0 <= k < |chain| ==> BlockHolds(chain[k]) {
      ListReadsBack(chain, EncodeBlock, ParseBlock, tail);
    }
  }

  /** Loading what was saved gives back the chain and the list of unspent outputs, for lists that fit the counters,
      exactly when the file can hold every block; bytes after them do not matter. */
  lemma {:induction false} LoadUndoesSave(chain: seq<Block>, us: seq<Unspent>, tail: Bytes)
    requires Fits(|chain|) && Fits(|us|) && forall k :: 0 <= k < |chain| ==> CountsFit(chain[k])
    ensures ParseFile(EncodeFile(chain, us) + tail) == Loaded(chain, us)
            <==> forall k :: 0 <= k < |chain| ==> BlockHolds(chain[k])
  {
    var blocks, entries := EncodeAll(chain, EncodeBlock), EncodeAll(us, EncodeUnspent);
    Regroup3(EncodeHeader(|chain|, |us|), blocks, entries, tail);
    HeaderReadsBack(|chain|, |us|, blocks + (entries + tail));
    ChainReadsBackExactly(chain, entries + tail);
    EntriesReadBack(us, tail);
  }

  lemma {:induction false} EntriesReadBack(us: seq<Unspent>, tail: Bytes)
    ensures ParseAll(EncodeAll(us, EncodeUnspent) + tail, |us|, ParseUnspent) == Some((us, tail))
  {
    forall k | 0 <= k < |us|
      ensures ReadsBack(EncodeUnspent, ParseUnspent, us[k])
    {
      UnspentReadsBack(us[k]);
    }
    ListReadsBack(us, EncodeUnspent, ParseUnspent, tail);
  }

  /** Every reachable state, whose lists fit the counters, can be saved and loaded without loss. */
  lemma {:induction false} ReachedStateSurvives(c: Suite, steps: seq<Step>, s: Ledger)
    requires Reached(c, steps, s)
    requires Fits(|s.chain|) && Fits(|s.unspent|)
    requires forall b <- s.chain :: Fits(|TxList(b)|) && forall tx <- TxList(b) :: TxFits(tx)
    ensures ParseFile(EncodeFile(s.chain, s.unspent)) == Loaded(s.chain, s.unspent)
  {
    ReachedChain(c, steps, s);
    forall k | 0 <= k < |s.chain|
      ensures BlockHolds(s.chain[k]) && CountsFit(s.chain[k])
    {
      assert s.chain[k] in s.chain;
      if k > 0 {
        assert Linked(c, s.chain, k);
        NewDataOk();
      } else {
        GenesisDataOk();
      }
    }
    LoadUndoesSave(s.chain, s.unspent, []);
    assert EncodeFile(s.chain, s.unspent) + [] == EncodeFile(s.chain, s.unspent);
  }

  lemma {:induction false} NewDataOk()
    ensures DataOk(NewData(Zeros(DATA_MAX)))
  {
  }

  lemma {:induction false} GenesisDataOk()
    ensures DataOk(Genesis().data)
  {
    var d := Genesis().data;
    assert d.buffer[d.len..] == Zeros(DATA_MAX - 16);
  }
}
