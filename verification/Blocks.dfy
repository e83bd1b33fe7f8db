/** Blocks: their memory layout and digest, the next difficulty, mining, and validity. */
module Blocks {
  import opened Bytes
  import opened Crypto
  import opened Transactions
  import opened Validity
  import opened Difficulty

  const DATA_MAX := 1024
  const ADJUSTMENT_INTERVAL := 5
  const GENERATION_INTERVAL := 1

  type DataBuffer = b: Bytes | |b| == DATA_MAX witness Zeros(DATA_MAX)

  datatype Info = Info(index: uint32, difficulty: uint32, timestamp: uint64, nonce: uint64, prevHash: Digest)

  datatype Data = Data(buffer: DataBuffer, len: uint32)

  /** A block; `transactions` is None where the C code has a NULL list. */
  datatype Block = Block(info: Info, data: Data, transactions: Option<seq<Tx>>, hash: Digest)

  function Chars(s: string): (r: Bytes)
    ensures |r| == |s|
  {
    seq(|s|, k requires 0 <= k < |s| => s[k] as int % 256)
  }

  const GENESIS_HASH: Digest :=
    [0xc5, 0x2c, 0x26, 0xc8, 0xb5, 0x46, 0x16, 0x39, 0x63, 0x5d, 0x8e, 0xdf, 0x2a, 0x97, 0xd4, 0x8d,
     0x0c, 0x8e, 0x00, 0x09, 0xc8, 0x17, 0xf2, 0xb1, 0xd3, 0xd7, 0xff, 0x2f, 0x04, 0x51, 0x58, 0x03]

  /** The first block of every chain. */
  function Genesis(): Block {
    Block(Info(0, 0, 1537578000, 0, Zeros(32)),
          Data(Chars("Holberton School") + Zeros(DATA_MAX - 16), 16), None, GENESIS_HASH)
  }

  // ---- the digest of a block ----

  function PackInfo(i: Info): (r: Bytes)
    ensures |r| == 56
  {
    LittleEndian(i.index, 4) + LittleEndian(i.difficulty, 4) + LittleEndian(i.timestamp, 8)
    + LittleEndian(i.nonce, 8) + i.prevHash
  }

  function TxList(b: Block): seq<Tx> {
    if b.transactions.Some? then b.transactions.value else []
  }

  function TxIds(txs: seq<Tx>): (r: seq<Digest>)
    ensures |r| == |txs|
  {
    seq(|txs|, k requires 0 <= k < |txs| => txs[k].id)
  }

  /** The data that counts: the buffer up to its length. */
  function Payload(d: Data): (r: Bytes)
    requires d.len <= DATA_MAX
    ensures |r| == d.len
  {
    d.buffer[..d.len]
  }

  function PackBlock(b: Block): Bytes
    requires b.data.len <= DATA_MAX
  {
    PackInfo(b.info) + Payload(b.data) + PackDigests(TxIds(TxList(b)))
  }

  function BlockHash(c: Suite, b: Block): Digest
    requires b.data.len <= DATA_MAX
  {
    c.sha256(PackBlock(b))
  }

  method ComputeBlockHash(c: Suite, b: Block) returns (hash: Digest)
    requires b.data.len <= DATA_MAX
    ensures hash == BlockHash(c, b)
  {
    var txs := TxList(b);
    var len0 := 56 + b.data.len;
    var buffer := new byte[len0 + 32 * |txs|];
    CopyInto(buffer, 0, PackInfo(b.info) + Payload(b.data));
    var pos := len0;
    ghost var ids := TxIds(txs);
    for k := 0 to |txs|
      invariant pos == len0 + 32 * k
      invariant buffer[..pos] == PackInfo(b.info) + Payload(b.data) + PackDigests(ids[..k])
    {
      CopyInto(buffer, pos, txs[k].id);
      pos := pos + 32;
      assert ids[..k + 1][..k] == ids[..k];
    }
    assert ids[..|ids|] == ids;
    assert buffer[..] == buffer[..pos];
    return c.sha256(buffer[..]);
  }

  // ---- the next difficulty ----

  /** The difficulty of the block that follows a chain. */
  function NextDifficulty(chain: seq<Block>): uint32 {
    if chain == [] then 0
    else
      var last := chain[|chain| - 1].info;
      if last.index == 0 || last.index % ADJUSTMENT_INTERVAL != 0 then last.difficulty
      else if |chain| < ADJUSTMENT_INTERVAL then 0
      else
        var adjusted := chain[|chain| - ADJUSTMENT_INTERVAL].info;
        var expected := ADJUSTMENT_INTERVAL * GENERATION_INTERVAL;
        var actual := Wrap64(last.timestamp - adjusted.timestamp);
        if actual < expected / 2 then Wrap32(last.difficulty + 1)
        else if actual > expected * 2 then (if last.difficulty > 0 then last.difficulty - 1 else 0)
        else last.difficulty
  }

  // ---- validity ----

  function CoinbaseMark(index: uint32): (r: Digest) {
    LittleEndian(index, 4) + Zeros(28)
  }

  predicate CoinbaseValid(c: Suite, tx: Tx, index: uint32) {
    && tx.id == TxHash(c, tx)
    && |tx.inputs| == 1 && |tx.outputs| == 1
    && tx.inputs[0].txOutHash[..4] == LittleEndian(index, 4)
    && tx.inputs[0].blockHash == Zeros(32)
    && tx.inputs[0].txId == Zeros(32)
    && tx.inputs[0].sig == NO_SIGN
    && tx.outputs[0].amount == COINBASE_AMOUNT
  }

  method IsEmpty(buf: Bytes) returns (empty: bool)
    ensures empty <==> buf == Zeros(|buf|)
  {
    for i := 0 to |buf|
      invariant forall k :: 0 <= k < i ==> buf[k] == 0
    {
      if buf[i] != 0 {
        return false;
      }
    }
    return true;
  }

  method CoinbaseIsValid(c: Suite, tx: Tx, index: uint32) returns (ok: bool)
    ensures ok <==> CoinbaseValid(c, tx, index)
  {
    var hash := TransactionHash(c, tx);
    if hash.None? || tx.id != hash.value || |tx.inputs| != 1 || |tx.outputs| != 1 {
      return false;
    }
    var input := tx.inputs[0];
    if input.txOutHash[..4] != LittleEndian(index, 4) {
      return false;
    }
    var empty := IsEmpty(input.blockHash);
    if !empty {
      return false;
    }
    empty := IsEmpty(input.txId);
    if !empty {
      return false;
    }
    empty := IsEmpty(input.sig.sig);
    if !empty || input.sig.len != 0 {
      return false;
    }
    return tx.outputs[0].amount == COINBASE_AMOUNT;
  }

  /** A coinbase first, then transactions valid against the list; an empty or NULL list is refused. */
  predicate TransactionsValid(c: Suite, txs: seq<Tx>, index: uint32, us: seq<Unspent>) {
    && txs != []
    && CoinbaseValid(c, txs[0], index)
    && forall k :: 1 <= k < |txs| ==> TxValid(c, txs[k], us)
  }

  method ValidateTransactions(c: Suite, b: Block, us: seq<Unspent>) returns (ok: bool)
    ensures ok <==> TransactionsValid(c, TxList(b), b.info.index, us)
  {
    var txs := TxList(b);
    for i := 0 to |txs|
      invariant i > 0 ==> CoinbaseValid(c, txs[0], b.info.index)
      invariant forall k :: 1 <= k < i ==> TxValid(c, txs[k], us)
    {
      var valid;
      if i == 0 {
        valid := CoinbaseIsValid(c, txs[i], b.info.index);
      } else {
        valid := TransactionIsValid(c, txs[i], us);
      }
      if !valid {
        return false;
      }
    }
    return |txs| > 0;
  }

  /** The stored digest of a block is the digest of its contents. */
  predicate Sealed(c: Suite, b: Block) {
    b.data.len <= DATA_MAX && b.hash == BlockHash(c, b)
  }

  /** The block is linked to its predecessor, whose own digest is right. */
  predicate Extends(c: Suite, b: Block, prev: Block) {
    && b.info.index == Wrap32(prev.info.index + 1)
    && Sealed(c, prev)
    && prev.hash == b.info.prevHash
  }

  /** The block's digest is right and meets its difficulty, and its transactions are valid. */
  predicate Earned(c: Suite, b: Block, us: seq<Unspent>)
    requires b.info.difficulty <= 256
  {
    && Sealed(c, b)
    && Meets(b.hash, b.info.difficulty)
    && TransactionsValid(c, TxList(b), b.info.index, us)
  }

  predicate BlockValid(c: Suite, b: Block, prev: Option<Block>, us: seq<Unspent>)
    requires b.info.difficulty <= 256
  {
    if b.info.index == 0 then b == Genesis()
    else prev.Some? && Extends(c, b, prev.value) && Earned(c, b, us)
  }

  /** Recomputes the digest of a block and compares it with the stored one. */
  method CheckSeal(c: Suite, b: Block) returns (ok: bool)
    ensures ok <==> Sealed(c, b)
  {
    if b.data.len > DATA_MAX {
      return false;
    }
    var hash := ComputeBlockHash(c, b);
    return hash == b.hash;
  }

  method CheckExtends(c: Suite, b: Block, prev: Block) returns (ok: bool)
    ensures ok <==> Extends(c, b, prev)
  {
    if b.info.index != Wrap32(prev.info.index + 1) {
      return false;
    }
    ok := CheckSeal(c, prev);
    if prev.hash != b.info.prevHash {
      ok := false;
    }
  }

  method CheckEarned(c: Suite, b: Block, us: seq<Unspent>) returns (ok: bool)
    requires b.info.difficulty <= 256
    ensures ok <==> Earned(c, b, us)
  {
    ok := CheckSeal(c, b);
    if ok {
      ok := HashMatchesDifficulty(b.hash, b.info.difficulty);
    }
    if ok {
      ok := ValidateTransactions(c, b, us);
    }
  }

  method BlockIsValid(c: Suite, b: Block, prev: Option<Block>, us: seq<Unspent>) returns (ok: bool)
    requires b.info.difficulty <= 256
    ensures ok <==> BlockValid(c, b, prev, us)
  {
    if prev.None? && b.info.index != 0 {
      return false;
    }
    if b.info.index == 0 {
      return b == Genesis();
    }
    ok := CheckExtends(c, b, prev.value);
    if ok {
      ok := CheckEarned(c, b, us);
    }
  }
}
