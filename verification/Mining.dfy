/** A block under construction, and the search for its nonce. */
module Mining {
  import opened Bytes
  import opened Crypto
  import opened Transactions
  import opened Difficulty
  import opened Blocks

  function WithNonce(b: Block, nonce: uint64): Block {
    b.(info := b.info.(nonce := nonce))
  }

  /** With this nonce the block's digest meets its difficulty. */
  predicate NonceMeets(c: Suite, b: Block, nonce: uint64)
    requires b.data.len <= DATA_MAX && b.info.difficulty <= 256
  {
    Meets(BlockHash(c, WithNonce(b, nonce)), b.info.difficulty)
  }

  /** Some nonce meets the difficulty. Without one the search of block_mine runs for ever. */
  ghost predicate Minable(c: Suite, b: Block) {
    && b.data.len <= DATA_MAX && b.info.difficulty <= 256
    && exists nonce: uint64 :: NonceMeets(c, b, nonce)
  }

  /** The least nonce from n on that meets the difficulty. */
  ghost function NonceFrom(c: Suite, b: Block, n: uint64): (r: uint64)
    requires b.data.len <= DATA_MAX && b.info.difficulty <= 256
    requires exists nonce: uint64 :: nonce >= n && NonceMeets(c, b, nonce)
    ensures NonceMeets(c, b, r) && n <= r
    ensures forall m: uint64 :: n <= m < r ==> !NonceMeets(c, b, m)
    decreases 0x1_0000_0000_0000_0000 - n
  {
    if NonceMeets(c, b, n) then n else NonceFrom(c, b, n + 1)
  }

  ghost function LeastNonce(c: Suite, b: Block): (r: uint64)
    requires Minable(c, b)
    ensures NonceMeets(c, b, r)
    ensures forall m: uint64 :: m < r ==> !NonceMeets(c, b, m)
  {
    NonceFrom(c, b, 0)
  }

  ghost function Mined(c: Suite, b: Block): Block
    requires Minable(c, b)
  {
    var done := WithNonce(b, LeastNonce(c, b));
    done.(hash := BlockHash(c, done))
  }

  /** The data area: at most DATA_MAX bytes are taken, the rest of the buffer is zero. */
  function NewData(data: Bytes): Data {
    var len := if |data| > DATA_MAX then DATA_MAX else |data|;
    Data(data[..len] + Zeros(DATA_MAX - len), len)
  }

  function NewBlock(prev: Block, data: Bytes, time: uint64): Block {
    Block(Info(Wrap32(prev.info.index + 1), 0, time, 0, prev.hash), NewData(data), Some([]), Zeros(32))
  }

  /** The memory of a block, which is filled in step by step. */
  class BlockNode {
    var info: Info
    var data: Data
    var transactions: Option<seq<Tx>>
    var hash: Digest

    function Value(): Block
      reads this
    {
      Block(info, data, transactions, hash)
    }

    constructor FromValue(b: Block)
      ensures Value() == b
    {
      info, data, transactions, hash := b.info, b.data, b.transactions, b.hash;
    }

    /** block_create */
    constructor (prev: Block, data: Bytes, time: uint64)
      ensures Value() == NewBlock(prev, data, time)
    {
      var len := if |data| > DATA_MAX then DATA_MAX else |data|;
      this.data := Data(data[..len] + Zeros(DATA_MAX - len), len);
      info := Info(Wrap32(prev.info.index + 1), 0, time, 0, prev.hash);
      transactions := Some([]);
      hash := Zeros(32);
    }

    /** block_mine */
    method Mine(c: Suite)
      requires Minable(c, Value())
      modifies this`info, this`hash
      ensures Value() == Mined(c, old(Value()))
    {
      ghost var start := Value();
      ghost var goal := LeastNonce(c, start);
      var nonce: uint64 := 0;
      var digest: Digest := Zeros(32);
      while true
        invariant nonce <= goal
        invariant Value() == WithNonce(start, info.nonce)
        decreases goal - nonce
      {
        info := info.(nonce := nonce);
        digest := ComputeBlockHash(c, Value());
        var ok := HashMatchesDifficulty(digest, info.difficulty);
        assert ok <==> NonceMeets(c, start, nonce);
        if ok {
          assert nonce == goal;
          break;
        }
        nonce := nonce + 1;
      }
      hash := digest;
    }
  }

  // ---- what is mined, and what is new ----

  /** The digest of a block's bytes with another nonce, as a number. */
  function DigestWith(c: Suite, b: Block, nonce: uint64): nat
    requires b.data.len <= 1024
  {
    BigEndian(c.sha256(PackBlock(b.(info := b.info.(nonce := nonce)))))
  }

  /** A mined block differs from what it was in the nonce and the digest only; the digest is that of its bytes and as
      small as the difficulty asks; and with every smaller nonce it is not. */
  lemma {:induction false} MinedIsLeast(c: Suite, b: Block)
    requires Minable(c, b)
    ensures var m, bound := Mined(c, b), Pow2(256 - b.info.difficulty);
            && m == b.(info := b.info.(nonce := m.info.nonce), hash := m.hash)
            && m.hash == c.sha256(PackBlock(m))
            && BigEndian(m.hash) < bound
            && forall n: uint64 :: n < m.info.nonce ==> DigestWith(c, b, n) >= bound
  {
    var nonce := LeastNonce(c, b);
    assert NonceMeets(c, b, nonce);
    assert PackBlock(Mined(c, b)) == PackBlock(WithNonce(b, nonce));
    forall n: uint64 | n < nonce
      ensures DigestWith(c, b, n) >= Pow2(256 - b.info.difficulty)
    {
      assert !NonceMeets(c, b, n);
    }
  }

  /** The search ends exactly when some nonce gives such a digest. */
  lemma {:induction false} MinableExactlyWhen(c: Suite, b: Block)
    requires b.data.len <= 1024 && b.info.difficulty <= 256
    ensures Minable(c, b) <==> exists n: uint64 :: DigestWith(c, b, n) < Pow2(256 - b.info.difficulty)
  {
    forall n: uint64
      ensures NonceMeets(c, b, n) <==> DigestWith(c, b, n) < Pow2(256 - b.info.difficulty)
    {
    }
  }

  /** block_create keeps the first 1024 bytes it is given, and fills the rest with zeros. */
  lemma {:induction false} DataIsKept(data: Bytes)
    ensures var d := NewData(data);
            && d.len == (if |data| < 1024 then |data| else 1024)
            && (forall k :: 0 <= k < d.len ==> d.buffer[k] == data[k])
            && (forall k :: d.len <= k < 1024 ==> d.buffer[k] == 0)
  {
  }

  // ---- the coinbase ----

  function Coinbase(c: Suite, receiver: Pub, index: uint32): Tx {
    var input := TxIn(Zeros(32), Zeros(32), CoinbaseMark(index), NO_SIGN);
    var out := TxOut(COINBASE_AMOUNT, receiver, c.sha256(PackOut(COINBASE_AMOUNT, receiver)));
    Tx(TxHash(c, Tx(Zeros(32), [input], [out])), [input], [out])
  }

  /** coinbase_create */
  method CoinbaseCreate(c: Suite, receiver: EcKey, index: uint32) returns (tx: Tx)
    ensures tx == Coinbase(c, receiver.pub, index)
  {
    var out := TxOutCreate(c, COINBASE_AMOUNT, receiver.pub);
    var input := TxIn(Zeros(32), Zeros(32), LittleEndian(index, 4) + Zeros(28), NO_SIGN);
    var id := TransactionHash(c, Tx(Zeros(32), [input], [out.value]));
    tx := Tx(id.value, [input], [out.value]);
  }

  lemma {:induction false} CoinbaseIsAccepted(c: Suite, receiver: Pub, index: uint32)
    ensures CoinbaseValid(c, Coinbase(c, receiver, index), index)
    ensures OutOk(c, Coinbase(c, receiver, index).outputs[0])
  {
    assert CoinbaseMark(index)[..4] == LittleEndian(index, 4);
  }
}
