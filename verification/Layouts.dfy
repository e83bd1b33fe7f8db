/** Where every field stands, byte by byte: in what is hashed, and in the files, as the document of the format says. */
module Layouts {
  import opened Bytes
  import opened Crypto
  import opened Transactions
  import opened Blocks
  import opened Codec
  import opened FormatV03

  /** The field stands at this offset. */
  predicate FieldAt(x: Bytes, at: nat, field: Bytes) {
    at + |field| <= |x| && x[at..at + |field|] == field
  }

  /** The number stands at this offset, least significant byte first. */
  predicate NumberAt(x: Bytes, at: nat, width: nat, n: nat) {
    at + width <= |x| && FromLittleEndian(x[at..at + width]) == n
  }

  /** Four bytes as a number. */
  lemma {:induction false} FourBytes(b: Bytes)
    requires |b| == 4
    ensures FromLittleEndian(b)
            == b[0] as int + 0x100 * b[1] as int + 0x1_0000 * b[2] as int + 0x100_0000 * b[3] as int
  {
    var b1, b2, b3 := b[1..], b[2..], b[3..];
    assert b1[1..] == b2 && b2[1..] == b3 && b3[1..] == [];
    assert FromLittleEndian(b3) == b[3];
    assert FromLittleEndian(b2) == b[2] + 256 * FromLittleEndian(b3);
    assert FromLittleEndian(b1) == b[1] + 256 * FromLittleEndian(b2);
  }

  lemma {:induction false} LowAndHigh(a: Bytes, b: Bytes)
    ensures FromLittleEndian(a + b) == FromLittleEndian(a) + Pow256(|a|) * FromLittleEndian(b)
  {
    if a == [] {
      assert a + b == b;
    } else {
      LowAndHigh(a[1..], b);
      assert (a + b)[1..] == a[1..] + b;
      Shift(Pow256(|a| - 1), FromLittleEndian(b));
    }
  }

  lemma {:induction false} Shift(p: nat, n: nat)
    ensures 256 * (p * n) == (256 * p) * n
  {
  }

  /** Eight bytes are the two halves of a number, the lower one first. */
  lemma {:induction false} EightBytes(b: Bytes)
    requires |b| == 8
    ensures FromLittleEndian(b) == FromLittleEndian(b[..4]) + 0x1_0000_0000 * FromLittleEndian(b[4..])
  {
    LowAndHigh(b[..4], b[4..]);
    Widths();
    assert b[..4] + b[4..] == b;
  }

  // ---- parts of parts ----

  lemma {:induction false} SliceOfSlice(x: Bytes, at: nat, len: nat, off: nat, n: nat)
    requires at + len <= |x| && off + n <= len
    ensures x[at..at + len][off..off + n] == x[at + off..at + off + n]
  {
    var a, b := x[at..at + len][off..off + n], x[at + off..at + off + n];
    assert |a| == |b| && forall k :: 0 <= k < n ==> a[k] == b[k];
  }

  lemma {:induction false} FieldIn(x: Bytes, at: nat, part: Bytes, off: nat, field: Bytes)
    requires FieldAt(x, at, part) && FieldAt(part, off, field)
    ensures FieldAt(x, at + off, field)
  {
    SliceOfSlice(x, at, |part|, off, |field|);
  }

  lemma {:induction false} NumberIn(x: Bytes, at: nat, part: Bytes, off: nat, width: nat, n: nat)
    requires FieldAt(x, at, part) && NumberAt(part, off, width, n)
    ensures NumberAt(x, at + off, width, n)
  {
    SliceOfSlice(x, at, |part|, off, width);
  }

  lemma {:induction false} InMiddle(a: Bytes, b: Bytes, c: Bytes)
    ensures FieldAt(a + b + c, |a|, b)
  {
  }

  lemma {:induction false} StartOf(a: Bytes, b: Bytes)
    ensures FieldAt(a + b, 0, a) && FieldAt(a + b, |a|, b)
  {
  }

  lemma {:induction false} NumberOf(n: uint32)
    ensures NumberAt(LittleEndian(n, 4), 0, 4, n)
  {
    RoundTrip32(n);
    assert LittleEndian(n, 4)[0..4] == LittleEndian(n, 4);
  }

  lemma {:induction false} LongNumberOf(n: uint64)
    ensures NumberAt(LittleEndian(n, 8), 0, 8, n)
  {
    RoundTrip64(n);
    assert LittleEndian(n, 8)[0..8] == LittleEndian(n, 8);
  }

  lemma {:induction false} LastRecord<T>(xs: seq<T>, enc: T -> Bytes, size: nat)
    requires xs != [] && forall x <- xs :: |enc(x)| == size
    ensures var n, all := |xs| - 1, EncodeAll(xs, enc);
            && FieldAt(all, 0, EncodeAll(xs[..n], enc)) && FieldAt(all, size * n, enc(xs[n]))
  {
    var n := |xs| - 1;
    var init := xs[..n];
    assert forall i :: 0 <= i < n ==> init[i] == xs[i];
    ListLength(init, enc, size);
    StartOf(EncodeAll(init, enc), enc(xs[n]));
  }

  /** A record of fixed size stands at a multiple of it. */
  lemma {:induction false} RecordAt<T>(xs: seq<T>, enc: T -> Bytes, size: nat, k: nat)
    requires k < |xs| && forall x <- xs :: |enc(x)| == size
    ensures FieldAt(EncodeAll(xs, enc), size * k, enc(xs[k]))
  {
    var n, at := |xs| - 1, size * k;
    LastRecord(xs, enc, size);
    if k < n {
      var init := xs[..n];
      assert init[k] == xs[k];
      RecordAt(init, enc, size, k);
      FieldIn(EncodeAll(xs, enc), 0, EncodeAll(init, enc), at, enc(xs[k]));
    }
  }

  /** Lists are written one record after the other. */
  lemma {:induction false} InSequence<T>(a: seq<T>, b: seq<T>, enc: T -> Bytes)
    ensures EncodeAll(a + b, enc) == EncodeAll(a, enc) + EncodeAll(b, enc)
  {
    if b == [] {
      assert a + b == a;
    } else {
      var init, x := b[..|b| - 1], b[|b| - 1];
      InSequence(a, init, enc);
      assert (a + b)[..|a + b| - 1] == a + init && (a + b)[|a + b| - 1] == x;
      Assoc(EncodeAll(a, enc), EncodeAll(init, enc), enc(x));
    }
  }

  // ---- what is hashed ----

  lemma {:induction false} DigestAt(ds: seq<Digest>, k: nat)
    requires k < |ds|
    ensures FieldAt(PackDigests(ds), 32 * k, ds[k])
  {
    var n := |ds| - 1;
    StartOf(PackDigests(ds[..n]), ds[n]);
    if k < n {
      DigestAt(ds[..n], k);
      FieldIn(PackDigests(ds), 0, PackDigests(ds[..n]), 32 * k, ds[k]);
    }
  }

  lemma {:induction false} RefAt(refs: seq<Ref>, k: nat)
    requires k < |refs|
    ensures FieldAt(PackRefs(refs), 96 * k, PackRef(refs[k]))
  {
    var n := |refs| - 1;
    StartOf(PackRefs(refs[..n]), PackRef(refs[n]));
    if k < n {
      RefAt(refs[..n], k);
      FieldIn(PackRefs(refs), 0, PackRefs(refs[..n]), 96 * k, PackRef(refs[k]));
    }
  }

  /** The bytes of an output's digest: the amount, then the owner. */
  lemma {:induction false} HashedOutput(amount: uint32, pub: Pub)
    ensures |PackOut(amount, pub)| == 69
    ensures NumberAt(PackOut(amount, pub), 0, 4, amount) && FieldAt(PackOut(amount, pub), 4, pub)
  {
    StartOf(LittleEndian(amount, 4), pub);
    NumberOf(amount);
    NumberIn(PackOut(amount, pub), 0, LittleEndian(amount, 4), 0, 4, amount);
  }

  lemma {:induction false} HashedReference(i: TxIn)
    ensures var x := PackRef(InRef(i));
            FieldAt(x, 0, i.blockHash) && FieldAt(x, 32, i.txId) && FieldAt(x, 64, i.txOutHash)
  {
  }

  /** The bytes of a transaction's id: of each input the block digest, the transaction id and the output digest, and
      then the digest of each output. */
  lemma {:induction false} HashedInput(tx: Tx, k: nat)
    requires k < |tx.inputs|
    ensures |PackTx(tx)| == 96 * |tx.inputs| + 32 * |tx.outputs|
    ensures FieldAt(PackTx(tx), 96 * k, tx.inputs[k].blockHash)
    ensures FieldAt(PackTx(tx), 96 * k + 32, tx.inputs[k].txId)
    ensures FieldAt(PackTx(tx), 96 * k + 64, tx.inputs[k].txOutHash)
  {
    var x, refs, i := PackTx(tx), InRefs(tx.inputs), tx.inputs[k];
    StartOf(PackRefs(refs), PackDigests(OutHashes(tx.outputs)));
    RefAt(refs, k);
    FieldIn(x, 0, PackRefs(refs), 96 * k, PackRef(InRef(i)));
    HashedReference(i);
    FieldIn(x, 96 * k, PackRef(InRef(i)), 0, i.blockHash);
    FieldIn(x, 96 * k, PackRef(InRef(i)), 32, i.txId);
    FieldIn(x, 96 * k, PackRef(InRef(i)), 64, i.txOutHash);
  }

  lemma {:induction false} HashedOutputDigest(tx: Tx, k: nat)
    requires k < |tx.outputs|
    ensures FieldAt(PackTx(tx), 96 * |tx.inputs| + 32 * k, tx.outputs[k].hash)
  {
    var refs, hashes := PackRefs(InRefs(tx.inputs)), OutHashes(tx.outputs);
    StartOf(refs, PackDigests(hashes));
    DigestAt(hashes, k);
    FieldIn(PackTx(tx), |refs|, PackDigests(hashes), 32 * k, hashes[k]);
  }

  lemma {:induction false} InfoLayout(i: Info)
    ensures var x := PackInfo(i);
            && NumberAt(x, 0x00, 4, i.index) && NumberAt(x, 0x04, 4, i.difficulty)
            && NumberAt(x, 0x08, 8, i.timestamp) && NumberAt(x, 0x10, 8, i.nonce)
            && FieldAt(x, 0x18, i.prevHash)
  {
    var x := PackInfo(i);
    assert FieldAt(x, 0, LittleEndian(i.index, 4)) && FieldAt(x, 4, LittleEndian(i.difficulty, 4));
    assert FieldAt(x, 8, LittleEndian(i.timestamp, 8)) && FieldAt(x, 16, LittleEndian(i.nonce, 8));
    NumberOf(i.index);
    NumberOf(i.difficulty);
    LongNumberOf(i.timestamp);
    LongNumberOf(i.nonce);
    NumberIn(x, 0, LittleEndian(i.index, 4), 0, 4, i.index);
    NumberIn(x, 4, LittleEndian(i.difficulty, 4), 0, 4, i.difficulty);
    NumberIn(x, 8, LittleEndian(i.timestamp, 8), 0, 8, i.timestamp);
    NumberIn(x, 16, LittleEndian(i.nonce, 8), 0, 8, i.nonce);
  }

  lemma {:induction false} HeaderFields(i: Info, x: Bytes)
    requires FieldAt(x, 0, PackInfo(i))
    ensures NumberAt(x, 0x00, 4, i.index) && NumberAt(x, 0x04, 4, i.difficulty)
    ensures NumberAt(x, 0x08, 8, i.timestamp) && NumberAt(x, 0x10, 8, i.nonce)
    ensures FieldAt(x, 0x18, i.prevHash)
  {
    var info := PackInfo(i);
    InfoLayout(i);
    NumberIn(x, 0, info, 0, 4, i.index);
    NumberIn(x, 0, info, 4, 4, i.difficulty);
    NumberIn(x, 0, info, 8, 8, i.timestamp);
    NumberIn(x, 0, info, 16, 8, i.nonce);
    FieldIn(x, 0, info, 24, i.prevHash);
  }

  /** The bytes of a block's digest: the header with the timestamp before the nonce, the data up to its length, and the
      transaction ids. */
  lemma {:induction false} HashedBlock(b: Block)
    requires b.data.len <= 1024
    ensures var x := PackBlock(b);
            && |x| == 56 + b.data.len + 32 * |TxList(b)|
            && NumberAt(x, 0, 4, b.info.index) && NumberAt(x, 4, 4, b.info.difficulty)
            && NumberAt(x, 8, 8, b.info.timestamp) && NumberAt(x, 16, 8, b.info.nonce)
            && FieldAt(x, 24, b.info.prevHash)
            && FieldAt(x, 56, b.data.buffer[..b.data.len])
  {
    var x, info, ids := PackBlock(b), PackInfo(b.info), PackDigests(TxIds(TxList(b)));
    InMiddle(info, Payload(b.data), ids);
    assert x == info + (Payload(b.data) + ids);
    StartOf(info, Payload(b.data) + ids);
    HeaderFields(b.info, x);
  }

  lemma {:induction false} HashedTransactionId(b: Block, k: nat)
    requires b.data.len <= 1024 && k < |TxList(b)|
    ensures FieldAt(PackBlock(b), 56 + b.data.len + 32 * k, TxList(b)[k].id)
  {
    var front, ids := PackInfo(b.info) + Payload(b.data), TxIds(TxList(b));
    StartOf(front, PackDigests(ids));
    DigestAt(ids, k);
    FieldIn(PackBlock(b), |front|, PackDigests(ids), 32 * k, ids[k]);
  }

  /** The genesis block: its header, and the 16 characters of its data. */
  lemma {:induction false} GenesisContents()
    ensures var g := Genesis();
            && g.info == Info(0, 0, 1537578000, 0, Zeros(32)) && g.transactions == None && g.data.len == 16
            && g.data.buffer[..16] == [0x48, 0x6F, 0x6C, 0x62, 0x65, 0x72, 0x74, 0x6F, 0x6E, 0x20,
                                       0x53, 0x63, 0x68, 0x6F, 0x6F, 0x6C]
  {
    var text := Chars("Holberton School");
    assert Genesis().data.buffer[..16] == text;
  }

  // ---- files ----

  lemma {:induction false} After(a: Bytes, rest: Bytes, off: nat, field: Bytes)
    requires FieldAt(rest, off, field)
    ensures FieldAt(a + rest, |a| + off, field)
  {
    StartOf(a, rest);
    FieldIn(a + rest, |a|, rest, off, field);
  }

  lemma {:induction false} NumberAtField(x: Bytes, at: nat, n: uint32)
    requires FieldAt(x, at, Encode32(n))
    ensures NumberAt(x, at, 4, n)
  {
    NumberOf(n);
    NumberIn(x, at, Encode32(n), 0, 4, n);
  }

  /** A transaction input, on 169 bytes. */
  lemma {:induction false} InputLayout(i: TxIn)
    ensures var x := EncodeIn(i);
            && |x| == 169
            && FieldAt(x, 0x00, i.blockHash) && FieldAt(x, 0x20, i.txId) && FieldAt(x, 0x40, i.txOutHash)
            && FieldAt(x, 0x60, i.sig.sig) && x[0xA8] == i.sig.len
  {
  }

  /** A transaction output, on 101 bytes. */
  lemma {:induction false} OutputLayout(o: TxOut)
    ensures var x := EncodeOut(o);
            && |x| == 101
            && NumberAt(x, 0x00, 4, o.amount) && FieldAt(x, 0x04, o.pub) && FieldAt(x, 0x45, o.hash)
  {
    var x := EncodeOut(o);
    assert FieldAt(x, 0, Encode32(o.amount));
    NumberAtField(x, 0, o.amount);
  }

  /** An unspent output, on 165 bytes. */
  lemma {:induction false} UnspentLayout(u: Unspent)
    ensures var x := EncodeUnspent(u);
            && |x| == 165
            && FieldAt(x, 0x00, u.blockHash) && FieldAt(x, 0x20, u.txId)
            && NumberAt(x, 0x40, 4, u.out.amount) && FieldAt(x, 0x44, u.out.pub) && FieldAt(x, 0x85, u.out.hash)
  {
    var x, o := EncodeUnspent(u), EncodeOut(u.out);
    OutputLayout(u.out);
    StartOf(u.blockHash + u.txId, o);
    NumberIn(x, 64, o, 0, 4, u.out.amount);
    FieldIn(x, 64, o, 0x04, u.out.pub);
    FieldIn(x, 64, o, 0x45, u.out.hash);
    StartOf(u.blockHash, u.txId);
    FieldIn(x, 0, u.blockHash + u.txId, 0, u.blockHash);
    FieldIn(x, 0, u.blockHash + u.txId, 32, u.txId);
  }

  /** Five parts one behind the other. */
  lemma {:induction false} PartsInOrder(a: Bytes, b: Bytes, c: Bytes, d: Bytes, e: Bytes)
    ensures var x := a + (b + (c + (d + e)));
            && FieldAt(x, 0, a) && FieldAt(x, |a|, b) && FieldAt(x, |a| + |b|, c)
            && FieldAt(x, |a| + |b| + |c|, d) && FieldAt(x, |a| + |b| + |c| + |d|, e)
  {
    var x := a + (b + (c + (d + e)));
    assert x == a + b + c + d + e;
  }

  /** A transaction: its id, the two counts, the inputs and the outputs, each list one record after the other. */
  lemma {:induction false} TransactionLayout(tx: Tx)
    ensures var x, ins := EncodeTx(tx), EncodeAll(tx.inputs, EncodeIn);
            && FieldAt(x, 0x00, tx.id)
            && NumberAt(x, 0x20, 4, |tx.inputs| % 0x1_0000_0000) && NumberAt(x, 0x24, 4, |tx.outputs| % 0x1_0000_0000)
            && FieldAt(x, 0x28, ins)
            && |ins| == 169 * |tx.inputs| && FieldAt(x, 0x28 + |ins|, EncodeAll(tx.outputs, EncodeOut))
  {
    var a, b := Encode32(Wrap32(|tx.inputs|)), Encode32(Wrap32(|tx.outputs|));
    PartsInOrder(tx.id, a, b, EncodeAll(tx.inputs, EncodeIn), EncodeAll(tx.outputs, EncodeOut));
    ListLength(tx.inputs, EncodeIn, 169);
    NumberAtField(EncodeTx(tx), 0x20, Wrap32(|tx.inputs|));
    NumberAtField(EncodeTx(tx), 0x24, Wrap32(|tx.outputs|));
  }

  /** Its k-th input. */
  lemma {:induction false} InputRecord(tx: Tx, k: nat)
    requires k < |tx.inputs|
    ensures FieldAt(EncodeTx(tx), 0x28 + 169 * k, EncodeIn(tx.inputs[k]))
  {
    TransactionLayout(tx);
    RecordAt(tx.inputs, EncodeIn, 169, k);
    FieldIn(EncodeTx(tx), 0x28, EncodeAll(tx.inputs, EncodeIn), 169 * k, EncodeIn(tx.inputs[k]));
  }

  /** Its k-th output. */
  lemma {:induction false} OutputRecord(tx: Tx, k: nat)
    requires k < |tx.outputs|
    ensures FieldAt(EncodeTx(tx), 0x28 + 169 * |tx.inputs| + 101 * k, EncodeOut(tx.outputs[k]))
  {
    var at := 0x28 + 169 * |tx.inputs|;
    TransactionLayout(tx);
    RecordAt(tx.outputs, EncodeOut, 101, k);
    FieldIn(EncodeTx(tx), at, EncodeAll(tx.outputs, EncodeOut), 101 * k, EncodeOut(tx.outputs[k]));
  }

  /** The fields of a block that both versions of the file hold. */
  lemma {:induction false} CoreLayout(b: Core)
    requires b.data.len <= 1024
    ensures var x, len := EncodeCore(b), b.data.len;
            && |x| == 0x5C + len
            && NumberAt(x, 0x00, 4, b.info.index) && NumberAt(x, 0x04, 4, b.info.difficulty)
            && NumberAt(x, 0x08, 8, b.info.timestamp) && NumberAt(x, 0x10, 8, b.info.nonce)
            && FieldAt(x, 0x18, b.info.prevHash)
            && NumberAt(x, 0x38, 4, len) && FieldAt(x, 0x3C, b.data.buffer[..len]) && FieldAt(x, 0x3C + len, b.hash)
  {
    var x, info, rest := EncodeCore(b), PackInfo(b.info), Encode32(b.data.len) + (Content(b.data) + b.hash);
    CoreTail(b);
    StartOf(info, rest);
    After(info, rest, 0, Encode32(b.data.len));
    After(info, rest, 4, Content(b.data));
    After(info, rest, 4 + b.data.len, b.hash);
    NumberAtField(x, 0x38, b.data.len);
    HeaderFields(b.info, x);
  }

  lemma {:induction false} CoreTail(b: Core)
    requires b.data.len <= 1024
    ensures var n, content := Encode32(b.data.len), Content(b.data);
            var rest := n + (content + b.hash);
            && |content| == b.data.len && |rest| == 0x24 + b.data.len
            && FieldAt(rest, 0, n) && FieldAt(rest, 4, content) && FieldAt(rest, 4 + b.data.len, b.hash)
  {
    var n, content := Encode32(b.data.len), Content(b.data);
    StartOf(content, b.hash);
    StartOf(n, content + b.hash);
    After(n, content + b.hash, 0, content);
    After(n, content + b.hash, |content|, b.hash);
  }

  /** A block: these fields, the number of its transactions, with -1 for index 0 and for a NULL list, and the
      transactions. */
  lemma {:induction false} BlockLayout(b: Block)
    requires b.data.len <= 1024
    ensures var x, len := EncodeBlock(b), b.data.len;
            && FieldAt(x, 0, EncodeCore(Core(b.info, b.data, b.hash)))
            && NumberAt(x, 0x5C + len, 4, if b.info.index == 0 || b.transactions.None? then 0xFFFF_FFFF
                                          else |b.transactions.value| % 0x1_0000_0000)
            && FieldAt(x, 0x60 + len, EncodeAll(TxList(b), EncodeTx))
  {
    var core, n, txs := EncodeCore(CoreOf(b)), Encode32(StoredCount(b)), EncodeAll(TxList(b), EncodeTx);
    CoreLayout(CoreOf(b));
    StartOf(n, txs);
    StartOf(core, n + txs);
    After(core, n + txs, 0, n);
    After(core, n + txs, 4, txs);
    NumberAtField(EncodeBlock(b), 0x5C + b.data.len, StoredCount(b));
  }

  /** A file: "HBLK", "0.3", the byte order, the two counts, the blocks, and the unspent outputs. */
  lemma {:induction false} FileLayout(chain: seq<Block>, us: seq<Unspent>)
    ensures var x, blocks := EncodeFile(chain, us), EncodeAll(chain, EncodeBlock);
            && FieldAt(x, 0x00, [0x48, 0x42, 0x4C, 0x4B]) && FieldAt(x, 0x04, [0x30, 0x2E, 0x33])
            && FieldAt(x, 0x07, [1])
            && NumberAt(x, 0x08, 4, |chain| % 0x1_0000_0000) && NumberAt(x, 0x0C, 4, |us| % 0x1_0000_0000)
            && FieldAt(x, 0x10, blocks) && FieldAt(x, 0x10 + |blocks|, EncodeAll(us, EncodeUnspent))
  {
    BodyInFile(EncodeHeader(|chain|, |us|), EncodeAll(chain, EncodeBlock), EncodeAll(us, EncodeUnspent));
    HeaderInFile(EncodeFile(chain, us), |chain|, |us|);
  }

  lemma {:induction false} BodyInFile(header: Bytes, blocks: Bytes, us: Bytes)
    ensures var x := header + (blocks + us);
            && FieldAt(x, 0, header) && FieldAt(x, |header|, blocks) && FieldAt(x, |header| + |blocks|, us)
  {
    StartOf(blocks, us);
    StartOf(header, blocks + us);
    After(header, blocks + us, 0, blocks);
    After(header, blocks + us, |blocks|, us);
  }

  lemma {:induction false} HeaderInFile(x: Bytes, blocks: nat, unspent: nat)
    requires FieldAt(x, 0, EncodeHeader(blocks, unspent))
    ensures FieldAt(x, 0, [0x48, 0x42, 0x4C, 0x4B]) && FieldAt(x, 4, [0x30, 0x2E, 0x33]) && FieldAt(x, 7, [1])
    ensures NumberAt(x, 8, 4, blocks % 0x1_0000_0000) && NumberAt(x, 12, 4, unspent % 0x1_0000_0000)
  {
    var header := EncodeHeader(blocks, unspent);
    HeaderLayout(blocks, unspent);
    FieldIn(x, 0, header, 0, [0x48, 0x42, 0x4C, 0x4B]);
    FieldIn(x, 0, header, 4, [0x30, 0x2E, 0x33]);
    FieldIn(x, 0, header, 7, [1]);
    NumberIn(x, 0, header, 8, 4, Wrap32(blocks));
    NumberIn(x, 0, header, 12, 4, Wrap32(unspent));
  }

  lemma {:induction false} HeaderLayout(blocks: nat, unspent: nat)
    ensures var x := EncodeHeader(blocks, unspent);
            && FieldAt(x, 0, [0x48, 0x42, 0x4C, 0x4B]) && FieldAt(x, 4, [0x30, 0x2E, 0x33]) && FieldAt(x, 7, [1])
            && NumberAt(x, 8, 4, blocks % 0x1_0000_0000) && NumberAt(x, 12, 4, unspent % 0x1_0000_0000)
  {
    var x := EncodeHeader(blocks, unspent);
    assert FieldAt(x, 8, Encode32(Wrap32(blocks))) && FieldAt(x, 12, Encode32(Wrap32(unspent)));
    NumberAtField(x, 8, Wrap32(blocks));
    NumberAtField(x, 12, Wrap32(unspent));
  }

  // ---- files that are refused ----

  /** A file is refused exactly when its first seven bytes are not "HBLK" and "0.3". */
  lemma {:induction false} RefusedExactlyWhen(bs: Bytes)
    requires |bs| >= 16
    ensures ParseFile(bs) == Refused <==> bs[..7] != [0x48, 0x42, 0x4C, 0x4B, 0x30, 0x2E, 0x33]
  {
    var h := bs[..16];
    assert h[..4] == bs[..7][..4] && h[4..7] == bs[..7][4..7];
    assert bs[..7] == bs[..7][..4] + bs[..7][4..7];
  }

  /** So is every file of an older version. */
  lemma {:induction false} OlderVersionsAreRefused(bs: Bytes)
    requires |bs| >= 16 && bs[4] == 0x30 && bs[5] == 0x2E && (bs[6] == 0x31 || bs[6] == 0x32)
    ensures ParseFile(bs) == Refused
  {
    RefusedExactlyWhen(bs);
    assert bs[..7][6] == bs[6];
  }

  /** What is written is never refused, whatever follows it. */
  lemma {:induction false} WrittenIsNotRefused(chain: seq<Block>, us: seq<Unspent>, tail: Bytes)
    ensures ParseFile(EncodeFile(chain, us) + tail) != Refused
  {
    var x := EncodeFile(chain, us);
    FileLayout(chain, us);
    var bs := x + tail;
    assert bs[..7] == x[0..4] + x[4..7];
    RefusedExactlyWhen(bs);
  }

  lemma {:induction false} ListCount<T>(bs: Bytes, n: nat, parse: Bytes -> Parsed<T>)
    ensures var p := ParseAll(bs, n, parse);
            p.Some? ==> |p.value.0| == n
  {
    if n > 0 {
      ListCount(bs, n - 1, parse);
    }
  }

  /** What is loaded has as many blocks and unspent outputs as the header says. */
  lemma {:induction false} LoadedCounts(bs: Bytes)
    requires ParseFile(bs).Loaded?
    ensures |bs| >= 16 && NumberAt(bs, 8, 4, |ParseFile(bs).chain|) && NumberAt(bs, 12, 4, |ParseFile(bs).unspent|)
  {
    ListCount(bs[16..], Read32(bs[8..12]), ParseBlock);
    ListCount(ParseAll(bs[16..], Read32(bs[8..12]), ParseBlock).value.1, Read32(bs[12..16]), ParseUnspent);
  }

  /** A stored count that is negative as a signed number, and not -1, is read as an empty list. */
  lemma {:induction false} NegativeCountIsEmpty(core: Core, n: uint32, rest: Bytes)
    requires 0x8000_0000 <= n < 0xFFFF_FFFF
    ensures ParseTransactions(core, n, rest) == Some((Block(core.info, core.data, Some([]), core.hash), rest))
  {
  }
}
