/** Transactions, their inputs and outputs, and the digests that identify them. */
module Transactions {
  import opened Bytes
  import opened Crypto

  const COINBASE_AMOUNT: uint32 := 50

  datatype TxOut = TxOut(amount: uint32, pub: Pub, hash: Digest)

  datatype TxIn = TxIn(blockHash: Digest, txId: Digest, txOutHash: Digest, sig: Sign)

  datatype Tx = Tx(id: Digest, inputs: seq<TxIn>, outputs: seq<TxOut>)

  /** An entry of the list of unspent outputs: an output and where it was created. */
  datatype Unspent = Unspent(blockHash: Digest, txId: Digest, out: TxOut)

  /** What an input names: a block, a transaction of it, and the digest of an output. */
  datatype Ref = Ref(blockHash: Digest, txId: Digest, outHash: Digest)

  function InRef(i: TxIn): Ref {
    Ref(i.blockHash, i.txId, i.txOutHash)
  }

  function EntryRef(u: Unspent): Ref {
    Ref(u.blockHash, u.txId, u.out.hash)
  }

  function InRefs(ins: seq<TxIn>): (r: seq<Ref>)
    ensures |r| == |ins|
  {
    seq(|ins|, k requires 0 <= k < |ins| => InRef(ins[k]))
  }

  function EntryRefs(us: seq<Unspent>): (r: seq<Ref>)
    ensures |r| == |us|
  {
    seq(|us|, k requires 0 <= k < |us| => EntryRef(us[k]))
  }

  function Outs(us: seq<Unspent>): (r: seq<TxOut>)
    ensures |r| == |us|
  {
    seq(|us|, k requires 0 <= k < |us| => us[k].out)
  }

  /** The exact sum of the amounts. */
  function Total(outs: seq<TxOut>): nat {
    if outs == [] then 0 else Total(outs[..|outs| - 1]) + outs[|outs| - 1].amount
  }

  lemma {:induction false} TotalTake(outs: seq<TxOut>, k: nat)
    requires k < |outs|
    ensures Total(outs[..k + 1]) == Total(outs[..k]) + outs[k].amount
  {
    assert outs[..k + 1][..k] == outs[..k];
  }

  // ---- outputs ----

  /** The 69 bytes an output's digest is taken of. */
  function PackOut(amount: uint32, pub: Pub): (r: Bytes)
    ensures |r| == 69
  {
    LittleEndian(amount, 4) + pub
  }

  function TxOutCreate(c: Suite, amount: uint32, pub: Pub): Option<TxOut> {
    if amount == 0 then None
    else Some(TxOut(amount, pub, c.sha256(PackOut(amount, pub))))
  }

  predicate OutOk(c: Suite, o: TxOut) {
    o.amount > 0 && o.hash == c.sha256(PackOut(o.amount, o.pub))
  }

  function UnspentCreate(blockHash: Digest, txId: Digest, out: TxOut): Unspent {
    Unspent(blockHash, txId, out)
  }

  function TxInCreate(u: Unspent): TxIn {
    TxIn(u.blockHash, u.txId, u.out.hash, NO_SIGN)
  }

  // ---- the digest of a transaction ----

  function PackRef(r: Ref): (b: Bytes)
    ensures |b| == 96
  {
    r.blockHash + r.txId + r.outHash
  }

  function PackRefs(refs: seq<Ref>): (b: Bytes)
    ensures |b| == 96 * |refs|
  {
    if refs == [] then [] else PackRefs(refs[..|refs| - 1]) + PackRef(refs[|refs| - 1])
  }

  function PackDigests(ds: seq<Digest>): (b: Bytes)
    ensures |b| == 32 * |ds|
  {
    if ds == [] then [] else PackDigests(ds[..|ds| - 1]) + ds[|ds| - 1]
  }

  function OutHashes(outs: seq<TxOut>): (r: seq<Digest>)
    ensures |r| == |outs|
  {
    seq(|outs|, k requires 0 <= k < |outs| => outs[k].hash)
  }

  function PackTx(tx: Tx): Bytes {
    PackRefs(InRefs(tx.inputs)) + PackDigests(OutHashes(tx.outputs))
  }

  function TxHash(c: Suite, tx: Tx): Digest {
    c.sha256(PackTx(tx))
  }

  /** memcpy into a buffer at a cursor. */
  method CopyInto(buffer: array<byte>, at: nat, src: Bytes)
    requires at + |src| <= buffer.Length
    modifies buffer
    ensures buffer[..] == old(buffer[..at]) + src + old(buffer[at + |src|..])
  {
    ghost var front, was := buffer[..at], buffer[..];
    for k := 0 to |src|
      invariant buffer[..at + k] == front + src[..k]
      invariant buffer[at + k..] == was[at + k..]
    {
      buffer[at + k] := src[k];
    }
  }

  /** The callback `inputs` over the input list: each reference is copied at the cursor. */
  method PackInputs(buffer: array<byte>, ins: seq<TxIn>) returns (pos: nat)
    requires 96 * |ins| <= buffer.Length
    modifies buffer
    ensures pos == 96 * |ins| && buffer[..pos] == PackRefs(InRefs(ins))
  {
    ghost var refs := InRefs(ins);
    pos := 0;
    for k := 0 to |ins|
      invariant pos == 96 * k
      invariant buffer[..pos] == PackRefs(refs[..k])
    {
      CopyInto(buffer, pos, ins[k].blockHash + ins[k].txId + ins[k].txOutHash);
      pos := pos + 96;
      assert refs[..k + 1][..k] == refs[..k];
    }
    assert refs[..|refs|] == refs;
  }

  /** The callback `outputs` over the output list. */
  method PackOutputs(buffer: array<byte>, start: nat, outs: seq<TxOut>)
    requires start + 32 * |outs| == buffer.Length
    modifies buffer
    ensures buffer[..] == old(buffer[..start]) + PackDigests(OutHashes(outs))
  {
    ghost var front, hashes := buffer[..start], OutHashes(outs);
    var pos := start;
    for k := 0 to |outs|
      invariant pos == start + 32 * k
      invariant buffer[..pos] == front + PackDigests(hashes[..k])
    {
      CopyInto(buffer, pos, outs[k].hash);
      pos := pos + 32;
      assert hashes[..k + 1][..k] == hashes[..k];
    }
    assert hashes[..|hashes|] == hashes;
    assert buffer[..] == buffer[..pos];
  }

  /** The digest of a transaction, None when it has neither inputs nor outputs. */
  method TransactionHash(c: Suite, tx: Tx) returns (r: Option<Digest>)
    ensures r == if tx.inputs == [] && tx.outputs == [] then None else Some(TxHash(c, tx))
  {
    var size := 96 * |tx.inputs| + 32 * |tx.outputs|;
    if size == 0 {
      return None;
    }
    var buffer := new byte[size];
    var pos := PackInputs(buffer, tx.inputs);
    PackOutputs(buffer, pos, tx.outputs);
    return Some(c.sha256(buffer[..]));
  }

  // ---- what a digest pins down ----

  lemma {:induction false} PackRefsInjective(a: seq<Ref>, b: seq<Ref>)
    requires PackRefs(a) == PackRefs(b)
    ensures a == b
  {
    assert |a| == |b|;
    if a != [] {
      var n := |a| - 1;
      var x, y := PackRefs(a), PackRefs(b);
      assert x[..96 * n] == PackRefs(a[..n]) && y[..96 * n] == PackRefs(b[..n]);
      assert x[96 * n..] == PackRef(a[n]) && y[96 * n..] == PackRef(b[n]);
      PackRefsInjective(a[..n], b[..n]);
      PackRefInjective(a[n], b[n]);
      assert a == a[..n] + [a[n]] && b == b[..n] + [b[n]];
    }
  }

  lemma {:induction false} PackRefInjective(a: Ref, b: Ref)
    requires PackRef(a) == PackRef(b)
    ensures a == b
  {
    var x, y := PackRef(a), PackRef(b);
    assert x[..32] == a.blockHash && y[..32] == b.blockHash;
    assert x[32..64] == a.txId && y[32..64] == b.txId;
    assert x[64..] == a.outHash && y[64..] == b.outHash;
  }

  lemma {:induction false} PackDigestsInjective(a: seq<Digest>, b: seq<Digest>)
    requires PackDigests(a) == PackDigests(b)
    ensures a == b
  {
    assert |a| == |b|;
    if a != [] {
      var n := |a| - 1;
      var x, y := PackDigests(a), PackDigests(b);
      assert x[..32 * n] == PackDigests(a[..n]) && y[..32 * n] == PackDigests(b[..n]);
      assert x[32 * n..] == a[n] && y[32 * n..] == b[n];
      PackDigestsInjective(a[..n], b[..n]);
      assert a == a[..n] + [a[n]] && b == b[..n] + [b[n]];
    }
  }

  lemma {:induction false} PackOutInjective(a: uint32, p: Pub, b: uint32, q: Pub)
    requires PackOut(a, p) == PackOut(b, q)
    ensures a == b && p == q
  {
    var x, y := PackOut(a, p), PackOut(b, q);
    assert x[..4] == LittleEndian(a, 4) && y[..4] == LittleEndian(b, 4);
    assert x[4..] == p && y[4..] == q;
    RoundTrip32(a);
    RoundTrip32(b);
  }

  /** Two transactions with the same id, whose packed bytes are no collision, name the same outputs and create outputs
      of the same digests, in the same order, if and only if they have equally many outputs. */
  lemma {:induction false} TransactionIdDeterminesExactly(c: Suite, a: Tx, b: Tx)
    requires a.id == TxHash(c, a) && b.id == TxHash(c, b) && a.id == b.id
    requires !Collision(c, PackTx(a), PackTx(b))
    ensures InRefs(a.inputs) == InRefs(b.inputs) && OutHashes(a.outputs) == OutHashes(b.outputs)
            <==> |a.outputs| == |b.outputs|
    ensures 3 * |a.inputs| + |a.outputs| == 3 * |b.inputs| + |b.outputs|
  {
    var x, y := PackTx(a), PackTx(b);
    assert x == y;
    if |a.outputs| == |b.outputs| {
      var n := 96 * |a.inputs|;
      assert x[..n] == PackRefs(InRefs(a.inputs)) && y[..n] == PackRefs(InRefs(b.inputs));
      assert x[n..] == PackDigests(OutHashes(a.outputs)) && y[n..] == PackDigests(OutHashes(b.outputs));
      PackRefsInjective(InRefs(a.inputs), InRefs(b.inputs));
      PackDigestsInjective(OutHashes(a.outputs), OutHashes(b.outputs));
    } else {
      assert |OutHashes(a.outputs)| != |OutHashes(b.outputs)|;
    }
  }

  /** In particular when their numbers of outputs differ by less than three, as those of payments do. */
  lemma {:induction false} TransactionIdDetermines(c: Suite, a: Tx, b: Tx)
    requires a.id == TxHash(c, a) && b.id == TxHash(c, b) && a.id == b.id
    requires -3 < |a.outputs| - |b.outputs| < 3
    ensures Collision(c, PackTx(a), PackTx(b))
            || (InRefs(a.inputs) == InRefs(b.inputs) && OutHashes(a.outputs) == OutHashes(b.outputs))
  {
    if !Collision(c, PackTx(a), PackTx(b)) {
      TransactionIdDeterminesExactly(c, a, b);
    }
  }

  /** The digest of an output determines its amount and its owner, up to a collision of 69-byte strings. */
  lemma {:induction false} OutputHashDetermines(c: Suite, a: TxOut, b: TxOut)
    requires OutOk(c, a) && OutOk(c, b) && a.hash == b.hash
    ensures a == b || Collision(c, PackOut(a.amount, a.pub), PackOut(b.amount, b.pub))
  {
    if PackOut(a.amount, a.pub) == PackOut(b.amount, b.pub) {
      PackOutInjective(a.amount, a.pub, b.amount, b.pub);
    }
  }

  lemma {:induction false} PackDigestsSnoc(ds: seq<Digest>, d: Digest)
    ensures PackDigests(ds + [d]) == PackDigests(ds) + d
  {
    assert (ds + [d])[..|ds|] == ds;
  }

  lemma {:induction false} PackFour(x: Digest, y: Digest, z: Digest, o: Digest)
    ensures PackDigests([x, y, z, o]) == x + y + z + o
  {
    PackDigestsSnoc([], x);
    PackDigestsSnoc([x], y);
    PackDigestsSnoc([x, y], z);
    PackDigestsSnoc([x, y, z], o);
    assert [] + [x] == [x] && [x] + [y] == [x, y];
    assert [x, y] + [z] == [x, y, z] && [x, y, z] + [o] == [x, y, z, o];
  }

  lemma {:induction false} PackOneOne(i: TxIn, o: TxOut)
    ensures PackTx(Tx(o.hash, [i], [o])) == PackRef(InRef(i)) + o.hash
  {
    assert InRefs([i])[..0] == [] && OutHashes([o])[..0] == [];
    assert PackRefs(InRefs([i])) == PackRefs([]) + PackRef(InRef(i));
    assert PackDigests(OutHashes([o])) == PackDigests([]) + o.hash;
  }

  lemma {:induction false} PackNoneFour(x: TxOut, y: TxOut, z: TxOut, o: TxOut)
    ensures PackTx(Tx(o.hash, [], [x, y, z, o])) == x.hash + y.hash + z.hash + o.hash
  {
    assert OutHashes([x, y, z, o]) == [x.hash, y.hash, z.hash, o.hash];
    PackFour(x.hash, y.hash, z.hash, o.hash);
  }

  /** The bound is tight: an input of one transaction reads as three outputs of another. */
  lemma {:induction false} ThreeOutputsReadAsAnInput(c: Suite, i: TxIn, o: TxOut, x: TxOut, y: TxOut, z: TxOut)
    requires x.hash == i.blockHash && y.hash == i.txId && z.hash == i.txOutHash
    ensures TxHash(c, Tx(o.hash, [i], [o])) == TxHash(c, Tx(o.hash, [], [x, y, z, o]))
  {
    PackOneOne(i, o);
    PackNoneFour(x, y, z, o);
  }
}
