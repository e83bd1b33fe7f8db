/** What validation notices of a changed transaction, and what it does not look at. */
module TamperEvidence {
  import opened Bytes
  import opened Crypto
  import opened Transactions
  import opened Validity
  import opened Blocks
  import opened Mining

  /** Two accepted transactions of the same id and equally many outputs name the same references and create outputs of
      the same digests, or their packed bytes collide. */
  lemma {:induction false} AcceptedIdDetermines(c: Suite, a: Tx, us: seq<Unspent>, b: Tx, us': seq<Unspent>)
    requires TxValid(c, a, us) && TxValid(c, b, us') && a.id == b.id && |a.outputs| == |b.outputs|
    ensures Collision(c, PackTx(a), PackTx(b))
            || (InRefs(a.inputs) == InRefs(b.inputs) && OutHashes(a.outputs) == OutHashes(b.outputs))
  {
    TransactionIdDetermines(c, a, b);
  }

  /** So a transaction that names other references, or creates outputs of other digests, under the id of an accepted one
      is refused by every list, or the change has found a collision. */
  lemma {:induction false} ChangeIsRefused(c: Suite, a: Tx, us: seq<Unspent>, b: Tx, us': seq<Unspent>)
    requires TxValid(c, a, us) && a.id == b.id && -3 < |a.outputs| - |b.outputs| < 3
    requires InRefs(a.inputs) != InRefs(b.inputs) || OutHashes(a.outputs) != OutHashes(b.outputs)
    ensures !TxValid(c, b, us') || Collision(c, PackTx(a), PackTx(b))
  {
    if TxValid(c, b, us') {
      TransactionIdDetermines(c, a, b);
    }
  }

  function OutFor(c: Suite, amount: uint32, pub: Pub): TxOut {
    TxOut(amount, pub, c.sha256(PackOut(amount, pub)))
  }

  /** In particular: when an output of an accepted transaction is exchanged for one of another amount or owner, with its
      own digest, the transaction is refused, or bytes of the two collide. */
  lemma {:induction false} RedirectionIsRefused(c: Suite, tx: Tx, us: seq<Unspent>, k: nat, amount: uint32, pub: Pub,
                                                us': seq<Unspent>)
    requires TxValid(c, tx, us) && k < |tx.outputs| && OutOk(c, tx.outputs[k])
    requires tx.outputs[k].amount != amount || tx.outputs[k].pub != pub
    ensures var o := tx.outputs[k];
            var tx' := tx.(outputs := tx.outputs[k := OutFor(c, amount, pub)]);
            || !TxValid(c, tx', us')
            || Collision(c, PackTx(tx), PackTx(tx'))
            || Collision(c, PackOut(o.amount, o.pub), PackOut(amount, pub))
  {
    var o, o' := tx.outputs[k], OutFor(c, amount, pub);
    var tx' := tx.(outputs := tx.outputs[k := o']);
    if o.hash == o'.hash {
      PackedDiffer(o.amount, o.pub, amount, pub);
    } else {
      assert OutHashes(tx.outputs)[k] == o.hash && OutHashes(tx'.outputs)[k] == o'.hash;
      ChangeIsRefused(c, tx, us, tx', us');
    }
  }

  lemma {:induction false} PackedDiffer(a: uint32, p: Pub, b: uint32, q: Pub)
    requires a != b || p != q
    ensures PackOut(a, p) != PackOut(b, q)
  {
    if PackOut(a, p) == PackOut(b, q) {
      PackOutInjective(a, p, b, q);
    }
  }

  /** What validation looks at, exactly: the id, the inputs, and of the outputs their digests and their sum in 32 bits.
      An output's digest is not computed again from its amount and owner. */
  lemma {:induction false} OnlyDigestsAndSumMatter(c: Suite, a: Tx, b: Tx, us: seq<Unspent>)
    requires a.id == b.id && a.inputs == b.inputs && OutHashes(a.outputs) == OutHashes(b.outputs)
    requires Wrap32(Total(a.outputs)) == Wrap32(Total(b.outputs))
    ensures TxValid(c, a, us) <==> TxValid(c, b, us)
  {
    assert |OutHashes(a.outputs)| == |OutHashes(b.outputs)|;
    assert PackTx(a) == PackTx(b);
  }

  /** A transaction without inputs and outputs is refused. */
  lemma {:induction false} EmptyIsRefused(c: Suite, id: Digest, us: seq<Unspent>)
    ensures !TxValid(c, Tx(id, [], []), us)
  {
  }

  // ---- the coinbase ----

  /** A coinbase but for what validation leaves free: the last 28 bytes of its mark, and the owner and the digest of its
      output. */
  function FreeCoinbase(c: Suite, index: uint32, rest: Bytes, pub: Pub, hash: Digest): Tx
    requires |rest| == 28
  {
    var input := TxIn(Zeros(32), Zeros(32), LittleEndian(index, 4) + rest, NO_SIGN);
    var outs := [TxOut(50, pub, hash)];
    Tx(c.sha256(PackTx(Tx(Zeros(32), [input], outs))), [input], outs)
  }

  /** Validation accepts exactly the created coinbase, up to these freedoms. */
  lemma {:induction false} CoinbaseUpToFreedoms(c: Suite, tx: Tx, index: uint32)
    ensures CoinbaseValid(c, tx, index)
            <==> && |tx.inputs| == 1 && |tx.outputs| == 1
                 && tx == FreeCoinbase(c, index, tx.inputs[0].txOutHash[4..], tx.outputs[0].pub, tx.outputs[0].hash)
  {
    if |tx.inputs| == 1 && |tx.outputs| == 1 {
      var i, o := tx.inputs[0], tx.outputs[0];
      assert tx.inputs == [i] && tx.outputs == [o];
      assert PackTx(tx) == PackTx(Tx(Zeros(32), [i], [o]));
      assert i.txOutHash == i.txOutHash[..4] + i.txOutHash[4..];
    }
  }

  /** The coinbase that is created is this one, with a mark of zeros and an output in order. */
  lemma {:induction false} CreatedCoinbase(c: Suite, pub: Pub, index: uint32)
    ensures Coinbase(c, pub, index) == FreeCoinbase(c, index, Zeros(28), pub, c.sha256(PackOut(50, pub)))
  {
    var input := TxIn(Zeros(32), Zeros(32), CoinbaseMark(index), NO_SIGN);
    assert Coinbase(c, pub, index).inputs == [input];
  }
}
