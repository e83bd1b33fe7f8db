/** The update of the list of unspent outputs by the transactions of a block. */
module UpdateUnspent {
  import opened Crypto
  import opened LinkedList
  import opened Transactions

  /** find_unspent: the entries an update may delete for an input are those whose output has the given digest. */
  function HasHash(h: Digest): Unspent -> bool {
    (u: Unspent) => u.out.hash == h
  }

  /** Deletes, for each input in turn, the first entry with the input's output digest. */
  function Spend(us: seq<Unspent>, hashes: seq<Digest>): seq<Unspent> {
    if hashes == [] then us
    else RemoveFirst(Spend(us, hashes[..|hashes| - 1]), HasHash(hashes[|hashes| - 1]))
  }

  function InHashes(ins: seq<TxIn>): (r: seq<Digest>)
    ensures |r| == |ins|
  {
    seq(|ins|, k requires 0 <= k < |ins| => ins[k].txOutHash)
  }

  function NewEntries(blockHash: Digest, tx: Tx): (r: seq<Unspent>)
    ensures |r| == |tx.outputs|
  {
    seq(|tx.outputs|, k requires 0 <= k < |tx.outputs| => UnspentCreate(blockHash, tx.id, tx.outputs[k]))
  }

  function ApplyTx(us: seq<Unspent>, blockHash: Digest, tx: Tx): seq<Unspent> {
    Spend(us, InHashes(tx.inputs)) + NewEntries(blockHash, tx)
  }

  function ApplyTxs(us: seq<Unspent>, blockHash: Digest, txs: seq<Tx>): seq<Unspent> {
    if txs == [] then us
    else ApplyTx(ApplyTxs(us, blockHash, txs[..|txs| - 1]), blockHash, txs[|txs| - 1])
  }
}
