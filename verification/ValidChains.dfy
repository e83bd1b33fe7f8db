/** What validation is worth: whoever built a chain, if it starts with the genesis block and every later block is
    accepted against its predecessor and the list of unspent outputs that the updates give, then it is linked, worked
    for, pays fifty coins a block, and lets nobody but owners spend. */
module ValidChains {
  import opened Bytes
  import opened Crypto
  import opened LinkedList
  import opened Transactions
  import opened Validity
  import opened UpdateUnspent
  import opened UnspentLaws
  import opened Difficulty
  import opened Blocks
  import opened Mining
  import opened Ledger
  import opened ChainLaws
  import opened Soundness
  import Endianness

  // ---- transactions ----

  /** The input names the entry: all three digests agree. */
  predicate NamesEntry(i: TxIn, u: Unspent) {
    i.blockHash == u.blockHash && i.txId == u.txId && i.txOutHash == u.out.hash
  }

  /** The key's bytes are a point, and the signature is good under it. */
  predicate SignatureHolds(c: Suite, pub: Pub, msg: Digest, sig: Sign) {
    c.fromPub(pub).Some? && c.verify(c.fromPub(pub).value, msg, sig)
  }

  /** The first entry that the input names belongs to the signer. */
  predicate SignedByOwner(c: Suite, id: Digest, i: TxIn, us: seq<Unspent>) {
    exists j :: && 0 <= j < |us| && NamesEntry(i, us[j])
                && (forall k :: 0 <= k < j ==> !NamesEntry(i, us[k]))
                && SignatureHolds(c, us[j].out.pub, id, i.sig)
  }

  /** A payment that may stand on a chain: its id is the digest of its bytes, its inputs are signed by the owners of
      what they name, and it hands on what they are worth, in 32 bits. */
  predicate Redeems(c: Suite, tx: Tx, us: seq<Unspent>) {
    && tx.id == c.sha256(PackTx(tx))
    && (forall k :: 0 <= k < |tx.inputs| ==> SignedByOwner(c, tx.id, tx.inputs[k], us))
    && (Total(NamedOuts(us, tx.inputs)) - Total(tx.outputs)) % 0x1_0000_0000 == 0
  }

  lemma {:induction false} InputAcceptedExactlyWhen(c: Suite, id: Digest, i: TxIn, us: seq<Unspent>)
    ensures InputOk(c, id, i, us) <==> SignedByOwner(c, id, i, us)
  {
    var n := FirstIndex(us, NamedBy(i));
    forall k | 0 <= k < |us|
      ensures NamedBy(i)(us[k]) <==> NamesEntry(i, us[k])
    {
    }
    if SignedByOwner(c, id, i, us) {
      var j :| && 0 <= j < |us| && NamesEntry(i, us[j])
               && (forall k :: 0 <= k < j ==> !NamesEntry(i, us[k])) && SignatureHolds(c, us[j].out.pub, id, i.sig);
      assert NamedBy(i)(us[j]);
      assert n == j;
    }
    if InputOk(c, id, i, us) {
      assert NamesEntry(i, us[n]) && forall k :: 0 <= k < n ==> !NamesEntry(i, us[k]);
    }
  }

  lemma {:induction false} SameIn32(x: nat, y: nat)
    ensures Wrap32(x) == Wrap32(y) <==> (x - y) % 0x1_0000_0000 == 0
  {
  }

  lemma {:induction false} TransactionAcceptedExactlyWhen(c: Suite, tx: Tx, us: seq<Unspent>)
    ensures TxValid(c, tx, us) <==> (tx.inputs != [] || tx.outputs != []) && Redeems(c, tx, us)
  {
    forall k | 0 <= k < |tx.inputs|
      ensures InputOk(c, tx.id, tx.inputs[k], us) <==> SignedByOwner(c, tx.id, tx.inputs[k], us)
    {
      InputAcceptedExactlyWhen(c, tx.id, tx.inputs[k], us);
    }
    SameIn32(Total(NamedOuts(us, tx.inputs)), Total(tx.outputs));
  }

  predicate AllZero(bs: Bytes) {
    forall p :: 0 <= p < |bs| ==> bs[p] == 0
  }

  lemma {:induction false} ZeroExactly(bs: Bytes, n: nat)
    requires |bs| == n
    ensures bs == Zeros(n) <==> AllZero(bs)
  {
  }

  /** One input, empty but for the block's index, and one output of fifty coins. */
  predicate PaysFifty(c: Suite, tx: Tx, index: uint32) {
    && tx.id == c.sha256(PackTx(tx))
    && |tx.inputs| == 1 && |tx.outputs| == 1 && tx.outputs[0].amount == 50
    && AllZero(tx.inputs[0].blockHash) && AllZero(tx.inputs[0].txId)
    && AllZero(tx.inputs[0].sig.sig) && tx.inputs[0].sig.len == 0
    && FromLittleEndian(tx.inputs[0].txOutHash[..4]) == index
  }

  lemma {:induction false} CoinbaseAcceptedExactlyWhen(c: Suite, tx: Tx, index: uint32)
    ensures CoinbaseValid(c, tx, index) <==> PaysFifty(c, tx, index)
  {
    if |tx.inputs| == 1 {
      var i := tx.inputs[0];
      ZeroExactly(i.blockHash, 32);
      ZeroExactly(i.txId, 32);
      ZeroExactly(i.sig.sig, 72);
      IndexBytes(i.txOutHash[..4], index);
    }
  }

  lemma {:induction false} IndexBytes(b: Bytes, index: uint32)
    requires |b| == 4
    ensures b == LittleEndian(index, 4) <==> FromLittleEndian(b) == index
  {
    RoundTrip32(index);
    Endianness.BytesOfNumber(b);
  }

  // ---- blocks ----

  /** The stored digest is that of the block's bytes. */
  predicate DigestIsRight(c: Suite, b: Block) {
    b.data.len <= 1024 && b.hash == c.sha256(PackBlock(b))
  }

  /** The block follows its predecessor, whose digest is right. */
  predicate Follows(c: Suite, b: Block, prev: Block) {
    && b.info.index == prev.info.index + 1
    && b.info.prevHash == prev.hash
    && DigestIsRight(c, prev)
  }

  /** Its digest is right and as small as it has to be, and its transactions may stand on the chain. */
  predicate WorkedFor(c: Suite, b: Block, us: seq<Unspent>)
    requires b.info.difficulty <= 256
  {
    && DigestIsRight(c, b)
    && BigEndian(b.hash) < Pow2(256 - b.info.difficulty)
    && TxList(b) != [] && PaysFifty(c, TxList(b)[0], b.info.index)
    && (forall k :: 1 <= k < |TxList(b)| ==> TransactionStands(c, TxList(b)[k], us))
  }

  predicate Honest(c: Suite, b: Block, prev: Block, us: seq<Unspent>)
    requires b.info.difficulty <= 256
  {
    Follows(c, b, prev) && WorkedFor(c, b, us)
  }

  predicate TransactionStands(c: Suite, tx: Tx, us: seq<Unspent>) {
    (tx.inputs != [] || tx.outputs != []) && Redeems(c, tx, us)
  }

  lemma {:induction false} TransactionsAcceptedExactlyWhen(c: Suite, txs: seq<Tx>, index: uint32, us: seq<Unspent>)
    ensures TransactionsValid(c, txs, index, us)
            <==> && txs != [] && PaysFifty(c, txs[0], index)
                 && forall k :: 1 <= k < |txs| ==> TransactionStands(c, txs[k], us)
  {
    if txs != [] {
      CoinbaseAcceptedExactlyWhen(c, txs[0], index);
    }
    forall k | 1 <= k < |txs|
      ensures TxValid(c, txs[k], us) <==> TransactionStands(c, txs[k], us)
    {
      TransactionAcceptedExactlyWhen(c, txs[k], us);
    }
  }

  lemma {:induction false} FollowsExactlyWhen(c: Suite, b: Block, prev: Block)
    requires b.info.index != 0
    ensures Extends(c, b, prev) <==> Follows(c, b, prev)
  {
    NextIndex(b.info.index, prev.info.index);
  }

  lemma {:induction false} WorkedForExactlyWhen(c: Suite, b: Block, us: seq<Unspent>)
    requires b.info.difficulty <= 256
    ensures Earned(c, b, us) <==> WorkedFor(c, b, us)
  {
    TransactionsAcceptedExactlyWhen(c, TxList(b), b.info.index, us);
  }

  /** A block is accepted behind another exactly when it is the genesis block once more, or honest. */
  lemma {:induction false} BlockAcceptedExactlyWhen(c: Suite, b: Block, prev: Block, us: seq<Unspent>)
    requires b.info.difficulty <= 256
    ensures BlockValid(c, b, Some(prev), us) <==> b == Genesis() || Honest(c, b, prev, us)
  {
    if b.info.index != 0 {
      FollowsExactlyWhen(c, b, prev);
      WorkedForExactlyWhen(c, b, us);
    }
  }

  lemma {:induction false} NextIndex(i: uint32, j: uint32)
    ensures i != 0 ==> (i == Wrap32(j + 1) <==> i == j + 1)
  {
  }

  /** Without a predecessor only the genesis block is accepted. */
  lemma {:induction false} FirstAcceptedExactlyWhen(c: Suite, b: Block, us: seq<Unspent>)
    requires b.info.difficulty <= 256
    ensures BlockValid(c, b, None, us) <==> b == Genesis()
  {
  }

  // ---- chains ----

  /** The list of unspent outputs the updates give, block after block. */
  function ListAfter(chain: seq<Block>): seq<Unspent> {
    if chain == [] then []
    else
      var init, b := chain[..|chain| - 1], chain[|chain| - 1];
      ApplyTxs(ListAfter(init), b.hash, TxList(b))
  }

  ghost predicate AcceptedAt(c: Suite, chain: seq<Block>, i: nat)
    requires 0 < i < |chain|
  {
    && chain[i].info.difficulty <= 256
    && BlockValid(c, chain[i], Some(chain[i - 1]), ListAfter(chain[..i]))
  }

  /** The chain starts with the genesis block, and every later block is accepted. */
  ghost predicate AcceptedChain(c: Suite, chain: seq<Block>) {
    && chain != [] && chain[0] == Genesis()
    && forall i :: 0 < i < |chain| ==> AcceptedAt(c, chain, i)
  }

  lemma {:induction false} ListIsCreated(chain: seq<Block>)
    ensures forall u <- ListAfter(chain) :: u in Entries(chain)
  {
    if chain != [] {
      var init, b := chain[..|chain| - 1], chain[|chain| - 1];
      ListIsCreated(init);
      UpdateElements(ListAfter(init), b.hash, TxList(b));
    }
  }

  /** Validation suffices: each later block is the genesis block once more, or is honest, and then its payments spend
      only outputs of earlier blocks, each with the signature of its owner. */
  lemma {:induction false} ValidationSuffices(c: Suite, chain: seq<Block>, i: nat)
    requires AcceptedChain(c, chain) && 0 < i < |chain|
    ensures chain[i].info.difficulty <= 256
    ensures chain[i] == Genesis() || Honest(c, chain[i], chain[i - 1], ListAfter(chain[..i]))
    ensures chain[i] != Genesis() ==>
              forall k, m :: 1 <= k < |TxList(chain[i])| && 0 <= m < |TxList(chain[i])[k].inputs| ==>
                SpendsEarlier(c, TxList(chain[i])[k], m, Entries(chain[..i]))
  {
    var b, us := chain[i], ListAfter(chain[..i]);
    assert AcceptedAt(c, chain, i);
    BlockAcceptedExactlyWhen(c, b, chain[i - 1], us);
    ListIsCreated(chain[..i]);
    if b != Genesis() {
      forall k, m | 1 <= k < |TxList(b)| && 0 <= m < |TxList(b)[k].inputs|
        ensures SpendsEarlier(c, TxList(b)[k], m, Entries(chain[..i]))
      {
        var tx := TxList(b)[k];
        assert TransactionStands(c, tx, us) && SignedByOwner(c, tx.id, tx.inputs[m], us);
        var j :| 0 <= j < |us| && NamesEntry(tx.inputs[m], us[j])
                 && SignatureHolds(c, us[j].out.pub, tx.id, tx.inputs[m].sig);
        assert us[j] in us;
      }
    }
  }

  /** The input names one of the entries, and the transaction is signed there by its owner. */
  predicate SpendsEarlier(c: Suite, tx: Tx, m: nat, all: seq<Unspent>)
    requires m < |tx.inputs|
  {
    exists u <- all :: NamesEntry(tx.inputs[m], u) && SignatureHolds(c, u.out.pub, tx.id, tx.inputs[m].sig)
  }

  /** While the genesis block does not come again, the i-th block has index i. */
  lemma {:induction false} IndicesAreRight(c: Suite, chain: seq<Block>, i: nat)
    requires AcceptedChain(c, chain) && i < |chain| && forall j :: 0 < j < |chain| ==> chain[j] != Genesis()
    ensures chain[i].info.index == i
  {
    if i > 0 {
      IndicesAreRight(c, chain, i - 1);
      ValidationSuffices(c, chain, i);
    }
  }

  /** And it can come again: validation compares a block of index 0 with the genesis block alone. */
  lemma {:induction false} GenesisComesAgain(c: Suite)
    ensures AcceptedChain(c, [Genesis(), Genesis()])
  {
    var chain := [Genesis(), Genesis()];
    assert chain[1] == Genesis();
    assert AcceptedAt(c, chain, 1);
  }

  // ---- the chains of runs ----

  lemma {:induction false} ListSnoc(chain: seq<Block>, b: Block)
    ensures ListAfter(chain + [b]) == ApplyTxs(ListAfter(chain), b.hash, TxList(b))
  {
    assert (chain + [b])[..|chain|] == chain;
  }

  lemma {:induction false} AcceptedFurther(c: Suite, chain: seq<Block>, b: Block, i: nat)
    requires 0 < i < |chain| && AcceptedAt(c, chain, i)
    ensures AcceptedAt(c, chain + [b], i)
  {
    assert (chain + [b])[..i] == chain[..i];
  }

  lemma {:induction false} AcceptedLast(c: Suite, chain: seq<Block>, b: Block)
    requires chain != [] && b.info.difficulty <= 256
    requires BlockValid(c, b, Some(chain[|chain| - 1]), ListAfter(chain))
    ensures AcceptedAt(c, chain + [b], |chain|)
  {
    assert (chain + [b])[..|chain|] == chain;
  }

  lemma {:induction false} AcceptedSnoc(c: Suite, chain: seq<Block>, b: Block)
    requires AcceptedChain(c, chain) && b.info.difficulty <= 256
    requires BlockValid(c, b, Some(chain[|chain| - 1]), ListAfter(chain))
    ensures AcceptedChain(c, chain + [b])
  {
    forall i | 0 < i < |chain + [b]|
      ensures AcceptedAt(c, chain + [b], i)
    {
      if i < |chain| {
        AcceptedFurther(c, chain, b, i);
      } else {
        AcceptedLast(c, chain, b);
      }
    }
  }

  lemma {:induction false} NothingAtFirst()
    ensures ListAfter([Genesis()]) == []
  {
    assert [Genesis()][..0] == [] && TxList(Genesis()) == [];
  }

  /** What a run without list commands builds is accepted from the start by whoever checks it, and its list is the one
      the updates give. */
  lemma {:induction false} RunIsAccepted(c: Suite, steps: seq<Step>, s: Ledger)
    requires Reached(c, steps, s) && forall k :: 0 <= k < |steps| ==> !steps[k].List?
    ensures AcceptedChain(c, s.chain) && s.unspent == ListAfter(s.chain)
  {
    if steps == [] {
      NothingAtFirst();
    } else {
      var n := |steps| - 1;
      var before := RunFrom(c, Initial(), steps[..n]).value;
      RunIsAccepted(c, steps[..n], before);
      assert !steps[n].List?;
      if steps[n].Mine? && before.wallet.Some? {
        MineIsAccepted(c, before, steps[n].time);
      }
    }
  }

  lemma {:induction false} MineIsAccepted(c: Suite, s: Ledger, time: uint64)
    requires CanMine(c, s, time) && s.wallet.Some? && AcceptedChain(c, s.chain) && s.unspent == ListAfter(s.chain)
    ensures AcceptedChain(c, MineStep(c, s, time).chain)
    ensures MineStep(c, s, time).unspent == ListAfter(MineStep(c, s, time).chain)
  {
    var b := Mined(c, Candidate(c, s, s.wallet.value.pub, time));
    MineCommits(c, s, time);
    if BlockValid(c, b, Some(Tip(s)), s.unspent) {
      AcceptedSnoc(c, s.chain, b);
      ListSnoc(s.chain, b);
    }
  }
}
