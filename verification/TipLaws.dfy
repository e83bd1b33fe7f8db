/** How far the digest of the tip pins down the ledger: not only the chain, but what is on it and what is unspent. */
module TipLaws {
  import opened Bytes
  import opened Crypto
  import opened LinkedList
  import opened Transactions
  import opened Validity
  import opened UpdateUnspent
  import opened UnspentLaws
  import opened Blocks
  import opened Mining
  import opened Ledger
  import opened ChainLaws
  import opened Soundness
  import opened Conservation

  // ---- the transactions on a chain ----

  /** What every transaction on the chain is, coinbase or payment. */
  predicate TxOk(c: Suite, tx: Tx) {
    tx.id == TxHash(c, tx) && 1 <= |tx.outputs| <= 2 && forall k :: 0 <= k < |tx.outputs| ==> OutOk(c, tx.outputs[k])
  }

  ghost predicate AllOk(c: Suite, txs: seq<Tx>) {
    forall k :: 0 <= k < |txs| ==> TxOk(c, txs[k])
  }

  ghost predicate BlockTxsOk(c: Suite, b: Block) {
    AllOk(c, TxList(b))
  }

  ghost predicate ChainTxsOk(c: Suite, chain: seq<Block>) {
    forall n :: 0 <= n < |chain| ==> BlockTxsOk(c, chain[n])
  }

  lemma {:induction false} SuccessorTxsOk(c: Suite, s: Ledger, miner: Pub, b: Block)
    requires Sound(c, s) && Successor(c, s, miner, b)
    ensures BlockTxsOk(c, b)
  {
    CoinbaseIsAccepted(c, miner, b.info.index);
    SuccessorPayments(c, s, miner, b);
    forall k | 0 <= k < |TxList(b)|
      ensures TxOk(c, TxList(b)[k])
    {
      if k > 0 {
        assert TxList(b)[k] == Payments(b)[k - 1] && Payments(b)[k - 1] in Payments(b);
        assert Payment(c, TxList(b)[k]);
      }
    }
  }

  lemma {:induction false} TxsSnoc(c: Suite, chain: seq<Block>, b: Block)
    requires ChainTxsOk(c, chain) && BlockTxsOk(c, b)
    ensures ChainTxsOk(c, chain + [b])
  {
  }

  lemma {:induction false} MineKeepsTxs(c: Suite, s: Ledger, time: uint64)
    requires Sound(c, s) && ChainTxsOk(c, s.chain) && CanMine(c, s, time) && s.wallet.Some?
    ensures ChainTxsOk(c, MineStep(c, s, time).chain)
  {
    var miner := s.wallet.value.pub;
    var b := Mined(c, Candidate(c, s, miner, time));
    MineCommits(c, s, time);
    SuccessorTxsOk(c, s, miner, b);
    TxsSnoc(c, s.chain, b);
  }

  lemma {:induction false} StepKeepsTxs(c: Suite, s: Ledger, step: Step)
    requires Sound(c, s) && ChainTxsOk(c, s.chain) && Enabled(c, s, step)
    ensures ChainTxsOk(c, Next(c, s, step).chain)
  {
    if step.Mine? && s.wallet.Some? {
      MineKeepsTxs(c, s, step.time);
    }
  }

  lemma {:induction false} ReachedTxsOk(c: Suite, steps: seq<Step>, s: Ledger)
    requires Reached(c, steps, s)
    ensures ChainTxsOk(c, s.chain)
  {
    if steps == [] {
      assert TxList(Genesis()) == [];
    } else {
      var n := |steps| - 1;
      var before := RunFrom(c, Initial(), steps[..n]).value;
      ReachedTxsOk(c, steps[..n], before);
      ReachedSound(c, steps[..n], before);
      StepKeepsTxs(c, before, steps[n]);
    }
  }

  // ---- equal ids ----

  /** The packed bytes of two transactions collide, or those of two of their outputs at the same place. */
  ghost predicate TxsCollide(c: Suite, a: Tx, b: Tx) {
    || Collision(c, PackTx(a), PackTx(b))
    || exists k :: 0 <= k < |a.outputs| && k < |b.outputs|
                   && Collision(c, PackOut(a.outputs[k].amount, a.outputs[k].pub),
                                PackOut(b.outputs[k].amount, b.outputs[k].pub))
  }

  lemma {:induction false} IdDeterminesTx(c: Suite, a: Tx, b: Tx)
    requires TxOk(c, a) && TxOk(c, b) && a.id == b.id
    ensures TxsCollide(c, a, b) || (InRefs(a.inputs) == InRefs(b.inputs) && a.outputs == b.outputs)
  {
    TransactionIdDetermines(c, a, b);
    if !TxsCollide(c, a, b) {
      assert |OutHashes(a.outputs)| == |OutHashes(b.outputs)|;
      forall k | 0 <= k < |a.outputs|
        ensures a.outputs[k] == b.outputs[k]
      {
        assert OutHashes(a.outputs)[k] == OutHashes(b.outputs)[k];
        OutputHashDetermines(c, a.outputs[k], b.outputs[k]);
      }
    }
  }

  /** Transactions at the same place of two lists. */
  ghost predicate ListsCollide(c: Suite, a: seq<Tx>, b: seq<Tx>) {
    exists k :: 0 <= k < |a| && k < |b| && TxsCollide(c, a[k], b[k])
  }

  lemma {:induction false} InitListsCollide(c: Suite, a: seq<Tx>, b: seq<Tx>, i: nat, n: nat)
    requires i <= n <= |a| && n <= |b|
    ensures ListsCollide(c, a[i..n], b[i..n]) ==> ListsCollide(c, a, b)
  {
    if ListsCollide(c, a[i..n], b[i..n]) {
      var k :| 0 <= k < n - i && TxsCollide(c, a[i..n][k], b[i..n][k]);
      assert TxsCollide(c, a[i + k], b[i + k]);
    }
  }

  /** Lists of the same ids create the same entries and name the same references. */
  lemma {:induction false} IdsDetermineLists(c: Suite, blockHash: Digest, a: seq<Tx>, b: seq<Tx>)
    requires AllOk(c, a) && AllOk(c, b) && TxIds(a) == TxIds(b) && !ListsCollide(c, a, b)
    ensures AllEntries(blockHash, a) == AllEntries(blockHash, b)
    ensures InRefs(AllInputs(a)) == InRefs(AllInputs(b))
  {
    assert |TxIds(a)| == |TxIds(b)|;
    if a != [] {
      var n := |a| - 1;
      assert a[..n] == a[0..n] && b[..n] == b[0..n];
      InitListsCollide(c, a, b, 0, n);
      assert TxIds(a[..n]) == TxIds(a)[..n] && TxIds(b[..n]) == TxIds(b)[..n];
      IdsDetermineLists(c, blockHash, a[..n], b[..n]);
      assert TxIds(a)[n] == TxIds(b)[n];
      IdDeterminesTx(c, a[n], b[n]);
      assert NewEntries(blockHash, a[n]) == NewEntries(blockHash, b[n]);
      InRefsConcat(AllInputs(a[..n]), a[n].inputs);
      InRefsConcat(AllInputs(b[..n]), b[n].inputs);
    }
  }

  // ---- chains ----

  /** Transactions at the same place of two chains. */
  ghost predicate ContentsCollide(c: Suite, a: seq<Block>, b: seq<Block>) {
    exists n :: 0 <= n < |a| && n < |b| && ListsCollide(c, TxList(a[n]), TxList(b[n]))
  }

  lemma {:induction false} IdsDetermineTails(c: Suite, a: seq<Tx>, b: seq<Tx>)
    requires AllOk(c, a) && AllOk(c, b) && TxIds(a) == TxIds(b) && !ListsCollide(c, a, b) && a != [] && b != []
    ensures InRefs(AllInputs(a[1..])) == InRefs(AllInputs(b[1..]))
  {
    assert |TxIds(a)| == |TxIds(b)|;
    var x, y := a[1..|a|], b[1..|a|];
    assert a[1..] == x && b[1..] == y;
    InitListsCollide(c, a, b, 1, |a|);
    assert TxIds(x) == TxIds(a)[1..] && TxIds(y) == TxIds(b)[1..];
    IdsDetermineLists(c, Zeros(32), x, y);
  }

  lemma {:induction false} SameBlockSameContents(c: Suite, a: Block, b: Block)
    requires SameBlock(a, b) && BlockTxsOk(c, a) && BlockTxsOk(c, b)
    requires !ListsCollide(c, TxList(a), TxList(b))
    ensures AllEntries(a.hash, TxList(a)) == AllEntries(b.hash, TxList(b))
    ensures InRefs(AllInputs(Payments(a))) == InRefs(AllInputs(Payments(b)))
  {
    var x, y := TxList(a), TxList(b);
    IdsDetermineLists(c, a.hash, x, y);
    assert |TxIds(x)| == |TxIds(y)|;
    if x != [] {
      IdsDetermineTails(c, x, y);
    }
  }

  /** Two chains have created the same entries and spent the same references. */
  ghost predicate SameContents(a: seq<Block>, b: seq<Block>) {
    Entries(a) == Entries(b) && InRefs(SpentInputs(a)) == InRefs(SpentInputs(b))
  }

  lemma {:induction false} SameContentsSnoc(c: Suite, a: seq<Block>, x: Block, b: seq<Block>, y: Block)
    requires SameContents(a, b) && SameBlock(x, y) && BlockTxsOk(c, x) && BlockTxsOk(c, y)
    requires !ListsCollide(c, TxList(x), TxList(y))
    ensures SameContents(a + [x], b + [y])
  {
    SameBlockSameContents(c, x, y);
    ChainSnoc(a, x);
    ChainSnoc(b, y);
    InRefsConcat(SpentInputs(a), AllInputs(Payments(x)));
    InRefsConcat(SpentInputs(b), AllInputs(Payments(y)));
  }

  lemma {:induction false} AtSamePlace(c: Suite, a: seq<Block>, b: seq<Block>, k: nat)
    requires SameChain(a, b) && ChainTxsOk(c, a) && ChainTxsOk(c, b) && !ContentsCollide(c, a, b) && k < |a|
    ensures SameBlock(a[k], b[k]) && BlockTxsOk(c, a[k]) && BlockTxsOk(c, b[k])
    ensures !ListsCollide(c, TxList(a[k]), TxList(b[k]))
  {
  }

  lemma {:induction false} TakeNext<T>(s: seq<T>, k: nat)
    requires k < |s|
    ensures s[..k + 1] == s[..k] + [s[k]]
  {
  }

  lemma {:induction false} ContentsStep(c: Suite, a: seq<Block>, b: seq<Block>, k: nat)
    requires SameChain(a, b) && ChainTxsOk(c, a) && ChainTxsOk(c, b) && !ContentsCollide(c, a, b) && k < |a|
    requires SameContents(a[..k], b[..k])
    ensures SameContents(a[..k + 1], b[..k + 1])
  {
    TakeNext(a, k);
    TakeNext(b, k);
    AtSamePlace(c, a, b, k);
    SameContentsSnoc(c, a[..k], a[k], b[..k], b[k]);
  }

  lemma {:induction false} SameChainSameContents(c: Suite, a: seq<Block>, b: seq<Block>, n: nat)
    requires SameChain(a, b) && ChainTxsOk(c, a) && ChainTxsOk(c, b) && !ContentsCollide(c, a, b) && n <= |a|
    ensures SameContents(a[..n], b[..n])
  {
    if n > 0 {
      SameChainSameContents(c, a, b, n - 1);
      ContentsStep(c, a, b, n - 1);
    }
  }

  lemma {:induction false} WholeChainSameContents(c: Suite, a: seq<Block>, b: seq<Block>)
    requires SameChain(a, b) && ChainTxsOk(c, a) && ChainTxsOk(c, b) && !ContentsCollide(c, a, b)
    ensures SameContents(a, b)
  {
    SameChainSameContents(c, a, b, |a|);
    assert a[..|a|] == a && b[..|a|] == b;
  }

  // ---- what is unspent ----

  lemma {:induction false} SameRefSameOut(us: seq<Unspent>, i: TxIn, j: TxIn)
    requires InRef(i) == InRef(j)
    ensures NamedOut(us, i) == NamedOut(us, j)
  {
    var m, n := FirstIndex(us, NamedBy(i)), FirstIndex(us, NamedBy(j));
    assert m < |us| ==> NamedBy(j)(us[m]);
    assert n < |us| ==> NamedBy(i)(us[n]);
  }

  lemma {:induction false} SameRefsSameOuts(us: seq<Unspent>, a: seq<TxIn>, b: seq<TxIn>)
    requires InRefs(a) == InRefs(b)
    ensures NamedOuts(us, a) == NamedOuts(us, b)
  {
    assert |InRefs(a)| == |InRefs(b)|;
    forall k | 0 <= k < |a|
      ensures NamedOut(us, a[k]) == NamedOut(us, b[k])
    {
      assert InRefs(a)[k] == InRefs(b)[k];
      SameRefSameOut(us, a[k], b[k]);
    }
  }

  /** Two runs whose chains end in the same digest have created the same entries, spent the same references, and have
      the same outputs unspent, whatever was sent or listed since; or blocks, transactions or outputs of theirs
      collide. */
  lemma {:induction false} TipDeterminesLedger(c: Suite, steps: seq<Step>, s: Ledger, steps': seq<Step>, s': Ledger)
    requires GenesisDigest(c) && Reached(c, steps, s) && Reached(c, steps', s')
    requires s.chain != [] && s'.chain != [] && Tip(s).hash == Tip(s').hash
    ensures || BlocksCollide(c, s.chain, s'.chain)
            || ContentsCollide(c, s.chain, s'.chain)
            || (&& SameContents(s.chain, s'.chain)
                && (CleanChain(s.chain) ==> multiset(Outs(s.unspent)) == multiset(Outs(s'.unspent))))
  {
    if !BlocksCollide(c, s.chain, s'.chain) && !ContentsCollide(c, s.chain, s'.chain) {
      RunsWithTheSameTip(c, steps, s, steps', s');
      ReachedTxsOk(c, steps, s);
      ReachedTxsOk(c, steps', s');
      WholeChainSameContents(c, s.chain, s'.chain);
      if CleanChain(s.chain) {
        UnspentIsCreatedMinusSpent(c, steps, s);
        UnspentIsCreatedMinusSpent(c, steps', s');
        SameRefsSameOuts(Entries(s.chain), SpentInputs(s.chain), SpentInputs(s'.chain));
      }
    }
  }
}
