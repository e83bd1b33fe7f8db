/** What a list command between a send and the next block can do. It sorts by amount, and nothing says what becomes of
    entries of equal amount; if two of them change places, the block removes the one nobody named, and the one that
    was spent can be spent again. The value of the unspent outputs is right all the same. */
module Reordering {
  import opened Bytes
  import opened Crypto
  import opened LinkedList
  import opened Transactions
  import opened UpdateUnspent
  import opened CreateLaws
  import opened UnspentLaws
  import opened Blocks
  import opened Mining
  import opened Ledger
  import opened ChainLaws
  import opened Soundness
  import opened Conservation
  import opened Runs

  // ---- the run ----

  /** Two coins of the same key, and nothing spent. */
  ghost predicate TwoCoins(s: Ledger, key: EcKey, first: Unspent, second: Unspent) {
    && s.wallet == Some(key) && |s.chain| == 3 && s.pool == []
    && s.unspent == [first, second] && first.out == second.out && first.out.pub == key.pub
    && first.out.amount == COINBASE_AMOUNT
    && InRefs(SpentInputs(s.chain)) == []
    && first.blockHash == s.chain[1].hash && AllEntries(s.chain[1].hash, TxList(s.chain[1])) == [first]
  }

  /** The first of them was spent once, and is still in the list, in front. */
  ghost predicate SpentAndUnspent(s: Ledger, key: EcKey, first: Unspent) {
    && s.wallet == Some(key) && |s.chain| == 4 && s.pool == []
    && s.unspent != [] && s.unspent[0] == first && first.out.pub == key.pub && first.out.amount == COINBASE_AMOUNT
    && InRefs(SpentInputs(s.chain)) == [EntryRef(first)]
    && first.blockHash == s.chain[1].hash && AllEntries(s.chain[1].hash, TxList(s.chain[1])) == [first]
  }

  /** One reference was created once and spent twice. */
  ghost predicate SpentTwice(chain: seq<Block>, r: Ref) {
    multiset(EntryRefs(Entries(chain)))[r] == 1 && multiset(InRefs(SpentInputs(chain)))[r] == 2
  }

  function Opening(key: EcKey, time: uint64): seq<Step> {
    [SetWallet(key)] + [Step.Mine(time)] + [Step.Mine(time)]
  }

  lemma {:induction false} MineTwice(c: Suite, key: EcKey, time: uint64, s: Ledger, first: Unspent)
    returns (s': Ledger, second: Unspent)
    requires GenesisDigest(c) && Reached(c, [SetWallet(key)] + [Step.Mine(time)], s) && CleanChain(s.chain)
    requires OneCoin(s, key, first) && first.out == Coinbase(c, key.pub, 0).outputs[0]
    ensures Reached(c, Opening(key, time), s') && TwoCoins(s', key, first, second)
  {
    var b;
    s', b := EarlyMine(c, [SetWallet(key)] + [Step.Mine(time)], s, key, time);
    second := MineSecond(c, s, key, b, s', first);
  }

  lemma {:induction false} MineSecond(c: Suite, s: Ledger, key: EcKey, b: Block, s': Ledger, first: Unspent)
    returns (second: Unspent)
    requires OneCoin(s, key, first) && first.out == Coinbase(c, key.pub, 0).outputs[0] && Mines(c, s, key, b, s')
    ensures TwoCoins(s', key, first, second)
  {
    second := MineEmptyPool(c, s, key, b, s');
    assert s'.chain[1] == s.chain[1];
    assert InRefs([]) == [];
    assert [first] + [second] == [first, second];
  }

  lemma {:induction false} SpendSecond(first: Unspent, second: Unspent, ins: seq<TxIn>)
    requires first.out == second.out && InRefs(ins) == [EntryRef(first)]
    ensures Spend([second, first], InHashes(ins)) == [first]
  {
    var h := first.out.hash;
    assert |ins| == 1 && InRefs(ins)[0] == InRef(ins[0]);
    assert InHashes(ins) == [h];
    SpendOne([second, first], h);
    RemoveFirstTakesTheFirst([], second, [first], HasHash(h));
    assert [] + [second] + [first] == [second, first] && [] + [first] == [first];
  }

  function Exchanged(steps: seq<Step>, first: Unspent, second: Unspent, address: string, n: nat,
                     time: uint64): seq<Step> {
    steps + [Send(COINBASE_AMOUNT, address, n)] + [List([second, first])] + [Step.Mine(time)]
  }

  /** The first coin is named by the pool, and the second stands before it. */
  ghost predicate Exchangeable(s: Ledger, key: EcKey, first: Unspent, second: Unspent, tx: Tx) {
    && s.wallet == Some(key) && |s.chain| == 3 && s.pool == [tx] && InRefs(tx.inputs) == [EntryRef(first)]
    && s.unspent == [second, first] && first.out == second.out && first.out.pub == key.pub
    && first.out.amount == COINBASE_AMOUNT
    && InRefs(SpentInputs(s.chain)) == []
    && first.blockHash == s.chain[1].hash && AllEntries(s.chain[1].hash, TxList(s.chain[1])) == [first]
  }

  lemma {:induction false} MineExchanged(c: Suite, s: Ledger, key: EcKey, first: Unspent, second: Unspent, tx: Tx,
                                         b: Block, s': Ledger)
    requires Exchangeable(s, key, first, second, tx) && Mines(c, s, key, b, s')
    ensures SpentAndUnspent(s', key, first)
  {
    MineOne(c, s, key, tx, b, s');
    SpendSecond(first, second, tx.inputs);
    assert [] + [EntryRef(first)] == [EntryRef(first)];
    assert s'.chain[1] == s.chain[1];
  }

  lemma {:induction false} PairExchanged(first: Unspent, second: Unspent)
    ensures multiset([second, first]) == multiset([first, second])
  {
  }

  lemma {:induction false} ReachedList(c: Suite, steps: seq<Step>, s: Ledger, order: seq<Unspent>) returns (s': Ledger)
    requires Reached(c, steps, s) && multiset(order) == multiset(s.unspent)
    ensures Reached(c, steps + [List(order)], s') && s' == s.(unspent := order)
  {
    s' := s.(unspent := order);
    ReachedSnoc(c, steps, s, List(order));
  }

  lemma {:induction false} SendAndList(c: Suite, steps: seq<Step>, s: Ledger, key: EcKey, first: Unspent,
                                       second: Unspent,
                                       address: string, n: nat) returns (s': Ledger, tx: Tx)
    requires Signer(c, key) && Receiver(c, address).Some?
    requires Reached(c, steps, s) && CleanChain(s.chain) && TwoCoins(s, key, first, second)
    ensures Reached(c, steps + [Send(COINBASE_AMOUNT, address, n)] + [List([second, first])], s')
    ensures Exchangeable(s', key, first, second, tx) && s'.chain == s.chain
  {
    var sent;
    sent, tx := SendTheFirst(c, steps, s, key, COINBASE_AMOUNT, address, n);
    PairExchanged(first, second);
    s' := ReachedList(c, steps + [Send(COINBASE_AMOUNT, address, n)], sent, [second, first]);
  }

  /** A send, a list command that lets the two coins change places, and a block: the coin that was spent stays. */
  lemma {:induction false} SendListMine(c: Suite, steps: seq<Step>, s: Ledger, key: EcKey, first: Unspent,
                                        second: Unspent,
                                        address: string, n: nat, time: uint64) returns (s': Ledger)
    requires GenesisDigest(c) && Signer(c, key) && Receiver(c, address).Some?
    requires Reached(c, steps, s) && CleanChain(s.chain) && TwoCoins(s, key, first, second)
    ensures Reached(c, Exchanged(steps, first, second, address, n, time), s')
    ensures SpentAndUnspent(s', key, first)
  {
    var listed, tx := SendAndList(c, steps, s, key, first, second, address, n);
    var b;
    s', b := EarlyMine(c, steps + [Send(COINBASE_AMOUNT, address, n)] + [List([second, first])], listed, key, time);
    MineExchanged(c, listed, key, first, second, tx, b, s');
  }

  /** And is spent again. */
  lemma {:induction false} SendAgain(c: Suite, steps: seq<Step>, s: Ledger, key: EcKey, first: Unspent,
                                     address: string, n: nat, time: uint64) returns (s': Ledger)
    requires GenesisDigest(c) && Signer(c, key) && Receiver(c, address).Some?
    requires Reached(c, steps, s) && CleanChain(s.chain) && SpentAndUnspent(s, key, first)
    ensures Reached(c, steps + [Send(COINBASE_AMOUNT, address, n)] + [Step.Mine(time)], s')
    ensures !BlocksCollide(c, s'.chain, s'.chain) ==> SpentTwice(s'.chain, EntryRef(first))
  {
    var r := EntryRef(first);
    var sent, tx := SendTheFirst(c, steps, s, key, COINBASE_AMOUNT, address, n);
    var b;
    s', b := EarlyMine(c, steps + [Send(COINBASE_AMOUNT, address, n)], sent, key, time);
    MineOne(c, sent, key, tx, b, s');
    assert InRefs(SpentInputs(s'.chain)) == [r, r];
    ReachedChain(c, steps + [Send(COINBASE_AMOUNT, address, n)] + [Step.Mine(time)], s');
    if !BlocksCollide(c, s'.chain, s'.chain) {
      CreatedOnce(c, s'.chain, first);
    }
  }

  lemma {:induction false} CreatedOnce(c: Suite, chain: seq<Block>, u: Unspent)
    requires GenesisDigest(c) && ChainOk(c, chain) && |chain| > 1 && !BlocksCollide(c, chain, chain)
    requires u.blockHash == chain[1].hash && AllEntries(chain[1].hash, TxList(chain[1])) == [u]
    ensures multiset(EntryRefs(Entries(chain)))[EntryRef(u)] == 1
  {
    forall i | 0 <= i < |chain| && i != 1
      ensures chain[i].hash != u.blockHash
    {
      HashesDiffer(c, chain, i, 1);
    }
    CreatedInItsBlock(chain, 1, EntryRef(u));
    assert EntryRefs([u]) == [EntryRef(u)];
  }

  /** Two blocks, a send, a list command that exchanges two entries of equal amount, a block, a send, a block. */
  function TheRun(key: EcKey, first: Unspent, second: Unspent, address: string, n: nat, time: uint64): seq<Step> {
    Exchanged(Opening(key, time), first, second, address, n, time)
    + [Send(COINBASE_AMOUNT, address, n)] + [Step.Mine(time)]
  }

  /** This run spends a reference twice that was created once; unless its chain is not clean, or two of its blocks
      collide. */
  lemma {:induction false} ListBetweenSendAndMine(c: Suite, key: EcKey, address: string, n: nat, time: uint64)
    returns (steps: seq<Step>, s: Ledger, first: Unspent, second: Unspent)
    requires GenesisDigest(c) && Signer(c, key) && Receiver(c, address).Some?
    ensures Reached(c, steps, s)
    ensures CleanChain(s.chain) && !BlocksCollide(c, s.chain, s.chain) ==>
              && steps == TheRun(key, first, second, address, n, time) && first.out == second.out
              && SpentTwice(s.chain, EntryRef(first))
  {
    s, first := MineOnce(c, key, time);
    steps, second := [SetWallet(key)] + [Step.Mine(time)], first;
    if CleanChain(s.chain) {
      s, second := MineTwice(c, key, time, s, first);
      steps := Opening(key, time);
      if CleanChain(s.chain) {
        s := SendListMine(c, steps, s, key, first, second, address, n, time);
        steps := Exchanged(steps, first, second, address, n, time);
        if CleanChain(s.chain) {
          s := SendAgain(c, steps, s, key, first, address, n, time);
          steps := steps + [Send(COINBASE_AMOUNT, address, n)] + [Step.Mine(time)];
        }
      }
    }
  }
}
