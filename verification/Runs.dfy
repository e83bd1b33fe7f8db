/** Runs of a few commands from the start, step by step: what the first blocks and the first sends do. */
module Runs {
  import opened Bytes
  import opened Crypto
  import opened LinkedList
  import opened Transactions
  import opened Validity
  import opened UpdateUnspent
  import opened Create
  import opened CreateLaws
  import opened UnspentLaws
  import opened Blocks
  import opened Mining
  import opened Ledger
  import opened ChainLaws
  import opened Soundness
  import opened Conservation
  import opened Progress
  import opened ExactRemoval

  // ---- steps of a run ----

  lemma {:induction false} ReachedSnoc(c: Suite, steps: seq<Step>, s: Ledger, step: Step)
    requires Reached(c, steps, s) && Enabled(c, s, step)
    ensures Reached(c, steps + [step], Next(c, s, step))
  {
    assert (steps + [step])[..|steps|] == steps;
  }

  lemma {:induction false} EarlyDifficulty(c: Suite, chain: seq<Block>)
    requires ChainOk(c, chain) && |chain| <= 5
    ensures NextDifficulty(chain) == 0
  {
    var n := |chain| - 1;
    IndexIs(c, chain, n);
    if n > 0 {
      DifficultyBound(c, chain, n);
    }
  }

  /** One of the first blocks: it holds the pool, which is removed from the list by output digest. */
  ghost predicate Mines(c: Suite, s: Ledger, key: EcKey, b: Block, s': Ledger) {
    && s'.chain == s.chain + [b] && s'.wallet == s.wallet && s'.pool == []
    && TxList(b) == [Coinbase(c, key.pub, b.info.index)] + s.pool && Payments(b) == s.pool
    && s'.unspent == Spend(s.unspent, InHashes(AllInputs(s.pool))) + AllEntries(b.hash, TxList(b))
  }

  lemma {:induction false} EarlyMine(c: Suite, steps: seq<Step>, s: Ledger, key: EcKey, time: uint64)
    returns (s': Ledger, b: Block)
    requires GenesisDigest(c) && Reached(c, steps, s) && CleanChain(s.chain)
    requires s.wallet == Some(key) && |s.chain| <= 5
    ensures Reached(c, steps + [Step.Mine(time)], s') && Mines(c, s, key, b, s')
  {
    ReachedSound(c, steps, s);
    EarlyDifficulty(c, s.chain);
    EasyMineEnds(c, s, time);
    b := Mined(c, Candidate(c, s, key.pub, time));
    s' := MineStep(c, s, time);
    ReachedSnoc(c, steps, s, Step.Mine(time));
    MineTakesThePool(c, steps, s, time);
    MineCommits(c, s, time);
    TipSealed(c, s);
    CommitShape(c, s, key.pub, b);
    assert TxList(b) == [TxList(b)[0]] + Payments(b);
  }

  /** What a signer's send creates, and that it is valid, when the selection is enough. */
  lemma {:induction false} EnoughIsValid(c: Suite, key: EcKey, receiver: Pub, amount: uint32, us: seq<Unspent>,
                                         pool: seq<Tx>, n: nat) returns (tx: Tx)
    requires Clean(us) && Signer(c, key) && 0 < amount <= Wrap32(Total(Outs(Taken(key, amount, us, pool))))
    ensures NewTransaction(c, Some(key), Some(receiver), amount, us, pool, n) == Some(tx) && TxValid(c, tx, us)
    ensures InRefs(tx.inputs) == EntryRefs(Taken(key, amount, us, pool))
    ensures Some(tx.outputs)
            == SendAmount(c, key.pub, receiver, amount, Wrap32(Total(Outs(Taken(key, amount, us, pool)))))
  {
    SendAmountLaw(c, key.pub, receiver, amount, Wrap32(Total(Outs(Taken(key, amount, us, pool)))));
    tx := NewTransaction(c, Some(key), Some(receiver), amount, us, pool, n).value;
    CreatedPays(c, key, receiver, amount, us, pool, n);
    AlwaysSigned(c, key, tx.id, |tx.inputs|, n);
    CreatedIsValid(c, key, receiver, amount, us, pool, n);
  }

  lemma {:induction false} WrapSmall(n: uint32)
    ensures Wrap32(n) == n
  {
  }

  lemma {:induction false} SendStepIs(c: Suite, s: Ledger, amount: int, receiver: Option<Pub>, n: nat, tx: Tx)
    requires NewTransaction(c, s.wallet, receiver, Wrap32(amount), s.unspent, s.pool, n) == Some(tx)
    requires TxValid(c, tx, s.unspent)
    ensures SendStep(c, s, amount, receiver, n) == s.(pool := s.pool + [tx])
  {
  }

  /** A send whose selection is known. */
  lemma {:induction false} SendTakes(c: Suite, steps: seq<Step>, s: Ledger, key: EcKey, amount: uint32, address: string,
                                     n: nat) returns (s': Ledger, tx: Tx)
    requires Reached(c, steps, s) && CleanChain(s.chain)
    requires s.wallet == Some(key) && Signer(c, key) && Receiver(c, address).Some?
    requires 0 < amount <= Wrap32(Total(Outs(Taken(key, amount, s.unspent, s.pool))))
    ensures Reached(c, steps + [Send(amount, address, n)], s') && s' == s.(pool := s.pool + [tx])
    ensures InRefs(tx.inputs) == EntryRefs(Taken(key, amount, s.unspent, s.pool))
    ensures Some(tx.outputs) == SendAmount(c, key.pub, Receiver(c, address).value, amount,
                                           Wrap32(Total(Outs(Taken(key, amount, s.unspent, s.pool)))))
  {
    ReachedSound(c, steps, s);
    UnspentIsClean(c, s);
    tx := EnoughIsValid(c, key, Receiver(c, address).value, amount, s.unspent, s.pool, n);
    WrapSmall(amount);
    SendStepIs(c, s, amount, Receiver(c, address), n, tx);
    s' := s.(pool := s.pool + [tx]);
    ReachedSnoc(c, steps, s, Send(amount, address, n));
  }

  /** A send of no more than the first entry is worth: the pool then names that entry alone. */
  lemma {:induction false} SendTheFirst(c: Suite, steps: seq<Step>, s: Ledger, key: EcKey, amount: uint32,
                                        address: string, n: nat) returns (s': Ledger, tx: Tx)
    requires Reached(c, steps, s) && CleanChain(s.chain)
    requires s.wallet == Some(key) && Signer(c, key) && Receiver(c, address).Some?
    requires s.pool == [] && s.unspent != [] && s.unspent[0].out.pub == key.pub
    requires 0 < amount <= s.unspent[0].out.amount
    ensures Reached(c, steps + [Send(amount, address, n)], s') && s' == s.(pool := [tx])
    ensures InRefs(tx.inputs) == [EntryRef(s.unspent[0])]
    ensures Some(tx.outputs) == SendAmount(c, key.pub, Receiver(c, address).value, amount, s.unspent[0].out.amount)
  {
    FirstTaken(key, amount, s.unspent);
    s', tx := SendTakes(c, steps, s, key, amount, address, n);
    assert [] + [tx] == [tx];
  }

  // ---- references of a block ----

  lemma {:induction false} EntriesHaveItsHash(blockHash: Digest, txs: seq<Tx>)
    ensures forall u <- AllEntries(blockHash, txs) :: u.blockHash == blockHash
  {
    if txs != [] {
      EntriesHaveItsHash(blockHash, txs[..|txs| - 1]);
    }
  }

  lemma {:induction false} NotCreated(b: Block, r: Ref)
    requires r.blockHash != b.hash
    ensures multiset(EntryRefs(AllEntries(b.hash, TxList(b))))[r] == 0
  {
    var es := AllEntries(b.hash, TxList(b));
    EntriesHaveItsHash(b.hash, TxList(b));
    forall k | 0 <= k < |es|
      ensures EntryRefs(es)[k] != r
    {
      assert es[k] in es;
    }
  }

  /** A reference is created only in the block it states. */
  lemma {:induction false} CreatedInItsBlock(chain: seq<Block>, k: nat, r: Ref)
    requires k < |chain| && forall i :: 0 <= i < |chain| && i != k ==> chain[i].hash != r.blockHash
    ensures multiset(EntryRefs(Entries(chain)))[r]
            == multiset(EntryRefs(AllEntries(chain[k].hash, TxList(chain[k]))))[r]
  {
    var n := |chain| - 1;
    var before, new' := Entries(chain[..n]), AllEntries(chain[n].hash, TxList(chain[n]));
    EntryRefsConcat(before, new');
    if k < n {
      CreatedInItsBlock(chain[..n], k, r);
      NotCreated(chain[n], r);
    } else {
      NeverCreated(chain[..n], r);
    }
  }

  lemma {:induction false} NeverCreated(chain: seq<Block>, r: Ref)
    requires forall i :: 0 <= i < |chain| ==> chain[i].hash != r.blockHash
    ensures multiset(EntryRefs(Entries(chain)))[r] == 0
  {
    if chain != [] {
      var n := |chain| - 1;
      NeverCreated(chain[..n], r);
      NotCreated(chain[n], r);
      EntryRefsConcat(Entries(chain[..n]), AllEntries(chain[n].hash, TxList(chain[n])));
    }
  }

  /** Blocks of a chain have different digests, or two of them collide. */
  lemma {:induction false} HashesDiffer(c: Suite, chain: seq<Block>, i: nat, j: nat)
    requires GenesisDigest(c) && ChainOk(c, chain) && i < |chain| && j < |chain| && i != j
    requires !BlocksCollide(c, chain, chain)
    ensures chain[i].hash != chain[j].hash
  {
    PackLength(c, chain, i);
    PackLength(c, chain, j);
    IndexIs(c, chain, i);
    IndexIs(c, chain, j);
    assert !Collision(c, PackBlock(chain[i]), PackBlock(chain[j]));
    if PackBlock(chain[i]) == PackBlock(chain[j]) && i > 0 && j > 0 {
      PackBlockInjective(chain[i], chain[j]);
    }
  }

  lemma {:induction false} CoinbaseEntry(c: Suite, pub: Pub, b: Block)
    requires TxList(b) == [Coinbase(c, pub, b.info.index)]
    ensures var es := AllEntries(b.hash, TxList(b));
            |es| == 1 && es[0].blockHash == b.hash && es[0].out == Coinbase(c, pub, b.info.index).outputs[0]
  {
    assert TxList(b)[..0] == [];
  }

  // ---- first blocks ----

  lemma {:induction false} MineEmptyPool(c: Suite, s: Ledger, key: EcKey, b: Block, s': Ledger) returns (e: Unspent)
    requires Mines(c, s, key, b, s') && s.pool == []
    ensures s'.unspent == s.unspent + [e] && AllEntries(b.hash, TxList(b)) == [e]
    ensures e.blockHash == b.hash && e.out == Coinbase(c, key.pub, 0).outputs[0]
    ensures SpentInputs(s'.chain) == SpentInputs(s.chain)
  {
    CoinbaseEntry(c, key.pub, b);
    e := AllEntries(b.hash, TxList(b))[0];
    ChainSnoc(s.chain, b);
    assert AllInputs([]) == [] && InHashes([]) == [];
    assert SpentInputs(s.chain) + [] == SpentInputs(s.chain);
  }

  lemma {:induction false} GenesisIsClean()
    ensures CleanChain([Genesis()])
  {
    GenesisIsEmpty();
  }

  /** One coin, in the first block. */
  ghost predicate OneCoin(s: Ledger, key: EcKey, first: Unspent) {
    && s.wallet == Some(key) && |s.chain| == 2 && s.pool == [] && s.unspent == [first]
    && first.out.pub == key.pub && first.out.amount == COINBASE_AMOUNT
    && SpentInputs(s.chain) == []
    && first.blockHash == s.chain[1].hash && AllEntries(s.chain[1].hash, TxList(s.chain[1])) == [first]
  }

  lemma {:induction false} MineOnce(c: Suite, key: EcKey, time: uint64) returns (s: Ledger, first: Unspent)
    requires GenesisDigest(c)
    ensures Reached(c, [SetWallet(key)] + [Step.Mine(time)], s)
    ensures OneCoin(s, key, first) && first.out == Coinbase(c, key.pub, 0).outputs[0]
  {
    GenesisIsEmpty();
    GenesisIsClean();
    var s0 := Initial().(wallet := Some(key));
    ReachedSnoc(c, [], Initial(), SetWallet(key));
    assert [] + [SetWallet(key)] == [SetWallet(key)];
    var b;
    s, b := EarlyMine(c, [SetWallet(key)], s0, key, time);
    first := MineEmptyPool(c, s0, key, b, s);
    assert [] + [first] == [first];
  }

  lemma {:induction false} SpendOne(us: seq<Unspent>, h: Digest)
    ensures Spend(us, [h]) == RemoveFirst(us, HasHash(h))
  {
    SpendSnoc(us, [], h);
    assert [] + [h] == [h];
  }

  /** Mining a pool of one transaction. */
  lemma {:induction false} MineOne(c: Suite, s: Ledger, key: EcKey, tx: Tx, b: Block, s': Ledger)
    requires Mines(c, s, key, b, s') && s.pool == [tx]
    ensures AllInputs(s.pool) == tx.inputs
    ensures InRefs(SpentInputs(s'.chain)) == InRefs(SpentInputs(s.chain)) + InRefs(tx.inputs)
  {
    AllInputsSnoc([], tx);
    assert [] + [tx] == [tx] && [] + tx.inputs == tx.inputs;
    ChainSnoc(s.chain, b);
    InRefsConcat(SpentInputs(s.chain), tx.inputs);
  }
}
