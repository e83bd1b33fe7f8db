/** When the references created on a chain all differ: exactly when no transaction on it has two equal outputs. Then, if
    prefixes tell references apart and list commands leave equal digests in order, the books balance by reference. */
module DistinctRefs {
  import opened Bytes
  import opened Crypto
  import opened LinkedList
  import opened Transactions
  import opened UpdateUnspent
  import opened Create
  import opened CreateLaws
  import opened UnspentLaws
  import opened Blocks
  import opened Mining
  import opened Ledger
  import opened ChainLaws
  import opened Soundness
  import opened Conservation
  import opened Progress
  import opened Accounts
  import opened ExactRemoval
  import opened References
  import opened Runs
  import opened TipLaws

  // ---- payments of a pool have nothing in common ----

  /** No input of the one names what an input of the other names. */
  ghost predicate TxApart(a: Tx, b: Tx) {
    forall i, j :: 0 <= i < |a.inputs| && 0 <= j < |b.inputs| ==> InRef(a.inputs[i]) != InRef(b.inputs[j])
  }

  ghost predicate Apart(txs: seq<Tx>) {
    && (forall t :: 0 <= t < |txs| ==> txs[t].inputs != [])
    && (forall t, u :: 0 <= t < u < |txs| ==> TxApart(txs[t], txs[u]))
  }

  lemma {:induction false} CreatedNames(c: Suite, key: EcKey, receiver: Pub, amount: uint32, us: seq<Unspent>,
                                        pool: seq<Tx>, n: nat)
    requires NewTransaction(c, Some(key), Some(receiver), amount, us, pool, n).Some?
    ensures NewTransaction(c, Some(key), Some(receiver), amount, us, pool, n).value.inputs != []
  {
    var tx := NewTransaction(c, Some(key), Some(receiver), amount, us, pool, n).value;
    CreatedPays(c, key, receiver, amount, us, pool, n);
    CreateFails(c, key, receiver, amount, us, pool, n);
    var taken := Taken(key, amount, us, pool);
    assert Total(Outs([])) == 0;
    assert |InRefs(tx.inputs)| == |EntryRefs(taken)|;
  }

  lemma {:induction false} CreatedIsApart(c: Suite, key: EcKey, receiver: Pub, amount: uint32, us: seq<Unspent>,
                                          pool: seq<Tx>, n: nat, t: nat)
    requires NewTransaction(c, Some(key), Some(receiver), amount, us, pool, n).Some? && t < |pool|
    ensures TxApart(pool[t], NewTransaction(c, Some(key), Some(receiver), amount, us, pool, n).value)
  {
    var tx := NewTransaction(c, Some(key), Some(receiver), amount, us, pool, n).value;
    var taken := Taken(key, amount, us, pool);
    CreatedPays(c, key, receiver, amount, us, pool, n);
    TakenIsNew(key, amount, us, pool);
    assert |tx.inputs| == |InRefs(tx.inputs)| == |taken|;
    forall i, j | 0 <= i < |pool[t].inputs| && 0 <= j < |tx.inputs|
      ensures InRef(pool[t].inputs[i]) != InRef(tx.inputs[j])
    {
      InputInAll(pool, t, i);
      assert InRef(tx.inputs[j]) == InRefs(tx.inputs)[j] == EntryRef(taken[j]);
      assert taken[j] in taken;
    }
  }

  lemma {:induction false} SendKeepsApart(c: Suite, s: Ledger, amount: int, receiver: Option<Pub>, n: nat)
    requires Apart(s.pool)
    ensures Apart(SendStep(c, s, amount, receiver, n).pool)
  {
    var tx := NewTransaction(c, s.wallet, receiver, Wrap32(amount), s.unspent, s.pool, n);
    if tx.Some? {
      CreatedNames(c, s.wallet.value, receiver.value, Wrap32(amount), s.unspent, s.pool, n);
      forall t | 0 <= t < |s.pool|
        ensures TxApart(s.pool[t], tx.value)
      {
        CreatedIsApart(c, s.wallet.value, receiver.value, Wrap32(amount), s.unspent, s.pool, n, t);
      }
    }
  }

  /** The payments of a block have nothing in common, and its coinbase names a mark. */
  ghost predicate BlockApart(b: Block) {
    && Apart(Payments(b))
    && (TxList(b) != [] ==> |TxList(b)[0].inputs| == 1 && MarkLike(TxList(b)[0].inputs[0].txOutHash))
  }

  ghost predicate ChainApart(chain: seq<Block>) {
    forall n :: 0 <= n < |chain| ==> BlockApart(chain[n])
  }

  lemma {:induction false} SuccessorApart(c: Suite, s: Ledger, miner: Pub, b: Block)
    requires s.chain != [] && Successor(c, s, miner, b) && Apart(Accepted(c, s))
    ensures BlockApart(b)
  {
    SuccessorPayments(c, s, miner, b);
    assert CoinbaseMark(b.info.index)[4..] == Zeros(28);
  }

  lemma {:induction false} ChainApartSnoc(chain: seq<Block>, b: Block)
    requires ChainApart(chain) && BlockApart(b)
    ensures ChainApart(chain + [b])
  {
  }

  lemma {:induction false} MineKeepsApart(c: Suite, s: Ledger, time: uint64)
    requires PoolValid(c, s) && Apart(s.pool) && ChainApart(s.chain) && CanMine(c, s, time) && s.wallet.Some?
    ensures Apart(MineStep(c, s, time).pool) && ChainApart(MineStep(c, s, time).chain)
  {
    var miner := s.wallet.value.pub;
    var b := Mined(c, Candidate(c, s, miner, time));
    MineCommits(c, s, time);
    WithoutNone(s.pool, Rejected(c, s.unspent));
    SuccessorApart(c, s, miner, b);
    ChainApartSnoc(s.chain, b);
  }

  lemma {:induction false} StepKeepsApart(c: Suite, s: Ledger, step: Step)
    requires PoolValid(c, s) && Apart(s.pool) && ChainApart(s.chain) && Enabled(c, s, step)
    ensures Apart(Next(c, s, step).pool) && ChainApart(Next(c, s, step).chain)
  {
    match step
    case SetWallet(key) =>
    case Send(amount, address, random) => SendKeepsApart(c, s, amount, Receiver(c, address), random);
    case Mine(time) =>
      if s.wallet.Some? {
        MineKeepsApart(c, s, time);
      }
    case List(order) =>
  }

  lemma {:induction false} ReachedApart(c: Suite, steps: seq<Step>, s: Ledger)
    requires Reached(c, steps, s) && CleanChain(s.chain)
    ensures Apart(s.pool) && ChainApart(s.chain)
  {
    if steps == [] {
      assert TxList(Genesis()) == [];
    } else {
      var n := |steps| - 1;
      var before := RunFrom(c, Initial(), steps[..n]).value;
      ReachedSound(c, steps[..n], before);
      CleanBefore(c, before, steps[n]);
      ReachedApart(c, steps[..n], before);
      ReachedPoolValid(c, steps[..n], before);
      StepKeepsApart(c, before, steps[n]);
    }
  }

  // ---- ids of a block differ ----

  /** Two transactions of one block whose packed bytes collide. */
  ghost predicate IdsCollide(c: Suite, chain: seq<Block>) {
    exists n, t, u :: 0 <= n < |chain| && 0 <= t < u < |TxList(chain[n])|
                      && Collision(c, PackTx(TxList(chain[n])[t]), PackTx(TxList(chain[n])[u]))
  }

  lemma {:induction false} EntriesGrow(chain: seq<Block>, n: nat)
    requires n <= |chain|
    ensures forall u <- Entries(chain[..n]) :: u in Entries(chain)
  {
    if n < |chain| {
      var m := |chain| - 1;
      assert chain[..m][..n] == chain[..n];
      EntriesGrow(chain[..m], n);
    } else {
      assert chain[..n] == chain;
    }
  }

  /** A payment names no mark. */
  lemma {:induction false} PaymentNamesNoMark(c: Suite, chain: seq<Block>, n: nat, t: nat, k: nat)
    requires ChainAuthorised(c, chain) && CleanChain(chain) && n < |chain| && 0 < t < |TxList(chain[n])|
    requires k < |TxList(chain[n])[t].inputs|
    ensures !MarkLike(TxList(chain[n])[t].inputs[k].txOutHash)
  {
    var tx := TxList(chain[n])[t];
    assert tx == Payments(chain[n])[t - 1] && tx in Payments(chain[n]);
    assert tx.inputs[k] in tx.inputs;
    var u :| u in Entries(chain[..n]) && EntryRef(u) == InRef(tx.inputs[k]);
    EntriesGrow(chain, n);
  }

  lemma {:induction false} SameFirst(a: Tx, b: Tx)
    requires InRefs(a.inputs) == InRefs(b.inputs) && a.inputs != []
    ensures b.inputs != [] && InRef(a.inputs[0]) == InRef(b.inputs[0])
  {
    assert |InRefs(a.inputs)| == |InRefs(b.inputs)|;
    assert InRefs(a.inputs)[0] == InRefs(b.inputs)[0];
  }

  lemma {:induction false} RefsDiffer(c: Suite, chain: seq<Block>, n: nat, t: nat, u: nat)
    requires ChainAuthorised(c, chain) && CleanChain(chain) && ChainApart(chain)
    requires n < |chain| && t < u < |TxList(chain[n])|
    ensures InRefs(TxList(chain[n])[t].inputs) != InRefs(TxList(chain[n])[u].inputs)
  {
    var a, b, pay := TxList(chain[n])[t], TxList(chain[n])[u], Payments(chain[n]);
    assert BlockApart(chain[n]) && b == pay[u - 1] && b.inputs != [];
    PaymentNamesNoMark(c, chain, n, u, 0);
    if t > 0 {
      assert a == pay[t - 1] && TxApart(pay[t - 1], pay[u - 1]);
    }
    if InRefs(a.inputs) == InRefs(b.inputs) {
      SameFirst(b, a);
    }
  }

  lemma {:induction false} IdsDiffer(c: Suite, chain: seq<Block>, n: nat, t: nat, u: nat)
    requires ChainAuthorised(c, chain) && CleanChain(chain) && ChainTxsOk(c, chain) && ChainApart(chain)
    requires !IdsCollide(c, chain) && n < |chain| && t < u < |TxList(chain[n])|
    ensures TxList(chain[n])[t].id != TxList(chain[n])[u].id
  {
    var a, b := TxList(chain[n])[t], TxList(chain[n])[u];
    assert BlockTxsOk(c, chain[n]) && TxOk(c, a) && TxOk(c, b);
    assert !Collision(c, PackTx(a), PackTx(b));
    RefsDiffer(c, chain, n, t, u);
    if a.id == b.id {
      TransactionIdDetermines(c, a, b);
    }
  }

  // ---- distinct references ----

  lemma {:induction false} DistinctConcat(a: seq<Ref>, b: seq<Ref>)
    ensures Distinct(a + b) <==> Distinct(a) && Distinct(b) && forall i :: 0 <= i < |a| ==> a[i] !in b
  {
    var s := a + b;
    assert forall i :: 0 <= i < |a| ==> s[i] == a[i];
    assert forall j :: 0 <= j < |b| ==> s[|a| + j] == b[j];
  }

  /** No two outputs of the transaction are equal. */
  ghost predicate NoTwins(tx: Tx) {
    forall i, j :: 0 <= i < j < |tx.outputs| ==> tx.outputs[i] != tx.outputs[j]
  }

  ghost predicate HashesTell(tx: Tx) {
    forall i, j :: 0 <= i < j < |tx.outputs| && tx.outputs[i].hash == tx.outputs[j].hash
                   ==> tx.outputs[i] == tx.outputs[j]
  }

  lemma {:induction false} DistinctInTx(blockHash: Digest, tx: Tx)
    requires HashesTell(tx)
    ensures Distinct(EntryRefs(NewEntries(blockHash, tx))) <==> NoTwins(tx)
  {
    var refs := EntryRefs(NewEntries(blockHash, tx));
    forall i, j | 0 <= i < j < |tx.outputs|
      ensures refs[i] != refs[j] <==> tx.outputs[i] != tx.outputs[j]
    {
      assert refs[i] == Ref(blockHash, tx.id, tx.outputs[i].hash);
      assert refs[j] == Ref(blockHash, tx.id, tx.outputs[j].hash);
    }
  }

  lemma {:induction false} IdsOfEntries(blockHash: Digest, txs: seq<Tx>, k: nat)
    requires k < |AllEntries(blockHash, txs)|
    ensures exists t :: 0 <= t < |txs| && EntryRefs(AllEntries(blockHash, txs))[k].txId == txs[t].id
  {
    var n := |txs| - 1;
    var before := AllEntries(blockHash, txs[..n]);
    if k < |before| {
      IdsOfEntries(blockHash, txs[..n], k);
      var t :| 0 <= t < n && EntryRefs(before)[k].txId == txs[..n][t].id;
      assert txs[t].id == EntryRefs(AllEntries(blockHash, txs))[k].txId;
    } else {
      assert EntryRefs(AllEntries(blockHash, txs))[k].txId == txs[n].id;
    }
  }

  ghost predicate NoTwinsIn(txs: seq<Tx>) {
    forall t :: 0 <= t < |txs| ==> NoTwins(txs[t])
  }

  lemma {:induction false} DistinctInBlock(blockHash: Digest, txs: seq<Tx>)
    requires forall t, u :: 0 <= t < u < |txs| ==> txs[t].id != txs[u].id
    requires forall t :: 0 <= t < |txs| ==> HashesTell(txs[t])
    ensures Distinct(EntryRefs(AllEntries(blockHash, txs))) <==> NoTwinsIn(txs)
  {
    if txs != [] {
      var n := |txs| - 1;
      var init, tx := txs[..n], txs[n];
      assert forall t :: 0 <= t < n ==> init[t] == txs[t];
      DistinctInBlock(blockHash, init);
      DistinctInTx(blockHash, tx);
      var refs, more := EntryRefs(AllEntries(blockHash, init)), EntryRefs(NewEntries(blockHash, tx));
      EntryRefsConcat(AllEntries(blockHash, init), NewEntries(blockHash, tx));
      forall k | 0 <= k < |refs|
        ensures refs[k] !in more
      {
        IdsOfEntries(blockHash, init, k);
        var t :| 0 <= t < |init| && refs[k].txId == init[t].id;
        assert txs[t].id != txs[n].id;
        assert forall j :: 0 <= j < |more| ==> more[j].txId == tx.id;
      }
      DistinctConcat(refs, more);
    }
  }

  /** No transaction on the chain has two equal outputs. */
  ghost predicate NoTwinsOn(chain: seq<Block>) {
    forall n :: 0 <= n < |chain| ==> NoTwinsIn(TxList(chain[n]))
  }

  /** Within the block, ids tell transactions apart, and digests their outputs. */
  ghost predicate BlockTells(b: Block) {
    && (forall t, u :: 0 <= t < u < |TxList(b)| ==> TxList(b)[t].id != TxList(b)[u].id)
    && (forall t :: 0 <= t < |TxList(b)| ==> HashesTell(TxList(b)[t]))
  }

  lemma {:induction false} BlockOfEntries(chain: seq<Block>, k: nat)
    requires k < |Entries(chain)|
    ensures exists n :: 0 <= n < |chain| && EntryRefs(Entries(chain))[k].blockHash == chain[n].hash
  {
    var n := |chain| - 1;
    var before, new' := Entries(chain[..n]), AllEntries(chain[n].hash, TxList(chain[n]));
    if k < |before| {
      BlockOfEntries(chain[..n], k);
      var m :| 0 <= m < n && EntryRefs(before)[k].blockHash == chain[..n][m].hash;
      assert chain[m].hash == EntryRefs(Entries(chain))[k].blockHash;
    } else {
      EntriesHaveItsHash(chain[n].hash, TxList(chain[n]));
      assert new'[k - |before|] in new';
      assert EntryRefs(Entries(chain))[k].blockHash == chain[n].hash;
    }
  }

  lemma {:induction false} OtherHash(chain: seq<Block>, b: Block, k: nat)
    requires k < |Entries(chain)| && forall n :: 0 <= n < |chain| ==> chain[n].hash != b.hash
    ensures EntryRefs(Entries(chain))[k] !in EntryRefs(AllEntries(b.hash, TxList(b)))
  {
    var new' := AllEntries(b.hash, TxList(b));
    BlockOfEntries(chain, k);
    EntriesHaveItsHash(b.hash, TxList(b));
    forall j | 0 <= j < |new'|
      ensures EntryRefs(new')[j].blockHash == b.hash
    {
      assert new'[j] in new';
    }
  }

  lemma {:induction false} DistinctSnoc(chain: seq<Block>, b: Block)
    requires BlockTells(b) && forall n :: 0 <= n < |chain| ==> chain[n].hash != b.hash
    requires Distinct(EntryRefs(Entries(chain))) <==> NoTwinsOn(chain)
    ensures Distinct(EntryRefs(Entries(chain + [b]))) <==> NoTwinsOn(chain + [b])
  {
    var before, new' := Entries(chain), AllEntries(b.hash, TxList(b));
    ChainSnoc(chain, b);
    EntryRefsConcat(before, new');
    DistinctInBlock(b.hash, TxList(b));
    forall k | 0 <= k < |before|
      ensures EntryRefs(before)[k] !in EntryRefs(new')
    {
      OtherHash(chain, b, k);
    }
    DistinctConcat(EntryRefs(before), EntryRefs(new'));
    NoTwinsSnoc(chain, b);
  }

  lemma {:induction false} NoTwinsSnoc(chain: seq<Block>, b: Block)
    ensures NoTwinsOn(chain + [b]) <==> NoTwinsOn(chain) && NoTwinsIn(TxList(b))
  {
    var longer := chain + [b];
    assert longer[|chain|] == b && forall n :: 0 <= n < |chain| ==> longer[n] == chain[n];
  }

  lemma {:induction false} DistinctOnChain(chain: seq<Block>)
    requires forall m, n :: 0 <= m < n < |chain| ==> chain[m].hash != chain[n].hash
    requires forall n :: 0 <= n < |chain| ==> BlockTells(chain[n])
    ensures Distinct(EntryRefs(Entries(chain))) <==> NoTwinsOn(chain)
  {
    if chain != [] {
      var init, b := chain[..|chain| - 1], chain[|chain| - 1];
      assert chain == init + [b];
      DistinctOnChain(init);
      DistinctSnoc(init, b);
    }
  }

  lemma {:induction false} EntryOnChain(chain: seq<Block>, n: nat, t: nat, k: nat)
    requires n < |chain| && t < |TxList(chain[n])| && k < |TxList(chain[n])[t].outputs|
    ensures Unspent(chain[n].hash, TxList(chain[n])[t].id, TxList(chain[n])[t].outputs[k]) in Entries(chain)
  {
    EntriesGrow(chain, n + 1);
    assert chain[..n + 1][..n] == chain[..n];
    EntriesOfTx(chain[n].hash, TxList(chain[n]), t, k);
  }

  lemma {:induction false} CleanTells(chain: seq<Block>, n: nat, t: nat)
    requires CleanChain(chain) && n < |chain| && t < |TxList(chain[n])|
    ensures HashesTell(TxList(chain[n])[t])
  {
    var tx, all := TxList(chain[n])[t], Entries(chain);
    forall i, j | 0 <= i < j < |tx.outputs| && tx.outputs[i].hash == tx.outputs[j].hash
      ensures tx.outputs[i] == tx.outputs[j]
    {
      EntryOnChain(chain, n, t, i);
      EntryOnChain(chain, n, t, j);
      var x :| 0 <= x < |all| && all[x] == Unspent(chain[n].hash, tx.id, tx.outputs[i]);
      var y :| 0 <= y < |all| && all[y] == Unspent(chain[n].hash, tx.id, tx.outputs[j]);
      assert all[x].out.hash == all[y].out.hash;
    }
  }

  /** On a clean chain of a run the references created all differ if and only if no transaction on it has two equal
      outputs; unless blocks, or transactions of one block, collide. */
  lemma {:induction false} ReferencesDifferExactlyWhen(c: Suite, steps: seq<Step>, s: Ledger)
    requires GenesisDigest(c) && Reached(c, steps, s) && CleanChain(s.chain)
    requires !BlocksCollide(c, s.chain, s.chain) && !IdsCollide(c, s.chain)
    ensures Distinct(EntryRefs(Entries(s.chain))) <==> NoTwinsOn(s.chain)
  {
    ReachedSound(c, steps, s);
    ReachedTxsOk(c, steps, s);
    ReachedApart(c, steps, s);
    forall m, n | 0 <= m < n < |s.chain|
      ensures s.chain[m].hash != s.chain[n].hash
    {
      HashesDiffer(c, s.chain, m, n);
    }
    forall n | 0 <= n < |s.chain|
      ensures BlockTells(s.chain[n])
    {
      RunBlockTells(c, s.chain, n);
    }
    DistinctOnChain(s.chain);
  }

  lemma {:induction false} RunBlockTells(c: Suite, chain: seq<Block>, n: nat)
    requires ChainAuthorised(c, chain) && CleanChain(chain) && ChainTxsOk(c, chain) && ChainApart(chain)
    requires !IdsCollide(c, chain) && n < |chain|
    ensures BlockTells(chain[n])
  {
    forall t, u | 0 <= t < u < |TxList(chain[n])|
      ensures TxList(chain[n])[t].id != TxList(chain[n])[u].id
    {
      IdsDiffer(c, chain, n, t, u);
    }
    forall t | 0 <= t < |TxList(chain[n])|
      ensures HashesTell(TxList(chain[n])[t])
    {
      CleanTells(chain, n, t);
    }
  }

  // ---- the books ----

  /** Every list command of the run leaves entries of the same output digest in their order. */
  ghost predicate ListsKeepClasses(c: Suite, steps: seq<Step>)
    requires RunFrom(c, Initial(), steps).Some?
  {
    steps == []
    || var n := |steps| - 1;
       && ListsKeepClasses(c, steps[..n])
       && (steps[n].List? ==> KeepsClasses(RunFrom(c, Initial(), steps[..n]).value.unspent, steps[n].order))
  }

  /** References that differ, and that prefixes tell apart. */
  ghost predicate GoodRefs(us: seq<Unspent>) {
    Distinct(EntryRefs(us)) && PrefixesTell(us)
  }

  lemma {:induction false} GoodRefsBefore(a: seq<Unspent>, b: seq<Unspent>)
    requires GoodRefs(a + b)
    ensures GoodRefs(a)
  {
    EntryRefsConcat(a, b);
    DistinctConcat(EntryRefs(a), EntryRefs(b));
    forall i, j | 0 <= i < |a| && 0 <= j < |a| && PrefixMatch(EntryRef(a[i]), EntryRef(a[j]))
      ensures EntryRef(a[i]) == EntryRef(a[j])
    {
      assert (a + b)[i] == a[i] && (a + b)[j] == a[j];
    }
  }

  lemma {:induction false} GoodRefsBeforeStep(c: Suite, s: Ledger, step: Step)
    requires ChainOk(c, s.chain) && Enabled(c, s, step) && GoodRefs(Entries(Next(c, s, step).chain))
    ensures GoodRefs(Entries(s.chain))
  {
    var after := Next(c, s, step).chain;
    StepKeepsChain(c, s, step);
    if after != s.chain {
      var b := after[|s.chain|];
      assert after == s.chain + [b];
      ChainSnoc(s.chain, b);
      GoodRefsBefore(Entries(s.chain), AllEntries(b.hash, TxList(b)));
    }
  }

  lemma {:induction false} DistinctByCount(refs: seq<Ref>, all: seq<Ref>)
    requires multiset(refs) <= multiset(all) && Distinct(all)
    ensures Distinct(refs)
  {
    forall i, j | 0 <= i < j < |refs|
      ensures refs[i] != refs[j]
    {
      CountTwo(refs, i, j);
      CountOne(all, refs[i]);
      assert multiset(refs)[refs[i]] <= multiset(all)[refs[i]];
    }
  }

  lemma {:induction false} CountOne(refs: seq<Ref>, r: Ref)
    requires Distinct(refs)
    ensures multiset(refs)[r] <= 1
  {
    if refs != [] {
      var init, last := refs[..|refs| - 1], refs[|refs| - 1];
      CountOne(init, r);
      assert refs == init + [last];
      assert last !in init;
    }
  }

  /** While the books balance, the list inherits this from the chain. */
  lemma {:induction false} ListInherits(chain: seq<Block>, us: seq<Unspent>, pub: Pub)
    requires RefsAddUp(chain, us) && GoodRefs(Entries(chain)) && forall u <- us :: u in Entries(chain)
    ensures NoClash(us, pub)
  {
    var all := Entries(chain);
    assert multiset(EntryRefs(us)) <= multiset(EntryRefs(us)) + multiset(InRefs(SpentInputs(chain)));
    DistinctByCount(EntryRefs(us), EntryRefs(all));
    forall i, j | 0 <= i < |us| && 0 <= j < |us| && PrefixMatch(EntryRef(us[i]), EntryRef(us[j]))
      ensures EntryRef(us[i]) == EntryRef(us[j])
    {
      assert us[i] in us && us[j] in us;
      var x :| 0 <= x < |all| && all[x] == us[i];
      var y :| 0 <= y < |all| && all[y] == us[j];
    }
    PrefixFreeExactly(us);
    assert PrefixFree(us);
  }

  lemma {:induction false} RunIsTidy(c: Suite, steps: seq<Step>, s: Ledger)
    requires Reached(c, steps, s) && ListsKeepClasses(c, steps) && CleanChain(s.chain) && GoodRefs(Entries(s.chain))
    ensures Tidy(c, Initial(), steps)
  {
    if steps != [] {
      var n := |steps| - 1;
      var before := RunFrom(c, Initial(), steps[..n]).value;
      ReachedSound(c, steps[..n], before);
      CleanBefore(c, before, steps[n]);
      GoodRefsBeforeStep(c, before, steps[n]);
      RunIsTidy(c, steps[..n], before);
      NoReferenceSpentTwice(c, steps[..n], before);
      if before.wallet.Some? {
        ListInherits(before.chain, before.unspent, before.wallet.value.pub);
      }
    }
  }

  /** The books balance by reference in every run whose list commands leave entries of the same digest in their order,
      whose chain has no transaction with two equal outputs, and whose references differ in their prefixes when they
      differ; unless blocks, or transactions of one block, collide. */
  lemma {:induction false} BooksBalance(c: Suite, steps: seq<Step>, s: Ledger)
    requires GenesisDigest(c) && Reached(c, steps, s) && CleanChain(s.chain)
    requires !BlocksCollide(c, s.chain, s.chain) && !IdsCollide(c, s.chain)
    requires ListsKeepClasses(c, steps) && NoTwinsOn(s.chain) && PrefixesTell(Entries(s.chain))
    ensures RefsAddUp(s.chain, s.unspent) && Distinct(EntryRefs(s.unspent))
  {
    ReferencesDifferExactlyWhen(c, steps, s);
    RunIsTidy(c, steps, s);
    NoReferenceSpentTwice(c, steps, s);
    assert multiset(EntryRefs(s.unspent)) <= multiset(EntryRefs(s.unspent)) + multiset(InRefs(SpentInputs(s.chain)));
    DistinctByCount(EntryRefs(s.unspent), EntryRefs(Entries(s.chain)));
  }
}
