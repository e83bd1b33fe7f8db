/** Invariants of every reachable state that need no assumption on the hash function: what the list of unspent
    outputs, the payments on the chain and the pool refer to. */
module Soundness {
  import opened Bytes
  import opened Crypto
  import opened LinkedList
  import opened Transactions
  import opened Validity
  import opened UpdateUnspent
  import opened Create
  import opened CreateLaws
  import opened UnspentLaws
  import opened Blocks
  import opened Mining
  import opened Ledger
  import opened ChainLaws

  /** The payments of a block: all its transactions but the coinbase. */
  function Payments(b: Block): seq<Tx> {
    if TxList(b) == [] then [] else TxList(b)[1..]
  }

  /** Every output ever created by a chain, as the entry it was when it was created. */
  function Entries(chain: seq<Block>): seq<Unspent> {
    if chain == [] then []
    else
      var n := |chain| - 1;
      Entries(chain[..n]) + AllEntries(chain[n].hash, TxList(chain[n]))
  }

  /** Every input of every payment of a chain. */
  function SpentInputs(chain: seq<Block>): seq<TxIn> {
    if chain == [] then [] else SpentInputs(chain[..|chain| - 1]) + AllInputs(Payments(chain[|chain| - 1]))
  }

  /** The input names an entry of the list: block, transaction and output digest agree. */
  predicate Names(i: TxIn, us: seq<Unspent>) {
    exists u <- us :: EntryRef(u) == InRef(i)
  }

  /** Every input of the transaction names an entry of the list, and carries a signature of the transaction by the
      owner of that entry. */
  predicate Authorised(c: Suite, tx: Tx, us: seq<Unspent>) {
    forall i <- tx.inputs :: exists u <- us :: EntryRef(u) == InRef(i) && Verifies(c, u.out.pub, tx.id, i.sig)
  }

  // ---- the pool ----

  /** What every pooled transaction is. */
  predicate Payment(c: Suite, tx: Tx) {
    && tx.id == TxHash(c, tx)
    && 1 <= |tx.outputs| <= 2
    && (forall o <- tx.outputs :: OutOk(c, o))
    && Total(tx.outputs) < 0x1_0000_0000
  }

  /** Taken together, the pooled transactions name each entry at most as often as the list holds it. */
  ghost predicate PoolFits(pool: seq<Tx>, us: seq<Unspent>) {
    multiset(InRefs(AllInputs(pool))) <= multiset(EntryRefs(us))
  }

  lemma {:induction false} EligibleBag(us: seq<Unspent>, pub: Pub, pool: seq<Tx>)
    ensures multiset(EntryRefs(EligibleOf(us, pub, pool))) <= multiset(EntryRefs(us))
  {
    if us != [] {
      var init, u := us[..|us| - 1], us[|us| - 1];
      EligibleBag(init, pub, pool);
      EntryRefsSnoc(init, u);
      EntryRefsSnoc(EligibleOf(init, pub, pool), u);
      assert us == init + [u];
      assert EligibleOf(init, pub, pool) + [] == EligibleOf(init, pub, pool);
    }
  }

  lemma {:induction false} EntryRefsSnoc(us: seq<Unspent>, u: Unspent)
    ensures EntryRefs(us + [u]) == EntryRefs(us) + [EntryRef(u)]
  {
  }

  lemma {:induction false} EntryRefsConcat(a: seq<Unspent>, b: seq<Unspent>)
    ensures EntryRefs(a + b) == EntryRefs(a) + EntryRefs(b)
  {
  }

  lemma {:induction false} InRefsConcat(a: seq<TxIn>, b: seq<TxIn>)
    ensures InRefs(a + b) == InRefs(a) + InRefs(b)
  {
  }

  lemma {:induction false} TakenBag(key: EcKey, amount: uint32, us: seq<Unspent>, pool: seq<Tx>)
    ensures multiset(EntryRefs(Taken(key, amount, us, pool))) <= multiset(EntryRefs(us))
  {
    var k := Cut(us, key.pub, pool, amount, 0);
    EligibleBag(us[..k], key.pub, pool);
    EntryRefsConcat(us[..k], us[k..]);
    assert us == us[..k] + us[k..];
  }

  /** The comparison of prefixes never overlooks an entry the pool names in full. */
  lemma {:induction false} NamedIsUsed(pool: seq<Tx>, u: Unspent)
    requires EntryRef(u) in InRefs(AllInputs(pool))
    ensures UsedInPool(pool, u)
  {
    if pool != [] {
      var n := |pool| - 1;
      var init, tx := pool[..n], pool[n];
      InRefsConcat(AllInputs(init), tx.inputs);
      if EntryRef(u) in InRefs(tx.inputs) {
        var k :| 0 <= k < |tx.inputs| && InRefs(tx.inputs)[k] == EntryRef(u);
        assert PrefixMatch(InRef(tx.inputs[k]), EntryRef(u));
        assert UsedBy(pool[n], u);
      } else {
        NamedIsUsed(init, u);
        var t :| 0 <= t < |init| && UsedBy(init[t], u);
        assert UsedBy(pool[t], u);
      }
    }
  }

  /** What a new transaction takes was not named by the pool before. */
  lemma {:induction false} TakenIsNew(key: EcKey, amount: uint32, us: seq<Unspent>, pool: seq<Tx>)
    ensures forall u <- Taken(key, amount, us, pool) :: EntryRef(u) !in InRefs(AllInputs(pool))
  {
    EligibleElements(us[..Cut(us, key.pub, pool, amount, 0)], key.pub, pool);
    forall u <- Taken(key, amount, us, pool)
      ensures EntryRef(u) !in InRefs(AllInputs(pool))
    {
      if EntryRef(u) in InRefs(AllInputs(pool)) {
        NamedIsUsed(pool, u);
      }
    }
  }

  /** Two bags that both fit, and have nothing in common, fit together. */
  lemma {:induction false} DisjointFit<T>(a: multiset<T>, b: multiset<T>, all: multiset<T>)
    requires a <= all && b <= all && a !! b
    ensures a + b <= all
  {
    forall x | x in a + b
      ensures (a + b)[x] <= all[x]
    {
      assert x !in a || x !in b;
    }
  }

  lemma {:induction false} SendFits(c: Suite, key: EcKey, receiver: Pub, amount: uint32,
                                    us: seq<Unspent>, pool: seq<Tx>, n: nat)
    requires PoolFits(pool, us)
    requires NewTransaction(c, Some(key), Some(receiver), amount, us, pool, n).Some?
    ensures var tx := NewTransaction(c, Some(key), Some(receiver), amount, us, pool, n).value;
            PoolFits(pool + [tx], us) && Payment(c, tx)
  {
    var tx := NewTransaction(c, Some(key), Some(receiver), amount, us, pool, n).value;
    var taken := Taken(key, amount, us, pool);
    CreatedPays(c, key, receiver, amount, us, pool, n);
    TakenBag(key, amount, us, pool);
    TakenIsNew(key, amount, us, pool);
    var old', new' := InRefs(AllInputs(pool)), EntryRefs(taken);
    forall k | 0 <= k < |taken|
      ensures new'[k] !in old'
    {
      assert taken[k] in taken;
    }
    DisjointFit(multiset(old'), multiset(new'), multiset(EntryRefs(us)));
    AllInputsSnoc(pool, tx);
    InRefsConcat(AllInputs(pool), tx.inputs);
  }

  lemma {:induction false} AllInputsSnoc(txs: seq<Tx>, tx: Tx)
    ensures AllInputs(txs + [tx]) == AllInputs(txs) + tx.inputs
  {
    assert (txs + [tx])[..|txs|] == txs;
  }

  lemma {:induction false} FilteredFits(pool: seq<Tx>, bad: Tx -> bool)
    ensures multiset(InRefs(AllInputs(Without(pool, bad)))) <= multiset(InRefs(AllInputs(pool)))
  {
    if pool != [] {
      var n := |pool| - 1;
      FilteredFits(pool[..n], bad);
      InRefsConcat(AllInputs(pool[..n]), pool[n].inputs);
      if !bad(pool[n]) {
        AllInputsSnoc(Without(pool[..n], bad), pool[n]);
        InRefsConcat(AllInputs(Without(pool[..n], bad)), pool[n].inputs);
      }
    }
  }

  lemma {:induction false} DropEntry(us: seq<Unspent>, j: nat)
    requires j < |us|
    ensures var rest := us[..j] + us[j + 1..];
            && multiset(us) == multiset(rest) + multiset{us[j]}
            && multiset(EntryRefs(us)) == multiset(EntryRefs(rest)) + multiset{EntryRef(us[j])}
  {
    var refs := EntryRefs(us);
    assert us == us[..j] + [us[j]] + us[j + 1..];
    assert refs == refs[..j] + [refs[j]] + refs[j + 1..];
    assert EntryRefs(us[..j] + us[j + 1..]) == refs[..j] + refs[j + 1..];
  }

  lemma {:induction false} ReorderedRefs(a: seq<Unspent>, b: seq<Unspent>)
    requires multiset(a) <= multiset(b)
    ensures multiset(EntryRefs(a)) <= multiset(EntryRefs(b))
  {
    if a != [] {
      var n := |a| - 1;
      DropEntry(a, n);
      assert a[..n] + a[n + 1..] == a[..n];
      assert a[n] in multiset(b);
      var j :| 0 <= j < |b| && b[j] == a[n];
      DropEntry(b, j);
      CancelOne(multiset(a[..n]), multiset(b[..j] + b[j + 1..]), a[n]);
      ReorderedRefs(a[..n], b[..j] + b[j + 1..]);
    }
  }

  // ---- the invariant ----

  /** Every input of a payment names an output of an earlier block, and is signed by the owner of that output. */
  ghost predicate ChainAuthorised(c: Suite, chain: seq<Block>) {
    forall n :: 0 <= n < |chain| ==> forall tx <- Payments(chain[n]) :: Authorised(c, tx, Entries(chain[..n]))
  }

  ghost predicate Sound(c: Suite, s: Ledger) {
    && ChainOk(c, s.chain)
    && (forall u <- s.unspent :: u in Entries(s.chain))
    && (forall u <- Entries(s.chain) :: OutOk(c, u.out))
    && ChainAuthorised(c, s.chain)
    && PoolFits(s.pool, s.unspent)
    && (forall tx <- s.pool :: Payment(c, tx))
  }

  lemma {:induction false} ChainSnoc(chain: seq<Block>, b: Block)
    ensures Entries(chain + [b]) == Entries(chain) + AllEntries(b.hash, TxList(b))
    ensures SpentInputs(chain + [b]) == SpentInputs(chain) + AllInputs(Payments(b))
  {
    assert (chain + [b])[..|chain|] == chain;
  }

  lemma {:induction false} GenesisIsEmpty()
    ensures Entries([Genesis()]) == [] && SpentInputs([Genesis()]) == []
  {
    assert [Genesis()][..0] == [] && TxList(Genesis()) == [];
  }

  lemma {:induction false} InitiallySound(c: Suite)
    ensures Sound(c, Initial())
  {
    GenesisIsEmpty();
  }

  lemma {:induction false} AllEntriesOk(c: Suite, blockHash: Digest, txs: seq<Tx>)
    requires forall tx <- txs :: forall o <- tx.outputs :: OutOk(c, o)
    ensures forall u <- AllEntries(blockHash, txs) :: OutOk(c, u.out)
  {
    if txs != [] {
      var n := |txs| - 1;
      assert forall tx <- txs[..n] :: tx in txs;
      AllEntriesOk(c, blockHash, txs[..n]);
      forall u <- NewEntries(blockHash, txs[n])
        ensures OutOk(c, u.out)
      {
        assert txs[n] in txs && u.out in txs[n].outputs;
      }
    }
  }

  /** A valid transaction names only entries of the list. */
  lemma {:induction false} ValidNames(c: Suite, txs: seq<Tx>, us: seq<Unspent>)
    requires forall tx <- txs :: TxValid(c, tx, us)
    ensures forall i <- AllInputs(txs) :: Names(i, us)
  {
    if txs != [] {
      var n := |txs| - 1;
      ValidNames(c, txs[..n], us);
      var tx := txs[n];
      assert tx in txs;
      forall k | 0 <= k < |tx.inputs|
        ensures Names(tx.inputs[k], us)
      {
        assert InputOk(c, tx.id, tx.inputs[k], us);
        var u := First(us, NamedBy(tx.inputs[k])).value;
        assert u in us && EntryRef(u) == InRef(tx.inputs[k]);
      }
    }
  }

  lemma {:induction false} SuccessorPayments(c: Suite, s: Ledger, miner: Pub, b: Block)
    requires s.chain != [] && Successor(c, s, miner, b)
    ensures Payments(b) == Accepted(c, s)
    ensures forall tx <- Payments(b) :: tx in s.pool && TxValid(c, tx, s.unspent)
  {
    WithoutElements(s.pool, Rejected(c, s.unspent));
  }

  lemma {:induction false} CommitKeepsEntries(c: Suite, s: Ledger, miner: Pub, b: Block)
    requires Sound(c, s) && Successor(c, s, miner, b)
    ensures forall u <- ApplyTxs(s.unspent, b.hash, TxList(b)) :: u in Entries(s.chain + [b])
    ensures forall u <- Entries(s.chain + [b]) :: OutOk(c, u.out)
  {
    ChainSnoc(s.chain, b);
    UpdateElements(s.unspent, b.hash, TxList(b));
    CoinbaseIsAccepted(c, miner, b.info.index);
    SuccessorPayments(c, s, miner, b);
    forall tx <- TxList(b)
      ensures forall o <- tx.outputs :: OutOk(c, o)
    {
      assert tx == TxList(b)[0] || tx in Payments(b);
    }
    AllEntriesOk(c, b.hash, TxList(b));
  }

  lemma {:induction false} ValidIsAuthorised(c: Suite, tx: Tx, us: seq<Unspent>, all: seq<Unspent>)
    requires TxValid(c, tx, us) && forall u <- us :: u in all
    ensures Authorised(c, tx, all)
  {
    forall k | 0 <= k < |tx.inputs|
      ensures exists u <- all :: EntryRef(u) == InRef(tx.inputs[k]) && Verifies(c, u.out.pub, tx.id, tx.inputs[k].sig)
    {
      assert InputOk(c, tx.id, tx.inputs[k], us);
      var u := First(us, NamedBy(tx.inputs[k])).value;
      assert u in us && u in all;
    }
  }

  lemma {:induction false} CommitAuthorised(c: Suite, s: Ledger, miner: Pub, b: Block)
    requires Sound(c, s) && Successor(c, s, miner, b)
    ensures ChainAuthorised(c, s.chain + [b])
  {
    var chain, m := s.chain + [b], |s.chain|;
    SuccessorPayments(c, s, miner, b);
    forall n | 0 <= n < |chain|
      ensures forall tx <- Payments(chain[n]) :: Authorised(c, tx, Entries(chain[..n]))
    {
      if n < m {
        assert chain[..n] == s.chain[..n] && chain[n] == s.chain[n];
      } else {
        assert chain[..n] == s.chain && chain[n] == b;
        forall tx <- Payments(b)
          ensures Authorised(c, tx, Entries(s.chain))
        {
          ValidIsAuthorised(c, tx, s.unspent, Entries(s.chain));
        }
      }
    }
  }

  lemma {:induction false} MineKeepsSound(c: Suite, s: Ledger, time: uint64)
    requires Sound(c, s) && CanMine(c, s, time)
    ensures Sound(c, MineStep(c, s, time))
  {
    if s.wallet.Some? {
      var miner := s.wallet.value.pub;
      var b := Mined(c, Candidate(c, s, miner, time));
      MineCommits(c, s, time);
      StepKeepsChain(c, s, Step.Mine(time));
      CommitKeepsEntries(c, s, miner, b);
      CommitAuthorised(c, s, miner, b);
      FilteredFits(s.pool, Rejected(c, s.unspent));
      WithoutElements(s.pool, Rejected(c, s.unspent));
    }
  }

  lemma {:induction false} SendKeepsSound(c: Suite, s: Ledger, amount: int, receiver: Option<Pub>, n: nat)
    requires Sound(c, s)
    ensures Sound(c, SendStep(c, s, amount, receiver, n))
  {
    var tx := NewTransaction(c, s.wallet, receiver, Wrap32(amount), s.unspent, s.pool, n);
    if tx.Some? {
      SendFits(c, s.wallet.value, receiver.value, Wrap32(amount), s.unspent, s.pool, n);
    }
  }

  lemma {:induction false} StepKeepsSound(c: Suite, s: Ledger, step: Step)
    requires Sound(c, s) && Enabled(c, s, step)
    ensures Sound(c, Next(c, s, step))
  {
    match step
    case SetWallet(key) =>
    case Send(amount, address, random) => SendKeepsSound(c, s, amount, Receiver(c, address), random);
    case Mine(time) => MineKeepsSound(c, s, time);
    case List(order) =>
      ReorderedRefs(s.unspent, order);
      assert forall u <- order :: u in multiset(order) && u in multiset(s.unspent);
  }

  /** The invariant holds in every reachable state, whatever the hash function and the keys. */
  lemma {:induction false} ReachedSound(c: Suite, steps: seq<Step>, s: Ledger)
    requires Reached(c, steps, s)
    ensures Sound(c, s)
  {
    if steps == [] {
      InitiallySound(c);
    } else {
      var n := |steps| - 1;
      var before := RunFrom(c, Initial(), steps[..n]).value;
      ReachedSound(c, steps[..n], before);
      StepKeepsSound(c, before, steps[n]);
    }
  }

  /** No coin moves without its owner: every input of every payment on the chain names an output of an earlier block
      and is signed, over the paying transaction's id, by the key that output belongs to. */
  lemma {:induction false} OnlyOwnersSpend(c: Suite, steps: seq<Step>, s: Ledger, n: nat)
    requires Reached(c, steps, s) && n < |s.chain|
    ensures forall tx <- Payments(s.chain[n]) :: Authorised(c, tx, Entries(s.chain[..n]))
  {
    ReachedSound(c, steps, s);
  }

  /** The pool never spends an entry more often than the list holds it, however the entries' prefixes clash. */
  lemma {:induction false} PoolNeverOverspends(c: Suite, steps: seq<Step>, s: Ledger, r: Ref)
    requires Reached(c, steps, s)
    ensures multiset(InRefs(AllInputs(s.pool)))[r] <= multiset(EntryRefs(s.unspent))[r]
  {
    ReachedSound(c, steps, s);
  }
}
