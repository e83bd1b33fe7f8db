/** Conservation: the unspent outputs are exactly the outputs created minus the outputs spent, and together are
    worth fifty coins a block. */
module Conservation {
  import opened Bytes
  import opened Crypto
  import opened LinkedList
  import opened Transactions
  import opened Validity
  import opened UpdateUnspent
  import opened CreateLaws
  import opened UnspentLaws
  import opened Blocks
  import opened Mining
  import opened Ledger
  import opened ChainLaws
  import opened Soundness

  /** A digest that ends in 28 zero bytes can be the mark of a coinbase. */
  predicate MarkLike(h: Digest) {
    h[4..] == Zeros(28)
  }

  /** No two different outputs on the chain share a digest, and no output's digest is like a coinbase's mark. */
  ghost predicate CleanChain(chain: seq<Block>) {
    Clean(Entries(chain)) && forall u <- Entries(chain) :: !MarkLike(u.out.hash)
  }

  // ---- outputs with the same digests are the same outputs ----

  ghost predicate CleanOuts(a: seq<TxOut>, b: seq<TxOut>) {
    forall i, j :: 0 <= i < |a| && 0 <= j < |b| && a[i].hash == b[j].hash ==> a[i] == b[j]
  }

  lemma {:induction false} DropOut(outs: seq<TxOut>, j: nat)
    requires j < |outs|
    ensures var rest := outs[..j] + outs[j + 1..];
            && multiset(outs) == multiset(rest) + multiset{outs[j]}
            && multiset(OutHashes(outs)) == multiset(OutHashes(rest)) + multiset{outs[j].hash}
  {
    var hs := OutHashes(outs);
    assert outs == outs[..j] + [outs[j]] + outs[j + 1..];
    assert hs == hs[..j] + [hs[j]] + hs[j + 1..];
    assert OutHashes(outs[..j] + outs[j + 1..]) == hs[..j] + hs[j + 1..];
  }

  lemma {:induction false} CancelEqual<T>(a: multiset<T>, b: multiset<T>, x: T)
    requires a + multiset{x} == b + multiset{x}
    ensures a == b
  {
    assert a == (a + multiset{x}) - multiset{x};
    assert b == (b + multiset{x}) - multiset{x};
  }

  lemma {:induction false} SameHashesSameOuts(a: seq<TxOut>, b: seq<TxOut>)
    requires CleanOuts(a, b) && multiset(OutHashes(a)) == multiset(OutHashes(b))
    ensures multiset(a) == multiset(b)
  {
    if a == [] {
      assert |OutHashes(b)| == |multiset(OutHashes(b))|;
    } else {
      var n := |a| - 1;
      DropOut(a, n);
      assert a[..n] + a[n + 1..] == a[..n];
      assert a[n].hash in multiset(OutHashes(b));
      var j :| 0 <= j < |b| && OutHashes(b)[j] == a[n].hash;
      DropOut(b, j);
      var rest := b[..j] + b[j + 1..];
      CancelEqual(multiset(OutHashes(a[..n])), multiset(OutHashes(rest)), a[n].hash);
      SameHashesSameOuts(a[..n], rest);
    }
  }

  lemma {:induction false} TotalConcat(a: seq<TxOut>, b: seq<TxOut>)
    ensures Total(a + b) == Total(a) + Total(b)
  {
    if b == [] {
      assert a + b == a;
    } else {
      var init, o := b[..|b| - 1], b[|b| - 1];
      TotalConcat(a, init);
      assert a + b == (a + init) + [o];
      assert (a + b)[..|a + b| - 1] == a + init;
    }
  }

  lemma {:induction false} TotalDrop(outs: seq<TxOut>, j: nat)
    requires j < |outs|
    ensures Total(outs) == Total(outs[..j] + outs[j + 1..]) + outs[j].amount
  {
    assert outs == outs[..j + 1] + outs[j + 1..];
    TotalConcat(outs[..j + 1], outs[j + 1..]);
    TotalTake(outs, j);
    TotalConcat(outs[..j], outs[j + 1..]);
  }

  /** The total depends only on which outputs there are. */
  lemma {:induction false} TotalOfBag(a: seq<TxOut>, b: seq<TxOut>)
    requires multiset(a) == multiset(b)
    ensures Total(a) == Total(b)
  {
    if a == [] {
      assert |b| == |multiset(b)|;
    } else {
      var n := |a| - 1;
      DropOut(a, n);
      assert a[..n] + a[n + 1..] == a[..n];
      assert a[n] in multiset(b);
      var j :| 0 <= j < |b| && b[j] == a[n];
      DropOut(b, j);
      TotalDrop(b, j);
      CancelEqual(multiset(a[..n]), multiset(b[..j] + b[j + 1..]), a[n]);
      TotalOfBag(a[..n], b[..j] + b[j + 1..]);
    }
  }

  // ---- bags of outputs ----

  lemma {:induction false} NamedOutHash(us: seq<Unspent>, i: TxIn)
    requires Names(i, us)
    ensures First(us, NamedBy(i)).Some? && First(us, NamedBy(i)).value in us
    ensures NamedOut(us, i).hash == i.txOutHash
  {
    var u :| u in us && EntryRef(u) == InRef(i);
    var k :| 0 <= k < |us| && us[k] == u;
    assert NamedBy(i)(us[k]);
  }

  /** When the digests left and the digests spent make up those of a list without collisions, so do the outputs
      left and the outputs the spent inputs name. */
  lemma {:induction false} OutputsAddUp(left: seq<Unspent>, ins: seq<TxIn>, all: seq<Unspent>)
    requires Clean(all) && (forall u <- left :: u in all) && (forall i <- ins :: Names(i, all))
    requires HashBag(left) + multiset(InHashes(ins)) == HashBag(all)
    ensures multiset(Outs(left)) + multiset(NamedOuts(all, ins)) == multiset(Outs(all))
    ensures Total(Outs(left)) + Total(NamedOuts(all, ins)) == Total(Outs(all))
  {
    var named := NamedOuts(all, ins);
    var parts := Outs(left) + named;
    forall k | 0 <= k < |ins|
      ensures named[k].hash == ins[k].txOutHash
      ensures exists m :: 0 <= m < |all| && all[m].out == named[k]
    {
      assert ins[k] in ins;
      NamedOutHash(all, ins[k]);
      var u := First(all, NamedBy(ins[k])).value;
      var m :| 0 <= m < |all| && all[m] == u;
    }
    assert OutHashes(parts) == EntryHashes(left) + InHashes(ins);
    assert OutHashes(Outs(all)) == EntryHashes(all);
    PartsAreClean(left, named, all);
    SameHashesSameOuts(parts, Outs(all));
    TotalOfBag(parts, Outs(all));
    TotalConcat(Outs(left), named);
  }

  lemma {:induction false} PartsAreClean(left: seq<Unspent>, named: seq<TxOut>, all: seq<Unspent>)
    requires Clean(all) && (forall u <- left :: u in all)
    requires forall k :: 0 <= k < |named| ==> exists m :: 0 <= m < |all| && all[m].out == named[k]
    ensures CleanOuts(Outs(left) + named, Outs(all))
  {
    var parts := Outs(left) + named;
    forall i, j | 0 <= i < |parts| && 0 <= j < |all| && parts[i].hash == Outs(all)[j].hash
      ensures parts[i] == Outs(all)[j]
    {
      if i < |left| {
        assert left[i] in left;
        var m :| 0 <= m < |all| && all[m] == left[i];
        assert all[m].out.hash == all[j].out.hash;
      } else {
        var m :| 0 <= m < |all| && all[m].out == named[i - |left|];
        assert all[m].out.hash == all[j].out.hash;
      }
    }
  }

  // ---- what a block's payments are worth ----

  lemma {:induction false} NamedOutsConcat(us: seq<Unspent>, a: seq<TxIn>, b: seq<TxIn>)
    ensures NamedOuts(us, a + b) == NamedOuts(us, a) + NamedOuts(us, b)
  {
  }

  /** A sum that fits 32 bits and agrees with another in 32 bits differs from it by whole multiples of 2^32. */
  lemma {:induction false} WrapGap(spent: nat, made: nat)
    requires Wrap32(spent) == Wrap32(made) && made < 0x1_0000_0000
    ensures spent == made + spent / 0x1_0000_0000 * 0x1_0000_0000
  {
  }

  /** What the entries a payment names are worth beyond 32 bits, in units of 2^32: the payment does not hand it on. */
  function LostByOne(us: seq<Unspent>, tx: Tx): nat {
    Total(NamedOuts(us, tx.inputs)) / 0x1_0000_0000
  }

  function LostBy(us: seq<Unspent>, txs: seq<Tx>): nat {
    if txs == [] then 0 else LostBy(us, txs[..|txs| - 1]) + LostByOne(us, txs[|txs| - 1])
  }

  /** Valid payments create exactly what they spend, less what is beyond 32 bits. */
  lemma {:induction false} PaymentsBalance(c: Suite, txs: seq<Tx>, us: seq<Unspent>)
    requires forall tx <- txs :: TxValid(c, tx, us) && Payment(c, tx)
    ensures Total(NamedOuts(us, AllInputs(txs))) == Total(AllOutputs(txs)) + LostBy(us, txs) * 0x1_0000_0000
  {
    if txs != [] {
      var init, tx := txs[..|txs| - 1], txs[|txs| - 1];
      assert TxValid(c, tx, us) && Payment(c, tx);
      PaymentsBalance(c, init, us);
      WrapGap(Total(NamedOuts(us, tx.inputs)), Total(tx.outputs));
      NamedOutsConcat(us, AllInputs(init), tx.inputs);
      TotalConcat(NamedOuts(us, AllInputs(init)), NamedOuts(us, tx.inputs));
      TotalConcat(AllOutputs(init), tx.outputs);
    }
  }

  lemma {:induction false} OutsOfEntries(blockHash: Digest, txs: seq<Tx>)
    ensures Outs(AllEntries(blockHash, txs)) == AllOutputs(txs)
  {
    if txs != [] {
      var init, tx := txs[..|txs| - 1], txs[|txs| - 1];
      OutsOfEntries(blockHash, init);
      assert Outs(NewEntries(blockHash, tx)) == tx.outputs;
    }
  }

  lemma {:induction false} AllOutputsConcat(a: seq<Tx>, b: seq<Tx>)
    ensures AllOutputs(a + b) == AllOutputs(a) + AllOutputs(b)
  {
    if b == [] {
      assert a + b == a;
    } else {
      var init, tx := b[..|b| - 1], b[|b| - 1];
      AllOutputsConcat(a, init);
      assert (a + b)[..|a + b| - 1] == a + init && (a + b)[|a + b| - 1] == tx;
      Associate(AllOutputs(a), AllOutputs(init), tx.outputs);
    }
  }

  lemma {:induction false} CoinbaseAndPayments(txs: seq<Tx>)
    requires txs != []
    ensures Total(AllOutputs(txs)) == Total(txs[0].outputs) + Total(AllOutputs(txs[1..]))
  {
    var coinbase := txs[0];
    assert txs == [coinbase] + txs[1..];
    AllOutputsConcat([coinbase], txs[1..]);
    assert AllOutputs([coinbase]) == coinbase.outputs by {
      assert [coinbase][..0] == [] && [] + coinbase.outputs == coinbase.outputs;
    }
    TotalConcat(coinbase.outputs, AllOutputs(txs[1..]));
  }

  // ---- the invariants of clean states ----

  /** Unspent and spent digests together are the digests of everything created. */
  ghost predicate DigestsAddUp(chain: seq<Block>, us: seq<Unspent>) {
    HashBag(us) + multiset(InHashes(SpentInputs(chain))) == HashBag(Entries(chain))
  }

  /** What all payments of a chain together did not hand on, in units of 2^32. */
  function Lost(chain: seq<Block>): nat {
    if chain == [] then 0
    else
      var n := |chain| - 1;
      Lost(chain[..n]) + LostBy(Entries(chain[..n]), Payments(chain[n]))
  }

  lemma {:induction false} LostSnoc(chain: seq<Block>, b: Block)
    ensures Lost(chain + [b]) == Lost(chain) + LostBy(Entries(chain), Payments(b))
  {
    assert (chain + [b])[..|chain|] == chain;
  }

  /** The unspent outputs are worth fifty coins a block, less what was lost. */
  ghost predicate Worth(chain: seq<Block>, us: seq<Unspent>) {
    Total(Outs(us)) + Lost(chain) * 0x1_0000_0000 == COINBASE_AMOUNT * (|chain| - 1)
  }

  /** Every created digest is unspent or spent; and the supply is whole but for what was lost to wrapping. */
  ghost predicate Balanced(chain: seq<Block>, us: seq<Unspent>) {
    DigestsAddUp(chain, us) && Worth(chain, us)
  }

  lemma {:induction false} CleanPrefix(chain: seq<Block>, b: Block)
    requires CleanChain(chain + [b])
    ensures CleanChain(chain)
  {
    var old', new' := Entries(chain), Entries(chain + [b]);
    ChainSnoc(chain, b);
    assert forall i :: 0 <= i < |old'| ==> new'[i] == old'[i];
    assert forall u <- old' :: u in new';
  }

  lemma {:induction false} UnspentIsClean(c: Suite, s: Ledger)
    requires Sound(c, s) && CleanChain(s.chain)
    ensures Clean(s.unspent)
    ensures forall h <- HashBag(s.unspent) :: !MarkLike(h)
  {
    var us := s.unspent;
    CleanPart(Entries(s.chain), us);
    forall h <- HashBag(us)
      ensures !MarkLike(h)
    {
      var k :| 0 <= k < |us| && EntryHashes(us)[k] == h;
      assert us[k] in us;
    }
  }

  /** In a clean state the list can satisfy every payment of the mined block, and is updated by removals from the
      old entries followed by the new ones. */
  lemma {:induction false} CommitShape(c: Suite, s: Ledger, miner: Pub, b: Block)
    requires Sound(c, s) && CleanChain(s.chain) && Successor(c, s, miner, b)
    ensures multiset(InHashes(AllInputs(Payments(b)))) <= HashBag(s.unspent)
    ensures ApplyTxs(s.unspent, b.hash, TxList(b))
            == Spend(s.unspent, InHashes(AllInputs(Payments(b)))) + AllEntries(b.hash, TxList(b))
  {
    SuccessorPayments(c, s, miner, b);
    FilteredFits(s.pool, Rejected(c, s.unspent));
    NamedCanBeSpent(AllInputs(Payments(b)), s.unspent);
    UnspentIsClean(c, s);
    var mark := CoinbaseMark(b.info.index);
    assert mark[4..] == Zeros(28);
    assert TxList(b)[0].inputs[0].txOutHash == mark;
    UpdateIsSpendThenAppend(s.unspent, b.hash, TxList(b));
  }

  lemma {:induction false} HashBagConcat(a: seq<Unspent>, b: seq<Unspent>)
    ensures HashBag(a + b) == HashBag(a) + HashBag(b)
  {
    EntryHashesConcat(a, b);
  }

  lemma {:induction false} CommitAddsUp(c: Suite, s: Ledger, miner: Pub, b: Block)
    requires Sound(c, s) && CleanChain(s.chain) && DigestsAddUp(s.chain, s.unspent) && Successor(c, s, miner, b)
    ensures DigestsAddUp(s.chain + [b], ApplyTxs(s.unspent, b.hash, TxList(b)))
  {
    var hashes, entries := InHashes(AllInputs(Payments(b))), AllEntries(b.hash, TxList(b));
    CommitShape(c, s, miner, b);
    ChainSnoc(s.chain, b);
    SpendBag(s.unspent, hashes);
    HashBagConcat(Spend(s.unspent, hashes), entries);
    HashBagConcat(Entries(s.chain), entries);
    InHashesConcat(SpentInputs(s.chain), AllInputs(Payments(b)));
  }

  lemma {:induction false} OutsConcat(a: seq<Unspent>, b: seq<Unspent>)
    ensures Outs(a + b) == Outs(a) + Outs(b)
  {
  }

  /** What a mined block's transactions create: the coinbase's coins, and what the payments hand on. */
  lemma {:induction false} BlockTotal(c: Suite, s: Ledger, miner: Pub, b: Block)
    requires Sound(c, s) && Successor(c, s, miner, b)
    ensures Total(AllOutputs(TxList(b))) + LostBy(s.unspent, Payments(b)) * 0x1_0000_0000
            == COINBASE_AMOUNT + Total(NamedOuts(s.unspent, AllInputs(Payments(b))))
  {
    SuccessorPayments(c, s, miner, b);
    PaymentsBalance(c, Payments(b), s.unspent);
    CoinbaseAndPayments(TxList(b));
    CoinbaseTotal(c, miner, b.info.index);
  }

  /** The value of the list before and after a commit. */
  lemma {:induction false} CommitTotals(c: Suite, s: Ledger, miner: Pub, b: Block)
    requires Sound(c, s) && CleanChain(s.chain) && Successor(c, s, miner, b)
    ensures Total(Outs(s.unspent)) + COINBASE_AMOUNT
            == Total(Outs(ApplyTxs(s.unspent, b.hash, TxList(b)))) + LostBy(s.unspent, Payments(b)) * 0x1_0000_0000
  {
    var left := Spend(s.unspent, InHashes(AllInputs(Payments(b))));
    CommitShape(c, s, miner, b);
    CommitLeaves(c, s, miner, b);
    BlockTotal(c, s, miner, b);
    OutsOfEntries(b.hash, TxList(b));
    OutsConcat(left, AllEntries(b.hash, TxList(b)));
    TotalConcat(Outs(left), AllOutputs(TxList(b)));
  }

  /** An input names the same output in a list and in a larger one without collisions. */
  lemma {:induction false} SameOutInAll(us: seq<Unspent>, all: seq<Unspent>, i: TxIn)
    requires Clean(all) && (forall u <- us :: u in all) && Names(i, us)
    ensures NamedOut(us, i) == NamedOut(all, i)
  {
    var u :| u in us && EntryRef(u) == InRef(i);
    assert u in all;
    NamedOutHash(us, i);
    NamedOutHash(all, i);
    var x, y := First(us, NamedBy(i)).value, First(all, NamedBy(i)).value;
    var m :| 0 <= m < |all| && all[m] == x;
    var n :| 0 <= n < |all| && all[n] == y;
    assert all[m].out.hash == all[n].out.hash;
  }

  lemma {:induction false} SameLossInAll(us: seq<Unspent>, all: seq<Unspent>, txs: seq<Tx>)
    requires Clean(all) && (forall u <- us :: u in all) && (forall i <- AllInputs(txs) :: Names(i, us))
    ensures LostBy(us, txs) == LostBy(all, txs)
  {
    if txs != [] {
      var tx := txs[|txs| - 1];
      SameLossInAll(us, all, txs[..|txs| - 1]);
      forall k | 0 <= k < |tx.inputs|
        ensures NamedOut(us, tx.inputs[k]) == NamedOut(all, tx.inputs[k])
      {
        assert tx.inputs[k] in AllInputs(txs);
        SameOutInAll(us, all, tx.inputs[k]);
      }
      assert NamedOuts(us, tx.inputs) == NamedOuts(all, tx.inputs);
    }
  }

  lemma {:induction false} CommitLoss(c: Suite, s: Ledger, miner: Pub, b: Block)
    requires Sound(c, s) && CleanChain(s.chain) && Successor(c, s, miner, b)
    ensures Lost(s.chain + [b]) == Lost(s.chain) + LostBy(s.unspent, Payments(b))
  {
    SuccessorPayments(c, s, miner, b);
    ValidNames(c, Payments(b), s.unspent);
    SameLossInAll(s.unspent, Entries(s.chain), Payments(b));
    LostSnoc(s.chain, b);
  }

  /** What a commit leaves and what its payments name make up the list, as bags and in value. */
  lemma {:induction false} CommitLeaves(c: Suite, s: Ledger, miner: Pub, b: Block)
    requires Sound(c, s) && CleanChain(s.chain) && Successor(c, s, miner, b)
    ensures var ins := AllInputs(Payments(b));
            var left := Spend(s.unspent, InHashes(ins));
            && multiset(Outs(left)) + multiset(NamedOuts(s.unspent, ins)) == multiset(Outs(s.unspent))
            && Total(Outs(left)) + Total(NamedOuts(s.unspent, ins)) == Total(Outs(s.unspent))
  {
    var ins := AllInputs(Payments(b));
    CommitShape(c, s, miner, b);
    UnspentIsClean(c, s);
    SpendBag(s.unspent, InHashes(ins));
    SpendKeeps(s.unspent, InHashes(ins));
    SuccessorPayments(c, s, miner, b);
    ValidNames(c, Payments(b), s.unspent);
    OutputsAddUp(Spend(s.unspent, InHashes(ins)), ins, s.unspent);
  }

  lemma {:induction false} CommitKeepsBalance(c: Suite, s: Ledger, miner: Pub, b: Block)
    requires Sound(c, s) && CleanChain(s.chain) && Balanced(s.chain, s.unspent) && Successor(c, s, miner, b)
    ensures Balanced(s.chain + [b], ApplyTxs(s.unspent, b.hash, TxList(b)))
  {
    CommitAddsUp(c, s, miner, b);
    CommitTotals(c, s, miner, b);
    CommitLoss(c, s, miner, b);
  }

  lemma {:induction false} CoinbaseTotal(c: Suite, miner: Pub, index: uint32)
    ensures Total(Coinbase(c, miner, index).outputs) == COINBASE_AMOUNT
  {
    var outs := Coinbase(c, miner, index).outputs;
    assert outs[..0] == [];
  }

  lemma {:induction false} NothingLostAtFirst()
    ensures Lost([Genesis()]) == 0
  {
    assert [Genesis()][..0] == [] && Payments(Genesis()) == [];
  }

  lemma {:induction false} InitiallyBalanced()
    ensures Balanced(Initial().chain, [])
  {
    GenesisIsEmpty();
    assert InHashes([]) == [];
    NothingLostAtFirst();
  }

  lemma {:induction false} ReorderedHashes(a: seq<Unspent>, b: seq<Unspent>)
    requires multiset(a) == multiset(b)
    ensures HashBag(a) == HashBag(b)
  {
    ReorderedRefs(a, b);
    ReorderedRefs(b, a);
    RefsGiveHashes(EntryRefs(a), EntryRefs(b));
    RefsGiveHashes(EntryRefs(b), EntryRefs(a));
    assert RefHashes(EntryRefs(a)) == EntryHashes(a);
    assert RefHashes(EntryRefs(b)) == EntryHashes(b);
  }

  lemma {:induction false} ListKeepsBalance(c: Suite, s: Ledger, order: seq<Unspent>)
    requires Sound(c, s) && CleanChain(s.chain) && Balanced(s.chain, s.unspent)
    requires multiset(order) == multiset(s.unspent)
    ensures Balanced(s.chain, order)
  {
    var us := s.unspent;
    ReorderedHashes(us, order);
    UnspentIsClean(c, s);
    forall u <- order
      ensures u in us
    {
      assert u in multiset(order) && u in multiset(us);
    }
    assert InHashes([]) == [] && NamedOuts(us, []) == [];
    OutputsAddUp(order, [], us);
  }

  lemma {:induction false} MineKeepsBalance(c: Suite, s: Ledger, time: uint64)
    requires Sound(c, s) && CanMine(c, s, time) && s.wallet.Some?
    requires CleanChain(MineStep(c, s, time).chain)
    requires CleanChain(s.chain) ==> Balanced(s.chain, s.unspent)
    ensures Balanced(MineStep(c, s, time).chain, MineStep(c, s, time).unspent)
  {
    var miner := s.wallet.value.pub;
    var b := Mined(c, Candidate(c, s, miner, time));
    MineCommits(c, s, time);
    if Tip(s).info.index != 0xFFFF_FFFF && Sealed(c, Tip(s)) {
      CleanPrefix(s.chain, b);
      CommitKeepsBalance(c, s, miner, b);
    }
  }

  lemma {:induction false} StepKeepsBalance(c: Suite, s: Ledger, step: Step)
    requires Sound(c, s) && Enabled(c, s, step)
    requires CleanChain(Next(c, s, step).chain)
    requires CleanChain(s.chain) ==> Balanced(s.chain, s.unspent)
    ensures Balanced(Next(c, s, step).chain, Next(c, s, step).unspent)
  {
    match step
    case SetWallet(key) =>
    case Send(amount, address, random) =>
    case Mine(time) =>
      if s.wallet.Some? {
        MineKeepsBalance(c, s, time);
      }
    case List(order) =>
      ListKeepsBalance(c, s, order);
  }

  lemma {:induction false} ReachedBalanced(c: Suite, steps: seq<Step>, s: Ledger)
    requires Reached(c, steps, s) && CleanChain(s.chain)
    ensures Balanced(s.chain, s.unspent)
  {
    if steps == [] {
      InitiallyBalanced();
    } else {
      var n := |steps| - 1;
      var before := RunFrom(c, Initial(), steps[..n]).value;
      ReachedSound(c, steps[..n], before);
      if CleanChain(before.chain) {
        ReachedBalanced(c, steps[..n], before);
      }
      StepKeepsBalance(c, before, steps[n]);
    }
  }

  // ---- main results ----

  /** In every reachable state the unspent outputs are, with their multiplicities, all outputs created on the chain
      minus all outputs that the chain's payments name. */
  lemma {:induction false} UnspentIsCreatedMinusSpent(c: Suite, steps: seq<Step>, s: Ledger)
    requires Reached(c, steps, s) && CleanChain(s.chain)
    ensures forall i <- SpentInputs(s.chain) :: Names(i, Entries(s.chain))
    ensures multiset(Outs(s.unspent))
            == multiset(Outs(Entries(s.chain))) - multiset(NamedOuts(Entries(s.chain), SpentInputs(s.chain)))
    ensures multiset(NamedOuts(Entries(s.chain), SpentInputs(s.chain))) <= multiset(Outs(Entries(s.chain)))
  {
    ReachedSound(c, steps, s);
    ReachedBalanced(c, steps, s);
    SpentAreNamed(c, s.chain);
    OutputsAddUp(s.unspent, SpentInputs(s.chain), Entries(s.chain));
  }

  lemma {:induction false} AuthorisedNames(c: Suite, txs: seq<Tx>, us: seq<Unspent>)
    requires forall tx <- txs :: Authorised(c, tx, us)
    ensures forall i <- AllInputs(txs) :: Names(i, us)
  {
    if txs != [] {
      AuthorisedNames(c, txs[..|txs| - 1], us);
      assert Authorised(c, txs[|txs| - 1], us);
    }
  }

  lemma {:induction false} SpentAreNamed(c: Suite, chain: seq<Block>)
    requires ChainAuthorised(c, chain)
    ensures forall i <- SpentInputs(chain) :: Names(i, Entries(chain))
  {
    if chain != [] {
      var n := |chain| - 1;
      forall m | 0 <= m < n
        ensures forall tx <- Payments(chain[..n][m]) :: Authorised(c, tx, Entries(chain[..n][..m]))
      {
        assert chain[..n][m] == chain[m] && chain[..n][..m] == chain[..m];
      }
      SpentAreNamed(c, chain[..n]);
      AuthorisedNames(c, Payments(chain[n]), Entries(chain[..n]));
      forall i <- SpentInputs(chain)
        ensures Names(i, Entries(chain))
      {
        assert Names(i, Entries(chain[..n]));
        var u :| u in Entries(chain[..n]) && EntryRef(u) == InRef(i);
        assert u in Entries(chain);
      }
    }
  }

  /** Every payment of the chain names entries that are worth less than 2^32. */
  ghost predicate SmallPayments(chain: seq<Block>) {
    forall n :: 0 <= n < |chain| ==> SmallAt(chain, n)
  }

  ghost predicate SmallAt(chain: seq<Block>, n: nat)
    requires n < |chain|
  {
    SmallIn(Entries(chain[..n]), Payments(chain[n]))
  }

  ghost predicate SmallIn(us: seq<Unspent>, txs: seq<Tx>) {
    forall k :: 0 <= k < |txs| ==> Total(NamedOuts(us, txs[k].inputs)) < 0x1_0000_0000
  }

  lemma {:induction false} NothingLostIn(us: seq<Unspent>, txs: seq<Tx>)
    ensures LostBy(us, txs) == 0 <==> SmallIn(us, txs)
  {
    if txs != [] {
      var init, tx := txs[..|txs| - 1], txs[|txs| - 1];
      NothingLostIn(us, init);
      assert forall k :: 0 <= k < |init| ==> init[k] == txs[k];
      Beyond(Total(NamedOuts(us, tx.inputs)));
    }
  }

  lemma {:induction false} Beyond(n: nat)
    ensures n / 0x1_0000_0000 == 0 <==> n < 0x1_0000_0000
  {
  }

  lemma {:induction false} SmallSnoc(chain: seq<Block>, b: Block)
    ensures SmallPayments(chain + [b]) <==> SmallPayments(chain) && SmallIn(Entries(chain), Payments(b))
  {
    var longer, m := chain + [b], |chain|;
    forall n | 0 <= n < m
      ensures SmallAt(longer, n) <==> SmallAt(chain, n)
    {
      assert longer[..n] == chain[..n];
    }
    assert longer[..m] == chain;
    assert SmallAt(longer, m) <==> SmallIn(Entries(chain), Payments(b));
  }

  lemma {:induction false} NothingLostSnoc(chain: seq<Block>, b: Block)
    requires Lost(chain) == 0 <==> SmallPayments(chain)
    ensures Lost(chain + [b]) == 0 <==> SmallPayments(chain + [b])
  {
    LostSnoc(chain, b);
    NothingLostIn(Entries(chain), Payments(b));
    SmallSnoc(chain, b);
  }

  lemma {:induction false} NothingLost(chain: seq<Block>)
    ensures Lost(chain) == 0 <==> SmallPayments(chain)
  {
    if chain != [] {
      var init, b := chain[..|chain| - 1], chain[|chain| - 1];
      assert chain == init + [b];
      NothingLost(init);
      NothingLostSnoc(init, b);
    }
  }

  /** In every reachable state the coins are fifty a block less what payments lost beyond 32 bits, so never more; they
      are exactly fifty a block if and only if no payment ever named 2^32 or more, as none can while that many coins
      fit 32 bits; and the sum the client displays is always right as a 32-bit number. */
  lemma {:induction false} SupplyIsFiftyABlock(c: Suite, steps: seq<Step>, s: Ledger)
    requires Reached(c, steps, s) && CleanChain(s.chain)
    ensures Worth(s.chain, s.unspent) && |s.chain| > 0
    ensures Total(Outs(s.unspent)) <= COINBASE_AMOUNT * (|s.chain| - 1)
    ensures Total(Outs(s.unspent)) == COINBASE_AMOUNT * (|s.chain| - 1) <==> SmallPayments(s.chain)
    ensures COINBASE_AMOUNT * (|s.chain| - 1) < 0x1_0000_0000
            ==> Total(Outs(s.unspent)) == COINBASE_AMOUNT * (|s.chain| - 1)
    ensures Wrap32(Total(Outs(s.unspent))) == Wrap32(COINBASE_AMOUNT * (|s.chain| - 1))
  {
    ReachedSound(c, steps, s);
    ReachedBalanced(c, steps, s);
    NothingLost(s.chain);
    LossInUnits(Total(Outs(s.unspent)), Lost(s.chain), COINBASE_AMOUNT * (|s.chain| - 1));
  }

  lemma {:induction false} LossInUnits(worth: nat, lost: nat, full: nat)
    requires worth + lost * 0x1_0000_0000 == full
    ensures worth <= full && (worth == full <==> lost == 0) && (full < 0x1_0000_0000 ==> worth == full)
    ensures Wrap32(worth) == Wrap32(full)
  {
    WrapMultiple(worth, lost);
  }

  lemma {:induction false} WrapMultiple(n: nat, k: nat)
    ensures Wrap32(n + k * 0x1_0000_0000) == Wrap32(n)
  {
  }

  /** sum_unspent over the list: the displayed sum. */
  method SumUnspent(us: seq<Unspent>) returns (total: uint32)
    ensures total == Wrap32(Total(Outs(us)))
  {
    total := 0;
    ghost var outs := Outs(us);
    for i := 0 to |us|
      invariant total == Wrap32(Total(outs[..i]))
    {
      WrapStep(outs, i, total);
      total := Wrap32(total + us[i].out.amount);
    }
    assert outs[..|outs|] == outs;
  }
}
