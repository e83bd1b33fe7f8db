/** What a block means for the owners of coins: what each of them has before and after. */
module Accounts {
  import opened Bytes
  import opened Crypto
  import opened Transactions
  import opened Validity
  import opened UpdateUnspent
  import opened CreateLaws
  import opened UnspentLaws
  import opened Blocks
  import opened Mining
  import opened Ledger
  import opened ChainLaws
  import opened Soundness
  import opened Conservation
  import opened Progress
  import opened ExactRemoval
  import opened References
  import opened Create

  /** The outputs that belong to an owner. */
  function Owned(pub: Pub, outs: seq<TxOut>): seq<TxOut> {
    if outs == [] then []
    else
      var init, o := outs[..|outs| - 1], outs[|outs| - 1];
      if o.pub == pub then Owned(pub, init) + [o] else Owned(pub, init)
  }

  /** What an owner has in a list of outputs. */
  function Balance(pub: Pub, outs: seq<TxOut>): nat {
    Total(Owned(pub, outs))
  }

  lemma {:induction false} OwnedCount(pub: Pub, outs: seq<TxOut>, x: TxOut)
    ensures multiset(Owned(pub, outs))[x] == if x.pub == pub then multiset(outs)[x] else 0
  {
    if outs != [] {
      var init, o := outs[..|outs| - 1], outs[|outs| - 1];
      OwnedCount(pub, init, x);
      assert outs == init + [o];
    }
  }

  lemma {:induction false} BalanceOfBag(pub: Pub, a: seq<TxOut>, b: seq<TxOut>)
    requires multiset(a) == multiset(b)
    ensures Balance(pub, a) == Balance(pub, b)
  {
    forall x: TxOut
      ensures multiset(Owned(pub, a))[x] == multiset(Owned(pub, b))[x]
    {
      OwnedCount(pub, a, x);
      OwnedCount(pub, b, x);
    }
    TotalOfBag(Owned(pub, a), Owned(pub, b));
  }

  lemma {:induction false} OwnedConcat(pub: Pub, a: seq<TxOut>, b: seq<TxOut>)
    ensures Owned(pub, a + b) == Owned(pub, a) + Owned(pub, b)
  {
    if b == [] {
      assert a + b == a;
    } else {
      var init, o := b[..|b| - 1], b[|b| - 1];
      OwnedConcat(pub, a, init);
      assert (a + b)[..|a + b| - 1] == a + init && (a + b)[|a + b| - 1] == o;
      Associate(Owned(pub, a), Owned(pub, init), [o]);
    }
  }

  lemma {:induction false} BalanceConcat(pub: Pub, a: seq<TxOut>, b: seq<TxOut>)
    ensures Balance(pub, a + b) == Balance(pub, a) + Balance(pub, b)
  {
    OwnedConcat(pub, a, b);
    TotalConcat(Owned(pub, a), Owned(pub, b));
  }

  /** As bags: the outputs after a commit and the outputs its payments name are the outputs before and the outputs
      of the block. */
  lemma {:induction false} CommitOutputs(c: Suite, s: Ledger, miner: Pub, b: Block)
    requires Sound(c, s) && CleanChain(s.chain) && Successor(c, s, miner, b)
    ensures multiset(Outs(ApplyTxs(s.unspent, b.hash, TxList(b))) + NamedOuts(s.unspent, AllInputs(Payments(b))))
            == multiset(Outs(s.unspent) + AllOutputs(TxList(b)))
  {
    var ins := AllInputs(Payments(b));
    var left := Spend(s.unspent, InHashes(ins));
    CommitShape(c, s, miner, b);
    CommitLeaves(c, s, miner, b);
    OutsOfEntries(b.hash, TxList(b));
    OutsConcat(left, AllEntries(b.hash, TxList(b)));
  }

  lemma {:induction false} CommitBalances(c: Suite, s: Ledger, miner: Pub, b: Block, owner: Pub)
    requires Sound(c, s) && CleanChain(s.chain) && Successor(c, s, miner, b)
    ensures Balance(owner, Outs(ApplyTxs(s.unspent, b.hash, TxList(b))))
            + Balance(owner, NamedOuts(s.unspent, AllInputs(Payments(b))))
            == Balance(owner, Outs(s.unspent)) + Balance(owner, AllOutputs(TxList(b)))
  {
    var after, named := Outs(ApplyTxs(s.unspent, b.hash, TxList(b))), NamedOuts(s.unspent, AllInputs(Payments(b)));
    CommitOutputs(c, s, miner, b);
    BalanceOfBag(owner, after + named, Outs(s.unspent) + AllOutputs(TxList(b)));
    BalanceConcat(owner, after, named);
    BalanceConcat(owner, Outs(s.unspent), AllOutputs(TxList(b)));
  }

  /** A block changes what an owner has by what its transactions pay to that owner, less what the pooled transactions
      took of that owner's outputs. */
  lemma {:induction false} MineMovesBalances(c: Suite, steps: seq<Step>, s: Ledger, time: uint64, owner: Pub)
    requires GenesisDigest(c) && Reached(c, steps, s) && CleanChain(s.chain)
    requires CanMine(c, s, time) && s.wallet.Some? && |s.chain| < 0x1_0000_0000
    ensures var b := Mined(c, Candidate(c, s, s.wallet.value.pub, time));
            Balance(owner, Outs(MineStep(c, s, time).unspent))
            + Balance(owner, NamedOuts(s.unspent, AllInputs(s.pool)))
            == Balance(owner, Outs(s.unspent)) + Balance(owner, AllOutputs(TxList(b)))
  {
    var miner := s.wallet.value.pub;
    ReachedSound(c, steps, s);
    MineTakesThePool(c, steps, s, time);
    MineCommits(c, s, time);
    TipSealed(c, s);
    CommitBalances(c, s, miner, Mined(c, Candidate(c, s, miner, time)), owner);
  }

  lemma {:induction false} EntriesOfTx(blockHash: Digest, txs: seq<Tx>, t: nat, k: nat)
    requires t < |txs| && k < |txs[t].outputs|
    ensures Unspent(blockHash, txs[t].id, txs[t].outputs[k]) in AllEntries(blockHash, txs)
  {
    var n := |txs| - 1;
    if t < n {
      assert txs[..n][t] == txs[t];
      EntriesOfTx(blockHash, txs[..n], t, k);
    } else {
      assert NewEntries(blockHash, txs[n])[k] == Unspent(blockHash, txs[t].id, txs[t].outputs[k]);
    }
  }

  lemma {:induction false} CommitPays(c: Suite, s: Ledger, miner: Pub, b: Block, t: nat, k: nat)
    requires Sound(c, s) && CleanChain(s.chain) && Successor(c, s, miner, b)
    requires t < |TxList(b)| && k < |TxList(b)[t].outputs|
    ensures Unspent(b.hash, TxList(b)[t].id, TxList(b)[t].outputs[k]) in ApplyTxs(s.unspent, b.hash, TxList(b))
  {
    CommitShape(c, s, miner, b);
    EntriesOfTx(b.hash, TxList(b), t, k);
  }

  /** Everyone a block pays has the output to spend afterwards: the miner fifty coins, and every receiver and every
      sender with change theirs; none of it is consumed by the same block. */
  lemma {:induction false} MinePaysEveryone(c: Suite, steps: seq<Step>, s: Ledger, time: uint64, t: nat, k: nat)
    requires GenesisDigest(c) && Reached(c, steps, s) && CleanChain(s.chain)
    requires CanMine(c, s, time) && s.wallet.Some? && |s.chain| < 0x1_0000_0000
    ensures var b := Mined(c, Candidate(c, s, s.wallet.value.pub, time));
            t < |TxList(b)| && k < |TxList(b)[t].outputs| ==>
              Unspent(b.hash, TxList(b)[t].id, TxList(b)[t].outputs[k]) in MineStep(c, s, time).unspent
    ensures var b := Mined(c, Candidate(c, s, s.wallet.value.pub, time));
            TxList(b) == [Coinbase(c, s.wallet.value.pub, b.info.index)] + s.pool
  {
    var miner := s.wallet.value.pub;
    var b := Mined(c, Candidate(c, s, miner, time));
    ReachedSound(c, steps, s);
    MineTakesThePool(c, steps, s, time);
    MineCommits(c, s, time);
    TipSealed(c, s);
    assert TxList(b) == [TxList(b)[0]] + Payments(b);
    if t < |TxList(b)| && k < |TxList(b)[t].outputs| {
      CommitPays(c, s, miner, b, t, k);
    }
  }

  lemma {:induction false} TwoSteps(c: Suite, a: Step, b: Step)
    requires Enabled(c, Initial(), a) && Enabled(c, Next(c, Initial(), a), b)
    ensures Reached(c, [a, b], Next(c, Next(c, Initial(), a), b))
  {
    var steps := [a, b];
    assert steps[..1] == [a] && steps[..1][..0] == [];
    assert RunFrom(c, Initial(), steps[..1]) == Some(Next(c, Initial(), a));
  }

  /** The first block of a chain: its miner has fifty coins. */
  lemma {:induction false} FirstCommit(c: Suite, s: Ledger, miner: Pub, b: Block)
    requires s.chain == [Genesis()] && s.unspent == [] && s.pool == [] && Successor(c, s, miner, b)
    ensures var us := ApplyTxs([], b.hash, TxList(b));
            |us| == 1 && us[0].out.amount == COINBASE_AMOUNT && us[0].out.pub == miner
  {
    var coinbase := Coinbase(c, miner, b.info.index);
    assert TxList(b) == [coinbase] && [coinbase][..0] == [];
    CoinbaseSpendsNothing([], b.hash, coinbase);
  }

  /** The premises of these results can be met: the first block of any key can be mined, and is worth fifty coins. */
  lemma {:induction false} FirstBlock(c: Suite, key: EcKey, time: uint64) returns (s: Ledger)
    requires GenesisDigest(c)
    ensures Reached(c, [SetWallet(key), Step.Mine(time)], s)
    ensures |s.chain| == 2 && s.pool == [] && |s.unspent| == 1
    ensures s.unspent[0].out.amount == COINBASE_AMOUNT && s.unspent[0].out.pub == key.pub
  {
    var s0 := Initial().(wallet := Some(key));
    EasyMineEnds(c, s0, time);
    s := MineStep(c, s0, time);
    TwoSteps(c, SetWallet(key), Step.Mine(time));
    MineCommits(c, s0, time);
    FirstCommit(c, s0, key.pub, Mined(c, Candidate(c, s0, key.pub, time)));
  }

  // ---- what an owner can spend ----

  /** The inputs of the pool, and those of a selection that would visit the whole list. */
  function Touched(us: seq<Unspent>, pub: Pub, pool: seq<Tx>): seq<TxIn> {
    Inputs(EligibleOf(us, pub, pool)) + AllInputs(pool)
  }

  lemma {:induction false} TouchedRefs(us: seq<Unspent>, pub: Pub, pool: seq<Tx>)
    ensures InRefs(Touched(us, pub, pool)) == EntryRefs(EligibleOf(us, pub, pool)) + InRefs(AllInputs(pool))
  {
    InRefsConcat(Inputs(EligibleOf(us, pub, pool)), AllInputs(pool));
    InputRefs(EligibleOf(us, pub, pool));
  }

  /** Since the pool check overlooks no named entry, the two have no reference in common, and fit together. */
  lemma {:induction false} TouchedFits(us: seq<Unspent>, pub: Pub, pool: seq<Tx>)
    requires PoolFits(pool, us)
    ensures multiset(InRefs(Touched(us, pub, pool))) <= multiset(EntryRefs(us))
  {
    var free, named := EligibleOf(us, pub, pool), InRefs(AllInputs(pool));
    EligibleBag(us, pub, pool);
    EligibleElements(us, pub, pool);
    forall k | 0 <= k < |free|
      ensures EntryRefs(free)[k] !in named
    {
      assert free[k] in free;
      if EntryRef(free[k]) in named {
        NamedIsUsed(pool, free[k]);
      }
    }
    DisjointFit(multiset(EntryRefs(free)), multiset(named), multiset(EntryRefs(us)));
    TouchedRefs(us, pub, pool);
  }

  lemma {:induction false} InputsNameTheirEntries(us: seq<Unspent>, taken: seq<Unspent>)
    requires Clean(us) && forall u <- taken :: u in us
    ensures NamedOuts(us, Inputs(taken)) == Outs(taken)
  {
    forall k | 0 <= k < |taken|
      ensures NamedOut(us, Inputs(taken)[k]) == taken[k].out
    {
      assert taken[k] in taken;
      LookupsAgree(us, taken[k], Inputs(taken)[k]);
    }
  }

  lemma {:induction false} AllOwned(pub: Pub, outs: seq<TxOut>)
    requires forall k :: 0 <= k < |outs| ==> outs[k].pub == pub
    ensures Owned(pub, outs) == outs
  {
    if outs != [] {
      AllOwned(pub, outs[..|outs| - 1]);
    }
  }

  lemma {:induction false} NoneOwned(pub: Pub, outs: seq<TxOut>)
    requires forall k :: 0 <= k < |outs| ==> outs[k].pub != pub
    ensures Balance(pub, outs) == 0
  {
    if outs != [] {
      NoneOwned(pub, outs[..|outs| - 1]);
    }
  }

  lemma {:induction false} EligibleIsOwned(us: seq<Unspent>, pub: Pub, pool: seq<Tx>)
    ensures Balance(pub, Outs(EligibleOf(us, pub, pool))) == EligibleTotal(us, pub, pool, |us|)
  {
    var free := EligibleOf(us, pub, pool);
    assert us[..|us|] == us;
    EligibleElements(us, pub, pool);
    forall k | 0 <= k < |free|
      ensures Outs(free)[k].pub == pub
    {
      assert free[k] in free;
    }
    AllOwned(pub, Outs(free));
  }

  /** What is left of a list when the pool and such a selection have taken theirs. */
  function Untouched(us: seq<Unspent>, pub: Pub, pool: seq<Tx>): seq<Unspent> {
    Spend(us, InHashes(Touched(us, pub, pool)))
  }

  lemma {:induction false} UntouchedOutputs(us: seq<Unspent>, pub: Pub, pool: seq<Tx>)
    requires Clean(us) && PoolFits(pool, us)
    ensures multiset(Outs(Untouched(us, pub, pool))
                     + (Outs(EligibleOf(us, pub, pool)) + NamedOuts(us, AllInputs(pool))))
            == multiset(Outs(us))
  {
    var ins := Touched(us, pub, pool);
    TouchedFits(us, pub, pool);
    FittingNames(us, ins);
    NamedCanBeSpent(ins, us);
    SpendBag(us, InHashes(ins));
    SpendKeeps(us, InHashes(ins));
    OutputsAddUp(Untouched(us, pub, pool), ins, us);
    EligibleElements(us, pub, pool);
    InputsNameTheirEntries(us, EligibleOf(us, pub, pool));
    NamedOutsConcat(us, Inputs(EligibleOf(us, pub, pool)), AllInputs(pool));
  }

  /** What an owner has is what it can spend, what the pool names of it, and what is left. */
  lemma {:induction false} BalanceInThree(us: seq<Unspent>, pub: Pub, pool: seq<Tx>)
    requires Clean(us) && PoolFits(pool, us)
    ensures Balance(pub, Outs(Untouched(us, pub, pool))) + EligibleTotal(us, pub, pool, |us|)
            + Balance(pub, NamedOuts(us, AllInputs(pool))) == Balance(pub, Outs(us))
  {
    var rest, named := Outs(Untouched(us, pub, pool)), NamedOuts(us, AllInputs(pool));
    var free := Outs(EligibleOf(us, pub, pool));
    UntouchedOutputs(us, pub, pool);
    BalanceOfBag(pub, rest + (free + named), Outs(us));
    BalanceConcat(pub, rest, free + named);
    BalanceConcat(pub, free, named);
    EligibleIsOwned(us, pub, pool);
  }

  // ---- when nothing is left ----

  lemma {:induction false} EligibleIsTaken(us: seq<Unspent>, pub: Pub, pool: seq<Tx>, x: nat)
    requires x < |us| && Eligible(us[x], pub, pool)
    ensures us[x] in EligibleOf(us, pub, pool)
  {
    var n := |us| - 1;
    if x < n {
      EligibleIsTaken(us[..n], pub, pool, x);
    }
  }

  /** An owner's entry that clashes with no other is touched. */
  lemma {:induction false} OwnIsTouched(us: seq<Unspent>, pub: Pub, pool: seq<Tx>, x: nat)
    requires NoClash(us, pub) && PoolFits(pool, us) && x < |us| && us[x].out.pub == pub
    ensures EntryRef(us[x]) in InRefs(Touched(us, pub, pool))
  {
    TouchedRefs(us, pub, pool);
    var free := EligibleOf(us, pub, pool);
    if Eligible(us[x], pub, pool) {
      EligibleIsTaken(us, pub, pool, x);
      var k :| 0 <= k < |free| && free[k] == us[x];
      assert EntryRefs(free)[k] == EntryRef(us[x]);
    } else {
      UsedIsNamed(us, pool, x);
    }
  }

  lemma {:induction false} OwnClassCount(us: seq<Unspent>, pub: Pub, pool: seq<Tx>, x: nat, r: Ref)
    requires Clean(us) && NoClash(us, pub) && PoolFits(pool, us) && x < |us| && us[x].out.pub == pub
    ensures var h := us[x].out.hash;
            multiset(Class(h, EntryRefs(us)))[r] <= multiset(Class(h, InRefs(Touched(us, pub, pool))))[r]
  {
    var h, refs := us[x].out.hash, EntryRefs(us);
    ClassBag(h, refs, r);
    ClassBag(h, InRefs(Touched(us, pub, pool)), r);
    if r in refs && r.outHash == h {
      var y :| 0 <= y < |refs| && refs[y] == r;
      assert us[y].out.hash == us[x].out.hash;
      OwnOnce(us, pub, y);
      OwnIsTouched(us, pub, pool, y);
    }
  }

  lemma {:induction false} OwnHashesTouched(us: seq<Unspent>, pub: Pub, pool: seq<Tx>, x: nat)
    requires Clean(us) && NoClash(us, pub) && PoolFits(pool, us) && x < |us| && us[x].out.pub == pub
    ensures us[x].out.hash !in HashBag(Untouched(us, pub, pool))
  {
    var h, ins := us[x].out.hash, Touched(us, pub, pool);
    var a, b := multiset(Class(h, EntryRefs(us))), multiset(Class(h, InRefs(ins)));
    forall r: Ref
      ensures a[r] <= b[r]
    {
      OwnClassCount(us, pub, pool, x, r);
    }
    assert b == a + (b - a);
    ClassLength(h, us);
    ClassCount(h, ins);
    SpendBag(us, InHashes(ins));
    assert |Class(h, EntryRefs(us))| <= |Class(h, InRefs(ins))|;
  }

  lemma {:induction false} NothingLeft(us: seq<Unspent>, pub: Pub, pool: seq<Tx>)
    requires Clean(us) && NoClash(us, pub) && PoolFits(pool, us)
    ensures Balance(pub, Outs(Untouched(us, pub, pool))) == 0
  {
    var rest := Untouched(us, pub, pool);
    SpendKeeps(us, InHashes(Touched(us, pub, pool)));
    forall k | 0 <= k < |rest|
      ensures Outs(rest)[k].pub != pub
    {
      assert rest[k] in rest && rest[k] in us;
      var x :| 0 <= x < |us| && us[x] == rest[k];
      assert EntryHashes(rest)[k] == us[x].out.hash;
      if us[x].out.pub == pub {
        OwnHashesTouched(us, pub, pool, x);
      }
    }
    NoneOwned(pub, Outs(rest));
  }

  // ---- when something is ----

  lemma {:induction false} EligibleConcat(a: seq<Unspent>, b: seq<Unspent>, pub: Pub, pool: seq<Tx>)
    ensures EligibleOf(a + b, pub, pool) == EligibleOf(a, pub, pool) + EligibleOf(b, pub, pool)
  {
    if b == [] {
      assert a + b == a;
    } else {
      var init, u := b[..|b| - 1], b[|b| - 1];
      EligibleConcat(a, init, pub, pool);
      assert (a + b)[..|a + b| - 1] == a + init && (a + b)[|a + b| - 1] == u;
      Associate(EligibleOf(a, pub, pool), EligibleOf(init, pub, pool), if Eligible(u, pub, pool) then [u] else []);
    }
  }

  /** The list without one entry. */
  function WithoutAt(us: seq<Unspent>, j: nat): seq<Unspent>
    requires j < |us|
  {
    us[..j] + us[j + 1..]
  }

  lemma {:induction false} IneligibleDropped(us: seq<Unspent>, pub: Pub, pool: seq<Tx>, j: nat)
    requires j < |us| && !Eligible(us[j], pub, pool)
    ensures EligibleTotal(us, pub, pool, |us|) == EligibleTotal(WithoutAt(us, j), pub, pool, |us| - 1)
  {
    var a, b := us[..j], us[j + 1..];
    assert us == (a + [us[j]]) + b && us[..|us|] == us && (a + b)[..|us| - 1] == a + b;
    EligibleConcat(a + [us[j]], b, pub, pool);
    EligibleConcat(a, b, pub, pool);
    assert (a + [us[j]])[..|a|] == a && EligibleOf(a, pub, pool) + [] == EligibleOf(a, pub, pool);
  }

  lemma {:induction false} BalanceDropped(us: seq<Unspent>, pub: Pub, j: nat)
    requires j < |us| && us[j].out.pub == pub
    ensures Balance(pub, Outs(us)) == Balance(pub, Outs(WithoutAt(us, j))) + us[j].out.amount
  {
    var a, b := Outs(us)[..j], Outs(us)[j + 1..];
    assert Outs(us) == (a + [us[j].out]) + b && Outs(WithoutAt(us, j)) == a + b;
    BalanceConcat(pub, a + [us[j].out], b);
    BalanceConcat(pub, a, [us[j].out]);
    BalanceConcat(pub, a, b);
    assert [us[j].out][..0] == [];
  }

  /** A pool that names an entry the j-th clashes with fits the list without the j-th. */
  lemma {:induction false} PoolWithout(us: seq<Unspent>, i: nat, j: nat, tx: Tx)
    requires Clean(us) && i < |us| && j < |us| && i != j && InRefs(tx.inputs) == [EntryRef(us[i])]
    ensures Clean(WithoutAt(us, j)) && PoolFits([tx], WithoutAt(us, j))
    ensures NamedOuts(WithoutAt(us, j), AllInputs([tx])) == NamedOuts(us, AllInputs([tx]))
  {
    var rest := WithoutAt(us, j);
    var k := if i < j then i else i - 1;
    assert rest[k] == us[i];
    OneInputPool(rest, k, tx);
    forall m | 0 <= m < |rest|
      ensures rest[m] in us
    {
      assert rest[m] == if m < j then us[m] else us[m + 1];
    }
    CleanPart(us, rest);
    var ins := AllInputs([tx]);
    forall m | 0 <= m < |ins|
      ensures NamedOut(rest, ins[m]) == NamedOut(us, ins[m])
    {
      assert InRefs(ins)[m] == EntryRef(us[i]) && rest[k] in rest;
      SameOutInAll(rest, us, ins[m]);
    }
  }

  /** Nobody's spending grows when an entry is added that cannot be selected. */
  lemma {:induction false} UnselectableCosts(us: seq<Unspent>, pub: Pub, j: nat, pool: seq<Tx>)
    requires j < |us| && us[j].out.pub == pub && !Eligible(us[j], pub, pool)
    requires Clean(WithoutAt(us, j)) && PoolFits(pool, WithoutAt(us, j))
    requires NamedOuts(WithoutAt(us, j), AllInputs(pool)) == NamedOuts(us, AllInputs(pool))
    ensures EligibleTotal(us, pub, pool, |us|) + Balance(pub, NamedOuts(us, AllInputs(pool))) + us[j].out.amount
            <= Balance(pub, Outs(us))
  {
    IneligibleDropped(us, pub, pool, j);
    BalanceDropped(us, pub, j);
    BalanceInThree(WithoutAt(us, j), pub, pool);
  }

  /** With a clash, a pool that names the one entry makes the other unspendable until the next block. */
  lemma {:induction false} ClashCosts(us: seq<Unspent>, pub: Pub, i: nat, j: nat, tx: Tx)
    requires Clean(us) && i < |us| && j < |us| && i != j
    requires us[j].out.pub == pub && PrefixMatch(EntryRef(us[i]), EntryRef(us[j]))
    requires InRefs(tx.inputs) == [EntryRef(us[i])]
    ensures EligibleTotal(us, pub, [tx], |us|) + Balance(pub, NamedOuts(us, AllInputs([tx]))) + us[j].out.amount
            <= Balance(pub, Outs(us))
  {
    ClashIsUsed(us, tx, i, j);
    PoolWithout(us, i, j, tx);
    UnselectableCosts(us, pub, j, [tx]);
  }

  // ---- exactly ----

  /** What the owner can spend is all it has beyond what the pool names. */
  ghost predicate AllSpendable(us: seq<Unspent>, pub: Pub, pool: seq<Tx>) {
    EligibleTotal(us, pub, pool, |us|) + Balance(pub, NamedOuts(us, AllInputs(pool))) == Balance(pub, Outs(us))
  }

  /** It is never more; and it is all of that if no entry of the owner clashes with another. */
  lemma {:induction false} SpendableIsBalance(us: seq<Unspent>, pub: Pub, pool: seq<Tx>)
    requires Clean(us) && PoolFits(pool, us)
    ensures EligibleTotal(us, pub, pool, |us|) + Balance(pub, NamedOuts(us, AllInputs(pool))) <= Balance(pub, Outs(us))
    ensures NoClash(us, pub) ==> AllSpendable(us, pub, pool)
  {
    BalanceInThree(us, pub, pool);
    if NoClash(us, pub) {
      NothingLeft(us, pub, pool);
    }
  }

  /** It is all of that for every pool if and only if no entry of the owner clashes with another; entries of the same
      reference, as a payment of two equal outputs makes them, clash too. */
  lemma {:induction false} SpendableIsBalanceExactlyWhen(us: seq<Unspent>, pub: Pub)
    requires Clean(us) && forall k :: 0 <= k < |us| ==> us[k].out.amount > 0
    ensures (forall pool: seq<Tx> :: PoolFits(pool, us) ==> AllSpendable(us, pub, pool)) <==> NoClash(us, pub)
  {
    if NoClash(us, pub) {
      forall pool: seq<Tx> | PoolFits(pool, us)
        ensures AllSpendable(us, pub, pool)
      {
        SpendableIsBalance(us, pub, pool);
      }
    } else {
      var i, j :| 0 <= i < |us| && 0 <= j < |us| && i != j && us[j].out.pub == pub
                  && PrefixMatch(EntryRef(us[i]), EntryRef(us[j]));
      var tx := Tx(Zeros(32), [TxInCreate(us[i])], []);
      OneInputPool(us, i, tx);
      ClashCosts(us, pub, i, j, tx);
      assert !AllSpendable(us, pub, [tx]);
    }
  }

  /** So an owner without clashes can send exactly what it has and has not sent since the last block. */
  lemma {:induction false} SendWithinBalance(c: Suite, steps: seq<Step>, s: Ledger, amount: int, address: string,
                                             random: nat)
    requires Reached(c, steps, s) && CleanChain(s.chain)
    requires COINBASE_AMOUNT * (|s.chain| - 1) < 0x1_0000_0000
    requires s.wallet.Some? && NoClash(s.unspent, s.wallet.value.pub)
    requires Signer(c, s.wallet.value) && RefusesUnsigned(c, s.wallet.value.pub)
    requires Receiver(c, address).Some?
    ensures var pub := s.wallet.value.pub;
            |Next(c, s, Send(amount, address, random)).pool| == |s.pool| + 1
            <==> 0 < Wrap32(amount)
                   <= Balance(pub, Outs(s.unspent)) - Balance(pub, NamedOuts(s.unspent, AllInputs(s.pool)))
  {
    var key := s.wallet.value;
    ReachedSound(c, steps, s);
    UnspentIsClean(c, s);
    SpendableIsBalance(s.unspent, key.pub, s.pool);
    SendSucceedsExactly(c, steps, s, amount, address, random);
    var tx := NewTransaction(c, Some(key), Receiver(c, address), Wrap32(amount), s.unspent, s.pool, random);
    if tx.Some? {
      AlwaysSigned(c, key, tx.value.id, |tx.value.inputs|, random);
    }
  }
}
