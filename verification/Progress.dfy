/** What the commands achieve in a reachable state: sends succeed exactly when they should, nothing pooled is ever
    dropped, and where the hash function is to blame the proof says how. */
module Progress {
  import opened Bytes
  import opened Crypto
  import opened LinkedList
  import opened Transactions
  import opened Validity
  import opened UpdateUnspent
  import opened Create
  import opened CreateLaws
  import opened UnspentLaws
  import Difficulty
  import opened Blocks
  import opened Mining
  import opened Ledger
  import opened ChainLaws
  import opened Soundness
  import opened Conservation

  // ---- the pool stays valid ----

  lemma {:induction false} SameNamedOut(us: seq<Unspent>, order: seq<Unspent>, i: TxIn)
    requires Clean(us) && (forall u <- order :: u in us) && (forall u <- us :: u in order)
    requires First(us, NamedBy(i)).Some?
    ensures First(order, NamedBy(i)).Some? && NamedOut(order, i) == NamedOut(us, i)
  {
    var u := First(us, NamedBy(i)).value;
    assert u in us && u in order && EntryRef(u) == InRef(i);
    NamedOutHash(order, i);
    var v := First(order, NamedBy(i)).value;
    assert v in us && EntryRef(v) == InRef(i);
    var m :| 0 <= m < |us| && us[m] == u;
    var n :| 0 <= n < |us| && us[n] == v;
    assert us[m].out.hash == us[n].out.hash;
  }

  /** Without collisions, validity does not depend on the order of the list. */
  lemma {:induction false} ValidInAnyOrder(c: Suite, tx: Tx, us: seq<Unspent>, order: seq<Unspent>)
    requires Clean(us) && multiset(order) == multiset(us) && TxValid(c, tx, us)
    ensures TxValid(c, tx, order)
  {
    forall u <- order
      ensures u in us
    {
      assert u in multiset(order) && u in multiset(us);
    }
    forall u <- us
      ensures u in order
    {
      assert u in multiset(us) && u in multiset(order);
    }
    forall k | 0 <= k < |tx.inputs|
      ensures InputOk(c, tx.id, tx.inputs[k], order) && NamedOut(order, tx.inputs[k]) == NamedOut(us, tx.inputs[k])
    {
      assert InputOk(c, tx.id, tx.inputs[k], us);
      SameNamedOut(us, order, tx.inputs[k]);
    }
    assert NamedOuts(order, tx.inputs) == NamedOuts(us, tx.inputs);
  }

  ghost predicate PoolValid(c: Suite, s: Ledger) {
    forall tx <- s.pool :: TxValid(c, tx, s.unspent)
  }

  lemma {:induction false} StepKeepsPoolValid(c: Suite, s: Ledger, step: Step)
    requires Sound(c, s) && Enabled(c, s, step)
    requires CleanChain(Next(c, s, step).chain)
    requires CleanChain(s.chain) ==> PoolValid(c, s)
    ensures PoolValid(c, Next(c, s, step))
  {
    match step
    case SetWallet(key) =>
    case Send(amount, address, random) =>
    case Mine(time) =>
      if s.wallet.Some? {
        MineCommits(c, s, time);
        WithoutElements(s.pool, Rejected(c, s.unspent));
      }
    case List(order) =>
      UnspentIsClean(c, s);
      forall tx <- s.pool
        ensures TxValid(c, tx, order)
      {
        ValidInAnyOrder(c, tx, s.unspent, order);
      }
  }

  /** In every reachable state all pooled transactions are valid, in whatever order the list was put since. */
  lemma {:induction false} ReachedPoolValid(c: Suite, steps: seq<Step>, s: Ledger)
    requires Reached(c, steps, s) && CleanChain(s.chain)
    ensures PoolValid(c, s)
  {
    if steps != [] {
      var n := |steps| - 1;
      var before := RunFrom(c, Initial(), steps[..n]).value;
      ReachedSound(c, steps[..n], before);
      if CleanChain(before.chain) {
        ReachedPoolValid(c, steps[..n], before);
      }
      StepKeepsPoolValid(c, before, steps[n]);
    }
  }

  /** So mining takes the whole pool, in order, behind the coinbase. */
  lemma {:induction false} MineTakesThePool(c: Suite, steps: seq<Step>, s: Ledger, time: uint64)
    requires GenesisDigest(c) && Reached(c, steps, s) && CleanChain(s.chain)
    requires CanMine(c, s, time) && s.wallet.Some? && |s.chain| < 0x1_0000_0000
    ensures var b := Mined(c, Candidate(c, s, s.wallet.value.pub, time));
            MineStep(c, s, time).chain == s.chain + [b] && Payments(b) == s.pool
  {
    MineNeverFails(c, steps, s, time);
    ReachedPoolValid(c, steps, s);
    WithoutNone(s.pool, Rejected(c, s.unspent));
    SuccessorPayments(c, s, s.wallet.value.pub, Mined(c, Candidate(c, s, s.wallet.value.pub, time)));
  }

  lemma {:induction false} AnyNonceMeetsZero(c: Suite, b: Block)
    requires b.data.len <= DATA_MAX && b.info.difficulty == 0
    ensures Minable(c, b) && LeastNonce(c, b) == 0
  {
    Difficulty.MeetsExtremes(BlockHash(c, WithNonce(b, 0)));
    assert NonceMeets(c, b, 0);
  }

  /** At difficulty 0, which the first blocks have, every nonce meets: a mine command ends, with nonce 0. */
  lemma {:induction false} EasyMineEnds(c: Suite, s: Ledger, time: uint64)
    requires s.chain != [] && NextDifficulty(s.chain) == 0 && s.wallet.Some?
    ensures CanMine(c, s, time) && LeastNonce(c, Candidate(c, s, s.wallet.value.pub, time)) == 0
  {
    AnyNonceMeetsZero(c, Candidate(c, s, s.wallet.value.pub, time));
  }

  // ---- sums that fit ----

  lemma {:induction false} EligibleAtMostAll(us: seq<Unspent>, pub: Pub, pool: seq<Tx>, k: nat)
    requires k <= |us|
    ensures EligibleTotal(us, pub, pool, k) <= Total(Outs(us[..k]))
  {
    if k > 0 {
      EligibleAtMostAll(us, pub, pool, k - 1);
      SelectStep(us, pub, pool, k - 1);
      var outs := Outs(us);
      assert Outs(us[..k]) == outs[..k] && Outs(us[..k - 1]) == outs[..k - 1];
      TotalTake(outs, k - 1);
    } else {
      assert us[..0] == [];
    }
  }

  lemma {:induction false} EligibleAtMostList(us: seq<Unspent>, pub: Pub, pool: seq<Tx>, k: nat)
    requires k <= |us|
    ensures EligibleTotal(us, pub, pool, k) <= Total(Outs(us))
  {
    EligibleAtMostAll(us, pub, pool, k);
    assert Outs(us) == Outs(us[..k]) + Outs(us[k..]);
    TotalConcat(Outs(us[..k]), Outs(us[k..]));
  }

  /** While fifty coins a block fit 32 bits, no running total of a selection wraps. */
  lemma {:induction false} SelectionNeverWraps(c: Suite, steps: seq<Step>, s: Ledger, pub: Pub, k: nat)
    requires Reached(c, steps, s) && CleanChain(s.chain) && k <= |s.unspent|
    requires COINBASE_AMOUNT * (|s.chain| - 1) < 0x1_0000_0000
    ensures EligibleTotal(s.unspent, pub, s.pool, k) < 0x1_0000_0000
  {
    SupplyIsFiftyABlock(c, steps, s);
    EligibleAtMostList(s.unspent, pub, s.pool, k);
  }

  /** The new state has one more pooled transaction, which pays the amount to the receiver, and is else the same. */
  ghost predicate PoolGrows(s: Ledger, s': Ledger, tx: Tx, amount: uint32, receiver: Pub) {
    && s' == s.(pool := s.pool + [tx])
    && tx.outputs != [] && tx.outputs[0].amount == amount && tx.outputs[0].pub == receiver
  }

  /** A transaction is created exactly when the address is a key and the amount is positive and spendable; the pool
      grows by it, paying that amount to that key, exactly when ECDSA signs each of its inputs; otherwise nothing
      changes. */
  lemma {:induction false} SendSucceedsExactly(c: Suite, steps: seq<Step>, s: Ledger, amount: int, address: string,
                                               random: nat)
    requires Reached(c, steps, s) && CleanChain(s.chain)
    requires COINBASE_AMOUNT * (|s.chain| - 1) < 0x1_0000_0000
    requires s.wallet.Some? && KeyPair(c, s.wallet.value) && RefusesUnsigned(c, s.wallet.value.pub)
    ensures var key, receiver := s.wallet.value, Receiver(c, address);
            var tx := NewTransaction(c, Some(key), receiver, Wrap32(amount), s.unspent, s.pool, random);
            var s' := Next(c, s, Send(amount, address, random));
            && (tx.Some? <==> receiver.Some?
                              && 0 < Wrap32(amount) <= EligibleTotal(s.unspent, key.pub, s.pool, |s.unspent|))
            && if tx.Some? && Signs(c, key, tx.value.id, |tx.value.inputs|, random)
               then PoolGrows(s, s', tx.value, Wrap32(amount), receiver.value)
               else s' == s
  {
    var key, receiver := s.wallet.value, Receiver(c, address);
    SelectionNeverWraps(c, steps, s, key.pub, |s.unspent|);
    if receiver.Some? {
      CreateFailsExactly(c, key, receiver.value, Wrap32(amount), s.unspent, s.pool, random);
      if NewTransaction(c, s.wallet, receiver, Wrap32(amount), s.unspent, s.pool, random).Some? {
        CreatedPays(c, key, receiver.value, Wrap32(amount), s.unspent, s.pool, random);
        CreatedIsAccepted(c, steps, s, receiver.value, Wrap32(amount), random);
      }
    }
  }

  /** The client's own validation accepts a created transaction exactly when ECDSA signed each of its inputs. */
  lemma {:induction false} CreatedIsAccepted(c: Suite, steps: seq<Step>, s: Ledger, receiver: Pub, amount: uint32,
                                             random: nat)
    requires Reached(c, steps, s) && CleanChain(s.chain)
    requires s.wallet.Some? && KeyPair(c, s.wallet.value) && RefusesUnsigned(c, s.wallet.value.pub)
    ensures var tx := NewTransaction(c, s.wallet, Some(receiver), amount, s.unspent, s.pool, random);
            tx.Some? ==>
              (TxValid(c, tx.value, s.unspent) <==> Signs(c, s.wallet.value, tx.value.id, |tx.value.inputs|, random))
  {
    ReachedSound(c, steps, s);
    UnspentIsClean(c, s);
    if NewTransaction(c, s.wallet, Some(receiver), amount, s.unspent, s.pool, random).Some? {
      CreatedIsValid(c, s.wallet.value, receiver, amount, s.unspent, s.pool, random);
    }
  }

  // ---- what validation adds up ----

  lemma {:induction false} FittingNames(us: seq<Unspent>, ins: seq<TxIn>)
    requires multiset(InRefs(ins)) <= multiset(EntryRefs(us))
    ensures forall i <- ins :: Names(i, us)
  {
    forall k | 0 <= k < |ins|
      ensures Names(ins[k], us)
    {
      assert InRefs(ins)[k] in multiset(InRefs(ins)) && InRefs(ins)[k] in multiset(EntryRefs(us));
      var x :| 0 <= x < |us| && EntryRefs(us)[x] == InRef(ins[k]);
      assert us[x] in us;
    }
  }

  /** Inputs that fit a list without collisions are worth no more than the list. */
  lemma {:induction false} NamedAtMostAll(us: seq<Unspent>, ins: seq<TxIn>)
    requires Clean(us) && multiset(InRefs(ins)) <= multiset(EntryRefs(us))
    ensures Total(NamedOuts(us, ins)) <= Total(Outs(us))
  {
    var left := Spend(us, InHashes(ins));
    NamedCanBeSpent(ins, us);
    SpendBag(us, InHashes(ins));
    SpendKeeps(us, InHashes(ins));
    FittingNames(us, ins);
    OutputsAddUp(left, ins, us);
  }

  lemma {:induction false} OneOfThePool(pool: seq<Tx>, t: nat)
    requires t < |pool|
    ensures multiset(InRefs(pool[t].inputs)) <= multiset(InRefs(AllInputs(pool)))
  {
    var init, tx := pool[..|pool| - 1], pool[|pool| - 1];
    InRefsConcat(AllInputs(init), tx.inputs);
    if t < |init| {
      assert init[t] == pool[t];
      OneOfThePool(init, t);
    }
  }

  lemma {:induction false} ValidPaysExactly(c: Suite, tx: Tx, us: seq<Unspent>)
    requires TxValid(c, tx, us) && Payment(c, tx) && Total(NamedOuts(us, tx.inputs)) < 0x1_0000_0000
    ensures Total(tx.outputs) == Total(NamedOuts(us, tx.inputs))
  {
    WrapGap(Total(NamedOuts(us, tx.inputs)), Total(tx.outputs));
  }

  /** While fifty coins a block fit 32 bits, the sums of a validation do not wrap: every pooled transaction hands on
      exactly what the entries it names are worth. */
  lemma {:induction false} PooledPaysExactly(c: Suite, steps: seq<Step>, s: Ledger, t: nat)
    requires Reached(c, steps, s) && CleanChain(s.chain) && t < |s.pool|
    requires COINBASE_AMOUNT * (|s.chain| - 1) < 0x1_0000_0000
    ensures Total(s.pool[t].outputs) == Total(NamedOuts(s.unspent, s.pool[t].inputs)) < 0x1_0000_0000
  {
    ReachedSound(c, steps, s);
    ReachedPoolValid(c, steps, s);
    SupplyIsFiftyABlock(c, steps, s);
    UnspentIsClean(c, s);
    OneOfThePool(s.pool, t);
    NamedAtMostAll(s.unspent, s.pool[t].inputs);
    assert s.pool[t] in s.pool;
    ValidPaysExactly(c, s.pool[t], s.unspent);
  }

  // ---- the alternative to a clean chain ----

  /** Two outputs of the chain collide under SHA-256. */
  ghost predicate OutputsCollide(c: Suite, chain: seq<Block>) {
    exists u, v :: && u in Entries(chain) && v in Entries(chain)
                   && Collision(c, PackOut(u.out.amount, u.out.pub), PackOut(v.out.amount, v.out.pub))
  }

  /** An output of the chain has a digest that ends in 28 zero bytes. */
  ghost predicate OutputLikeAMark(c: Suite, chain: seq<Block>) {
    exists u :: u in Entries(chain) && MarkLike(c.sha256(PackOut(u.out.amount, u.out.pub)))
  }

  /** A chain a run produces is clean, or two different 69-byte strings of it have the same digest, or the digest of
      one ends in 28 zero bytes. */
  lemma {:induction false} CleanOrCollision(c: Suite, steps: seq<Step>, s: Ledger)
    requires Reached(c, steps, s)
    ensures CleanChain(s.chain) || OutputsCollide(c, s.chain) || OutputLikeAMark(c, s.chain)
  {
    ReachedSound(c, steps, s);
    UncleanCollides(c, s.chain);
  }

  lemma {:induction false} UncleanCollides(c: Suite, chain: seq<Block>)
    requires forall u <- Entries(chain) :: OutOk(c, u.out)
    ensures CleanChain(chain) || OutputsCollide(c, chain) || OutputLikeAMark(c, chain)
  {
    var all := Entries(chain);
    if !Clean(all) {
      var i, j :| 0 <= i < |all| && 0 <= j < |all| && all[i].out.hash == all[j].out.hash && all[i].out != all[j].out;
      assert all[i] in all && all[j] in all;
      OutputHashDetermines(c, all[i].out, all[j].out);
    }
  }
}
