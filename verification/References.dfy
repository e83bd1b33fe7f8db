/** References on the chain: when every reference is spent at most as often as it was created. The update removes
    entries by output digest alone, so this is not given; it holds exactly while the pool names the foremost entries
    of each digest. */
module References {
  import opened Bytes
  import opened Crypto
  import opened LinkedList
  import opened Transactions
  import opened UpdateUnspent
  import opened UnspentLaws
  import opened Blocks
  import opened Mining
  import opened Ledger
  import opened ChainLaws
  import opened Soundness
  import opened Conservation
  import opened Progress
  import opened ExactRemoval
  import opened OldestFirst

  /** Every reference created on the chain is unspent or spent, as often as it was created. */
  ghost predicate RefsAddUp(chain: seq<Block>, us: seq<Unspent>) {
    multiset(EntryRefs(us)) + multiset(InRefs(SpentInputs(chain))) == multiset(EntryRefs(Entries(chain)))
  }

  /** Of every output digest, the references are those of the foremost entries, in any order. */
  ghost predicate NamesForemost(refs: seq<Ref>, all: seq<Ref>) {
    forall h: Digest :: ForemostOf(h, refs, all)
  }

  ghost predicate ForemostOf(h: Digest, refs: seq<Ref>, all: seq<Ref>) {
    var mine, whole := Class(h, refs), Class(h, all);
    |mine| <= |whole| && multiset(mine) == multiset(whole[..|mine|])
  }

  lemma {:induction false} InOrderIsForemost(refs: seq<Ref>, all: seq<Ref>)
    requires InOrder(refs, all)
    ensures NamesForemost(refs, all)
  {
    forall h: Digest
      ensures ForemostOf(h, refs, all)
    {
      assert Class(h, refs) <= Class(h, all);
      assert Class(h, all)[..|Class(h, refs)|] == Class(h, refs);
    }
  }

  // ---- classes after the removals ----

  function Drop<T>(s: seq<T>, k: nat): seq<T> {
    if k <= |s| then s[k..] else []
  }

  lemma {:induction false} DropSnoc<T>(s: seq<T>, x: T, k: nat)
    ensures Drop(s + [x], k) == if |s| >= k then Drop(s, k) + [x] else []
  {
  }

  lemma {:induction false} ClassOfSurvivors(us: seq<Unspent>, spent: multiset<Digest>, h: Digest)
    ensures Class(h, EntryRefs(Survivors(us, spent))) == Drop(Class(h, EntryRefs(us)), spent[h])
  {
    if us != [] {
      var init, u := us[..|us| - 1], us[|us| - 1];
      ClassOfSurvivors(init, spent, h);
      assert us == init + [u];
      ClassSnoc(h, init, u);
      ClassSnoc(h, Survivors(init, spent), u);
      DropSnoc(Class(h, EntryRefs(init)), EntryRef(u), spent[h]);
    }
  }

  lemma {:induction false} ClassCount(h: Digest, ins: seq<TxIn>)
    ensures |Class(h, InRefs(ins))| == multiset(InHashes(ins))[h]
  {
    if ins != [] {
      var init, i := ins[..|ins| - 1], ins[|ins| - 1];
      ClassCount(h, init);
      assert InRefs(ins) == InRefs(init) + [InRef(i)];
      assert InRefs(ins)[..|ins| - 1] == InRefs(init);
      assert InHashes(ins) == InHashes(init) + [i.txOutHash];
    }
  }

  /** The removals take the front of every class, as much of it as there are inputs with its digest. */
  lemma {:induction false} ClassOfSpend(us: seq<Unspent>, ins: seq<TxIn>, h: Digest)
    ensures Class(h, EntryRefs(Spend(us, InHashes(ins))))
            == Drop(Class(h, EntryRefs(us)), |Class(h, InRefs(ins))|)
  {
    SpendLeavesSurvivors(us, InHashes(ins));
    ClassOfSurvivors(us, multiset(InHashes(ins)), h);
    ClassCount(h, ins);
  }

  lemma {:induction false} ClassLength(h: Digest, us: seq<Unspent>)
    ensures |Class(h, EntryRefs(us))| == HashBag(us)[h]
  {
    if us != [] {
      var init, u := us[..|us| - 1], us[|us| - 1];
      ClassLength(h, init);
      assert us == init + [u];
      ClassSnoc(h, init, u);
      assert EntryHashes(us) == EntryHashes(init) + [u.out.hash];
    }
  }

  lemma {:induction false} SplitCount<T>(s: seq<T>, k: nat, x: T)
    requires k <= |s|
    ensures multiset(s)[x] == multiset(s[..k])[x] + multiset(s[k..])[x]
  {
    assert s == s[..k] + s[k..];
  }

  /** One reference, before and after: how often it is in the list, in what is left of it, and in the inputs. */
  lemma {:induction false} RefCounts(us: seq<Unspent>, ins: seq<TxIn>, r: Ref)
    requires multiset(InHashes(ins)) <= HashBag(us)
    ensures var mine, whole := Class(r.outHash, InRefs(ins)), Class(r.outHash, EntryRefs(us));
            && |mine| <= |whole|
            && multiset(InRefs(ins))[r] == multiset(mine)[r]
            && multiset(EntryRefs(us))[r]
               == multiset(whole[..|mine|])[r] + multiset(EntryRefs(Spend(us, InHashes(ins))))[r]
  {
    var h := r.outHash;
    var mine, whole := Class(h, InRefs(ins)), Class(h, EntryRefs(us));
    ClassCount(h, ins);
    ClassLength(h, us);
    ClassBag(h, InRefs(ins), r);
    ClassBag(h, EntryRefs(us), r);
    ClassBag(h, EntryRefs(Spend(us, InHashes(ins))), r);
    ClassOfSpend(us, ins, h);
    SplitCount(whole, |mine|, r);
  }

  /** What is left and what the inputs name make up the list, reference by reference, exactly when the inputs name the
      foremost entries of each digest; entries may have the same reference. */
  lemma {:induction false} SpendAddsUpExactlyWhen(us: seq<Unspent>, ins: seq<TxIn>)
    requires multiset(InHashes(ins)) <= HashBag(us)
    ensures multiset(EntryRefs(Spend(us, InHashes(ins)))) + multiset(InRefs(ins)) == multiset(EntryRefs(us))
            <==> NamesForemost(InRefs(ins), EntryRefs(us))
  {
    var left, refs, all := EntryRefs(Spend(us, InHashes(ins))), InRefs(ins), EntryRefs(us);
    if multiset(left) + multiset(refs) == multiset(all) {
      forall h: Digest
        ensures ForemostOf(h, refs, all)
      {
        ForemostByCount(us, ins, h);
      }
    }
    if NamesForemost(refs, all) {
      forall r: Ref
        ensures (multiset(left) + multiset(refs))[r] == multiset(all)[r]
      {
        RefCounts(us, ins, r);
        assert ForemostOf(r.outHash, refs, all);
      }
    }
  }

  lemma {:induction false} ForemostCount(us: seq<Unspent>, ins: seq<TxIn>, h: Digest, r: Ref)
    requires multiset(InHashes(ins)) <= HashBag(us) && |Class(h, InRefs(ins))| <= |Class(h, EntryRefs(us))|
    requires multiset(EntryRefs(Spend(us, InHashes(ins)))) + multiset(InRefs(ins)) == multiset(EntryRefs(us))
    ensures multiset(Class(h, InRefs(ins)))[r] == multiset(Class(h, EntryRefs(us))[..|Class(h, InRefs(ins))|])[r]
  {
    if r.outHash == h {
      RefCounts(us, ins, r);
      assert (multiset(EntryRefs(Spend(us, InHashes(ins)))) + multiset(InRefs(ins)))[r] == multiset(EntryRefs(us))[r];
    } else {
      ClassBag(h, InRefs(ins), r);
      ClassBag(h, EntryRefs(us), r);
      SplitCount(Class(h, EntryRefs(us)), |Class(h, InRefs(ins))|, r);
    }
  }

  lemma {:induction false} ForemostByCount(us: seq<Unspent>, ins: seq<TxIn>, h: Digest)
    requires multiset(InHashes(ins)) <= HashBag(us)
    requires multiset(EntryRefs(Spend(us, InHashes(ins)))) + multiset(InRefs(ins)) == multiset(EntryRefs(us))
    ensures ForemostOf(h, InRefs(ins), EntryRefs(us))
  {
    var mine, whole := Class(h, InRefs(ins)), Class(h, EntryRefs(us));
    ClassCount(h, ins);
    ClassLength(h, us);
    forall r: Ref
      ensures multiset(mine)[r] == multiset(whole[..|mine|])[r]
    {
      ForemostCount(us, ins, h, r);
    }
  }

  // ---- blocks ----

  lemma {:induction false} CancelBags<T>(a: multiset<T>, b: multiset<T>, x: multiset<T>)
    ensures a + x == b + x <==> a == b
  {
    assert (a + x) - x == a && (b + x) - x == b;
  }

  /** A block keeps the references in balance if and only if its payments name, of each digest, the foremost entries. */
  lemma {:induction false} CommitAddsUpExactlyWhen(c: Suite, s: Ledger, miner: Pub, b: Block)
    requires Sound(c, s) && CleanChain(s.chain) && RefsAddUp(s.chain, s.unspent) && Successor(c, s, miner, b)
    ensures RefsAddUp(s.chain + [b], ApplyTxs(s.unspent, b.hash, TxList(b)))
            <==> NamesForemost(InRefs(AllInputs(Payments(b))), EntryRefs(s.unspent))
  {
    var ins, new' := AllInputs(Payments(b)), AllEntries(b.hash, TxList(b));
    var left := Spend(s.unspent, InHashes(ins));
    CommitShape(c, s, miner, b);
    ChainSnoc(s.chain, b);
    EntryRefsConcat(left, new');
    EntryRefsConcat(Entries(s.chain), new');
    InRefsConcat(SpentInputs(s.chain), ins);
    SpendAddsUpExactlyWhen(s.unspent, ins);
    BalanceOfBags(multiset(EntryRefs(left)), multiset(InRefs(ins)), multiset(EntryRefs(s.unspent)),
                  multiset(InRefs(SpentInputs(s.chain))), multiset(EntryRefs(Entries(s.chain))),
                  multiset(EntryRefs(new')));
  }

  lemma {:induction false} BalanceOfBags<T>(left: multiset<T>, named: multiset<T>, us: multiset<T>,
                                            spent: multiset<T>, made: multiset<T>, new': multiset<T>)
    requires us + spent == made
    ensures (left + new') + (spent + named) == made + new' <==> left + named == us
  {
    assert (left + new') + (spent + named) == (left + named) + (spent + new');
    assert made + new' == us + (spent + new');
    CancelBags(left + named, us, spent + new');
  }

  // ---- runs ----

  lemma {:induction false} InitiallyAddsUp()
    ensures RefsAddUp(Initial().chain, [])
  {
    GenesisIsEmpty();
    assert InRefs([]) == [] && EntryRefs([]) == [];
  }

  lemma {:induction false} MineAddsUp(c: Suite, s: Ledger, time: uint64)
    requires Sound(c, s) && CleanChain(s.chain) && PoolValid(c, s) && PoolInOrder(s) && RefsAddUp(s.chain, s.unspent)
    requires CanMine(c, s, time)
    ensures RefsAddUp(MineStep(c, s, time).chain, MineStep(c, s, time).unspent)
  {
    if s.wallet.Some? {
      var miner := s.wallet.value.pub;
      var b := Mined(c, Candidate(c, s, miner, time));
      MineCommits(c, s, time);
      WithoutNone(s.pool, Rejected(c, s.unspent));
      SuccessorPayments(c, s, miner, b);
      InOrderIsForemost(InRefs(AllInputs(s.pool)), EntryRefs(s.unspent));
      CommitAddsUpExactlyWhen(c, s, miner, b);
    }
  }

  lemma {:induction false} StepAddsUp(c: Suite, s: Ledger, step: Step)
    requires Sound(c, s) && CleanChain(s.chain) && PoolValid(c, s) && PoolInOrder(s) && RefsAddUp(s.chain, s.unspent)
    requires Enabled(c, s, step)
    ensures RefsAddUp(Next(c, s, step).chain, Next(c, s, step).unspent)
  {
    match step
    case SetWallet(key) =>
    case Send(amount, address, random) =>
    case Mine(time) => MineAddsUp(c, s, time);
    case List(order) => ReorderedRefsSame(s.unspent, order);
  }

  /** In a tidy run no reference is spent more often than it was created: the references created are, with their
      multiplicities, those unspent and those spent. */
  lemma {:induction false} NoReferenceSpentTwice(c: Suite, steps: seq<Step>, s: Ledger)
    requires Reached(c, steps, s) && Tidy(c, Initial(), steps) && CleanChain(s.chain)
    ensures RefsAddUp(s.chain, s.unspent)
    ensures multiset(InRefs(SpentInputs(s.chain))) <= multiset(EntryRefs(Entries(s.chain)))
  {
    if steps == [] {
      InitiallyAddsUp();
    } else {
      var n := |steps| - 1;
      var before := RunFrom(c, Initial(), steps[..n]).value;
      ReachedSound(c, steps[..n], before);
      CleanBefore(c, before, steps[n]);
      NoReferenceSpentTwice(c, steps[..n], before);
      ReachedPoolValid(c, steps[..n], before);
      EmptyPoolInOrder(Initial());
      assert [] + steps[..n] == steps[..n];
      TidyRunGoesOn(c, [], Initial(), steps[..n], before);
      StepAddsUp(c, before, steps[n]);
    }
  }
}
