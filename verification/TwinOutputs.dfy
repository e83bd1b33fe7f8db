/** What equal outputs do. A payment of half a coin to oneself creates two outputs that nothing tells apart: two entries
    with one reference. The pool check takes the second for used as soon as the pool names the first, so a later
    selection passes over it, and the block removes it all the same. No list command and no accident of digests is
    needed. Without such payments references differ. */
module TwinOutputs {
  import opened Bytes
  import opened Crypto
  import opened LinkedList
  import opened Transactions
  import opened UpdateUnspent
  import opened Create
  import opened CreateLaws
  import opened UnspentLaws
  import opened Blocks
  import opened Mining
  import opened Ledger
  import opened ChainLaws
  import opened Soundness
  import opened Conservation
  import opened ExactRemoval
  import opened References
  import opened Runs

  function OutOf(c: Suite, amount: uint32, pub: Pub): TxOut {
    TxOut(amount, pub, c.sha256(PackOut(amount, pub)))
  }

  const HALF: uint32 := 25
  const MORE: uint32 := 60

  // ---- a coin split in two ----

  lemma {:induction false} AllEntriesConcat(blockHash: Digest, a: seq<Tx>, b: seq<Tx>)
    ensures AllEntries(blockHash, a + b) == AllEntries(blockHash, a) + AllEntries(blockHash, b)
  {
    if b == [] {
      assert a + b == a;
    } else {
      var init, tx := b[..|b| - 1], b[|b| - 1];
      AllEntriesConcat(blockHash, a, init);
      assert (a + b)[..|a + b| - 1] == a + init && (a + b)[|a + b| - 1] == tx;
      Associate(AllEntries(blockHash, a), AllEntries(blockHash, init), NewEntries(blockHash, tx));
    }
  }

  lemma {:induction false} EntriesOfOne(blockHash: Digest, tx: Tx)
    ensures AllEntries(blockHash, [tx]) == NewEntries(blockHash, tx)
  {
    assert [tx][..0] == [];
    assert [] + NewEntries(blockHash, tx) == NewEntries(blockHash, tx);
  }

  /** The entries of a block that holds a coinbase and a payment of two equal outputs. */
  lemma {:induction false} TwinEntries(c: Suite, key: EcKey, b: Block, tx: Tx) returns (coin: Unspent, twin: Unspent)
    requires TxList(b) == [Coinbase(c, key.pub, b.info.index)] + [tx]
    requires tx.outputs == [OutOf(c, HALF, key.pub), OutOf(c, HALF, key.pub)]
    ensures AllEntries(b.hash, TxList(b)) == [coin, twin, twin]
    ensures coin.blockHash == b.hash && coin.out == OutOf(c, COINBASE_AMOUNT, key.pub)
    ensures twin.blockHash == b.hash && twin.out == OutOf(c, HALF, key.pub)
  {
    var coinbase := Coinbase(c, key.pub, b.info.index);
    AllEntriesConcat(b.hash, [coinbase], [tx]);
    EntriesOfOne(b.hash, coinbase);
    EntriesOfOne(b.hash, tx);
    coin := Unspent(b.hash, coinbase.id, coinbase.outputs[0]);
    twin := Unspent(b.hash, tx.id, OutOf(c, HALF, key.pub));
    assert NewEntries(b.hash, coinbase) == [coin];
    assert NewEntries(b.hash, tx) == [twin, twin];
  }

  lemma {:induction false} SpendFirst(us: seq<Unspent>, ins: seq<TxIn>)
    requires us != [] && InRefs(ins) == [EntryRef(us[0])]
    ensures Spend(us, InHashes(ins)) == us[1..]
  {
    var h := us[0].out.hash;
    assert |ins| == 1 && InRefs(ins)[0] == InRef(ins[0]);
    assert InHashes(ins) == [h];
    SpendOne(us, h);
    RemoveFirstTakesTheFirst([], us[0], us[1..], HasHash(h));
    assert [] + [us[0]] + us[1..] == us && [] + us[1..] == us[1..];
  }

  lemma {:induction false} HalfOutputs(c: Suite, pub: Pub)
    ensures SendAmount(c, pub, pub, HALF, COINBASE_AMOUNT) == Some([OutOf(c, HALF, pub), OutOf(c, HALF, pub)])
  {
    WrapSmall(HALF);
    assert COINBASE_AMOUNT - HALF == HALF;
  }

  function Split(steps: seq<Step>, address: string, n: nat, time: uint64): seq<Step> {
    steps + [Send(HALF, address, n)] + [Step.Mine(time)]
  }

  /** One's own address, and a coin in front of the list. */
  ghost predicate CoinInFront(c: Suite, s: Ledger, key: EcKey, address: string) {
    && s.wallet == Some(key) && Receiver(c, address) == Some(key.pub) && s.pool == [] && s.unspent != []
    && s.unspent[0].out == OutOf(c, COINBASE_AMOUNT, key.pub)
  }

  /** Half of it sent to oneself and mined makes a pair of entries with one reference. */
  lemma {:induction false} SplitCoin(c: Suite, steps: seq<Step>, s: Ledger, key: EcKey, address: string, n: nat,
                                     time: uint64) returns (s': Ledger, b: Block, coin: Unspent, twin: Unspent)
    requires GenesisDigest(c) && Signer(c, key) && Reached(c, steps, s) && CleanChain(s.chain) && |s.chain| <= 5
    requires CoinInFront(c, s, key, address)
    ensures Reached(c, Split(steps, address, n, time), s')
    ensures s'.chain == s.chain + [b] && s'.wallet == s.wallet && s'.pool == []
    ensures s'.unspent == s.unspent[1..] + [coin, twin, twin] && AllEntries(b.hash, TxList(b)) == [coin, twin, twin]
    ensures coin.blockHash == b.hash && coin.out == OutOf(c, COINBASE_AMOUNT, key.pub)
    ensures twin.blockHash == b.hash && twin.out == OutOf(c, HALF, key.pub)
  {
    var sent, tx := SendTheFirst(c, steps, s, key, HALF, address, n);
    HalfOutputs(c, key.pub);
    s', b := EarlyMine(c, steps + [Send(HALF, address, n)], sent, key, time);
    MineOne(c, sent, key, tx, b, s');
    SpendFirst(s.unspent, tx.inputs);
    coin, twin := TwinEntries(c, key, b, tx);
  }

  // ---- a selection that passes over the second of a pair ----

  lemma {:induction false} OnlyItsInput(tx: Tx, r: Ref, u: Unspent)
    requires InRefs(tx.inputs) == [r] && !PrefixMatch(r, EntryRef(u))
    ensures !UsedInPool([tx], u)
  {
    assert |tx.inputs| == 1 && InRef(tx.inputs[0]) == InRefs(tx.inputs)[0];
    assert !UsedBy(tx, u);
  }

  /** Two pairs of twins, and a coin between them. */
  ghost predicate Pairs(c: Suite, us: seq<Unspent>, pub: Pub, e: Unspent, coin: Unspent, f: Unspent) {
    && us == [e, e] + [coin, f, f]
    && e.out == f.out == OutOf(c, HALF, pub) && coin.out == OutOf(c, COINBASE_AMOUNT, pub)
    && !PrefixMatch(EntryRef(e), EntryRef(coin)) && !PrefixMatch(EntryRef(e), EntryRef(f))
  }

  lemma {:induction false} PairsEligible(c: Suite, us: seq<Unspent>, pub: Pub, e: Unspent, coin: Unspent, f: Unspent,
                                         tx: Tx)
    requires Pairs(c, us, pub, e, coin, f) && InRefs(tx.inputs) == [EntryRef(e)]
    ensures |us| == 5 && us[2] == coin && us[3] == f
    ensures !Eligible(us[0], pub, [tx]) && !Eligible(us[1], pub, [tx])
    ensures Eligible(us[2], pub, [tx]) && Eligible(us[3], pub, [tx])
  {
    ClashIsUsed(us, tx, 0, 0);
    ClashIsUsed(us, tx, 0, 1);
    OnlyItsInput(tx, EntryRef(e), coin);
    OnlyItsInput(tx, EntryRef(e), f);
  }

  /** One more entry of a selection. */
  lemma {:induction false} SelectNext(us: seq<Unspent>, pub: Pub, pool: seq<Tx>, k: nat, chosen: seq<Unspent>)
    requires k < |us| && EligibleOf(us[..k], pub, pool) == chosen
    ensures EligibleOf(us[..k + 1], pub, pool) == if Eligible(us[k], pub, pool) then chosen + [us[k]] else chosen
    ensures EligibleTotal(us, pub, pool, k + 1)
            == EligibleTotal(us, pub, pool, k) + if Eligible(us[k], pub, pool) then us[k].out.amount else 0
  {
    SelectStep(us, pub, pool, k);
    assert chosen + [] == chosen;
  }

  lemma {:induction false} PairsSelected(c: Suite, us: seq<Unspent>, pub: Pub, e: Unspent, coin: Unspent, f: Unspent,
                                         tx: Tx)
    requires Pairs(c, us, pub, e, coin, f) && InRefs(tx.inputs) == [EntryRef(e)]
    ensures |us| == 5
    ensures EligibleTotal(us, pub, [tx], 1) == EligibleTotal(us, pub, [tx], 2) == 0
    ensures EligibleTotal(us, pub, [tx], 3) == COINBASE_AMOUNT
    ensures EligibleTotal(us, pub, [tx], 4) == COINBASE_AMOUNT + HALF
    ensures EligibleOf(us[..4], pub, [tx]) == [coin] + [f]
  {
    PairsEligible(c, us, pub, e, coin, f, tx);
    assert us[..0] == [] && [] + [coin] == [coin];
    SelectNext(us, pub, [tx], 0, []);
    SelectNext(us, pub, [tx], 1, []);
    SelectNext(us, pub, [tx], 2, []);
    SelectNext(us, pub, [tx], 3, [coin]);
  }

  lemma {:induction false} PairsTaken(c: Suite, us: seq<Unspent>, key: EcKey, e: Unspent, coin: Unspent, f: Unspent,
                                      tx: Tx)
    requires Pairs(c, us, key.pub, e, coin, f) && InRefs(tx.inputs) == [EntryRef(e)]
    ensures Taken(key, MORE, us, [tx]) == [coin, f] && Total(Outs([coin, f])) == COINBASE_AMOUNT + HALF
  {
    var pub := key.pub;
    PairsSelected(c, us, pub, e, coin, f, tx);
    assert [coin] + [f] == [coin, f];
    WrapSmall(0);
    WrapSmall(COINBASE_AMOUNT);
    WrapSmall(COINBASE_AMOUNT + HALF);
    assert Cut(us, pub, [tx], MORE, 3) == 4;
    assert Cut(us, pub, [tx], MORE, 2) == 4;
    assert Cut(us, pub, [tx], MORE, 1) == 4;
  }

  // ---- what the block removes ----

  lemma {:induction false} RemoveHead(u: Unspent, rest: seq<Unspent>, h: Digest)
    requires u.out.hash == h
    ensures RemoveFirst([u] + rest, HasHash(h)) == rest
  {
    RemoveFirstTakesTheFirst([], u, rest, HasHash(h));
    assert [] + [u] + rest == [u] + rest && [] + rest == rest;
  }

  lemma {:induction false} RemoveSecond(u: Unspent, v: Unspent, rest: seq<Unspent>, h: Digest)
    requires u.out.hash != h && v.out.hash == h
    ensures RemoveFirst([u] + ([v] + rest), HasHash(h)) == [u] + rest
  {
    RemoveFirstTakesTheFirst([u], v, rest, HasHash(h));
    Associate([u], [v], rest);
  }

  lemma {:induction false} SpendThree(us: seq<Unspent>, x: Digest, y: Digest, z: Digest)
    ensures Spend(us, [x] + [y] + [z])
            == RemoveFirst(RemoveFirst(RemoveFirst(us, HasHash(x)), HasHash(y)), HasHash(z))
  {
    SpendOne(us, x);
    SpendSnoc(us, [x], y);
    SpendSnoc(us, [x] + [y], z);
  }

  lemma {:induction false} ThreeHashes(ins: seq<TxIn>, x: Ref, y: Ref, z: Ref)
    requires InRefs(ins) == [x] + [y, z]
    ensures InHashes(ins) == [x.outHash] + [y.outHash] + [z.outHash]
  {
    assert |ins| == 3;
    assert InRefs(ins)[0] == InRef(ins[0]) && InRefs(ins)[1] == InRef(ins[1]) && InRefs(ins)[2] == InRef(ins[2]);
  }

  /** Removals by the digests of one pair, the coin, and the other pair, which is the same as the first. */
  lemma {:induction false} SpendFivefold(e: Unspent, coin: Unspent, rest: seq<Unspent>, h: Digest, h': Digest)
    requires e.out.hash == h && coin.out.hash == h' && h != h'
    ensures Spend([e] + ([e] + ([coin] + rest)), [h] + [h'] + [h]) == rest
  {
    SpendThree([e] + ([e] + ([coin] + rest)), h, h', h);
    RemoveHead(e, [e] + ([coin] + rest), h);
    RemoveSecond(e, coin, rest, h');
    RemoveHead(e, rest, h);
  }

  /** Inputs that name one of each pair, and the coin, take the whole first pair and leave the second. */
  lemma {:induction false} SpendPairs(e: Unspent, coin: Unspent, f: Unspent, ins: seq<TxIn>)
    requires e.out == f.out && e.out.hash != coin.out.hash
    requires InRefs(ins) == [EntryRef(e)] + [EntryRef(coin), EntryRef(f)]
    ensures Spend([e, e] + [coin, f, f], InHashes(ins)) == [f, f]
  {
    ThreeHashes(ins, EntryRef(e), EntryRef(coin), EntryRef(f));
    SpendFivefold(e, coin, [f, f], e.out.hash, coin.out.hash);
    assert [e, e] + [coin, f, f] == [e] + ([e] + ([coin] + [f, f]));
  }

  // ---- the run ----

  /** The state before the two payments. */
  ghost predicate TwoPairs(c: Suite, s: Ledger, key: EcKey, address: string, e: Unspent, coin: Unspent, f: Unspent) {
    && s.wallet == Some(key) && Receiver(c, address) == Some(key.pub) && s.pool == []
    && Pairs(c, s.unspent, key.pub, e, coin, f)
    && |s.chain| == 4 && f.blockHash == s.chain[3].hash
    && AllEntries(s.chain[3].hash, TxList(s.chain[3])) == [coin, f, f]
  }

  /** Twice created, once spent, and twice unspent. */
  ghost predicate OneTooMany(s: Ledger, r: Ref) {
    && multiset(EntryRefs(Entries(s.chain)))[r] == 2
    && multiset(InRefs(SpentInputs(s.chain)))[r] >= 1
    && multiset(EntryRefs(s.unspent))[r] >= 2
  }

  lemma {:induction false} OneTooManyBreaks(s: Ledger, r: Ref)
    requires OneTooMany(s, r)
    ensures !RefsAddUp(s.chain, s.unspent)
  {
    assert (multiset(EntryRefs(s.unspent)) + multiset(InRefs(SpentInputs(s.chain))))[r] >= 3;
  }

  lemma {:induction false} PairsHaveTwoDigests(c: Suite, steps: seq<Step>, s: Ledger, key: EcKey, address: string,
                                               e: Unspent, coin: Unspent, f: Unspent)
    requires Reached(c, steps, s) && CleanChain(s.chain) && TwoPairs(c, s, key, address, e, coin, f)
    ensures e.out.hash != coin.out.hash
  {
    ReachedSound(c, steps, s);
    UnspentIsClean(c, s);
    assert s.unspent[0] == e && s.unspent[2] == coin;
  }

  function Paid(steps: seq<Step>, address: string, n: nat): seq<Step> {
    steps + [Send(HALF, address, n)] + [Send(MORE, address, n)]
  }

  /** While the pool names one of the first pair, a payment of more passes over the other. */
  lemma {:induction false} PayMore(c: Suite, steps: seq<Step>, s: Ledger, key: EcKey, address: string, n: nat, tx: Tx,
                                   e: Unspent, coin: Unspent, f: Unspent) returns (s': Ledger, tx': Tx)
    requires Signer(c, key) && Reached(c, steps, s) && CleanChain(s.chain)
    requires s.wallet == Some(key) && Receiver(c, address).Some? && s.pool == [tx]
    requires Pairs(c, s.unspent, key.pub, e, coin, f) && InRefs(tx.inputs) == [EntryRef(e)]
    ensures Reached(c, steps + [Send(MORE, address, n)], s') && s' == s.(pool := [tx] + [tx'])
    ensures InRefs(tx'.inputs) == [EntryRef(coin), EntryRef(f)]
  {
    PairsTaken(c, s.unspent, key, e, coin, f, tx);
    WrapSmall(COINBASE_AMOUNT + HALF);
    s', tx' := SendTakes(c, steps, s, key, MORE, address, n);
    assert EntryRefs([coin, f]) == [EntryRef(coin), EntryRef(f)];
  }

  /** A payment that names one of the first pair, and one that needs more. */
  lemma {:induction false} PayTwice(c: Suite, steps: seq<Step>, s: Ledger, key: EcKey, address: string, n: nat,
                                    e: Unspent, coin: Unspent, f: Unspent) returns (s': Ledger)
    requires Signer(c, key) && Reached(c, steps, s) && CleanChain(s.chain) && TwoPairs(c, s, key, address, e, coin, f)
    ensures Reached(c, Paid(steps, address, n), s') && s' == s.(pool := s'.pool)
    ensures InRefs(AllInputs(s'.pool)) == [EntryRef(e)] + [EntryRef(coin), EntryRef(f)]
  {
    var one, tx := SendTheFirst(c, steps, s, key, HALF, address, n);
    var tx';
    s', tx' := PayMore(c, steps + [Send(HALF, address, n)], one, key, address, n, tx, e, coin, f);
    TwoInputs(tx, tx');
  }

  lemma {:induction false} TwoInputs(a: Tx, b: Tx)
    ensures InRefs(AllInputs([a] + [b])) == InRefs(a.inputs) + InRefs(b.inputs)
  {
    AllInputsSnoc([], a);
    AllInputsSnoc([a], b);
    assert [] + [a] == [a] && [] + a.inputs == a.inputs;
    InRefsConcat(a.inputs, b.inputs);
  }

  lemma {:induction false} CountInFront(us: seq<Unspent>, more: seq<Unspent>, r: Ref)
    ensures multiset(EntryRefs(us + more))[r] >= multiset(EntryRefs(us))[r]
  {
    EntryRefsConcat(us, more);
  }

  lemma {:induction false} CountBehind(ins: seq<TxIn>, more: seq<TxIn>, r: Ref)
    ensures multiset(InRefs(ins + more))[r] >= multiset(InRefs(more))[r]
  {
    InRefsConcat(ins, more);
  }

  lemma {:induction false} PairStays(c: Suite, us: seq<Unspent>, pub: Pub, e: Unspent, coin: Unspent, f: Unspent,
                                     ins: seq<TxIn>, more: seq<Unspent>)
    requires Pairs(c, us, pub, e, coin, f) && e.out.hash != coin.out.hash
    requires InRefs(ins) == [EntryRef(e)] + [EntryRef(coin), EntryRef(f)]
    ensures multiset(EntryRefs(Spend(us, InHashes(ins)) + more))[EntryRef(f)] >= 2
  {
    SpendPairs(e, coin, f, ins);
    CountInFront([f, f], more, EntryRef(f));
    assert EntryRefs([f, f]) == [EntryRef(f), EntryRef(f)];
  }

  lemma {:induction false} ThirdIsSpent(chain: seq<Block>, b: Block, x: Ref, y: Ref, r: Ref)
    requires InRefs(AllInputs(Payments(b))) == [x] + [y, r]
    ensures multiset(InRefs(SpentInputs(chain + [b])))[r] >= 1
  {
    ChainSnoc(chain, b);
    CountBehind(SpentInputs(chain), AllInputs(Payments(b)), r);
    assert InRefs(AllInputs(Payments(b)))[2] == r;
  }

  /** The block that holds these payments leaves both of the second pair, one of which it spends. */
  lemma {:induction false} MinePairs(c: Suite, s: Ledger, key: EcKey, e: Unspent, coin: Unspent, f: Unspent,
                                     b: Block, s': Ledger)
    requires Mines(c, s, key, b, s') && Pairs(c, s.unspent, key.pub, e, coin, f) && e.out.hash != coin.out.hash
    requires InRefs(AllInputs(s.pool)) == [EntryRef(e)] + [EntryRef(coin), EntryRef(f)]
    ensures multiset(EntryRefs(s'.unspent))[EntryRef(f)] >= 2
    ensures multiset(InRefs(SpentInputs(s'.chain)))[EntryRef(f)] >= 1
  {
    PairStays(c, s.unspent, key.pub, e, coin, f, AllInputs(s.pool), AllEntries(b.hash, TxList(b)));
    ThirdIsSpent(s.chain, b, EntryRef(e), EntryRef(coin), EntryRef(f));
  }

  lemma {:induction false} CreatedTwice(c: Suite, chain: seq<Block>, coin: Unspent, f: Unspent)
    requires GenesisDigest(c) && ChainOk(c, chain) && |chain| > 3 && !BlocksCollide(c, chain, chain)
    requires f.blockHash == chain[3].hash && AllEntries(chain[3].hash, TxList(chain[3])) == [coin, f, f]
    requires coin.out.hash != f.out.hash
    ensures multiset(EntryRefs(Entries(chain)))[EntryRef(f)] == 2
  {
    forall i | 0 <= i < |chain| && i != 3
      ensures chain[i].hash != f.blockHash
    {
      HashesDiffer(c, chain, i, 3);
    }
    CreatedInItsBlock(chain, 3, EntryRef(f));
    assert EntryRefs([coin, f, f]) == [EntryRef(coin), EntryRef(f), EntryRef(f)];
  }

  lemma {:induction false} PayAndMine(c: Suite, steps: seq<Step>, s: Ledger, key: EcKey, address: string, n: nat,
                                      time: uint64, e: Unspent, coin: Unspent, f: Unspent) returns (s': Ledger)
    requires GenesisDigest(c) && Signer(c, key)
    requires Reached(c, steps, s) && CleanChain(s.chain) && TwoPairs(c, s, key, address, e, coin, f)
    ensures Reached(c, Paid(steps, address, n) + [Step.Mine(time)], s')
    ensures !BlocksCollide(c, s'.chain, s'.chain) ==> OneTooMany(s', EntryRef(f))
  {
    PairsHaveTwoDigests(c, steps, s, key, address, e, coin, f);
    var paid := PayTwice(c, steps, s, key, address, n, e, coin, f);
    var b;
    s', b := EarlyMine(c, Paid(steps, address, n), paid, key, time);
    MinePairs(c, paid, key, e, coin, f, b, s');
    ReachedChain(c, Paid(steps, address, n) + [Step.Mine(time)], s');
    assert s'.chain[3] == s.chain[3];
    if !BlocksCollide(c, s'.chain, s'.chain) {
      CreatedTwice(c, s'.chain, coin, f);
    }
  }

  function Opening(key: EcKey, address: string, n: nat, time: uint64): seq<Step> {
    Split(Split([SetWallet(key)] + [Step.Mine(time)], address, n, time), address, n, time)
  }

  /** A block, half its coin sent to oneself and mined, the same once more, half a coin sent, a coin and ten sent, and a
      block. */
  function TheRun(key: EcKey, address: string, n: nat, time: uint64): seq<Step> {
    Paid(Opening(key, address, n, time), address, n) + [Step.Mine(time)]
  }

  /** Entries of different blocks do not clash, when prefixes tell references apart. */
  lemma {:induction false} OtherBlocksApart(c: Suite, steps: seq<Step>, s: Ledger, u: Unspent, v: Unspent, i: nat,
                                            j: nat)
    requires GenesisDigest(c) && Reached(c, steps, s)
    requires !BlocksCollide(c, s.chain, s.chain) && PrefixesTell(Entries(s.chain))
    requires u in s.unspent && v in s.unspent && i < |s.chain| && j < |s.chain| && i != j
    requires u.blockHash == s.chain[i].hash && v.blockHash == s.chain[j].hash
    ensures !PrefixMatch(EntryRef(u), EntryRef(v))
  {
    ReachedSound(c, steps, s);
    var all := Entries(s.chain);
    var x :| 0 <= x < |all| && all[x] == u;
    var y :| 0 <= y < |all| && all[y] == v;
    HashesDiffer(c, s.chain, i, j);
    assert EntryRef(all[x]) != EntryRef(all[y]);
  }

  /** Both splits. */
  lemma {:induction false} SplitAgain(c: Suite, steps: seq<Step>, s: Ledger, key: EcKey, address: string, n: nat,
                                      time: uint64, coin1: Unspent, e: Unspent)
    returns (s': Ledger, coin: Unspent, f: Unspent)
    requires GenesisDigest(c) && Signer(c, key) && Reached(c, steps, s) && CleanChain(s.chain)
    requires s.wallet == Some(key) && Receiver(c, address) == Some(key.pub) && s.pool == [] && |s.chain| == 3
    requires s.unspent == [] + [coin1, e, e] && coin1.out == OutOf(c, COINBASE_AMOUNT, key.pub)
    requires e.out == OutOf(c, HALF, key.pub) && e.blockHash == s.chain[2].hash
    ensures Reached(c, Split(steps, address, n, time), s')
    ensures !BlocksCollide(c, s'.chain, s'.chain) && PrefixesTell(Entries(s'.chain))
            ==> TwoPairs(c, s', key, address, e, coin, f)
  {
    var b;
    s', b, coin, f := SplitCoin(c, steps, s, key, address, n, time);
    assert s.unspent[1..] == [e, e];
    assert s'.unspent[0] == e && s'.unspent[2] == coin && s'.unspent[3] == f;
    assert s'.chain[2] == s.chain[2] && s'.chain[3] == b;
    if !BlocksCollide(c, s'.chain, s'.chain) && PrefixesTell(Entries(s'.chain)) {
      OtherBlocksApart(c, Split(steps, address, n, time), s', e, coin, 2, 3);
      OtherBlocksApart(c, Split(steps, address, n, time), s', e, f, 2, 3);
    }
  }

  /** This run, which lists nothing, leaves a reference unspent twice that was created twice and spent once; unless its
      chain is not clean, or blocks or prefixes of it collide. */
  lemma {:induction false} EqualOutputsBreakTheBooks(c: Suite, key: EcKey, address: string, n: nat, time: uint64)
    returns (steps: seq<Step>, s: Ledger, r: Ref)
    requires GenesisDigest(c) && Signer(c, key) && Receiver(c, address) == Some(key.pub)
    ensures Reached(c, steps, s)
    ensures CleanChain(s.chain) && !BlocksCollide(c, s.chain, s.chain) && PrefixesTell(Entries(s.chain)) ==>
              && steps == TheRun(key, address, n, time) && OneTooMany(s, r)
              && !RefsAddUp(s.chain, s.unspent)
  {
    var first, coin1, e, coin, f, b;
    s, first := MineOnce(c, key, time);
    steps, r := [SetWallet(key)] + [Step.Mine(time)], EntryRef(first);
    if CleanChain(s.chain) {
      s, b, coin1, e := SplitCoin(c, steps, s, key, address, n, time);
      steps := Split(steps, address, n, time);
      if CleanChain(s.chain) {
        s, coin, f := SplitAgain(c, steps, s, key, address, n, time, coin1, e);
        steps := Split(steps, address, n, time);
        if CleanChain(s.chain) && !BlocksCollide(c, s.chain, s.chain) && PrefixesTell(Entries(s.chain)) {
          s := PayAndMine(c, steps, s, key, address, n, time, e, coin, f);
          steps, r := Paid(steps, address, n) + [Step.Mine(time)], EntryRef(f);
          if OneTooMany(s, r) {
            OneTooManyBreaks(s, r);
          }
        }
      }
    }
  }
}
