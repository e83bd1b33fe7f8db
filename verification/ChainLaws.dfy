/** What holds of every chain the client builds: its links, its difficulties, and how far its tip pins it down. */
module ChainLaws {
  import opened Bytes
  import opened Crypto
  import opened LinkedList
  import opened Transactions
  import opened Validity
  import opened Difficulty
  import opened Blocks
  import opened Mining
  import opened Ledger
  import opened UpdateUnspent

  /** The digest written into the genesis block is that of its bytes. */
  ghost predicate GenesisDigest(c: Suite) {
    Sealed(c, Genesis())
  }

  /** Block i of a chain, as mining leaves it. */
  ghost predicate Linked(c: Suite, chain: seq<Block>, i: nat)
    requires 0 < i < |chain|
  {
    var b := chain[i];
    && b.info.index == i
    && b.info.prevHash == chain[i - 1].hash
    && b.info.difficulty == NextDifficulty(chain[..i])
    && b.data == NewData(Zeros(DATA_MAX))
    && Sealed(c, b)
    && b.transactions.Some? && b.transactions.value != []
    && CoinbaseValid(c, b.transactions.value[0], i)
  }

  ghost predicate ChainOk(c: Suite, chain: seq<Block>) {
    && 0 < |chain| <= 0x1_0000_0000
    && chain[0] == Genesis()
    && forall i :: 0 < i < |chain| ==> Linked(c, chain, i)
  }

  /** Every mined block meets the difficulty it states. */
  ghost predicate Worked(chain: seq<Block>) {
    forall i :: 0 < i < |chain| ==> chain[i].info.difficulty <= 256 && Meets(chain[i].hash, chain[i].info.difficulty)
  }

  lemma {:induction false} ChainPrefix(c: Suite, chain: seq<Block>, n: nat)
    requires ChainOk(c, chain) && 0 < n <= |chain|
    ensures ChainOk(c, chain[..n])
  {
    forall i | 0 < i < n
      ensures Linked(c, chain[..n], i)
    {
      assert Linked(c, chain, i);
      assert chain[..n][..i] == chain[..i];
    }
  }

  lemma {:induction false} IndexIs(c: Suite, chain: seq<Block>, i: nat)
    requires ChainOk(c, chain) && i < |chain|
    ensures chain[i].info.index == i
  {
    if i > 0 {
      assert Linked(c, chain, i);
    }
  }

  // ---- the block that is mined ----

  /** What the mined block is: the successor of the tip, with the coinbase and the accepted transactions. */
  ghost predicate Successor(c: Suite, s: Ledger, miner: Pub, b: Block)
    requires s.chain != []
  {
    && b.info.index == Wrap32(Tip(s).info.index + 1)
    && b.info.prevHash == Tip(s).hash
    && b.info.difficulty == NextDifficulty(s.chain) <= 256
    && b.data == NewData(Zeros(DATA_MAX))
    && b.transactions == Some([Coinbase(c, miner, b.info.index)] + Accepted(c, s))
    && Sealed(c, b)
    && Meets(b.hash, b.info.difficulty)
  }

  lemma {:induction false} MinedIsSuccessor(c: Suite, s: Ledger, miner: Pub, time: uint64)
    requires s.chain != [] && Minable(c, Candidate(c, s, miner, time))
    ensures Successor(c, s, miner, Mined(c, Candidate(c, s, miner, time)))
    ensures Mined(c, Candidate(c, s, miner, time)).info.timestamp == time
  {
    var b := NewBlock(Tip(s), Zeros(DATA_MAX), time);
    assert TxList(b) + Accepted(c, s) == Accepted(c, s);
  }

  lemma {:induction false} SuccessorTransactions(c: Suite, s: Ledger, miner: Pub, b: Block)
    requires s.chain != [] && Successor(c, s, miner, b)
    ensures TransactionsValid(c, TxList(b), b.info.index, s.unspent)
  {
    var txs, accepted := TxList(b), Accepted(c, s);
    WithoutElements(s.pool, Rejected(c, s.unspent));
    CoinbaseIsAccepted(c, miner, b.info.index);
    forall k | 1 <= k < |txs|
      ensures TxValid(c, txs[k], s.unspent)
    {
      assert txs[k] == accepted[k - 1] && accepted[k - 1] in accepted;
    }
  }

  /** All that block_is_valid asks of the mined block, apart from its index, holds by construction. */
  lemma {:induction false} SuccessorIsValid(c: Suite, s: Ledger, miner: Pub, b: Block)
    requires s.chain != [] && Successor(c, s, miner, b)
    ensures BlockValid(c, b, Some(Tip(s)), s.unspent)
            <==> Tip(s).info.index != 0xFFFF_FFFF && Sealed(c, Tip(s))
  {
    SuccessorTransactions(c, s, miner, b);
    assert b.transactions != Genesis().transactions;
  }

  /** What mining does to the state, when it is done. */
  lemma {:induction false} MineCommits(c: Suite, s: Ledger, time: uint64)
    requires CanMine(c, s, time) && s.wallet.Some?
    ensures var b := Mined(c, Candidate(c, s, s.wallet.value.pub, time));
            && Successor(c, s, s.wallet.value.pub, b)
            && b.info.timestamp == time
            && MineStep(c, s, time)
               == if Tip(s).info.index != 0xFFFF_FFFF && Sealed(c, Tip(s))
                  then s.(chain := s.chain + [b], unspent := ApplyTxs(s.unspent, b.hash, TxList(b)), pool := [])
                  else s.(pool := Accepted(c, s))
  {
    MinedIsSuccessor(c, s, s.wallet.value.pub, time);
    SuccessorIsValid(c, s, s.wallet.value.pub, Mined(c, Candidate(c, s, s.wallet.value.pub, time)));
  }

  lemma {:induction false} LinkedFurther(c: Suite, chain: seq<Block>, b: Block, i: nat)
    requires 0 < i < |chain| && Linked(c, chain, i)
    ensures Linked(c, chain + [b], i)
  {
    assert (chain + [b])[..i] == chain[..i];
  }

  lemma {:induction false} SuccessorIsNext(c: Suite, s: Ledger, miner: Pub, b: Block)
    requires ChainOk(c, s.chain) && |s.chain| < 0x1_0000_0000
    requires Successor(c, s, miner, b)
    ensures Linked(c, s.chain + [b], |s.chain|)
  {
    var n := |s.chain|;
    IndexIs(c, s.chain, n - 1);
    assert (s.chain + [b])[..n] == s.chain;
    CoinbaseIsAccepted(c, miner, b.info.index);
  }

  lemma {:induction false} LinkedSnoc(c: Suite, chain: seq<Block>, b: Block)
    requires ChainOk(c, chain) && |chain| < 0x1_0000_0000 && Linked(c, chain + [b], |chain|)
    ensures ChainOk(c, chain + [b])
  {
    forall i | 0 < i < |chain|
      ensures Linked(c, chain + [b], i)
    {
      LinkedFurther(c, chain, b, i);
    }
  }

  lemma {:induction false} SuccessorIsLinked(c: Suite, s: Ledger, miner: Pub, b: Block)
    requires ChainOk(c, s.chain) && |s.chain| < 0x1_0000_0000
    requires Successor(c, s, miner, b)
    ensures ChainOk(c, s.chain + [b])
  {
    SuccessorIsNext(c, s, miner, b);
    LinkedSnoc(c, s.chain, b);
  }

  lemma {:induction false} StepKeepsChain(c: Suite, s: Ledger, step: Step)
    requires ChainOk(c, s.chain) && Enabled(c, s, step)
    ensures ChainOk(c, Next(c, s, step).chain)
    ensures Next(c, s, step).chain == s.chain
            || (&& step.Mine? && |Next(c, s, step).chain| == |s.chain| + 1
                && s.chain == Next(c, s, step).chain[..|s.chain|])
  {
    if step.Mine? && s.wallet.Some? {
      MineCommits(c, s, step.time);
      if |s.chain| < 0x1_0000_0000 {
        SuccessorIsLinked(c, s, s.wallet.value.pub, Mined(c, Candidate(c, s, s.wallet.value.pub, step.time)));
      } else {
        IndexIs(c, s.chain, |s.chain| - 1);
      }
    }
  }

  lemma {:induction false} StepKeepsWork(c: Suite, s: Ledger, step: Step)
    requires Worked(s.chain) && Enabled(c, s, step)
    ensures Worked(Next(c, s, step).chain)
  {
    if step.Mine? && s.wallet.Some? {
      MineCommits(c, s, step.time);
    }
  }

  /** Every chain a run produces is linked, indexed, sealed and worked for from the genesis block on. */
  lemma {:induction false} ReachedChain(c: Suite, steps: seq<Step>, s: Ledger)
    requires Reached(c, steps, s)
    ensures ChainOk(c, s.chain) && Worked(s.chain)
  {
    if steps != [] {
      var n := |steps| - 1;
      var before := RunFrom(c, Initial(), steps[..n]).value;
      ReachedChain(c, steps[..n], before);
      StepKeepsChain(c, before, steps[n]);
      StepKeepsWork(c, before, steps[n]);
    }
  }

  lemma {:induction false} TipSealed(c: Suite, s: Ledger)
    requires ChainOk(c, s.chain) && GenesisDigest(c)
    ensures Tip(s).info.index == |s.chain| - 1 && Sealed(c, Tip(s))
  {
    if |s.chain| > 1 {
      assert Linked(c, s.chain, |s.chain| - 1);
    }
  }

  /** The error branch of mine is dead: with a wallet, a mine command that ends appends a block, until the block
      index can grow no more, and then never does. */
  lemma {:induction false} MineNeverFails(c: Suite, steps: seq<Step>, s: Ledger, time: uint64)
    requires GenesisDigest(c) && Reached(c, steps, s)
    requires CanMine(c, s, time) && s.wallet.Some?
    ensures |MineStep(c, s, time).chain| == |s.chain| + 1 <==> |s.chain| < 0x1_0000_0000
    ensures |s.chain| < 0x1_0000_0000 ==>
      var b := Mined(c, Candidate(c, s, s.wallet.value.pub, time));
      && Successor(c, s, s.wallet.value.pub, b)
      && MineStep(c, s, time).chain == s.chain + [b]
      && MineStep(c, s, time).pool == []
  {
    ReachedChain(c, steps, s);
    TipSealed(c, s);
    MineCommits(c, s, time);
  }

  // ---- difficulty ----

  /** One adjustment, for a chain whose last index is its length less one. */
  lemma {:induction false} NextDifficultyMoves(chain: seq<Block>)
    requires chain != [] && chain[|chain| - 1].info.index == |chain| - 1
    requires chain[|chain| - 1].info.difficulty < 0xFFFF_FFFF
    ensures var last, next := chain[|chain| - 1].info, NextDifficulty(chain);
            && last.difficulty - 1 <= next <= last.difficulty + 1
            && (next != last.difficulty ==> last.index > 0 && last.index % ADJUSTMENT_INTERVAL == 0)
  {
  }

  lemma {:induction false} Fifths(n: nat)
    requires n > 0
    ensures (n - 1) / 5 <= n / 5
    ensures n % 5 == 0 ==> n / 5 == (n - 1) / 5 + 1
  {
  }

  lemma {:induction false} SmallFifths(n: nat)
    ensures n / 5 <= n
    ensures n <= 1284 ==> n / 5 <= 256
  {
  }

  /** Block i > 0 has difficulty at most (i - 1) / 5; so the proof-of-work test stays within the 32 bytes of a
      digest up to block 1285. */
  lemma {:induction false} DifficultyBound(c: Suite, chain: seq<Block>, i: nat)
    requires ChainOk(c, chain) && 0 < i < |chain|
    ensures chain[i].info.difficulty <= (i - 1) / ADJUSTMENT_INTERVAL
    ensures i <= 1285 ==> chain[i].info.difficulty <= 256
  {
    assert Linked(c, chain, i);
    var before := chain[..i];
    assert before[i - 1] == chain[i - 1];
    IndexIs(c, chain, i - 1);
    SmallFifths(i - 1);
    if i > 1 {
      DifficultyBound(c, chain, i - 1);
      SmallFifths(i - 2);
      NextDifficultyMoves(before);
      Fifths(i - 1);
    }
  }

  /** The difficulty changes by at most one from block to block, and only after a block whose index is a positive
      multiple of five. */
  lemma {:induction false} DifficultyMoves(c: Suite, chain: seq<Block>, i: nat)
    requires ChainOk(c, chain) && 0 < i < |chain|
    ensures var before, now := chain[i - 1].info.difficulty, chain[i].info.difficulty;
            && -1 <= now - before <= 1
            && (now != before ==> i - 1 > 0 && (i - 1) % ADJUSTMENT_INTERVAL == 0)
  {
    assert Linked(c, chain, i);
    assert chain[..i][i - 1] == chain[i - 1];
    IndexIs(c, chain, i - 1);
    if i > 1 {
      DifficultyBound(c, chain, i - 1);
      SmallFifths(i - 2);
    }
    NextDifficultyMoves(chain[..i]);
  }

  /** The time the last interval took, as the C code computes it: in 64 bits, so a clock that went back counts as
      a very long time. */
  function Elapsed(chain: seq<Block>): uint64
    requires |chain| >= ADJUSTMENT_INTERVAL
  {
    Wrap64(chain[|chain| - 1].info.timestamp - chain[|chain| - ADJUSTMENT_INTERVAL].info.timestamp)
  }

  /** The control has the right sign: of two chains that end alike, the one that took longer is not given the higher
      difficulty, and the next difficulty rises only when the interval was short and falls only when it was long. */
  lemma {:induction false} SlowerIsNotHarder(a: seq<Block>, b: seq<Block>)
    requires |a| == |b| >= ADJUSTMENT_INTERVAL
    requires a[|a| - 1].info.index == b[|b| - 1].info.index
    requires a[|a| - 1].info.difficulty == b[|b| - 1].info.difficulty < 0xFFFF_FFFF
    requires Elapsed(a) <= Elapsed(b)
    ensures NextDifficulty(b) <= NextDifficulty(a)
    ensures NextDifficulty(a) > a[|a| - 1].info.difficulty ==> Elapsed(a) < 2
    ensures NextDifficulty(b) < b[|b| - 1].info.difficulty ==> Elapsed(b) > 10
  {
    assert ADJUSTMENT_INTERVAL * GENERATION_INTERVAL == 5;
  }

  /** The candidate's difficulty is within the test's range while the chain has at most 1285 blocks. */
  lemma {:induction false} CandidateDifficulty(c: Suite, s: Ledger, miner: Pub, time: uint64)
    requires ChainOk(c, s.chain) && |s.chain| <= 1285
    ensures Candidate(c, s, miner, time).info.difficulty <= 256
  {
    var n := |s.chain|;
    IndexIs(c, s.chain, n - 1);
    if n > 1 {
      DifficultyBound(c, s.chain, n - 1);
      assert NextDifficulty(s.chain) <= s.chain[n - 1].info.difficulty + 1;
    }
  }

  // ---- the tip determines the chain ----

  /** Two blocks with the same header, data, transaction ids and digest. */
  ghost predicate SameBlock(a: Block, b: Block) {
    a.info == b.info && a.data == b.data && TxIds(TxList(a)) == TxIds(TxList(b)) && a.hash == b.hash
  }

  ghost predicate SameChain(a: seq<Block>, b: seq<Block>) {
    |a| == |b| && forall i :: 0 <= i < |a| ==> SameBlock(a[i], b[i])
  }

  /** A block of one chain and a block of the other that collide under SHA-256. */
  ghost predicate BlocksCollide(c: Suite, a: seq<Block>, b: seq<Block>) {
    exists i, j :: 0 <= i < |a| && 0 <= j < |b| && a[i].data.len <= DATA_MAX && b[j].data.len <= DATA_MAX
                   && Collision(c, PackBlock(a[i]), PackBlock(b[j]))
  }

  lemma {:induction false} PackInfoInjective(a: Info, b: Info)
    requires PackInfo(a) == PackInfo(b)
    ensures a == b
  {
    var x, y := PackInfo(a), PackInfo(b);
    assert x[..4] == LittleEndian(a.index, 4) && y[..4] == LittleEndian(b.index, 4);
    assert x[4..8] == LittleEndian(a.difficulty, 4) && y[4..8] == LittleEndian(b.difficulty, 4);
    assert x[8..16] == LittleEndian(a.timestamp, 8) && y[8..16] == LittleEndian(b.timestamp, 8);
    assert x[16..24] == LittleEndian(a.nonce, 8) && y[16..24] == LittleEndian(b.nonce, 8);
    assert x[24..] == a.prevHash && y[24..] == b.prevHash;
    RoundTrip32(a.index);
    RoundTrip32(b.index);
    RoundTrip32(a.difficulty);
    RoundTrip32(b.difficulty);
    RoundTrip64(a.timestamp);
    RoundTrip64(b.timestamp);
    RoundTrip64(a.nonce);
    RoundTrip64(b.nonce);
  }

  lemma {:induction false} PackBlockInjective(a: Block, b: Block)
    requires a.data.len == b.data.len <= DATA_MAX && PackBlock(a) == PackBlock(b)
    ensures a.info == b.info && TxIds(TxList(a)) == TxIds(TxList(b))
  {
    var x, y, n := PackBlock(a), PackBlock(b), 56 + a.data.len;
    assert x[..56] == PackInfo(a.info) && y[..56] == PackInfo(b.info);
    assert x[n..] == PackDigests(TxIds(TxList(a))) && y[n..] == PackDigests(TxIds(TxList(b)));
    PackInfoInjective(a.info, b.info);
    PackDigestsInjective(TxIds(TxList(a)), TxIds(TxList(b)));
  }

  /** The length of what is hashed tells the genesis block from all others. */
  lemma {:induction false} PackLength(c: Suite, chain: seq<Block>, i: nat)
    requires ChainOk(c, chain) && i < |chain|
    ensures chain[i].data.len <= DATA_MAX
    ensures |PackBlock(chain[i])| == 72 <==> i == 0
    ensures i > 0 ==> chain[i].data == NewData(Zeros(DATA_MAX)) && Sealed(c, chain[i])
  {
    if i > 0 {
      assert Linked(c, chain, i);
    } else {
      assert TxIds(TxList(Genesis())) == [];
    }
  }

  lemma {:induction false} TipsAgree(c: Suite, a: seq<Block>, b: seq<Block>)
    requires GenesisDigest(c) && ChainOk(c, a) && ChainOk(c, b)
    requires a[|a| - 1].hash == b[|b| - 1].hash
    requires !BlocksCollide(c, a, b)
    ensures SameBlock(a[|a| - 1], b[|b| - 1]) && (|a| == 1 <==> |b| == 1)
  {
    var i, j := |a| - 1, |b| - 1;
    PackLength(c, a, i);
    PackLength(c, b, j);
    assert !Collision(c, PackBlock(a[i]), PackBlock(b[j]));
    if i > 0 {
      PackBlockInjective(a[i], b[j]);
    }
  }

  /** What is left of two such chains, when their tips are the same block. */
  lemma {:induction false} TailsAgree(c: Suite, a: seq<Block>, b: seq<Block>)
    requires ChainOk(c, a) && ChainOk(c, b) && |a| > 1 && |b| > 1
    requires SameBlock(a[|a| - 1], b[|b| - 1])
    ensures ChainOk(c, a[..|a| - 1]) && ChainOk(c, b[..|b| - 1])
    ensures a[|a| - 2].hash == b[|b| - 2].hash
  {
    ChainPrefix(c, a, |a| - 1);
    ChainPrefix(c, b, |b| - 1);
    assert Linked(c, a, |a| - 1) && Linked(c, b, |b| - 1);
  }

  /** Chains with the same tip digest are the same, block for block, or two of their blocks are a collision. */
  lemma {:induction false} TipDeterminesChain(c: Suite, a: seq<Block>, b: seq<Block>)
    requires GenesisDigest(c) && ChainOk(c, a) && ChainOk(c, b)
    requires a[|a| - 1].hash == b[|b| - 1].hash
    ensures SameChain(a, b) || BlocksCollide(c, a, b)
    decreases |a|
  {
    if !BlocksCollide(c, a, b) {
      TipsAgree(c, a, b);
      if |a| > 1 {
        TailsAgree(c, a, b);
        PrefixesCollide(c, a, b, |a| - 1, |b| - 1);
        TipDeterminesChain(c, a[..|a| - 1], b[..|b| - 1]);
        SameChainSnoc(a, b);
      }
    }
  }

  lemma {:induction false} PrefixesCollide(c: Suite, a: seq<Block>, b: seq<Block>, i: nat, j: nat)
    requires i <= |a| && j <= |b|
    ensures BlocksCollide(c, a[..i], b[..j]) ==> BlocksCollide(c, a, b)
  {
    if BlocksCollide(c, a[..i], b[..j]) {
      var k, l :| 0 <= k < i && 0 <= l < j && a[..i][k].data.len <= DATA_MAX && b[..j][l].data.len <= DATA_MAX
                  && Collision(c, PackBlock(a[..i][k]), PackBlock(b[..j][l]));
      assert Collision(c, PackBlock(a[k]), PackBlock(b[l]));
    }
  }

  lemma {:induction false} SameChainSnoc(a: seq<Block>, b: seq<Block>)
    requires a != [] && b != [] && SameChain(a[..|a| - 1], b[..|b| - 1]) && SameBlock(a[|a| - 1], b[|b| - 1])
    ensures SameChain(a, b)
  {
    forall i | 0 <= i < |a|
      ensures SameBlock(a[i], b[i])
    {
      if i < |a| - 1 {
        assert SameBlock(a[..|a| - 1][i], b[..|b| - 1][i]);
      }
    }
  }

  /** In particular for the chains of two runs. */
  lemma {:induction false} RunsWithTheSameTip(c: Suite, steps: seq<Step>, s: Ledger, steps': seq<Step>, s': Ledger)
    requires GenesisDigest(c) && Reached(c, steps, s) && Reached(c, steps', s')
    requires s.chain != [] && s'.chain != [] && Tip(s).hash == Tip(s').hash
    ensures SameChain(s.chain, s'.chain) || BlocksCollide(c, s.chain, s'.chain)
  {
    ReachedChain(c, steps, s);
    ReachedChain(c, steps', s');
    TipDeterminesChain(c, s.chain, s'.chain);
  }
}
