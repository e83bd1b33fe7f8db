/** What the update of the list of unspent outputs removes and adds. */
module UnspentLaws {
  import opened Crypto
  import opened LinkedList
  import opened Transactions
  import opened UpdateUnspent

  function EntryHashes(us: seq<Unspent>): (r: seq<Digest>)
    ensures |r| == |us|
  {
    seq(|us|, k requires 0 <= k < |us| => us[k].out.hash)
  }

  /** The output digests of a list, with their multiplicities. */
  ghost function HashBag(us: seq<Unspent>): multiset<Digest> {
    multiset(EntryHashes(us))
  }

  /** All inputs, in order, of a list of transactions. */
  function AllInputs(txs: seq<Tx>): seq<TxIn> {
    if txs == [] then [] else AllInputs(txs[..|txs| - 1]) + txs[|txs| - 1].inputs
  }

  function AllOutputs(txs: seq<Tx>): seq<TxOut> {
    if txs == [] then [] else AllOutputs(txs[..|txs| - 1]) + txs[|txs| - 1].outputs
  }

  /** All entries, in order, that a block with these transactions creates. */
  function AllEntries(blockHash: Digest, txs: seq<Tx>): seq<Unspent> {
    if txs == [] then [] else AllEntries(blockHash, txs[..|txs| - 1]) + NewEntries(blockHash, txs[|txs| - 1])
  }

  // ---- one removal ----

  lemma {:induction false} FoundByHash(us: seq<Unspent>, h: Digest)
    ensures FirstIndex(us, HasHash(h)) < |us| <==> h in HashBag(us)
  {
    var i := FirstIndex(us, HasHash(h));
    if i < |us| {
      assert HasHash(h)(us[i]) && EntryHashes(us)[i] == h;
    }
  }

  lemma {:induction false} EntryHashesConcat(a: seq<Unspent>, b: seq<Unspent>)
    ensures EntryHashes(a + b) == EntryHashes(a) + EntryHashes(b)
  {
    var hashes := EntryHashes(a + b);
    forall k | 0 <= k < |a + b|
      ensures hashes[k] == (EntryHashes(a) + EntryHashes(b))[k]
    {
      assert (a + b)[k] == if k < |a| then a[k] else b[k - |a|];
    }
  }

  lemma {:induction false} HashesWithout(us: seq<Unspent>, i: nat)
    requires i < |us|
    ensures EntryHashes(us[..i] + us[i + 1..]) == EntryHashes(us)[..i] + EntryHashes(us)[i + 1..]
  {
    EntryHashesConcat(us[..i], us[i + 1..]);
    assert EntryHashes(us[..i]) == EntryHashes(us)[..i];
    assert EntryHashes(us[i + 1..]) == EntryHashes(us)[i + 1..];
  }

  lemma {:induction false} RemoveHash(us: seq<Unspent>, h: Digest)
    ensures HashBag(RemoveFirst(us, HasHash(h))) == HashBag(us) - multiset{h}
  {
    var i := FirstIndex(us, HasHash(h));
    var hashes := EntryHashes(us);
    FoundByHash(us, h);
    if i < |us| {
      assert HasHash(h)(us[i]) && hashes[i] == h;
      HashesWithout(us, i);
      RemoveAt(hashes, i);
    }
  }

  lemma {:induction false} RemoveAt<T>(s: seq<T>, i: nat)
    requires i < |s|
    ensures multiset(s[..i] + s[i + 1..]) == multiset(s) - multiset{s[i]}
  {
    assert s == s[..i] + [s[i]] + s[i + 1..];
  }

  // ---- the removals of a list of inputs ----

  lemma {:induction false} SpendBag(us: seq<Unspent>, hashes: seq<Digest>)
    ensures HashBag(Spend(us, hashes)) == HashBag(us) - multiset(hashes)
  {
    if hashes != [] {
      var n := |hashes| - 1;
      SpendBag(us, hashes[..n]);
      RemoveHash(Spend(us, hashes[..n]), hashes[n]);
      assert hashes == hashes[..n] + [hashes[n]];
    }
  }

  lemma {:induction false} SpendSnoc(us: seq<Unspent>, hashes: seq<Digest>, h: Digest)
    ensures Spend(us, hashes + [h]) == RemoveFirst(Spend(us, hashes), HasHash(h))
  {
    assert (hashes + [h])[..|hashes|] == hashes;
  }

  lemma {:induction false} SpendConcat(us: seq<Unspent>, a: seq<Digest>, b: seq<Digest>)
    ensures Spend(us, a + b) == Spend(Spend(us, a), b)
  {
    if b == [] {
      assert a + b == a;
    } else {
      var init, h := b[..|b| - 1], b[|b| - 1];
      SpendConcat(us, a, init);
      assert b == init + [h];
      assert a + b == (a + init) + [h];
      SpendSnoc(us, a + init, h);
      SpendSnoc(Spend(us, a), init, h);
    }
  }

  /** Removals that the front of a list can satisfy leave its rear alone. */
  lemma {:induction false} SpendInFront(front: seq<Unspent>, rear: seq<Unspent>, hashes: seq<Digest>)
    requires multiset(hashes) <= HashBag(front)
    ensures Spend(front + rear, hashes) == Spend(front, hashes) + rear
  {
    if hashes != [] {
      var n := |hashes| - 1;
      assert hashes == hashes[..n] + [hashes[n]];
      SpendInFront(front, rear, hashes[..n]);
      var left := Spend(front, hashes[..n]);
      SpendBag(front, hashes[..n]);
      FoundByHash(left, hashes[n]);
      RemoveFirstAppend(left, rear, HasHash(hashes[n]));
    }
  }

  lemma {:induction false} SpendKeeps(us: seq<Unspent>, hashes: seq<Digest>)
    ensures forall u <- Spend(us, hashes) :: u in us
  {
    if hashes != [] {
      SpendKeeps(us, hashes[..|hashes| - 1]);
    }
  }

  // ---- a block ----

  lemma {:induction false} InHashesConcat(a: seq<TxIn>, b: seq<TxIn>)
    ensures InHashes(a + b) == InHashes(a) + InHashes(b)
  {
  }

  /** When the list can satisfy every input of a block's payments, and nothing in it has the mark of the coinbase,
      the update is the removals from the old list followed by all the new entries: no payment of the block takes
      an entry the block itself creates. */
  lemma {:induction false} UpdateIsSpendThenAppend(us: seq<Unspent>, blockHash: Digest, txs: seq<Tx>)
    requires txs != [] && |txs[0].inputs| == 1 && txs[0].inputs[0].txOutHash !in HashBag(us)
    requires multiset(InHashes(AllInputs(txs[1..]))) <= HashBag(us)
    ensures ApplyTxs(us, blockHash, txs) == Spend(us, InHashes(AllInputs(txs[1..]))) + AllEntries(blockHash, txs)
  {
    var n := |txs| - 1;
    var init, tx := txs[..n], txs[n];
    if n == 0 {
      CoinbaseSpendsNothing(us, blockHash, tx);
      assert txs[1..] == [] && init == [];
      assert [] + NewEntries(blockHash, tx) == NewEntries(blockHash, tx);
    } else {
      var before, now := InHashes(AllInputs(init[1..])), InHashes(tx.inputs);
      assert txs[1..][..n - 1] == init[1..] && txs[1..][n - 1] == tx;
      InHashesConcat(AllInputs(init[1..]), tx.inputs);
      assert InHashes(AllInputs(txs[1..])) == before + now;
      assert multiset(before) <= multiset(before + now);
      UpdateIsSpendThenAppend(us, blockHash, init);
      SpendMore(us, before, now, AllEntries(blockHash, init));
      Associate(Spend(us, before + now), AllEntries(blockHash, init), NewEntries(blockHash, tx));
    }
  }

  lemma {:induction false} Associate<T>(a: seq<T>, b: seq<T>, c: seq<T>)
    ensures (a + b) + c == a + (b + c)
  {
  }

  lemma {:induction false} CoinbaseSpendsNothing(us: seq<Unspent>, blockHash: Digest, coinbase: Tx)
    requires |coinbase.inputs| == 1 && coinbase.inputs[0].txOutHash !in HashBag(us)
    ensures ApplyTx(us, blockHash, coinbase) == us + NewEntries(blockHash, coinbase)
  {
    var mark := coinbase.inputs[0].txOutHash;
    assert InHashes(coinbase.inputs) == [mark] && [mark][..0] == [];
    FoundByHash(us, mark);
    assert Spend(us, [mark]) == RemoveFirst(us, HasHash(mark)) == us;
  }

  lemma {:induction false} SpendMore(us: seq<Unspent>, before: seq<Digest>, now: seq<Digest>, rear: seq<Unspent>)
    requires multiset(before + now) <= HashBag(us)
    ensures Spend(Spend(us, before) + rear, now) == Spend(us, before + now) + rear
  {
    SpendBag(us, before);
    SpendInFront(Spend(us, before), rear, now);
    SpendConcat(us, before, now);
  }

  /** Whatever the state, an update only removes old entries and adds the block's own. */
  lemma {:induction false} UpdateElements(us: seq<Unspent>, blockHash: Digest, txs: seq<Tx>)
    ensures forall u <- ApplyTxs(us, blockHash, txs) :: u in us || u in AllEntries(blockHash, txs)
  {
    if txs != [] {
      var n := |txs| - 1;
      UpdateElements(us, blockHash, txs[..n]);
      SpendKeeps(ApplyTxs(us, blockHash, txs[..n]), InHashes(txs[n].inputs));
    }
  }

  // ---- from references to digests ----

  function RefHashes(refs: seq<Ref>): (r: seq<Digest>)
    ensures |r| == |refs|
  {
    seq(|refs|, k requires 0 <= k < |refs| => refs[k].outHash)
  }

  lemma {:induction false} CancelOne<T>(a: multiset<T>, b: multiset<T>, x: T)
    requires a + multiset{x} <= b + multiset{x}
    ensures a <= b
  {
    forall y | y in a
      ensures a[y] <= b[y]
    {
      assert (a + multiset{x})[y] <= (b + multiset{x})[y];
    }
  }

  lemma {:induction false} DropRef(refs: seq<Ref>, j: nat)
    requires j < |refs|
    ensures var rest := refs[..j] + refs[j + 1..];
            && multiset(refs) == multiset(rest) + multiset{refs[j]}
            && multiset(RefHashes(refs)) == multiset(RefHashes(rest)) + multiset{refs[j].outHash}
  {
    var hs := RefHashes(refs);
    assert refs == refs[..j] + [refs[j]] + refs[j + 1..];
    assert hs == hs[..j] + [hs[j]] + hs[j + 1..];
    assert RefHashes(refs[..j] + refs[j + 1..]) == hs[..j] + hs[j + 1..];
  }

  lemma {:induction false} RefsGiveHashes(a: seq<Ref>, b: seq<Ref>)
    requires multiset(a) <= multiset(b)
    ensures multiset(RefHashes(a)) <= multiset(RefHashes(b))
  {
    if a != [] {
      var n := |a| - 1;
      DropRef(a, n);
      assert a[..n] + a[n + 1..] == a[..n];
      assert a[n] in multiset(b);
      var j :| 0 <= j < |b| && b[j] == a[n];
      DropRef(b, j);
      CancelOne(multiset(a[..n]), multiset(b[..j] + b[j + 1..]), a[n]);
      RefsGiveHashes(a[..n], b[..j] + b[j + 1..]);
    }
  }

  /** Inputs that name entries of a list, each no more often than it is there, can be removed from it. */
  lemma {:induction false} NamedCanBeSpent(ins: seq<TxIn>, us: seq<Unspent>)
    requires multiset(InRefs(ins)) <= multiset(EntryRefs(us))
    ensures multiset(InHashes(ins)) <= HashBag(us)
  {
    RefsGiveHashes(InRefs(ins), EntryRefs(us));
    assert RefHashes(InRefs(ins)) == InHashes(ins);
    assert RefHashes(EntryRefs(us)) == EntryHashes(us);
  }
}
