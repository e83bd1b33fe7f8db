/** What the pool check compares, byte by byte: positions 0 to 3 of the three digests, and nothing else. */
module PoolCheck {
  import opened Bytes
  import opened Crypto
  import opened Transactions
  import opened Create

  /** The input and the entry agree at one position of all three digests. */
  predicate AgreeAt(i: TxIn, u: Unspent, p: nat)
    requires p < 32
  {
    i.blockHash[p] == u.blockHash[p] && i.txId[p] == u.txId[p] && i.txOutHash[p] == u.out.hash[p]
  }

  /** They agree at the first four. */
  predicate AgreeInFront(i: TxIn, u: Unspent) {
    AgreeAt(i, u, 0) && AgreeAt(i, u, 1) && AgreeAt(i, u, 2) && AgreeAt(i, u, 3)
  }

  lemma {:induction false} FrontOf(x: Digest, y: Digest)
    ensures x[..4] == y[..4] <==> x[0] == y[0] && x[1] == y[1] && x[2] == y[2] && x[3] == y[3]
  {
    assert x[..4] == [x[0], x[1], x[2], x[3]] && y[..4] == [y[0], y[1], y[2], y[3]];
  }

  lemma {:induction false} MatchByBytes(i: TxIn, u: Unspent)
    ensures PrefixMatch(InRef(i), EntryRef(u)) <==> AgreeInFront(i, u)
  {
    FrontOf(i.blockHash, u.blockHash);
    FrontOf(i.txId, u.txId);
    FrontOf(i.txOutHash, u.out.hash);
  }

  /** An entry counts as used exactly when some pooled input agrees with it at these positions. */
  lemma {:induction false} UsedByBytes(pool: seq<Tx>, u: Unspent)
    ensures UsedInPool(pool, u)
            <==> exists t, k :: 0 <= t < |pool| && 0 <= k < |pool[t].inputs| && AgreeInFront(pool[t].inputs[k], u)
  {
    if UsedInPool(pool, u) {
      var t :| 0 <= t < |pool| && UsedBy(pool[t], u);
      var k :| 0 <= k < |pool[t].inputs| && PrefixMatch(InRef(pool[t].inputs[k]), EntryRef(u));
      MatchByBytes(pool[t].inputs[k], u);
    }
    if exists t, k :: 0 <= t < |pool| && 0 <= k < |pool[t].inputs| && AgreeInFront(pool[t].inputs[k], u) {
      var t, k :| 0 <= t < |pool| && 0 <= k < |pool[t].inputs| && AgreeInFront(pool[t].inputs[k], u);
      MatchByBytes(pool[t].inputs[k], u);
      assert UsedBy(pool[t], u);
    }
  }

  /** At one of the first four positions one of the digests differs. */
  predicate DifferInFront(i: TxIn, u: Unspent) {
    exists p :: 0 <= p < 4 && !AgreeAt(i, u, p)
  }

  lemma {:induction false} SomewhereInFront(i: TxIn, u: Unspent)
    ensures DifferInFront(i, u) <==> !AgreeInFront(i, u)
  {
    if !AgreeInFront(i, u) {
      assert !AgreeAt(i, u, 0) || !AgreeAt(i, u, 1) || !AgreeAt(i, u, 2) || !AgreeAt(i, u, 3);
    }
  }

  /** So an owner's entry is selectable exactly when each pooled input differs from it somewhere in front. */
  lemma {:induction false} EligibleByBytes(pool: seq<Tx>, u: Unspent, pub: Pub)
    ensures Eligible(u, pub, pool)
            <==> u.out.pub == pub
                 && forall t, k :: 0 <= t < |pool| && 0 <= k < |pool[t].inputs| ==> DifferInFront(pool[t].inputs[k], u)
  {
    UsedByBytes(pool, u);
    forall t, k | 0 <= t < |pool| && 0 <= k < |pool[t].inputs|
      ensures DifferInFront(pool[t].inputs[k], u) <==> !AgreeInFront(pool[t].inputs[k], u)
    {
      SomewhereInFront(pool[t].inputs[k], u);
    }
  }

  /** Another entry of the same block is not used because of an input, when the transaction ids differ in front. */
  lemma {:induction false} OtherTransactionIsFree(tx: Tx, u: Unspent, p: nat)
    requires p < 4 && forall k :: 0 <= k < |tx.inputs| ==> tx.inputs[k].txId[p] != u.txId[p]
    ensures Eligible(u, u.out.pub, [tx])
  {
    forall t, k | 0 <= t < 1 && 0 <= k < |[tx][t].inputs|
      ensures DifferInFront([tx][t].inputs[k], u)
    {
      assert [tx][t] == tx && !AgreeAt(tx.inputs[k], u, p);
    }
    EligibleByBytes([tx], u, u.out.pub);
  }

  /** The inputs name the same in front, position by position. */
  ghost predicate SameFronts(a: Tx, b: Tx) {
    && |a.inputs| == |b.inputs|
    && forall k :: 0 <= k < |a.inputs| ==> SameFront(a.inputs[k], b.inputs[k])
  }

  predicate SameFront(i: TxIn, j: TxIn) {
    forall p :: 0 <= p < 4 ==>
      i.blockHash[p] == j.blockHash[p] && i.txId[p] == j.txId[p] && i.txOutHash[p] == j.txOutHash[p]
  }

  /** What stands behind the fourth byte of a pooled input's digests changes no answer. */
  lemma {:induction false} OnlyFrontsMatter(a: seq<Tx>, b: seq<Tx>, u: Unspent)
    requires |a| == |b| && forall t :: 0 <= t < |a| ==> SameFronts(a[t], b[t])
    ensures UsedInPool(a, u) <==> UsedInPool(b, u)
  {
    UsedByBytes(a, u);
    UsedByBytes(b, u);
    forall t, k | 0 <= t < |a| && 0 <= k < |a[t].inputs|
      ensures k < |b[t].inputs| && (AgreeInFront(a[t].inputs[k], u) <==> AgreeInFront(b[t].inputs[k], u))
    {
      assert SameFronts(a[t], b[t]) && SameFront(a[t].inputs[k], b[t].inputs[k]);
    }
    forall t, k | 0 <= t < |b| && 0 <= k < |b[t].inputs|
      ensures k < |a[t].inputs| && (AgreeInFront(a[t].inputs[k], u) <==> AgreeInFront(b[t].inputs[k], u))
    {
      assert SameFronts(a[t], b[t]) && SameFront(a[t].inputs[k], b[t].inputs[k]);
    }
  }
}
