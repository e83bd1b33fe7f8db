/** Coin selection, signing, and the creation of a transaction. */
module Create {
  import opened Bytes
  import opened Crypto
  import opened LinkedList
  import opened Transactions
  import opened UpdateUnspent

  // ---- which entries the pool already uses ----

  /** The comparison is of the first four bytes of each digest only. */
  predicate PrefixMatch(r: Ref, e: Ref) {
    r.blockHash[..4] == e.blockHash[..4] && r.txId[..4] == e.txId[..4] && r.outHash[..4] == e.outHash[..4]
  }

  predicate UsedBy(tx: Tx, u: Unspent) {
    exists k :: 0 <= k < |tx.inputs| && PrefixMatch(InRef(tx.inputs[k]), EntryRef(u))
  }

  predicate UsedInPool(pool: seq<Tx>, u: Unspent) {
    exists t :: 0 <= t < |pool| && UsedBy(pool[t], u)
  }

  predicate Eligible(u: Unspent, pub: Pub, pool: seq<Tx>) {
    u.out.pub == pub && !UsedInPool(pool, u)
  }

  method CheckUnspent(tx: Tx, u: Unspent) returns (used: bool)
    ensures used <==> UsedBy(tx, u)
  {
    for i := 0 to |tx.inputs|
      invariant forall k :: 0 <= k < i ==> !PrefixMatch(InRef(tx.inputs[k]), EntryRef(u))
    {
      var input := tx.inputs[i];
      if && input.blockHash[..4] == u.blockHash[..4]
         && input.txId[..4] == u.txId[..4]
         && input.txOutHash[..4] == u.out.hash[..4] {
        assert PrefixMatch(InRef(tx.inputs[i]), EntryRef(u));
        return true;
      }
    }
    return false;
  }

  method CheckPool(pool: seq<Tx>, u: Unspent) returns (used: bool)
    ensures used <==> UsedInPool(pool, u)
  {
    for i := 0 to |pool|
      invariant forall t :: 0 <= t < i ==> !UsedBy(pool[t], u)
    {
      var hit := CheckUnspent(pool[i], u);
      if hit {
        return true;
      }
    }
    return false;
  }

  // ---- selection ----

  function EligibleOf(us: seq<Unspent>, pub: Pub, pool: seq<Tx>): seq<Unspent> {
    if us == [] then []
    else
      var n := |us| - 1;
      EligibleOf(us[..n], pub, pool) + (if Eligible(us[n], pub, pool) then [us[n]] else [])
  }

  /** What the eligible entries among the first k are worth. */
  function EligibleTotal(us: seq<Unspent>, pub: Pub, pool: seq<Tx>, k: nat): nat
    requires k <= |us|
  {
    Total(Outs(EligibleOf(us[..k], pub, pool)))
  }

  /** The 32-bit running total after k entries reaches the amount. */
  predicate Enough(us: seq<Unspent>, pub: Pub, pool: seq<Tx>, amount: uint32, k: nat)
    requires k <= |us|
  {
    Wrap32(EligibleTotal(us, pub, pool, k)) >= amount
  }

  /** How many entries the selection visits, when it has visited j. */
  function Cut(us: seq<Unspent>, pub: Pub, pool: seq<Tx>, amount: uint32, j: nat): (k: nat)
    requires j <= |us|
    ensures j <= k <= |us|
    decreases |us| - j
  {
    if j == |us| then j
    else if Enough(us, pub, pool, amount, j + 1) then j + 1
    else Cut(us, pub, pool, amount, j + 1)
  }

  /** It visits at least one entry if there is one, and stops after the first that makes the total enough. */
  lemma {:induction false} CutIsFirst(us: seq<Unspent>, pub: Pub, pool: seq<Tx>, amount: uint32, j: nat)
    requires j <= |us|
    ensures var k := Cut(us, pub, pool, amount, j);
            && (forall m :: j < m < k ==> !Enough(us, pub, pool, amount, m))
            && (k == j ==> j == |us|)
            && (k < |us| ==> Enough(us, pub, pool, amount, k))
    decreases |us| - j
  {
    if j < |us| && !Enough(us, pub, pool, amount, j + 1) {
      CutIsFirst(us, pub, pool, amount, j + 1);
    }
  }

  function Inputs(us: seq<Unspent>): (r: seq<TxIn>)
    ensures |r| == |us|
  {
    seq(|us|, k requires 0 <= k < |us| => TxInCreate(us[k]))
  }

  lemma {:induction false} SelectStep(us: seq<Unspent>, pub: Pub, pool: seq<Tx>, k: nat)
    requires k < |us|
    ensures EligibleOf(us[..k + 1], pub, pool)
            == EligibleOf(us[..k], pub, pool) + (if Eligible(us[k], pub, pool) then [us[k]] else [])
    ensures EligibleTotal(us, pub, pool, k + 1)
            == EligibleTotal(us, pub, pool, k) + (if Eligible(us[k], pub, pool) then us[k].out.amount else 0)
  {
    assert us[..k + 1][..k] == us[..k];
    var chosen := EligibleOf(us[..k], pub, pool);
    if Eligible(us[k], pub, pool) {
      var outs := Outs(chosen + [us[k]]);
      assert outs[..|chosen|] == Outs(chosen);
    } else {
      assert chosen + [] == chosen;
    }
  }

  /** The state of the selection after k entries. */
  predicate Selected(us: seq<Unspent>, pub: Pub, pool: seq<Tx>, k: nat, ins: seq<TxIn>, total: uint32)
    requires k <= |us|
  {
    ins == Inputs(EligibleOf(us[..k], pub, pool)) && total == Wrap32(EligibleTotal(us, pub, pool, k))
  }

  lemma {:induction false} SelectRun(us: seq<Unspent>, pub: Pub, pool: seq<Tx>, k: nat, ins: seq<TxIn>, total: uint32)
    requires k < |us| && Selected(us, pub, pool, k, ins, total)
    ensures if Eligible(us[k], pub, pool)
            then Selected(us, pub, pool, k + 1, ins + [TxInCreate(us[k])], Wrap32(total + us[k].out.amount))
            else Selected(us, pub, pool, k + 1, ins, total)
  {
    SelectStep(us, pub, pool, k);
    var chosen := EligibleOf(us[..k], pub, pool);
    if Eligible(us[k], pub, pool) {
      assert Inputs(chosen + [us[k]]) == Inputs(chosen) + [TxInCreate(us[k])];
    } else {
      assert chosen + [] == chosen;
    }
  }

  /** select_unspent_in, on the selection made so far. */
  method SelectUnspentIn(u: Unspent, pub: Pub, pool: seq<Tx>, ins: seq<TxIn>, amount: uint32)
    returns (ins': seq<TxIn>, amount': uint32)
    ensures ins' == if Eligible(u, pub, pool) then ins + [TxInCreate(u)] else ins
    ensures amount' == if Eligible(u, pub, pool) then Wrap32(amount + u.out.amount) else amount
  {
    ins', amount' := ins, amount;
    if u.out.pub == pub {
      var used := CheckPool(pool, u);
      if !used {
        ins' := ins + [TxInCreate(u)];
        amount' := Wrap32(amount + u.out.amount);
      }
    }
  }

  /** One round of the selection loop. */
  method SelectOne(us: seq<Unspent>, pub: Pub, pool: seq<Tx>, amount: uint32, k: nat, ins: seq<TxIn>, total: uint32)
    returns (ins': seq<TxIn>, total': uint32, done: bool)
    requires k < |us| && Selected(us, pub, pool, k, ins, total)
    ensures Selected(us, pub, pool, k + 1, ins', total')
    ensures done <==> Enough(us, pub, pool, amount, k + 1)
  {
    SelectRun(us, pub, pool, k, ins, total);
    ins', total' := SelectUnspentIn(us[k], pub, pool, ins, total);
    done := total' >= amount;
  }

  method Select(us: seq<Unspent>, pub: Pub, pool: seq<Tx>, amount: uint32)
    returns (ins: seq<TxIn>, total: uint32, k: nat)
    ensures k == Cut(us, pub, pool, amount, 0)
    ensures Selected(us, pub, pool, k, ins, total)
  {
    ins, total, k := [], 0, 0;
    var done := false;
    while k < |us| && !done
      invariant k <= |us|
      invariant Cut(us, pub, pool, amount, 0) == if done then k else Cut(us, pub, pool, amount, k)
      invariant Selected(us, pub, pool, k, ins, total)
    {
      ins, total, done := SelectOne(us, pub, pool, amount, k, ins, total);
      k := k + 1;
    }
  }

  // ---- outputs ----

  /** The outputs of a payment: the amount to the receiver, and what is left back to the sender. */
  function SendAmount(c: Suite, sender: Pub, receiver: Pub, amount: uint32, total: uint32): Option<seq<TxOut>> {
    var remaining := Wrap32(total - amount);
    var first := TxOutCreate(c, amount, receiver);
    if first.None? then None
    else if remaining == 0 then Some([first.value])
    else
      var second := TxOutCreate(c, remaining, sender);
      if second.None? then None else Some([first.value, second.value])
  }

  // ---- signing ----

  /** The entry is looked up by output digest alone; None when there is none, it is not the sender's, or ECDSA fails. */
  function SignInput(c: Suite, i: TxIn, id: Digest, key: EcKey, us: seq<Unspent>, n: nat): Option<TxIn> {
    var u := First(us, HasHash(i.txOutHash));
    if u.None? || key.pub != u.value.out.pub then None
    else
      var s := c.sign(key.secret, id, n);
      if s.None? then None else Some(i.(sig := s.value))
  }

  /** Signs the inputs from the k-th on, in place and in order; the first failure ends it. */
  function SignFrom(c: Suite, ins: seq<TxIn>, k: nat, id: Digest, key: EcKey, us: seq<Unspent>, n: nat): (r: seq<TxIn>)
    ensures |r| == |ins|
    decreases |ins| - k
  {
    if k >= |ins| then ins
    else
      var s := SignInput(c, ins[k], id, key, us, n + k);
      if s.None? then ins else SignFrom(c, ins[k := s.value], k + 1, id, key, us, n)
  }

  method TxInSign(c: Suite, i: TxIn, id: Digest, key: EcKey, us: seq<Unspent>, n: nat) returns (r: Option<TxIn>)
    ensures r == SignInput(c, i, id, key, us, n)
  {
    var index := 0;
    while index < |us| && us[index].out.hash != i.txOutHash
      invariant index <= FirstIndex(us, HasHash(i.txOutHash))
    {
      index := index + 1;
    }
    if index == |us| {
      return None;
    }
    assert index == FirstIndex(us, HasHash(i.txOutHash));
    if key.pub != us[index].out.pub {
      return None;
    }
    var s := c.sign(key.secret, id, n);
    if s.None? {
      return None;
    }
    return Some(i.(sig := s.value));
  }

  method SignAll(c: Suite, ins: seq<TxIn>, id: Digest, key: EcKey, us: seq<Unspent>, n: nat) returns (r: seq<TxIn>)
    ensures r == SignFrom(c, ins, 0, id, key, us, n)
  {
    r := ins;
    var k := 0;
    while k < |r|
      invariant SignFrom(c, r, k, id, key, us, n) == SignFrom(c, ins, 0, id, key, us, n)
    {
      var s := TxInSign(c, r[k], id, key, us, n + k);
      if s.None? {
        return;
      }
      r := r[k := s.value];
      k := k + 1;
    }
  }

  // ---- transactions ----

  function UnsignedId(c: Suite, ins: seq<TxIn>, outs: seq<TxOut>): Digest {
    TxHash(c, Tx(Zeros(32), ins, outs))
  }

  /** The entries a created transaction takes. */
  function Taken(key: EcKey, amount: uint32, us: seq<Unspent>, pool: seq<Tx>): seq<Unspent> {
    EligibleOf(us[..Cut(us, key.pub, pool, amount, 0)], key.pub, pool)
  }

  function NewTransaction(c: Suite, sender: Option<EcKey>, receiver: Option<Pub>, amount: uint32,
                          us: seq<Unspent>, pool: seq<Tx>, n: nat): Option<Tx>
  {
    if sender.None? || receiver.None? then None
    else
      var key := sender.value;
      var taken := Taken(key, amount, us, pool);
      var ins, total := Inputs(taken), Wrap32(Total(Outs(taken)));
      if total < amount then None
      else
        var outs := SendAmount(c, key.pub, receiver.value, amount, total);
        if outs.None? then None
        else
          var id := UnsignedId(c, ins, outs.value);
          Some(Tx(id, SignFrom(c, ins, 0, id, key, us, n), outs.value))
  }

  method TransactionCreate(c: Suite, sender: Option<EcKey>, receiver: Option<Pub>, amount: uint32,
                           us: seq<Unspent>, pool: seq<Tx>, n: nat) returns (r: Option<Tx>)
    ensures r == NewTransaction(c, sender, receiver, amount, us, pool, n)
  {
    if sender.None? || receiver.None? {
      return None;
    }
    var key := sender.value;
    var ins, total, k := Select(us, key.pub, pool, amount);
    if total < amount {
      return None;
    }
    var outs := SendAmount(c, key.pub, receiver.value, amount, total);
    if outs.None? {
      return None;
    }
    var id := TransactionHash(c, Tx(Zeros(32), ins, outs.value));
    var signed := SignAll(c, ins, id.value, key, us, n);
    return Some(Tx(id.value, signed, outs.value));
  }
}
