/** When a transaction is valid against the list of unspent outputs. */
module Validity {
  import opened Bytes
  import opened Crypto
  import opened LinkedList
  import opened Transactions

  /** The entries an input names: block, transaction and output digest all agree. */
  function NamedBy(i: TxIn): Unspent -> bool {
    (u: Unspent) => EntryRef(u) == InRef(i)
  }

  const NO_OUT: TxOut := TxOut(0, Zeros(65), Zeros(32))

  /** The output of the first entry an input names. */
  function NamedOut(us: seq<Unspent>, i: TxIn): TxOut {
    var u := First(us, NamedBy(i));
    if u.Some? then u.value.out else NO_OUT
  }

  function NamedOuts(us: seq<Unspent>, ins: seq<TxIn>): (r: seq<TxOut>)
    ensures |r| == |ins|
  {
    seq(|ins|, k requires 0 <= k < |ins| => NamedOut(us, ins[k]))
  }

  /** The input names an entry, and its signature of the transaction id is by the owner of that entry. */
  predicate InputOk(c: Suite, id: Digest, i: TxIn, us: seq<Unspent>) {
    var u := First(us, NamedBy(i));
    u.Some? && Verifies(c, u.value.out.pub, id, i.sig)
  }

  predicate InputsOk(c: Suite, id: Digest, ins: seq<TxIn>, us: seq<Unspent>) {
    forall k :: 0 <= k < |ins| ==> InputOk(c, id, ins[k], us)
  }

  predicate TxValid(c: Suite, tx: Tx, us: seq<Unspent>) {
    && (tx.inputs != [] || tx.outputs != [])
    && tx.id == TxHash(c, tx)
    && InputsOk(c, tx.id, tx.inputs, us)
    && Wrap32(Total(NamedOuts(us, tx.inputs))) == Wrap32(Total(tx.outputs))
  }

  /** One step of a running sum in 32 bits. */
  lemma {:induction false} WrapStep(outs: seq<TxOut>, i: nat, sum: uint32)
    requires i < |outs| && sum == Wrap32(Total(outs[..i]))
    ensures Wrap32(sum + outs[i].amount) == Wrap32(Total(outs[..i + 1]))
  {
    TotalTake(outs, i);
  }

  /** The inner search of the validation, field by field. */
  method FindNamed(us: seq<Unspent>, input: TxIn) returns (j: nat)
    ensures j == FirstIndex(us, NamedBy(input))
  {
    j := 0;
    while j < |us| && (us[j].out.hash != input.txOutHash || us[j].txId != input.txId
                       || us[j].blockHash != input.blockHash)
      invariant j <= FirstIndex(us, NamedBy(input))
    {
      j := j + 1;
    }
  }

  /** The sum of the amounts as the C code forms it, in 32 bits. */
  method SumOutputs(outs: seq<TxOut>) returns (sum: uint32)
    ensures sum == Wrap32(Total(outs))
  {
    sum := 0;
    for i := 0 to |outs|
      invariant sum == Wrap32(Total(outs[..i]))
    {
      WrapStep(outs, i, sum);
      sum := Wrap32(sum + outs[i].amount);
    }
    assert outs[..|outs|] == outs;
  }

  /** One input: it must be found among the entries and verify; its amount is then to be added. */
  method ValidateInput(c: Suite, id: Digest, i: TxIn, us: seq<Unspent>) returns (ok: bool, amount: uint32)
    ensures ok <==> InputOk(c, id, i, us)
    ensures ok ==> amount == NamedOut(us, i).amount
  {
    var j := FindNamed(us, i);
    if j == |us| || !Verifies(c, us[j].out.pub, id, i.sig) {
      return false, 0;
    }
    return true, us[j].out.amount;
  }

  /** The state of the loop over the inputs after i of them. */
  predicate Validated(c: Suite, id: Digest, ins: seq<TxIn>, us: seq<Unspent>, i: nat, sum: uint32)
    requires i <= |ins|
  {
    InputsOk(c, id, ins[..i], us) && sum == Wrap32(Total(NamedOuts(us, ins)[..i]))
  }

  lemma {:induction false} ValidatedStep(c: Suite, id: Digest, ins: seq<TxIn>, us: seq<Unspent>, i: nat, sum: uint32)
    requires i < |ins| && Validated(c, id, ins, us, i, sum) && InputOk(c, id, ins[i], us)
    ensures Validated(c, id, ins, us, i + 1, Wrap32(sum + NamedOut(us, ins[i]).amount))
  {
    WrapStep(NamedOuts(us, ins), i, sum);
    assert ins[..i + 1] == ins[..i] + [ins[i]];
  }

  /** The loop over the inputs. */
  method ValidateInputs(c: Suite, id: Digest, ins: seq<TxIn>, us: seq<Unspent>) returns (ok: bool, sum: uint32)
    ensures ok <==> InputsOk(c, id, ins, us)
    ensures ok ==> sum == Wrap32(Total(NamedOuts(us, ins)))
  {
    sum := 0;
    for i := 0 to |ins|
      invariant Validated(c, id, ins, us, i, sum)
    {
      var found, amount := ValidateInput(c, id, ins[i], us);
      if !found {
        return false, sum;
      }
      ValidatedStep(c, id, ins, us, i, sum);
      sum := Wrap32(sum + amount);
    }
    assert ins[..|ins|] == ins && NamedOuts(us, ins)[..|ins|] == NamedOuts(us, ins);
    ok := true;
  }

  method TransactionIsValid(c: Suite, tx: Tx, us: seq<Unspent>) returns (ok: bool)
    ensures ok <==> TxValid(c, tx, us)
  {
    var hash := TransactionHash(c, tx);
    if hash.None? || tx.id != hash.value {
      return false;
    }
    var found, amountIn := ValidateInputs(c, tx.id, tx.inputs, us);
    if !found {
      return false;
    }
    var amountOut := SumOutputs(tx.outputs);
    return amountIn == amountOut;
  }
}
