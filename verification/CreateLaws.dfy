/** What a created transaction is: exactly the eligible entries it takes, the outputs it makes, and that
    validation accepts it. */
module CreateLaws {
  import opened Bytes
  import opened Crypto
  import opened LinkedList
  import opened Transactions
  import opened UpdateUnspent
  import opened Validity
  import opened Create

  /** Entries with the same output digest hold the same output: no SHA-256 collision among them. */
  ghost predicate Clean(us: seq<Unspent>) {
    forall i, j :: 0 <= i < |us| && 0 <= j < |us| && us[i].out.hash == us[j].out.hash ==> us[i].out == us[j].out
  }

  lemma {:induction false} CleanPart(us: seq<Unspent>, part: seq<Unspent>)
    requires Clean(us) && forall m :: 0 <= m < |part| ==> part[m] in us
    ensures Clean(part)
  {
    forall m, n | 0 <= m < |part| && 0 <= n < |part| && part[m].out.hash == part[n].out.hash
      ensures part[m].out == part[n].out
    {
      var x :| 0 <= x < |us| && us[x] == part[m];
      var y :| 0 <= y < |us| && us[y] == part[n];
      assert us[x].out.hash == us[y].out.hash;
    }
  }

  lemma {:induction false} SignKeepsRefs(c: Suite, ins: seq<TxIn>, k: nat, id: Digest, key: EcKey, us: seq<Unspent>,
                                         n: nat)
    ensures InRefs(SignFrom(c, ins, k, id, key, us, n)) == InRefs(ins)
    decreases |ins| - k
  {
    if k < |ins| {
      var s := SignInput(c, ins[k], id, key, us, n + k);
      if s.Some? {
        SignKeepsRefs(c, ins[k := s.value], k + 1, id, key, us, n);
        assert InRefs(ins[k := s.value]) == InRefs(ins);
      }
    }
  }

  lemma {:induction false} EligibleElements(us: seq<Unspent>, pub: Pub, pool: seq<Tx>)
    ensures forall u <- EligibleOf(us, pub, pool) :: u in us && Eligible(u, pub, pool)
  {
    if us != [] {
      EligibleElements(us[..|us| - 1], pub, pool);
    }
  }

  lemma {:induction false} InputRefs(us: seq<Unspent>)
    ensures InRefs(Inputs(us)) == EntryRefs(us)
  {
  }

  lemma {:induction false} SendAmountLaw(c: Suite, sender: Pub, receiver: Pub, amount: uint32, total: uint32)
    requires total >= amount
    ensures var r := SendAmount(c, sender, receiver, amount, total);
            && (r.None? <==> amount == 0)
            && (r.Some? ==>
                  && 1 <= |r.value| <= 2 && (|r.value| == 2 <==> total > amount)
                  && Total(r.value) == total
                  && (forall o <- r.value :: OutOk(c, o))
                  && r.value[0].amount == amount && r.value[0].pub == receiver
                  && (|r.value| == 2 ==> r.value[1].pub == sender))
  {
    var r := SendAmount(c, sender, receiver, amount, total);
    if r.Some? {
      var outs := r.value;
      assert Total(outs[..0]) == 0;
      TotalTake(outs, 0);
      if |outs| == 2 {
        TotalTake(outs, 1);
        assert outs[..2] == outs;
      } else {
        assert outs[..1] == outs;
      }
    }
  }

  /** The transaction `tx` spends the entries `taken`: it names them in order, is identified by its digest, pays the
      amount to the receiver and exactly what is left, when something is left, to the sender. */
  ghost predicate Pays(c: Suite, tx: Tx, taken: seq<Unspent>, sender: Pub, receiver: Pub, amount: uint32) {
    && InRefs(tx.inputs) == EntryRefs(taken)
    && tx.id == TxHash(c, tx)
    && 1 <= |tx.outputs| <= 2
    && (forall o <- tx.outputs :: OutOk(c, o))
    && tx.outputs[0].amount == amount && tx.outputs[0].pub == receiver
    && (|tx.outputs| == 2 ==> tx.outputs[1].pub == sender)
    && Total(tx.outputs) == Wrap32(Total(Outs(taken)))
  }

  lemma {:induction false} CreatedPays(c: Suite, key: EcKey, receiver: Pub, amount: uint32, us: seq<Unspent>,
                                       pool: seq<Tx>, n: nat)
    requires NewTransaction(c, Some(key), Some(receiver), amount, us, pool, n).Some?
    ensures var tx := NewTransaction(c, Some(key), Some(receiver), amount, us, pool, n).value;
            Pays(c, tx, Taken(key, amount, us, pool), key.pub, receiver, amount)
  {
    var tx := NewTransaction(c, Some(key), Some(receiver), amount, us, pool, n).value;
    var taken := Taken(key, amount, us, pool);
    var total := Wrap32(Total(Outs(taken)));
    var ins := Inputs(taken);
    SendAmountLaw(c, key.pub, receiver, amount, total);
    assert tx.outputs == SendAmount(c, key.pub, receiver, amount, total).value;
    SignKeepsRefs(c, ins, 0, UnsignedId(c, ins, tx.outputs), key, us, n);
    InputRefs(taken);
  }

  lemma {:induction false} EligibleGrows(us: seq<Unspent>, pub: Pub, pool: seq<Tx>, j: nat, k: nat)
    requires j <= k <= |us|
    ensures EligibleTotal(us, pub, pool, j) <= EligibleTotal(us, pub, pool, k)
    decreases k - j
  {
    if j < k {
      SelectStep(us, pub, pool, k - 1);
      EligibleGrows(us, pub, pool, j, k - 1);
    }
  }

  /** With both keys present, creation fails exactly when the amount is zero or no prefix of the list is enough. */
  lemma {:induction false} CreateFails(c: Suite, key: EcKey, receiver: Pub, amount: uint32, us: seq<Unspent>,
                                       pool: seq<Tx>, n: nat)
    ensures NewTransaction(c, Some(key), Some(receiver), amount, us, pool, n).None?
            <==> amount == 0 || forall k :: 1 <= k <= |us| ==> !Enough(us, key.pub, pool, amount, k)
  {
    var k := Cut(us, key.pub, pool, amount, 0);
    CutIsFirst(us, key.pub, pool, amount, 0);
    if us == [] {
      assert EligibleTotal(us, key.pub, pool, 0) == 0;
    } else if Enough(us, key.pub, pool, amount, k) {
      assert 1 <= k <= |us|;
    } else {
      assert k == |us|;
    }
  }

  /** Below 2^32 the running total does not wrap, so the total is enough when the exact one is. */
  lemma {:induction false} EnoughIsExact(us: seq<Unspent>, pub: Pub, pool: seq<Tx>, amount: uint32, k: nat)
    requires k <= |us| && EligibleTotal(us, pub, pool, |us|) < 0x1_0000_0000
    ensures Enough(us, pub, pool, amount, k) <==> EligibleTotal(us, pub, pool, k) >= amount
    ensures EligibleTotal(us, pub, pool, k) <= EligibleTotal(us, pub, pool, |us|)
  {
    EligibleGrows(us, pub, pool, k, |us|);
  }

  /** While what the sender can spend fits 32 bits, creation fails exactly when the amount is zero or more than that. */
  lemma {:induction false} CreateFailsExactly(c: Suite, key: EcKey, receiver: Pub, amount: uint32,
                           us: seq<Unspent>, pool: seq<Tx>, n: nat)
    requires EligibleTotal(us, key.pub, pool, |us|) < 0x1_0000_0000
    ensures NewTransaction(c, Some(key), Some(receiver), amount, us, pool, n).None?
            <==> amount == 0 || EligibleTotal(us, key.pub, pool, |us|) < amount
  {
    CreateFails(c, key, receiver, amount, us, pool, n);
    forall k | 0 <= k <= |us|
      ensures Enough(us, key.pub, pool, amount, k) <==> EligibleTotal(us, key.pub, pool, k) >= amount
      ensures EligibleTotal(us, key.pub, pool, k) <= EligibleTotal(us, key.pub, pool, |us|)
    {
      EnoughIsExact(us, key.pub, pool, amount, k);
    }
    if us == [] {
      assert EligibleTotal(us, key.pub, pool, 0) == 0;
    }
  }

  /** The transaction spends the eligible entries of the first k, all of their value goes to its outputs, and no fewer
      entries are worth the amount. */
  ghost predicate TakesPrefix(tx: Tx, us: seq<Unspent>, pub: Pub, pool: seq<Tx>, amount: uint32, k: nat)
    requires k <= |us|
  {
    && InRefs(tx.inputs) == EntryRefs(EligibleOf(us[..k], pub, pool))
    && Total(tx.outputs) == EligibleTotal(us, pub, pool, k) >= amount
    && forall j :: 0 <= j < k ==> EligibleTotal(us, pub, pool, j) < amount
  }

  lemma {:induction false} CutIsShortest(us: seq<Unspent>, pub: Pub, pool: seq<Tx>, amount: uint32, k: nat)
    requires EligibleTotal(us, pub, pool, |us|) < 0x1_0000_0000 && k <= |us| && amount > 0
    requires forall j :: 0 < j < k ==> !Enough(us, pub, pool, amount, j)
    ensures forall j :: 0 <= j < k ==> EligibleTotal(us, pub, pool, j) < amount
  {
    forall j | 0 <= j < k
      ensures EligibleTotal(us, pub, pool, j) < amount
    {
      if j > 0 {
        EnoughIsExact(us, pub, pool, amount, j);
      }
    }
  }

  /** What is created takes the eligible entries of the first k, and their 32-bit total is enough. */
  ghost predicate TakesCut(tx: Tx, us: seq<Unspent>, pub: Pub, pool: seq<Tx>, amount: uint32, k: nat)
    requires k <= |us|
  {
    && InRefs(tx.inputs) == EntryRefs(EligibleOf(us[..k], pub, pool))
    && Total(tx.outputs) == Wrap32(EligibleTotal(us, pub, pool, k)) >= amount > 0
  }

  lemma {:induction false} CreatedTakesCut(c: Suite, key: EcKey, receiver: Pub, amount: uint32,
                                           us: seq<Unspent>, pool: seq<Tx>, n: nat)
    requires NewTransaction(c, Some(key), Some(receiver), amount, us, pool, n).Some?
    ensures TakesCut(NewTransaction(c, Some(key), Some(receiver), amount, us, pool, n).value,
                     us, key.pub, pool, amount, Cut(us, key.pub, pool, amount, 0))
  {
    CreatedPays(c, key, receiver, amount, us, pool, n);
  }

  lemma {:induction false} CutIsPrefix(tx: Tx, us: seq<Unspent>, pub: Pub, pool: seq<Tx>, amount: uint32)
    requires EligibleTotal(us, pub, pool, |us|) < 0x1_0000_0000
    requires TakesCut(tx, us, pub, pool, amount, Cut(us, pub, pool, amount, 0))
    ensures TakesPrefix(tx, us, pub, pool, amount, Cut(us, pub, pool, amount, 0))
  {
    var k := Cut(us, pub, pool, amount, 0);
    CutIsFirst(us, pub, pool, amount, 0);
    EnoughIsExact(us, pub, pool, amount, k);
    CutIsShortest(us, pub, pool, amount, k);
  }

  /** And what it takes is the eligible entries of the shortest prefix of the list that is worth the amount. */
  lemma {:induction false} CreateTakesShortestPrefix(c: Suite, key: EcKey, receiver: Pub, amount: uint32,
                                                     us: seq<Unspent>, pool: seq<Tx>, n: nat)
    requires EligibleTotal(us, key.pub, pool, |us|) < 0x1_0000_0000
    requires NewTransaction(c, Some(key), Some(receiver), amount, us, pool, n).Some?
    ensures var tx := NewTransaction(c, Some(key), Some(receiver), amount, us, pool, n).value;
            exists k :: 0 <= k <= |us| && TakesPrefix(tx, us, key.pub, pool, amount, k)
  {
    CreatedTakesCut(c, key, receiver, amount, us, pool, n);
    CutIsPrefix(NewTransaction(c, Some(key), Some(receiver), amount, us, pool, n).value, us, key.pub, pool, amount);
  }

  // ---- acceptance ----

  /** Looking an input up by its full reference, or by its output digest alone, ends at the same output. */
  lemma {:induction false} LookupsAgree(us: seq<Unspent>, u: Unspent, i: TxIn)
    requires Clean(us) && u in us && InRef(i) == EntryRef(u)
    ensures First(us, NamedBy(i)).Some? && First(us, NamedBy(i)).value.out == u.out
    ensures First(us, HasHash(i.txOutHash)).Some? && First(us, HasHash(i.txOutHash)).value.out == u.out
  {
    var k :| 0 <= k < |us| && us[k] == u;
    assert NamedBy(i)(us[k]) && HasHash(i.txOutHash)(us[k]);
  }

  lemma {:induction false} UpdateSlices<T>(s: seq<T>, k: nat, x: T, r: seq<T>, m: nat)
    requires k < m <= |s| == |r|
    requires r[..k + 1] == s[k := x][..k + 1] && r[m..] == s[k := x][m..]
    ensures r[..k] == s[..k] && r[k] == x && r[m..] == s[m..]
  {
    assert r[..k + 1][k] == s[k := x][..k + 1][k];
    assert r[..k] == r[..k + 1][..k] && s[..k] == s[k := x][..k + 1][..k];
  }

  /** Signing the j-th input makes r of it. */
  ghost predicate SignsTo(c: Suite, i: TxIn, r: TxIn, id: Digest, key: EcKey, us: seq<Unspent>, n: nat, j: nat) {
    SignInput(c, i, id, key, us, n + j) == Some(r)
  }

  lemma {:induction false} SignedOneMore(c: Suite, ins: seq<TxIn>, k: nat, x: TxIn, r: seq<TxIn>, m: nat,
                                         id: Digest, key: EcKey, us: seq<Unspent>, n: nat)
    requires k < m <= |ins| == |r| && SignsTo(c, ins[k], x, id, key, us, n, k)
    requires var ins' := ins[k := x];
             && r[..k + 1] == ins'[..k + 1] && r[m..] == ins'[m..]
             && forall j :: k < j < m ==> SignsTo(c, ins'[j], r[j], id, key, us, n, j)
    ensures r[..k] == ins[..k] && r[m..] == ins[m..]
    ensures forall j :: k <= j < m ==> SignsTo(c, ins[j], r[j], id, key, us, n, j)
  {
    var ins' := ins[k := x];
    UpdateSlices(ins, k, x, r, m);
    forall j | k < j < m
      ensures SignsTo(c, ins[j], r[j], id, key, us, n, j)
    {
      assert SignsTo(c, ins'[j], r[j], id, key, us, n, j);
    }
  }

  /** What signing leaves: some inputs at the front signed, the rest as they were; and the first of the rest, if
      there is one, could not be signed. */
  lemma {:induction false} SigningStops(c: Suite, ins: seq<TxIn>, k: nat, id: Digest, key: EcKey, us: seq<Unspent>,
                                        n: nat)
    returns (m: nat)
    requires k <= |ins|
    ensures var r := SignFrom(c, ins, k, id, key, us, n);
            && k <= m <= |ins|
            && r[..k] == ins[..k] && r[m..] == ins[m..]
            && (forall j :: k <= j < m ==> SignsTo(c, ins[j], r[j], id, key, us, n, j))
            && (m < |ins| ==> SignInput(c, ins[m], id, key, us, n + m).None?)
    decreases |ins| - k
  {
    m := k;
    if k < |ins| {
      var s := SignInput(c, ins[k], id, key, us, n + k);
      if s.Some? {
        var ins' := ins[k := s.value];
        m := SigningStops(c, ins', k + 1, id, key, us, n);
        var r := SignFrom(c, ins', k + 1, id, key, us, n);
        assert SignFrom(c, ins, k, id, key, us, n) == r;
        SignedOneMore(c, ins, k, s.value, r, m, id, key, us, n);
      }
    }
  }

  /** The first entry with an input's output digest is at m. */
  predicate LookedUp(us: seq<Unspent>, i: TxIn, m: nat) {
    m < |us| && us[m].out.hash == i.txOutHash && forall k :: 0 <= k < m ==> us[k].out.hash != i.txOutHash
  }

  lemma {:induction false} LookedUpIsFirst(us: seq<Unspent>, i: TxIn, m: nat)
    requires LookedUp(us, i, m)
    ensures First(us, HasHash(i.txOutHash)) == Some(us[m])
  {
    var f := FirstIndex(us, HasHash(i.txOutHash));
    assert HasHash(i.txOutHash)(us[m]);
    assert f < |us| ==> us[f].out.hash == i.txOutHash;
  }

  /** An input is signed exactly when the first entry with its output digest is the signer's own and ECDSA succeeds;
      only the signature changes. */
  lemma {:induction false} InputSignedExactlyWhen(c: Suite, i: TxIn, id: Digest, key: EcKey, us: seq<Unspent>, n: nat)
    ensures var r := SignInput(c, i, id, key, us, n);
            && (r.Some? <==> && c.sign(key.secret, id, n).Some?
                             && exists m: nat :: LookedUp(us, i, m) && us[m].out.pub == key.pub)
            && (r.Some? ==> Some(r.value.sig) == c.sign(key.secret, id, n) && InRef(r.value) == InRef(i))
  {
    var f := FirstIndex(us, HasHash(i.txOutHash));
    if f < |us| {
      assert LookedUp(us, i, f);
    }
    forall m: nat | LookedUp(us, i, m)
      ensures First(us, HasHash(i.txOutHash)) == Some(us[m])
    {
      LookedUpIsFirst(us, i, m);
    }
  }

  /** An input that names another owner's output stays as it was, and so does every input behind it. */
  lemma {:induction false} ForeignInputStays(c: Suite, ins: seq<TxIn>, j: nat, id: Digest, key: EcKey,
                                             us: seq<Unspent>, n: nat, m: nat)
    requires j < |ins| && LookedUp(us, ins[j], m) && us[m].out.pub != key.pub
    ensures SignFrom(c, ins, 0, id, key, us, n)[j..] == ins[j..]
  {
    var r := SignFrom(c, ins, 0, id, key, us, n);
    var k := SigningStops(c, ins, 0, id, key, us, n);
    LookedUpIsFirst(us, ins[j], m);
    assert !SignsTo(c, ins[j], r[j], id, key, us, n, j);
    assert r[j..] == r[k..][j - k..] == ins[k..][j - k..] == ins[j..];
  }

  /** ECDSA succeeds for the j-th input. */
  predicate SignsOne(c: Suite, key: EcKey, id: Digest, n: nat, j: nat) {
    c.sign(key.secret, id, n + j).Some?
  }

  /** ECDSA succeeds for each of `count` inputs. */
  ghost predicate Signs(c: Suite, key: EcKey, id: Digest, count: nat, n: nat) {
    forall j :: 0 <= j < count ==> SignsOne(c, key, id, n, j)
  }

  /** A key that always signs, and whose signatures verify. */
  ghost predicate Signer(c: Suite, key: EcKey) {
    KeyPair(c, key) && forall msg: Digest, n: nat :: c.sign(key.secret, msg, n).Some?
  }

  lemma {:induction false} AlwaysSigned(c: Suite, key: EcKey, id: Digest, count: nat, n: nat)
    requires Signer(c, key)
    ensures Signs(c, key, id, count, n)
  {
  }

  /** An input of the sender's and what signing made of it name the same entry of the sender's. */
  ghost predicate Own(us: seq<Unspent>, key: EcKey, u: Unspent, i: TxIn, r: TxIn) {
    u in us && u.out.pub == key.pub && InRef(i) == InRef(r) == EntryRef(u)
  }

  lemma {:induction false} OwnSigned(c: Suite, u: Unspent, i: TxIn, r: TxIn, id: Digest, key: EcKey, us: seq<Unspent>,
                                     n: nat, j: nat)
    requires Clean(us) && KeyPair(c, key) && Own(us, key, u, i, r)
    ensures SignInput(c, i, id, key, us, n + j).Some? <==> SignsOne(c, key, id, n, j)
    ensures SignsTo(c, i, r, id, key, us, n, j) ==> InputOk(c, id, r, us)
    ensures InputOk(c, id, r, us) ==> Verifies(c, key.pub, id, r.sig)
    ensures NamedOut(us, r) == u.out
  {
    LookupsAgree(us, u, i);
    LookupsAgree(us, u, r);
  }

  /** Inputs that name the sender's entries are all accepted when ECDSA never failed, and only then if the empty
      signature is refused. */
  lemma {:induction false} OwnInputsOk(c: Suite, taken: seq<Unspent>, ins: seq<TxIn>, id: Digest, key: EcKey,
                                       us: seq<Unspent>, n: nat)
    requires Clean(us) && KeyPair(c, key) && |ins| == |taken|
    requires var r := SignFrom(c, ins, 0, id, key, us, n);
             forall j :: 0 <= j < |ins| ==> ins[j].sig == NO_SIGN && Own(us, key, taken[j], ins[j], r[j])
    ensures var r := SignFrom(c, ins, 0, id, key, us, n);
            && (Signs(c, key, id, |ins|, n) ==> InputsOk(c, id, r, us))
            && (RefusesUnsigned(c, key.pub) && InputsOk(c, id, r, us) ==> Signs(c, key, id, |ins|, n))
  {
    var r := SignFrom(c, ins, 0, id, key, us, n);
    var m := SigningStops(c, ins, 0, id, key, us, n);
    if m < |ins| {
      assert r[m] == r[m..][0] == ins[m..][0] == ins[m];
      OwnSigned(c, taken[m], ins[m], r[m], id, key, us, n, m);
      assert !SignsOne(c, key, id, n, m);
      assert RefusesUnsigned(c, key.pub) ==> !InputOk(c, id, r[m], us);
    } else {
      forall j | 0 <= j < |ins|
        ensures InputOk(c, id, r[j], us) && SignsOne(c, key, id, n, j)
      {
        assert SignsTo(c, ins[j], r[j], id, key, us, n, j);
        OwnSigned(c, taken[j], ins[j], r[j], id, key, us, n, j);
      }
    }
  }

  /** The inputs made from the sender's own entries, once signed, name those entries; they are all accepted when ECDSA
      never failed, and only then if the empty signature is refused. */
  lemma {:induction false} SignedInputsOk(c: Suite, taken: seq<Unspent>, id: Digest, key: EcKey, us: seq<Unspent>,
                                          n: nat)
    requires Clean(us) && KeyPair(c, key)
    requires forall u <- taken :: u in us && u.out.pub == key.pub
    ensures var ins := SignFrom(c, Inputs(taken), 0, id, key, us, n);
            && NamedOuts(us, ins) == Outs(taken)
            && (Signs(c, key, id, |taken|, n) ==> InputsOk(c, id, ins, us))
            && (RefusesUnsigned(c, key.pub) && InputsOk(c, id, ins, us) ==> Signs(c, key, id, |taken|, n))
  {
    var unsigned := Inputs(taken);
    var ins := SignFrom(c, unsigned, 0, id, key, us, n);
    SignKeepsRefs(c, unsigned, 0, id, key, us, n);
    forall j | 0 <= j < |taken|
      ensures Own(us, key, taken[j], unsigned[j], ins[j]) && NamedOut(us, ins[j]) == taken[j].out
    {
      assert InRef(ins[j]) == InRefs(ins)[j] == InRefs(unsigned)[j];
      assert taken[j] in taken;
      LookupsAgree(us, taken[j], ins[j]);
    }
    OwnInputsOk(c, taken, unsigned, id, key, us, n);
  }

  /** A transaction that creation returns is accepted on the same list when ECDSA signed every input; and if the empty
      signature is refused, exactly then. */
  lemma {:induction false} CreatedIsValid(c: Suite, key: EcKey, receiver: Pub, amount: uint32, us: seq<Unspent>,
                                          pool: seq<Tx>, n: nat)
    requires Clean(us) && KeyPair(c, key)
    requires NewTransaction(c, Some(key), Some(receiver), amount, us, pool, n).Some?
    ensures var tx := NewTransaction(c, Some(key), Some(receiver), amount, us, pool, n).value;
            && (Signs(c, key, tx.id, |tx.inputs|, n) ==> TxValid(c, tx, us))
            && (RefusesUnsigned(c, key.pub) && TxValid(c, tx, us) ==> Signs(c, key, tx.id, |tx.inputs|, n))
  {
    var tx := NewTransaction(c, Some(key), Some(receiver), amount, us, pool, n).value;
    var taken, k := Taken(key, amount, us, pool), Cut(us, key.pub, pool, amount, 0);
    CreatedPays(c, key, receiver, amount, us, pool, n);
    EligibleElements(us[..k], key.pub, pool);
    assert forall u <- us[..k] :: u in us;
    SignedInputsOk(c, taken, tx.id, key, us, n);
    assert tx.inputs == SignFrom(c, Inputs(taken), 0, tx.id, key, us, n);
    WrapTwice(Total(Outs(taken)));
  }

  lemma {:induction false} WrapTwice(n: nat)
    ensures Wrap32(Wrap32(n)) == Wrap32(n)
  {
  }
}
