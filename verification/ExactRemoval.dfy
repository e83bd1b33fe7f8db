/** Which entries an update removes. It looks at output digests only, and takes the first entry of each digest; these
    are exactly the entries the pool names while no entry of a sender clashes with another in its prefixes and list
    commands keep entries of the same digest in order. */
module ExactRemoval {
  import opened Bytes
  import opened Crypto
  import opened LinkedList
  import opened Transactions
  import opened UpdateUnspent
  import opened Create
  import opened CreateLaws
  import opened UnspentLaws
  import opened Blocks
  import opened Mining
  import opened Ledger
  import opened ChainLaws
  import opened Soundness
  import opened Conservation
  import opened Progress

  /** The references with a given output digest, in order. */
  function Class(h: Digest, refs: seq<Ref>): seq<Ref> {
    if refs == [] then []
    else
      var init, r := refs[..|refs| - 1], refs[|refs| - 1];
      Class(h, init) + (if r.outHash == h then [r] else [])
  }

  ghost predicate Distinct(refs: seq<Ref>) {
    forall i, j :: 0 <= i < j < |refs| ==> refs[i] != refs[j]
  }

  /** The comparison of prefixes takes entries for each other only if they have the same reference. */
  ghost predicate PrefixesTell(us: seq<Unspent>) {
    forall i, j :: 0 <= i < |us| && 0 <= j < |us| && PrefixMatch(EntryRef(us[i]), EntryRef(us[j]))
                   ==> EntryRef(us[i]) == EntryRef(us[j])
  }

  /** No entry can be taken for another by the comparison of prefixes. */
  ghost predicate PrefixFree(us: seq<Unspent>) {
    forall i, j :: 0 <= i < |us| && 0 <= j < |us| && i != j ==> !PrefixMatch(EntryRef(us[i]), EntryRef(us[j]))
  }

  /** No entry of the owner can be taken for another, or another for it, by the comparison of prefixes. */
  ghost predicate NoClash(us: seq<Unspent>, pub: Pub) {
    forall i, j :: 0 <= i < |us| && 0 <= j < |us| && i != j && us[j].out.pub == pub
                   ==> !PrefixMatch(EntryRef(us[i]), EntryRef(us[j]))
  }

  /** Each of the references stands in the list at most once. */
  ghost predicate Once(refs: seq<Ref>, all: seq<Ref>) {
    forall k :: 0 <= k < |refs| ==> multiset(all)[refs[k]] <= 1
  }

  /** Within each output digest, the inputs name the first entries of the list, in its order. */
  ghost predicate InOrder(refs: seq<Ref>, all: seq<Ref>) {
    forall h: Digest :: Class(h, refs) <= Class(h, all)
  }

  /** The entries named by one of the references. */
  function NamedIn(refs: seq<Ref>): Unspent -> bool {
    (u: Unspent) => EntryRef(u) in refs
  }

  // ---- classes ----

  lemma {:induction false} ClassConcat(h: Digest, a: seq<Ref>, b: seq<Ref>)
    ensures Class(h, a + b) == Class(h, a) + Class(h, b)
  {
    if b == [] {
      assert a + b == a;
    } else {
      var init, r := b[..|b| - 1], b[|b| - 1];
      ClassConcat(h, a, init);
      assert (a + b)[..|a + b| - 1] == a + init && (a + b)[|a + b| - 1] == r;
      Associate(Class(h, a), Class(h, init), if r.outHash == h then [r] else []);
    }
  }

  lemma {:induction false} ClassElements(h: Digest, refs: seq<Ref>)
    ensures forall r :: r in Class(h, refs) <==> r in refs && r.outHash == h
  {
    if refs != [] {
      var init, r := refs[..|refs| - 1], refs[|refs| - 1];
      ClassElements(h, init);
      assert refs == init + [r];
    }
  }

  lemma {:induction false} ClassDistinct(h: Digest, refs: seq<Ref>)
    requires Distinct(refs)
    ensures Distinct(Class(h, refs))
  {
    if refs != [] {
      var init, r := refs[..|refs| - 1], refs[|refs| - 1];
      ClassDistinct(h, init);
      ClassElements(h, init);
      assert r !in init;
    }
  }

  /** Where the k-th reference of a class stands in the list. */
  lemma {:induction false} ClassIndex(h: Digest, refs: seq<Ref>, k: nat) returns (y: nat)
    requires k < |Class(h, refs)|
    ensures y < |refs| && refs[y] == Class(h, refs)[k] && refs[y].outHash == h
    ensures Class(h, refs[..y]) == Class(h, refs)[..k]
  {
    var n := |refs| - 1;
    var init := refs[..n];
    if k < |Class(h, init)| {
      y := ClassIndex(h, init, k);
      assert init[..y] == refs[..y];
    } else {
      y := n;
    }
  }

  lemma {:induction false} ClassBag(h: Digest, refs: seq<Ref>, r: Ref)
    ensures multiset(Class(h, refs))[r] == if r.outHash == h then multiset(refs)[r] else 0
  {
    if refs != [] {
      var init, last := refs[..|refs| - 1], refs[|refs| - 1];
      ClassBag(h, init, r);
      assert refs == init + [last];
    }
  }

  // ---- what the removals take ----

  lemma {:induction false} CountTwo<T>(s: seq<T>, y: nat, z: nat)
    requires y < |s| && z < |s| && y != z
    ensures s[y] == s[z] ==> multiset(s)[s[y]] >= 2
  {
    var a, b := if y < z then y else z, if y < z then z else y;
    assert s == s[..a] + [s[a]] + s[a + 1..b] + [s[b]] + s[b + 1..];
  }

  /** The first entry of the digest is the one named, so it is the one removed. */
  lemma {:induction false} RemoveNamed(us: seq<Unspent>, refs: seq<Ref>, r: Ref, y: nat)
    requires y < |us| && EntryRef(us[y]) == r && r !in refs && multiset(EntryRefs(us))[r] <= 1
    requires forall z :: 0 <= z < y && us[z].out.hash == r.outHash ==> EntryRef(us[z]) in refs
    ensures RemoveFirst(Without(us, NamedIn(refs)), HasHash(r.outHash)) == Without(us, NamedIn(refs + [r]))
  {
    var a, b := us[..y], us[y + 1..];
    SplitWithout(us, refs, y);
    SplitWithout(us, refs + [r], y);
    var left := Without(a, NamedIn(refs));
    WithoutElements(a, NamedIn(refs));
    forall k | 0 <= k < |left|
      ensures left[k].out.hash != r.outHash
    {
      assert left[k] in left;
      var z :| 0 <= z < |a| && a[z] == left[k];
      assert us[z] == left[k];
    }
    var rest := Without(b, NamedIn(refs));
    RemoveFirstTakesTheFirst(left, us[y], rest, HasHash(r.outHash));
    forall z | 0 <= z < |us| && z != y
      ensures EntryRef(us[z]) != r
    {
      CountTwo(EntryRefs(us), y, z);
    }
    SameWithout(a, refs, r);
    SameWithout(b, refs, r);
  }

  lemma {:induction false} SplitWithout(us: seq<Unspent>, refs: seq<Ref>, y: nat)
    requires y < |us|
    ensures Without(us, NamedIn(refs))
            == if EntryRef(us[y]) in refs then Without(us[..y], NamedIn(refs)) + Without(us[y + 1..], NamedIn(refs))
               else Without(us[..y], NamedIn(refs)) + [us[y]] + Without(us[y + 1..], NamedIn(refs))
  {
    var front := us[..y + 1];
    assert us == front + us[y + 1..] && front[..y] == us[..y] && front[y] == us[y];
    WithoutAppend(front, us[y + 1..], NamedIn(refs));
  }

  lemma {:induction false} SameWithout(us: seq<Unspent>, refs: seq<Ref>, r: Ref)
    requires forall z :: 0 <= z < |us| ==> EntryRef(us[z]) != r
    ensures Without(us, NamedIn(refs + [r])) == Without(us, NamedIn(refs))
  {
    if us != [] {
      SameWithout(us[..|us| - 1], refs, r);
    }
  }

  /** Inputs in the list's order that each name one entry take exactly the entries they name. */
  lemma {:induction false} SpendTakesTheNamed(us: seq<Unspent>, ins: seq<TxIn>)
    requires Once(InRefs(ins), EntryRefs(us)) && InOrder(InRefs(ins), EntryRefs(us))
    ensures Spend(us, InHashes(ins)) == Without(us, NamedIn(InRefs(ins)))
  {
    if ins == [] {
      WithoutNone(us, NamedIn(InRefs(ins)));
    } else {
      var init, x := ins[..|ins| - 1], ins[|ins| - 1];
      var refs, r, all := InRefs(init), InRef(x), EntryRefs(us);
      assert InRefs(ins) == refs + [r];
      assert InHashes(ins) == InHashes(init) + [r.outHash];
      InOrderInit(refs, r, all);
      OnceSnoc(refs, r, all);
      SpendTakesTheNamed(us, init);
      SpendSnoc(us, InHashes(init), r.outHash);
      var y := NextOfClass(refs, r, all);
      forall z | 0 <= z < y && us[z].out.hash == r.outHash
        ensures EntryRef(us[z]) in refs
      {
        assert all[z] == EntryRef(us[z]);
      }
      RemoveNamed(us, refs, r, y);
    }
  }

  lemma {:induction false} InOrderInit(refs: seq<Ref>, r: Ref, all: seq<Ref>)
    requires InOrder(refs + [r], all)
    ensures InOrder(refs, all)
  {
    forall h: Digest
      ensures Class(h, refs) <= Class(h, all)
    {
      ClassConcat(h, refs, [r]);
      assert Class(h, refs + [r]) <= Class(h, all);
    }
  }

  lemma {:induction false} OnceSnoc(refs: seq<Ref>, r: Ref, all: seq<Ref>)
    ensures Once(refs + [r], all) <==> Once(refs, all) && multiset(all)[r] <= 1
  {
    var longer := refs + [r];
    assert longer[|refs|] == r && forall k :: 0 <= k < |refs| ==> longer[k] == refs[k];
  }

  lemma {:induction false} OnceConcat(a: seq<Ref>, b: seq<Ref>, all: seq<Ref>)
    requires Once(a, all) && Once(b, all)
    ensures Once(a + b, all)
  {
    forall k | 0 <= k < |a + b|
      ensures multiset(all)[(a + b)[k]] <= 1
    {
      assert if k < |a| then (a + b)[k] == a[k] else (a + b)[k] == b[k - |a|];
    }
  }

  /** The last input names the first entry of its digest that the inputs before it do not name. */
  lemma {:induction false} NextOfClass(refs: seq<Ref>, r: Ref, all: seq<Ref>) returns (y: nat)
    requires multiset(all)[r] <= 1 && InOrder(refs + [r], all)
    ensures y < |all| && all[y] == r && r !in refs
    ensures forall z :: 0 <= z < y && all[z].outHash == r.outHash ==> all[z] in refs
  {
    var h := r.outHash;
    var mine, whole := Class(h, refs), Class(h, all);
    assert [r][..0] == [];
    assert Class(h, [r]) == [r];
    ClassConcat(h, refs, [r]);
    assert mine + [r] <= whole;
    y := ClassIndex(h, all, |mine|);
    assert whole[|mine|] == r && whole[..|mine|] == mine;
    ClassElements(h, refs);
    ClassBag(h, all, r);
    forall k | 0 <= k < |mine|
      ensures mine[k] != r
    {
      CountTwo(whole, k, |mine|);
      assert whole[k] == mine[k];
    }
    ClassElements(h, all[..y]);
    forall z | 0 <= z < y && all[z].outHash == h
      ensures all[z] in refs
    {
      assert all[..y][z] == all[z];
    }
  }

  // ---- what the pool names ----

  lemma {:induction false} PrefixFreeIsDistinct(us: seq<Unspent>)
    requires PrefixFree(us)
    ensures Distinct(EntryRefs(us)) && PrefixesTell(us)
  {
    var refs := EntryRefs(us);
    forall i, j | 0 <= i < j < |refs|
      ensures refs[i] != refs[j]
    {
      assert refs[i] == EntryRef(us[i]) && refs[j] == EntryRef(us[j]);
      assert !PrefixMatch(EntryRef(us[i]), EntryRef(us[j]));
    }
  }

  /** Being free of clashes is two things: the references differ, and their prefixes tell them apart. */
  lemma {:induction false} PrefixFreeExactly(us: seq<Unspent>)
    ensures PrefixFree(us) <==> Distinct(EntryRefs(us)) && PrefixesTell(us)
  {
    if PrefixFree(us) {
      PrefixFreeIsDistinct(us);
    }
    if Distinct(EntryRefs(us)) && PrefixesTell(us) {
      var refs := EntryRefs(us);
      forall i, j | 0 <= i < |us| && 0 <= j < |us| && i != j
        ensures !PrefixMatch(EntryRef(us[i]), EntryRef(us[j]))
      {
        assert refs[i] == EntryRef(us[i]) && refs[j] == EntryRef(us[j]);
        assert if i < j then refs[i] != refs[j] else refs[j] != refs[i];
      }
    }
  }

  lemma {:induction false} InputInAll(pool: seq<Tx>, t: nat, k: nat)
    requires t < |pool| && k < |pool[t].inputs|
    ensures InRef(pool[t].inputs[k]) in InRefs(AllInputs(pool))
  {
    var init, tx := pool[..|pool| - 1], pool[|pool| - 1];
    InRefsConcat(AllInputs(init), tx.inputs);
    if t < |init| {
      assert init[t] == pool[t];
      InputInAll(init, t, k);
    } else {
      assert InRefs(tx.inputs)[k] == InRef(tx.inputs[k]);
    }
  }

  /** When prefixes tell an entry apart, the comparison of prefixes finds it exactly if it is named. */
  lemma {:induction false} UsedIsNamed(us: seq<Unspent>, pool: seq<Tx>, j: nat)
    requires PoolFits(pool, us) && j < |us|
    requires forall i :: 0 <= i < |us| && PrefixMatch(EntryRef(us[i]), EntryRef(us[j]))
                         ==> EntryRef(us[i]) == EntryRef(us[j])
    ensures UsedInPool(pool, us[j]) <==> EntryRef(us[j]) in InRefs(AllInputs(pool))
  {
    if EntryRef(us[j]) in InRefs(AllInputs(pool)) {
      NamedIsUsed(pool, us[j]);
    }
    if UsedInPool(pool, us[j]) {
      var t :| 0 <= t < |pool| && UsedBy(pool[t], us[j]);
      var k :| 0 <= k < |pool[t].inputs| && PrefixMatch(InRef(pool[t].inputs[k]), EntryRef(us[j]));
      InputInAll(pool, t, k);
      var r := InRef(pool[t].inputs[k]);
      assert r in multiset(InRefs(AllInputs(pool))) && r in multiset(EntryRefs(us));
      var x :| 0 <= x < |us| && EntryRefs(us)[x] == r;
      assert PrefixMatch(EntryRef(us[x]), EntryRef(us[j]));
    }
  }

  /** The pool check is exact for every pool that fits the list if and only if prefixes tell the entries apart. */
  lemma {:induction false} UsedIsNamedExactlyWhen(us: seq<Unspent>)
    ensures PrefixesTell(us)
            <==> forall pool: seq<Tx>, j: nat :: PoolFits(pool, us) && j < |us|
                   ==> (UsedInPool(pool, us[j]) <==> EntryRef(us[j]) in InRefs(AllInputs(pool)))
  {
    if PrefixesTell(us) {
      forall pool: seq<Tx>, j: nat | PoolFits(pool, us) && j < |us|
        ensures UsedInPool(pool, us[j]) <==> EntryRef(us[j]) in InRefs(AllInputs(pool))
      {
        UsedIsNamed(us, pool, j);
      }
    } else {
      var pool, j := ClashingPool(us);
    }
  }

  lemma {:induction false} ClashingPool(us: seq<Unspent>) returns (pool: seq<Tx>, j: nat)
    requires !PrefixesTell(us)
    ensures PoolFits(pool, us) && j < |us| && UsedInPool(pool, us[j]) && EntryRef(us[j]) !in InRefs(AllInputs(pool))
  {
    var i, k :| 0 <= i < |us| && 0 <= k < |us| && PrefixMatch(EntryRef(us[i]), EntryRef(us[k]))
                && EntryRef(us[i]) != EntryRef(us[k]);
    var tx := Tx(Zeros(32), [TxInCreate(us[i])], []);
    OneInputPool(us, i, tx);
    ClashIsUsed(us, tx, i, k);
    pool, j := [tx], k;
  }

  /** A pool of one transaction that names one entry. */
  lemma {:induction false} OneInputPool(us: seq<Unspent>, i: nat, tx: Tx)
    requires i < |us| && InRefs(tx.inputs) == [EntryRef(us[i])]
    ensures InRefs(AllInputs([tx])) == [EntryRef(us[i])] && PoolFits([tx], us)
  {
    assert AllInputs([tx]) == tx.inputs by {
      AllInputsSnoc([], tx);
      assert [] + [tx] == [tx] && [] + tx.inputs == tx.inputs;
    }
    assert EntryRefs(us)[i] == EntryRef(us[i]);
    assert EntryRef(us[i]) in multiset(EntryRefs(us));
  }

  lemma {:induction false} ClashIsUsed(us: seq<Unspent>, tx: Tx, i: nat, j: nat)
    requires i < |us| && j < |us| && InRefs(tx.inputs) == [EntryRef(us[i])]
    requires PrefixMatch(EntryRef(us[i]), EntryRef(us[j]))
    ensures UsedInPool([tx], us[j])
  {
    assert InRef(tx.inputs[0]) == InRefs(tx.inputs)[0];
    assert PrefixMatch(InRef(tx.inputs[0]), EntryRef(us[j]));
    assert UsedBy([tx][0], us[j]);
  }

  /** What a send takes that asks for no more than the first entry is worth, when that is the sender's and the pool is
      empty. */
  lemma {:induction false} FirstTaken(key: EcKey, amount: uint32, us: seq<Unspent>)
    requires us != [] && us[0].out.pub == key.pub && amount <= us[0].out.amount
    ensures Taken(key, amount, us, []) == [us[0]]
    ensures Wrap32(Total(Outs([us[0]]))) == us[0].out.amount
  {
    SelectStep(us, key.pub, [], 0);
    assert us[..0] == [] && EligibleOf(us[..1], key.pub, []) == [us[0]];
    var outs := Outs([us[0]]);
    assert outs[..0] == [];
    assert Enough(us, key.pub, [], amount, 1);
  }

  /** Otherwise it can find too much. Let the first entry be the sender's and clash with another: a payment of what the
      first is worth names the first alone, and then nobody can select the other, which nothing names. */
  lemma {:induction false} PrefixClashIsSkipped(c: Suite, key: EcKey, receiver: Pub, us: seq<Unspent>, j: nat, n: nat)
    requires 0 < j < |us| && us[0].out.pub == key.pub && us[0].out.amount > 0
    requires PrefixMatch(EntryRef(us[0]), EntryRef(us[j])) && EntryRef(us[0]) != EntryRef(us[j])
    ensures var tx := NewTransaction(c, Some(key), Some(receiver), us[0].out.amount, us, [], n);
            && tx.Some? && PoolFits([tx.value], us)
            && EntryRef(us[j]) !in InRefs(AllInputs([tx.value]))
            && !Eligible(us[j], us[j].out.pub, [tx.value])
  {
    var amount := us[0].out.amount;
    FirstTaken(key, amount, us);
    SendAmountLaw(c, key.pub, receiver, amount, amount);
    CreatedPays(c, key, receiver, amount, us, [], n);
    var tx := NewTransaction(c, Some(key), Some(receiver), amount, us, [], n).value;
    assert InRefs(tx.inputs) == [EntryRef(us[0])];
    OneInputPool(us, 0, tx);
    ClashIsUsed(us, tx, 0, j);
  }

  // ---- what a selection takes ----

  /** The i-th entry, if it has the digest, stands in its class behind those before it, and is eligible unless it
      is among the first p. */
  ghost predicate Placed(us: seq<Unspent>, pub: Pub, pool: seq<Tx>, h: Digest, p: nat, i: nat)
    requires i < |us|
  {
    us[i].out.hash == h ==>
      var all, m := Class(h, EntryRefs(us)), |Class(h, EntryRefs(us[..i]))|;
      m < |all| && all[m] == EntryRef(us[i]) && (Eligible(us[i], pub, pool) <==> m >= p)
  }

  /** The eligible entries of one digest, when the pool names the first p of them: those from the p-th on. */
  lemma {:induction false} EligibleClass(us: seq<Unspent>, pub: Pub, pool: seq<Tx>, h: Digest, p: nat, j: nat)
    requires j <= |us| && forall i :: 0 <= i < |us| ==> Placed(us, pub, pool, h, p, i)
    ensures |Class(h, EntryRefs(us[..j]))| <= |Class(h, EntryRefs(us))|
    ensures Class(h, EntryRefs(EligibleOf(us[..j], pub, pool)))
            == Between(Class(h, EntryRefs(us)), p, |Class(h, EntryRefs(us[..j]))|)
  {
    ClassOfPrefix(h, us, j);
    if j > 0 {
      var i := j - 1;
      EligibleClass(us, pub, pool, h, p, i);
      ClassOfEligible(h, us, pub, pool, i);
      ClassOfNext(h, us, i);
      assert Placed(us, pub, pool, h, p, i);
      if us[i].out.hash == h {
        BetweenSnoc(Class(h, EntryRefs(us)), p, |Class(h, EntryRefs(us[..i]))|);
      }
    }
  }

  function Between<T>(s: seq<T>, p: nat, m: nat): seq<T>
    requires m <= |s|
  {
    if m > p then s[p..m] else []
  }

  lemma {:induction false} BetweenSnoc<T>(s: seq<T>, p: nat, m: nat)
    requires m < |s|
    ensures Between(s, p, m + 1) == if m >= p then Between(s, p, m) + [s[m]] else []
  {
  }

  lemma {:induction false} ClassOfEligible(h: Digest, us: seq<Unspent>, pub: Pub, pool: seq<Tx>, i: nat)
    requires i < |us|
    ensures Class(h, EntryRefs(EligibleOf(us[..i + 1], pub, pool)))
            == if us[i].out.hash == h && Eligible(us[i], pub, pool)
               then Class(h, EntryRefs(EligibleOf(us[..i], pub, pool))) + [EntryRef(us[i])]
               else Class(h, EntryRefs(EligibleOf(us[..i], pub, pool)))
  {
    SelectStep(us, pub, pool, i);
    ClassSnoc(h, EligibleOf(us[..i], pub, pool), us[i]);
    assert EligibleOf(us[..i], pub, pool) + [] == EligibleOf(us[..i], pub, pool);
  }

  lemma {:induction false} ClassSnoc(h: Digest, us: seq<Unspent>, u: Unspent)
    ensures Class(h, EntryRefs(us + [u]))
            == if u.out.hash == h then Class(h, EntryRefs(us)) + [EntryRef(u)] else Class(h, EntryRefs(us))
  {
    EntryRefsSnoc(us, u);
    var refs := EntryRefs(us);
    assert (refs + [EntryRef(u)])[..|refs|] == refs;
    assert Class(h, refs) + [] == Class(h, refs);
  }

  lemma {:induction false} ClassOfNext(h: Digest, us: seq<Unspent>, i: nat)
    requires i < |us|
    ensures Class(h, EntryRefs(us[..i + 1]))
            == if us[i].out.hash == h then Class(h, EntryRefs(us[..i])) + [EntryRef(us[i])]
               else Class(h, EntryRefs(us[..i]))
  {
    ClassSnoc(h, us[..i], us[i]);
    assert us[..i + 1] == us[..i] + [us[i]];
  }

  lemma {:induction false} ClassOfPrefix(h: Digest, us: seq<Unspent>, j: nat)
    requires j <= |us|
    ensures Class(h, EntryRefs(us[..j])) <= Class(h, EntryRefs(us))
  {
    EntryRefsConcat(us[..j], us[j..]);
    assert us == us[..j] + us[j..];
    ClassConcat(h, EntryRefs(us[..j]), EntryRefs(us[j..]));
  }

  /** Two places of the same class of an owner's entries hold different references. */
  lemma {:induction false} OwnClassDistinct(us: seq<Unspent>, pub: Pub, h: Digest, k: nat, m: nat)
    requires NoClash(us, pub) && (forall x :: 0 <= x < |us| && us[x].out.hash == h ==> us[x].out.pub == pub)
    requires k < m < |Class(h, EntryRefs(us))|
    ensures Class(h, EntryRefs(us))[k] != Class(h, EntryRefs(us))[m]
  {
    var y := ClassIndex(h, EntryRefs(us), k);
    var z := ClassIndex(h, EntryRefs(us), m);
    assert |Class(h, EntryRefs(us)[..y])| == k && |Class(h, EntryRefs(us)[..z])| == m;
    assert EntryRefs(us)[y] == EntryRef(us[y]) && EntryRefs(us)[z] == EntryRef(us[z]);
    assert !PrefixMatch(EntryRef(us[y]), EntryRef(us[z]));
  }

  /** Whether the i-th entry is free depends on its place in its class alone. */
  lemma {:induction false} MemberIsNext(us: seq<Unspent>, pub: Pub, pool: seq<Tx>, h: Digest, p: nat, i: nat)
    requires NoClash(us, pub) && (forall x :: 0 <= x < |us| && us[x].out.hash == h ==> us[x].out.pub == pub)
    requires i < |us| && us[i].out.hash == h && PoolFits(pool, us)
    requires p <= |Class(h, EntryRefs(us))| && Class(h, InRefs(AllInputs(pool))) == Class(h, EntryRefs(us))[..p]
    ensures var all, m := Class(h, EntryRefs(us)), |Class(h, EntryRefs(us[..i]))|;
            m < |all| && all[m] == EntryRef(us[i]) && (UsedInPool(pool, us[i]) <==> m < p)
  {
    var all, m := Class(h, EntryRefs(us)), |Class(h, EntryRefs(us[..i]))|;
    ClassOfNext(h, us, i);
    ClassOfPrefix(h, us, i + 1);
    assert all[m] == Class(h, EntryRefs(us[..i + 1]))[m] == EntryRef(us[i]);
    UsedIsNamed(us, pool, i);
    ClassElements(h, InRefs(AllInputs(pool)));
    forall k | 0 <= k < p && k < m
      ensures all[k] != all[m]
    {
      OwnClassDistinct(us, pub, h, k, m);
    }
    if m < p {
      assert all[..p][m] == all[m];
    }
  }

  /** A new transaction goes on, in every digest, where the pool stopped. */
  lemma {:induction false} TakenGoesOn(us: seq<Unspent>, key: EcKey, amount: uint32, pool: seq<Tx>)
    requires Clean(us) && NoClash(us, key.pub) && PoolFits(pool, us)
    requires InOrder(InRefs(AllInputs(pool)), EntryRefs(us))
    ensures InOrder(InRefs(AllInputs(pool)) + EntryRefs(Taken(key, amount, us, pool)), EntryRefs(us))
  {
    var named, taken, all := InRefs(AllInputs(pool)), EntryRefs(Taken(key, amount, us, pool)), EntryRefs(us);
    forall h: Digest
      ensures Class(h, named + taken) <= Class(h, all)
    {
      ClassConcat(h, named, taken);
      var p := |Class(h, named)|;
      assert Class(h, named) <= Class(h, all);
      if exists x :: 0 <= x < |us| && us[x].out.hash == h && us[x].out.pub == key.pub {
        var x :| 0 <= x < |us| && us[x].out.hash == h && us[x].out.pub == key.pub;
        ClassGoesOn(us, key, amount, pool, h, x);
      } else {
        NoneTaken(us, key, amount, pool, h);
      }
    }
  }

  lemma {:induction false} BetweenFits<T>(s: seq<T>, p: nat, m: nat)
    requires p <= |s| && m <= |s|
    ensures s[..p] + Between(s, p, m) <= s
  {
  }

  lemma {:induction false} AllPlaced(us: seq<Unspent>, pub: Pub, pool: seq<Tx>, h: Digest, p: nat)
    requires NoClash(us, pub) && PoolFits(pool, us)
    requires p <= |Class(h, EntryRefs(us))| && Class(h, InRefs(AllInputs(pool))) == Class(h, EntryRefs(us))[..p]
    requires forall k :: 0 <= k < |us| && us[k].out.hash == h ==> us[k].out.pub == pub
    ensures forall i :: 0 <= i < |us| ==> Placed(us, pub, pool, h, p, i)
  {
    forall i | 0 <= i < |us|
      ensures Placed(us, pub, pool, h, p, i)
    {
      if us[i].out.hash == h {
        MemberIsNext(us, pub, pool, h, p, i);
      }
    }
  }

  lemma {:induction false} SameOwner(us: seq<Unspent>, x: nat)
    requires Clean(us) && x < |us|
    ensures forall k :: 0 <= k < |us| && us[k].out.hash == us[x].out.hash ==> us[k].out.pub == us[x].out.pub
  {
  }

  lemma {:induction false} ClassGoesOn(us: seq<Unspent>, key: EcKey, amount: uint32, pool: seq<Tx>, h: Digest, x: nat)
    requires Clean(us) && NoClash(us, key.pub) && PoolFits(pool, us)
    requires Class(h, InRefs(AllInputs(pool))) <= Class(h, EntryRefs(us))
    requires x < |us| && us[x].out.hash == h && us[x].out.pub == key.pub
    ensures Class(h, InRefs(AllInputs(pool))) + Class(h, EntryRefs(Taken(key, amount, us, pool)))
            <= Class(h, EntryRefs(us))
  {
    var p := |Class(h, InRefs(AllInputs(pool)))|;
    SameOwner(us, x);
    AllPlaced(us, key.pub, pool, h, p);
    ClassTaken(us, key, amount, pool, h, p);
  }

  lemma {:induction false} ClassTaken(us: seq<Unspent>, key: EcKey, amount: uint32, pool: seq<Tx>, h: Digest, p: nat)
    requires p <= |Class(h, EntryRefs(us))|
    requires forall i :: 0 <= i < |us| ==> Placed(us, key.pub, pool, h, p, i)
    ensures Class(h, EntryRefs(us))[..p] + Class(h, EntryRefs(Taken(key, amount, us, pool))) <= Class(h, EntryRefs(us))
  {
    var j := Cut(us, key.pub, pool, amount, 0);
    EligibleClass(us, key.pub, pool, h, p, j);
    BetweenFits(Class(h, EntryRefs(us)), p, |Class(h, EntryRefs(us[..j]))|);
  }

  lemma {:induction false} NoneTaken(us: seq<Unspent>, key: EcKey, amount: uint32, pool: seq<Tx>, h: Digest)
    requires forall x :: 0 <= x < |us| && us[x].out.hash == h ==> us[x].out.pub != key.pub
    ensures Class(h, EntryRefs(Taken(key, amount, us, pool))) == []
  {
    var front, taken := us[..Cut(us, key.pub, pool, amount, 0)], Taken(key, amount, us, pool);
    EligibleElements(front, key.pub, pool);
    forall k | 0 <= k < |taken|
      ensures EntryRefs(taken)[k].outHash != h
    {
      assert taken[k] in taken && taken[k] in front;
      var x :| 0 <= x < |front| && front[x] == taken[k];
      assert us[x] == taken[k];
    }
    NoClass(h, EntryRefs(taken));
  }

  lemma {:induction false} NoClass(h: Digest, refs: seq<Ref>)
    requires forall k :: 0 <= k < |refs| ==> refs[k].outHash != h
    ensures Class(h, refs) == []
  {
    if refs != [] {
      NoClass(h, refs[..|refs| - 1]);
    }
  }

  // ---- list commands ----

  /** No entry has moved past another of the same output digest. */
  ghost predicate KeepsClasses(us: seq<Unspent>, order: seq<Unspent>) {
    forall h: Digest :: Class(h, EntryRefs(order)) == Class(h, EntryRefs(us))
  }

  lemma {:induction false} SameBagSameLength(h: Digest, a: seq<Ref>, b: seq<Ref>)
    requires multiset(a) == multiset(b)
    ensures |Class(h, a)| == |Class(h, b)|
  {
    forall r: Ref
      ensures multiset(Class(h, a))[r] == multiset(Class(h, b))[r]
    {
      ClassBag(h, a, r);
      ClassBag(h, b, r);
    }
    assert multiset(Class(h, a)) == multiset(Class(h, b));
    assert |multiset(Class(h, a))| == |Class(h, a)| && |multiset(Class(h, b))| == |Class(h, b)|;
  }

  lemma {:induction false} ReorderedRefsSame(us: seq<Unspent>, order: seq<Unspent>)
    requires multiset(order) == multiset(us)
    ensures multiset(EntryRefs(order)) == multiset(EntryRefs(us))
  {
    ReorderedRefs(us, order);
    ReorderedRefs(order, us);
  }

  /** A list command keeps in order whatever was in order, if and only if it moves no entry past another of the same
      output digest. */
  lemma {:induction false} ListKeepsOrderExactlyWhen(us: seq<Unspent>, order: seq<Unspent>)
    requires multiset(order) == multiset(us)
    ensures KeepsClasses(us, order)
            <==> forall refs: seq<Ref> :: InOrder(refs, EntryRefs(us)) ==> InOrder(refs, EntryRefs(order))
  {
    var was, now := EntryRefs(us), EntryRefs(order);
    if KeepsClasses(us, order) {
      forall refs: seq<Ref> | InOrder(refs, was)
        ensures InOrder(refs, now)
      {
        forall h: Digest
          ensures Class(h, refs) <= Class(h, now)
        {
          assert Class(h, refs) <= Class(h, was);
        }
      }
    }
    if forall refs: seq<Ref> :: InOrder(refs, was) ==> InOrder(refs, now) {
      assert InOrder(was, was);
      ReorderedRefsSame(us, order);
      forall h: Digest
        ensures Class(h, now) == Class(h, was)
      {
        assert Class(h, was) <= Class(h, now);
        SameBagSameLength(h, was, now);
      }
    }
  }

  /** The entries of one amount, in order. */
  function OfAmount(amount: uint32, us: seq<Unspent>): seq<Unspent> {
    if us == [] then []
    else
      var init, u := us[..|us| - 1], us[|us| - 1];
      if u.out.amount == amount then OfAmount(amount, init) + [u] else OfAmount(amount, init)
  }

  /** Entries the comparison of the sort takes for equal are in the order they were in. */
  ghost predicate Stable(us: seq<Unspent>, order: seq<Unspent>) {
    forall amount: uint32 :: OfAmount(amount, order) == OfAmount(amount, us)
  }

  lemma {:induction false} ClassOfAmount(h: Digest, amount: uint32, us: seq<Unspent>)
    requires forall k :: 0 <= k < |us| && us[k].out.hash == h ==> us[k].out.amount == amount
    ensures Class(h, EntryRefs(OfAmount(amount, us))) == Class(h, EntryRefs(us))
  {
    if us != [] {
      var init, u := us[..|us| - 1], us[|us| - 1];
      ClassOfAmount(h, amount, init);
      assert us == init + [u];
      ClassSnoc(h, init, u);
      ClassSnoc(h, OfAmount(amount, init), u);
    }
  }

  /** Without collisions every stable sort by amount is such a command: only one that moves ties is not. */
  lemma {:induction false} StableSortKeepsClasses(us: seq<Unspent>, order: seq<Unspent>)
    requires Clean(us) && multiset(order) == multiset(us) && Stable(us, order)
    ensures KeepsClasses(us, order)
  {
    forall h: Digest
      ensures Class(h, EntryRefs(order)) == Class(h, EntryRefs(us))
    {
      var amount := AmountOfClass(us, h);
      forall k | 0 <= k < |order| && order[k].out.hash == h
        ensures order[k].out.amount == amount
      {
        assert order[k] in multiset(order) && order[k] in multiset(us);
        var m :| 0 <= m < |us| && us[m] == order[k];
      }
      ClassOfAmount(h, amount, us);
      ClassOfAmount(h, amount, order);
      assert OfAmount(amount, order) == OfAmount(amount, us);
    }
  }

  lemma {:induction false} AmountOfClass(us: seq<Unspent>, h: Digest) returns (amount: uint32)
    requires Clean(us)
    ensures forall k :: 0 <= k < |us| && us[k].out.hash == h ==> us[k].out.amount == amount
  {
    amount := 0;
    if exists x :: 0 <= x < |us| && us[x].out.hash == h {
      var x :| 0 <= x < |us| && us[x].out.hash == h;
      amount := us[x].out.amount;
    }
  }

  // ---- runs that keep the pool in order ----

  /** The pool names the foremost entries of each digest, in their order, and none that has a double. */
  ghost predicate PoolInOrder(s: Ledger) {
    && InOrder(InRefs(AllInputs(s.pool)), EntryRefs(s.unspent))
    && Once(InRefs(AllInputs(s.pool)), EntryRefs(s.unspent))
  }

  /** Sends are made while no entry of the sender clashes with another in its prefixes, and list commands move no entry
      past another of the same output digest. */
  ghost predicate TidyStep(s: Ledger, step: Step) {
    match step
    case Send(_, _, _) => s.wallet.Some? ==> NoClash(s.unspent, s.wallet.value.pub)
    case List(order) => KeepsClasses(s.unspent, order)
    case _ => true
  }

  ghost predicate Tidy(c: Suite, s0: Ledger, steps: seq<Step>)
    requires RunFrom(c, s0, steps).Some?
  {
    steps == []
    || var n := |steps| - 1;
       Tidy(c, s0, steps[..n]) && TidyStep(RunFrom(c, s0, steps[..n]).value, steps[n])
  }

  lemma {:induction false} OwnOnce(us: seq<Unspent>, pub: Pub, x: nat)
    requires NoClash(us, pub) && x < |us| && us[x].out.pub == pub
    ensures multiset(EntryRefs(us))[EntryRef(us[x])] == 1
  {
    var refs, a, b := EntryRefs(us), EntryRefs(us)[..x], EntryRefs(us)[x + 1..];
    forall k | 0 <= k < |refs| && k != x
      ensures refs[k] != refs[x]
    {
      assert !PrefixMatch(EntryRef(us[k]), EntryRef(us[x]));
    }
    assert refs == a + [refs[x]] + b;
    assert refs[x] !in a && refs[x] !in b;
  }

  lemma {:induction false} TakenOnce(us: seq<Unspent>, key: EcKey, amount: uint32, pool: seq<Tx>)
    requires NoClash(us, key.pub)
    ensures Once(EntryRefs(Taken(key, amount, us, pool)), EntryRefs(us))
  {
    var front, taken := us[..Cut(us, key.pub, pool, amount, 0)], Taken(key, amount, us, pool);
    EligibleElements(front, key.pub, pool);
    forall k | 0 <= k < |taken|
      ensures multiset(EntryRefs(us))[EntryRefs(taken)[k]] <= 1
    {
      assert taken[k] in taken && taken[k] in front;
      var x :| 0 <= x < |front| && front[x] == taken[k];
      OwnOnce(us, key.pub, x);
    }
  }

  lemma {:induction false} SendGoesOn(c: Suite, s: Ledger, amount: int, receiver: Option<Pub>, random: nat)
    requires Clean(s.unspent) && PoolFits(s.pool, s.unspent) && PoolInOrder(s)
    requires s.wallet.Some? ==> NoClash(s.unspent, s.wallet.value.pub)
    ensures PoolInOrder(SendStep(c, s, amount, receiver, random))
  {
    var tx := NewTransaction(c, s.wallet, receiver, Wrap32(amount), s.unspent, s.pool, random);
    if tx.Some? {
      var key := s.wallet.value;
      CreatedPays(c, key, receiver.value, Wrap32(amount), s.unspent, s.pool, random);
      TakenGoesOn(s.unspent, key, Wrap32(amount), s.pool);
      TakenOnce(s.unspent, key, Wrap32(amount), s.pool);
      OnceConcat(InRefs(AllInputs(s.pool)), InRefs(tx.value.inputs), EntryRefs(s.unspent));
      AllInputsSnoc(s.pool, tx.value);
      InRefsConcat(AllInputs(s.pool), tx.value.inputs);
    }
  }

  lemma {:induction false} EmptyPoolInOrder(s: Ledger)
    requires s.pool == []
    ensures PoolInOrder(s)
  {
    assert InRefs(AllInputs(s.pool)) == [];
    forall h: Digest
      ensures Class(h, []) <= Class(h, EntryRefs(s.unspent))
    {
    }
  }

  lemma {:induction false} MineGoesOn(c: Suite, s: Ledger, time: uint64)
    requires CanMine(c, s, time) && PoolValid(c, s) && PoolInOrder(s)
    ensures PoolInOrder(MineStep(c, s, time))
  {
    if s.wallet.Some? {
      MineCommits(c, s, time);
      WithoutNone(s.pool, Rejected(c, s.unspent));
      if MineStep(c, s, time).pool == [] {
        EmptyPoolInOrder(MineStep(c, s, time));
      }
    }
  }

  lemma {:induction false} StepGoesOn(c: Suite, s: Ledger, step: Step)
    requires Sound(c, s) && Clean(s.unspent) && PoolValid(c, s) && PoolInOrder(s)
    requires Enabled(c, s, step) && TidyStep(s, step)
    ensures PoolInOrder(Next(c, s, step))
  {
    match step
    case SetWallet(key) =>
    case Send(amount, address, random) => SendGoesOn(c, s, amount, Receiver(c, address), random);
    case Mine(time) => MineGoesOn(c, s, time);
    case List(order) =>
      ListKeepsOrderExactlyWhen(s.unspent, order);
      ReorderedRefsSame(s.unspent, order);
  }

  lemma {:induction false} RunConcat(c: Suite, s: Ledger, a: seq<Step>, b: seq<Step>)
    requires RunFrom(c, s, a).Some?
    ensures RunFrom(c, s, a + b) == RunFrom(c, RunFrom(c, s, a).value, b)
  {
    if b == [] {
      assert a + b == a;
    } else {
      var n := |b| - 1;
      RunConcat(c, s, a, b[..n]);
      assert (a + b)[..|a| + n] == a + b[..n] && (a + b)[|a| + n] == b[n];
    }
  }

  /** A step never makes an unclean chain clean. */
  lemma {:induction false} CleanBefore(c: Suite, s: Ledger, step: Step)
    requires ChainOk(c, s.chain) && Enabled(c, s, step) && CleanChain(Next(c, s, step).chain)
    ensures CleanChain(s.chain)
  {
    var after := Next(c, s, step).chain;
    StepKeepsChain(c, s, step);
    if after != s.chain {
      assert after == s.chain + [after[|s.chain|]];
      CleanPrefix(s.chain, after[|s.chain|]);
    }
  }

  /** In a tidy run the pool stays in order, from wherever it was so. */
  lemma {:induction false} TidyRunGoesOn(c: Suite, early: seq<Step>, s0: Ledger, steps: seq<Step>, s: Ledger)
    requires Reached(c, early, s0) && PoolInOrder(s0)
    requires RunFrom(c, s0, steps) == Some(s) && Tidy(c, s0, steps) && CleanChain(s.chain)
    ensures Reached(c, early + steps, s) && PoolInOrder(s)
  {
    RunConcat(c, Initial(), early, steps);
    if steps != [] {
      var n := |steps| - 1;
      var before := RunFrom(c, s0, steps[..n]).value;
      RunConcat(c, Initial(), early, steps[..n]);
      ReachedSound(c, early + steps[..n], before);
      CleanBefore(c, before, steps[n]);
      TidyRunGoesOn(c, early, s0, steps[..n], before);
      UnspentIsClean(c, before);
      ReachedPoolValid(c, early + steps[..n], before);
      StepGoesOn(c, before, steps[n]);
    }
  }

  /** When the pool is in order, mining takes out of the list exactly the entries the pool names, keeps the others in
      their order, and puts the block's outputs at its rear. */
  lemma {:induction false} MineTakesTheNamed(c: Suite, steps: seq<Step>, s: Ledger, time: uint64)
    requires GenesisDigest(c) && Reached(c, steps, s) && CleanChain(s.chain)
    requires PoolInOrder(s)
    requires CanMine(c, s, time) && s.wallet.Some? && |s.chain| < 0x1_0000_0000
    ensures var b := Mined(c, Candidate(c, s, s.wallet.value.pub, time));
            && Payments(b) == s.pool
            && MineStep(c, s, time).unspent
               == Without(s.unspent, NamedIn(InRefs(AllInputs(s.pool)))) + AllEntries(b.hash, TxList(b))
  {
    var b := Mined(c, Candidate(c, s, s.wallet.value.pub, time));
    ReachedSound(c, steps, s);
    MineTakesThePool(c, steps, s, time);
    MineNeverFails(c, steps, s, time);
    MineCommits(c, s, time);
    CommitShape(c, s, s.wallet.value.pub, b);
    SpendTakesTheNamed(s.unspent, AllInputs(s.pool));
  }

  /** So it is after every tidy run from a state with an empty pool, whatever led there. */
  lemma {:induction false} MineRemovesExactlyTheNamed(c: Suite, early: seq<Step>, s0: Ledger, steps: seq<Step>,
                                                      s: Ledger, time: uint64)
    requires GenesisDigest(c) && Reached(c, early, s0) && s0.pool == []
    requires RunFrom(c, s0, steps) == Some(s) && Tidy(c, s0, steps) && CleanChain(s.chain)
    requires CanMine(c, s, time) && s.wallet.Some? && |s.chain| < 0x1_0000_0000
    ensures var b := Mined(c, Candidate(c, s, s.wallet.value.pub, time));
            && Payments(b) == s.pool
            && MineStep(c, s, time).unspent
               == Without(s.unspent, NamedIn(InRefs(AllInputs(s.pool)))) + AllEntries(b.hash, TxList(b))
  {
    EmptyPoolInOrder(s0);
    TidyRunGoesOn(c, early, s0, steps, s);
    MineTakesTheNamed(c, early + steps, s, time);
  }
}
