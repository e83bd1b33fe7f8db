/** The exact effect of the removals: of every output digest, as many entries go as there are inputs with that
    digest, the foremost first. */
module OldestFirst {
  import opened Crypto
  import opened LinkedList
  import opened Transactions
  import opened UpdateUnspent
  import opened ExactRemoval

  /** How many entries with the same output digest stand before the i-th. */
  function Place(us: seq<Unspent>, i: nat): nat
    requires i < |us|
  {
    |Class(us[i].out.hash, EntryRefs(us[..i]))|
  }

  /** The entries whose place is not below the number of inputs with their digest. */
  ghost function Survivors(us: seq<Unspent>, spent: multiset<Digest>): seq<Unspent> {
    if us == [] then []
    else
      var n := |us| - 1;
      if Place(us, n) >= spent[us[n].out.hash] then Survivors(us[..n], spent) + [us[n]] else Survivors(us[..n], spent)
  }

  lemma {:induction false} FirstIndexSnoc<T>(s: seq<T>, x: T, ident: T -> bool)
    ensures FirstIndex(s + [x], ident)
            == if FirstIndex(s, ident) < |s| then FirstIndex(s, ident) else if ident(x) then |s| else |s| + 1
  {
    var i, j := FirstIndex(s, ident), FirstIndex(s + [x], ident);
    assert forall k :: 0 <= k < |s| ==> (s + [x])[k] == s[k];
    assert (s + [x])[|s|] == x;
    if i < |s| {
      assert ident((s + [x])[i]);
    }
  }

  lemma {:induction false} FoundSnoc<T>(s: seq<T>, x: T, ident: T -> bool)
    ensures FirstIndex(s + [x], ident) < |s + [x]| <==> FirstIndex(s, ident) < |s| || ident(x)
  {
    FirstIndexSnoc(s, x, ident);
  }

  lemma {:induction false} RemoveFirstSnoc<T>(s: seq<T>, x: T, ident: T -> bool)
    ensures RemoveFirst(s + [x], ident)
            == if FirstIndex(s, ident) < |s| then RemoveFirst(s, ident) + [x] else if ident(x) then s else s + [x]
  {
    FirstIndexSnoc(s, x, ident);
    var i := FirstIndex(s, ident);
    if i < |s| {
      RemoveFirstAppend(s, [x], ident);
    } else if ident(x) {
      assert (s + [x])[..|s|] == s && (s + [x])[|s| + 1..] == [];
    }
  }

  /** Some entry of the digest survives exactly when there are more of them than are spent. */
  lemma {:induction false} SurvivorOfClass(us: seq<Unspent>, spent: multiset<Digest>, h: Digest)
    ensures FirstIndex(Survivors(us, spent), HasHash(h)) < |Survivors(us, spent)|
            <==> |Class(h, EntryRefs(us))| > spent[h]
  {
    if us != [] {
      var init, u := us[..|us| - 1], us[|us| - 1];
      SurvivorOfClass(init, spent, h);
      ClassSnoc(h, init, u);
      assert us == init + [u];
      FoundSnoc(Survivors(init, spent), u, HasHash(h));
    }
  }

  lemma {:induction false} SpendOneMore(us: seq<Unspent>, spent: multiset<Digest>, h: Digest)
    ensures RemoveFirst(Survivors(us, spent), HasHash(h)) == Survivors(us, spent + multiset{h})
  {
    if us != [] {
      var init, u := us[..|us| - 1], us[|us| - 1];
      SpendOneMore(init, spent, h);
      SurvivorOfClass(init, spent, h);
      RemoveFirstSnoc(Survivors(init, spent), u, HasHash(h));
    }
  }

  lemma {:induction false} NothingSpent(us: seq<Unspent>)
    ensures Survivors(us, multiset{}) == us
  {
    if us != [] {
      NothingSpent(us[..|us| - 1]);
      assert us == us[..|us| - 1] + [us[|us| - 1]];
    }
  }

  /** What is left after the removals, for any list and any digests, found or not. */
  lemma {:induction false} SpendLeavesSurvivors(us: seq<Unspent>, hashes: seq<Digest>)
    ensures Spend(us, hashes) == Survivors(us, multiset(hashes))
  {
    if hashes == [] {
      NothingSpent(us);
    } else {
      var init, h := hashes[..|hashes| - 1], hashes[|hashes| - 1];
      SpendLeavesSurvivors(us, init);
      SpendOneMore(us, multiset(init), h);
      assert hashes == init + [h];
    }
  }

  // ---- when these are the entries named ----

  /** The i-th entry is named exactly if it is among the foremost of its digest, as many as are spent of it. */
  ghost predicate NamedInPlace(us: seq<Unspent>, refs: seq<Ref>, spent: multiset<Digest>, i: nat)
    requires i < |us|
  {
    EntryRef(us[i]) in refs <==> Place(us, i) < spent[us[i].out.hash]
  }

  lemma {:induction false} SurvivorsAreTheUnnamed(us: seq<Unspent>, refs: seq<Ref>, spent: multiset<Digest>)
    requires forall i :: 0 <= i < |us| ==> NamedInPlace(us, refs, spent, i)
    ensures Survivors(us, spent) == Without(us, NamedIn(refs))
  {
    if us != [] {
      var n := |us| - 1;
      forall i | 0 <= i < n
        ensures NamedInPlace(us[..n], refs, spent, i)
      {
        assert NamedInPlace(us, refs, spent, i);
        assert us[..n][..i] == us[..i];
      }
      SurvivorsAreTheUnnamed(us[..n], refs, spent);
      assert NamedInPlace(us, refs, spent, n);
    }
  }

  lemma {:induction false} SurvivorsElements(us: seq<Unspent>, spent: multiset<Digest>)
    ensures forall u <- Survivors(us, spent) :: u in us
  {
    if us != [] {
      SurvivorsElements(us[..|us| - 1], spent);
    }
  }

  lemma {:induction false} DistinctInit(us: seq<Unspent>)
    requires us != [] && Distinct(EntryRefs(us))
    ensures Distinct(EntryRefs(us[..|us| - 1])) && us[|us| - 1] !in us[..|us| - 1]
  {
    var n := |us| - 1;
    var refs, init := EntryRefs(us), EntryRefs(us[..n]);
    assert forall i :: 0 <= i < n ==> init[i] == refs[i];
    forall i | 0 <= i < n
      ensures us[i] != us[n]
    {
      assert refs[i] != refs[n];
    }
  }

  /** In a list of distinct references, an entry survives exactly by its place. */
  lemma {:induction false} SurvivesByPlace(us: seq<Unspent>, spent: multiset<Digest>, i: nat)
    requires i < |us| && Distinct(EntryRefs(us))
    ensures us[i] in Survivors(us, spent) <==> Place(us, i) >= spent[us[i].out.hash]
  {
    var n := |us| - 1;
    DistinctInit(us);
    if i < n {
      SurvivesByPlace(us[..n], spent, i);
      assert us[..n][..i] == us[..i];
      assert us[i] in us[..n];
    } else {
      SurvivorsElements(us[..n], spent);
    }
  }

  /** The update removes exactly the entries the inputs name if and only if, of every digest, they name the foremost
      entries of the list. */
  lemma {:induction false} RemovesTheNamedExactlyWhen(us: seq<Unspent>, ins: seq<TxIn>)
    requires Distinct(EntryRefs(us))
    ensures Spend(us, InHashes(ins)) == Without(us, NamedIn(InRefs(ins)))
            <==> forall i :: 0 <= i < |us| ==> NamedInPlace(us, InRefs(ins), multiset(InHashes(ins)), i)
  {
    var refs, spent := InRefs(ins), multiset(InHashes(ins));
    SpendLeavesSurvivors(us, InHashes(ins));
    if forall i :: 0 <= i < |us| ==> NamedInPlace(us, refs, spent, i) {
      SurvivorsAreTheUnnamed(us, refs, spent);
    }
    if Survivors(us, spent) == Without(us, NamedIn(refs)) {
      WithoutElements(us, NamedIn(refs));
      forall i | 0 <= i < |us|
        ensures NamedInPlace(us, refs, spent, i)
      {
        assert us[i] in us;
        SurvivesByPlace(us, spent, i);
      }
    }
  }
}
