/** The list operations the ledger uses, on the sequence of a list's nodes. A node is found by an
    identifier function, and the first node it accepts is the one meant. */
module LinkedList {
  import opened Bytes

  /** Position of the first node `ident` accepts, or the length of the list. */
  function FirstIndex<T>(s: seq<T>, ident: T -> bool): (i: nat)
    ensures i <= |s|
    ensures forall k :: 0 <= k < i ==> !ident(s[k])
    ensures i < |s| ==> ident(s[i])
  {
    if s == [] || ident(s[0]) then 0 else 1 + FirstIndex(s[1..], ident)
  }

  function First<T>(s: seq<T>, ident: T -> bool): Option<T> {
    var i := FirstIndex(s, ident);
    if i < |s| then Some(s[i]) else None
  }

  /** Deletes the first node `ident` accepts; a list without such a node is left as it is. */
  function RemoveFirst<T>(s: seq<T>, ident: T -> bool): seq<T> {
    var i := FirstIndex(s, ident);
    if i < |s| then s[..i] + s[i + 1..] else s
  }

  /** The nodes `ident` does not accept, in order. */
  function Without<T>(s: seq<T>, ident: T -> bool): seq<T> {
    if s == [] then []
    else
      var n := |s| - 1;
      if ident(s[n]) then Without(s[..n], ident) else Without(s[..n], ident) + [s[n]]
  }

  lemma {:induction false} RemoveFirstAppend<T>(a: seq<T>, b: seq<T>, ident: T -> bool)
    requires FirstIndex(a, ident) < |a|
    ensures RemoveFirst(a + b, ident) == RemoveFirst(a, ident) + b
  {
    var i := FirstIndex(a, ident);
    var front, back := a[..i], a[i + 1..];
    RemoveFirstTakesTheFirst(front, a[i], back + b, ident);
    assert a + b == front + [a[i]] + (back + b);
    assert front + (back + b) == (front + back) + b;
  }

  lemma {:induction false} WithoutElements<T>(s: seq<T>, ident: T -> bool)
    ensures forall x <- Without(s, ident) :: x in s && !ident(x)
    ensures forall x <- s :: !ident(x) ==> x in Without(s, ident)
  {
    if s != [] {
      var n := |s| - 1;
      WithoutElements(s[..n], ident);
      assert s == s[..n] + [s[n]];
    }
  }

  lemma {:induction false} WithoutAppend<T>(a: seq<T>, b: seq<T>, ident: T -> bool)
    ensures Without(a + b, ident) == Without(a, ident) + Without(b, ident)
  {
    if b == [] {
      assert a + b == a;
    } else {
      var n := |b| - 1;
      WithoutAppend(a, b[..n], ident);
      assert (a + b)[..|a| + n] == a + b[..n] && (a + b)[|a| + n] == b[n];
    }
  }

  lemma {:induction false} WithoutNone<T>(s: seq<T>, ident: T -> bool)
    requires forall x :: x in s ==> !ident(x)
    ensures Without(s, ident) == s
  {
    if s != [] {
      var n := |s| - 1;
      assert s[n] in s && forall x :: x in s[..n] ==> x in s;
      WithoutNone(s[..n], ident);
      assert s == s[..n] + [s[n]];
    }
  }

  lemma {:induction false} WithoutBag<T>(s: seq<T>, ident: T -> bool)
    ensures multiset(Without(s, ident)) <= multiset(s)
  {
    if s != [] {
      var n := |s| - 1;
      WithoutBag(s[..n], ident);
      assert s == s[..n] + [s[n]];
    }
  }

  lemma {:induction false} WithoutShrinks<T>(s: seq<T>, ident: T -> bool)
    ensures |Without(s, ident)| <= |s|
  {
    if s != [] {
      WithoutShrinks(s[..|s| - 1], ident);
    }
  }

  /** What is deleted is the first accepted node, and nothing else. */
  lemma {:induction false} RemoveFirstTakesTheFirst<T>(a: seq<T>, x: T, b: seq<T>, ident: T -> bool)
    requires ident(x) && forall k :: 0 <= k < |a| ==> !ident(a[k])
    ensures RemoveFirst(a + [x] + b, ident) == a + b
  {
    var s := a + [x] + b;
    var i := FirstIndex(s, ident);
    assert ident(s[|a|]);
    assert forall k :: 0 <= k < |a| ==> s[k] == a[k];
    assert i == |a|;
    assert s[..i] == a && s[i + 1..] == b;
  }

  /** The state of a loop of deletions: what stays is what has to stay, and at most n nodes are left, unless there is
      nothing more to delete. */
  ghost predicate Filtered<T>(s: seq<T>, was: seq<T>, ident: T -> bool, n: int) {
    Without(s, ident) == Without(was, ident) && (|s| <= n || Without(s, ident) == s)
  }

  lemma {:induction false} FilterRound<T>(s: seq<T>, was: seq<T>, ident: T -> bool, n: int)
    requires Filtered(s, was, ident, n)
    ensures Filtered(RemoveFirst(s, ident), was, ident, n - 1)
  {
    RemoveFirstKeepsRest(s, ident);
  }

  lemma {:induction false} WithoutEmpty<T>(s: seq<T>, ident: T -> bool)
    ensures |s| <= 0 ==> Without(s, ident) == s
  {
  }

  /** One deletion does not touch the nodes that stay; it takes exactly one node, unless there is none to take. */
  lemma {:induction false} RemoveFirstKeepsRest<T>(s: seq<T>, ident: T -> bool)
    ensures Without(RemoveFirst(s, ident), ident) == Without(s, ident)
    ensures if Without(s, ident) == s then RemoveFirst(s, ident) == s else |RemoveFirst(s, ident)| == |s| - 1
  {
    var i := FirstIndex(s, ident);
    if i < |s| {
      var a, b := s[..i], s[i + 1..];
      WithoutAppend(a, b, ident);
      WithoutAppend(s[..i + 1], b, ident);
      assert s == s[..i + 1] + b;
      assert Without(s[..i + 1], ident) == Without(a, ident) by {
        assert s[..i + 1][..i] == a;
      }
      WithoutShrinks(a + b, ident);
    } else {
      WithoutNone(s, ident);
    }
  }
}
