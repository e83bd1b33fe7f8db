/** Addresses: which texts denote a key, and that a send to a key's text pays that key. */
module Addresses {
  import opened Bytes
  import opened Crypto
  import opened Transactions
  import opened Create
  import opened CreateLaws
  import opened Blocks
  import opened Ledger
  import opened Conservation
  import opened Progress
  import opened Hex

  const DIGITS: string := "0123456789abcdef"
  const ALL_DIGITS: string := "0123456789abcdefABCDEF"

  lemma {:induction false} DigitText(d: byte)
    requires d < 16
    ensures HexChar(d) == DIGITS[d]
  {
  }

  lemma {:induction false} HexExactlyWhen(ch: char)
    ensures IsHex(ch) <==> ch in ALL_DIGITS
  {
    if IsHex(ch) {
      var k := if ch <= '9' then ch as int - '0' as int
               else if ch <= 'F' then ch as int - 'A' as int + 16 else ch as int - 'a' as int + 10;
      assert ALL_DIGITS[k] == ch;
    }
  }

  /** The text of a byte string, character by character: the upper half of a byte first. */
  lemma {:induction false} TextOfBytes(bs: Bytes, k: nat)
    requires k < |bs|
    ensures |ToHex(bs)| == 2 * |bs|
    ensures ToHex(bs)[2 * k] == DIGITS[bs[k] / 16] && ToHex(bs)[2 * k + 1] == DIGITS[bs[k] % 16]
  {
    assert ToHex(bs)[2 * k] == HexChar(bs[k] / 16) && ToHex(bs)[2 * k + 1] == HexChar(bs[k] % 16);
    DigitText(bs[k] / 16);
    DigitText(bs[k] % 16);
  }

  /** A text denotes no key exactly when it is shorter than 130 characters or has one that is no digit. */
  lemma {:induction false} RefusedExactlyWhen(s: string)
    ensures StringToPub(s).None? <==> |s| < 130 || exists k :: 0 <= k < |s| && s[k] !in ALL_DIGITS
  {
    forall k | 0 <= k < |s|
      ensures IsHex(s[k]) <==> s[k] in ALL_DIGITS
    {
      HexExactlyWhen(s[k]);
    }
  }

  // ---- upper and lower case ----

  /** The two texts differ in case at most. */
  predicate SameButForCase(s: string, t: string) {
    |s| == |t| && forall k :: 0 <= k < |s| ==> Lower(s[k]) == Lower(t[k])
  }

  lemma {:induction false} LowerOfDigits()
    ensures Lower('A') == 'a' && Lower('B') == 'b' && Lower('C') == 'c'
    ensures Lower('D') == 'd' && Lower('E') == 'e' && Lower('F') == 'f'
    ensures forall ch <- DIGITS :: Lower(ch) == ch
  {
  }

  lemma {:induction false} CaseKeepsDigit(x: char, y: char)
    requires Lower(x) == Lower(y)
    ensures IsHex(x) <==> IsHex(y)
    ensures IsHex(x) ==> Digit(x) == Digit(y)
  {
    if IsHex(x) {
      LowerKeepsDigit(x);
    }
    if IsHex(y) {
      LowerKeepsDigit(y);
    }
  }

  /** Case does not matter. */
  lemma {:induction false} CaseDoesNotMatter(s: string, t: string)
    requires SameButForCase(s, t)
    ensures StringToPub(s) == StringToPub(t)
  {
    forall k | 0 <= k < |s|
      ensures IsHex(s[k]) <==> IsHex(t[k])
      ensures IsHex(s[k]) ==> Digit(s[k]) == Digit(t[k])
    {
      CaseKeepsDigit(s[k], t[k]);
    }
    assert AllHex(s) <==> AllHex(t);
    if StringToPub(s).Some? {
      forall k | 0 <= k < PUB_LEN
        ensures StringToPub(s).value[k] == StringToPub(t).value[k]
      {
        assert StringToPub(s).value[k] == Pair(s, k) && StringToPub(t).value[k] == Pair(t, k);
      }
      assert StringToPub(s).value == StringToPub(t).value;
    }
  }

  /** Every text of a key, in whatever case, denotes the key. */
  lemma {:induction false} TextDenotesKey(p: Pub, s: string)
    requires SameButForCase(s, ToHex(p))
    ensures StringToPub(s) == Some(p)
  {
    CaseDoesNotMatter(s, ToHex(p));
    HexRoundTrip(p);
  }

  // ---- sends ----

  /** A text of a key denotes the point the key is, or no receiver when it is none. */
  lemma {:induction false} ReceiverOfText(c: Suite, p: Pub, address: string)
    requires SameButForCase(address, ToHex(p))
    ensures Receiver(c, address) == c.fromPub(p)
  {
    TextDenotesKey(p, address);
  }

  /** A send to a text of a key changes nothing when the key is no point. Otherwise a wallet that signs pays the point,
      exactly when the amount is positive and no more than what is eligible. */
  lemma {:induction false} SendToText(c: Suite, steps: seq<Step>, s: Ledger, amount: int, p: Pub, address: string,
                                      n: nat)
    requires Reached(c, steps, s) && CleanChain(s.chain)
    requires COINBASE_AMOUNT * (|s.chain| - 1) < 0x1_0000_0000
    requires s.wallet.Some? && Signer(c, s.wallet.value) && RefusesUnsigned(c, s.wallet.value.pub)
    requires SameButForCase(address, ToHex(p))
    ensures var s' := Next(c, s, Send(amount, address, n));
            var most := EligibleTotal(s.unspent, s.wallet.value.pub, s.pool, |s.unspent|);
            && (s' != s <==> c.fromPub(p).Some? && 0 < Wrap32(amount) <= most)
            && (s' != s ==> && |s'.pool| == |s.pool| + 1
                            && s'.pool[|s.pool|].outputs != []
                            && s'.pool[|s.pool|].outputs[0].pub == c.fromPub(p).value
                            && s'.pool[|s.pool|].outputs[0].amount == Wrap32(amount))
  {
    var key := s.wallet.value;
    ReceiverOfText(c, p, address);
    SendSucceedsExactly(c, steps, s, amount, address, n);
    var tx := NewTransaction(c, s.wallet, c.fromPub(p), Wrap32(amount), s.unspent, s.pool, n);
    if tx.Some? {
      AlwaysSigned(c, key, tx.value.id, |tx.value.inputs|, n);
    }
  }

  lemma {:induction false} SendToNothing(c: Suite, s: Ledger, amount: int, address: string, n: nat)
    requires |address| < 130 || exists k :: 0 <= k < |address| && address[k] !in ALL_DIGITS
    ensures Next(c, s, Send(amount, address, n)) == s
  {
    RefusedExactlyWhen(address);
  }

  /** Without a wallet nothing is sent and nothing mined. */
  lemma {:induction false} NothingWithoutWallet(c: Suite, s: Ledger, amount: int, address: string, n: nat, time: uint64)
    requires s.wallet.None? && s.chain != []
    ensures Next(c, s, Send(amount, address, n)) == s
    ensures Enabled(c, s, Step.Mine(time)) && Next(c, s, Step.Mine(time)) == s
  {
  }
}
