/** Public keys as hexadecimal text. */
module Hex {
  import opened Bytes
  import opened Crypto

  const PUB_LEN := 65

  predicate IsHex(ch: char) {
    '0' <= ch <= '9' || 'a' <= ch <= 'f' || 'A' <= ch <= 'F'
  }

  function Lower(ch: char): char {
    if 'A' <= ch <= 'F' then (ch as int + 32) as char else ch
  }

  function LowerAll(s: string): (r: string)
    ensures |r| == |s|
  {
    seq(|s|, k requires 0 <= k < |s| => Lower(s[k]))
  }

  function Digit(ch: char): (r: byte)
    requires IsHex(ch)
    ensures r < 16
  {
    if ch <= '9' then ch as int - '0' as int
    else if ch <= 'F' then ch as int - 'A' as int + 10
    else ch as int - 'a' as int + 10
  }

  function HexChar(d: byte): (r: char)
    requires d < 16
    ensures IsHex(r)
  {
    if d < 10 then (d + '0' as int) as char else (d - 10 + 'a' as int) as char
  }

  /** The text of a byte string: two lower-case digits a byte. */
  function ToHex(bs: Bytes): (r: string)
    ensures |r| == 2 * |bs|
  {
    seq(2 * |bs|, k requires 0 <= k < 2 * |bs| => HexChar(if k % 2 == 0 then bs[k / 2] / 16 else bs[k / 2] % 16))
  }

  method BytesToHex(bs: Bytes) returns (text: array<char>)
    ensures fresh(text) && text[..] == ToHex(bs)
  {
    text := new char[2 * |bs|];
    for i := 0 to |bs|
      invariant forall k :: 0 <= k < 2 * i ==> text[k] == ToHex(bs)[k]
    {
      text[2 * i] := HexChar(bs[i] / 16);
      text[2 * i + 1] := HexChar(bs[i] % 16);
    }
  }

  predicate AllHex(s: string) {
    forall k :: 0 <= k < |s| ==> IsHex(s[k])
  }

  /** How many characters at the front are hexadecimal. */
  function HexPrefix(s: string): (n: nat)
    ensures n <= |s| && AllHex(s[..n])
    ensures n < |s| ==> !IsHex(s[n])
  {
    if s == [] || !IsHex(s[0]) then 0 else 1 + HexPrefix(s[1..])
  }

  /** An address after it was looked at: lower case up to the first character that is no digit. */
  function Checked(s: string): string {
    LowerAll(s[..HexPrefix(s)]) + s[HexPrefix(s)..]
  }

  lemma {:induction false} CheckedIs(s: string, t: string, n: nat)
    requires n <= |s| == |t| && (forall k :: 0 <= k < n ==> IsHex(s[k]) && t[k] == Lower(s[k]))
    requires (forall k :: n <= k < |s| ==> t[k] == s[k]) && (n < |s| ==> !IsHex(s[n]))
    ensures t == Checked(s) && (AllHex(s) <==> n == |s|)
  {
    var m := HexPrefix(s);
    forall k | 0 <= k < m
      ensures IsHex(s[k])
    {
      assert s[..m][k] == s[k];
    }
    assert m == n;
  }

  /** The byte the k-th pair of characters denotes. */
  function Pair(s: string, k: nat): byte
    requires AllHex(s) && 2 * k + 1 < |s|
  {
    16 * Digit(s[2 * k]) + Digit(s[2 * k + 1])
  }

  /** The key an address denotes: at least 130 characters, all of them hexadecimal; the first 130 count. */
  function StringToPub(s: string): Option<Pub> {
    if |s| < 2 * PUB_LEN || !AllHex(s) then None
    else Some(seq(PUB_LEN, k requires 0 <= k < PUB_LEN => Pair(s, k)))
  }

  /** Lower-cases the address in place; stops at the first character that is no digit. */
  method CheckString(address: array<char>) returns (ok: bool)
    modifies address
    ensures ok <==> AllHex(old(address[..]))
    ensures address[..] == Checked(old(address[..]))
  {
    ghost var was := address[..];
    for i := 0 to address.Length
      invariant forall k :: 0 <= k < i ==> IsHex(was[k]) && address[k] == Lower(was[k])
      invariant forall k :: i <= k < address.Length ==> address[k] == was[k]
    {
      if '0' <= address[i] <= '9' || 'a' <= address[i] <= 'f' {
      } else if 'A' <= address[i] <= 'F' {
        address[i] := (address[i] as int + 32) as char;
      } else {
        assert !IsHex(was[i]);
        CheckedIs(was, address[..], i);
        return false;
      }
    }
    CheckedIs(was, address[..], address.Length);
    return true;
  }

  lemma {:induction false} CheckedHex(s: string)
    requires AllHex(s)
    ensures Checked(s) == LowerAll(s)
  {
    CheckedIs(s, LowerAll(s), |s|);
  }

  lemma {:induction false} LowerKeepsDigit(ch: char)
    requires IsHex(ch)
    ensures IsHex(Lower(ch)) && Digit(Lower(ch)) == Digit(ch)
    ensures HexChar(Digit(ch)) == Lower(ch)
  {
  }

  method ParsePub(address: array<char>) returns (r: Option<Pub>)
    modifies address
    ensures r == StringToPub(old(address[..]))
    ensures address[..] == if address.Length < 2 * PUB_LEN then old(address[..]) else Checked(old(address[..]))
  {
    ghost var was := address[..];
    if address.Length < 2 * PUB_LEN {
      return None;
    }
    var ok := CheckString(address);
    if !ok {
      return None;
    }
    ghost var low := address[..];
    CheckedHex(was);
    LowerKeepsPairs(was);
    var pub := new byte[PUB_LEN];
    for i := 0 to PUB_LEN
      invariant address[..] == low
      invariant forall k :: 0 <= k < i ==> pub[k] == Pair(was, k)
    {
      assert Pair(low, i) == Pair(was, i);
      pub[i] := 16 * Digit(address[2 * i]) + Digit(address[2 * i + 1]);
    }
    assert pub[..] == StringToPub(was).value;
    return Some(pub[..]);
  }

  lemma {:induction false} LowerKeepsPairs(s: string)
    requires AllHex(s)
    ensures AllHex(LowerAll(s))
    ensures forall k :: 0 <= k && 2 * k + 1 < |s| ==> Pair(LowerAll(s), k) == Pair(s, k)
  {
    forall k | 0 <= k < |s|
      ensures IsHex(LowerAll(s)[k]) && Digit(LowerAll(s)[k]) == Digit(s[k])
    {
      LowerKeepsDigit(s[k]);
    }
  }

  lemma {:induction false} DigitOfHexChar(d: byte)
    requires d < 16
    ensures Digit(HexChar(d)) == d
  {
  }

  lemma {:induction false} HexPair(bs: Bytes, k: nat)
    requires k < |bs|
    ensures AllHex(ToHex(bs)) && Pair(ToHex(bs), k) == bs[k]
  {
    assert ToHex(bs)[2 * k] == HexChar(bs[k] / 16) && ToHex(bs)[2 * k + 1] == HexChar(bs[k] % 16);
    DigitOfHexChar(bs[k] / 16);
    DigitOfHexChar(bs[k] % 16);
  }

  /** Decoding undoes encoding, on every key. */
  lemma {:induction false} HexRoundTrip(p: Pub)
    ensures StringToPub(ToHex(p)) == Some(p)
  {
    forall k | 0 <= k < PUB_LEN
      ensures AllHex(ToHex(p)) && Pair(ToHex(p), k) == p[k]
    {
      HexPair(p, k);
    }
    HexPair(p, 0);
    assert StringToPub(ToHex(p)).value == p;
  }

  lemma {:induction false} DecodedPair(s: string, k: nat)
    requires k < PUB_LEN && StringToPub(s).Some?
    ensures ToHex(StringToPub(s).value)[2 * k] == Lower(s[2 * k])
    ensures ToHex(StringToPub(s).value)[2 * k + 1] == Lower(s[2 * k + 1])
  {
    assert StringToPub(s).value[k] == Pair(s, k);
    LowerKeepsDigit(s[2 * k]);
    LowerKeepsDigit(s[2 * k + 1]);
  }

  /** Encoding undoes decoding, up to letter case, on the characters that count. */
  lemma {:induction false} DecodedReads(s: string)
    requires StringToPub(s).Some?
    ensures ToHex(StringToPub(s).value) == LowerAll(s[..2 * PUB_LEN])
  {
    var text := ToHex(StringToPub(s).value);
    forall k | 0 <= k < 2 * PUB_LEN
      ensures text[k] == Lower(s[k])
    {
      var j := k / 2;
      DecodedPair(s, j);
      assert k == 2 * j || k == 2 * j + 1;
    }
  }
}
