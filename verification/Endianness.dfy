/** The in-place byte reversal that turns a number into the other byte order. */
module Endianness {
  import opened Bytes
  import opened Difficulty

  // ---- exclusive or ----

  function Bit(x: nat): nat {
    x % 2
  }

  /** Bitwise exclusive or, lowest bit first. */
  function Xor(x: nat, y: nat): nat {
    if x == 0 && y == 0 then 0 else 2 * Xor(x / 2, y / 2) + if Bit(x) == Bit(y) then 0 else 1
  }

  lemma {:induction false} XorCommutes(x: nat, y: nat)
    ensures Xor(x, y) == Xor(y, x)
  {
    if x != 0 || y != 0 {
      XorCommutes(x / 2, y / 2);
    }
  }

  lemma {:induction false} Halves(q: nat, b: nat)
    requires b < 2
    ensures (2 * q + b) / 2 == q && Bit(2 * q + b) == b
  {
  }

  lemma {:induction false} XorCancels(x: nat, y: nat)
    ensures Xor(Xor(x, y), y) == x
  {
    if x != 0 || y != 0 {
      XorCancels(x / 2, y / 2);
      Halves(Xor(x / 2, y / 2), if Bit(x) == Bit(y) then 0 else 1);
      assert x == 2 * (x / 2) + Bit(x);
    }
  }

  lemma {:induction false} XorFits(x: nat, y: nat, bound: nat)
    requires x < bound && y < bound && exists k: nat :: bound == Pow2(k)
    ensures Xor(x, y) < bound
  {
    var k: nat :| bound == Pow2(k);
    if k > 0 {
      XorFits(x / 2, y / 2, Pow2(k - 1));
    }
  }

  function XorByte(x: byte, y: byte): (z: byte)
    ensures z == Xor(x, y)
  {
    assert 256 == Pow2(8);
    XorFits(x, y, 256);
    Xor(x, y)
  }

  // ---- reversal ----

  function Reversed(s: Bytes): Bytes {
    if s == [] then [] else Reversed(s[1..]) + [s[0]]
  }

  lemma {:induction false} ReversedAt(s: Bytes, k: nat)
    requires k < |s|
    ensures |Reversed(s)| == |s| && Reversed(s)[k] == s[|s| - 1 - k]
  {
    if |s| > 1 {
      ReversedAt(s[1..], if k < |s| - 1 then k else 0);
    }
  }

  lemma {:induction false} ReversedLength(s: Bytes)
    ensures |Reversed(s)| == |s|
  {
    if s != [] {
      ReversedAt(s, 0);
    }
  }

  lemma {:induction false} IsReversed(s: Bytes, r: Bytes)
    requires |r| == |s| && forall k :: 0 <= k < |s| ==> r[k] == s[|s| - 1 - k]
    ensures r == Reversed(s)
  {
    if s == [] {
      assert r == [];
    } else {
      ReversedAt(s, 0);
      forall k | 0 <= k < |s|
        ensures Reversed(s)[k] == r[k]
      {
        ReversedAt(s, k);
      }
    }
  }

  /** Swapping twice restores the buffer. */
  lemma {:induction false} SwapTwice(s: Bytes)
    ensures Reversed(Reversed(s)) == s
  {
    if s != [] {
      ReversedAt(s, 0);
      forall k | 0 <= k < |s|
        ensures s[k] == Reversed(s)[|s| - 1 - k]
      {
        ReversedAt(s, |s| - 1 - k);
      }
    }
    IsReversed(Reversed(s), s);
  }

  /** The swapped bytes, read in the other order, are the same number. */
  lemma {:induction false} SwapKeepsTheNumber(s: Bytes)
    ensures BigEndian(Reversed(s)) == FromLittleEndian(s)
    ensures FromLittleEndian(Reversed(s)) == BigEndian(s)
  {
    SwappedReadsBig(s);
    SwapTwice(s);
    SwappedReadsBig(Reversed(s));
  }

  lemma {:induction false} SwappedReadsBig(s: Bytes)
    ensures BigEndian(Reversed(s)) == FromLittleEndian(s)
  {
    if s != [] {
      SwappedReadsBig(s[1..]);
      var r := Reversed(s);
      assert r[..|r| - 1] == Reversed(s[1..]);
    }
  }

  lemma {:induction false} ReversedConcat(a: Bytes, b: Bytes)
    ensures Reversed(a + b) == Reversed(b) + Reversed(a)
  {
    if a == [] {
      assert a + b == b;
    } else {
      assert (a + b)[1..] == a[1..] + b;
      ReversedConcat(a[1..], b);
    }
  }

  // ---- the 32-bit macro ----

  /** SWAPENDIAN32: the four low bytes of a number, exchanged; of a 64-bit number the high bytes are lost. */
  function Swap32(n: nat): uint32 {
    n / 0x100_0000 % 256 + 256 * (n / 0x1_0000 % 256) + 0x1_0000 * (n / 0x100 % 256) + 0x100_0000 * (n % 256)
  }

  lemma {:induction false} SwapOfBytes(n: nat)
    ensures Swap32(n) == BigEndian(LittleEndian(n, 4))
  {
    var b := LittleEndian(n, 4);
    LowBytes(n);
    var x: int, y: int, z: int := b[0], b[1], b[2];
    assert b[..3][..2][..1][..0] == [];
    assert BigEndian(b[..3][..2][..1]) == x;
    assert BigEndian(b[..3][..2]) == 256 * x + y;
    assert BigEndian(b[..3]) == 256 * (256 * x + y) + z;
  }

  lemma {:induction false} LowBytes(n: nat)
    ensures var b := LittleEndian(n, 4);
            && b[0] == n % 256 && b[1] == n / 0x100 % 256
            && b[2] == n / 0x1_0000 % 256 && b[3] == n / 0x100_0000 % 256
  {
    var n1, n2, n3 := n / 256, n / 256 / 256, n / 256 / 256 / 256;
    var b := LittleEndian(n, 4);
    assert b[1..] == LittleEndian(n1, 3) && b[1..][1..] == LittleEndian(n2, 2);
    assert b[1..][1..][1..] == LittleEndian(n3, 1);
    assert b[1] == b[1..][0] && b[2] == b[1..][1..][0] && b[3] == b[1..][1..][1..][0];
  }

  /** The bytes of the number that a byte string denotes. */
  lemma {:induction false} BytesOfNumber(bs: Bytes)
    ensures LittleEndian(FromLittleEndian(bs), |bs|) == bs
  {
    if bs != [] {
      BytesOfNumber(bs[1..]);
      assert FromLittleEndian(bs) % 256 == bs[0] && FromLittleEndian(bs) / 256 == FromLittleEndian(bs[1..]);
    }
  }

  lemma {:induction false} LittleEndianSplit(n: nat, low: nat, high: nat)
    ensures LittleEndian(n, low + high) == LittleEndian(n, low) + LittleEndian(Shifted(n, low), high)
  {
    if low > 0 {
      LittleEndianSplit(n / 256, low - 1, high);
      assert [n % 256] + (LittleEndian(n / 256, low - 1) + LittleEndian(Shifted(n / 256, low - 1), high))
          == [n % 256] + LittleEndian(n / 256, low - 1) + LittleEndian(Shifted(n / 256, low - 1), high);
    }
  }

  /** A number without its low bytes. */
  function Shifted(n: nat, bytes: nat): nat {
    if bytes == 0 then n else Shifted(n / 256, bytes - 1)
  }

  lemma {:induction false} ShiftedFour(n: nat)
    ensures Shifted(n, 4) == n / 0x1_0000_0000
  {
    assert Shifted(n, 4) == Shifted(n / 256, 3) == Shifted(n / 256 / 256, 2);
    assert Shifted(n / 256 / 256, 2) == Shifted(n / 256 / 256 / 256, 1) == n / 256 / 256 / 256 / 256;
  }

  /** A 32-bit number of the other byte order is put right by the macro. */
  lemma {:induction false} SwapReads32(n: uint32)
    ensures Swap32(FromLittleEndian(Reversed(LittleEndian(n, 4)))) == n
  {
    var b := Reversed(LittleEndian(n, 4));
    ReversedAt(LittleEndian(n, 4), 0);
    Widths();
    BytesOfNumber(b);
    SwapOfBytes(FromLittleEndian(b));
    SwapKeepsTheNumber(LittleEndian(n, 4));
    RoundTrip32(n);
  }

  /** Of a 64-bit number of the other byte order it gives the upper half. */
  lemma {:induction false} SwapReads64(n: uint64)
    ensures Swap32(FromLittleEndian(Reversed(LittleEndian(n, 8)))) == n / 0x1_0000_0000
  {
    var half := n / 0x1_0000_0000;
    var low, high := LittleEndian(n, 4), LittleEndian(half, 4);
    var b := Reversed(LittleEndian(n, 8));
    ShiftedFour(n);
    LittleEndianSplit(n, 4, 4);
    ReversedConcat(low, high);
    ReversedAt(low, 0);
    ReversedAt(high, 0);
    Widths();
    BytesOfNumber(b);
    LittleEndianSplit(FromLittleEndian(b), 4, 4);
    assert LittleEndian(FromLittleEndian(b), 4) == b[..4] == Reversed(high);
    SwapOfBytes(FromLittleEndian(b));
    SwapKeepsTheNumber(high);
    RoundTrip32(half);
  }

  // ---- in place ----

  /** Three exclusive ors exchange two cells. */
  method Exchange(a: array<byte>, i: nat, j: nat)
    requires i < j < a.Length
    modifies a
    ensures a[..] == old(a[..])[i := old(a[j])][j := old(a[i])]
  {
    ghost var x, y := a[i], a[j];
    a[i] := XorByte(a[i], a[j]);
    a[j] := XorByte(a[j], a[i]);
    assert a[j] == x by {
      XorCommutes(y, Xor(x, y));
      XorCancels(x, y);
    }
    a[i] := XorByte(a[i], a[j]);
    assert a[i] == y by {
      XorCommutes(x, y);
      XorCancels(y, x);
    }
  }

  method SwapEndian(n: array<byte>)
    modifies n
    ensures n[..] == Reversed(old(n[..]))
  {
    ghost var was := n[..];
    var size := n.Length;
    for i := 0 to size / 2
      invariant forall k :: 0 <= k < i ==> n[k] == was[size - 1 - k] && n[size - 1 - k] == was[k]
      invariant forall k :: i <= k < size - i ==> n[k] == was[k]
    {
      ghost var before := n[..];
      Exchange(n, i, size - (i + 1));
      assert forall k :: 0 <= k < size ==> n[k] == before[i := before[size - 1 - i]][size - 1 - i := before[i]][k];
    }
    IsReversed(was, n[..]);
  }
}
