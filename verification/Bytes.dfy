/** Machine integers, byte strings and the little-endian layout of integers in memory. */
module Bytes {

  type byte = x: int | 0 <= x < 256
  type uint32 = x: int | 0 <= x < 0x1_0000_0000
  type uint64 = x: int | 0 <= x < 0x1_0000_0000_0000_0000
  type Bytes = seq<byte>

  datatype Option<+T> = None | Some(value: T)

  /** Conversion to, and arithmetic in, a 32-bit unsigned integer. */
  function Wrap32(x: int): uint32 {
    x % 0x1_0000_0000
  }

  function Wrap64(x: int): uint64 {
    x % 0x1_0000_0000_0000_0000
  }

  function Zeros(n: nat): (r: Bytes)
    ensures |r| == n
  {
    seq(n, _ => 0)
  }

  function Pow256(width: nat): (r: nat)
    ensures r > 0
  {
    if width == 0 then 1 else 256 * Pow256(width - 1)
  }

  /** The `width` bytes of `n`, least significant first: the memory of an integer on a little-endian machine. */
  function LittleEndian(n: nat, width: nat): (r: Bytes)
    ensures |r| == width
  {
    if width == 0 then [] else [n % 256] + LittleEndian(n / 256, width - 1)
  }

  function FromLittleEndian(bs: Bytes): (n: nat)
    ensures n < Pow256(|bs|)
  {
    if bs == [] then 0 else bs[0] + 256 * FromLittleEndian(bs[1..])
  }

  lemma {:induction false} LittleEndianRoundTrip(n: nat, width: nat)
    requires n < Pow256(width)
    ensures FromLittleEndian(LittleEndian(n, width)) == n
  {
    if width > 0 {
      LittleEndianRoundTrip(n / 256, width - 1);
      assert LittleEndian(n, width)[1..] == LittleEndian(n / 256, width - 1);
    }
  }

  lemma {:induction false} Widths()
    ensures Pow256(4) == 0x1_0000_0000
    ensures Pow256(8) == 0x1_0000_0000_0000_0000
  {
    assert Pow256(1) == 256;
    assert Pow256(2) == 256 * 256;
    assert Pow256(4) == 256 * (256 * Pow256(2));
    assert Pow256(6) == 256 * (256 * Pow256(4));
    assert Pow256(8) == 256 * (256 * Pow256(6));
  }

  lemma {:induction false} RoundTrip32(n: uint32)
    ensures FromLittleEndian(LittleEndian(n, 4)) == n
  {
    Widths();
    LittleEndianRoundTrip(n, 4);
  }

  lemma {:induction false} RoundTrip64(n: uint64)
    ensures FromLittleEndian(LittleEndian(n, 8)) == n
  {
    Widths();
    LittleEndianRoundTrip(n, 8);
  }
}
