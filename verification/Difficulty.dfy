/** Proof of work: a digest meets a difficulty when it has that many leading zero bits. */
module Difficulty {
  import opened Bytes
  import opened Crypto

  function Pow2(n: nat): (r: nat)
    ensures r > 0
  {
    if n == 0 then 1 else 2 * Pow2(n - 1)
  }

  /** A byte string as a number, most significant byte first. */
  function BigEndian(bs: Bytes): nat {
    if bs == [] then 0 else 256 * BigEndian(bs[..|bs| - 1]) + bs[|bs| - 1]
  }

  /** The digest, as a 256-bit number, is below 2^(256 - difficulty). */
  predicate Meets(hash: Digest, difficulty: uint32)
    requires difficulty <= 256
  {
    BigEndian(hash) < Pow2(256 - difficulty)
  }

  lemma {:induction false} Pow2Add(a: nat, b: nat)
    ensures Pow2(a + b) == Pow2(a) * Pow2(b)
  {
    if a > 0 {
      Pow2Add(a - 1, b);
    }
  }

  lemma {:induction false} Pow2Bytes(n: nat)
    ensures Pow2(8 * n) == Pow256(n)
  {
    if n > 0 {
      Pow2Bytes(n - 1);
      Pow2Add(8, 8 * (n - 1));
      assert Pow2(8) == 256 by {
        assert Pow2(4) == 16;
        Pow2Add(4, 4);
      }
    }
  }

  lemma {:induction false} Pow2Monotone(a: nat, b: nat)
    requires a <= b
    ensures Pow2(a) <= Pow2(b)
    decreases b - a
  {
    if a < b {
      Pow2Monotone(a + 1, b);
    }
  }

  lemma {:induction false} BigEndianBound(bs: Bytes)
    ensures BigEndian(bs) < Pow256(|bs|)
  {
    if bs != [] {
      BigEndianBound(bs[..|bs| - 1]);
    }
  }

  lemma {:induction false} BigEndianSplit(a: Bytes, b: Bytes)
    ensures BigEndian(a + b) == BigEndian(a) * Pow256(|b|) + BigEndian(b)
  {
    if b == [] {
      assert a + b == a;
    } else {
      var n := |b| - 1;
      BigEndianSplit(a, b[..n]);
      assert (a + b)[..|a| + n] == a + b[..n] && (a + b)[|a| + n] == b[n];
      Regroup(BigEndian(a), Pow256(n), BigEndian(b[..n]), b[n]);
    }
  }

  lemma {:induction false} Regroup(x: nat, p: nat, y: nat, d: nat)
    ensures 256 * (x * p + y) + d == x * (256 * p) + (256 * y + d)
  {
  }

  lemma {:induction false} BigEndianZero(bs: Bytes)
    ensures BigEndian(bs) == 0 <==> forall k :: 0 <= k < |bs| ==> bs[k] == 0
  {
    if bs != [] {
      var n := |bs| - 1;
      BigEndianZero(bs[..n]);
      assert forall k :: 0 <= k < n ==> bs[..n][k] == bs[k];
    }
  }

  /** A number with a high part x below it is under the bound y * p exactly when its high part is under y. */
  lemma {:induction false} HighPart(x: nat, y: nat, p: nat, low: nat)
    requires low < p
    ensures x * p + low < y * p <==> x < y
  {
    if x < y {
      assert (x + 1) * p <= y * p;
    } else {
      assert x * p >= y * p;
    }
  }

  /** The full zero bytes decide the first 8 * k bits. */
  lemma {:induction false} FullBytes(hash: Digest, k: nat)
    requires k <= 32
    ensures BigEndian(hash) < Pow256(32 - k) <==> forall i :: 0 <= i < k ==> hash[i] == 0
  {
    var a, b := hash[..k], hash[k..];
    assert hash == a + b;
    BigEndianSplit(a, b);
    BigEndianBound(b);
    HighPart(BigEndian(a), 1, Pow256(32 - k), BigEndian(b));
    BigEndianZero(a);
  }

  /** Below k zero bytes, the next byte decides r more bits. */
  lemma {:induction false} PartialByte(hash: Digest, k: nat, r: nat)
    requires k < 32 && 0 < r < 8
    requires forall i :: 0 <= i < k ==> hash[i] == 0
    ensures BigEndian(hash) < Pow2(8 - r) * Pow256(31 - k) <==> hash[k] / Pow2(8 - r) == 0
  {
    var a, b := hash[..k + 1], hash[k + 1..];
    assert hash == a + b;
    BigEndianSplit(a, b);
    BigEndianBound(b);
    assert a[..k] == hash[..k];
    BigEndianZero(a[..k]);
    assert BigEndian(a) == hash[k];
    HighPart(hash[k], Pow2(8 - r), Pow256(31 - k), BigEndian(b));
    SmallQuotient(hash[k], Pow2(8 - r));
  }

  lemma {:induction false} SmallQuotient(x: nat, y: nat)
    requires y > 0
    ensures x / y == 0 <==> x < y
  {
    assert x == (x / y) * y + x % y;
  }

  /** A difficulty of k bytes and r bits is met exactly when the bytes are zero and so are the bits behind them. */
  lemma {:induction false} MeetsByBytes(hash: Digest, k: nat, r: nat)
    requires r < 8 && 8 * k + r <= 256
    ensures Meets(hash, 8 * k + r)
            <==> (forall i :: 0 <= i < k ==> hash[i] == 0) && (r != 0 ==> hash[k] / Pow2(8 - r) == 0)
  {
    FullBytes(hash, k);
    if r == 0 {
      Pow2Bytes(32 - k);
    } else {
      Pow2Bytes(31 - k);
      Pow2Add(8 - r, 8 * (31 - k));
      assert Pow2(256 - (8 * k + r)) == Pow2(8 - r) * Pow256(31 - k);
      if forall i :: 0 <= i < k ==> hash[i] == 0 {
        PartialByte(hash, k, r);
      } else {
        Pow2Bytes(32 - k);
        Pow2Monotone(256 - (8 * k + r), 8 * (32 - k));
      }
    }
  }

  /** The byte loop and the shift test exactly the numeric bound. */
  method HashMatchesDifficulty(hash: Digest, difficulty: uint32) returns (ok: bool)
    requires difficulty <= 256
    ensures ok <==> Meets(hash, difficulty)
  {
    var fullBytes, remainingBits := difficulty / 8, difficulty % 8;
    MeetsByBytes(hash, fullBytes, remainingBits);
    for i := 0 to fullBytes
      invariant forall k :: 0 <= k < i ==> hash[k] == 0
    {
      if hash[i] != 0 {
        return false;
      }
    }
    if remainingBits != 0 {
      if hash[fullBytes] / Pow2(8 - remainingBits) != 0 {
        return false;
      }
    }
    return true;
  }

  /** What a byte has to stay below for its r highest bits to be zero. */
  function Below(r: nat): nat
    requires r < 8
  {
    [256, 128, 64, 32, 16, 8, 4, 2][r]
  }

  lemma {:induction false} BelowIs(r: nat)
    requires r < 8
    ensures Below(r) == Pow2(8 - r)
  {
    assert Pow2(4) == 16;
    Pow2Add(4, 4);
    Pow2Add(1, 4);
    Pow2Add(2, 4);
    Pow2Add(3, 4);
  }

  /** Bit by bit: a digest meets a difficulty exactly when that many of its highest bits are zero. */
  lemma {:induction false} MeetsByBits(hash: Digest, difficulty: uint32)
    requires difficulty <= 256
    ensures Meets(hash, difficulty)
            <==> && (forall k :: 0 <= k < difficulty / 8 ==> hash[k] == 0)
                 && (difficulty % 8 != 0 ==> hash[difficulty / 8] < Below(difficulty % 8))
  {
    var k, r := difficulty / 8, difficulty % 8;
    FullBytes(hash, k);
    if r == 0 {
      Pow2Bytes(32 - k);
    } else {
      Pow2Bytes(31 - k);
      Pow2Add(8 - r, 8 * (31 - k));
      BelowIs(r);
      SmallQuotient(hash[k], Pow2(8 - r));
      if forall i :: 0 <= i < k ==> hash[i] == 0 {
        PartialByte(hash, k, r);
      } else {
        Pow2Bytes(32 - k);
        Pow2Monotone(256 - difficulty, 8 * (32 - k));
      }
    }
  }

  lemma {:induction false} MeetsMonotone(hash: Digest, d: uint32, d': uint32)
    requires d <= d' <= 256 && Meets(hash, d')
    ensures Meets(hash, d)
  {
    Pow2Monotone(256 - d', 256 - d);
  }

  /** At difficulty 256 only the all-zero digest passes. */
  lemma {:induction false} MeetsExtremes(hash: Digest)
    ensures Meets(hash, 0)
    ensures Meets(hash, 256) <==> hash == Zeros(32)
  {
    BigEndianBound(hash);
    Pow2Bytes(32);
    BigEndianZero(hash);
  }
}
