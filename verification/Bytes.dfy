/** Optional values and fallible results, as the Go code's (value, ok) and (value, err) pairs. */
module Common {
  datatype Option<+T> = None | Some(value: T)

  datatype Result<+T, +E> = Ok(value: T) | Err(error: E)
}

/** Bytes, fixed-size byte arrays, and little-endian integers. */
module Bytes {
  type byte = b: nat | b < 256

  const TWO_32: nat := 0x1_0000_0000
  const TWO_64: nat := 0x1_0000_0000_0000_0000

  type uint64 = x: nat | x < TWO_64

  type Bytes20 = s: seq<byte> | |s| == 20 witness Zeros(20)
  type Bytes32 = s: seq<byte> | |s| == 32 witness Zeros(32)
  type Bytes48 = s: seq<byte> | |s| == 48 witness Zeros(48)
  type Bytes96 = s: seq<byte> | |s| == 96 witness Zeros(96)
  type Bytes256 = s: seq<byte> | |s| == 256 witness Zeros(256)

  /** The zero value of a byte array of length n. */
  function Zeros(n: nat): (s: seq<byte>)
    ensures |s| == n
  {
    seq(n, _ => 0)
  }

  /** Go's unsigned 64-bit arithmetic: the mathematical result, reduced modulo 2^64. */
  function Wrap64(x: int): (r: uint64)
    ensures 0 <= x < TWO_64 ==> r == x
  {
    x % 0x1_0000_0000_0000_0000
  }

  function Pow256(k: nat): (p: nat)
    ensures p > 0
  {
    if k == 0 then 1 else 256 * Pow256(k - 1)
  }

  /** The k low-order bytes of x, least significant first. */
  function LeBytes(x: nat, k: nat): (s: seq<byte>)
    ensures |s| == k
    ensures k > 0 ==> s[0] == x % 256
    decreases k, x
  {
    if k == 0 then [] else [x % 256] + LeBytes(x / 256, k - 1)
  }

  function LeNat(s: seq<byte>): nat {
    if s == [] then 0 else s[0] + 256 * LeNat(s[1..])
  }

  lemma {:induction false} LeNatOfLeBytes(x: nat, k: nat)
    requires x < Pow256(k)
    ensures LeNat(LeBytes(x, k)) == x
    decreases k
  {
    if k == 0 {
    } else {
      LeNatOfLeBytes(x / 256, k - 1);
      assert LeBytes(x, k)[1..] == LeBytes(x / 256, k - 1);
    }
  }

  lemma {:induction false} LeBytesOfLeNat(s: seq<byte>)
    ensures LeNat(s) < Pow256(|s|)
    ensures LeBytes(LeNat(s), |s|) == s
  {
    if s == [] {
    } else {
      LeBytesOfLeNat(s[1..]);
      assert LeNat(s) / 256 == LeNat(s[1..]);
    }
  }

  /** Writing k bytes of x and reading them back keeps x modulo 256^k: what a truncating cast does. */
  lemma {:induction false} LeNatTruncates(x: nat, y: nat, k: nat)
    ensures LeBytes(x + Pow256(k) * y, k) == LeBytes(x, k)
    decreases k
  {
    if k == 0 {
    } else {
      var p := Pow256(k - 1);
      assert Pow256(k) * y == 256 * (p * y);
      assert (x + 256 * (p * y)) / 256 == x / 256 + p * y;
      assert (x + 256 * (p * y)) % 256 == x % 256;
      LeNatTruncates(x / 256, y, k - 1);
    }
  }

  lemma Pow256Values()
    ensures Pow256(4) == TWO_32
    ensures Pow256(8) == TWO_64
  {
    assert Pow256(4) == 256 * (256 * (256 * (256 * Pow256(0))));
    assert Pow256(8) == 256 * (256 * (256 * (256 * Pow256(4))));
  }

  lemma LeNat32(x: nat)
    ensures LeNat(LeBytes(x, 4)) == x % 0x1_0000_0000
  {
    Pow256Values();
    var r, q := x % 0x1_0000_0000, x / 0x1_0000_0000;
    assert x == r + Pow256(4) * q;
    LeNatTruncates(r, q, 4);
    LeNatOfLeBytes(r, 4);
  }

  lemma LeNat64(x: uint64)
    ensures LeNat(LeBytes(x, 8)) == x
  {
    Pow256Values();
    LeNatOfLeBytes(x, 8);
  }

  function Reverse(s: seq<byte>): (r: seq<byte>)
    ensures |r| == |s|
    ensures forall i :: 0 <= i < |s| ==> r[i] == s[|s| - 1 - i]
  {
    seq(|s|, i requires 0 <= i < |s| => s[|s| - 1 - i])
  }
}
