/** Fixed-width unsigned integers and their little-endian layout, as the OTA file
    format and the OTA cluster frames use them. */
module Bytes {

  type u8 = x: int | 0 <= x < 0x100
  type u16 = x: int | 0 <= x < 0x1_0000
  type u32 = x: int | 0 <= x < 0x1_0000_0000
  type u64 = x: int | 0 <= x < 0x1_0000_0000_0000_0000

  /** A byte array: its size is a non-negative 32-bit signed integer. */
  type ByteArray = s: seq<u8> | |s| < 0x8000_0000

  function Min(a: int, b: int): int {
    if a < b then a else b
  }

  /** The n bytes a little-endian stream writes for x. */
  function Le(x: nat, n: nat): (bs: seq<u8>)
    ensures |bs| == n
  {
    if n == 0 then [] else [x % 256] + Le(x / 256, n - 1)
  }

  function Value(bs: seq<u8>): nat {
    if bs == [] then 0 else bs[0] as int + 256 * Value(bs[1..])
  }

  lemma {:induction false} ValueBound(bs: seq<u8>)
    ensures Value(bs) < Pow256(|bs|)
  {
    if bs != [] { ValueBound(bs[1..]); }
  }

  function Pow256(n: nat): nat {
    if n == 0 then 1 else 256 * Pow256(n - 1)
  }

  lemma {:induction false} PowLiterals()
    ensures Pow256(2) == 0x1_0000 && Pow256(4) == 0x1_0000_0000 && Pow256(8) == 0x1_0000_0000_0000_0000
  {
    assert Pow256(2) == 256 * Pow256(1) && Pow256(1) == 256;
    assert Pow256(4) == 256 * Pow256(3) && Pow256(3) == 256 * Pow256(2);
    assert Pow256(6) == 256 * Pow256(5) && Pow256(5) == 256 * Pow256(4);
    assert Pow256(8) == 256 * Pow256(7) && Pow256(7) == 256 * Pow256(6);
  }

  // What a little-endian stream over s yields at position p: a read that would run past the
  // end consumes what is left and yields 0.

  function Get8(s: seq<u8>, p: nat): u8 {
    if p + 1 <= |s| then s[p] else 0
  }

  function Get16(s: seq<u8>, p: nat): u16 {
    if p + 2 <= |s| then PowLiterals(); ValueBound(s[p..p + 2]); Value(s[p..p + 2]) else 0
  }

  function Get32(s: seq<u8>, p: nat): u32 {
    if p + 4 <= |s| then PowLiterals(); ValueBound(s[p..p + 4]); Value(s[p..p + 4]) else 0
  }

  function Get64(s: seq<u8>, p: nat): u64 {
    if p + 8 <= |s| then PowLiterals(); ValueBound(s[p..p + 8]); Value(s[p..p + 8]) else 0
  }

  /** Reading back what was written. */
  lemma {:induction false} ValueOfLe(x: nat, n: nat)
    requires x < Pow256(n)
    ensures Value(Le(x, n)) == x
  {
    if n > 0 {
      ValueOfLe(x / 256, n - 1);
      assert Le(x, n)[1..] == Le(x / 256, n - 1);
    }
  }

  /** Writing back what was read. */
  lemma {:induction false} LeOfValue(bs: seq<u8>)
    ensures Le(Value(bs), |bs|) == bs
  {
    if bs != [] {
      LeOfValue(bs[1..]);
      assert bs == [bs[0]] + bs[1..];
    }
  }

  lemma {:induction false} Read16(s: seq<u8>, p: nat, x: u16)
    requires p + 2 <= |s| && s[p..p + 2] == Le(x, 2)
    ensures Get16(s, p) == x
  {
    PowLiterals();
    ValueOfLe(x, 2);
  }

  lemma {:induction false} Read32(s: seq<u8>, p: nat, x: u32)
    requires p + 4 <= |s| && s[p..p + 4] == Le(x, 4)
    ensures Get32(s, p) == x
  {
    PowLiterals();
    ValueOfLe(x, 4);
  }

  lemma {:induction false} Read64(s: seq<u8>, p: nat, x: u64)
    requires p + 8 <= |s| && s[p..p + 8] == Le(x, 8)
    ensures Get64(s, p) == x
  {
    PowLiterals();
    ValueOfLe(x, 8);
  }

  lemma {:induction false} Write16(s: seq<u8>, p: nat)
    requires p + 2 <= |s|
    ensures Le(Get16(s, p), 2) == s[p..p + 2]
  {
    LeOfValue(s[p..p + 2]);
  }

  lemma {:induction false} Write32(s: seq<u8>, p: nat)
    requires p + 4 <= |s|
    ensures Le(Get32(s, p), 4) == s[p..p + 4]
  {
    LeOfValue(s[p..p + 4]);
  }

  /** A read inside a prefix of s sees the same bytes. */
  lemma {:induction false} GetOfPrefix(s: seq<u8>, m: nat, p: nat)
    requires m <= |s|
    ensures p + 1 <= m ==> Get8(s[..m], p) == Get8(s, p)
    ensures p + 2 <= m ==> Get16(s[..m], p) == Get16(s, p)
    ensures p + 4 <= m ==> Get32(s[..m], p) == Get32(s, p)
    ensures p + 8 <= m ==> Get64(s[..m], p) == Get64(s, p)
  {
    if p + 2 <= m { assert s[..m][p..p + 2] == s[p..p + 2]; }
    if p + 4 <= m { assert s[..m][p..p + 4] == s[p..p + 4]; }
    if p + 8 <= m { assert s[..m][p..p + 8] == s[p..p + 8]; }
  }

  /** A read behind the first m bytes of s. */
  lemma {:induction false} GetOfSuffix(s: seq<u8>, m: nat, p: nat)
    requires m <= |s|
    ensures Get8(s[m..], p) == Get8(s, m + p)
    ensures Get16(s[m..], p) == Get16(s, m + p)
    ensures Get32(s[m..], p) == Get32(s, m + p)
    ensures Get64(s[m..], p) == Get64(s, m + p)
  {
    if m + p + 2 <= |s| { assert s[m..][p..p + 2] == s[m + p..m + p + 2]; }
    if m + p + 4 <= |s| { assert s[m..][p..p + 4] == s[m + p..m + p + 4]; }
    if m + p + 8 <= |s| { assert s[m..][p..p + 8] == s[m + p..m + p + 8]; }
  }
}
