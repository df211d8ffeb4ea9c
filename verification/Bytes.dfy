/** Machine integers, byte strings and big-endian numbers. */
module Bytes {

  type u8 = x: int | 0 <= x < 0x100
  type u16 = x: int | 0 <= x < 0x1_0000
  type u32 = x: int | 0 <= x < 0x1_0000_0000
  type u64 = x: int | 0 <= x < 0x1_0000_0000_0000_0000

  const MAX_U64: u64 := 0xFFFF_FFFF_FFFF_FFFF
  const TWO_32: nat := 0x1_0000_0000
  const TWO_63: nat := 0x8000_0000_0000_0000
  const TWO_64: nat := 0x1_0000_0000_0000_0000

  type Bytes = seq<u8>
  type Bytes32 = b: Bytes | |b| == 32 witness seq(32, i => 0)
  type Bytes64 = b: Bytes | |b| == 64 witness seq(64, i => 0)

  function Pow256(n: nat): (p: nat)
    ensures p > 0
  {
    if n == 0 then 1 else 256 * Pow256(n - 1)
  }

  /** The `n` low-order bytes of `v`, most significant first. */
  function BigEndian(n: nat, v: nat): (b: Bytes)
    ensures |b| == n
  {
    if n == 0 then [] else BigEndian(n - 1, v / 256) + [v % 256]
  }

  function Value(b: Bytes): nat {
    if b == [] then 0 else 256 * Value(b[..|b| - 1]) + b[|b| - 1]
  }

  lemma {:induction false} ValueOfBigEndian(n: nat, v: nat)
    requires v < Pow256(n)
    ensures Value(BigEndian(n, v)) == v
  {
    if n > 0 {
      ValueOfBigEndian(n - 1, v / 256);
      assert BigEndian(n, v)[..n - 1] == BigEndian(n - 1, v / 256);
    }
  }

  lemma {:induction false} BigEndianOfValue(b: Bytes)
    ensures Value(b) < Pow256(|b|)
    ensures BigEndian(|b|, Value(b)) == b
  {
    if b != [] {
      BigEndianOfValue(b[..|b| - 1]);
    }
  }

  /** Big-endian: the most significant byte comes first. */
  lemma MostSignificantFirst()
    ensures BigEndian(4, 0x0102_0304) == [1, 2, 3, 4] && Value([1, 2, 3, 4]) == 0x0102_0304
  {
    assert BigEndian(1, 0x01) == [1];
    assert BigEndian(2, 0x0102) == [1, 2];
    assert BigEndian(3, 0x01_0203) == [1, 2, 3];
    ValueOfBigEndian(4, 0x0102_0304);
    assert Pow256(4) == 0x1_0000_0000;
  }

  lemma Widths()
    ensures Pow256(2) == 0x1_0000
    ensures Pow256(4) == TWO_32
    ensures Pow256(8) == TWO_64
  {}

  function U16(v: u16): (b: Bytes)
    ensures |b| == 2
  {
    BigEndian(2, v)
  }

  function U32(v: u32): (b: Bytes)
    ensures |b| == 4
  {
    BigEndian(4, v)
  }

  function U64(v: u64): (b: Bytes)
    ensures |b| == 8
  {
    BigEndian(8, v)
  }

  lemma U32Injective(v: u32, w: u32)
    requires U32(v) == U32(w)
    ensures v == w
  {
    Widths();
    ValueOfBigEndian(4, v);
    ValueOfBigEndian(4, w);
  }

  lemma U64Injective(v: u64, w: u64)
    requires U64(v) == U64(w)
    ensures v == w
  {
    Widths();
    ValueOfBigEndian(8, v);
    ValueOfBigEndian(8, w);
  }

  /** A concatenation is cut at the length of its left part in one way only. */
  lemma Cut(a: Bytes, b: Bytes, c: Bytes, d: Bytes)
    requires a + b == c + d
    requires |a| == |c|
    ensures a == c && b == d
  {
    assert a == (a + b)[..|a|];
    assert b == (a + b)[|a|..];
    assert c == (c + d)[..|c|];
    assert d == (c + d)[|c|..];
  }
}
