/** Bytes and the little- and big-endian integers made of them. */
module Bytes {

  type Byte = x: int | 0 <= x < 256

  const TWO16 := 0x1_0000
  const TWO32 := 0x1_0000_0000
  const TWO64 := 0x1_0000_0000_0000_0000

  /** The low 16 bits of a value, in the given byte order (htole16, htobe16). */
  function Bytes16(be: bool, x: nat): (s: seq<Byte>)
    ensures |s| == 2
  {
    var lo, hi := x % 256, x / 256 % 256;
    if be then [hi, lo] else [lo, hi]
  }

  function Bytes32(be: bool, x: nat): (s: seq<Byte>)
    ensures |s| == 4
  {
    if be then Bytes16(be, x / TWO16) + Bytes16(be, x) else Bytes16(be, x) + Bytes16(be, x / TWO16)
  }

  /** le16toh, be16toh */
  function Value16(be: bool, s: seq<Byte>): (x: nat)
    requires |s| == 2
    ensures x < TWO16
  {
    var first: int, second: int := s[0], s[1];
    if be then first * 256 + second else first + second * 256
  }

  function Value32(be: bool, s: seq<Byte>): (x: nat)
    requires |s| == 4
    ensures x < TWO32
  {
    if be then Value16(be, s[..2]) * TWO16 + Value16(be, s[2..])
    else Value16(be, s[..2]) + Value16(be, s[2..]) * TWO16
  }

  /** Writing keeps the low bits and reading gives them back. */
  lemma Value16OfBytes(be: bool, x: nat)
    ensures Value16(be, Bytes16(be, x)) == x % TWO16
  {
    assert x / 256 % 256 * 256 + x % 256 == x % TWO16;
  }

  lemma Value32OfBytes(be: bool, x: nat)
    ensures Value32(be, Bytes32(be, x)) == x % TWO32
  {
    Value16OfBytes(be, x);
    Value16OfBytes(be, x / TWO16);
    var s := Bytes32(be, x);
    assert s[..2] == if be then Bytes16(be, x / TWO16) else Bytes16(be, x);
    assert s[2..] == if be then Bytes16(be, x) else Bytes16(be, x / TWO16);
    assert x / TWO16 % TWO16 * TWO16 + x % TWO16 == x % TWO32;
  }

  /** Cutting a concatenation where its parts meet. */
  lemma Cut<T>(a: seq<T>, b: seq<T>)
    ensures (a + b)[..|a|] == a && (a + b)[|a|..] == b
  {
  }

  /** What bytes stand for: each one is worth 256 times the next one, or the next one 256 times it. */
  function Number(be: bool, s: seq<Byte>): nat {
    if s == [] then 0
    else if be then Number(be, s[..|s| - 1]) * 256 + s[|s| - 1]
    else s[0] + Number(be, s[1..]) * 256
  }

  lemma NumberOfOne(be: bool, a: Byte)
    ensures Number(be, [a]) == a
  {
    assert [a][..0] == [] && [a][1..] == [];
  }

  lemma NumberOfTwo(be: bool, a: Byte, b: Byte)
    ensures Number(be, [a, b]) == if be then a * 256 + b else a + b * 256
  {
    NumberOfOne(be, a);
    NumberOfOne(be, b);
    assert [a, b][..1] == [a] && [a, b][1..] == [b];
  }

  lemma NumberOfFour(be: bool, a: Byte, b: Byte, c: Byte, d: Byte)
    ensures Number(be, [a, b, c, d])
         == if be then ((a * 256 + b) * 256 + c) * 256 + d else a + (b + (c + d * 256) * 256) * 256
  {
    NumberOfTwo(be, a, b);
    NumberOfTwo(be, c, d);
    if be {
      assert [a, b, c, d][..3] == [a, b, c] && [a, b, c][..2] == [a, b];
    } else {
      assert [a, b, c, d][1..] == [b, c, d] && [b, c, d][1..] == [c, d];
    }
  }

  /** What is written stands for the value, and reading finds what is there. */
  lemma NumberOfBytes(be: bool, x: nat)
    ensures Number(be, Bytes16(be, x)) == x % 0x1_0000
    ensures Number(be, Bytes32(be, x)) == x % 0x1_0000_0000
  {
    Value16OfBytes(be, x);
    Value32OfBytes(be, x);
    ValueIsNumber16(be, Bytes16(be, x));
    ValueIsNumber32(be, Bytes32(be, x));
  }

  lemma ValueIsNumber16(be: bool, s: seq<Byte>)
    requires |s| == 2
    ensures Value16(be, s) == Number(be, s)
  {
    NumberOfTwo(be, s[0], s[1]);
    assert s == [s[0], s[1]];
  }

  lemma ValueIsNumber32(be: bool, s: seq<Byte>)
    requires |s| == 4
    ensures Value32(be, s) == Number(be, s)
  {
    NumberOfFour(be, s[0], s[1], s[2], s[3]);
    assert s == [s[0], s[1], s[2], s[3]];
  }
}
