/**
 Machine words. Bytes are `bv8` and the 32-bit registers of the C code are `bv32`.
 The proofs about words of arbitrary length use the laws below and hide the three
 operations, so that they never descend to single bits.
 */
module Words {
  type byte = bv8

  datatype Option<+T> = None | Some(value: T)

  function Xor(x: bv32, y: bv32): bv32 { x ^ y }
  function Half(x: bv32): bv32 { x >> 1 }
  predicate Odd(x: bv32) { x & 1 == 1 }

  lemma XorSwap(a: bv32, b: bv32, c: bv32, d: bv32)
    ensures Xor(Xor(a, b), Xor(c, d)) == Xor(Xor(a, c), Xor(b, d))
  {
    hide Xor;
    XorAssoc(Xor(a, b), c, d);
    XorAssoc(a, b, c);
    XorAssoc(a, c, b);
    XorCancel(b, c);
    XorAssoc(Xor(a, c), b, d);
  }

  lemma XorAssoc(a: bv32, b: bv32, c: bv32)
    ensures Xor(a, Xor(b, c)) == Xor(Xor(a, b), c)
  {}

  lemma XorCancel(a: bv32, b: bv32)
    ensures Xor(a, a) == 0 && Xor(a, 0) == a && Xor(0, a) == a
    ensures Xor(Xor(a, b), b) == a && Xor(a, b) == Xor(b, a)
    ensures Xor(a, b) == 0 ==> a == b
  {}

  lemma HalfXor(x: bv32, y: bv32)
    ensures Half(Xor(x, y)) == Xor(Half(x), Half(y))
    ensures Odd(Xor(x, y)) == (Odd(x) != Odd(y))
  {
    assert x & 1 == 0 || x & 1 == 1;
    assert y & 1 == 0 || y & 1 == 1;
    assert (x ^ y) & 1 == (x & 1) ^ (y & 1);
  }

  /** `htobe32` followed by a `memcpy` into a byte buffer. */
  function Be32(w: bv32): (s: seq<byte>)
    ensures |s| == 4
  {
    [(w >> 24) as byte, ((w >> 16) & 0xFF) as byte, ((w >> 8) & 0xFF) as byte, (w & 0xFF) as byte]
  }

  /** `memcpy` out of a byte buffer followed by `be32toh`. */
  function FromBe32(s: seq<byte>): bv32
    requires |s| == 4
  {
    ((s[0] as bv32) << 24) | ((s[1] as bv32) << 16) | ((s[2] as bv32) << 8) | (s[3] as bv32)
  }

  lemma Be32RoundTrip(w: bv32)
    ensures FromBe32(Be32(w)) == w
  {}

  // ----- words as numbers -----

  function Num8(b: bv8): nat { b as nat }
  function Num16(w: bv16): nat { w as nat }

  function Nibble(k: nat): (b: byte)
    requires k < 16
    ensures b < 16 && Num8(b) == k
  {
    match k
    case 0 => 0 case 1 => 1 case 2 => 2 case 3 => 3 case 4 => 4 case 5 => 5 case 6 => 6 case 7 => 7
    case 8 => 8 case 9 => 9 case 10 => 10 case 11 => 11 case 12 => 12 case 13 => 13 case 14 => 14 case _ => 15
  }

  function Join(high: byte, low: byte): byte { (high << 4) | low }

  lemma JoinNumber(high: byte, low: byte)
    requires high < 16 && low < 16
    ensures Num8(Join(high, low)) == 16 * Num8(high) + Num8(low)
  {}

  /** The byte that holds a number. */
  function ByteOf(n: nat): byte
    requires n < 256
  {
    Join(Nibble(n / 16), Nibble(n % 16))
  }

  lemma ByteOfNumber(n: nat)
    requires n < 256
    ensures Num8(ByteOf(n)) == n
  {
    hide Nibble, Join, Num8;
    JoinNumber(Nibble(n / 16), Nibble(n % 16));
  }

  /** The number a string of bytes spells, most significant byte first. */
  function Number(s: seq<byte>): nat {
    if s == [] then 0 else 256 * Number(s[..|s| - 1]) + Num8(s[|s| - 1])
  }

  lemma NumberSnoc(s: seq<byte>, b: byte)
    ensures Number(s + [b]) == 256 * Number(s) + Num8(b)
  {
    assert (s + [b])[..|s|] == s;
  }

  lemma NumberOf4(s: seq<byte>)
    requires |s| == 4
    ensures Number(s) == 0x100_0000 * Num8(s[0]) + 0x1_0000 * Num8(s[1]) + 0x100 * Num8(s[2]) + Num8(s[3])
  {
    hide Num8;
    assert s[..3][..2] == s[..2] && s[..2][..1] == s[..1] && s[..1][..0] == [];
    assert Number(s[..1]) == Num8(s[0]);
    assert Number(s[..2]) == 256 * Number(s[..1]) + Num8(s[1]);
    assert Number(s[..3]) == 256 * Number(s[..2]) + Num8(s[2]);
  }

  lemma HalfWord(w: bv16)
    ensures Num16(w) == 256 * Num8((w >> 8) as byte) + Num8((w & 0xFF) as byte)
  {}

  lemma Halves(w: bv32)
    ensures var s := Be32(w);
            && s[0] == ((w >> 16) as bv16 >> 8) as byte && s[1] == ((w >> 16) as bv16 & 0xFF) as byte
            && s[2] == ((w & 0xFFFF) as bv16 >> 8) as byte && s[3] == ((w & 0xFFFF) as bv16 & 0xFF) as byte
  {}

  /** The bytes of a word spell its upper and its lower half. */
  lemma Be32Number(w: bv32)
    ensures Number(Be32(w)) == 0x1_0000 * Num16((w >> 16) as bv16) + Num16((w & 0xFFFF) as bv16)
  {
    hide Be32, Num8, Num16, Number;
    Halves(w);
    HalfWord((w >> 16) as bv16);
    HalfWord((w & 0xFFFF) as bv16);
    NumberOf4(Be32(w));
  }

  lemma FromBe32RoundTrip(s: seq<byte>)
    requires |s| == 4
    ensures Be32(FromBe32(s)) == s
  {}
}
