/**
 The packed CSP headers of csp_id.c: 4 bytes for version 1 (in either byte order),
 6 bytes for version 2. The C code shifts and ors without masking when it packs, and
 masks when it parses.
 */
module CspId {
  import opened Words

  /** `csp_id_t`. */
  datatype Id = Id(pri: bv8, flags: bv8, src: bv16, dst: bv16, dport: bv8, sport: bv8)

  const NO_ID := Id(0, 0, 0, 0, 0, 0)

  /** `csp_conf.version` chooses the format; everything except 2 is handled as version 1. */
  datatype Version = V1 | V2

  function HeaderSize(v: Version): nat {
    if v.V2? then 6 else 4
  }

  function HostBits(v: Version): bv16 {
    if v.V2? then 14 else 5
  }

  function MaxNodeId(v: Version): bv16 {
    if v.V2? then 0x3FFF else 0x1F
  }

  /** Every field within the width its header format has for it. */
  predicate Fits(v: Version, id: Id) {
    match v
    case V1 => id.pri < 4 && id.src < 0x20 && id.dst < 0x20 && id.dport < 0x40 && id.sport < 0x40
    case V2 => id.pri < 4 && id.src < 0x4000 && id.dst < 0x4000 && id.dport < 0x40 && id.sport < 0x40 && id.flags < 0x40
  }

  // ----- prefixes of addresses -----

  function Right(a: bv16, k: bv16): bv16
    requires k <= 14
  {
    a >> k
  }

  function Left(a: bv16, k: bv16): bv16
    requires k <= 14
  {
    a << k
  }

  function Both(a: bv16, mask: bv16): bv16 { a & mask }

  /** How many bits of an address come after its first `length`. */
  function HostLength(v: Version, length: bv16): (k: bv16)
    requires length <= HostBits(v)
    ensures k <= HostBits(v) && k <= 14
  {
    HostBits(v) - length
  }

  /** The first `length` of the bits an address has are the same. */
  predicate SamePrefix(v: Version, length: bv16, a: bv16, b: bv16)
    requires length <= HostBits(v)
  {
    Right(a, HostLength(v, length)) == Right(b, HostLength(v, length))
  }

  predicate NotAbove(a: bv16, b: bv16) { a <= b }

  /** An address the header has room for. */
  predicate IsNode(v: Version, a: bv16) { NotAbove(a, MaxNodeId(v)) }

  /** The last `k` bits, and all bits but these. */
  function Ones(k: bv16): bv16
    requires k <= 14
  {
    ((1 as bv16) << k) - 1
  }

  function Upper(k: bv16): bv16
    requires k <= 14
  {
    (0xFFFF as bv16) << k
  }

  lemma UpperBits(a: bv16, k: bv16)
    requires k <= 14
    ensures Both(a, Upper(k)) == Left(Right(a, k), k)
  {}

  lemma ThereAndBack(a: bv16, k: bv16)
    requires k <= 14
    ensures Right(Left(Right(a, k), k), k) == Right(a, k)
  {}

  lemma SameUpperBits(a: bv16, b: bv16, k: bv16)
    requires k <= 14
    ensures Both(a, Upper(k)) == Both(b, Upper(k)) <==> Right(a, k) == Right(b, k)
  {
    hide Upper, Right, Left, Both;
    UpperBits(a, k);
    UpperBits(b, k);
    ThereAndBack(a, k);
    ThereAndBack(b, k);
  }

  lemma WithinMax(v: Version, a: bv16, u: bv16)
    requires IsNode(v, a)
    ensures Both(a, Both(MaxNodeId(v), u)) == Both(a, u)
  {}

  /** Two addresses agree in their first bits exactly if they agree under the mask of these bits. */
  lemma SameNetworkBits(v: Version, a: bv16, b: bv16, k: bv16)
    requires k <= 14 && IsNode(v, a) && IsNode(v, b)
    ensures var mask := Both(MaxNodeId(v), Upper(k));
            Both(a, mask) == Both(b, mask) <==> Right(a, k) == Right(b, k)
  {
    hide Upper, Right, Both, MaxNodeId, IsNode;
    WithinMax(v, a, Upper(k));
    WithinMax(v, b, Upper(k));
    SameUpperBits(a, b, k);
  }

  function Pack1(id: Id): bv32 {
    (id.pri as bv32 << 30) | (id.dst as bv32 << 20) | (id.src as bv32 << 25)
    | (id.dport as bv32 << 14) | (id.sport as bv32 << 8) | (id.flags as bv32)
  }

  function Parse1(w: bv32): Id {
    Id(((w >> 30) & 0x3) as bv8, (w & 0xFF) as bv8, ((w >> 25) & 0x1F) as bv16,
       ((w >> 20) & 0x1F) as bv16, ((w >> 14) & 0x3F) as bv8, ((w >> 8) & 0x3F) as bv8)
  }

  function Pack2(id: Id): bv64 {
    (id.pri as bv64 << 46) | (id.dst as bv64 << 32) | (id.src as bv64 << 18)
    | (id.dport as bv64 << 12) | (id.sport as bv64 << 6) | (id.flags as bv64)
  }

  function Parse2(w: bv64): Id {
    Id(((w >> 46) & 0x3) as bv8, (w & 0x3F) as bv8, ((w >> 18) & 0x3FFF) as bv16,
       ((w >> 32) & 0x3FFF) as bv16, ((w >> 12) & 0x3F) as bv8, ((w >> 6) & 0x3F) as bv8)
  }

  /** `htole32`, `le32toh`: the byte order of the version 1 fixup. */
  function Le32(w: bv32): (s: seq<byte>)
    ensures |s| == 4
  {
    [(w & 0xFF) as byte, ((w >> 8) & 0xFF) as byte, ((w >> 16) & 0xFF) as byte, (w >> 24) as byte]
  }

  function FromLe32(s: seq<byte>): bv32
    requires |s| == 4
  {
    FromBe32([s[3], s[2], s[1], s[0]])
  }

  /** The first six bytes of `htobe64(w)`. */
  function Be64Head(w: bv64): (s: seq<byte>)
    ensures |s| == 6
  {
    [(w >> 56) as byte, ((w >> 48) & 0xFF) as byte, ((w >> 40) & 0xFF) as byte,
     ((w >> 32) & 0xFF) as byte, ((w >> 24) & 0xFF) as byte, ((w >> 16) & 0xFF) as byte]
  }

  /** `be64toh` of six bytes followed by two zero bytes. */
  function FromBe64Head(s: seq<byte>): bv64
    requires |s| == 6
  {
    (s[0] as bv64 << 56) | (s[1] as bv64 << 48) | (s[2] as bv64 << 40)
    | (s[3] as bv64 << 32) | (s[4] as bv64 << 24) | (s[5] as bv64 << 16)
  }

  /** The 48-bit header travels in the upper end of a 64-bit word. */
  function Up16(w: bv64): bv64 { w << 16 }
  function Down16(w: bv64): bv64 { w >> 16 }

  /** The bytes `csp_id_prepend` puts in front of the data. */
  function Header(v: Version, id: Id): (h: seq<byte>)
    ensures |h| == HeaderSize(v)
  {
    if v.V2? then Be64Head(Up16(Pack2(id))) else Be32(Pack1(id))
  }

  /** The id `csp_id_strip` reads from those bytes. */
  function Parse(v: Version, h: seq<byte>): Id
    requires |h| == HeaderSize(v)
  {
    if v.V2? then Parse2(Down16(FromBe64Head(h))) else Parse1(FromBe32(h))
  }

  lemma Parse1Pack1(id: Id)
    ensures Parse1(Pack1(id)) == id <==> Fits(V1, id)
  {}

  lemma Pack1Parse1(w: bv32)
    ensures Pack1(Parse1(w)) == w && Fits(V1, Parse1(w))
  {}

  lemma Parse2Pack2(id: Id)
    ensures Parse2(Down16(Up16(Pack2(id)))) == id <==> Fits(V2, id)
  {}

  lemma Pack2Parse2(w: bv64)
    ensures Up16(Pack2(Parse2(w))) == Up16(w) && Fits(V2, Parse2(w))
  {}

  lemma Be64HeadRoundTrip(w: bv64)
    ensures FromBe64Head(Be64Head(Up16(w))) == Up16(w)
  {}

  lemma FromBe64HeadRoundTrip(s: seq<byte>)
    requires |s| == 6
    ensures Be64Head(FromBe64Head(s)) == s
    ensures Up16(Down16(FromBe64Head(s))) == FromBe64Head(s)
  {}

  /** Stripping what was prepended gives the id back exactly when every field fits its width. */
  lemma ParseHeader(v: Version, id: Id)
    ensures Parse(v, Header(v, id)) == id <==> Fits(v, id)
    ensures Fits(v, Parse(v, Header(v, id)))
  {
    hide Pack1, Parse1, Pack2, Parse2, Be64Head, FromBe64Head, Be32, FromBe32, Up16, Down16, Fits;
    match v
    case V1 =>
      Be32RoundTrip(Pack1(id));
      Parse1Pack1(id);
      Pack1Parse1(Pack1(id));
    case V2 =>
      Be64HeadRoundTrip(Pack2(id));
      Parse2Pack2(id);
      Pack2Parse2(Down16(Up16(Pack2(id))));
  }

  /** Prepending what was stripped gives the same header bytes back. */
  lemma HeaderParse(v: Version, h: seq<byte>)
    requires |h| == HeaderSize(v)
    ensures Header(v, Parse(v, h)) == h && Fits(v, Parse(v, h))
  {
    hide Pack1, Parse1, Pack2, Parse2, Be64Head, FromBe64Head, Be32, FromBe32, Up16, Down16, Fits;
    match v
    case V1 =>
      FromBe32RoundTrip(h);
      Pack1Parse1(FromBe32(h));
    case V2 =>
      FromBe64HeadRoundTrip(h);
      Pack2Parse2(Down16(FromBe64Head(h)));
  }

  // ----- where the fields are -----

  lemma Bytes1(id: Id)
    requires Fits(V1, id)
    ensures Be32(Pack1(id))
         == [(id.pri << 6) | ((id.src as bv8) << 1) | (id.dst as bv8 >> 4),
             ((id.dst as bv8 & 0xF) << 4) | (id.dport >> 2),
             ((id.dport & 0x3) << 6) | id.sport,
             id.flags]
  {}

  lemma Bytes2(id: Id)
    requires Fits(V2, id)
    ensures Be64Head(Up16(Pack2(id)))
         == [(id.pri << 6) | ((id.dst >> 8) as bv8),
             (id.dst & 0xFF) as bv8,
             (id.src >> 6) as bv8,
             (((id.src & 0x3F) as bv8) << 2) | (id.dport >> 4),
             ((id.dport & 0xF) << 4) | (id.sport >> 2),
             ((id.sport & 0x3) << 6) | id.flags]
  {}

  function Front2(pri: bv8, dst: bv16): seq<byte> {
    [(pri << 6) | ((dst >> 8) as bv8), (dst & 0xFF) as bv8]
  }

  function Back2(dport: bv8, sport: bv8, flags: bv8): seq<byte> {
    [((dport & 0xF) << 4) | (sport >> 2), ((sport & 0x3) << 6) | flags]
  }

  /** What the first and the last two bytes of version 2 depend on. */
  lemma Ends2(id: Id)
    requires Fits(V2, id)
    ensures Header(V2, id)[..2] == Front2(id.pri, id.dst)
    ensures Header(V2, id)[4..] == Back2(id.dport, id.sport, id.flags)
  {
    hide Pack2, Be64Head, Up16;
    Bytes2(id);
  }

  /** A field of 14 bits as two digits. */
  lemma Wide(a: bv16)
    requires a < 0x4000
    ensures Num16(a) == 256 * Num8((a >> 8) as bv8) + Num8((a & 0xFF) as bv8)
    ensures Num16(a) == 64 * Num8((a >> 6) as bv8) + Num8((a & 0x3F) as bv8)
  {}

  /** Fields of 5 and 6 bits as two digits. */
  lemma Narrow(a: bv8)
    ensures Num8(a) == 16 * Num8(a >> 4) + Num8(a & 0xF) && Num8(a) == 4 * Num8(a >> 2) + Num8(a & 0x3)
  {}

  lemma Address1(a: bv16)
    requires a < 0x20
    ensures Num16(a) == Num8(a as bv8)
  {}

  /** Bits side by side in a byte are digits side by side. */
  lemma Digits44(a: bv8, b: bv8)
    requires b < 64
    ensures Num8(((a & 0xF) << 4) | (b >> 2)) == 16 * Num8(a & 0xF) + Num8(b >> 2)
  {}

  lemma Digits26(a: bv16, b: bv8)
    requires b < 64
    ensures Num8((((a & 0x3F) as bv8) << 2) | (b >> 4)) == 4 * Num8((a & 0x3F) as bv8) + Num8(b >> 4)
  {}

  lemma DigitsPair(a: bv8, b: bv8)
    requires b < 64
    ensures Num8(((a & 0x3) << 6) | b) == 64 * Num8(a & 0x3) + Num8(b)
  {}

  lemma DigitsHigh(a: bv8, b: bv16)
    requires a < 4 && b < 0x4000
    ensures Num8((a << 6) | ((b >> 8) as bv8)) == 64 * Num8(a) + Num8((b >> 8) as bv8)
  {}

  lemma DigitsOfThree(a: bv8, b: bv16, c: bv16)
    requires a < 4 && b < 0x20 && c < 0x20
    ensures Num8((a << 6) | ((b as bv8) << 1) | (c as bv8 >> 4))
         == 64 * Num8(a) + 2 * Num8(b as bv8) + Num8(c as bv8 >> 4)
  {}

  /** The header as one number in network byte order: every field has its place in it. */
  lemma HeaderNumber(v: Version, id: Id)
    requires Fits(v, id)
    ensures Number(Header(v, id)) ==
            match v
            case V1 => 0x4000_0000 * Num8(id.pri) + 0x200_0000 * Num16(id.src) + 0x10_0000 * Num16(id.dst)
                       + 0x4000 * Num8(id.dport) + 0x100 * Num8(id.sport) + Num8(id.flags)
            case V2 => 0x4000_0000_0000 * Num8(id.pri) + 0x1_0000_0000 * Num16(id.dst) + 0x4_0000 * Num16(id.src)
                       + 0x1000 * Num8(id.dport) + 0x40 * Num8(id.sport) + Num8(id.flags)
  {
    hide Pack1, Pack2, Be32, Be64Head, Up16, Number, Num8, Num16;
    match v
    case V1 => Number1(id);
    case V2 => Number2(id);
  }

  lemma Number1(id: Id)
    requires Fits(V1, id)
    ensures Number(Be32(Pack1(id)))
         == 0x4000_0000 * Num8(id.pri) + 0x200_0000 * Num16(id.src) + 0x10_0000 * Num16(id.dst)
            + 0x4000 * Num8(id.dport) + 0x100 * Num8(id.sport) + Num8(id.flags)
  {
    hide Pack1, Be32, Number, Num8, Num16;
    NumberOf4(Be32(Pack1(id)));
    Addresses1(id);
    Ports1(id);
  }

  lemma Addresses1(id: Id)
    requires Fits(V1, id)
    ensures 16 * Num8(Be32(Pack1(id))[0]) + Num8(id.dst as bv8 & 0xF)
         == 1024 * Num8(id.pri) + 32 * Num16(id.src) + Num16(id.dst)
  {
    hide Pack1, Be32, Num8, Num16;
    Bytes1(id);
    Address1(id.src);
    Address1(id.dst);
    DigitsOfThree(id.pri, id.src, id.dst);
    Narrow(id.dst as bv8);
  }

  lemma Ports1(id: Id)
    requires Fits(V1, id)
    ensures var h := Be32(Pack1(id));
            0x1_0000 * Num8(h[1]) + 0x100 * Num8(h[2]) + Num8(h[3]) ==
            0x10_0000 * Num8(id.dst as bv8 & 0xF) + 0x4000 * Num8(id.dport) + 0x100 * Num8(id.sport) + Num8(id.flags)
  {
    hide Pack1, Be32, Num8, Num16;
    Bytes1(id);
    Digits44(id.dst as bv8, id.dport);
    Narrow(id.dport);
    DigitsPair(id.dport, id.sport);
  }

  lemma Number2(id: Id)
    requires Fits(V2, id)
    ensures Number(Be64Head(Up16(Pack2(id))))
         == 0x4000_0000_0000 * Num8(id.pri) + 0x1_0000_0000 * Num16(id.dst) + 0x4_0000 * Num16(id.src)
            + 0x1000 * Num8(id.dport) + 0x40 * Num8(id.sport) + Num8(id.flags)
  {
    hide Pack2, Be64Head, Up16, Number, Num8, Num16;
    var s := Be64Head(Up16(Pack2(id)));
    NumberOf4(s[..4]);
    NumberSnoc(s[..4], s[4]);
    NumberSnoc(s[..5], s[5]);
    assert s[..5] == s[..4] + [s[4]] && s == s[..5] + [s[5]];
    Destination2(id);
    Source2(id);
    Ports2(id);
  }

  lemma Destination2(id: Id)
    requires Fits(V2, id)
    ensures var h := Be64Head(Up16(Pack2(id)));
            256 * Num8(h[0]) + Num8(h[1]) == 0x4000 * Num8(id.pri) + Num16(id.dst)
  {
    hide Pack2, Be64Head, Up16, Num8, Num16;
    Bytes2(id);
    Wide(id.dst);
    DigitsHigh(id.pri, id.dst);
  }

  lemma Source2(id: Id)
    requires Fits(V2, id)
    ensures var h := Be64Head(Up16(Pack2(id)));
            256 * Num8(h[2]) + Num8(h[3]) == 4 * Num16(id.src) + Num8(id.dport >> 4)
  {
    hide Pack2, Be64Head, Up16, Num8, Num16;
    Bytes2(id);
    Wide(id.src);
    Digits26(id.src, id.dport);
  }

  lemma Ports2(id: Id)
    requires Fits(V2, id)
    ensures var h := Be64Head(Up16(Pack2(id)));
            0x1_0000 * Num8(id.dport >> 4) + 256 * Num8(h[4]) + Num8(h[5]) ==
            0x1000 * Num8(id.dport) + 64 * Num8(id.sport) + Num8(id.flags)
  {
    hide Pack2, Be64Head, Up16, Num8, Num16;
    Bytes2(id);
    Narrow(id.dport);
    Digits44(id.dport, id.sport);
    Narrow(id.sport);
    DigitsPair(id.sport, id.flags);
  }

  /** The version 1 header of `csp_id_prepend_fixup_cspv1`, in little-endian byte order. */
  lemma FixupRoundTrip(id: Id, h: seq<byte>)
    requires |h| == 4
    ensures Parse1(FromLe32(Le32(Pack1(id)))) == id <==> Fits(V1, id)
    ensures Le32(Pack1(Parse1(FromLe32(h)))) == h
  {
    hide Pack1, Parse1, FromBe32, Be32, Fits;
    Le32RoundTrip(Pack1(id));
    Parse1Pack1(id);
    Pack1Parse1(FromLe32(h));
    FromBe32RoundTrip([h[3], h[2], h[1], h[0]]);
    LeIsReversedBe(FromLe32(h));
  }

  lemma Le32RoundTrip(w: bv32)
    ensures FromLe32(Le32(w)) == w
  {}

  lemma LeIsReversedBe(w: bv32)
    ensures var b := Be32(w); Le32(w) == [b[3], b[2], b[1], b[0]]
  {}
}
