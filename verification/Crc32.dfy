/**
 CRC-32C: the table-driven register of csp_crc32.c against bit-by-bit polynomial division.
 Section 12.1 of RFC 3720 gives the generator 0x1EDC6F41, the complemented first 32 bits,
 the bit order (least significant bit of a byte first) and the complemented remainder.
 */
module Crc32 {
  import opened Words

  /** The generator without its x^32 term, highest power in the most significant bit. */
  const GENERATOR: bv32 := 0x1EDC6F41
  /** The same generator as the register sees it: highest power in the least significant bit. */
  const REFLECTED: bv32 := 0x82F63B78

  // ----- the table -----

  /** One row of eight entries of `crc_tab`. */
  datatype Row8 = Row8(v0: bv32, v1: bv32, v2: bv32, v3: bv32, v4: bv32, v5: bv32, v6: bv32, v7: bv32) {
    function At(c: bv8): bv32 {
      match c
      case 0 => v0
      case 1 => v1
      case 2 => v2
      case 3 => v3
      case 4 => v4
      case 5 => v5
      case 6 => v6
      case _ => v7
    }

    /** The row is the first row shifted by its own first entry. */
    predicate Affine() {
      && v1 == Xor(v0, 0xF26B8303)
      && v2 == Xor(v0, 0xE13B70F7)
      && v3 == Xor(v0, 0x1350F3F4)
      && v4 == Xor(v0, 0xC79A971F)
      && v5 == Xor(v0, 0x35F1141C)
      && v6 == Xor(v0, 0x26A1E7E8)
      && v7 == Xor(v0, 0xD4CA64EB)
    }
  }

  function TableRow(r: bv8): Row8 {
    match r
    case  0 => Row8(0x00000000, 0xF26B8303, 0xE13B70F7, 0x1350F3F4, 0xC79A971F, 0x35F1141C, 0x26A1E7E8, 0xD4CA64EB)
    case  1 => Row8(0x8AD958CF, 0x78B2DBCC, 0x6BE22838, 0x9989AB3B, 0x4D43CFD0, 0xBF284CD3, 0xAC78BF27, 0x5E133C24)
    case  2 => Row8(0x105EC76F, 0xE235446C, 0xF165B798, 0x030E349B, 0xD7C45070, 0x25AFD373, 0x36FF2087, 0xC494A384)
    case  3 => Row8(0x9A879FA0, 0x68EC1CA3, 0x7BBCEF57, 0x89D76C54, 0x5D1D08BF, 0xAF768BBC, 0xBC267848, 0x4E4DFB4B)
    case  4 => Row8(0x20BD8EDE, 0xD2D60DDD, 0xC186FE29, 0x33ED7D2A, 0xE72719C1, 0x154C9AC2, 0x061C6936, 0xF477EA35)
    case  5 => Row8(0xAA64D611, 0x580F5512, 0x4B5FA6E6, 0xB93425E5, 0x6DFE410E, 0x9F95C20D, 0x8CC531F9, 0x7EAEB2FA)
    case  6 => Row8(0x30E349B1, 0xC288CAB2, 0xD1D83946, 0x23B3BA45, 0xF779DEAE, 0x05125DAD, 0x1642AE59, 0xE4292D5A)
    case  7 => Row8(0xBA3A117E, 0x4851927D, 0x5B016189, 0xA96AE28A, 0x7DA08661, 0x8FCB0562, 0x9C9BF696, 0x6EF07595)
    case  8 => Row8(0x417B1DBC, 0xB3109EBF, 0xA0406D4B, 0x522BEE48, 0x86E18AA3, 0x748A09A0, 0x67DAFA54, 0x95B17957)
    case  9 => Row8(0xCBA24573, 0x39C9C670, 0x2A993584, 0xD8F2B687, 0x0C38D26C, 0xFE53516F, 0xED03A29B, 0x1F682198)
    case 10 => Row8(0x5125DAD3, 0xA34E59D0, 0xB01EAA24, 0x42752927, 0x96BF4DCC, 0x64D4CECF, 0x77843D3B, 0x85EFBE38)
    case 11 => Row8(0xDBFC821C, 0x2997011F, 0x3AC7F2EB, 0xC8AC71E8, 0x1C661503, 0xEE0D9600, 0xFD5D65F4, 0x0F36E6F7)
    case 12 => Row8(0x61C69362, 0x93AD1061, 0x80FDE395, 0x72966096, 0xA65C047D, 0x5437877E, 0x4767748A, 0xB50CF789)
    case 13 => Row8(0xEB1FCBAD, 0x197448AE, 0x0A24BB5A, 0xF84F3859, 0x2C855CB2, 0xDEEEDFB1, 0xCDBE2C45, 0x3FD5AF46)
    case 14 => Row8(0x7198540D, 0x83F3D70E, 0x90A324FA, 0x62C8A7F9, 0xB602C312, 0x44694011, 0x5739B3E5, 0xA55230E6)
    case 15 => Row8(0xFB410CC2, 0x092A8FC1, 0x1A7A7C35, 0xE811FF36, 0x3CDB9BDD, 0xCEB018DE, 0xDDE0EB2A, 0x2F8B6829)
    case 16 => Row8(0x82F63B78, 0x709DB87B, 0x63CD4B8F, 0x91A6C88C, 0x456CAC67, 0xB7072F64, 0xA457DC90, 0x563C5F93)
    case 17 => Row8(0x082F63B7, 0xFA44E0B4, 0xE9141340, 0x1B7F9043, 0xCFB5F4A8, 0x3DDE77AB, 0x2E8E845F, 0xDCE5075C)
    case 18 => Row8(0x92A8FC17, 0x60C37F14, 0x73938CE0, 0x81F80FE3, 0x55326B08, 0xA759E80B, 0xB4091BFF, 0x466298FC)
    case 19 => Row8(0x1871A4D8, 0xEA1A27DB, 0xF94AD42F, 0x0B21572C, 0xDFEB33C7, 0x2D80B0C4, 0x3ED04330, 0xCCBBC033)
    case 20 => Row8(0xA24BB5A6, 0x502036A5, 0x4370C551, 0xB11B4652, 0x65D122B9, 0x97BAA1BA, 0x84EA524E, 0x7681D14D)
    case 21 => Row8(0x2892ED69, 0xDAF96E6A, 0xC9A99D9E, 0x3BC21E9D, 0xEF087A76, 0x1D63F975, 0x0E330A81, 0xFC588982)
    case 22 => Row8(0xB21572C9, 0x407EF1CA, 0x532E023E, 0xA145813D, 0x758FE5D6, 0x87E466D5, 0x94B49521, 0x66DF1622)
    case 23 => Row8(0x38CC2A06, 0xCAA7A905, 0xD9F75AF1, 0x2B9CD9F2, 0xFF56BD19, 0x0D3D3E1A, 0x1E6DCDEE, 0xEC064EED)
    case 24 => Row8(0xC38D26C4, 0x31E6A5C7, 0x22B65633, 0xD0DDD530, 0x0417B1DB, 0xF67C32D8, 0xE52CC12C, 0x1747422F)
    case 25 => Row8(0x49547E0B, 0xBB3FFD08, 0xA86F0EFC, 0x5A048DFF, 0x8ECEE914, 0x7CA56A17, 0x6FF599E3, 0x9D9E1AE0)
    case 26 => Row8(0xD3D3E1AB, 0x21B862A8, 0x32E8915C, 0xC083125F, 0x144976B4, 0xE622F5B7, 0xF5720643, 0x07198540)
    case 27 => Row8(0x590AB964, 0xAB613A67, 0xB831C993, 0x4A5A4A90, 0x9E902E7B, 0x6CFBAD78, 0x7FAB5E8C, 0x8DC0DD8F)
    case 28 => Row8(0xE330A81A, 0x115B2B19, 0x020BD8ED, 0xF0605BEE, 0x24AA3F05, 0xD6C1BC06, 0xC5914FF2, 0x37FACCF1)
    case 29 => Row8(0x69E9F0D5, 0x9B8273D6, 0x88D28022, 0x7AB90321, 0xAE7367CA, 0x5C18E4C9, 0x4F48173D, 0xBD23943E)
    case 30 => Row8(0xF36E6F75, 0x0105EC76, 0x12551F82, 0xE03E9C81, 0x34F4F86A, 0xC69F7B69, 0xD5CF889D, 0x27A40B9E)
    case _  => Row8(0x79B737BA, 0x8BDCB4B9, 0x988C474D, 0x6AE7C44E, 0xBE2DA0A5, 0x4C4623A6, 0x5F16D052, 0xAD7D5351)
  }

  function CrcTab(i: bv8): bv32 {
    TableRow(i >> 3).At(i & 7)
  }

  // ----- one bit of division, one byte of division -----

  function Feedback(b: bool): bv32 { if b then REFLECTED else 0 }

  /** One step of division: the leading coefficient leaves, and the generator is subtracted if it was set. */
  function BitStep(s: bv32): bv32 {
    Xor(Half(s), Feedback(Odd(s)))
  }

  function Steps(s: bv32, n: nat): bv32
    decreases n
  {
    if n == 0 then s else Steps(BitStep(s), n - 1)
  }

  function Shift(s: bv32, n: nat): bv32
    decreases n
  {
    if n == 0 then s else Shift(Half(s), n - 1)
  }

  function Bit(b: bool): bv32 { if b then 1 else 0 }

  /** The `n` lowest bits of a word, least significant first. */
  function LowBits(w: bv32, n: nat): (bits: seq<bool>)
    ensures |bits| == n
    decreases n
  {
    if n == 0 then [] else [Odd(w)] + LowBits(Half(w), n - 1)
  }

  function ByteBits(b: byte): (bits: seq<bool>)
    ensures |bits| == 8
  {
    LowBits(b as bv32, 8)
  }

  /** The bits of a message in the order of RFC 3720: bytes in turn, each least significant bit first. */
  function Bits(data: seq<byte>): (bits: seq<bool>)
    ensures |bits| == 8 * |data|
  {
    if data == [] then [] else ByteBits(data[0]) + Bits(data[1..])
  }

  /** The register after shifting in `bits`, one division step per bit. */
  function Divide(s: bv32, bits: seq<bool>): bv32
    decreases |bits|
  {
    if bits == [] then s else Divide(BitStep(Xor(s, Bit(bits[0]))), bits[1..])
  }

  lemma FeedbackXor(p: bool, q: bool)
    ensures Xor(Feedback(p), Feedback(q)) == Feedback(p != q)
  {}

  lemma BitLaws(b: bool)
    ensures Half(Bit(b)) == 0 && Odd(Bit(b)) == b
  {}

  lemma BitStepLinear(x: bv32, y: bv32)
    ensures BitStep(Xor(x, y)) == Xor(BitStep(x), BitStep(y))
  {
    hide Xor, Half, Odd, Feedback;
    HalfXor(x, y);
    FeedbackXor(Odd(x), Odd(y));
    XorSwap(Half(x), Feedback(Odd(x)), Half(y), Feedback(Odd(y)));
  }

  lemma {:induction false} StepsLinear(x: bv32, y: bv32, n: nat)
    ensures Steps(Xor(x, y), n) == Xor(Steps(x, n), Steps(y, n))
    decreases n
  {
    hide Xor, BitStep;
    if n > 0 {
      BitStepLinear(x, y);
      StepsLinear(BitStep(x), BitStep(y), n - 1);
    }
  }

  /** Taking the low bit of `x` off the register leaves the rest of `x` one position further down. */
  lemma PeelBit(s: bv32, x: bv32)
    ensures BitStep(Xor(s, x)) == Xor(BitStep(Xor(s, Bit(Odd(x)))), Half(x))
  {
    hide Xor, Half, Odd, Feedback, Bit;
    var b := Bit(Odd(x));
    var top := Xor(x, b);
    BitLaws(Odd(x));
    HalfXor(x, b);
    XorCancel(Half(x), 0);
    assert !Odd(top) && Half(top) == Half(x);
    assert BitStep(top) == Half(x) by { NoFeedbackIsZero(); }
    XorCancel(x, b);
    XorCancel(b, x);
    XorSwap(s, b, x, b);
    XorCancel(Xor(s, x), 0);
    XorCancel(b, b);
    assert Xor(Xor(s, b), top) == Xor(s, x);
    BitStepLinear(Xor(s, b), top);
  }

  lemma NoFeedbackIsZero()
    ensures Feedback(false) == 0
  {}

  /** Feeding `n` bits one by one, or adding them to the register first and stepping `n` times. */
  lemma {:induction false} DivideIsSteps(s: bv32, x: bv32, n: nat)
    ensures Steps(Xor(s, x), n) == Xor(Divide(s, LowBits(x, n)), Shift(x, n))
    decreases n
  {
    hide Xor, Half, Odd, BitStep, Bit;
    if n > 0 {
      PeelBit(s, x);
      DivideIsSteps(BitStep(Xor(s, Bit(Odd(x)))), Half(x), n - 1);
      assert LowBits(x, n)[1..] == LowBits(Half(x), n - 1);
    }
  }

  // ----- the table holds eight division steps -----

  lemma TableRowsAffine(r: bv8)
    ensures TableRow(r).Affine()
  {
    match r
    case 0 => case 1 => case 2 => case 3 => case 4 => case 5 => case 6 => case 7 =>
    case 8 => case 9 => case 10 => case 11 => case 12 => case 13 => case 14 => case 15 =>
    case 16 => case 17 => case 18 => case 19 => case 20 => case 21 => case 22 => case 23 =>
    case 24 => case 25 => case 26 => case 27 => case 28 => case 29 => case 30 => case _ =>
  }

  lemma TableRowStarts(r: bv8)
    requires r < 32
    ensures TableRow(r).v0 == Steps((r << 3) as bv32, 8)
  {
    match r
    case 0 => case 1 => case 2 => case 3 => case 4 => case 5 => case 6 => case 7 =>
    case 8 => case 9 => case 10 => case 11 => case 12 => case 13 => case 14 => case 15 =>
    case 16 => case 17 => case 18 => case 19 => case 20 => case 21 => case 22 => case 23 =>
    case 24 => case 25 => case 26 => case 27 => case 28 => case 29 => case 30 => case _ =>
  }

  lemma TableColumns(c: bv8)
    requires c < 8
    ensures TableRow(0).At(c) == Steps(c as bv32, 8) && TableRow(0).v0 == 0
  {}

  lemma TableAffine(r: bv8, c: bv8)
    requires r < 32 && c < 8
    requires TableRow(r).Affine()
    ensures TableRow(r).At(c) == Xor(TableRow(r).v0, TableRow(0).At(c))
  {}

  lemma IndexSplit(i: bv8)
    ensures i >> 3 < 32 && i & 7 < 8
    ensures i as bv32 == Xor(((i >> 3) << 3) as bv32, (i & 7) as bv32)
  {}

  lemma TableEntry(i: bv8)
    ensures CrcTab(i) == Steps(i as bv32, 8)
  {
    hide Xor, Steps, TableRow, Row8.Affine, Row8.At;
    var r, c := i >> 3, i & 7;
    IndexSplit(i);
    TableRowsAffine(r);
    TableRowStarts(r);
    TableColumns(c);
    TableAffine(r, c);
    StepsLinear((r << 3) as bv32, c as bv32, 8);
  }

  function LowByte(x: bv32): byte { (x & 0xFF) as byte }
  function HighBytes(x: bv32): bv32 { x >> 8 }

  /** What one turn of the table loop does to the register. */
  function ByteStep(crc: bv32, b: byte): bv32 {
    Xor(CrcTab(LowByte(Xor(crc, b as bv32))), HighBytes(crc))
  }

  /** Stepping eight times looks the low byte up and moves the high bytes down. */
  lemma EightSteps(x: bv32)
    ensures Steps(x, 8) == Xor(CrcTab(LowByte(x)), HighBytes(x))
  {
    var lo, hi := x & 0xFF, x & 0xFFFFFF00;
    TableEntry(LowByte(x));
    assert x == Xor(lo, hi) && LowByte(x) as bv32 == lo;
    assert Steps(hi, 8) == HighBytes(x) by { HighBitsShift(hi); }
    StepsOfSum(x, lo, hi);
  }

  lemma StepsOfSum(x: bv32, lo: bv32, hi: bv32)
    requires x == Xor(lo, hi)
    ensures Steps(x, 8) == Xor(Steps(lo, 8), Steps(hi, 8))
  {
    hide Xor, Steps;
    StepsLinear(lo, hi, 8);
  }

  lemma HighBitsShift(x: bv32)
    requires x & 0xFF == 0
    ensures Steps(x, 8) == x >> 8
  {}

  lemma ByteShiftedOut(crc: bv32, b: byte)
    ensures Shift(b as bv32, 8) == 0
    ensures HighBytes(Xor(crc, b as bv32)) == HighBytes(crc)
  {}

  lemma ByteStepDivides(crc: bv32, b: byte)
    ensures ByteStep(crc, b) == Divide(crc, ByteBits(b))
  {
    hide Xor, Steps, Divide, CrcTab, Shift, LowBits, LowByte, HighBytes;
    EightSteps(Xor(crc, b as bv32));
    DivideIsSteps(crc, b as bv32, 8);
    ByteShiftedOut(crc, b);
    XorCancel(Divide(crc, ByteBits(b)), 0);
  }

  lemma {:induction false} DivideSplit(s: bv32, x: seq<bool>, y: seq<bool>)
    ensures Divide(s, x + y) == Divide(Divide(s, x), y)
    decreases |x|
  {
    hide Xor, Bit, BitStep;
    if x == [] {
      assert x + y == y;
    } else {
      assert (x + y)[1..] == x[1..] + y;
      DivideSplit(BitStep(Xor(s, Bit(x[0]))), x[1..], y);
    }
  }

  lemma {:induction false} BitsSplit(a: seq<byte>, b: seq<byte>)
    ensures Bits(a + b) == Bits(a) + Bits(b)
  {
    hide ByteBits;
    if a == [] {
      assert a + b == b;
    } else {
      assert (a + b)[1..] == a[1..] + b;
      BitsSplit(a[1..], b);
    }
  }

  // ----- the operations of csp_crc32.c -----

  const CRC_INIT: bv32 := 0xFFFFFFFF

  /** The checksum of a message by its definition. */
  function Crc32c(data: seq<byte>): bv32 {
    Xor(Divide(CRC_INIT, Bits(data)), 0xFFFFFFFF)
  }

  /** `csp_crc32_update`: the table loop divides, bit by bit. */
  method Update(crc: bv32, data: seq<byte>) returns (crc': bv32)
    ensures crc' == Divide(crc, Bits(data))
  {
    hide ByteStep, Divide, ByteBits;
    crc' := crc;
    var i := 0;
    NothingToDivide(crc);
    while i < |data|
      invariant 0 <= i <= |data|
      invariant crc' == Divide(crc, Bits(data[..i]))
    {
      UpdateByte(crc, data, i);
      crc' := ByteStep(crc', data[i]);
      i := i + 1;
    }
    assert data[..i] == data;
  }

  lemma NothingToDivide(crc: bv32)
    ensures Divide(crc, Bits([])) == crc
  {}

  lemma UpdateByte(crc: bv32, data: seq<byte>, i: nat)
    requires i < |data|
    ensures Divide(crc, Bits(data[..i + 1])) == ByteStep(Divide(crc, Bits(data[..i])), data[i])
  {
    hide ByteStep, Divide, ByteBits;
    assert data[..i + 1] == data[..i] + [data[i]];
    UpdateSplit(crc, data[..i], [data[i]]);
    assert Bits([data[i]]) == ByteBits(data[i]);
    ByteStepDivides(Divide(crc, Bits(data[..i])), data[i]);
  }

  /** `csp_crc32_memory`: `csp_crc32_init`, `csp_crc32_update` and `csp_crc32_final`. */
  method Memory(data: seq<byte>) returns (crc: bv32)
    ensures crc == Crc32c(data)
  {
    var r := Update(CRC_INIT, data);
    crc := Xor(r, 0xFFFFFFFF);
  }

  /** Updating over any split equals updating over the concatenation. */
  lemma UpdateSplit(crc: bv32, a: seq<byte>, b: seq<byte>)
    ensures Divide(crc, Bits(a + b)) == Divide(Divide(crc, Bits(a)), Bits(b))
  {
    hide Divide, ByteBits;
    BitsSplit(a, b);
    DivideSplit(crc, Bits(a), Bits(b));
  }

  // ----- polynomial long division, section 12.1 of RFC 3720 -----

  /** Coefficientwise sum over GF(2). */
  function Sum(x: seq<bool>, y: seq<bool>): (z: seq<bool>)
    requires |x| == |y|
    ensures |z| == |x|
  {
    seq(|x|, i requires 0 <= i < |x| => x[i] != y[i])
  }

  /** Adds `p` to the `|p|` highest coefficients of `d`. */
  function SumFront(d: seq<bool>, p: seq<bool>): (z: seq<bool>)
    requires |p| <= |d|
    ensures |z| == |d|
  {
    Sum(d[..|p|], p) + d[|p|..]
  }

  function Zeros(n: nat): (z: seq<bool>)
    ensures |z| == n && forall i :: 0 <= i < n ==> !z[i]
  {
    seq(n, _ => false)
  }

  /** The `n` highest coefficients of a word that has x^31 in its most significant bit. */
  function Coefficients(w: bv32, n: nat): (c: seq<bool>)
    ensures |c| == n
    decreases n
  {
    if n == 0 then [] else [w >= 0x80000000] + Coefficients(w << 1, n - 1)
  }

  /** Schoolbook division of a polynomial (highest coefficient first) by x^32 + GENERATOR: the remainder. */
  function Remainder(d: seq<bool>): (r: seq<bool>)
    requires |d| >= 32
    ensures |r| == 32
    decreases |d|
  {
    if |d| == 32 then d
    else if d[0] then Remainder(SumFront(d[1..], Coefficients(GENERATOR, 32)))
    else Remainder(d[1..])
  }

  lemma GeneratorReflected()
    ensures Coefficients(GENERATOR, 32) == LowBits(REFLECTED, 32)
  {
    assert Coefficients(0x41000000, 8) == LowBits(0x82, 8);
    assert Coefficients(0x6F410000, 16) == LowBits(0x82F6, 16);
    assert Coefficients(0xDC6F4100, 24) == LowBits(0x82F63B, 24);
  }

  lemma {:induction false} LowBitsXor(x: bv32, y: bv32, n: nat)
    ensures LowBits(Xor(x, y), n) == Sum(LowBits(x, n), LowBits(y, n))
    decreases n
  {
    hide Xor, Half, Odd;
    if n > 0 {
      HalfXor(x, y);
      LowBitsXor(Half(x), Half(y), n - 1);
    }
  }

  lemma {:induction false} LowBitsSnoc(x: bv32, n: nat)
    ensures LowBits(x, n + 1) == LowBits(x, n) + [Odd(Shift(x, n))]
    decreases n
  {
    hide Half, Odd;
    if n > 0 {
      LowBitsSnoc(Half(x), n - 1);
    }
  }

  lemma AllShiftedOut(x: bv32)
    ensures !Odd(Shift(Half(x), 31))
  {
    ShiftBy31(x >> 1);
  }

  function HalfBy8(x: bv32): bv32 {
    Half(Half(Half(Half(Half(Half(Half(Half(x))))))))
  }

  lemma ShiftBy31(x: bv32)
    ensures Shift(x, 31) == x >> 31
  {
    ShiftInBytes(x);
    HalvesAreShift(x);
  }

  lemma ShiftInBytes(x: bv32)
    ensures Shift(x, 31) == Shift(HalfBy8(HalfBy8(HalfBy8(x))), 7)
  {
    hide Half;
    assert Shift(x, 31) == Shift(HalfBy8(x), 23);
    assert Shift(HalfBy8(x), 23) == Shift(HalfBy8(HalfBy8(x)), 15);
  }

  lemma HalvesAreShift(x: bv32)
    ensures Shift(HalfBy8(HalfBy8(HalfBy8(x))), 7) == x >> 31
  {
    hide HalfBy8, Shift, HighBytes, HighBit;
    HalfBy8IsShift(x);
    HalfBy8IsShift(HighBytes(x));
    HalfBy8IsShift(HighBytes(HighBytes(x)));
    ShiftBy7(HighBytes(HighBytes(HighBytes(x))));
    HighBitOfBytes(x);
  }

  function HighBit(x: bv32): bv32 { x >> 7 }

  lemma HighBitOfBytes(x: bv32)
    ensures HighBit(HighBytes(HighBytes(HighBytes(x)))) == x >> 31
  {}

  lemma HalfBy8IsShift(x: bv32)
    ensures HalfBy8(x) == HighBytes(x)
  {}

  lemma ShiftBy7(x: bv32)
    ensures Shift(x, 7) == HighBit(x)
  {}

  lemma LowBitsHalf(x: bv32)
    ensures LowBits(Half(x), 32) == LowBits(x, 32)[1..] + [false]
  {
    hide Half, Odd, Shift;
    LowBitsSnoc(Half(x), 31);
    AllShiftedOut(x);
    assert LowBits(x, 32)[1..] == LowBits(Half(x), 31);
  }

  lemma SumFrontTail(m: seq<bool>, p: seq<bool>)
    requires m != [] && |p| == 32
    ensures var d := SumFront(m + Zeros(32), p);
            d[0] == (m[0] != p[0]) && d[1..] == SumFront(m[1..] + Zeros(32), p[1..] + [false])
  {}

  lemma SumFrontTwice(d: seq<bool>, p: seq<bool>, q: seq<bool>)
    requires |p| == |q| <= |d|
    ensures SumFront(SumFront(d, p), q) == SumFront(d, Sum(p, q))
  {}

  /** One step of the register is one step of long division on the remaining coefficients. */
  lemma RegisterStep(s: bv32, m: seq<bool>)
    requires m != []
    ensures var d := SumFront(m + Zeros(32), LowBits(s, 32));
            var rest := SumFront(m[1..] + Zeros(32), LowBits(BitStep(Xor(s, Bit(m[0]))), 32));
            rest == if d[0] then SumFront(d[1..], LowBits(REFLECTED, 32)) else d[1..]
  {
    hide Half, Odd, Xor, Bit, LowBits, Sum, SumFront, Zeros;
    BitLaws(m[0]);
    HalfXor(s, Bit(m[0]));
    XorCancel(Half(s), 0);
    LowBitsHalf(s);
    LowBitsHead(s);
    LowBitsXor(Half(s), REFLECTED, 32);
    SumFrontTail(m, LowBits(s, 32));
    SumFrontTwice(m[1..] + Zeros(32), LowBits(Half(s), 32), LowBits(REFLECTED, 32));
  }

  lemma LowBitsHead(s: bv32)
    ensures LowBits(s, 32)[0] == Odd(s)
  {}

  lemma {:induction false} RegisterIsRemainder(s: bv32, m: seq<bool>)
    ensures Remainder(SumFront(m + Zeros(32), LowBits(s, 32))) == LowBits(Divide(s, m), 32)
    decreases |m|
  {
    hide Half, Odd, Xor, Bit, LowBits, BitStep, SumFront, Coefficients;
    var d := SumFront(m + Zeros(32), LowBits(s, 32));
    if m == [] {
      AddToZeros(LowBits(s, 32));
      assert m + Zeros(32) == Zeros(32);
    } else {
      RegisterStep(s, m);
      GeneratorReflected();
      RegisterIsRemainder(BitStep(Xor(s, Bit(m[0]))), m[1..]);
    }
  }

  lemma AddToZeros(p: seq<bool>)
    requires |p| == 32
    ensures SumFront(Zeros(32), p) == p
  {}

  lemma AllOnes()
    ensures LowBits(CRC_INIT, 32) == seq(32, _ => true)
  {
    assert LowBits(0xFF, 8) == seq(8, _ => true);
    assert LowBits(0xFFFF, 16) == seq(16, _ => true);
    assert LowBits(0xFFFFFF, 24) == seq(24, _ => true);
  }

  /** The checksum is the complement of the remainder of message * x^32, its first 32 coefficients complemented. */
  lemma ChecksumIsRemainder(data: seq<byte>)
    ensures LowBits(Xor(Crc32c(data), 0xFFFFFFFF), 32)
         == Remainder(SumFront(Bits(data) + Zeros(32), seq(32, _ => true)))
  {
    hide Xor, LowBits, Divide, Remainder, SumFront;
    XorCancel(Divide(CRC_INIT, Bits(data)), 0xFFFFFFFF);
    RegisterIsRemainder(CRC_INIT, Bits(data));
    AllOnes();
  }

  // ----- error detection -----

  lemma BitStepZero(s: bv32)
    requires BitStep(s) == 0
    ensures s == 0
  {}

  lemma BitStepInjective(s: bv32, t: bv32)
    requires BitStep(s) == BitStep(t)
    ensures s == t
  {
    hide Xor, BitStep;
    BitStepLinear(s, t);
    XorCancel(BitStep(s), 0);
    BitStepZero(Xor(s, t));
    XorCancel(s, t);
  }

  lemma {:induction false} StepsInjective(s: bv32, t: bv32, n: nat)
    requires Steps(s, n) == Steps(t, n)
    ensures s == t
    decreases n
  {
    hide BitStep;
    if n > 0 {
      StepsInjective(BitStep(s), BitStep(t), n - 1);
      BitStepInjective(s, t);
    }
  }

  lemma {:induction false} SuffixInjective(s: bv32, t: bv32, bits: seq<bool>)
    requires Divide(s, bits) == Divide(t, bits)
    ensures s == t
    decreases |bits|
  {
    hide Xor, Bit, BitStep;
    if bits != [] {
      var b := Bit(bits[0]);
      SuffixInjective(BitStep(Xor(s, b)), BitStep(Xor(t, b)), bits[1..]);
      BitStepInjective(Xor(s, b), Xor(t, b));
      XorCancel(s, b);
      XorCancel(t, b);
    }
  }

  lemma {:induction false} ShiftOneMore(v: bv32, n: nat)
    ensures Shift(v, n + 1) == Half(Shift(v, n))
    decreases n
  {
    hide Half;
    if n > 0 {
      ShiftOneMore(Half(v), n - 1);
    }
  }

  lemma {:induction false} ShiftedOut(v: bv32, n: nat)
    requires n <= 31 && Shift(v, n) == 0
    ensures Shift(v, 31) == 0
    decreases 31 - n
  {
    hide Half, Shift;
    if n < 31 {
      ShiftOneMore(v, n);
      assert Half(0) == 0 by { HalfZero(); }
      ShiftedOut(v, n + 1);
    }
  }

  lemma HalfZero()
    ensures Half(0) == 0 && !Odd(0)
  {}

  /** The generator has a constant term: if the highest bit is clear after a step, nothing was subtracted. */
  lemma NoFeedback(u: bv32)
    requires Shift(BitStep(u), 31) == 0
    ensures !Odd(u) && BitStep(u) == Half(u)
  {
    hide Shift;
    ShiftBy31(BitStep(u));
  }

  lemma Unfold(w: bv32, n: nat)
    requires n > 0
    ensures LowBits(w, n) == [Odd(w)] + LowBits(Half(w), n - 1) && Shift(w, n) == Shift(Half(w), n - 1)
  {}

  /** Registers that agree after at most 32 bits differed, before them, exactly by the difference of the bits. */
  lemma {:induction false} WindowDetermines(s: bv32, t: bv32, x: seq<bool>, y: seq<bool>)
    requires |x| == |y| <= 32
    requires Divide(s, x) == Divide(t, y)
    ensures LowBits(Xor(s, t), |x|) == Sum(x, y) && Shift(Xor(s, t), |x|) == 0
    decreases |x|
  {
    hide Xor, Half, Odd, BitStep, Bit, Sum;
    if x == [] {
      XorCancel(s, t);
      assert Sum(x, y) == [];
    } else {
      hide LowBits, Shift;
      var b, c := Bit(x[0]), Bit(y[0]);
      var p, q := Xor(s, b), Xor(t, c);
      WindowDetermines(BitStep(p), BitStep(q), x[1..], y[1..]);
      BitStepLinear(p, q);
      ShiftedOut(BitStep(Xor(p, q)), |x| - 1);
      NoFeedback(Xor(p, q));
      FrontBits(s, t, x[0], y[0]);
      Unfold(Xor(s, t), |x|);
      SumUnfold(x, y);
    }
  }

  lemma SumUnfold(x: seq<bool>, y: seq<bool>)
    requires |x| == |y| > 0
    ensures Sum(x, y) == [x[0] != y[0]] + Sum(x[1..], y[1..])
  {}

  lemma FrontBits(s: bv32, t: bv32, b: bool, c: bool)
    requires !Odd(Xor(Xor(s, Bit(b)), Xor(t, Bit(c))))
    ensures Odd(Xor(s, t)) == (b != c)
    ensures Half(Xor(s, t)) == Half(Xor(Xor(s, Bit(b)), Xor(t, Bit(c))))
  {
    hide Xor, Half, Odd, Bit;
    XorSwap(s, Bit(b), t, Bit(c));
    HalfXor(Xor(s, t), Xor(Bit(b), Bit(c)));
    HalfXor(Bit(b), Bit(c));
    BitLaws(b);
    BitLaws(c);
    XorCancel(0, 0);
    XorCancel(Half(Xor(s, t)), 0);
  }

  lemma {:induction false} LowBitsOfZero(n: nat)
    ensures LowBits(0, n) == Zeros(n)
    decreases n
  {
    hide Half, Odd;
    HalfZero();
    if n > 0 {
      LowBitsOfZero(n - 1);
    }
  }

  /** Two bit strings of at most 32 bits that leave the same register are equal. */
  lemma WindowInjective(s: bv32, x: seq<bool>, y: seq<bool>)
    requires |x| == |y| <= 32 && Divide(s, x) == Divide(s, y)
    ensures x == y
  {
    hide Xor, Divide, LowBits, Shift;
    WindowDetermines(s, s, x, y);
    XorCancel(s, s);
    LowBitsOfZero(|x|);
    assert forall i :: 0 <= i < |x| ==> Sum(x, y)[i] == (x[i] != y[i]);
  }

  lemma ByteInjective(a: byte, b: byte)
    requires ByteBits(a) == ByteBits(b)
    ensures a == b
  {
    hide Xor, Steps, Divide, LowBits, Shift, HighBytes;
    DivideIsSteps(0, a as bv32, 8);
    DivideIsSteps(0, b as bv32, 8);
    ByteShiftedOut(0, a);
    ByteShiftedOut(0, b);
    XorCancel(a as bv32, 0);
    XorCancel(b as bv32, 0);
    StepsInjective(a as bv32, b as bv32, 8);
  }

  lemma {:induction false} BitsInjective(a: seq<byte>, b: seq<byte>)
    requires |a| == |b| && Bits(a) == Bits(b)
    ensures a == b
  {
    hide ByteBits;
    if a != [] {
      assert ByteBits(a[0]) == Bits(a)[..8] == Bits(b)[..8] == ByteBits(b[0]);
      assert Bits(a[1..]) == Bits(a)[8..] == Bits(b)[8..] == Bits(b[1..]);
      ByteInjective(a[0], b[0]);
      BitsInjective(a[1..], b[1..]);
    }
  }

  /** Three-part messages with equal ends and different middles of at most 32 bits. */
  lemma BurstInBits(pre: seq<bool>, x: seq<bool>, y: seq<bool>, post: seq<bool>)
    requires |x| == |y| <= 32 && x != y
    ensures Divide(CRC_INIT, pre + x + post) != Divide(CRC_INIT, pre + y + post)
  {
    hide Divide;
    var s := Divide(CRC_INIT, pre);
    DivideSplit(CRC_INIT, pre, x);
    DivideSplit(CRC_INIT, pre, y);
    DivideSplit(CRC_INIT, pre + x, post);
    DivideSplit(CRC_INIT, pre + y, post);
    if Divide(Divide(s, x), post) == Divide(Divide(s, y), post) {
      SuffixInjective(Divide(s, x), Divide(s, y), post);
      WindowInjective(s, x, y);
    }
  }

  lemma AgreeOutside(x: seq<bool>, y: seq<bool>, lo: nat, hi: nat)
    requires |x| == |y| && lo <= hi <= |x|
    requires forall k :: 0 <= k < |x| && !(lo <= k < hi) ==> x[k] == y[k]
    ensures x == x[..lo] + x[lo..hi] + x[hi..] && y == x[..lo] + y[lo..hi] + x[hi..]
  {}

  /**
   Burst detection: equal-length messages that differ, but only inside 32 consecutive bits, have
   different checksums.
   */
  lemma DetectsBurst(a: seq<byte>, b: seq<byte>, first: nat)
    requires |a| == |b| && a != b
    requires forall k :: 0 <= k < 8 * |a| && !(first <= k < first + 32) ==> Bits(a)[k] == Bits(b)[k]
    ensures Crc32c(a) != Crc32c(b)
  {
    hide Xor, Divide, Bits;
    var x, y := Bits(a), Bits(b);
    if x == y {
      BitsInjective(a, b);
    }
    var lo := if first < |x| then first else |x|;
    var hi := if first + 32 < |x| then first + 32 else |x|;
    AgreeOutside(x, y, lo, hi);
    BurstInBits(x[..lo], x[lo..hi], y[lo..hi], x[hi..]);
    XorCancel(Divide(CRC_INIT, x), 0xFFFFFFFF);
    XorCancel(Divide(CRC_INIT, y), 0xFFFFFFFF);
  }

  /** The same for damage inside four consecutive bytes. */
  lemma DetectsByteBurst(a: seq<byte>, b: seq<byte>, i: nat, j: nat)
    requires |a| == |b| && a != b && i <= j <= |a| && j <= i + 4
    requires a[..i] == b[..i] && a[j..] == b[j..]
    ensures Crc32c(a) != Crc32c(b)
  {
    hide Crc32c, Bits;
    assert a == a[..i] + (a[i..j] + a[j..]) && b == a[..i] + (b[i..j] + a[j..]);
    BitsSplit(a[..i], a[i..j] + a[j..]);
    BitsSplit(a[i..j], a[j..]);
    BitsSplit(a[..i], b[i..j] + a[j..]);
    BitsSplit(b[i..j], a[j..]);
    DetectsBurst(a, b, 8 * i);
  }
}
