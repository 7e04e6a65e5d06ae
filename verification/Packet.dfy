/**
 `csp_packet_t`: the scratch header and the data bytes in one block of memory, and the
 operations of csp_id.c and csp_crc32.c that work on it in place.
 */
module Packet {
  import opened Words
  import opened CspId
  import opened Crc32

  type BufferSize = n: nat | 16 <= n <= 0xFF00 witness 256

  /** `CSP_BUFFER_SIZE`: 256 in the shipped configuration; nothing here depends on the value. */
  const CSP_BUFFER_SIZE: BufferSize

  /** `CSP_PACKET_PADDING_BYTES`: the scratch area in front of `data`; also the offset of `data`. */
  const DATA: nat := 8

  /** What a packet says, without its frame bookkeeping. */
  datatype Packet = Packet(id: Id, data: seq<byte>)

  // ----- the trailing checksum, on values -----

  function WithCrc(data: seq<byte>): (r: seq<byte>)
    ensures |r| == |data| + 4
  {
    data + Be32(Crc32c(data))
  }

  /** The two comparisons of `csp_crc32_verify`: header and data first, then data alone. */
  predicate CrcMatches(v: Version, id: Id, data: seq<byte>) {
    && |data| >= 4
    && var body, tag := data[..|data| - 4], data[|data| - 4..];
       tag == Be32(Crc32c(Header(v, id) + body)) || tag == Be32(Crc32c(body))
  }

  lemma SliceSplit(s: seq<byte>, a: nat, b: nat, c: nat)
    requires a <= b <= c <= |s|
    ensures s[a..c] == s[a..b] + s[b..c]
  {}

  /** The comparisons themselves: the second only if the first fails. */
  method EitherChecksum(framed: seq<byte>, body: seq<byte>, tag: seq<byte>) returns (ok: bool)
    ensures ok == (tag == Be32(Crc32c(framed)) || tag == Be32(Crc32c(body)))
  {
    hide Be32, Crc32c;
    var crc := Memory(framed);
    if tag != Be32(crc) {
      crc := Memory(body);
      return tag == Be32(crc);
    }
    return true;
  }

  lemma SliceOfSlice(s: seq<byte>, a: nat, c: nat, k: nat)
    requires a + k <= c <= |s|
    ensures s[a..c][k..] == s[a + k..c] && s[a..c][..k] == s[a..a + k]
  {}

  function Replace(s: seq<byte>, bytes: seq<byte>, at: nat): (t: seq<byte>)
    requires at + |bytes| <= |s|
    ensures |t| == |s|
  {
    s[..at] + bytes + s[at + |bytes|..]
  }

  lemma Replaced(s: seq<byte>, bytes: seq<byte>, at: nat, from: nat)
    requires from <= at && at + |bytes| <= |s|
    ensures Replace(s, bytes, at)[from..at + |bytes|] == s[from..at] + bytes
    ensures Replace(s, bytes, at)[..from] == s[..from]
  {}

  lemma ReplacedBehind(s: seq<byte>, bytes: seq<byte>, at: nat, to: nat)
    requires at + |bytes| <= to <= |s|
    ensures var end := at + |bytes|;
            Replace(s, bytes, at)[end..] == s[end..] && Replace(s, bytes, at)[end..to] == s[end..to]
  {}

  class PacketBuffer {
    const mem: array<byte>
    var frameBegin: nat
    var frameLength: nat
    var length: nat
    var id: Id

    ghost predicate Valid()
      reads this
    {
      && mem.Length == DATA + CSP_BUFFER_SIZE
      && length <= CSP_BUFFER_SIZE
      && frameBegin <= DATA
      && frameBegin + frameLength <= mem.Length
    }

    ghost function Data(): seq<byte>
      requires Valid()
      reads this, mem
    {
      mem[DATA..DATA + length]
    }

    ghost function Frame(): seq<byte>
      requires Valid()
      reads this, mem
    {
      mem[frameBegin..frameBegin + frameLength]
    }

    ghost function Contents(): Packet
      requires Valid()
      reads this, mem
    {
      Packet(id, Data())
    }

    /** `csp_packet_init`, with the buffer cleared. */
    constructor ()
      ensures Valid() && fresh(mem)
      ensures Contents() == Packet(NO_ID, []) && frameBegin == DATA && frameLength == 0
    {
      mem := new byte[DATA + CSP_BUFFER_SIZE](_ => 0);
      frameBegin, frameLength, length := DATA, 0, 0;
      id := NO_ID;
    }

    /** `csp_id_setup_rx`: returns the size of the header that will arrive. */
    method SetupRx(v: Version) returns (size: nat)
      requires Valid()
      modifies this`frameBegin, this`frameLength
      ensures Valid()
      ensures size == HeaderSize(v) && frameBegin == DATA - size && frameLength == 0
    {
      frameBegin := DATA - HeaderSize(v);
      frameLength := 0;
      size := HeaderSize(v);
    }

    /** `csp_id_prepend`: writes the header directly in front of the data, and leaves the data alone. */
    method Prepend(v: Version)
      requires Valid()
      modifies this`frameBegin, this`frameLength, mem
      ensures Valid()
      ensures frameBegin == DATA - HeaderSize(v)
      ensures mem[DATA..] == old(mem[DATA..]) && Data() == old(Data())
      ensures mem[..frameBegin] == old(mem[..DATA - HeaderSize(v)])
      ensures mem[frameBegin..DATA] == Header(v, id) && Frame() == Header(v, id) + Data()
    {
      hide Header, Replace;
      var h := Header(v, id);
      ghost var before := mem[..];
      frameBegin := DATA - HeaderSize(v);
      frameLength := length + HeaderSize(v);
      Put(frameBegin, h);
      Replaced(before, h, frameBegin, frameBegin);
      ReplacedBehind(before, h, frameBegin, DATA + length);
      SliceSplit(mem[..], frameBegin, DATA, DATA + length);
    }

    /** `csp_id_strip`: a frame shorter than the header is refused; otherwise the id is read and the rest is data. */
    method Strip(v: Version) returns (ok: bool)
      requires Valid() && frameBegin == DATA - HeaderSize(v)
      modifies this`length, this`id
      ensures Valid()
      ensures ok == (frameLength >= HeaderSize(v))
      ensures ok ==> Contents() == Packet(Parse(v, Frame()[..HeaderSize(v)]), Frame()[HeaderSize(v)..])
      ensures !ok ==> length == old(length) && id == old(id)
    {
      if frameLength < HeaderSize(v) {
        return false;
      }
      hide Parse;
      length := frameLength - HeaderSize(v);
      SliceOfSlice(mem[..], frameBegin, frameBegin + frameLength, HeaderSize(v));
      id := Parse(v, mem[frameBegin..frameBegin + HeaderSize(v)]);
      return true;
    }

    /** `csp_crc32_append` (data only: `CSP_21` is not defined): fails without effect when the checksum does not fit. */
    method CrcAppend() returns (ok: bool)
      requires Valid()
      modifies this`length, mem
      ensures Valid()
      ensures ok == (old(length) + 4 <= CSP_BUFFER_SIZE)
      ensures ok ==> Data() == WithCrc(old(Data()))
      ensures !ok ==> length == old(length) && mem[..] == old(mem[..])
      ensures mem[..DATA] == old(mem[..DATA])
    {
      hide Crc32c, Be32, Replace;
      if length + 4 > CSP_BUFFER_SIZE {
        return false;
      }
      var crc := Memory(mem[DATA..DATA + length]);
      var tag := Be32(crc);
      ghost var before := mem[..];
      Put(DATA + length, tag);
      Replaced(before, tag, DATA + length, DATA);
      length := length + 4;
      return true;
    }

    /** `memcpy` into the block. */
    method Put(at: nat, bytes: seq<byte>)
      requires at + |bytes| <= mem.Length
      modifies mem
      ensures mem[..] == Replace(old(mem[..]), bytes, at)
    {
      forall i | 0 <= i < |bytes| {
        mem[at + i] := bytes[i];
      }
      forall k | 0 <= k < mem.Length
        ensures mem[k] == Replace(old(mem[..]), bytes, at)[k]
      {
        assert at <= k < at + |bytes| ==> mem[at + (k - at)] == bytes[k - at];
      }
    }

    /** `csp_crc32_verify`: accepts exactly when one of the two checksums matches, and then removes it from the data. */
    method CrcVerify(v: Version) returns (ok: bool)
      requires Valid()
      modifies this`frameBegin, this`frameLength, this`length, mem
      ensures Valid()
      ensures ok == CrcMatches(v, id, old(Data()))
      ensures ok ==> Data() == old(Data())[..old(length) - 4]
      ensures !ok ==> Data() == old(Data())
      ensures mem[DATA..] == old(mem[DATA..])
      ensures old(length) >= 4 ==> frameBegin == DATA - HeaderSize(v) && mem[frameBegin..DATA] == Header(v, id)
      ensures old(length) < 4 ==> frameBegin == old(frameBegin) && mem[..] == old(mem[..])
    {
      hide CrcMatches, Header;
      if length < 4 {
        TooShort(v, id, Data());
        return false;
      }
      Prepend(v);
      ok := ChecksumMatches(v);
      SliceOfSlice(mem[..], DATA, DATA + length, length - 4);
      if ok {
        length := length - 4;
      }
    }

    /** The comparisons of `csp_crc32_verify`, once the header is in place. */
    method ChecksumMatches(v: Version) returns (ok: bool)
      requires Valid() && length >= 4
      requires frameBegin == DATA - HeaderSize(v) && mem[frameBegin..DATA] == Header(v, id)
      ensures ok == CrcMatches(v, id, Data())
    {
      hide Crc32c, Be32, Header;
      var n := length - 4;
      var framed, body, tag := mem[frameBegin..DATA + n], mem[DATA..DATA + n], mem[DATA + n..DATA + length];
      assert framed == Header(v, id) + body by { SliceSplit(mem[..], frameBegin, DATA, DATA + n); }
      assert Data()[..n] == body && Data()[n..] == tag by { SliceOfSlice(mem[..], DATA, DATA + length, n); }
      ok := EitherChecksum(framed, body, tag);
    }
  }

  lemma TooShort(v: Version, id: Id, data: seq<byte>)
    requires |data| < 4
    ensures !CrcMatches(v, id, data)
  {}

  /** Appending and then verifying succeeds and restores the data, whatever the header. */
  lemma WithCrcMatches(v: Version, id: Id, data: seq<byte>)
    ensures CrcMatches(v, id, WithCrc(data)) && WithCrc(data)[..|WithCrc(data)| - 4] == data
  {
    hide Crc32c, Be32, Header;
    assert WithCrc(data)[|data|..] == Be32(Crc32c(data));
  }

  /**
   A checksummed packet damaged inside four consecutive payload bytes never passes the
   data-only comparison. What remains is the first comparison: it is accepted exactly when
   header and damaged payload happen to have the checksum of the original payload.
   */
  lemma DamageAcceptedOnlyByHeader(v: Version, id: Id, sent: seq<byte>, got: seq<byte>, i: nat, j: nat)
    requires |sent| == |got| && sent != got && i <= j <= |sent| && j <= i + 4
    requires sent[..i] == got[..i] && sent[j..] == got[j..]
    ensures CrcMatches(v, id, got + Be32(Crc32c(sent)))
       <==> Crc32c(Header(v, id) + got) == Crc32c(sent)
  {
    hide Crc32c, Be32, Header, FromBe32;
    DetectsByteBurst(sent, got, i, j);
    Be32RoundTrip(Crc32c(sent));
    Be32RoundTrip(Crc32c(got));
    Be32RoundTrip(Crc32c(Header(v, id) + got));
    var data := got + Be32(Crc32c(sent));
    assert data[..|data| - 4] == got && data[|data| - 4..] == Be32(Crc32c(sent));
  }

  // ----- a damaged packet that passes -----

  lemma ZeroSteps()
    ensures ByteStep(0xFFFF_FFFF, 0) == 0xAD82_ACAE && ByteStep(0xAD82_ACAE, 0) == 0x0E9E_882D
    ensures ByteStep(0x0E9E_882D, 0) == 0x9F9B_5C85 && ByteStep(0x9F9B_5C85, 0) == 0xB798_B438
  {}

  lemma DamagedSteps()
    ensures ByteStep(0xB798_B438, 0xC7) == 0xADCA_CBE5 && ByteStep(0xADCA_CBE5, 0x4B) == 0x0E9E_C04A
    ensures ByteStep(0x0E9E_C04A, 0x67) == 0x9F9B_5CCD && ByteStep(0x9F9B_5CCD, 0x48) == 0xB798_B438
  {}

  /** Dividing by four bytes, one after the other. */
  lemma FourSteps(s: bv32, a: byte, b: byte, c: byte, d: byte)
    ensures Divide(s, Bits([a, b, c, d])) == ByteStep(ByteStep(ByteStep(ByteStep(s, a), b), c), d)
  {
    hide ByteStep, Divide, Bits;
    var data := [a, b, c, d];
    NothingToDivide(s);
    UpdateByte(s, data, 0);
    UpdateByte(s, data, 1);
    UpdateByte(s, data, 2);
    UpdateByte(s, data, 3);
    assert data[..0] == [] && data[..4] == data;
  }

  lemma ZeroHeader()
    ensures Header(V1, NO_ID) == [0, 0, 0, 0]
  {}

  /** Such a packet: four zero bytes were sent, all four arrived damaged, and the checksum of header and data agrees. */
  lemma DamagedPacketPasses()
    ensures var sent, got: seq<byte> := [0, 0, 0, 0], [0xC7, 0x4B, 0x67, 0x48];
            got != sent && CrcMatches(V1, NO_ID, got + Be32(Crc32c(sent)))
  {
    hide ByteStep, Divide, Bits, Be32, Header;
    var sent, got: seq<byte> := [0, 0, 0, 0], [0xC7, 0x4B, 0x67, 0x48];
    ZeroHeader();
    ZeroSteps();
    DamagedSteps();
    FourSteps(CRC_INIT, 0, 0, 0, 0);
    FourSteps(0xB798_B438, 0xC7, 0x4B, 0x67, 0x48);
    UpdateSplit(CRC_INIT, sent, got);
    assert sent[0] != got[0];
    DamageAcceptedOnlyByHeader(V1, NO_ID, sent, got, 0, 4);
  }

  // ----- a known answer -----

  lemma CheckSteps1234()
    ensures ByteStep(0xFFFF_FFFF, 0x31) == 0x6F0A_661C && ByteStep(0x6F0A_661C, 0x32) == 0x8CAA_3B9F
    ensures ByteStep(0x8CAA_3B9F, 0x33) == 0xEF84_D04D && ByteStep(0xEF84_D04D, 0x34) == 0x09C5_0B11
  {}

  lemma CheckSteps5678()
    ensures ByteStep(0x09C5_0B11, 0x35) == 0xE72E_DCCA && ByteStep(0xE72E_DCCA, 0x36) == 0xBECA_8E79
    ensures ByteStep(0xBECA_8E79, 0x37) == 0xEDBD_6815 && ByteStep(0xEDBD_6815, 0x38) == 0x9F78_7F65
  {}

  lemma CheckStep9()
    ensures ByteStep(0x9F78_7F65, 0x39) == 0x1CF9_6D7C
  {}

  /** The check value by which CRC-32C is catalogued, the checksum of the digits 1 to 9. */
  lemma CheckValue()
    ensures Crc32c([0x31, 0x32, 0x33, 0x34, 0x35, 0x36, 0x37, 0x38, 0x39]) == 0xE306_9283
  {
    hide ByteStep, Divide, Bits;
    var a, b, c: seq<byte> := [0x31, 0x32, 0x33, 0x34], [0x35, 0x36, 0x37, 0x38], [0x39];
    CheckSteps1234();
    CheckSteps5678();
    CheckStep9();
    FourSteps(CRC_INIT, 0x31, 0x32, 0x33, 0x34);
    FourSteps(0x09C5_0B11, 0x35, 0x36, 0x37, 0x38);
    OneStep(0x9F78_7F65, 0x39);
    UpdateSplit(CRC_INIT, a, b + c);
    UpdateSplit(0x09C5_0B11, b, c);
    assert a + (b + c) == [0x31, 0x32, 0x33, 0x34, 0x35, 0x36, 0x37, 0x38, 0x39];
  }

  lemma OneStep(s: bv32, a: byte)
    ensures Divide(s, Bits([a])) == ByteStep(s, a)
  {
    hide ByteStep, Divide, Bits;
    NothingToDivide(s);
    UpdateByte(s, [a], 0);
    assert [a][..0] == [] && [a][..1] == [a];
  }
}
