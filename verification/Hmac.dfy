/** Keyed message authentication, csp_hmac.c, against section 2 of RFC 2104. */
module Hmac {
  import opened Words
  import opened Packet
  import opened Sha1

  /** `CSP_HMAC_LENGTH`: how much of the code travels with a packet. */
  const LENGTH: nat := 4

  // ----- the standard -----

  /** The key brought to the block size: hashed first if it is longer. */
  function BlockKey(key: seq<byte>): (k: seq<byte>)
    ensures |k| == 64
  {
    if |key| > 64 then Hash(key) + Zeros(44) else key + Zeros(64 - |key|)
  }

  /** Keys of up to 64 bytes are used as they are and filled up with zeros, longer ones stand for their hash. */
  lemma KeyBlocks(key: seq<byte>)
    ensures |key| <= 64 ==> BlockKey(key)[..|key|] == key && forall i :: |key| <= i < 64 ==> BlockKey(key)[i] == 0
    ensures |key| > 64 ==> BlockKey(key) == BlockKey(Hash(key)) && BlockKey(key)[..20] == Hash(key)
  {
    hide Hash;
  }

  function MaskByte(b: byte, mask: byte): byte { b ^ mask }

  function Masked(k: seq<byte>, mask: byte): (r: seq<byte>)
    ensures |r| == |k|
  {
    seq(|k|, i requires 0 <= i < |k| => MaskByte(k[i], mask))
  }

  function Inner(key: seq<byte>, message: seq<byte>): (d: seq<byte>)
    ensures |d| == 20
  {
    Hash(Masked(BlockKey(key), 0x36) + message)
  }

  function Code(key: seq<byte>, message: seq<byte>): (d: seq<byte>)
    ensures |d| == 20
  {
    Hash(Masked(BlockKey(key), 0x5C) + Inner(key, message))
  }

  // ----- csp_hmac.c -----

  /** `hmac_state`. */
  class HmacState {
    const md: Sha1State
    const key: array<byte>

    ghost predicate Valid()
      reads this, md, md.state, md.buf, key
    {
      md.Valid() && key.Length == 64 && key != md.buf
    }

    constructor ()
      ensures Valid() && fresh(md) && fresh(md.state) && fresh(md.buf) && fresh(key)
    {
      md := new Sha1State();
      key := new byte[64](_ => 0);
    }

    /** `csp_hmac_init`: an empty key is refused. */
    method Init(k: seq<byte>) returns (ok: bool)
      requires Valid()
      modifies md, md.state, md.buf, key
      ensures Valid() && ok == (|k| >= 1)
      ensures ok ==> key[..] == BlockKey(k) && md.message == Masked(BlockKey(k), 0x36)
    {
      hide Hash, Masked;
      if |k| < 1 {
        return false;
      }
      LoadKey(k);
      var pad := XorKey(0x36);
      md.Init();
      md.Process(pad);
      assert [] + pad == pad;
      return true;
    }

    method LoadKey(k: seq<byte>)
      requires key.Length == 64
      modifies key
      ensures key[..] == BlockKey(k)
    {
      hide Hash;
      var start := k;
      if |k| > 64 {
        start := Sha1.Memory(k);
      }
      forall i | 0 <= i < 64 {
        key[i] := if i < |start| then start[i] else 0;
      }
      assert key[..] == start + Zeros(64 - |start|);
    }

    /** The loop that masks the key into a block. */
    method XorKey(mask: byte) returns (pad: seq<byte>)
      requires key.Length == 64
      ensures pad == Masked(key[..], mask)
    {
      hide MaskByte;
      var buf := new byte[64](_ => 0);
      var i := 0;
      while i < 64
        invariant 0 <= i <= 64
        invariant forall j :: 0 <= j < i ==> buf[j] == MaskByte(key[j], mask)
      {
        buf[i] := MaskByte(key[i], mask);
        i := i + 1;
      }
      pad := buf[..];
    }

    /** `csp_hmac_process`. */
    method Process(data: seq<byte>)
      requires Valid()
      modifies md, md.state, md.buf
      ensures Valid() && md.message == old(md.message) + data
    {
      md.Process(data);
    }

    /** `csp_hmac_done`: the inner hash is finished, the outer one starts over in the same state. */
    method Done() returns (out: seq<byte>)
      requires Valid()
      modifies md, md.state, md.buf
      ensures out == Hash(Masked(key[..], 0x5C) + Hash(old(md.message)))
    {
      hide Hash, Masked;
      var inner := md.Done();
      var pad := XorKey(0x5C);
      md.Init();
      md.Process(pad);
      assert [] + pad == pad;
      md.Process(inner);
      out := md.Done();
    }
  }

  /** `csp_hmac_memory`. */
  method Memory(key: seq<byte>, data: seq<byte>) returns (code: Option<seq<byte>>)
    ensures code == if |key| >= 1 then Some(Code(key, data)) else None
  {
    hide Hash, Masked, BlockKey;
    hide Sha1.Absorb;
    var state := new HmacState();
    var ok := state.Init(key);
    if !ok {
      return None;
    }
    state.Process(data);
    var out := state.Done();
    code := Some(out);
  }

  // ----- on packets -----

  function WithCode(key: seq<byte>, data: seq<byte>): (r: seq<byte>)
    ensures |r| == |data| + LENGTH
  {
    data + Code(key, data)[..LENGTH]
  }

  predicate CodeMatches(key: seq<byte>, data: seq<byte>) {
    |data| >= LENGTH && data[|data| - LENGTH..] == Code(key, data[..|data| - LENGTH])[..LENGTH]
  }

  /** `csp_hmac_append`: over the data, or over the frame a previous `csp_id_prepend` has set up. */
  method Append(key: seq<byte>, packet: PacketBuffer, includeHeader: bool) returns (ok: bool)
    requires packet.Valid() && |key| >= 1
    requires includeHeader ==> packet.frameBegin + packet.frameLength == DATA + packet.length
    modifies packet`length, packet`frameLength, packet.mem
    ensures packet.Valid() && ok == (old(packet.length) + LENGTH <= CSP_BUFFER_SIZE)
    ensures !ok ==> packet.Data() == old(packet.Data()) && packet.Frame() == old(packet.Frame())
    ensures ok && !includeHeader ==> packet.Data() == WithCode(key, old(packet.Data()))
    ensures ok && includeHeader ==> packet.Frame() == WithCode(key, old(packet.Frame()))
    ensures ok ==> packet.length == old(packet.length) + LENGTH
    ensures packet.frameLength == old(packet.frameLength) + if ok && includeHeader then LENGTH else 0
  {
    hide Code;
    if packet.length + LENGTH > CSP_BUFFER_SIZE {
      return false;
    }
    var from := if includeHeader then packet.frameBegin else DATA;
    var end := DATA + packet.length;
    ghost var message := packet.mem[from..end];
    var code := Memory(key, packet.mem[from..end]);
    var tag := code.value[..LENGTH];
    forall i | 0 <= i < LENGTH {
      packet.mem[end + i] := tag[i];
    }
    assert packet.mem[from..end] == message && packet.mem[end..end + LENGTH] == tag;
    SliceSplit(packet.mem[..], from, end, end + LENGTH);
    if includeHeader {
      packet.frameLength := packet.frameLength + LENGTH;
    }
    packet.length := packet.length + LENGTH;
    return true;
  }

  /** `csp_hmac_verify`: with the header included, the frame shrinks but `length` keeps counting the code. */
  method Verify(key: seq<byte>, packet: PacketBuffer, includeHeader: bool) returns (ok: bool)
    requires packet.Valid() && |key| >= 1
    requires includeHeader ==> packet.frameBegin + packet.frameLength == DATA + packet.length
    modifies packet`length, packet`frameLength
    ensures packet.Valid()
    ensures !includeHeader ==> ok == CodeMatches(key, old(packet.Data()))
    ensures includeHeader ==> ok == (packet.length >= LENGTH && CodeMatches(key, old(packet.Frame())))
    ensures packet.length == old(packet.length) - if ok && !includeHeader then LENGTH else 0
    ensures packet.frameLength == old(packet.frameLength) - if ok && includeHeader then LENGTH else 0
  {
    hide CodeMatches;
    ok := false;
    if packet.length >= LENGTH {
      var from := if includeHeader then packet.frameBegin else DATA;
      ok := Compare(key, packet.mem[from..DATA + packet.length]);
    } else {
      TooShort(key, packet.Data());
    }
    if ok {
      if includeHeader {
        packet.frameLength := packet.frameLength - LENGTH;
      } else {
        packet.length := packet.length - LENGTH;
      }
    }
  }

  lemma TooShort(key: seq<byte>, data: seq<byte>)
    requires |data| < LENGTH
    ensures !CodeMatches(key, data)
  {}

  /** The code computed over all but the last bytes, compared with those bytes. */
  method Compare(key: seq<byte>, all: seq<byte>) returns (same: bool)
    requires |key| >= 1 && |all| >= LENGTH
    ensures same == CodeMatches(key, all)
  {
    hide Code;
    var code := Memory(key, all[..|all| - LENGTH]);
    same := all[|all| - LENGTH..] == code.value[..LENGTH];
  }

  /** What was appended verifies, and what remains after removing it is what was there. */
  lemma WithCodeMatches(key: seq<byte>, data: seq<byte>)
    ensures var all := WithCode(key, data);
            CodeMatches(key, all) && all[..|all| - LENGTH] == data && |all| == |data| + 4
  {
    hide Code;
    assert WithCode(key, data)[|data|..] == Code(key, data)[..LENGTH];
  }

  /** Appending without the header and then verifying succeeds and restores length and data, whenever the code fits. */
  method AppendThenVerify(key: seq<byte>, packet: PacketBuffer) returns (appended: bool, verified: bool)
    requires packet.Valid() && |key| >= 1
    modifies packet`length, packet`frameLength, packet.mem
    ensures packet.Valid() && appended == (old(packet.length) + LENGTH <= CSP_BUFFER_SIZE)
    ensures appended ==> verified && packet.length == old(packet.length) && packet.Data() == old(packet.Data())
  {
    hide WithCode, CodeMatches;
    ghost var data := packet.Data();
    appended := Append(key, packet, false);
    verified := false;
    if appended {
      WithCodeMatches(key, data);
      ghost var all := packet.Data();
      verified := Verify(key, packet, false);
      assert packet.Data() == all[..|all| - LENGTH];
    }
  }
}
