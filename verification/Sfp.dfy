/**
 The simple fragmentation protocol of csp_sfp.c: a block of data cut into packets with an
 8-byte trailer (offset and total size), and put together again by a receiver that reads
 whatever the connection delivers.
 */
module Sfp {
  import opened Words
  import opened CspId
  import opened Packet
  import opened BufferPool

  /** `CSP_FFRAG`. */
  const FFRAG: bv8 := 0x10

  // ----- uint32_t in network byte order -----

  type u32 = n: nat | n < 0x1_0000_0000

  function ToBytes(n: u32): (s: seq<byte>)
    ensures |s| == 4
  {
    [ByteOf(n / 0x100_0000), ByteOf(n / 0x1_0000 % 256), ByteOf(n / 0x100 % 256), ByteOf(n % 256)]
  }

  function FromBytes(s: seq<byte>): u32
    requires |s| == 4
  {
    Num8(s[0]) * 0x100_0000 + Num8(s[1]) * 0x1_0000 + Num8(s[2]) * 0x100 + Num8(s[3])
  }

  lemma LowDigit(n: nat)
    ensures n / 256 * 256 + n % 256 == n
  {}

  lemma SecondDigit(n: nat)
    ensures n / 256 / 256 == n / 0x1_0000
  {}

  lemma ThirdDigit(n: nat)
    ensures n / 0x1_0000 / 256 == n / 0x100_0000
  {}

  lemma ByteDigits(n: nat)
    ensures n / 0x100_0000 * 0x100_0000 + n / 0x1_0000 % 256 * 0x1_0000 + n / 0x100 % 256 * 0x100 + n % 256 == n
  {
    LowDigit(n);
    LowDigit(n / 256);
    SecondDigit(n);
    LowDigit(n / 0x1_0000);
    ThirdDigit(n);
  }

  lemma BytesRoundTrip(n: u32)
    ensures FromBytes(ToBytes(n)) == n
  {
    hide ByteOf, Num8;
    ByteOfNumber(n / 0x100_0000);
    ByteOfNumber(n / 0x1_0000 % 256);
    ByteOfNumber(n / 0x100 % 256);
    ByteOfNumber(n % 256);
    ByteDigits(n);
  }

  lemma FromBytesIsNumber(s: seq<byte>)
    requires |s| == 4
    ensures FromBytes(s) == Number(s)
  {
    hide Num8, Number;
    NumberOf4(s);
  }

  // ----- fragments -----

  /** What a fragment says: its bytes, and where they belong in a block of `total` bytes. */
  datatype Fragment = Fragment(offset: u32, total: u32, payload: seq<byte>)

  /** `csp_sfp_header_add`: the trailer goes behind the payload. */
  function Trailed(f: Fragment): (data: seq<byte>)
    ensures |data| == |f.payload| + 8
  {
    f.payload + ToBytes(f.offset) + ToBytes(f.total)
  }

  /** `csp_sfp_header_remove`: the packet must be flagged, hold a trailer, and have an offset within the total. */
  function Untrailed(p: Packet): Option<Fragment> {
    if p.id.flags & FFRAG == 0 || |p.data| < 8 then None else
    var n := |p.data| - 8;
    var f := Fragment(FromBytes(p.data[n..n + 4]), FromBytes(p.data[n + 4..]), p.data[..n]);
    if f.offset > f.total then None else Some(f)
  }

  /**
   What `csp_sfp_header_remove` leaves in the packet: the length no longer counts the trailer, even
   one it rejects.
   */
  function Shortened(p: Packet): Packet {
    if p.id.flags & FFRAG == 0 || |p.data| < 8 then p else p.(data := p.data[..|p.data| - 8])
  }

  lemma ShortenedIsPayload(p: Packet)
    requires Untrailed(p).Some?
    ensures Shortened(p) == p.(data := Untrailed(p).value.payload)
  {
    hide FromBytes;
  }

  lemma UntrailedTrailed(id: Id, f: Fragment)
    requires id.flags & FFRAG != 0
    ensures Untrailed(Packet(id, Trailed(f))) == if f.offset <= f.total then Some(f) else None
  {
    hide ToBytes, FromBytes;
    BytesRoundTrip(f.offset);
    BytesRoundTrip(f.total);
    var data, n := Trailed(f), |f.payload|;
    assert data[..n] == f.payload && data[n..n + 4] == ToBytes(f.offset) && data[n + 4..] == ToBytes(f.total);
  }

  /** The trailer spells offset and total as numbers in network byte order, in this order. */
  lemma TrailerSpells(f: Fragment)
    ensures var data, n := Trailed(f), |f.payload|;
            data[..n] == f.payload && Number(data[n..n + 4]) == f.offset && Number(data[n + 4..]) == f.total
  {
    hide ToBytes, FromBytes, Number;
    BytesRoundTrip(f.offset);
    BytesRoundTrip(f.total);
    FromBytesIsNumber(ToBytes(f.offset));
    FromBytesIsNumber(ToBytes(f.total));
    var data, n := Trailed(f), |f.payload|;
    assert data[n..n + 4] == ToBytes(f.offset) && data[n + 4..] == ToBytes(f.total);
  }

  type Block = s: seq<byte> | |s| < 0x8000_0000

  function Chunk(data: Block, from: nat, mtu: nat): (c: seq<byte>)
    requires from < |data| && mtu > 0
    ensures 0 < |c| <= mtu && from + |c| <= |data|
  {
    data[from..if |data| - from > mtu then from + mtu else |data|]
  }

  function PacketAt(id: Id, data: Block, from: nat, mtu: nat): Packet
    requires from < |data| && mtu > 0
  {
    Packet(id, Trailed(Fragment(from, |data|, Chunk(data, from, mtu))))
  }

  /** The packets of one transfer, from offset `from` on. */
  function Packets(id: Id, data: Block, from: nat, mtu: nat): seq<Packet>
    requires from <= |data| && mtu > 0
    decreases |data| - from
  {
    if from == |data| then [] else
    [PacketAt(id, data, from, mtu)] + Packets(id, data, from + |Chunk(data, from, mtu)|, mtu)
  }

  /** Fragment `i` of a transfer starts `i` times `mtu` bytes on, so all but the last are full. */
  lemma {:induction false} PacketsAre(id: Id, data: Block, from: nat, mtu: nat, i: nat, at: nat)
    requires from <= |data| && mtu > 0 && at == from + i * mtu
    ensures i < |Packets(id, data, from, mtu)| <==> at < |data|
    ensures at < |data| ==> Packets(id, data, from, mtu)[i] == PacketAt(id, data, at, mtu)
    decreases i
  {
    hide PacketAt;
    if from < |data| {
      PacketsStep(id, data, from, mtu);
      if i > 0 {
        var next := from + |Chunk(data, from, mtu)|;
        TimesLess(i, mtu);
        if next == from + mtu {
          PacketsAre(id, data, next, mtu, i - 1, at);
        } else {
          PacketsEnd(id, data, mtu);
        }
      }
    } else {
      PacketsEnd(id, data, mtu);
      if i > 0 {
        TimesLess(i, mtu);
      }
    }
  }

  lemma TimesLess(i: nat, mtu: nat)
    requires i > 0
    ensures i * mtu == mtu + (i - 1) * mtu && (i - 1) * mtu >= 0
  {}

  // ----- the sender -----

  datatype SendResult = SendOk | SendInvalid | SendNoMemory

  function Flagged(id: Id): Id {
    id.(flags := id.flags | FFRAG)
  }

  lemma FlagStays(id: Id)
    ensures Flagged(id).flags & FFRAG != 0 && Flagged(Flagged(id)) == Flagged(id)
    ensures Flagged(id) == id.(flags := id.flags | 0x10)
  {}

  /**
   `csp_sfp_send_own_memcpy`: `buffers` is how many times `csp_buffer_get` will succeed.
   Everything sent is a prefix of the transfer, and all of it unless buffers run out.
   */
  method Send(idout: Id, data: Block, mtu: nat, buffers: nat) returns (r: SendResult, sent: seq<Packet>, idout': Id)
    ensures r == SendInvalid <==> mtu == 0 || mtu + 8 > CSP_BUFFER_SIZE
    ensures r == SendInvalid ==> sent == []
    ensures r == SendOk ==> sent == Packets(Flagged(idout), data, 0, mtu)
    ensures r == SendNoMemory ==> sent < Packets(Flagged(idout), data, 0, mtu) && |sent| == buffers
    ensures idout' == if sent == [] then idout else Flagged(idout)
  {
    hide Packets, Trailed, Flagged;
    sent := [];
    idout' := idout;
    if mtu == 0 || mtu + 8 > CSP_BUFFER_SIZE {
      return SendInvalid, sent, idout';
    }
    FlagStays(idout);
    var count := 0;
    while count < |data|
      invariant count <= |data|
      invariant Packets(Flagged(idout), data, 0, mtu) == sent + Packets(Flagged(idout), data, count, mtu)
      invariant |sent| <= buffers
      invariant idout' == if sent == [] then idout else Flagged(idout)
    {
      PacketsStep(Flagged(idout), data, count, mtu);
      if |sent| == buffers {
        return SendNoMemory, sent, idout';
      }
      var size := |data| - count;
      if size > mtu {
        size := mtu;
      }
      var payload := data[count..count + size];
      idout' := Flagged(idout');
      var p := Packet(idout', Trailed(Fragment(count, |data|, payload)));
      assert p == PacketAt(Flagged(idout), data, count, mtu);
      ghost var rest := Packets(Flagged(idout), data, count + size, mtu);
      assert sent + ([p] + rest) == (sent + [p]) + rest;
      sent := sent + [p];
      count := count + size;
    }
    PacketsEnd(Flagged(idout), data, mtu);
    return SendOk, sent, idout';
  }

  lemma PacketsStep(id: Id, data: Block, from: nat, mtu: nat)
    requires from < |data| && mtu > 0
    ensures Packets(id, data, from, mtu)
         == [PacketAt(id, data, from, mtu)] + Packets(id, data, from + |Chunk(data, from, mtu)|, mtu)
  {}

  lemma PacketsEnd(id: Id, data: Block, mtu: nat)
    requires mtu > 0
    ensures Packets(id, data, |data|, mtu) == []
  {}

  // ----- the receiver -----

  datatype RecvError = TimedOut | Protocol | NoMemory

  datatype RecvResult = RecvOk(data: seq<byte>) | RecvFailed(error: RecvError)

  /** After one packet: the transfer goes on with `got` bytes out of `total`, or it is over. */
  datatype Progress = More(got: seq<byte>, total: u32) | Over(result: RecvResult)

  /** The result, and how many packets were read to get there. */
  datatype Outcome = Outcome(result: RecvResult, read: nat)

  /**
   One packet, with `got` already in the block and the block's size known once allocated.
   `heap` is the largest block `malloc` can give.
   */
  function Take(p: Packet, got: seq<byte>, total: Option<u32>, heap: nat): Progress {
    match Untrailed(p)
    case None => Over(RecvFailed(Protocol))
    case Some(f) =>
      var size := if total.None? then f.total else total.value;
      if f.offset != |got| then Over(RecvFailed(Protocol))
      else if total.None? && f.total > heap then Over(RecvFailed(NoMemory))
      else if |got| + |f.payload| > size || size != f.total then Over(RecvFailed(Protocol))
      else if |got| + |f.payload| == size then Over(RecvOk(got + f.payload))
      else if |f.payload| == 0 then Over(RecvFailed(Protocol))
      else More(got + f.payload, size)
  }

  /** All packets that successive reads return; after the last one, reading times out. */
  function Reassemble(packets: seq<Packet>, got: seq<byte>, total: Option<u32>, heap: nat): (o: Outcome)
    ensures o.read <= |packets|
    decreases |packets|
  {
    if packets == [] then Outcome(RecvFailed(TimedOut), 0) else
    match Take(packets[0], got, total, heap)
    case Over(result) => Outcome(result, 1)
    case More(got', size) =>
      var rest := Reassemble(packets[1..], got', Some(size), heap);
      Outcome(rest.result, rest.read + 1)
  }

  function Received(packets: seq<Packet>, heap: nat): (o: Outcome)
    ensures o.read <= |packets|
  {
    Reassemble(packets, [], None, heap)
  }

  /** The same out of a pool: reading a buffer's header changes what the buffer says. */
  function ReassembleIn(pool: seq<Packet>, stream: seq<nat>, got: seq<byte>, total: Option<u32>,
                        heap: nat): (o: Outcome)
    requires forall i :: 0 <= i < |stream| ==> stream[i] < |pool|
    ensures o.read <= |stream|
    decreases |stream|
  {
    if stream == [] then Outcome(RecvFailed(TimedOut), 0) else
    var b := stream[0];
    match Take(pool[b], got, total, heap)
    case Over(result) => Outcome(result, 1)
    case More(got', size) =>
      var rest := ReassembleIn(pool[b := Shortened(pool[b])], stream[1..], got', Some(size), heap);
      Outcome(rest.result, rest.read + 1)
  }

  /** What the buffers of a stream say. */
  function Contents(pool: seq<Packet>, stream: seq<nat>): (packets: seq<Packet>)
    requires forall i :: 0 <= i < |stream| ==> stream[i] < |pool|
    ensures |packets| == |stream| && forall i :: 0 <= i < |stream| ==> packets[i] == pool[stream[i]]
  {
    seq(|stream|, i requires 0 <= i < |stream| && stream[i] < |pool| => pool[stream[i]])
  }

  /** As long as no buffer comes twice, only what the buffers say matters. */
  lemma {:induction false} DistinctBuffers(pool: seq<Packet>, stream: seq<nat>, got: seq<byte>, total: Option<u32>,
                                           heap: nat)
    requires forall i :: 0 <= i < |stream| ==> stream[i] < |pool|
    requires forall i, j :: 0 <= i < j < |stream| ==> stream[i] != stream[j]
    ensures ReassembleIn(pool, stream, got, total, heap) == Reassemble(Contents(pool, stream), got, total, heap)
    decreases |stream|
  {
    hide Take, Shortened;
    if stream != [] {
      var after := pool[stream[0] := Shortened(pool[stream[0]])];
      assert Contents(pool, stream)[1..] == Contents(after, stream[1..]);
      match Take(pool[stream[0]], got, total, heap)
      case Over(_) =>
      case More(got', size) => DistinctBuffers(after, stream[1..], got', Some(size), heap);
    }
  }

  /** The block under construction, as far as it is filled. */
  class Assembly {
    var block: array?<byte>
    var offset: nat

    ghost predicate Valid()
      reads this
    {
      if block == null then offset == 0 else offset < block.Length < 0x8000_0000
    }

    ghost function Got(): seq<byte>
      requires Valid()
      reads this, block
    {
      if block == null then [] else block[..offset]
    }

    ghost function Total(): Option<u32>
      requires Valid()
      reads this
    {
      if block == null then None else Some(block.Length)
    }

    constructor ()
      ensures Valid() && block == null
    {
      block, offset := null, 0;
    }

    /** `csp_sfp_header_remove`. */
    method RemoveHeader(pool: Pool, b: nat, ghost held: multiset<nat>) returns (header: Option<Fragment>)
      requires pool.Conserved(held) && b in held
      modifies pool`packets
      ensures pool.Conserved(held) && b < |old(pool.packets)|
      ensures header == Untrailed(old(pool.packets)[b])
      ensures pool.packets == old(pool.packets)[b := Shortened(old(pool.packets)[b])]
    {
      hide FromBytes;
      var p := pool.packets[b];
      if p.id.flags & FFRAG == 0 || |p.data| < 8 {
        assert pool.packets[b := p] == pool.packets;
        return None;
      }
      var n := |p.data| - 8;
      pool.Write(b, p.(data := p.data[..n]), held);
      var f := Fragment(FromBytes(p.data[n..n + 4]), FromBytes(p.data[n + 4..]), p.data[..n]);
      return if f.offset > f.total then None else Some(f);
    }

    /** `memcpy` behind what is there. */
    method CopyIn(payload: seq<byte>)
      requires block != null && offset + |payload| <= block.Length
      modifies this`offset, block
      ensures offset == old(offset) + |payload| && block[..offset] == old(block[..offset]) + payload
    {
      forall i | 0 <= i < |payload| {
        block[offset + i] := payload[i];
      }
      offset := offset + |payload|;
    }

    /**
     The body of the receive loop. Each of its exits frees the packet, and nothing is written
     outside the block.
     */
    method TakePacket(pool: Pool, b: nat, heap: nat, ghost held: multiset<nat>) returns (over: Option<RecvResult>)
      requires Valid() && heap < 0x8000_0000 && pool.Conserved(held) && b in held
      modifies this, block, pool`free, pool`refcount, pool`packets
      ensures pool.Conserved(held - multiset{b}) && b < |old(pool.packets)|
      ensures pool.packets == old(pool.packets)[b := Shortened(old(pool.packets)[b])]
      ensures match Take(old(pool.packets)[b], old(Got()), old(Total()), heap)
              case Over(result) => over == Some(result)
              case More(got, total) => over == None && Valid() && Got() == got && Total() == Some(total)
      ensures block == old(block) || fresh(block)
    {
      hide Untrailed, Pool.Conserved, Shortened;
      ghost var got := Got();
      var header := RemoveHeader(pool, b, held);
      if header.None? {
        pool.Free(b, held);
        return Some(RecvFailed(Protocol));
      }
      ShortenedIsPayload(old(pool.packets)[b]);
      if header.value.offset != offset {
        pool.Free(b, held);
        return Some(RecvFailed(Protocol));
      }
      if block == null {
        if header.value.total > heap {
          pool.Free(b, held);
          return Some(RecvFailed(NoMemory));
        }
        block := new byte[header.value.total];
      }
      var payload := pool.packets[b].data;
      if offset + |payload| > block.Length || block.Length != header.value.total {
        pool.Free(b, held);
        return Some(RecvFailed(Protocol));
      }
      CopyIn(payload);
      assert block[..offset] == got + payload;
      if offset >= block.Length {
        assert block[..] == block[..offset];
        pool.Free(b, held);
        return Some(RecvOk(block[..]));
      }
      if |payload| == 0 {
        pool.Free(b, held);
        return Some(RecvFailed(Protocol));
      }
      pool.Free(b, held);
      return None;
    }
  }

  lemma ReassembleNext(pool: seq<Packet>, stream: seq<nat>, i: nat, got: seq<byte>, total: Option<u32>, heap: nat)
    requires i < |stream| && forall k :: 0 <= k < |stream| ==> stream[k] < |pool|
    ensures ReassembleIn(pool, stream[i..], got, total, heap)
         == match Take(pool[stream[i]], got, total, heap)
            case Over(result) => Outcome(result, 1)
            case More(got', size) =>
              var after := pool[stream[i] := Shortened(pool[stream[i]])];
              var rest := ReassembleIn(after, stream[i + 1..], got', Some(size), heap);
              Outcome(rest.result, rest.read + 1)
  {
    hide Take, Shortened;
    assert stream[i..][1..] == stream[i + 1..];
  }

  lemma ReassembleEnd(pool: seq<Packet>, got: seq<byte>, total: Option<u32>, heap: nat)
    ensures ReassembleIn(pool, [], got, total, heap) == Outcome(RecvFailed(TimedOut), 0)
  {}

  /** One buffer less of those still to be read. */
  lemma OneRead(held: multiset<nat>, stream: seq<nat>, i: nat)
    requires i < |stream| && multiset(stream) <= held
    ensures stream[i] in held - multiset(stream[..i])
    ensures held - multiset(stream[..i]) - multiset{stream[i]} == held - multiset(stream[..i + 1])
  {
    assert stream == stream[..i] + [stream[i]] + stream[i + 1..];
    assert stream[..i + 1] == stream[..i] + [stream[i]];
  }

  lemma StreamInPool(pool: Pool, held: multiset<nat>, stream: seq<nat>)
    requires pool.Conserved(held) && multiset(stream) <= held
    ensures forall i :: 0 <= i < |stream| ==> stream[i] < |pool.packets|
  {
    forall i | 0 <= i < |stream|
      ensures stream[i] < |pool.packets|
    {
      assert stream[i] in multiset(stream);
    }
  }

  /**
   `csp_sfp_recv_fp`: `stream` is the optional first packet followed by what reading the
   connection returns until it times out. Whatever the outcome, the buffers read are released,
   one reference each, and no other.
   */
  method Receive(pool: Pool, stream: seq<nat>, heap: nat, ghost held: multiset<nat>)
    returns (result: RecvResult, read: nat)
    requires heap < 0x8000_0000 && pool.Conserved(held) && multiset(stream) <= held
    modifies pool`free, pool`refcount, pool`packets
    ensures read <= |stream| && pool.Conserved(held - multiset(stream[..read]))
    ensures forall i :: 0 <= i < |stream| ==> stream[i] < |old(pool.packets)|
    ensures Outcome(result, read) == ReassembleIn(old(pool.packets), stream, [], None, heap)
  {
    hide Take, ReassembleIn, Pool.Conserved, Shortened;
    StreamInPool(pool, held, stream);
    var i := 0;
    var assembly := new Assembly();
    assert stream[0..] == stream && held - multiset(stream[..0]) == held;
    while i < |stream|
      invariant fresh(assembly) && assembly.Valid() && (assembly.block != null ==> fresh(assembly.block))
      invariant i <= |stream| && |pool.packets| == |old(pool.packets)|
      invariant pool.Conserved(held - multiset(stream[..i]))
      invariant var rest := ReassembleIn(pool.packets, stream[i..], assembly.Got(), assembly.Total(), heap);
                ReassembleIn(old(pool.packets), stream, [], None, heap) == Outcome(rest.result, i + rest.read)
    {
      OneRead(held, stream, i);
      ReassembleNext(pool.packets, stream, i, assembly.Got(), assembly.Total(), heap);
      var over := assembly.TakePacket(pool, stream[i], heap, held - multiset(stream[..i]));
      i := i + 1;
      if over.Some? {
        return over.value, i;
      }
    }
    assert stream[i..] == [];
    ReassembleEnd(pool.packets, assembly.Got(), assembly.Total(), heap);
    return RecvFailed(TimedOut), i;
  }

  // ----- what the receiver guarantees -----

  /**
   The packets are consecutive fragments of one block of `total` bytes, filling it from `from` to its
   end with `d`.
   */
  ghost predicate Fills(packets: seq<Packet>, from: nat, total: u32, d: seq<byte>)
    decreases |packets|
  {
    && packets != []
    && Untrailed(packets[0]).Some?
    && var f := Untrailed(packets[0]).value;
       && f.offset == from && f.total == total && f.payload <= d
       && (if f.payload == d then |packets| == 1 && from + |d| == total
           else f.payload != [] && Fills(packets[1..], from + |f.payload|, total, d[|f.payload|..]))
  }

  lemma {:induction false} FillsLength(packets: seq<Packet>, from: nat, total: u32, d: seq<byte>)
    requires Fills(packets, from, total, d)
    ensures from + |d| == total
    decreases |packets|
  {
    hide Untrailed;
    var f := Untrailed(packets[0]).value;
    if f.payload != d {
      FillsLength(packets[1..], from + |f.payload|, total, d[|f.payload|..]);
    }
  }

  lemma FillsLast(packets: seq<Packet>, f: Fragment, from: nat)
    requires packets != [] && Untrailed(packets[0]) == Some(f)
    requires f.offset == from && from + |f.payload| == f.total
    ensures Fills(packets[..1], from, f.total, f.payload)
  {
    hide Untrailed;
  }

  lemma FillsMore(packets: seq<Packet>, n: nat, f: Fragment, from: nat, d: seq<byte>)
    requires 0 < n <= |packets| && Untrailed(packets[0]) == Some(f)
    requires f.offset == from && f.payload <= d && f.payload != [] && f.payload != d
    requires Fills(packets[1..][..n - 1], from + |f.payload|, f.total, d[|f.payload|..])
    ensures Fills(packets[..n], from, f.total, d)
  {
    hide Untrailed;
    assert packets[..n][1..] == packets[1..][..n - 1];
  }

  /** Data is returned only for packets that fill a block from start to end, and it is what they carry. */
  lemma {:induction false} ReassembleSound(packets: seq<Packet>, got: seq<byte>, total: Option<u32>, heap: nat)
    requires var o := Reassemble(packets, got, total, heap); o.result.RecvOk?
    requires total.Some? ==> |got| < total.value
    ensures var o := Reassemble(packets, got, total, heap);
            && got <= o.result.data
            && (total.Some? ==> |o.result.data| == total.value)
            && (total.None? ==> |o.result.data| <= heap)
            && |o.result.data| < 0x1_0000_0000
            && Fills(packets[..o.read], |got|, |o.result.data|, o.result.data[|got|..])
    decreases |packets|
  {
    hide Untrailed, Fills;
    var o := Reassemble(packets, got, total, heap);
    var f := Untrailed(packets[0]).value;
    match Take(packets[0], got, total, heap)
    case Over(result) =>
      FillsLast(packets, f, |got|);
      assert o.result.data[|got|..] == f.payload;
    case More(got', size) =>
      ReassembleSound(packets[1..], got', Some(size), heap);
      var d := o.result.data;
      assert d[|got|..][|f.payload|..] == d[|got'|..];
      assert f.payload == d[|got|..|got'|] <= d[|got|..];
      FillsMore(packets, o.read, f, |got|, d[|got|..]);
  }

  /** Conversely, packets that fill a block which fits the heap are accepted, whatever follows them. */
  lemma {:induction false} ReassembleComplete(packets: seq<Packet>, n: nat, got: seq<byte>, total: Option<u32>,
                                              heap: nat, d: seq<byte>)
    requires n <= |packets| && |got| + |d| < 0x1_0000_0000
    requires Fills(packets[..n], |got|, |got| + |d|, d)
    requires if total.None? then got == [] && |d| <= heap else total.value == |got| + |d|
    ensures Reassemble(packets, got, total, heap) == Outcome(RecvOk(got + d), n)
    decreases n
  {
    hide Untrailed;
    var f := Untrailed(packets[0]).value;
    assert packets[..n][0] == packets[0];
    if f.payload != d {
      FillsLength(packets[..n][1..], |got| + |f.payload|, |got| + |d|, d[|f.payload|..]);
      assert packets[..n][1..] == packets[1..][..n - 1];
      ReassembleComplete(packets[1..], n - 1, got + f.payload, Some(|got| + |d|), heap, d[|f.payload|..]);
      assert (got + f.payload) + d[|f.payload|..] == got + d;
    }
  }

  // ----- a transfer over a channel that loses, duplicates and reorders -----

  lemma {:induction false} OneOfTransfer(id: Id, data: Block, from: nat, mtu: nat, p: Packet) returns (o: nat)
    requires from <= |data| && mtu > 0 && p in Packets(id, data, from, mtu)
    ensures o < |data| && p == PacketAt(id, data, o, mtu)
    decreases |data| - from
  {
    hide PacketAt;
    if p == PacketAt(id, data, from, mtu) {
      o := from;
    } else {
      o := OneOfTransfer(id, data, from + |Chunk(data, from, mtu)|, mtu, p);
    }
  }

  lemma ReadPacketAt(id: Id, data: Block, o: nat, mtu: nat)
    requires o < |data| && mtu > 0 && id.flags & FFRAG != 0
    ensures Untrailed(PacketAt(id, data, o, mtu)) == Some(Fragment(o, |data|, Chunk(data, o, mtu)))
  {
    hide Untrailed, Trailed;
    UntrailedTrailed(id, Fragment(o, |data|, Chunk(data, o, mtu)));
  }

  /** The receiver accepts exactly the packet it waits for; the first one only if it can have memory for the block. */
  lemma {:induction false} TransferFrom(stream: seq<Packet>, id: Id, data: Block, from: nat, mtu: nat, heap: nat)
    requires mtu > 0 && from < |data| && id.flags & FFRAG != 0
    requires forall p :: p in stream ==> p in Packets(id, data, 0, mtu)
    ensures var o := Reassemble(stream, data[..from], if from == 0 then None else Some(|data|), heap);
            var rest := Packets(id, data, from, mtu);
            && (o.result.RecvOk? <==> rest <= stream && (from == 0 ==> |data| <= heap))
            && (o.result.RecvOk? ==> o == Outcome(RecvOk(data), |rest|))
    decreases |stream|
  {
    hide Untrailed, PacketAt, Packets, Chunk;
    PacketsStep(id, data, from, mtu);
    var chunk := Chunk(data, from, mtu);
    var rest := Packets(id, data, from, mtu);
    assert rest[0] == PacketAt(id, data, from, mtu);
    if stream != [] {
      var o := OneOfTransfer(id, data, 0, mtu, stream[0]);
      ReadPacketAt(id, data, o, mtu);
      ReadPacketAt(id, data, from, mtu);
      if o == from {
        ChunkFollows(data, from, mtu);
        var next := from + |chunk|;
        PrefixTail(rest, stream);
        assert rest[1..] == Packets(id, data, next, mtu);
        if next < |data| {
          TransferFrom(stream[1..], id, data, next, mtu, heap);
        } else {
          PacketsEnd(id, data, mtu);
          assert data[..next] == data;
        }
      } else {
        assert Reassemble(stream, data[..from], if from == 0 then None else Some(|data|), heap).result.RecvFailed?;
        assert stream[0] != rest[0];
      }
    }
  }

  lemma ChunkFollows(data: Block, from: nat, mtu: nat)
    requires from < |data| && mtu > 0
    ensures data[..from] + Chunk(data, from, mtu) == data[..from + |Chunk(data, from, mtu)|]
  {}

  lemma PrefixTail<T>(a: seq<T>, b: seq<T>)
    requires a != [] && b != [] && a[0] == b[0]
    ensures a <= b <==> a[1..] <= b[1..]
  {
    if a[1..] <= b[1..] {
      assert a == [a[0]] + a[1..] && b == [b[0]] + b[1..];
    }
  }

  /** The first packet of a block too large for the receiver's memory ends the transfer. */
  lemma NoRoomForBlock(stream: seq<Packet>, id: Id, data: Block, mtu: nat, heap: nat)
    requires mtu > 0 && 0 < |data| && heap < |data| && id.flags & FFRAG != 0
    requires stream != [] && stream[0] == PacketAt(id, data, 0, mtu)
    ensures Received(stream, heap) == Outcome(RecvFailed(NoMemory), 1)
  {
    hide Untrailed, PacketAt;
    ReadPacketAt(id, data, 0, mtu);
  }

  lemma NothingSent(id: Id, data: Block, mtu: nat, heap: nat)
    requires mtu > 0 && data == []
    ensures Packets(id, data, 0, mtu) == [] && Received([], heap) == Outcome(RecvFailed(TimedOut), 0)
  {}

  /**
   The transfer over a faulty channel: of the packets of one transfer, lost, duplicated and
   reordered at will, the receiver returns data exactly when all of them, and not none, arrived
   first and in order, and it has memory for the block; then it returns the block that was sent.
   In every other case it returns no data.
   */
  lemma TransferOverFaultyChannel(stream: seq<Packet>, idout: Id, data: Block, mtu: nat, heap: nat)
    requires mtu > 0
    requires forall p :: p in stream ==> p in Packets(Flagged(idout), data, 0, mtu)
    ensures var o := Received(stream, heap);
            var sent := Packets(Flagged(idout), data, 0, mtu);
            && (o.result.RecvOk? <==> sent != [] && sent <= stream && |data| <= heap)
            && (o.result.RecvOk? ==> o == Outcome(RecvOk(data), |sent|))
            && (sent != [] && stream != [] && stream[0] == sent[0] && |data| > heap ==>
                  o == Outcome(RecvFailed(NoMemory), 1))
  {
    hide Reassemble, Packets, Flagged, PacketAt;
    FlagStays(idout);
    if data == [] {
      NothingSent(Flagged(idout), data, mtu, heap);
      EmptyOrNot(stream);
    } else {
      TransferFrom(stream, Flagged(idout), data, 0, mtu, heap);
      PacketsStep(Flagged(idout), data, 0, mtu);
      assert data[..0] == [];
      if stream != [] && stream[0] == PacketAt(Flagged(idout), data, 0, mtu) && |data| > heap {
        NoRoomForBlock(stream, Flagged(idout), data, mtu, heap);
      }
    }
  }

  lemma EmptyOrNot<T>(s: seq<T>)
    ensures s == [] || exists x :: x in s
  {
    if s != [] {
      assert s[0] in s;
    }
  }

  /** The same for buffers of a pool, as `Receive` reads them. */
  lemma TransferOutOfPool(pool: seq<Packet>, stream: seq<nat>, idout: Id, data: Block, mtu: nat, heap: nat)
    requires mtu > 0
    requires forall i :: 0 <= i < |stream| ==> stream[i] < |pool|
    requires forall i, j :: 0 <= i < j < |stream| ==> stream[i] != stream[j]
    requires forall p :: p in Contents(pool, stream) ==> p in Packets(Flagged(idout), data, 0, mtu)
    ensures var o := ReassembleIn(pool, stream, [], None, heap);
            var sent := Packets(Flagged(idout), data, 0, mtu);
            && (o.result.RecvOk? <==> sent != [] && sent <= Contents(pool, stream) && |data| <= heap)
            && (o.result.RecvOk? ==> o == Outcome(RecvOk(data), |sent|))
  {
    hide Reassemble, ReassembleIn, Packets, Flagged;
    DistinctBuffers(pool, stream, [], None, heap);
    TransferOverFaultyChannel(Contents(pool, stream), idout, data, mtu, heap);
  }
}
