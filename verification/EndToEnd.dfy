/**
 From one node over the serial link to another: what `csp_send_direct_iface` hands over,
 `csp_kiss_tx` and `csp_kiss_rx` carry, and `csp_route_security_check` accepts.
 */
module EndToEnd {
  import opened Words
  import opened CspId
  import opened Packet
  import opened Crc32
  import opened Kiss
  import opened Conn
  import opened Outgoing
  import opened Router

  /** How much a packet of our own carries: the data, and its own checksum if the id asks for one. */
  function Carries(id: Id, data: seq<byte>): nat {
    |data| + if id.flags & FCRC32 != 0 then 4 else 0
  }

  /** What a socket or connection with options `opts` is given of packet `p` after the link, if anything. */
  function Received(v: Version, opts: bv32, p: Packet): Option<Packet> {
    var arrived := Arrives(v, p);
    if arrived == [] then None else Checked(v, opts, arrived[0])
  }

  /** That is what the receiver's queue gets and the check then makes of it. */
  lemma ReceivedFromLink(v: Version, s: Link, opts: bv32, p: Packet)
    requires Ready(s) && (s.held.Some? || s.free > 0) && |s.fifo| < CSP_QFIFO_LEN && |p.data| <= CSP_BUFFER_SIZE
    ensures var t := Run(v, s, Line(v, p));
            if |t.fifo| == |s.fifo| then t.fifo == s.fifo && Received(v, opts, p) == None
            else |t.fifo| == |s.fifo| + 1 && Received(v, opts, p) == Checked(v, opts, t.fifo[|s.fifo|])
  {
    hide Run, Line, Arrives, Checked;
    LinkOutcome(v, s, p);
    assert s.fifo + [] == s.fifo;
  }

  lemma CheckedKeepsId(v: Version, opts: bv32, p: Packet)
    requires Checked(v, opts, p).Some?
    ensures var q := Checked(v, opts, p).value;
            q.id == p.id && |q.data| == if p.id.flags & FCRC32 != 0 then |p.data| - 4 else |p.data|
  {
    hide Header, Crc32c, Be32;
  }

  /**
   The other node gets exactly the packet that was sent if and only if payload and own checksum
   leave five bytes of a buffer free, the header can carry the id, and a checksum is there if
   one is demanded.
   */
  lemma GetsWhatWasSent(v: Version, id: Id, data: seq<byte>, opts: bv32)
    requires FateOf(id, data, true).Handed? && |data| <= CSP_BUFFER_SIZE
    ensures Received(v, opts, FateOf(id, data, true).packet) == Some(Packet(id, data))
       <==> Carries(id, data) + 5 <= CSP_BUFFER_SIZE && Fits(v, id)
            && (id.flags & FCRC32 != 0 || opts & SO_CRC32REQ == 0)
  {
    hide Arrives, Header, Parse, CrcMatches, WithCrc, Fits;
    var p := FateOf(id, data, true).packet;
    var arrivedId := Parse(v, Header(v, id));
    ArrivesByLength(v, p);
    ParseHeader(v, id);
    WithCrcMatches(v, id, data);
    if Received(v, opts, p).Some? {
      CheckedKeepsId(v, opts, Arrives(v, p)[0]);
    }
  }

  /**
   A packet with a checksum of its own but no room for the link's: the link takes the checksum off,
   and the node asks for it.
   */
  lemma OwnChecksumConsumed(v: Version, id: Id, data: seq<byte>, opts: bv32)
    requires id.flags & FCRC32 != 0 && id.flags & FHMAC == 0 && Fits(v, id)
    requires CSP_BUFFER_SIZE <= |data| + 7 && |data| + 5 <= CSP_BUFFER_SIZE
    ensures var fate := FateOf(id, data, true);
            && fate.Handed?
            && Received(v, opts, fate.packet)
            == if CrcMatches(v, id, data) then Some(Packet(id, data[..|data| - 4])) else None
  {
    hide Arrives, Header, Parse, CrcMatches, WithCrc, Fits;
    var p := FateOf(id, data, true).packet;
    ArrivesByLength(v, p);
    ParseHeader(v, id);
    WithCrcMatches(v, id, data);
  }
}
