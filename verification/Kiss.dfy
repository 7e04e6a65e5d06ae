/**
 The KISS serial link of csp_if_kiss.c: byte stuffing on transmit, a four-mode byte
 automaton over a bounded packet buffer on receive.
 */
module Kiss {
  import opened Words
  import opened CspId
  import opened Crc32
  import opened Packet

  const FEND: byte := 0xC0
  const FESC: byte := 0xDB
  const TFEND: byte := 0xDC
  const TFESC: byte := 0xDD
  const TNC_DATA: byte := 0x00

  type FifoLength = n: nat | 2 <= n witness 16

  /** `CSP_QFIFO_LEN`. */
  const CSP_QFIFO_LEN: FifoLength

  // ----- the line format -----

  function StuffByte(b: byte): seq<byte> {
    if b == FEND then [FESC, TFEND]
    else if b == FESC then [FESC, TFESC]
    else [b]
  }

  function Stuff(bytes: seq<byte>): seq<byte> {
    if bytes == [] then [] else StuffByte(bytes[0]) + Stuff(bytes[1..])
  }

  /**
   The bytes between the two frame ends, before stuffing. A payload without room for a checksum goes
   out without one.
   */
  function FrameBytes(v: Version, p: Packet): (f: seq<byte>)
    ensures |f| > 0
  {
    Header(v, p.id) + (if |p.data| + 4 <= CSP_BUFFER_SIZE then WithCrc(p.data) else p.data)
  }

  function Line(v: Version, p: Packet): seq<byte> {
    [FEND, TNC_DATA] + Stuff(FrameBytes(v, p)) + [FEND]
  }

  // ----- the receiver, on values -----

  datatype Mode = NotStarted | Started | Escaped | SkipFrame

  datatype Stats = Stats(rxError: nat, frame: nat, drop: nat, txError: nat)

  /**
   What the receiver knows: `held` is the part of the frame stored so far in the packet
   buffer it holds, `free` the buffers left in the pool, `fifo` the router's input queue.
   */
  datatype Link = Link(mode: Mode, first: bool, held: Option<seq<byte>>, free: nat, fifo: seq<Packet>, stats: Stats) {
    predicate Valid() {
      mode.Started? || mode.Escaped? ==> held.Some?
    }
  }

  /** Where `frame_begin[rx_length]` runs past the end of `data`. */
  function Limit(v: Version): nat {
    HeaderSize(v) + CSP_BUFFER_SIZE
  }

  function Truncate(v: Version, s: Link): Link {
    if s.held.Some? && |s.held.value| >= Limit(v) then
      s.(mode := NotStarted, held := Some([]), stats := s.stats.(rxError := s.stats.rxError + 1))
    else s
  }

  function Store(s: Link, b: byte): Link
    requires s.held.Some?
  {
    s.(held := Some(s.held.value + [b]))
  }

  function Enqueue(s: Link, p: Packet): Link {
    if |s.fifo| < CSP_QFIFO_LEN then s.(fifo := s.fifo + [p])
    else s.(free := s.free + 1, stats := s.stats.(txError := s.stats.txError + 1))
  }

  /** The packet in a complete frame, if the header is there and a checksum matches. */
  function Decode(v: Version, f: seq<byte>): Option<Packet> {
    if |f| < HeaderSize(v) then None else
    var id, data := Parse(v, f[..HeaderSize(v)]), f[HeaderSize(v)..];
    if CrcMatches(v, id, data) then Some(Packet(id, data[..|data| - 4])) else None
  }

  function EndFrame(v: Version, s: Link): Link
    requires s.held.Some?
  {
    match Decode(v, s.held.value)
    case None => s.(mode := NotStarted, stats := s.stats.(frame := s.stats.frame + 1))
    case Some(p) => Enqueue(s.(mode := NotStarted, held := None), p)
  }

  function StartFrame(s: Link): Link {
    if s.held.None? && s.free == 0 then s.(mode := SkipFrame, stats := s.stats.(drop := s.stats.drop + 1))
    else s.(mode := Started, first := true, held := Some([]), free := if s.held.None? then s.free - 1 else s.free)
  }

  /** One input byte. */
  function Step(v: Version, s0: Link, b: byte): Link
    requires s0.Valid()
  {
    var s := Truncate(v, s0);
    match s.mode
    case NotStarted => if b == FEND then StartFrame(s) else s
    case Started =>
      if b == FESC then s.(mode := Escaped)
      else if b == FEND then (if |s.held.value| > 0 then EndFrame(v, s) else s)
      else if s.first then s.(first := false)
      else Store(s, b)
    case Escaped =>
      (if b == TFESC then Store(s, FESC) else if b == TFEND then Store(s, FEND) else s).(mode := Started)
    case SkipFrame => if b == FEND then s.(mode := NotStarted) else s
  }

  function Run(v: Version, s: Link, bytes: seq<byte>): (t: Link)
    requires s.Valid()
    ensures t.Valid()
    decreases |bytes|
  {
    if bytes == [] then s else Run(v, Step(v, s, bytes[0]), bytes[1..])
  }

  /** Cutting the stream into two calls changes nothing, hence no cutting into calls does. */
  lemma {:induction false} RunSplit(v: Version, s: Link, x: seq<byte>, y: seq<byte>)
    requires s.Valid()
    ensures Run(v, s, x + y) == Run(v, Run(v, s, x), y)
    decreases |x|
  {
    hide Step;
    if x == [] {
      assert x + y == y;
    } else {
      assert (x + y)[1..] == x[1..] + y;
      assert Step(v, s, x[0]).Valid() by { StepValid(v, s, x[0]); }
      RunSplit(v, Step(v, s, x[0]), x[1..], y);
    }
  }

  lemma StepValid(v: Version, s: Link, b: byte)
    requires s.Valid()
    ensures Step(v, s, b).Valid()
  {}

  /** Buffers are neither lost nor duplicated by the receiver: pool, held buffer and queue together stay constant. */
  lemma {:induction false} RunConservesBuffers(v: Version, s: Link, bytes: seq<byte>)
    requires s.Valid()
    ensures Buffers(Run(v, s, bytes)) == Buffers(s)
    decreases |bytes|
  {
    hide Step, Buffers;
    if bytes != [] {
      StepConservesBuffers(v, s, bytes[0]);
      RunConservesBuffers(v, Step(v, s, bytes[0]), bytes[1..]);
    }
  }

  function Buffers(s: Link): nat {
    s.free + (if s.held.Some? then 1 else 0) + |s.fifo|
  }

  lemma StepConservesBuffers(v: Version, s: Link, b: byte)
    requires s.Valid()
    ensures Step(v, s, b).Valid() && Buffers(Step(v, s, b)) == Buffers(s)
  {
    hide Decode;
  }

  // ----- unstuffing undoes stuffing -----

  lemma RunOne(v: Version, s: Link, b: byte)
    requires s.Valid()
    ensures Run(v, s, [b]) == Step(v, s, b)
  {
    hide Step;
    StepValid(v, s, b);
    assert Run(v, Step(v, s, b), []) == Step(v, s, b);
  }

  lemma RunTwo(v: Version, s: Link, b: byte, c: byte)
    requires s.Valid()
    ensures Step(v, s, b).Valid() && Run(v, s, [b, c]) == Step(v, Step(v, s, b), c)
  {
    hide Step;
    StepValid(v, s, b);
    assert [b, c][1..] == [c];
    RunOne(v, Step(v, s, b), c);
  }

  lemma StoreStuffedByte(v: Version, s: Link, b: byte)
    requires s.mode.Started? && s.held.Some? && !s.first && |s.held.value| < Limit(v)
    ensures Run(v, s, StuffByte(b)) == Store(s, b)
  {
    hide Run;
    if b == FEND {
      RunTwo(v, s, FESC, TFEND);
    } else if b == FESC {
      RunTwo(v, s, FESC, TFESC);
    } else {
      RunOne(v, s, b);
    }
  }

  /** Inside a frame the receiver stores exactly the bytes that were stuffed, as long as they fit. */
  lemma {:induction false} Unstuff(v: Version, s: Link, bytes: seq<byte>)
    requires s.mode.Started? && s.held.Some? && !s.first && |s.held.value| + |bytes| <= Limit(v)
    ensures Run(v, s, Stuff(bytes)) == s.(held := Some(s.held.value + bytes))
    decreases |bytes|
  {
    hide Run, StuffByte;
    if bytes == [] {
      assert s.held.value + bytes == s.held.value;
      assert Run(v, s, []) == s by { RunNone(v, s); }
    } else {
      StoreStuffedByte(v, s, bytes[0]);
      RunSplit(v, s, StuffByte(bytes[0]), Stuff(bytes[1..]));
      Unstuff(v, Store(s, bytes[0]), bytes[1..]);
      assert s.held.value + bytes == s.held.value + [bytes[0]] + bytes[1..];
    }
  }

  lemma RunNone(v: Version, s: Link)
    requires s.Valid()
    ensures Run(v, s, []) == s
  {}

  // ----- the link round trip -----

  /** The receiver waits for a frame: idle, or just past a frame end with nothing stored. */
  predicate Ready(s: Link) {
    s.mode.NotStarted? || (s.mode.Started? && s.first && s.held == Some([]))
  }

  lemma OpenFrame(v: Version, s: Link)
    requires Ready(s) && (s.held.Some? || s.free > 0)
    ensures var t := Step(v, s, FEND);
            t.mode.Started? && t.first && t.held == Some([]) && t.fifo == s.fifo && t.stats.rxError >= s.stats.rxError
  {}

  lemma SkipTncByte(v: Version, s: Link)
    requires s.mode.Started? && s.first && s.held == Some([])
    ensures Step(v, s, TNC_DATA) == s.(first := false)
  {}

  /** A complete frame from the transmitter decodes to the packet, with the id its header can carry. */
  lemma DecodeFrame(v: Version, p: Packet)
    requires |p.data| + 4 <= CSP_BUFFER_SIZE
    ensures Decode(v, FrameBytes(v, p)) == Some(Packet(Parse(v, Header(v, p.id)), p.data))
  {
    hide Header, Parse, CrcMatches, WithCrc;
    var f := FrameBytes(v, p);
    assert f[..HeaderSize(v)] == Header(v, p.id) && f[HeaderSize(v)..] == WithCrc(p.data);
    WithCrcMatches(v, Parse(v, Header(v, p.id)), p.data);
  }

  /** What the receiver makes of a frame that comes from the transmitter: the packets delivered, none or one. */
  function Arrives(v: Version, p: Packet): (arrived: seq<Packet>)
    ensures |arrived| <= 1
  {
    var f := FrameBytes(v, p);
    if |f| >= Limit(v) || Decode(v, f).None? then [] else [Decode(v, f).value]
  }

  /** The router's queue after that: a full one takes nothing. */
  function Joined(fifo: seq<Packet>, arrives: seq<Packet>): seq<Packet> {
    if |fifo| < CSP_QFIFO_LEN then fifo + arrives else fifo
  }

  lemma EndOfFrame(v: Version, s: Link, p: Packet)
    requires s.mode.Started? && s.held == Some(FrameBytes(v, p))
    ensures var t := Step(v, s, FEND);
            && Ready(t) && t.fifo == Joined(s.fifo, Arrives(v, p))
            && (Arrives(v, p) != [] ==> t.mode.NotStarted? && t.held.None?)
            && (|FrameBytes(v, p)| >= Limit(v) ==> t.stats.rxError > s.stats.rxError)
  {
    hide Decode, FrameBytes;
    assert s.fifo + [] == s.fifo;
  }

  /** Everything from the opening frame end to the last stuffed byte. */
  lemma FrameStored(v: Version, s: Link, p: Packet)
    requires Ready(s) && (s.held.Some? || s.free > 0) && |p.data| <= CSP_BUFFER_SIZE
    ensures var t := Run(v, s, [FEND, TNC_DATA] + Stuff(FrameBytes(v, p)));
            && t.mode.Started? && t.held == Some(FrameBytes(v, p))
            && t.fifo == s.fifo && t.stats.rxError >= s.stats.rxError
            && Run(v, s, Line(v, p)) == Step(v, t, FEND)
  {
    hide Run, Step, Stuff, FrameBytes;
    var f := FrameBytes(v, p);
    OpenFrame(v, s);
    var s1 := Step(v, s, FEND);
    SkipTncByte(v, s1);
    var s2 := Step(v, s1, TNC_DATA);
    RunTwo(v, s, FEND, TNC_DATA);
    assert |f| <= Limit(v) by { FrameLength(v, p); }
    Unstuff(v, s2, f);
    assert [] + f == f;
    RunSplit(v, s, [FEND, TNC_DATA], Stuff(f));
    RunSplit(v, s, [FEND, TNC_DATA] + Stuff(f), [FEND]);
    RunOne(v, Run(v, s, [FEND, TNC_DATA] + Stuff(f)), FEND);
  }

  /** The whole frame, for every packet a buffer can hold. */
  lemma LinkOutcome(v: Version, s: Link, p: Packet)
    requires Ready(s) && (s.held.Some? || s.free > 0) && |p.data| <= CSP_BUFFER_SIZE
    ensures var t := Run(v, s, Line(v, p));
            && Ready(t) && t.fifo == Joined(s.fifo, Arrives(v, p))
            && (Arrives(v, p) != [] ==> t.mode.NotStarted? && t.held.None?)
            && (|FrameBytes(v, p)| >= Limit(v) ==> t.stats.rxError > s.stats.rxError)
  {
    hide Run, Step, Stuff, FrameBytes, Arrives, Line;
    FrameStored(v, s, p);
    EndOfFrame(v, Run(v, s, [FEND, TNC_DATA] + Stuff(FrameBytes(v, p))), p);
  }

  /** What arrives of a payload, by its length. Without room for a checksum, the last four bytes are taken for one. */
  lemma ArrivesByLength(v: Version, p: Packet)
    requires |p.data| <= CSP_BUFFER_SIZE
    ensures var n, id := |p.data|, Parse(v, Header(v, p.id));
            var full := n + 4 == CSP_BUFFER_SIZE || n == CSP_BUFFER_SIZE;
            Arrives(v, p) == if n + 5 <= CSP_BUFFER_SIZE then [Packet(id, p.data)]
                             else if full || !CrcMatches(v, id, p.data) then []
                             else [Packet(id, p.data[..n - 4])]
  {
    hide Header, Parse, CrcMatches, WithCrc;
    FrameLength(v, p);
    if |p.data| + 4 <= CSP_BUFFER_SIZE {
      DecodeFrame(v, p);
    } else {
      var f := FrameBytes(v, p);
      assert f[..HeaderSize(v)] == Header(v, p.id) && f[HeaderSize(v)..] == p.data;
    }
  }

  /**
   Link round trip: header, checksum and stuffing, then unstuffing, stripping and verifying,
   deliver exactly one packet: the payload sent and the id its header carries.
   */
  lemma LinkRoundTrip(v: Version, s: Link, p: Packet)
    requires Ready(s) && (s.held.Some? || s.free > 0) && |s.fifo| < CSP_QFIFO_LEN
    requires |p.data| + 5 <= CSP_BUFFER_SIZE
    ensures var t := Run(v, s, Line(v, p));
            && t.mode.NotStarted? && t.held.None?
            && t.fifo == s.fifo + [Packet(Parse(v, Header(v, p.id)), p.data)]
            && (Fits(v, p.id) <==> t.fifo == s.fifo + [p])
  {
    hide Run, Line, Arrives, Header, Parse, Fits, CrcMatches;
    LinkOutcome(v, s, p);
    ArrivesByLength(v, p);
    ParseHeader(v, p.id);
    LastIs(s.fifo, Packet(Parse(v, Header(v, p.id)), p.data), p);
  }

  /**
   Of everything a buffer can hold, exactly this much gets through unchanged: payloads that
   leave five bytes free, with an id the header can carry.
   */
  lemma LinkDeliversExactly(v: Version, s: Link, p: Packet)
    requires Ready(s) && (s.held.Some? || s.free > 0) && |s.fifo| < CSP_QFIFO_LEN && |p.data| <= CSP_BUFFER_SIZE
    ensures Run(v, s, Line(v, p)).fifo == s.fifo + [p] <==> |p.data| + 5 <= CSP_BUFFER_SIZE && Fits(v, p.id)
  {
    hide Run, Line, Arrives, Header, Parse, Fits, CrcMatches;
    if |p.data| + 5 <= CSP_BUFFER_SIZE {
      LinkRoundTrip(v, s, p);
    } else {
      LinkOutcome(v, s, p);
      ArrivesByLength(v, p);
      if Arrives(v, p) == [] {
        assert |s.fifo + []| != |s.fifo + [p]|;
      } else {
        LastIs(s.fifo, Arrives(v, p)[0], p);
      }
    }
  }

  /** A payload too long for a checksum of the link, but ending in its own, arrives as another packet: without it. */
  lemma LongPayloadArrivesShort(v: Version, s: Link, id: Id, q: seq<byte>)
    requires Ready(s) && (s.held.Some? || s.free > 0) && |s.fifo| < CSP_QFIFO_LEN
    requires CSP_BUFFER_SIZE <= |q| + 7 && |q| + 5 <= CSP_BUFFER_SIZE
    ensures Run(v, s, Line(v, Packet(id, WithCrc(q)))).fifo == s.fifo + [Packet(Parse(v, Header(v, id)), q)]
  {
    hide Run, Line, Arrives, Header, Parse, CrcMatches, WithCrc;
    var p := Packet(id, WithCrc(q));
    LinkOutcome(v, s, p);
    ArrivesByLength(v, p);
    WithCrcMatches(v, Parse(v, Header(v, id)), q);
  }

  lemma FrameLength(v: Version, p: Packet)
    ensures |FrameBytes(v, p)| == HeaderSize(v) + |p.data| + if |p.data| + 4 <= CSP_BUFFER_SIZE then 4 else 0
  {}

  lemma LastIs<T>(s: seq<T>, x: T, y: T)
    ensures s + [x] == s + [y] <==> x == y
  {
    assert (s + [x])[|s|] == x && (s + [y])[|s|] == y;
  }

  /**
   The overflow test runs before the closing frame end is looked at, so a payload that just
   fits with its checksum, or just fits without one, fills the buffer and is lost.
   */
  lemma FullBufferIsLost(v: Version, s: Link, p: Packet)
    requires Ready(s) && (s.held.Some? || s.free > 0)
    requires |p.data| + 4 == CSP_BUFFER_SIZE || |p.data| == CSP_BUFFER_SIZE
    ensures var t := Run(v, s, Line(v, p));
            Ready(t) && t.fifo == s.fifo && t.stats.rxError > s.stats.rxError
  {
    hide Run, Line, Arrives, CrcMatches, Header, Parse;
    LinkOutcome(v, s, p);
    ArrivesByLength(v, p);
    FrameLength(v, p);
    assert s.fifo + [] == s.fifo;
  }

  // ----- self-stabilisation -----

  /** How far into a frame the receiver is: stored bytes, plus one once the first byte was skipped. */
  function Progress(s: Link): nat
    requires s.held.Some?
  {
    |s.held.value| + if s.first then 0 else 1
  }

  /** In a frame with at least `m` bytes behind it, or outside any frame. */
  predicate Going(s: Link, m: nat) {
    s.mode.NotStarted? || (s.mode.Started? && s.held.Some? && Progress(s) >= m)
  }

  lemma GoingByte(v: Version, s: Link, b: byte, m: nat)
    requires Going(s, m)
    ensures var t := Run(v, s, StuffByte(b));
            Going(t, m + 1) && t.fifo == s.fifo && t.free == s.free && (s.mode.NotStarted? ==> t.mode.NotStarted?)
  {
    hide Run;
    if b == FEND {
      RunTwo(v, s, FESC, TFEND);
    } else if b == FESC {
      RunTwo(v, s, FESC, TFESC);
    } else {
      RunOne(v, s, b);
    }
  }

  lemma {:induction false} GoingOn(v: Version, s: Link, bytes: seq<byte>, m: nat)
    requires Going(s, m)
    ensures var t := Run(v, s, Stuff(bytes));
            Going(t, m + |bytes|) && t.fifo == s.fifo && t.free == s.free && (s.mode.NotStarted? ==> t.mode.NotStarted?)
    decreases |bytes|
  {
    hide Run, StuffByte, Going;
    assert s.Valid() by { GoingValid(s, m); }
    if bytes == [] {
      RunNone(v, s);
    } else {
      GoingByte(v, s, bytes[0], m);
      RunSplit(v, s, StuffByte(bytes[0]), Stuff(bytes[1..]));
      GoingOn(v, Run(v, s, StuffByte(bytes[0])), bytes[1..], m + 1);
    }
  }

  lemma GoingValid(s: Link, m: nat)
    requires Going(s, m)
    ensures s.Valid()
  {}

  /** The opening frame end, met in any state whatever: it may end an older frame. */
  lemma AnyFrameEnd(v: Version, s: Link)
    requires s.Valid() && s.free > 0
    ensures var t := Step(v, s, FEND);
            && Going(t, 0) && s.fifo <= t.fifo
            && (t.fifo == s.fifo || (t.mode.NotStarted? && |t.fifo| == |s.fifo| + 1))
            && t.free >= s.free - 1
  {
    hide Decode;
  }

  lemma ClosingFrameEnd(v: Version, s: Link)
    requires Going(s, 2) && (s.held.Some? || s.free > 0)
    ensures var t := Step(v, s, FEND);
            && Ready(t) && s.fifo <= t.fifo
            && |t.fifo| <= |s.fifo| + (if s.mode.NotStarted? then 0 else 1)
  {
    hide Decode;
  }

  /** After any one frame of any content, whatever the receiver was doing before, it is in step with the line. */
  lemma InStepAfterOneFrame(v: Version, s: Link, p: Packet)
    requires s.Valid() && s.free >= 2
    ensures var t := Run(v, s, Line(v, p));
            Ready(t) && s.fifo <= t.fifo && |t.fifo| <= |s.fifo| + 1 && (t.held.Some? || t.free > 0)
  {
    hide Run, Step, Stuff, FrameBytes;
    var f := FrameBytes(v, p);
    AnyFrameEnd(v, s);
    var s1 := Step(v, s, FEND);
    GoingByte(v, s1, TNC_DATA, 0);
    var s2 := Run(v, s1, [TNC_DATA]);
    GoingOn(v, s2, f, 1);
    var s3 := Run(v, s2, Stuff(f));
    ClosingFrameEnd(v, s3);
    RunOne(v, s, FEND);
    RunOne(v, s3, FEND);
    assert [FEND] + [TNC_DATA] == [FEND, TNC_DATA] && StuffByte(TNC_DATA) == [TNC_DATA];
    RunSplit(v, s, [FEND], [TNC_DATA]);
    RunSplit(v, s, [FEND, TNC_DATA], Stuff(f));
    RunSplit(v, s, [FEND, TNC_DATA] + Stuff(f), [FEND]);
    RunConservesBuffers(v, s, Line(v, p));
  }

  /**
   Self-stabilisation: whatever state the receiver is in (mid-frame, escaped, overfull,
   skipping), of any two consecutive frames the second is delivered exactly.
   */
  lemma SelfStabilises(v: Version, s: Link, p: Packet, q: Packet)
    requires s.Valid() && s.free >= 2 && |s.fifo| + 2 <= CSP_QFIFO_LEN
    requires |q.data| + 5 <= CSP_BUFFER_SIZE && Fits(v, q.id)
    ensures var t := Run(v, s, Line(v, p));
            var u := Run(v, s, Line(v, p) + Line(v, q));
            && s.fifo <= t.fifo && |t.fifo| <= |s.fifo| + 1
            && u.fifo == t.fifo + [q] && u.mode.NotStarted? && u.held.None?
  {
    hide Run, Line, Ready, Fits;
    InStepAfterOneFrame(v, s, p);
    RunSplit(v, s, Line(v, p), Line(v, q));
    LinkRoundTrip(v, Run(v, s, Line(v, p)), q);
  }

  // ----- the interface, in place -----

  /** `csp_kiss_tx`: returns the bytes handed to `tx_func`, in order. */
  method Transmit(v: Version, packet: PacketBuffer) returns (sent: seq<byte>)
    requires packet.Valid()
    modifies packet, packet.mem
    ensures sent == Line(v, old(packet.Contents()))
  {
    hide Header, WithCrc, Stuff;
    ghost var p := packet.Contents();
    var appended := packet.CrcAppend();
    packet.Prepend(v);
    assert packet.Frame() == FrameBytes(v, p);
    var stuffed := TransmitFrame(packet);
    sent := [FEND, TNC_DATA] + stuffed + [FEND];
  }

  /** The escaping loop of `csp_kiss_tx`. */
  method TransmitFrame(packet: PacketBuffer) returns (sent: seq<byte>)
    requires packet.Valid()
    ensures sent == Stuff(packet.Frame())
  {
    hide Stuff;
    ghost var f := packet.Frame();
    sent := [];
    var i := 0;
    StuffNone(f);
    while i < packet.frameLength
      invariant 0 <= i <= packet.frameLength
      invariant sent == Stuff(f[..i])
    {
      var b := packet.mem[packet.frameBegin + i];
      StuffSnoc(f, i);
      if b == FEND {
        sent := sent + [FESC, TFEND];
      } else if b == FESC {
        sent := sent + [FESC, TFESC];
      } else {
        sent := sent + [b];
      }
      i := i + 1;
    }
    assert f[..i] == f;
  }

  lemma StuffNone(f: seq<byte>)
    ensures Stuff(f[..0]) == []
  {}

  lemma {:induction false} StuffSplit(x: seq<byte>, y: seq<byte>)
    ensures Stuff(x + y) == Stuff(x) + Stuff(y)
  {
    hide StuffByte;
    if x == [] {
      assert x + y == y;
    } else {
      assert (x + y)[1..] == x[1..] + y;
      StuffSplit(x[1..], y);
    }
  }

  lemma StuffSnoc(f: seq<byte>, i: nat)
    requires i < |f|
    ensures Stuff(f[..i + 1]) == Stuff(f[..i]) + StuffByte(f[i])
  {
    assert f[..i + 1] == f[..i] + [f[i]];
    StuffSplit(f[..i], [f[i]]);
  }

  /** What a frame end does to the packet holding the frame `f`: strip the header, then verify the checksum. */
  method Unpack(v: Version, packet: PacketBuffer, ghost f: seq<byte>) returns (ok: bool)
    requires packet.Valid() && packet.frameBegin == DATA - HeaderSize(v)
    requires packet.Frame() == f
    modifies packet, packet.mem
    ensures packet.Valid() && packet.frameBegin == DATA - HeaderSize(v)
    ensures ok == Decode(v, f).Some?
    ensures ok ==> packet.Contents() == Decode(v, f).value
    ensures !ok ==> packet.mem[packet.frameBegin..packet.frameBegin + |f|] == f
  {
    hide Header, Parse, CrcMatches;
    var stripped := packet.Strip(v);
    if !stripped {
      return false;
    }
    ok := packet.CrcVerify(v);
    if !ok {
      HeaderParse(v, f[..HeaderSize(v)]);
      SliceSplit(packet.mem[..], packet.frameBegin, DATA, packet.frameBegin + |f|);
      assert f == f[..HeaderSize(v)] + f[HeaderSize(v)..];
    }
  }

  /** `csp_kiss_interface_data_t`, with the pool and the router queue it works against. */
  class KissInterface {
    const version: Version
    var rxMode: Mode
    var rxLength: nat
    var rxFirst: bool
    var rxPacket: PacketBuffer?
    var free: nat
    var fifo: seq<Packet>
    var stats: Stats

    ghost predicate Valid()
      reads this, rxPacket
    {
      && (rxMode.Started? || rxMode.Escaped? ==> rxPacket != null)
      && (rxPacket != null ==>
            && rxPacket.Valid()
            && rxPacket.frameBegin == DATA - HeaderSize(version)
            && rxLength <= Limit(version))
    }

    ghost function Held(): Option<seq<byte>>
      requires Valid()
      reads this, rxPacket, if rxPacket == null then {} else {rxPacket.mem}
    {
      if rxPacket == null then None
      else Some(rxPacket.mem[rxPacket.frameBegin..rxPacket.frameBegin + rxLength])
    }

    ghost function State(): (s: Link)
      requires Valid()
      reads this, rxPacket, if rxPacket == null then {} else {rxPacket.mem}
      ensures s.Valid()
    {
      Link(rxMode, rxFirst, Held(), free, fifo, stats)
    }

    /** `csp_kiss_add_interface`. */
    constructor (v: Version, buffers: nat)
      ensures Valid() && version == v && rxPacket == null
      ensures State() == Link(NotStarted, false, None, buffers, [], Stats(0, 0, 0, 0))
    {
      version := v;
      rxMode, rxLength, rxFirst, rxPacket := NotStarted, 0, false, null;
      free, fifo, stats := buffers, [], Stats(0, 0, 0, 0);
    }

    /** The packet buffer is the old one, none, or one fresh from the pool. */
    twostate predicate SameOrFreshPacket()
      reads this
    {
      rxPacket == old(rxPacket) || rxPacket == null || (fresh(rxPacket) && fresh(rxPacket.mem))
    }

    /** `csp_qfifo_write` of a received packet, called from a task. */
    method Enqueue(p: Packet)
      modifies this`free, this`fifo, this`stats
      ensures free == old(free) + (if old(|fifo|) < CSP_QFIFO_LEN then 0 else 1)
      ensures fifo == if old(|fifo|) < CSP_QFIFO_LEN then old(fifo) + [p] else old(fifo)
      ensures stats == if old(|fifo|) < CSP_QFIFO_LEN then old(stats)
                       else old(stats).(txError := old(stats).txError + 1)
    {
      if |fifo| < CSP_QFIFO_LEN {
        fifo := fifo + [p];
      } else {
        stats := stats.(txError := stats.txError + 1);
        free := free + 1;
      }
    }

    /** `frame_begin[rx_length++] = b`: the store stays inside the packet buffer. */
    method StoreByte(b: byte)
      requires Valid() && rxPacket != null && rxLength < Limit(version)
      modifies this`rxLength, rxPacket.mem
      ensures Valid() && State() == Store(old(State()), b)
    {
      rxPacket.mem[rxPacket.frameBegin + rxLength] := b;
      rxLength := rxLength + 1;
      assert Held().value == old(Held().value) + [b];
    }

    /** The overflow test in front of every byte. */
    method TruncateLong()
      requires Valid()
      modifies this`rxMode, this`rxLength, this`stats
      ensures Valid() && State() == Truncate(version, old(State()))
      ensures rxPacket != null ==> rxLength < Limit(version)
    {
      if rxPacket != null && rxLength >= Limit(version) {
        stats := stats.(rxError := stats.rxError + 1);
        rxMode := NotStarted;
        rxLength := 0;
        assert Held().value == [];
      }
    }

    /** A frame end outside a frame: keep or allocate a buffer, or skip the frame. */
    method BeginFrame()
      requires Valid() && rxMode.NotStarted?
      modifies this, rxPacket
      ensures Valid() && State() == StartFrame(old(State())) && SameOrFreshPacket()
    {
      if rxPacket == null && free > 0 {
        free := free - 1;
        rxPacket := new PacketBuffer();
      }
      if rxPacket == null {
        rxMode := SkipFrame;
        stats := stats.(drop := stats.drop + 1);
        return;
      }
      var size := rxPacket.SetupRx(version);
      rxLength := 0;
      rxMode := Started;
      rxFirst := true;
      assert Held().value == [];
    }

    /** The first frame end after some data: strip, verify, hand over. */
    method AcceptFrame()
      requires Valid() && rxPacket != null && rxMode.Started?
      modifies this, rxPacket, rxPacket.mem
      ensures Valid() && State() == EndFrame(version, old(State())) && SameOrFreshPacket()
    {
      hide Decode;
      ghost var f := Held().value;
      rxPacket.frameLength := rxLength;
      var ok := Unpack(version, rxPacket, f);
      rxMode := NotStarted;
      if ok {
        var p := Packet(rxPacket.id, rxPacket.mem[DATA..DATA + rxPacket.length]);
        assert p == Decode(version, f).value;
        Enqueue(p);
        rxPacket := null;
      } else {
        assert Held() == Some(f);
        stats := stats.(frame := stats.frame + 1);
      }
    }

    /** One turn of the loop of `csp_kiss_rx`. */
    method RxByte(b: byte)
      requires Valid()
      modifies this, rxPacket, if rxPacket == null then {} else {rxPacket.mem}
      ensures Valid() && State() == Step(version, old(State()), b) && SameOrFreshPacket()
    {
      hide EndFrame, StartFrame, Truncate, Store;
      TruncateLong();
      match rxMode
      case NotStarted =>
        if b == FEND {
          BeginFrame();
        }
      case Started =>
        if b == FESC {
          rxMode := Escaped;
        } else if b == FEND {
          if rxLength > 0 {
            AcceptFrame();
          }
        } else if rxFirst {
          rxFirst := false;
        } else {
          StoreByte(b);
        }
      case Escaped =>
        if b == TFESC {
          StoreByte(FESC);
        }
        if b == TFEND {
          StoreByte(FEND);
        }
        rxMode := Started;
      case SkipFrame =>
        if b == FEND {
          rxMode := NotStarted;
        }
    }

    /** `csp_kiss_rx`: a chunk of input of any length. */
    method Rx(buf: seq<byte>)
      requires Valid()
      modifies this, rxPacket, if rxPacket == null then {} else {rxPacket.mem}
      ensures Valid() && State() == Run(version, old(State()), buf)
    {
      hide Step, Run;
      var i := 0;
      RunNone(version, State());
      assert buf[..0] == [];
      while i < |buf|
        invariant 0 <= i <= |buf|
        invariant Valid() && State() == Run(version, old(State()), buf[..i])
        invariant SameOrFreshPacket()
      {
        RunSnoc(version, old(State()), buf, i);
        RxByte(buf[i]);
        i := i + 1;
      }
      assert buf[..i] == buf;
    }
  }

  lemma RunSnoc(v: Version, s: Link, bytes: seq<byte>, i: nat)
    requires s.Valid() && i < |bytes|
    ensures Run(v, s, bytes[..i + 1]) == Step(v, Run(v, s, bytes[..i]), bytes[i])
  {
    hide Run, Step;
    assert bytes[..i + 1] == bytes[..i] + [bytes[i]];
    RunSplit(v, s, bytes[..i], [bytes[i]]);
    RunOne(v, Run(v, s, bytes[..i]), bytes[i]);
  }

  // ----- what is on the line, byte by byte -----

  /** Between the frame ends there is no frame end. */
  lemma {:induction false} NoEndInside(bytes: seq<byte>)
    ensures 0xC0 !in Stuff(bytes)
  {
    if bytes != [] {
      NoEndInside(bytes[1..]);
    }
  }

  lemma KnownSteps()
    ensures ByteStep(0xFFFF_FFFF, 0xC0) == 0x6E0F_8A6A && ByteStep(0x6E0F_8A6A, 0xDB) == 0x4010_FE40
  {}

  lemma KnownChecksum()
    ensures Crc32c([0xC0, 0xDB]) == 0xBFEF_01BF
  {
    hide ByteStep, Divide, Bits;
    KnownSteps();
    OneStep(CRC_INIT, 0xC0);
    OneStep(0x6E0F_8A6A, 0xDB);
    var first, second: seq<byte> := [0xC0], [0xDB];
    UpdateSplit(CRC_INIT, first, second);
    assert first + second == [0xC0, 0xDB];
  }

  lemma KnownHeader()
    ensures Header(V2, Id(2, 1, 1, 2, 10, 32)) == [0x80, 0x02, 0x00, 0x04, 0xA8, 0x01]
  {
    hide Pack2, Be64Head, Up16;
    Bytes2(Id(2, 1, 1, 2, 10, 32));
  }

  lemma StuffCons(b: byte, rest: seq<byte>)
    ensures Stuff([b] + rest) == StuffByte(b) + Stuff(rest)
  {}

  lemma {:induction false} NothingToStuff(bytes: seq<byte>)
    requires FEND !in bytes && FESC !in bytes
    ensures Stuff(bytes) == bytes
  {
    if bytes != [] {
      NothingToStuff(bytes[1..]);
      assert bytes == [bytes[0]] + bytes[1..];
    }
  }

  /** A packet as it is on the line: from node 1 to node 2, with the two bytes that have to be stuffed as its data. */
  lemma KnownLine()
    ensures Line(V2, Packet(Id(2, 1, 1, 2, 10, 32), [0xC0, 0xDB]))
         == [0xC0, 0x00, 0x80, 0x02, 0x00, 0x04, 0xA8, 0x01, 0xDB, 0xDC, 0xDB, 0xDD, 0xBF, 0xEF, 0x01, 0xBF, 0xC0]
  {
    hide Header, Crc32c, Stuff;
    var head, tail: seq<byte> := [0x80, 0x02, 0x00, 0x04, 0xA8, 0x01], [0xBF, 0xEF, 0x01, 0xBF];
    KnownHeader();
    KnownChecksum();
    assert Be32(0xBFEF_01BF) == tail;
    StuffSplit(head, [0xC0] + ([0xDB] + tail));
    NothingToStuff(head);
    StuffCons(0xC0, [0xDB] + tail);
    StuffCons(0xDB, tail);
    NothingToStuff(tail);
    assert FrameBytes(V2, Packet(Id(2, 1, 1, 2, 10, 32), [0xC0, 0xDB])) == head + ([0xC0] + ([0xDB] + tail));
  }
}
