/**
 Runs of a node, on values: what a state is, what each step does to it, what a run is, and
 what is true of every run. The steps themselves are the methods of `Node`.
 */
module Runs {
  import opened Words
  import opened CspId
  import opened Packet
  import opened Crc32
  import opened BufferPool
  import opened Port
  import opened Conn
  import opened IfList
  import opened Dedup
  import opened Forward
  import opened Outgoing
  import opened Kiss
  import opened Router

  // ----- states -----

  /**
   A node between two steps: buffers by what they say, of which `free` are free; what the ports are
   bound to; what was seen; whether anybody ever asked for a second reference to a buffer.
   */
  datatype Snapshot = Snapshot(world: World, qfifo: seq<Input>, packets: seq<Packet>, free: nat,
                               bindings: Bindings, history: History, shared: bool) {
    /** Every reference to a buffer outside the pool. */
    ghost function Held(): multiset<nat> {
      Total(FifoHeld(qfifo), RxHeld(world.conns), Queued(world.sockets, true), world.app, world.drivers)
    }

    function Line(lo: nat): Wire {
      Wire(lo, qfifo, world.drivers, world.sent)
    }

    /** What the packet in buffer `b` meets here. */
    function Facing(v: Version, b: nat): Delivery
      requires b < |packets|
    {
      var p := packets[b];
      Delivery(v, p, world.conns, world.sockets, bindings.Callback(p.id.dport), bindings.Socket(p.id.dport))
    }

    /**
     What is so between any two steps: every buffer is free or held, and in one place only unless
     somebody asked for a second reference; connections cannot be confused; an open one has one
     owner and waits for no socket, a closed one is empty.
     */
    ghost predicate Accounted() {
      && free + |Busy(Held())| == |packets| && (!shared ==> HeldOnce(Held()))
      && (forall b :: b in Held() ==> b < |packets|)
      && Separated(world.conns) && Quiet(world.conns)
      && OneOwnerEach(world.conns, Queued(world.sockets, false) + world.handles)
    }
  }

  /** What a node is set up with. */
  datatype Setting = Setting(net: Net, mode: DedupMode, defaultOpts: bv32)

  // ----- what stays as it is -----

  /** Nothing changes but buffers and who holds them. */
  predicate OnlyBuffers(x: Snapshot, y: Snapshot) {
    y.bindings == x.bindings && y.history == x.history && y.shared == x.shared
  }

  /** Nothing changes but who holds what; a buffer may become free. */
  predicate OnlyHolders(x: Snapshot, y: Snapshot) {
    OnlyBuffers(x, y) && y.qfifo == x.qfifo && y.packets == x.packets
  }

  /** Nothing changes but `world`. */
  predicate OnlyWorld(x: Snapshot, y: Snapshot) {
    OnlyHolders(x, y) && y.free == x.free
  }

  // ----- what the router does with a packet -----

  /** The address is that of an interface, or a broadcast where the packet came in. */
  predicate ToMe(net: Net, dst: bv16, k: nat)
    requires net.Valid() && k < |net.ifaces|
  {
    IsMine(net.ifaces, dst) || net.Broadcast(k, dst)
  }

  /**
   A packet is for this node exactly if its destination is the address of an interface, or the highest
   address of the subnet it came in by, or the highest of all.
   */
  lemma ToMeExactly(net: Net, dst: bv16, k: nat)
    requires net.Valid() && AddressesFit(net) && k < |net.ifaces| && IsNode(net.v, dst)
    ensures ToMe(net, dst, k) <==>
            || (exists i :: 0 <= i < |net.ifaces| && net.ifaces[i].addr == dst)
            || dst == Highest(net.v, net.ifaces[k]) || dst == MaxNodeId(net.v)
  {
    hide IsBroadcast, Highest, IsNode, MaxNodeId, HostBits;
    BroadcastIsHighest(net.v, dst, net.ifaces[k]);
  }

  /** What `csp_dedup_is_duplicate` remembers a packet by. */
  function Footprint(v: Version, p: Packet): bv32 {
    Crc32c(Header(v, p.id) + p.data)
  }

  /** Packets of equal length that differ only inside four consecutive bytes of header and data are told apart. */
  lemma FootprintsDiffer(v: Version, p: Packet, q: Packet, i: nat, j: nat)
    requires |p.data| == |q.data| && i <= j <= i + 4 && j <= HeaderSize(v) + |p.data|
    requires var f, g := Header(v, p.id) + p.data, Header(v, q.id) + q.data;
             |f| == |g| && f != g && f[..i] == g[..i] && f[j..] == g[j..]
    ensures Footprint(v, p) != Footprint(v, q)
  {
    hide Header, Crc32c;
    DetectsByteBurst(Header(v, p.id) + p.data, Header(v, q.id) + q.data, i, j);
  }

  /** Ids that agree in priority and destination, or in the ports and the flags. */
  predicate HalfSame(a: Id, b: Id) {
    || (a.pri == b.pri && a.dst == b.dst)
    || (a.dport == b.dport && a.sport == b.sport && a.flags == b.flags)
  }

  lemma HeadersApart(v: Version, a: Id, b: Id)
    requires Fits(v, a) && Fits(v, b) && a != b
    ensures Header(v, a) != Header(v, b)
  {
    hide Header, Parse, Fits;
    ParseHeader(v, a);
    ParseHeader(v, b);
  }

  lemma HalfOfHeader(a: Id, b: Id)
    requires Fits(V2, a) && Fits(V2, b)
    ensures a.pri == b.pri && a.dst == b.dst ==> Header(V2, a)[..2] == Header(V2, b)[..2]
    ensures a.dport == b.dport && a.sport == b.sport && a.flags == b.flags ==> Header(V2, a)[4..] == Header(V2, b)[4..]
  {
    hide Header, Front2, Back2;
    Ends2(a);
    Ends2(b);
  }

  /**
   The same data under different ids: told apart in version 1, and in version 2 if the ids differ in
   one half only, as those of two senders, or of two receivers, do.
   */
  lemma IdsToldApart(v: Version, a: Id, b: Id, data: seq<byte>)
    requires Fits(v, a) && Fits(v, b) && a != b && (v.V2? ==> HalfSame(a, b))
    ensures Footprint(v, Packet(a, data)) != Footprint(v, Packet(b, data))
  {
    hide Header, Footprint, Fits;
    HeadersApart(v, a, b);
    var h, g := Header(v, a), Header(v, b);
    assert (h + data)[..|h|] == h && (g + data)[..|h|] == g;
    if v.V1? {
      assert (h + data)[4..] == data && (g + data)[4..] == data;
      FootprintsDiffer(v, Packet(a, data), Packet(b, data), 0, 4);
    } else {
      HalfOfHeader(a, b);
      if a.pri == b.pri && a.dst == b.dst {
        assert (h + data)[..2] == h[..2] && (g + data)[..2] == g[..2];
        assert (h + data)[6..] == data && (g + data)[6..] == data;
        FootprintsDiffer(v, Packet(a, data), Packet(b, data), 2, 6);
      } else {
        assert (h + data)[4..] == h[4..] + data && (g + data)[4..] == g[4..] + data;
        FootprintsDiffer(v, Packet(a, data), Packet(b, data), 0, 4);
      }
    }
  }

  /** And so the one is not dropped for the other: if it is dropped at all, then for an earlier entry. */
  lemma NotForTheOther(v: Version, a: Id, b: Id, data: seq<byte>, h: History, time: Millis, now: Millis)
    requires Fits(v, a) && Fits(v, b) && a != b && (v.V2? ==> HalfSame(a, b))
    requires Duplicate(Record(h, Footprint(v, Packet(a, data)), time), Footprint(v, Packet(b, data)), now)
    ensures exists c :: 0 <= c < 14 && Newest(h, c).crc == Footprint(v, Packet(b, data))
  {
    hide Footprint, Fits;
    IdsToldApart(v, a, b, data);
    var mine := Footprint(v, Packet(a, data));
    var c: nat :| HitAt(Record(h, mine, time), Footprint(v, Packet(b, data)), now, c);
    NewestFirst(h, mine, time, c);
    assert c > 0 && Newest(h, c - 1).crc == Footprint(v, Packet(b, data));
  }

  /** The buffer says what was delivered; nobody else's says anything new. */
  predicate Said(verdict: Verdict, b: nat, d: Delivery, before: seq<Packet>, after: seq<Packet>) {
    && b < |before| == |after| && after == before[b := after[b]]
    && (verdict.Dropped? || after[b] == d.Payload())
  }

  /** The verdict is one the rules allow, and the packet is where the verdict says. */
  ghost predicate Delivered(v: Version, verdict: Verdict, b: nat, x: Snapshot, y: Snapshot)
    requires b < |x.packets|
  {
    var d := x.Facing(v, b);
    && d.Valid() && d.Allows(verdict)
    && Carried(verdict, b, x.packets[b].id, x.world, y.world)
    && Said(verdict, b, d, x.packets, y.packets)
  }

  /**
   The packet in `b` was sent under `idout`: where the forwarding rule says, each copy as it should
   be. The buffers that others have, `others`, say what they said, and nothing is taken from them.
   */
  ghost predicate SentOut(net: Net, idout: Id, from: Option<nat>, b: nat, others: multiset<nat>,
                          x: Snapshot, y: Snapshot, hops: seq<Hop>, fates: seq<Fate>)
    requires net.Valid() && (from.Some? ==> from.value < |net.ifaces|) && b < |x.packets|
  {
    && hops == Directions(net, idout, from)
    && Fared(fates, hops, x.packets[b].data, from.None?)
    && (x.free > |hops| ==> NoneMissed(fates))
    && Out(x.Line(net.lo), y.Line(net.lo), hops, fates, y.Held(), y.packets)
    && b < |y.packets| && Untouched(x.packets[b := y.packets[b]], y.packets, others) && others <= y.Held()
  }

  /** Sent on as it is. */
  ghost predicate Relayed(net: Net, verdict: Verdict, b: nat, k: nat, x: Snapshot, y: Snapshot)
    requires net.Valid() && k < |net.ifaces| && b < |x.packets|
  {
    && verdict.Forwarded? && Carried(verdict, b, x.packets[b].id, x.world, y.world)
    && SentOut(net, x.packets[b].id, Some(k), b, x.Held(), x, y, verdict.hops, verdict.fates)
  }

  /** What becomes of the packet in `b` that came in at interface `k`, once it is known whether it is a duplicate. */
  ghost predicate Settled(c: Setting, dup: bool, verdict: Verdict, b: nat, k: nat, x: Snapshot, y: Snapshot)
    requires c.net.Valid() && k < |c.net.ifaces| && b < |x.packets|
  {
    var p := x.packets[b];
    var toMe := ToMe(c.net, p.id.dst, k);
    && (verdict.Forwarded? <==> !dup && !toMe) && !verdict.Idle?
    && y.bindings == x.bindings && y.shared == x.shared
    && if dup || (toMe && !Supported(p.id)) then
         verdict == Dropped && y.world == x.world && y.qfifo == x.qfifo && y.packets == x.packets
       else if toMe then Delivered(c.net.v, verdict, b, x, y) && y.qfifo == x.qfifo
       else Relayed(c.net, verdict, b, k, x, y)
  }

  /** The verdict about the packet in `b`, just taken off the queue, and all that follows from it. */
  ghost predicate Routed(c: Setting, verdict: Verdict, b: nat, k: nat, now: Millis, x: Snapshot, y: Snapshot)
    requires c.net.Valid() && k < |c.net.ifaces| && b < |x.packets|
  {
    var asked := Deduplicates(c.mode, ToMe(c.net, x.packets[b].id.dst, k));
    var crc := Footprint(c.net.v, x.packets[b]);
    var dup := asked && Duplicate(x.history, crc, now);
    && y.history == (if asked && !dup then Record(x.history, crc, now) else x.history)
    && Settled(c, dup, verdict, b, k, x, y)
  }

  /** What was seen before does not matter to a delivery. */
  lemma DeliveredAnyHistory(v: Version, verdict: Verdict, b: nat, x: Snapshot, y: Snapshot, h: History)
    requires b < |x.packets| && Delivered(v, verdict, b, x, y)
    ensures Delivered(v, verdict, b, x.(history := h), y)
  {
    hide Delivery.Valid, Delivery.Allows, Carried, Said;
  }

  lemma SettledAnyHistory(c: Setting, dup: bool, verdict: Verdict, b: nat, k: nat, x: Snapshot, y: Snapshot, h: History)
    requires c.net.Valid() && k < |c.net.ifaces| && b < |x.packets| && Settled(c, dup, verdict, b, k, x, y)
    ensures Settled(c, dup, verdict, b, k, x.(history := h), y)
  {
    hide Net.Valid, ToMe, SentOut, Delivered;
    var p := x.packets[b];
    if Delivered(c.net.v, verdict, b, x, y) {
      DeliveredAnyHistory(c.net.v, verdict, b, x, y, h);
    }
    if verdict.Forwarded? {
      SameSentOut(c.net, p.id, Some(k), b, x.Held(), verdict.hops, verdict.fates, x, y, x.(history := h), y);
    }
  }

  /** What a sending depends on, and what it says about the state afterwards. */
  lemma SameSentOut(net: Net, idout: Id, from: Option<nat>, b: nat, others: multiset<nat>,
                    hops: seq<Hop>, fates: seq<Fate>, x: Snapshot, y: Snapshot, x': Snapshot, y': Snapshot)
    requires net.Valid() && (from.Some? ==> from.value < |net.ifaces|) && b < |x.packets| == |x'.packets|
    requires SentOut(net, idout, from, b, others, x, y, hops, fates)
    requires x.packets[b].data == x'.packets[b].data && x.packets == x'.packets[b := x.packets[b]]
    requires x.free == x'.free && x.Line(net.lo) == x'.Line(net.lo)
    requires y.Line(net.lo) == y'.Line(net.lo) && y.Held() == y'.Held() && y.packets == y'.packets
    ensures SentOut(net, idout, from, b, others, x', y', hops, fates)
  {
    hide Net.Valid, Directions, Fared, NoneMissed, Out, Snapshot.Held, Snapshot.Line, Untouched;
    assert x.packets[b := y.packets[b]] == x'.packets[b := y.packets[b]];
  }

  // ----- steps -----

  /** What can be asked of a node, by the router task, the application and the drivers. */
  datatype Op =
    | RouteWork(now: Millis)
    | TakeBuffer(always: bool) | FreeBuffer(b: nat) | Retain(b: nat) | Fill(b: nat, p: Packet)
    | Connect(prio: bv8, dest: bv16, dport: bv8, opts: bv32) | CloseConn(i: nat) | Read(i: nat)
    | Accept(s: nat) | ReceiveFrom(s: nat)
    | Send(i: nat, b: nat) | SendTo(prio: bv8, dest: bv16, dport: bv8, sport: bv8, opts: bv32, b: nat)
    | DriverTake(always: bool) | DriverDeliver(b: nat, p: Packet, k: nat) | DriverRelease(b: nat)
    | BindSocket(s: nat, port: bv8) | BindCallback(c: nat, port: bv8) | WakeUp

  /**
   What came of it: the router's verdict, a value handed to the application, a connection begun or
   ended, a packet sent.
   */
  datatype Event =
    | Decided(verdict: Verdict, packet: nat)
    | Took(socket: nat, item: nat)
    | ReadOut(conn: nat, packet: nat)
    | Begun(conn: nat)
    | Ended(conn: nat)
    | Went(hops: seq<Hop>, fates: seq<Fate>)
    | Other

  ghost predicate RouterStep(c: Setting, now: Millis, e: Event, x: Snapshot, y: Snapshot)
    requires c.net.Valid()
  {
    if x.qfifo == [] || x.qfifo[0].packet.None? then
      && e == Other && y.world == x.world
      && OnlyWorld(x.(qfifo := if x.qfifo == [] then [] else x.qfifo[1..]), y)
    else
      var b, k := x.qfifo[0].packet.value, x.qfifo[0].iface;
      && e.Decided? && e.packet == b && b < |x.packets| && k < |c.net.ifaces|
      && Routed(c, e.verdict, b, k, now, x.(qfifo := x.qfifo[1..]), y)
  }

  ghost predicate ConnectStep(prio: bv8, dest: bv16, dport: bv8, o: Option<(bv32, bv8)>, e: Event, x: World, y: World) {
    var r := if e.Begun? then Some(e.conn) else None;
    && (e.Begun? || e == Other)
    && Dialled(x.conns, y.conns, r, prio, dest, dport, o)
    && y == x.(conns := y.conns, handles := x.handles + Of(r))
  }

  predicate CloseStep(i: nat, e: Event, x: World, y: World) {
    if i in x.handles then
      && e == Ended(i) && i < |x.conns| && x.conns[i].open
      && y == x.(conns := x.conns[i := x.conns[i].(rx := [], open := false)], handles := x.handles - multiset{i})
    else e == Other && y == x
  }

  predicate ReadStep(i: nat, e: Event, x: World, y: World) {
    if i < |x.conns| && x.conns[i].open && x.conns[i].rx != [] then
      var rx := x.conns[i].rx;
      && e == ReadOut(i, rx[0])
      && y == x.(conns := x.conns[i := x.conns[i].(rx := rx[1..])], app := x.app + multiset{rx[0]})
    else e == Other && y == x
  }

  predicate AcceptStep(s: nat, e: Event, x: World, y: World) {
    if s < |x.sockets| && !x.sockets[s].ConnLess() && x.sockets[s].queue != [] then
      var i := x.sockets[s].queue[0];
      && e == Took(s, i)
      && y == x.(sockets := Taken(x.sockets, s), handles := x.handles + multiset{i})
    else e == Other && y == x
  }

  predicate ReceiveStep(s: nat, e: Event, x: World, y: World) {
    if s < |x.sockets| && x.sockets[s].ConnLess() && x.sockets[s].queue != [] then
      var b := x.sockets[s].queue[0];
      && e == Took(s, b)
      && y == x.(sockets := Taken(x.sockets, s), app := x.app + multiset{b})
    else e == Other && y == x
  }

  /**
   Sending on a connection: if it is open, by the forwarding rule, and the connection keeps the
   source; else the packet is gone.
   */
  ghost predicate SendStep(c: Setting, i: nat, b: nat, e: Event, x: Snapshot, y: Snapshot)
    requires c.net.Valid()
  {
    var w := x.world;
    if b !in w.app || i >= |w.conns| then e == Other && y.world == w && OnlyWorld(x, y)
    else if !w.conns[i].open then e == Other && y.world == w.(app := w.app - multiset{b}) && OnlyHolders(x, y)
    else
      var idout := w.conns[i].idout;
      && e.Went? && b < |x.packets| && OnlyBuffers(x, y)
      && SentOut(c.net, idout, None, b, x.Held() - multiset{b}, x, y, e.hops, e.fates)
      && y.world == w.(conns := w.conns[i := w.conns[i].(idout := IdAfter(c.net, idout, None))],
                       app := w.app - multiset{b}, drivers := y.world.drivers, sent := y.world.sent)
  }

  ghost predicate SendToStep(c: Setting, id: Option<Id>, b: nat, e: Event, x: Snapshot, y: Snapshot)
    requires c.net.Valid()
  {
    var w := x.world;
    if b !in w.app then e == Other && y.world == w && OnlyWorld(x, y)
    else if id.None? then e == Other && y.world == w.(app := w.app - multiset{b}) && OnlyHolders(x, y)
    else
      && e.Went? && b < |x.packets| && OnlyBuffers(x, y)
      && SentOut(c.net, id.value, None, b, x.Held() - multiset{b}, x, y, e.hops, e.fates)
      && y.world == w.(app := w.app - multiset{b}, drivers := y.world.drivers, sent := y.world.sent)
  }

  /** A buffer from the pool that nobody held, wiped clean, unless too few are free. */
  ghost predicate Gained(always: bool, r: Option<nat>, x: Snapshot, y: Snapshot) {
    && (r.None? <==> x.free < if always then 1 else 2)
    && (r.None? ==> y.packets == x.packets)
    && (r.Some? ==>
          r.value !in x.Held() && r.value < |x.packets| && y.packets == x.packets[r.value := Packet(NO_ID, [])])
    && OnlyBuffers(x, y) && y.qfifo == x.qfifo
  }

  function Lost(b: nat, x: multiset<nat>): multiset<nat> {
    x - multiset{b}
  }

  /** The steps of that kind. */
  predicate Holds(op: Op) {
    match op
    case TakeBuffer(_) => true
    case FreeBuffer(_) => true
    case Retain(_) => true
    case Fill(_, _) => true
    case DriverTake(_) => true
    case DriverDeliver(_, _, _) => true
    case DriverRelease(_) => true
    case BindSocket(_, _) => true
    case BindCallback(_, _) => true
    case WakeUp => true
    case _ => false
  }

  ghost predicate TakeStep(always: bool, x: Snapshot, y: Snapshot) {
    exists r :: Gained(always, r, x, y) && y.world == x.world.(app := x.world.app + Of(r))
  }

  ghost predicate DriverTakeStep(always: bool, x: Snapshot, y: Snapshot) {
    exists r :: Gained(always, r, x, y) && y.world == x.world.(drivers := x.world.drivers + Of(r))
  }

  predicate FreeStep(b: nat, x: Snapshot, y: Snapshot) {
    y.world == x.world.(app := Lost(b, x.world.app)) && OnlyHolders(x, y)
  }

  predicate RetainStep(b: nat, x: Snapshot, y: Snapshot) {
    && OnlyWorld(x.(shared := x.shared || b in x.world.app), y)
    && y.world == x.world.(app := if b in x.world.app then x.world.app + multiset{b} else x.world.app)
  }

  predicate FillStep(b: nat, p: Packet, x: Snapshot, y: Snapshot) {
    && OnlyBuffers(x, y) && y.qfifo == x.qfifo && y.free == x.free && y.world == x.world
    && if b in x.world.app then b < |x.packets| && y.packets == x.packets[b := p] else y.packets == x.packets
  }

  predicate ReleaseStep(b: nat, x: Snapshot, y: Snapshot) {
    y.world == x.world.(drivers := Lost(b, x.world.drivers)) && OnlyHolders(x, y)
  }

  predicate DeliverStep(b: nat, p: Packet, k: nat, ifaces: nat, x: Snapshot, y: Snapshot) {
    && OnlyBuffers(x, y)
    && if b in x.world.drivers && k < ifaces then
         && y.world == x.world.(drivers := Lost(b, x.world.drivers))
         && b < |x.packets| && y.packets == x.packets[b := p]
         && y.qfifo == if |x.qfifo| < CSP_QFIFO_LEN then x.qfifo + [Input(k, Some(b))] else x.qfifo
       else y.world == x.world && OnlyWorld(x, y)
  }

  /** A binding is made if there is something to bind and the port is free. */
  predicate BindStep(port: bv8, bound: Binding, there: bool, x: Snapshot, y: Snapshot) {
    && y.world == x.world
    && OnlyWorld(x.(bindings := if there && Bindable(x.bindings, port) then Extended(x.bindings, port, bound)
                                else x.bindings), y)
  }

  predicate WakeStep(ifaces: nat, x: Snapshot, y: Snapshot) {
    && y.world == x.world
    && var room := ifaces > 0 && |x.qfifo| < CSP_QFIFO_LEN;
       OnlyWorld(x.(qfifo := if room then x.qfifo + [Input(0, None)] else x.qfifo), y)
  }

  /** The steps that only move buffers between pool, application and drivers, and those that only set something up. */
  ghost predicate HoldStep(c: Setting, op: Op, x: Snapshot, y: Snapshot)
  {
    match op
    case TakeBuffer(always) => TakeStep(always, x, y)
    case FreeBuffer(b) => FreeStep(b, x, y)
    case Retain(b) => RetainStep(b, x, y)
    case Fill(b, p) => FillStep(b, p, x, y)
    case DriverTake(always) => DriverTakeStep(always, x, y)
    case DriverDeliver(b, p, k) => DeliverStep(b, p, k, |c.net.ifaces|, x, y)
    case DriverRelease(b) => ReleaseStep(b, x, y)
    case BindSocket(s, port) => BindStep(port, Open(s), s < |x.world.sockets|, x, y)
    case BindCallback(f, port) => BindStep(port, OpenCallback(f), true, x, y)
    case WakeUp => WakeStep(|c.net.ifaces|, x, y)
    case _ => false
  }

  /** The id `csp_sendto` gives the packet in `b`, if the application has such a packet. */
  function IdFor(x: Snapshot, prio: bv8, dest: bv16, dport: bv8, sport: bv8, opts: bv32, b: nat): Option<Id> {
    if b < |x.packets| then SendToId(x.packets[b].id, prio, dest, dport, sport, opts) else None
  }

  /** The steps that come to something an event tells. */
  ghost predicate TellStep(c: Setting, op: Op, e: Event, x: Snapshot, y: Snapshot)
    requires c.net.Valid()
  {
    match op
    case RouteWork(now) => RouterStep(c, now, e, x, y)
    case Connect(prio, dest, dport, opts) =>
      OnlyWorld(x, y) && ConnectStep(prio, dest, dport, ConnectOptions(opts, c.defaultOpts), e, x.world, y.world)
    case CloseConn(i) => OnlyHolders(x, y) && CloseStep(i, e, x.world, y.world)
    case Read(i) => OnlyWorld(x, y) && ReadStep(i, e, x.world, y.world)
    case Accept(s) => OnlyWorld(x, y) && AcceptStep(s, e, x.world, y.world)
    case ReceiveFrom(s) => OnlyWorld(x, y) && ReceiveStep(s, e, x.world, y.world)
    case Send(i, b) => SendStep(c, i, b, e, x, y)
    case SendTo(prio, dest, dport, sport, opts, b) =>
      SendToStep(c, IdFor(x, prio, dest, dport, sport, opts, b), b, e, x, y)
    case _ => false
  }

  /**
   What step `op` with outcome `e` does, to every part of the state; how many buffers are free
   follows from who holds which.
   */
  ghost predicate Transition(c: Setting, op: Op, e: Event, x: Snapshot, y: Snapshot)
    requires c.net.Valid()
  {
    if Holds(op) then e == Other && HoldStep(c, op, x, y) else TellStep(c, op, e, x, y)
  }

  // ----- runs -----

  /** What was asked, what came of it, and the states before, between and after. */
  datatype Trace = Trace(ops: seq<Op>, events: seq<Event>, states: seq<Snapshot>)

  /** A run: each state follows from the one before by its step, and all are accounted for. */
  ghost predicate Follows(c: Setting, t: Trace)
    requires c.net.Valid()
  {
    && |t.events| == |t.ops| && |t.states| == |t.ops| + 1
    && (forall k :: 0 <= k < |t.ops| ==> Transition(c, t.ops[k], t.events[k], t.states[k], t.states[k + 1]))
    && (forall k :: 0 <= k < |t.states| ==> t.states[k].Accounted())
  }

  lemma NothingYet(c: Setting, x: Snapshot)
    requires c.net.Valid() && x.Accounted()
    ensures Follows(c, Trace([], [], [x]))
  {
    hide Snapshot.Accounted;
  }

  lemma FollowsOneMore(c: Setting, t: Trace, op: Op, e: Event, y: Snapshot)
    requires c.net.Valid() && Follows(c, t) && y.Accounted()
    requires Transition(c, op, e, t.states[|t.ops|], y)
    ensures Follows(c, Trace(t.ops + [op], t.events + [e], t.states + [y]))
  {
    hide Transition, Snapshot.Accounted;
  }

  // ----- every queue of a socket hands out what was put in -----

  /** What an event puts into the queue of socket `s`: buffers, or connections to accept. */
  function Put(e: Event, s: nat): seq<nat> {
    match e
    case Decided(ToSocket(t), b) => if t == s then [b] else []
    case Decided(Accepted(i, t), _) => if t == s then [i] else []
    case _ => []
  }

  function Got(e: Event, s: nat): seq<nat> {
    match e
    case Took(t, x) => if t == s then [x] else []
    case _ => []
  }

  function AllPut(events: seq<Event>, s: nat): seq<nat> {
    if events == [] then [] else AllPut(events[..|events| - 1], s) + Put(events[|events| - 1], s)
  }

  function AllGot(events: seq<Event>, s: nat): seq<nat> {
    if events == [] then [] else AllGot(events[..|events| - 1], s) + Got(events[|events| - 1], s)
  }

  /** Nothing but the event has happened to the sockets. */
  ghost predicate Happened(e: Event, x: seq<Socket>, y: seq<Socket>) {
    && |x| == |y|
    && forall s :: 0 <= s < |x| ==> x[s].opts == y[s].opts && x[s].queue + Put(e, s) == Got(e, s) + y[s].queue
  }

  /** Every socket has handed out, in order and once each, what was put in, but for what still waits. */
  ghost predicate HandedOut(events: seq<Event>, x: seq<Socket>, y: seq<Socket>) {
    && |x| == |y|
    && forall s :: 0 <= s < |x| ==>
         x[s].opts == y[s].opts && x[s].queue + AllPut(events, s) == AllGot(events, s) + y[s].queue
  }

  lemma Rearranged<T>(x: seq<T>, put: seq<T>, more: seq<T>, got: seq<T>, taken: seq<T>, y: seq<T>, z: seq<T>)
    requires x + put == got + y && y + more == taken + z
    ensures x + (put + more) == (got + taken) + z
  {
    assert x + (put + more) == (x + put) + more;
    assert (got + y) + more == got + (y + more);
    assert got + (taken + z) == (got + taken) + z;
  }

  lemma OneMoreEvent(events: seq<Event>, e: Event, x: seq<Socket>, y: seq<Socket>, z: seq<Socket>)
    requires HandedOut(events, x, y) && Happened(e, y, z)
    ensures HandedOut(events + [e], x, z)
  {
    hide Put, Got;
    var all := events + [e];
    assert all[..|all| - 1] == events;
    forall s | 0 <= s < |x|
      ensures x[s].queue + AllPut(all, s) == AllGot(all, s) + z[s].queue
    {
      Rearranged(x[s].queue, AllPut(events, s), Put(e, s), AllGot(events, s), Got(e, s), y[s].queue, z[s].queue);
    }
  }

  lemma TakenHappened(x: seq<Socket>, s: nat)
    requires s < |x| && x[s].queue != []
    ensures Happened(Took(s, x[s].queue[0]), x, Taken(x, s))
  {
    assert x[s].queue == [x[s].queue[0]] + x[s].queue[1..];
  }

  lemma CarriedHappened(verdict: Verdict, b: nat, id: Id, x: World, y: World)
    requires Carried(verdict, b, id, x, y)
    ensures Happened(Decided(verdict, b), x.sockets, y.sockets)
  {}

  lemma NothingPut(e: Event, x: seq<Socket>)
    requires !e.Decided? && !e.Took?
    ensures Happened(e, x, x)
  {}

  /** Every verdict of the router is carried out. */
  lemma RoutedCarried(c: Setting, verdict: Verdict, b: nat, k: nat, now: Millis, x: Snapshot, y: Snapshot)
    requires c.net.Valid() && k < |c.net.ifaces| && b < |x.packets| && Routed(c, verdict, b, k, now, x, y)
    ensures Carried(verdict, b, x.packets[b].id, x.world, y.world)
  {
    hide Net.Valid, ToMe, Duplicate, Record, Footprint, SentOut, Said, Delivery.Allows, Delivery.Valid;
  }

  /** Each step changes the sockets as its event says. */
  lemma StepHappened(c: Setting, op: Op, e: Event, x: Snapshot, y: Snapshot)
    requires c.net.Valid() && Transition(c, op, e, x, y)
    ensures Happened(e, x.world.sockets, y.world.sockets)
  {
    hide Happened, Carried, SentOut, Dialled, SendToId, IdAfter, Net.Valid, Routed, Taken;
    if e.Decided? {
      var b, k := x.qfifo[0].packet.value, x.qfifo[0].iface;
      RoutedCarried(c, e.verdict, b, k, op.now, x.(qfifo := x.qfifo[1..]), y);
      CarriedHappened(e.verdict, b, x.packets[b].id, x.world, y.world);
    } else if e.Took? {
      TakenHappened(x.world.sockets, e.socket);
    } else {
      NothingPut(e, x.world.sockets);
    }
  }

  lemma NoEvents(x: seq<Socket>)
    ensures HandedOut([], x, x)
  {}

  /**
   Over every run: what came out of each socket, then what waits, is what was there and what the
   router put in, in order.
   */
  lemma {:induction false} RunHandsOut(c: Setting, t: Trace, n: nat)
    requires c.net.Valid() && Follows(c, t) && n <= |t.ops|
    ensures HandedOut(t.events[..n], t.states[0].world.sockets, t.states[n].world.sockets)
  {
    hide HandedOut, Happened, Transition, Snapshot.Accounted;
    if n == 0 {
      NoEvents(t.states[0].world.sockets);
    } else {
      RunHandsOut(c, t, n - 1);
      StepHappened(c, t.ops[n - 1], t.events[n - 1], t.states[n - 1], t.states[n]);
      OneMoreEvent(t.events[..n - 1], t.events[n - 1], t.states[0].world.sockets, t.states[n - 1].world.sockets,
                   t.states[n].world.sockets);
      assert t.events[..n - 1] + [t.events[n - 1]] == t.events[..n];
    }
  }

  // ----- when connections open and close -----

  /** The event begins a connection in slot `i`: a client dialled, or a server was accepted. */
  predicate Opens(e: Event, i: nat) {
    e == Begun(i) || (e.Decided? && e.verdict.Accepted? && e.verdict.conn == i)
  }

  predicate IsOpen(w: World, i: nat) {
    i < |w.conns| && w.conns[i].open
  }

  /**
   An open slot and only an open one ends, a closed one and only a closed one begins, and nothing
   else changes that.
   */
  predicate OpensAndCloses(e: Event, x: World, y: World, i: nat) {
    && (Opens(e, i) ==> !IsOpen(x, i) && IsOpen(y, i))
    && (e == Ended(i) ==> IsOpen(x, i) && !IsOpen(y, i))
    && (!Opens(e, i) && e != Ended(i) ==> IsOpen(x, i) == IsOpen(y, i))
  }

  /** Connection `i` waits to be accepted at socket `s`. */
  predicate Waiting(w: World, i: nat, s: nat) {
    s < |w.sockets| && !w.sockets[s].ConnLess() && i in w.sockets[s].queue
  }

  /** The application accepts connection `i`. */
  predicate HandsOver(w: World, e: Event, i: nat) {
    e.Took? && e.item == i && e.socket < |w.sockets| && !w.sockets[e.socket].ConnLess()
  }

  /** Handles come by dialling and by accepting what waits, and go by closing. */
  predicate HandlesBy(e: Event, x: World, y: World) {
    && (e.Ended? ==> e.conn in x.handles)
    && (e.Took? && HandsOver(x, e, e.item) ==> Waiting(x, e.item, e.socket))
    && y.handles == if e.Begun? then x.handles + multiset{e.conn}
                 else if e.Ended? then x.handles - multiset{e.conn}
                 else if e.Took? && HandsOver(x, e, e.item) then x.handles + multiset{e.item}
                 else x.handles
  }

  predicate Effects(e: Event, x: World, y: World, i: nat) {
    OpensAndCloses(e, x, y, i) && HandlesBy(e, x, y)
  }

  /** An event that begins, ends and hands over nothing, and a step that leaves open connections open. */
  lemma NothingMoves(e: Event, x: World, y: World, i: nat)
    requires !e.Begun? && !e.Ended? && !e.Took? && (e.Decided? ==> !e.verdict.Accepted?)
    requires y.handles == x.handles && IsOpen(x, i) == IsOpen(y, i)
    ensures Effects(e, x, y, i)
  {}

  lemma VerdictOpens(v: Version, verdict: Verdict, b: nat, x: Snapshot, y: Snapshot, i: nat)
    requires b < |x.packets| && Delivered(v, verdict, b, x, y)
    ensures Effects(Decided(verdict, b), x.world, y.world, i)
  {
    hide Delivery.Passes, Delivery.Refused, Delivery.HasConn, Said, Separated;
  }

  lemma RouteEffects(c: Setting, now: Millis, e: Event, x: Snapshot, y: Snapshot, i: nat)
    requires c.net.Valid() && RouterStep(c, now, e, x, y)
    ensures Effects(e, x.world, y.world, i)
  {
    hide Net.Valid, ToMe, Duplicate, Record, Footprint, SentOut, Delivered, Effects;
    if e.Decided? && Delivered(c.net.v, e.verdict, e.packet, x.(qfifo := x.qfifo[1..]), y) {
      VerdictOpens(c.net.v, e.verdict, e.packet, x.(qfifo := x.qfifo[1..]), y, i);
    } else {
      NothingMoves(e, x.world, y.world, i);
    }
  }

  lemma ConnectEffects(prio: bv8, dest: bv16, dport: bv8, o: Option<(bv32, bv8)>, e: Event, x: World, y: World, i: nat)
    requires ConnectStep(prio, dest, dport, o, e, x, y)
    ensures Effects(e, x, y, i)
  {
    Nothing(x.handles);
  }

  lemma CloseEffects(j: nat, e: Event, x: World, y: World, i: nat)
    requires CloseStep(j, e, x, y)
    ensures Effects(e, x, y, i)
  {}

  lemma ReadEffects(j: nat, e: Event, x: World, y: World, i: nat)
    requires ReadStep(j, e, x, y)
    ensures Effects(e, x, y, i)
  {
    NothingMoves(e, x, y, i);
  }

  lemma AcceptEffects(s: nat, e: Event, x: World, y: World, i: nat)
    requires AcceptStep(s, e, x, y)
    ensures Effects(e, x, y, i)
  {
    hide Socket.ConnLess, Taken;
  }

  lemma ReceiveEffects(s: nat, e: Event, x: World, y: World, i: nat)
    requires ReceiveStep(s, e, x, y)
    ensures Effects(e, x, y, i)
  {
    hide Socket.ConnLess, Taken;
  }

  lemma SendEffects(c: Setting, j: nat, b: nat, e: Event, x: Snapshot, y: Snapshot, i: nat)
    requires c.net.Valid() && SendStep(c, j, b, e, x, y)
    ensures Effects(e, x.world, y.world, i)
  {
    hide Net.Valid, SentOut, IdAfter;
    NothingMoves(e, x.world, y.world, i);
  }

  lemma SendToEffects(c: Setting, id: Option<Id>, b: nat, e: Event, x: Snapshot, y: Snapshot, i: nat)
    requires c.net.Valid() && SendToStep(c, id, b, e, x, y)
    ensures Effects(e, x.world, y.world, i)
  {
    hide Net.Valid, SentOut;
    NothingMoves(e, x.world, y.world, i);
  }

  lemma HoldEffects(c: Setting, op: Op, x: Snapshot, y: Snapshot, i: nat)
    requires HoldStep(c, op, x, y)
    ensures Effects(Other, x.world, y.world, i)
  {
    hide Gained;
    NothingMoves(Other, x.world, y.world, i);
  }

  lemma TellEffects(c: Setting, op: Op, e: Event, x: Snapshot, y: Snapshot, i: nat)
    requires c.net.Valid() && TellStep(c, op, e, x, y)
    ensures Effects(e, x.world, y.world, i)
  {
    hide Net.Valid, RouterStep, ConnectStep, CloseStep, ReadStep, AcceptStep, ReceiveStep, SendStep, SendToStep;
    hide Effects, IdFor, ConnectOptions;
    match op {
      case RouteWork(now) => RouteEffects(c, now, e, x, y, i);
      case Connect(prio, dest, dport, opts) =>
        ConnectEffects(prio, dest, dport, ConnectOptions(opts, c.defaultOpts), e, x.world, y.world, i);
      case CloseConn(j) => CloseEffects(j, e, x.world, y.world, i);
      case Read(j) => ReadEffects(j, e, x.world, y.world, i);
      case Accept(s) => AcceptEffects(s, e, x.world, y.world, i);
      case ReceiveFrom(s) => ReceiveEffects(s, e, x.world, y.world, i);
      case Send(j, b) => SendEffects(c, j, b, e, x, y, i);
      case SendTo(prio, dest, dport, sport, opts, b) =>
        SendToEffects(c, IdFor(x, prio, dest, dport, sport, opts, b), b, e, x, y, i);
    }
  }

  lemma StepEffects(c: Setting, op: Op, e: Event, x: Snapshot, y: Snapshot, i: nat)
    requires c.net.Valid() && Transition(c, op, e, x, y)
    ensures Effects(e, x.world, y.world, i)
  {
    hide Net.Valid, TellStep, HoldStep, Effects;
    if Holds(op) {
      HoldEffects(c, op, x, y, i);
    } else {
      TellEffects(c, op, e, x, y, i);
    }
  }

  /** Step `m` of a run. */
  lemma StepAt(c: Setting, t: Trace, m: nat)
    requires c.net.Valid() && Follows(c, t) && m < |t.ops|
    ensures |t.events| == |t.ops| && |t.states| == |t.ops| + 1
    ensures Transition(c, t.ops[m], t.events[m], t.states[m], t.states[m + 1])
    ensures OneOwner(t.states[m].world)
  {
    hide Transition, Net.Valid;
    assert t.states[m].Accounted();
  }

  /** While nothing ends it, an open connection stays open. */
  lemma {:induction false} StaysOpen(c: Setting, t: Trace, m: nat, n: nat, i: nat)
    requires c.net.Valid() && Follows(c, t) && m <= n <= |t.ops| && IsOpen(t.states[m].world, i)
    requires forall k :: m <= k < n ==> t.events[k] != Ended(i)
    ensures IsOpen(t.states[n].world, i)
    ensures forall k :: m <= k < n ==> !Opens(t.events[k], i)
    decreases n - m
  {
    hide Transition, Follows, Net.Valid, OneOwner, Opens, IsOpen, HandlesBy;
    if m < n {
      StepAt(c, t, m);
      StepEffects(c, t.ops[m], t.events[m], t.states[m], t.states[m + 1], i);
      StaysOpen(c, t, m + 1, n, i);
    }
  }

  /** Between two beginnings of a slot there is an end. */
  lemma ClosedInBetween(c: Setting, t: Trace, j: nat, k: nat, i: nat)
    requires c.net.Valid() && Follows(c, t) && j < k < |t.ops|
    requires Opens(t.events[j], i) && Opens(t.events[k], i)
    ensures exists n :: j < n < k && t.events[n] == Ended(i)
  {
    hide Transition, Follows, Net.Valid, OneOwner, Opens, IsOpen, HandlesBy;
    StepAt(c, t, j);
    StepAt(c, t, k);
    if forall n :: j < n < k ==> t.events[n] != Ended(i) {
      StepEffects(c, t.ops[j], t.events[j], t.states[j], t.states[j + 1], i);
      StaysOpen(c, t, j + 1, k, i);
      StepEffects(c, t.ops[k], t.events[k], t.states[k], t.states[k + 1], i);
      assert false;
    }
  }

  // ----- accepted exactly once -----

  ghost predicate OneOwner(w: World) {
    OneOwnerEach(w.conns, Queued(w.sockets, false) + w.handles)
  }

  lemma QueuedTwo(sockets: seq<Socket>, s: nat, t: nat)
    requires s < |sockets| && t < |sockets| && s != t
    ensures QueueOf(sockets[s], false) + QueueOf(sockets[t], false) <= Queued(sockets, false)
  {
    hide Queued;
    var empty := sockets[s].(queue := []);
    QueuedUpdate(sockets, s, empty, false);
    QueuedUpdate(sockets[s := empty], t, empty, false);
  }

  lemma InQueue(s: Socket, i: nat)
    requires i in s.queue && !s.ConnLess()
    ensures i in QueueOf(s, false)
  {}

  /** A connection that waits has no handle yet and waits nowhere else. */
  lemma WaitsAlone(w: World, i: nat, s: nat)
    requires OneOwner(w) && Waiting(w, i, s)
    ensures i !in w.handles && forall t :: Waiting(w, i, t) ==> t == s
  {
    hide Queued, QueueOf, Socket.ConnLess;
    var queued := Queued(w.sockets, false);
    QueuedUpdate(w.sockets, s, w.sockets[s], false);
    InQueue(w.sockets[s], i);
    assert (queued + w.handles)[i] <= 1;
    forall t: nat | Waiting(w, i, t)
      ensures t == s
    {
      if t != s {
        InQueue(w.sockets[t], i);
        QueuedTwo(w.sockets, s, t);
      }
    }
  }

  /** A waiting connection is not closed; it goes on waiting until it is accepted from where it waits. */
  lemma WaitingStep(c: Setting, op: Op, e: Event, x: Snapshot, y: Snapshot, i: nat, s: nat)
    requires c.net.Valid() && Transition(c, op, e, x, y) && OneOwner(x.world) && Waiting(x.world, i, s)
    ensures e != Ended(i)
    ensures if HandsOver(x.world, e, i) then e == Took(s, i) && i in y.world.handles else Waiting(y.world, i, s)
  {
    hide Transition, OneOwner, Socket.ConnLess, OpensAndCloses;
    WaitsAlone(x.world, i, s);
    StepEffects(c, op, e, x, y, i);
    StepHappened(c, op, e, x, y);
    SameSort(x.world.sockets, y.world.sockets, s, e);
    var q := x.world.sockets[s].queue;
    if !HandsOver(x.world, e, i) {
      assert i in q + Put(e, s);
      assert i !in Got(e, s);
    }
  }

  lemma SameSort(x: seq<Socket>, y: seq<Socket>, s: nat, e: Event)
    requires Happened(e, x, y) && s < |x|
    ensures |x| == |y| && x[s].ConnLess() == y[s].ConnLess()
  {}

  /** An accepted connection is not accepted again, and its handle stays until it is closed. */
  lemma HandleStep(c: Setting, op: Op, e: Event, x: Snapshot, y: Snapshot, i: nat)
    requires c.net.Valid() && Transition(c, op, e, x, y) && OneOwner(x.world) && i in x.world.handles && e != Ended(i)
    ensures i in y.world.handles && !HandsOver(x.world, e, i)
  {
    hide Transition, OneOwner, Socket.ConnLess, OpensAndCloses;
    StepEffects(c, op, e, x, y, i);
    if HandsOver(x.world, e, i) {
      WaitsAlone(x.world, i, e.socket);
    }
  }

  /** Step `n` of the run hands connection `i` over. */
  predicate HandedOverAt(t: Trace, n: nat, i: nat) {
    n < |t.events| && n < |t.states| && HandsOver(t.states[n].world, t.events[n], i)
  }

  lemma {:induction false} NotAgain(c: Setting, t: Trace, m: nat, k: nat, i: nat)
    requires c.net.Valid() && Follows(c, t) && m <= k <= |t.ops| && i in t.states[m].world.handles
    requires forall n :: m <= n < k ==> t.events[n] != Ended(i)
    ensures i in t.states[k].world.handles
    ensures forall n :: m <= n < k ==> !HandedOverAt(t, n, i)
    decreases k - m
  {
    hide Transition, Follows, Net.Valid, OneOwner, HandsOver;
    if m < k {
      StepAt(c, t, m);
      HandleStep(c, t.ops[m], t.events[m], t.states[m], t.states[m + 1], i);
      NotAgain(c, t, m + 1, k, i);
    }
  }

  /** Between `m` and `k` no step hands connection `i` over. */
  predicate NeverHandedOver(t: Trace, m: nat, k: nat, i: nat) {
    forall n :: m <= n < k ==> !HandedOverAt(t, n, i)
  }

  /** Step `at` is the only one between `m` and `k` to hand connection `i` over, and does so at socket `s`. */
  predicate HandedOverOnce(t: Trace, m: nat, k: nat, i: nat, s: nat, at: nat) {
    && m <= at < k && HandedOverAt(t, at, i) && t.events[at] == Took(s, i)
    && forall n :: m <= n < k && HandedOverAt(t, n, i) ==> n == at
  }

  predicate GivenOnce(t: Trace, m: nat, k: nat, i: nat, s: nat) {
    exists at :: m <= at < k && HandedOverOnce(t, m, k, i, s, at)
  }

  lemma {:induction false} FromWaiting(c: Setting, t: Trace, m: nat, k: nat, i: nat, s: nat) returns (at: Option<nat>)
    requires c.net.Valid() && Follows(c, t) && m <= k <= |t.ops| && Waiting(t.states[m].world, i, s)
    requires forall n :: m <= n < k ==> t.events[n] != Ended(i)
    ensures at.None? ==> Waiting(t.states[k].world, i, s) && NeverHandedOver(t, m, k, i)
    ensures at.Some? ==> i in t.states[k].world.handles && HandedOverOnce(t, m, k, i, s, at.value)
    decreases k - m
  {
    hide Transition, Follows, Net.Valid, OneOwner, HandsOver, Waiting;
    if m == k {
      return None;
    }
    StepAt(c, t, m);
    WaitingStep(c, t.ops[m], t.events[m], t.states[m], t.states[m + 1], i, s);
    if HandsOver(t.states[m].world, t.events[m], i) {
      NotAgain(c, t, m + 1, k, i);
      return Some(m);
    }
    at := FromWaiting(c, t, m + 1, k, i, s);
  }

  /** What acceptance does: the new connection waits at its socket. */
  lemma AcceptedWaits(c: Setting, op: Op, e: Event, x: Snapshot, y: Snapshot)
    requires c.net.Valid() && Transition(c, op, e, x, y) && e.Decided? && e.verdict.Accepted?
    ensures Waiting(y.world, e.verdict.conn, e.verdict.socket)
  {
    hide Net.Valid, ToMe, Duplicate, Record, Footprint, SentOut, Said, Separated, Socket.ConnLess;
    hide Delivery.Passes, Delivery.HasConn, Delivery.Refused;
    var v, s := e.verdict, e.verdict.socket;
    assert y.world.sockets[s].queue[|x.world.sockets[s].queue|] == v.conn;
    PostedSort(x.world.sockets, s, v.conn);
  }

  lemma PostedSort(x: seq<Socket>, s: nat, i: nat)
    requires s < |x|
    ensures Posted(x, s, i)[s].ConnLess() == x[s].ConnLess()
  {}

  /**
   The life of a server connection, over every run. As long as it is not closed, the application
   is given it at most once, at the socket it was posted to, and it waits there until then; its
   slot is used for nothing else. And it is not closed before the application was given it.
   */
  lemma ServerLifetime(c: Setting, t: Trace, j: nat, k: nat, i: nat, s: nat, b: nat)
    requires c.net.Valid() && Follows(c, t) && j < k <= |t.ops|
    requires t.events[j] == Decided(Accepted(i, s), b)
    requires forall n :: j < n < k ==> t.events[n] != Ended(i)
    ensures (Waiting(t.states[k].world, i, s) && NeverHandedOver(t, j + 1, k, i))
         || GivenOnce(t, j + 1, k, i, s)
    ensures k < |t.ops| && t.events[k] == Ended(i) ==> GivenOnce(t, j + 1, k, i, s)
    ensures forall n :: j < n < k ==> !Opens(t.events[n], i)
  {
    hide Transition, Follows, Net.Valid, OneOwner, NeverHandedOver, HandedOverAt, Waiting, IsOpen;
    StepAt(c, t, j);
    AcceptedWaits(c, t.ops[j], t.events[j], t.states[j], t.states[j + 1]);
    var at := FromWaiting(c, t, j + 1, k, i, s);
    AcceptedOpen(c, t.ops[j], t.events[j], t.states[j], t.states[j + 1], i);
    StaysOpen(c, t, j + 1, k, i);
    if k < |t.ops| {
      StepAt(c, t, k);
      if at.None? {
        WaitingStep(c, t.ops[k], t.events[k], t.states[k], t.states[k + 1], i, s);
      }
    }
  }

  lemma AcceptedOpen(c: Setting, op: Op, e: Event, x: Snapshot, y: Snapshot, i: nat)
    requires c.net.Valid() && Transition(c, op, e, x, y) && Opens(e, i)
    ensures IsOpen(y.world, i)
  {
    hide Transition;
    StepEffects(c, op, e, x, y, i);
  }

  /** A server connection begins with one posting, or is closed in the same step without any. */
  lemma PostedOnce(c: Setting, op: Op, e: Event, x: Snapshot, y: Snapshot, i: nat, s: nat)
    requires c.net.Valid() && Transition(c, op, e, x, y) && e.Decided?
    ensures e.verdict == Accepted(i, s) ==>
              s < |x.world.sockets| && y.world.sockets == Posted(x.world.sockets, s, i) && IsOpen(y.world, i)
    ensures e.verdict == ClosedAtOnce(i, s) ==>
              y.world.sockets == x.world.sockets && !IsOpen(x.world, i) && !IsOpen(y.world, i)
  {
    hide Net.Valid, SentOut, Said, Posted, Routed;
    var b, k := x.qfifo[0].packet.value, x.qfifo[0].iface;
    RoutedCarried(c, e.verdict, b, k, op.now, x.(qfifo := x.qfifo[1..]), y);
    StepEffects(c, op, e, x, y, i);
  }
}
