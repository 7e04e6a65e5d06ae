/** What csp_io.c makes of a packet that is sent: copies, the interfaces they go to, and the searches for those. */
module Outgoing {
  import opened Words
  import opened CspId
  import opened Packet
  import opened Conn
  import opened IfList
  import opened RouteTable
  import opened Forward
  import opened Kiss

  /** An entry of the router's input queue; a wake-up carries no packet. */
  datatype Input = Input(iface: nat, packet: Option<nat>)

  // ----- what becomes of a copy -----

  /** No buffer for it, refused before the interface saw it, or handed to the interface as this packet. */
  datatype Fate = NoBuffer | Refused | Handed(packet: Packet)

  /**
   `csp_send_direct_iface`: packets of our own get a checksum if their id asks for one;
   authentication is not compiled in.
   */
  function FateOf(id: Id, data: seq<byte>, fromMe: bool): (fate: Fate)
    ensures fate != NoBuffer
  {
    if fromMe && id.flags & FHMAC != 0 then Refused
    else if fromMe && id.flags & FCRC32 != 0 then
      if |data| + 4 > CSP_BUFFER_SIZE then Refused else Handed(Packet(id, WithCrc(data)))
    else Handed(Packet(id, data))
  }

  /** Each copy fared as its id and the data say, unless there was no buffer for it. */
  ghost predicate Fared(fates: seq<Fate>, hops: seq<Hop>, data: seq<byte>, fromMe: bool) {
    && |fates| == |hops|
    && forall i :: 0 <= i < |fates| ==> fates[i] == NoBuffer || fates[i] == FateOf(hops[i].id, data, fromMe)
  }

  predicate NoneMissed(fates: seq<Fate>) {
    forall i :: 0 <= i < |fates| ==> fates[i] != NoBuffer
  }

  /** The buffers in `held` say what they said before. */
  ghost predicate Untouched(before: seq<Packet>, after: seq<Packet>, held: multiset<nat>) {
    |before| == |after| && forall c :: c in held && c < |before| ==> after[c] == before[c]
  }

  // ----- what leaves the node -----

  /** A packet given to an interface, and its next hop. */
  datatype Emission = Emission(iface: nat, via: bv16, packet: Packet)

  /** One call of a driver's `nexthop`: the buffer is the driver's if it took the packet. */
  datatype Sent = Sent(what: Emission, taken: Option<nat>)

  function Emitted(sent: seq<Sent>): seq<Emission> {
    seq(|sent|, i requires 0 <= i < |sent| => sent[i].what)
  }

  function KeptByDrivers(sent: seq<Sent>): multiset<nat> {
    if sent == [] then multiset{} else
    var last := sent[|sent| - 1].taken;
    KeptByDrivers(sent[..|sent| - 1]) + if last.Some? then multiset{last.value} else multiset{}
  }

  /** What copies mean for the drivers, in order: those that are handed to another interface than loopback. */
  function Emissions(lo: nat, hops: seq<Hop>, fates: seq<Fate>): seq<Emission>
    requires |hops| == |fates|
  {
    if hops == [] then [] else
    var n := |hops| - 1;
    Emissions(lo, hops[..n], fates[..n])
    + if fates[n].Handed? && hops[n].iface != lo then [Emission(hops[n].iface, hops[n].via, fates[n].packet)] else []
  }

  /** And for the router's own queue: those that are handed to loopback. */
  function Loopbacks(lo: nat, hops: seq<Hop>, fates: seq<Fate>): seq<Packet>
    requires |hops| == |fates|
  {
    if hops == [] then [] else
    var n := |hops| - 1;
    Loopbacks(lo, hops[..n], fates[..n]) + if fates[n].Handed? && hops[n].iface == lo then [fates[n].packet] else []
  }

  lemma OneOut(lo: nat, h: Hop, f: Fate)
    ensures Emissions(lo, [h], [f]) == if f.Handed? && h.iface != lo then [Emission(h.iface, h.via, f.packet)] else []
    ensures Loopbacks(lo, [h], [f]) == if f.Handed? && h.iface == lo then [f.packet] else []
  {
    assert [h][..0] == [] && [f][..0] == [];
  }

  lemma OneMoreOut(lo: nat, hops: seq<Hop>, fates: seq<Fate>, h: Hop, f: Fate)
    requires |hops| == |fates|
    ensures Emissions(lo, hops + [h], fates + [f]) == Emissions(lo, hops, fates) + Emissions(lo, [h], [f])
    ensures Loopbacks(lo, hops + [h], fates + [f]) == Loopbacks(lo, hops, fates) + Loopbacks(lo, [h], [f])
  {
    OneOut(lo, h, f);
    assert (hops + [h])[..|hops|] == hops && (fates + [f])[..|fates|] == fates;
  }

  /** The router's queue, what the drivers hold, and all that was ever given to them; `lo` is loopback. */
  datatype Wire = Wire(lo: nat, fifo: seq<Input>, drivers: multiset<nat>, sent: seq<Sent>)

  /** The packets have been put into the queue as if they came in by loopback, in order, as far as there was room. */
  ghost predicate LoopedBack(x: seq<Input>, y: seq<Input>, lo: nat, packets: seq<Packet>, held: multiset<nat>,
                             pool: seq<Packet>) {
    && x <= y
    && |y| == (if |x| + |packets| <= CSP_QFIFO_LEN then |x| + |packets|
               else if |x| <= CSP_QFIFO_LEN then CSP_QFIFO_LEN else |x|)
    && forall j :: |x| <= j < |y| ==>
         && y[j].iface == lo && y[j].packet.Some? && y[j].packet.value in held && y[j].packet.value < |pool|
         && pool[y[j].packet.value] == packets[j - |x|]
  }

  /**
   Exactly the copies that were handed over have gone out: to the drivers, which hold what they took,
   and to the router's queue.
   */
  ghost predicate Out(x: Wire, y: Wire, hops: seq<Hop>, fates: seq<Fate>, held: multiset<nat>, pool: seq<Packet>)
    requires |hops| == |fates|
  {
    && y.lo == x.lo && x.sent <= y.sent
    && Emitted(y.sent) == Emitted(x.sent) + Emissions(x.lo, hops, fates)
    && x.drivers + KeptByDrivers(y.sent) == y.drivers + KeptByDrivers(x.sent)
    && LoopedBack(x.fifo, y.fifo, x.lo, Loopbacks(x.lo, hops, fates), held, pool)
  }

  lemma NothingOut(x: Wire, held: multiset<nat>, pool: seq<Packet>)
    requires |x.fifo| <= CSP_QFIFO_LEN
    ensures Out(x, x, [], [], held, pool)
  {}

  lemma NoneChanges(x: Wire, y: Wire, held: multiset<nat>, pool: seq<Packet>)
    requires Out(x, y, [], [], held, pool) && |x.fifo| <= CSP_QFIFO_LEN
    ensures y == x
  {
    assert |Emitted(y.sent)| == |Emitted(x.sent)|;
    assert y.sent == x.sent && y.fifo == x.fifo;
    forall b: nat
      ensures y.drivers[b] == x.drivers[b]
    {
      assert (x.drivers + KeptByDrivers(y.sent))[b] == (y.drivers + KeptByDrivers(x.sent))[b];
    }
    assert y.drivers == x.drivers;
  }

  lemma NotHandedOut(x: Wire, h: Hop, f: Fate, held: multiset<nat>, pool: seq<Packet>)
    requires |x.fifo| <= CSP_QFIFO_LEN && !f.Handed?
    ensures Out(x, x, [h], [f], held, pool)
  {
    OneOut(x.lo, h, f);
  }

  lemma LoopedBackMore(x: seq<Input>, y: seq<Input>, z: seq<Input>, lo: nat, p: seq<Packet>, q: seq<Packet>,
                       held: multiset<nat>, more: multiset<nat>, pool: seq<Packet>, after: seq<Packet>)
    requires LoopedBack(x, y, lo, p, held, pool) && LoopedBack(y, z, lo, q, more, after)
    requires held <= more && Untouched(pool, after, held)
    ensures LoopedBack(x, z, lo, p + q, more, after)
  {
    forall j | |x| <= j < |z|
      ensures z[j].iface == lo && z[j].packet.Some? && z[j].packet.value in more && z[j].packet.value < |after|
      ensures after[z[j].packet.value] == (p + q)[j - |x|]
    {
      if j < |y| {
        assert z[j] == y[j];
      }
    }
  }

  lemma OutMore(x: Wire, y: Wire, z: Wire, hops: seq<Hop>, fates: seq<Fate>, h: Hop, f: Fate,
                held: multiset<nat>, more: multiset<nat>, pool: seq<Packet>, after: seq<Packet>)
    requires |hops| == |fates| && Out(x, y, hops, fates, held, pool) && Out(y, z, [h], [f], more, after)
    requires held <= more && Untouched(pool, after, held)
    ensures Out(x, z, hops + [h], fates + [f], more, after)
  {
    hide LoopedBack, Emissions, Loopbacks, Emitted, KeptByDrivers, Untouched;
    OneMoreOut(x.lo, hops, fates, h, f);
    LoopedBackMore(x.fifo, y.fifo, z.fifo, x.lo, Loopbacks(x.lo, hops, fates), Loopbacks(x.lo, [h], [f]),
                   held, more, pool, after);
    Chained(x.drivers, y.drivers, z.drivers, KeptByDrivers(x.sent), KeptByDrivers(y.sent), KeptByDrivers(z.sent));
  }

  lemma Chained(x: multiset<nat>, y: multiset<nat>, z: multiset<nat>, s: multiset<nat>, t: multiset<nat>,
                u: multiset<nat>)
    requires x + t == y + s && y + u == z + t
    ensures x + u == z + s
  {
    forall b: nat
      ensures (x + u)[b] == (z + s)[b]
    {
      assert (x + t)[b] == (y + s)[b] && (y + u)[b] == (z + t)[b];
    }
  }

  /** A driver was given a packet, and took its buffer or not. */
  lemma DriverOut(x: Wire, h: Hop, p: Packet, taken: Option<nat>, held: multiset<nat>, pool: seq<Packet>)
    requires |x.fifo| <= CSP_QFIFO_LEN && h.iface != x.lo
    ensures var drivers := if taken.Some? then x.drivers + multiset{taken.value} else x.drivers;
            var sent := x.sent + [Sent(Emission(h.iface, h.via, p), taken)];
            Out(x, x.(drivers := drivers, sent := sent), [h], [Handed(p)], held, pool)
  {
    OneOut(x.lo, h, Handed(p));
    var sent := x.sent + [Sent(Emission(h.iface, h.via, p), taken)];
    assert sent[..|x.sent|] == x.sent;
    assert Emitted(sent) == Emitted(x.sent) + [Emission(h.iface, h.via, p)];
  }

  /** A packet in buffer `b` went to the router's queue, or was dropped because the queue was full. */
  lemma LoopbackOut(x: Wire, h: Hop, b: nat, held: multiset<nat>, pool: seq<Packet>)
    requires |x.fifo| <= CSP_QFIFO_LEN && h.iface == x.lo && b < |pool|
    requires |x.fifo| < CSP_QFIFO_LEN ==> b in held
    ensures var fifo := if |x.fifo| < CSP_QFIFO_LEN then x.fifo + [Input(x.lo, Some(b))] else x.fifo;
            Out(x, x.(fifo := fifo), [h], [Handed(pool[b])], held, pool)
  {
    OneOut(x.lo, h, Handed(pool[b]));
  }

  // ----- the books of a sender -----

  /** How many buffers are free, what all of them say, which are held, and what has left. */
  datatype Books = Books(free: nat, packets: seq<Packet>, held: multiset<nat>, wire: Wire)

  /**
   What sending copies does: every copy fares as its id and the data say, none is missed while
   buffers last, those handed over have gone out, nobody else's buffer changes, and nothing is
   taken from anybody.
   */
  ghost predicate Sending(x: Books, y: Books, rest: multiset<nat>, data: seq<byte>, fromMe: bool, hops: seq<Hop>,
                          fates: seq<Fate>) {
    && Fared(fates, hops, data, fromMe)
    && (x.free > |hops| ==> NoneMissed(fates))
    && Untouched(x.packets, y.packets, x.held + rest)
    && x.held <= y.held && y.free >= x.free - |hops|
    && Out(x.wire, y.wire, hops, fates, y.held, y.packets)
  }

  lemma SendingNone(x: Books, rest: multiset<nat>, data: seq<byte>, fromMe: bool)
    requires |x.wire.fifo| <= CSP_QFIFO_LEN
    ensures Sending(x, x, rest, data, fromMe, [], [])
  {
    NothingOut(x.wire, x.held, x.packets);
  }

  lemma OneMissed(x: Books, rest: multiset<nat>, data: seq<byte>, fromMe: bool, h: Hop)
    requires |x.wire.fifo| <= CSP_QFIFO_LEN && x.free < 2
    ensures Sending(x, x, rest, data, fromMe, [h], [NoBuffer])
  {
    hide Out;
    NotHandedOut(x.wire, h, NoBuffer, x.held, x.packets);
  }

  /** A copy in a buffer `c` nobody held before. */
  lemma OneSent(x: Books, y: Books, c: nat, rest: multiset<nat>, data: seq<byte>, fromMe: bool, h: Hop, f: Fate)
    requires c < |x.packets| == |y.packets| && c !in x.held + rest && y.packets == x.packets[c := y.packets[c]]
    requires x.held <= y.held && y.free >= x.free - 1
    requires f == FateOf(h.id, data, fromMe) && Out(x.wire, y.wire, [h], [f], y.held, y.packets)
    ensures Sending(x, y, rest, data, fromMe, [h], [f])
  {
    hide FateOf, Out;
  }

  lemma SendingMore(x: Books, y: Books, z: Books, rest: multiset<nat>, data: seq<byte>, fromMe: bool,
                    hops: seq<Hop>, fates: seq<Fate>, h: Hop, f: Fate)
    requires Sending(x, y, rest, data, fromMe, hops, fates) && Sending(y, z, rest, data, fromMe, [h], [f])
    ensures Sending(x, z, rest, data, fromMe, hops + [h], fates + [f])
  {
    hide FateOf, Out;
    assert x.held + rest <= y.held + rest;
    OutMore(x.wire, y.wire, z.wire, hops, fates, h, f, y.held, z.held, y.packets, z.packets);
    assert [f][0] == NoBuffer || [f][0] == FateOf([h][0].id, data, fromMe);
    if x.free > |hops + [h]| {
      assert [f][0] != NoBuffer;
    }
  }

  /**
   Sending a packet as a whole: its own buffer `b` is released and may have been written on the
   way, every copy fares as it should, and nothing else changes for anybody.
   */
  ghost predicate Dispatched(x: Books, y: Books, rest: multiset<nat>, b: nat, data: seq<byte>, fromMe: bool,
                             hops: seq<Hop>, fates: seq<Fate>) {
    && Fared(fates, hops, data, fromMe)
    && (x.free > |hops| ==> NoneMissed(fates))
    && b < |x.packets| == |y.packets|
    && Untouched(x.packets[b := y.packets[b]], y.packets, x.held + rest)
    && x.held <= y.held
    && Out(x.wire, y.wire, hops, fates, y.held, y.packets)
  }

  lemma CopiesDispatched(x: Books, y: Books, z: Books, rest: multiset<nat>, b: nat, data: seq<byte>, fromMe: bool,
                         hops: seq<Hop>, fates: seq<Fate>)
    requires Sending(x, y, rest + multiset{b}, data, fromMe, hops, fates) && b < |x.packets|
    requires z.packets == y.packets && z.held == y.held && z.wire == y.wire
    ensures Dispatched(x, z, rest, b, data, fromMe, hops, fates)
  {
    hide Out;
    assert x.held + rest <= x.held + (rest + multiset{b});
  }

  lemma OriginalDispatched(x: Books, y: Books, rest: multiset<nat>, b: nat, data: seq<byte>, fromMe: bool, h: Hop)
    requires b < |x.packets| == |y.packets| && y.packets == x.packets[b := y.packets[b]] && x.held <= y.held
    requires Out(x.wire, y.wire, [h], [FateOf(h.id, data, fromMe)], y.held, y.packets)
    ensures Dispatched(x, y, rest, b, data, fromMe, [h], [FateOf(h.id, data, fromMe)])
  {
    hide FateOf, Out;
  }

  lemma SentData(x: Books, y: Books, rest: multiset<nat>, data: seq<byte>, fromMe: bool, hops: seq<Hop>,
                 fates: seq<Fate>, b: nat)
    requires Sending(x, y, rest, data, fromMe, hops, fates) && b in rest && b < |x.packets|
    ensures |y.packets| == |x.packets| && y.packets[b] == x.packets[b]
  {
    assert b in x.held + rest;
  }

  // ----- the searches that sending is made of -----

  /** The next interface that has the destination in its subnet, from `start` on. */
  ghost predicate NextLocal(net: Net, dst: bv16, start: nat, k: Option<nat>)
    requires net.Valid()
  {
    && (k.None? ==> forall j :: start <= j < |net.ifaces| ==> !net.Local(j, dst))
    && (k.Some? ==> start <= k.value < |net.ifaces| && net.Local(k.value, dst)
                    && forall j :: start <= j < k.value ==> !net.Local(j, dst))
  }

  lemma {:induction false} SkipToLocal(net: Net, idout: Id, from: Option<nat>, start: nat, dst: bv16, k: Option<nat>)
    requires net.Valid() && (from.Some? ==> from.value < |net.ifaces|)
    requires NextLocal(net, idout.dst, start, k)
    ensures net.LocalHops(idout, from, start, dst)
         == if k.None? then [] else net.LocalHops(idout, from, k.value, dst)
    decreases |net.ifaces| - start
  {
    hide Net.Local, Net.Excluded, Net.Broadcast;
    if start < |net.ifaces| && k != Some(start) {
      SkipToLocal(net, idout, from, start + 1, dst, k);
    }
  }

  /**
   A copy's id on its way along the local interfaces: the same but for a source of our own and the
   last destination given.
   */
  predicate LocalCopy(idout: Id, from: Option<nat>, copyId: Id) {
    && copyId == idout.(src := copyId.src, dst := copyId.dst)
    && (copyId.src == idout.src || (from.None? && idout.src == 0))
  }

  lemma LocalCopyStart(idout: Id, from: Option<nat>)
    ensures LocalCopy(idout, from, idout)
  {}

  function LocalCopyId(net: Net, idout: Id, from: Option<nat>, i: nat, copyId: Id): Id
    requires net.Valid() && i < |net.ifaces|
  {
    var sourced := if from.None? && idout.src == 0 then copyId.(src := net.ifaces[i].addr) else copyId;
    if net.Broadcast(i, idout.dst) then sourced.(dst := MaxNodeId(net.v)) else sourced
  }

  lemma LocalStep(net: Net, idout: Id, from: Option<nat>, start: nat, i: nat, copyId: Id)
    requires net.Valid() && (from.Some? ==> from.value < |net.ifaces|)
    requires NextLocal(net, idout.dst, start, Some(i)) && LocalCopy(idout, from, copyId)
    ensures var id := LocalCopyId(net, idout, from, i, copyId);
            && LocalCopy(idout, from, id)
            && net.LocalHops(idout, from, start, copyId.dst)
            == if net.Excluded(i, from) then net.LocalHops(idout, from, i + 1, copyId.dst)
               else [Hop(i, NO_VIA, id)] + net.LocalHops(idout, from, i + 1, id.dst)
  {
    hide Net.Local, Net.Excluded, Net.Broadcast;
    SkipToLocal(net, idout, from, start, copyId.dst, Some(i));
  }

  /** An interface before `start` is local. */
  ghost predicate LocalBelow(net: Net, dst: bv16, start: nat)
    requires net.Valid() && start <= |net.ifaces|
  {
    exists j :: 0 <= j < start && net.Local(j, dst)
  }

  lemma LocalBelowNone(net: Net, dst: bv16)
    requires net.Valid()
    ensures !LocalBelow(net, dst, 0)
  {}

  lemma LocalBelowStep(net: Net, dst: bv16, start: nat, i: nat)
    requires net.Valid() && NextLocal(net, dst, start, Some(i))
    ensures start <= i < |net.ifaces| && LocalBelow(net, dst, i + 1)
  {
    hide Net.Local;
  }

  lemma LocalBelowAll(net: Net, dst: bv16, start: nat)
    requires net.Valid() && start <= |net.ifaces| && NextLocal(net, dst, start, None)
    ensures net.AnyLocal(dst) == LocalBelow(net, dst, start)
  {
    hide Net.Local;
  }

  lemma JoinOne<T>(s: seq<T>, x: T, t: seq<T>)
    ensures s + ([x] + t) == s + [x] + t
  {}

  ghost predicate NextDefault(net: Net, start: nat, k: Option<nat>) {
    && (k.None? ==> forall j :: start <= j < |net.ifaces| ==> !net.ifaces[j].isDefault)
    && (k.Some? ==> start <= k.value < |net.ifaces| && net.ifaces[k.value].isDefault
                    && forall j :: start <= j < k.value ==> !net.ifaces[j].isDefault)
  }

  lemma {:induction false} SkipToDefault(net: Net, idout: Id, from: Option<nat>, start: nat, k: Option<nat>)
    requires net.Valid() && (from.Some? ==> from.value < |net.ifaces|)
    requires NextDefault(net, start, k)
    ensures net.DefaultHops(idout, from, start) == if k.None? then [] else net.DefaultHops(idout, from, k.value)
    decreases |net.ifaces| - start
  {
    hide Net.Excluded, Net.Sourced;
    if start < |net.ifaces| && k != Some(start) {
      SkipToDefault(net, idout, from, start + 1, k);
    }
  }

  lemma DefaultStep(net: Net, id: Id, from: Option<nat>, start: nat, i: nat)
    requires net.Valid() && (from.Some? ==> from.value < |net.ifaces|) && NextDefault(net, start, Some(i))
    ensures net.DefaultHops(id, from, start)
         == if net.Excluded(i, from) then net.DefaultHops(id, from, i + 1)
            else [Hop(i, NO_VIA, net.Sourced(id, from, i))] + net.DefaultHops(net.Sourced(id, from, i), from, i + 1)
    ensures start <= i < |net.ifaces|
  {
    hide Net.Excluded, Net.Sourced;
    SkipToDefault(net, id, from, start, Some(i));
  }

  /** The id the last copy had. */
  function LastId(idout: Id, hops: seq<Hop>): Id {
    if hops == [] then idout else hops[|hops| - 1].id
  }

  /** The copies still to be sent when the search backward has come to `cur`. */
  ghost function RoutesFrom(net: Net, id: Id, from: Option<nat>, cur: Option<nat>): seq<Hop>
    requires net.Valid() && (from.Some? ==> from.value < |net.ifaces|) && (cur.Some? ==> cur.value < |net.routes|)
  {
    if cur.None? then [] else net.RouteHops(id, from, Visited(net.routes, cur.value))
  }

  /** A copy for route `r` unless split horizon forbids it, then those from `prev` on. */
  ghost function AfterRoute(net: Net, id: Id, from: Option<nat>, r: Route, prev: Option<nat>): seq<Hop>
    requires net.Valid() && (from.Some? ==> from.value < |net.ifaces|) && (prev.Some? ==> prev.value < |net.routes|)
    requires r.iface < |net.ifaces|
  {
    if net.Excluded(r.iface, from) then RoutesFrom(net, id, from, prev)
    else
      var id' := net.Sourced(id, from, r.iface);
      [Hop(r.iface, r.via, id')] + RoutesFrom(net, id', from, prev)
  }

  function VisitedFrom(routes: seq<Route>, cur: Option<nat>): seq<nat>
    requires cur.Some? ==> cur.value < |routes|
  {
    if cur.None? then [] else Visited(routes, cur.value)
  }

  lemma VisitedStep(routes: seq<Route>, j: nat)
    requires j < |routes|
    ensures Visited(routes, j)[1..] == VisitedFrom(routes, PrevBelow(routes, routes[j], j))
  {
    assert Visited(routes, j) == [j] + VisitedFrom(routes, PrevBelow(routes, routes[j], j));
  }

  lemma RouteStep(net: Net, id: Id, from: Option<nat>, j: nat)
    requires net.Valid() && (from.Some? ==> from.value < |net.ifaces|) && j < |net.routes|
    ensures var r := net.routes[j];
            RoutesFrom(net, id, from, Some(j)) == AfterRoute(net, id, from, r, PrevBelow(net.routes, r, j))
  {
    hide Net.Excluded, Net.Sourced, Visited, PrevBelow;
    VisitedStep(net.routes, j);
    var visited := Visited(net.routes, j);
    NoRouteHops(net, id, from);
    NoRouteHops(net, net.Sourced(id, from, net.routes[j].iface), from);
  }

  lemma NoRouteHops(net: Net, id: Id, from: Option<nat>)
    requires net.Valid() && (from.Some? ==> from.value < |net.ifaces|)
    ensures net.RouteHops(id, from, []) == []
  {}

  lemma RoutesEnd(net: Net, id: Id, from: Option<nat>)
    requires net.Valid() && (from.Some? ==> from.value < |net.ifaces|)
    ensures RoutesFrom(net, id, from, None) == []
  {}

  lemma HopsByTier(net: Net, idout: Id, from: Option<nat>)
    requires net.Valid() && (from.Some? ==> from.value < |net.ifaces|)
    ensures net.Hops(idout, from)
         == if net.AnyLocal(idout.dst) then net.LocalHops(idout, from, 0, idout.dst)
            else
              var best := Best(net.v, net.routes, idout.dst);
              if best.Some? then RoutesFrom(net, idout, from, best) else net.DefaultHops(idout, from, 0)
    ensures !net.AnyLocal(idout.dst) ==> net.LocalHops(idout, from, 0, idout.dst) == []
    ensures RoutesFrom(net, idout, from, None) == []
  {
    hide Net.Excluded, Net.Local, Net.LocalHops, Net.RouteHops, Net.DefaultHops, Best;
    if !net.AnyLocal(idout.dst) {
      SkipToLocal(net, idout, from, 0, idout.dst, None);
    }
  }

  /** A search that found nothing has changed nothing that the next one depends on. */
  lemma SendingAfterNone(x: Books, y: Books, z: Books, rest: multiset<nat>, data: seq<byte>, fromMe: bool,
                         fates: seq<Fate>, hops': seq<Hop>, fates': seq<Fate>)
    requires Sending(x, y, rest, data, fromMe, [], fates) && Sending(y, z, rest, data, fromMe, hops', fates')
    requires |x.wire.fifo| <= CSP_QFIFO_LEN
    ensures Sending(x, z, rest, data, fromMe, hops', fates')
  {
    hide Out;
    NoneChanges(x.wire, y.wire, y.held, y.packets);
    assert x.held + rest <= y.held + rest;
  }

  /** The id `csp_sendto` puts on a packet, or none if it asks for something not compiled in. */
  function SendToId(id: Id, prio: bv8, dest: bv16, dport: bv8, sport: bv8, opts: bv32): Option<Id> {
    var flags := if opts & SO_SAME == 0 then 0 else id.flags;
    if opts & SO_RDPREQ != 0 || opts & SO_HMACREQ != 0 then None
    else Some(Id(prio, if opts & SO_CRC32REQ != 0 then flags | FCRC32 else flags, id.src, dest, dport, sport))
  }

  /** Where a packet is sent: its own node's address means the loopback interface. */
  function Directions(net: Net, idout: Id, from: Option<nat>): seq<Hop>
    requires net.Valid() && (from.Some? ==> from.value < |net.ifaces|)
  {
    if idout.dst == net.ifaces[net.lo].addr then [Hop(net.lo, NO_VIA, idout)] else net.Hops(idout, from)
  }

  /** The sender's id afterwards: routes and defaults leave in it the source they gave the last copy. */
  function IdAfter(net: Net, idout: Id, from: Option<nat>): Id
    requires net.Valid() && (from.Some? ==> from.value < |net.ifaces|)
  {
    if idout.dst == net.ifaces[net.lo].addr || net.AnyLocal(idout.dst) then idout
    else LastId(idout, Directions(net, idout, from))
  }

  // ----- what these mean -----

  /** What `csp_sendto` asks for: no RDP or authentication, a checksum if wanted, and the old flags only if wanted. */
  lemma SendToIdMeans(id: Id, prio: bv8, dest: bv16, dport: bv8, sport: bv8, opts: bv32)
    ensures var r := SendToId(id, prio, dest, dport, sport, opts);
            && (r.None? <==> opts & 0x0001 != 0 || opts & 0x0004 != 0)
            && (r.Some? ==>
                  && r.value.dst == dest && r.value.src == id.src && r.value.pri == prio
                  && r.value.dport == dport && r.value.sport == sport
                  && (opts & 0x0040 != 0 ==> r.value.flags & 0x01 != 0)
                  && r.value.flags & 0xFE == if opts & 0x8000 != 0 then id.flags & 0xFE else 0)
  {}

  /** What a node passes on for others it passes on as it is: no checksum is added, and nothing is refused. */
  lemma RelayedUnchanged(id: Id, data: seq<byte>)
    ensures FateOf(id, data, false) == Handed(Packet(id, data))
  {}

  lemma {:induction false} NothingToLoopback(lo: nat, hops: seq<Hop>, fates: seq<Fate>)
    requires |hops| == |fates| && forall i :: 0 <= i < |hops| ==> hops[i].iface == lo
    ensures Emissions(lo, hops, fates) == []
  {
    if hops != [] {
      NothingToLoopback(lo, hops[..|hops| - 1], fates[..|hops| - 1]);
    }
  }

  /** What a node sends to its own loopback address is given to no driver, whatever becomes of it. */
  lemma OwnAddressStaysInside(net: Net, idout: Id, from: Option<nat>, fates: seq<Fate>)
    requires net.Valid() && (from.Some? ==> from.value < |net.ifaces|)
    requires idout.dst == net.ifaces[net.lo].addr && |fates| == |Directions(net, idout, from)|
    ensures |Directions(net, idout, from)| == 1 && Directions(net, idout, from)[0].id == idout
    ensures Emissions(net.lo, Directions(net, idout, from), fates) == []
  {
    NothingToLoopback(net.lo, Directions(net, idout, from), fates);
  }

  /** Sending changes at most the source of the sender's id, and only if it had none: to that of the last copy. */
  lemma OnlySourceAfter(net: Net, idout: Id)
    requires net.Valid()
    ensures var id, hops := IdAfter(net, idout, None), Directions(net, idout, None);
            && id == idout.(src := id.src) && (idout.src != 0 ==> id == idout)
            && (id == idout || (hops != [] && id == hops[|hops| - 1].id))
  {
    hide Net.Hops, Net.AnyLocal;
    if idout.dst != net.ifaces[net.lo].addr && !net.AnyLocal(idout.dst) {
      PassedOn(net, idout);
      if idout.src != 0 {
        SourceKept(net, idout, None);
      }
    }
  }

  lemma PassedOn(net: Net, idout: Id)
    requires net.Valid() && !net.AnyLocal(idout.dst)
    ensures AllPassed(net.Hops(idout, None), idout)
  {
    hide Net.Excluded, Net.Local;
    var best := Best(net.v, net.routes, idout.dst);
    if best.Some? {
      RouteHopsContent(net, idout, None, Visited(net.routes, best.value));
    } else {
      DefaultHopsContent(net, idout, None, 0);
    }
  }
}
