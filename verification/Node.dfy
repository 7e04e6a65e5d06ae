/**
 The stack of one node: sending (csp_io.c), the router (csp_route.c) and its input queue
 (csp_qfifo.c), over the pool, the connections, the ports, the interfaces and the tables.
 The fields `app`, `drivers` and `handles` say what the node's surroundings hold, and `sent`
 what they were given, so that the books of the whole node can be kept.
 */
module Node {
  import opened Words
  import opened CspId
  import opened Packet
  import opened Crc32
  import opened BufferPool
  import opened Port
  import opened Conn
  import opened IfList
  import opened RouteTable
  import opened Dedup
  import opened Forward
  import opened Kiss
  import opened Outgoing
  import opened Router
  import opened Runs

  class Node {
    const version: Version
    const ifaces: seq<Iface>
    const lo: nat
    const pool: Pool
    const table: ConnTable
    const ports: PortTable
    const rtable: RoutingTable
    const ring: DedupRing
    const mode: DedupMode
    const defaultOpts: bv32
    var qfifo: seq<Input>
    var sockets: seq<Socket>
    /** Buffers the application has, with multiplicity. */
    var app: multiset<nat>
    /** Buffers the drivers have: taken for reception, or handed over for transmission. */
    var drivers: multiset<nat>
    /** Every packet ever given to a driver, in order. */
    var sent: seq<Sent>
    /** Connections the application has the handle of. */
    var handles: multiset<nat>

    ghost function Network(): Net
      requires rtable.Valid()
      reads rtable, rtable.rtable
    {
      Net(version, ifaces, lo, rtable.Routes())
    }

    /** Every reference to a buffer outside the pool, if the connections were these. */
    ghost function HeldWith(conns: seq<Conn>): multiset<nat>
      reads this
    {
      Total(FifoHeld(qfifo), RxHeld(conns), Queued(sockets, true), app, drivers)
    }

    ghost function Held(): multiset<nat>
      reads this, table
    {
      HeldWith(table.conns)
    }

    ghost function Line(): Wire
      reads this
    {
      Wire(lo, qfifo, drivers, sent)
    }

    ghost function Now(): Books
      reads this, table, pool
    {
      Books(|pool.free|, pool.packets, Held(), Line())
    }

    /** The tables the router looks things up in. */
    ghost predicate Tables()
      reads rtable, rtable.rtable, ring, ring.crcs, ring.stamps
    {
      rtable.Valid() && rtable.version == version && Network().Valid() && ring.Valid()
      && rtable.rtable as object != ring.crcs && rtable.rtable as object != ring.stamps
    }

    /** Every bound port leads to one of the `n` sockets. */
    ghost predicate BoundBelow(n: nat)
      reads ports
    {
      forall p :: ports.GetSocket(p).Some? ==> ports.GetSocket(p).value < n
    }

    /**
     Everything but the books, if the connections were these: queues within bounds, connections apart
     and quiet, one owner for each.
     */
    ghost predicate SteadyWith(conns: seq<Conn>)
      reads this, table, ports, rtable, rtable.rtable, ring, ring.crcs, ring.stamps
    {
      && Tables() && BoundBelow(|sockets|) && QueuesFit(qfifo, sockets, |ifaces|)
      && table.pool == pool && table.lastGiven < |conns| && Separated(conns) && Quiet(conns)
      && OneOwnerEach(conns, Queued(sockets, false) + handles)
    }

    ghost predicate Steady()
      reads this, table, ports, rtable, rtable.rtable, ring, ring.crcs, ring.stamps
    {
      SteadyWith(table.conns)
    }

    ghost predicate Valid()
      reads this, table, pool, ports, rtable, rtable.rtable, ring, ring.crcs, ring.stamps
    {
      Steady() && pool.Conserved(Held())
    }

    /** `csp_init`, with the application's sockets ready to be bound and nothing open or queued. */
    constructor (v: Version, ifaces: seq<Iface>, lo: nat, rtable: RoutingTable, connections: bv8, garbage: seq<nat>,
                 mode: DedupMode, defaultOpts: bv32, socketOpts: seq<bv32>)
      requires rtable.Valid() && rtable.version == v && Net(v, ifaces, lo, rtable.Routes()).Valid()
      requires 0 < connections <= 63 - CSP_PORT_MAX_BIND
      ensures Valid() && fresh({pool, table, ports, ring, ring.crcs, ring.stamps})
      ensures version == v && this.ifaces == ifaces && this.lo == lo && this.rtable == rtable
      ensures this.mode == mode && this.defaultOpts == defaultOpts
      ensures Held() == multiset{} && handles == multiset{} && |pool.free| == pool.size == |garbage| && !pool.shared
      ensures sockets == EmptySockets(socketOpts) && sent == []
    {
      hide Separated, Quiet, RxHeld, Queued, FifoHeld, Total, EmptySockets, Pool.Conserved, DedupRing.Valid;
      hide RoutingTable.Valid, Net.Valid, OneOwnerEach;
      this.version, this.ifaces, this.lo, this.rtable := v, ifaces, lo, rtable;
      this.mode, this.defaultOpts := mode, defaultOpts;
      var pool := new Pool(garbage);
      this.pool := pool;
      this.table := new ConnTable(pool, connections);
      this.ports := new PortTable();
      this.ring := new DedupRing();
      this.qfifo := [];
      this.sockets := EmptySockets(socketOpts);
      this.app, this.drivers, this.handles, this.sent := multiset{}, multiset{}, multiset{}, [];
      new;
      NothingQueued(socketOpts, true);
      NothingQueued(socketOpts, false);
      NobodyOwns(table.conns);
      NothingHeld();
    }

    // ----- out -----

    /** `csp_qfifo_write`: the packet waits for the router, or is freed for want of room or of an interface. */
    method QfifoWrite(packet: Option<nat>, iface: Option<nat>, ghost rest: multiset<nat>)
      requires Steady() && pool.Conserved(Held() + rest + Of(packet))
      requires iface.Some? ==> iface.value < |ifaces|
      modifies this`qfifo, pool`free, pool`refcount
      ensures Steady() && pool.Conserved(Held() + rest)
      ensures qfifo == if packet.Some? && iface.Some? && |old(qfifo)| < CSP_QFIFO_LEN
                       then old(qfifo) + [Input(iface.value, packet)] else old(qfifo)
      ensures |pool.free| >= old(|pool.free|) && old(Held()) <= Held()
      ensures qfifo != old(qfifo) ==> Held() == old(Held()) + Of(packet)
    {
      hide RxHeld, Queued, FifoHeld, Total, OneOwnerEach, Pool.Conserved, Separated, Quiet, Tables, BoundBelow;
      ghost var before := Held();
      if packet.None? {
        Nothing(before + rest);
        return;
      }
      InSum(before + rest, packet.value);
      if iface.None? {
        pool.Free(packet.value, before + rest + Of(packet));
        return;
      }
      if |qfifo| < CSP_QFIFO_LEN {
        Enqueued(Input(iface.value, packet), rest);
        qfifo := qfifo + [Input(iface.value, packet)];
      } else {
        pool.Free(packet.value, before + rest + Of(packet));
      }
    }

    lemma Enqueued(x: Input, rest: multiset<nat>)
      ensures var after := Total(FifoHeld(qfifo + [x]), RxHeld(table.conns), Queued(sockets, true), app, drivers);
              after == Held() + Of(x.packet) && Held() <= after && after + rest == Held() + rest + Of(x.packet)
    {
      hide RxHeld, Queued, FifoHeld, Total;
      FifoHeldPush(qfifo, x);
      TotalMore(FifoHeld(qfifo), RxHeld(table.conns), Queued(sockets, true), app, drivers, Of(x.packet));
      PassOn(Held(), rest, Of(x.packet));
      AddBack(Held(), Of(x.packet));
    }

    /** `csp_qfifo_wake_up`. */
    method QfifoWakeUp()
      requires Valid() && |ifaces| > 0
      modifies this`qfifo
      ensures Valid() && Held() == old(Held())
      ensures qfifo == if |old(qfifo)| < CSP_QFIFO_LEN then old(qfifo) + [Input(0, None)] else old(qfifo)
    {
      hide RxHeld, Queued, FifoHeld, Total, OneOwnerEach, Pool.Conserved, Separated, Quiet, Tables, BoundBelow;
      if |qfifo| < CSP_QFIFO_LEN {
        Enqueued(Input(0, None), multiset{});
        Nothing(Held());
        qfifo := qfifo + [Input(0, None)];
      }
    }

    /** `csp_send_direct_iface`: the packet as it should be goes to the interface, unless that is impossible. */
    method SendIface(idout: Id, b: nat, k: nat, via: bv16, fromMe: bool, ghost rest: multiset<nat>) returns (fate: Fate)
      requires Steady() && pool.Conserved(Held() + rest + multiset{b}) && b < |pool.packets| && k < |ifaces|
      modifies this`qfifo, this`drivers, this`sent, pool`free, pool`refcount, pool`packets
      ensures Steady() && pool.Conserved(Held() + rest)
      ensures fate == FateOf(idout, old(pool.packets)[b].data, fromMe)
      ensures |pool.packets| == old(|pool.packets|)
      ensures pool.packets == old(pool.packets)[b := pool.packets[b]]
      ensures Out(old(Line()), Line(), [Hop(k, via, idout)], [fate], Held(), pool.packets)
      ensures |pool.free| >= old(|pool.free|) && old(Held()) <= Held()
    {
      hide Held, Steady, Pool.Conserved, WithCrc, Out;
      ghost var held, wire, h := Held() + rest + multiset{b}, Line(), Hop(k, via, idout);
      RoomBound();
      InSum(Held() + rest, b);
      var data := pool.packets[b].data;
      pool.Write(b, Packet(idout, data), held);
      if fromMe {
        if idout.flags & FHMAC != 0 {
          pool.Free(b, held);
          NotHandedOut(wire, h, Refused, Held(), pool.packets);
          return Refused;
        }
        if idout.flags & FCRC32 != 0 {
          if |data| + 4 > CSP_BUFFER_SIZE {
            pool.Free(b, held);
            NotHandedOut(wire, h, Refused, Held(), pool.packets);
            return Refused;
          }
          pool.Write(b, Packet(idout, WithCrc(data)), held);
        }
      }
      fate := Handed(pool.packets[b]);
      Transmit(Hop(k, via, idout), b, rest);
    }

    lemma RoomBound()
      requires Steady()
      ensures |qfifo| <= CSP_QFIFO_LEN
    {}

    method ToDrivers(b: nat, ghost rest: multiset<nat>)
      requires Steady() && pool.Conserved(Held() + rest + multiset{b})
      modifies this`drivers
      ensures Steady() && pool.Conserved(Held() + rest)
      ensures drivers == old(drivers) + multiset{b} && old(Held()) <= Held()
    {
      hide RxHeld, Queued, FifoHeld, Total, OneOwnerEach, Pool.Conserved, Separated, Quiet, Tables;
      hide BoundBelow, QueuesFit;
      TotalMore(FifoHeld(qfifo), RxHeld(table.conns), Queued(sockets, true), app, drivers, multiset{b});
      PassOn(Held(), rest, multiset{b});
      AddBack(Held(), multiset{b});
      drivers := drivers + multiset{b};
    }

    /**
     The interface's `nexthop`: the loopback interface queues for the router, another driver may take
     the packet or not.
     */
    method Transmit(h: Hop, b: nat, ghost rest: multiset<nat>)
      requires Steady() && pool.Conserved(Held() + rest + multiset{b}) && h.iface < |ifaces| && b < |pool.packets|
      modifies this`qfifo, this`drivers, this`sent, pool`free, pool`refcount
      ensures Steady() && pool.Conserved(Held() + rest)
      ensures Out(old(Line()), Line(), [h], [Handed(pool.packets[b])], Held(), pool.packets)
      ensures |pool.free| >= old(|pool.free|) && old(Held()) <= Held()
    {
      hide RxHeld, Queued, FifoHeld, Total, OneOwnerEach, Pool.Conserved, Separated, Quiet, Tables, BoundBelow, Out;
      ghost var before, wire := Held(), Line();
      if h.iface == lo {
        QfifoWrite(Some(b), Some(lo), rest);
        LoopbackOut(wire, h, b, Held(), pool.packets);
      } else {
        var taken: bool := *;
        sent := sent + [Sent(Emission(h.iface, h.via, pool.packets[b]), if taken then Some(b) else None)];
        if taken {
          ToDrivers(b, rest);
        } else {
          InSum(before + rest, b);
          pool.Free(b, before + rest + multiset{b});
        }
        DriverOut(wire, h, pool.packets[b], if taken then Some(b) else None, Held(), pool.packets);
      }
    }

    /** One copy of the packet on its way, if there is a buffer for it. */
    method SendCopy(idout: Id, b: nat, k: nat, via: bv16, fromMe: bool, ghost rest: multiset<nat>) returns (fate: Fate)
      requires Steady() && pool.Conserved(Held() + rest) && b in rest && b < |pool.packets| && k < |ifaces|
      modifies this`qfifo, this`drivers, this`sent, pool`free, pool`refcount, pool`packets
      ensures Steady() && pool.Conserved(Held() + rest)
      ensures Sending(old(Now()), Now(), rest, old(pool.packets)[b].data, fromMe, [Hop(k, via, idout)], [fate])
    {
      hide Steady, Held, Pool.Conserved, FateOf, Out, Sending;
      ghost var before, data, h := Now(), pool.packets[b].data, Hop(k, via, idout);
      RoomBound();
      InRight(Held(), rest, b);
      var copy := pool.Clone(b, Held() + rest);
      if copy.None? {
        OneMissed(before, rest, data, fromMe, h);
        return NoBuffer;
      }
      fate := SendIface(idout, copy.value, k, via, fromMe, rest);
      OneSent(before, Now(), copy.value, rest, data, fromMe, h, fate);
    }

    /** One more copy after those already sent. */
    method SendNext(h: Hop, b: nat, fromMe: bool, ghost rest: multiset<nat>,
                    ghost before: Books, ghost data: seq<byte>, ghost hops: seq<Hop>, ghost fates: seq<Fate>)
      returns (fate: Fate)
      requires Steady() && pool.Conserved(Held() + rest) && b in rest && h.iface < |ifaces|
      requires b < |before.packets| && data == before.packets[b].data
      requires Sending(before, Now(), rest, data, fromMe, hops, fates)
      modifies this`qfifo, this`drivers, this`sent, pool`free, pool`refcount, pool`packets
      ensures Steady() && pool.Conserved(Held() + rest)
      ensures Sending(before, Now(), rest, data, fromMe, hops + [h], fates + [fate])
    {
      hide Steady, Held, Pool.Conserved, Sending;
      SentData(before, Now(), rest, data, fromMe, hops, fates, b);
      ghost var between := Now();
      fate := SendCopy(h.id, b, h.iface, h.via, fromMe, rest);
      SendingMore(before, between, Now(), rest, data, fromMe, hops, fates, h, fate);
    }

    ghost predicate Arrived(from: Option<nat>)
    {
      from.Some? ==> from.value < |ifaces|
    }

    lemma TablesHold()
      requires Steady()
      ensures rtable.Valid() && rtable.version == version && Network().Valid()
      ensures |rtable.Routes()| == rtable.inptr <= rtable.rtable.Length
      ensures IfList.WellFormed(version, ifaces) && lo < |ifaces|
      ensures rtable.rtable as object != ring.crcs && rtable.rtable as object != ring.stamps
      ensures forall i :: 0 <= i < rtable.inptr ==>
                rtable.rtable[i] == rtable.Routes()[i] && rtable.rtable[i].iface < |ifaces|
    {}

    /** Split horizon. */
    predicate Skips(k: nat, from: Option<nat>)
      requires IfList.WellFormed(version, ifaces) && k < |ifaces| && (from.Some? ==> from.value < |ifaces|)
    {
      from.Some? && (k == from.value || WithinSubnet(version, ifaces[k].addr, ifaces[from.value]))
    }

    method SearchLocal(dst: bv16, after: Option<nat>) returns (k: Option<nat>)
      requires Steady()
      ensures rtable.Valid() && Network().Valid()
      ensures NextLocal(Network(), dst, if after.None? then 0 else after.value + 1, k)
    {
      hide Steady, WithinSubnet, RoutingTable.Valid, Net.Valid;
      TablesHold();
      k := GetBySubnet(version, ifaces, dst, after);
    }

    /** One turn of the first loop: interface `i` gets a copy unless split horizon forbids it. */
    method LocalTurn(idout: Id, b: nat, from: Option<nat>, i: nat, copyId: Id, sent: seq<Hop>, sentFates: seq<Fate>,
                     ghost rest: multiset<nat>, ghost before: Books, ghost data: seq<byte>)
      returns (id: Id, hops: seq<Hop>, fates: seq<Fate>)
      requires Steady() && pool.Conserved(Held() + rest) && b in rest && i < |ifaces| && Arrived(from)
      requires b < |before.packets| && data == before.packets[b].data
      requires Sending(before, Now(), rest, data, from.None?, sent, sentFates)
      modifies this`qfifo, this`drivers, this`sent, pool`free, pool`refcount, pool`packets
      ensures Steady() && pool.Conserved(Held() + rest) && rtable.Valid() && Network().Valid()
      ensures Sending(before, Now(), rest, data, from.None?, hops, fates)
      ensures id == if Network().Excluded(i, from) then copyId else LocalCopyId(Network(), idout, from, i, copyId)
      ensures hops == if Network().Excluded(i, from) then sent else sent + [Hop(i, NO_VIA, id)]
    {
      hide Steady, Held, Pool.Conserved, Sending, RoutingTable.Valid, Net.Valid, Skips, MaxNodeId;
      hide Net.Excluded, Net.Broadcast, WithinSubnet, IsBroadcast;
      TablesHold();
      SameTests(idout.dst, from);
      id, hops, fates := copyId, sent, sentFates;
      if !Skips(i, from) {
        if from.None? && idout.src == 0 {
          id := id.(src := ifaces[i].addr);
        }
        if IsBroadcast(version, idout.dst, ifaces[i]) {
          id := id.(dst := MaxNodeId(version));
        }
        var fate := SendNext(Hop(i, NO_VIA, id), b, from.None?, rest, before, data, sent, sentFates);
        hops, fates := sent + [Hop(i, NO_VIA, id)], sentFates + [fate];
      }
    }

    /** The first loop of `csp_send_direct`; `found` tells whether there is any local interface, even a skipped one. */
    method SendLocal(idout: Id, b: nat, from: Option<nat>, ghost rest: multiset<nat>)
      returns (found: bool, hops: seq<Hop>, fates: seq<Fate>)
      requires Steady() && pool.Conserved(Held() + rest) && b in rest && b < |pool.packets| && Arrived(from)
      modifies this`qfifo, this`drivers, this`sent, pool`free, pool`refcount, pool`packets
      ensures Steady() && pool.Conserved(Held() + rest) && rtable.Valid() && Network().Valid()
      ensures found == Network().AnyLocal(idout.dst) && hops == Network().LocalHops(idout, from, 0, idout.dst)
      ensures Sending(old(Now()), Now(), rest, old(pool.packets)[b].data, from.None?, hops, fates)
    {
      hide Steady, Held, Pool.Conserved, Sending, RoutingTable.Valid, Net.Valid, Net.Local, Net.Excluded, Net.LocalHops;
      hide LocalCopy, LocalCopyId, NextLocal, LocalBelow;
      TablesHold();
      RoomBound();
      ghost var net, data, before := Network(), pool.packets[b].data, Now();
      found, hops, fates := false, [], [];
      SendingNone(before, rest, data, from.None?);
      var id := idout;
      LocalCopyStart(idout, from);
      LocalBelowNone(net, idout.dst);
      ghost var start := 0;
      var k := SearchLocal(idout.dst, None);
      while k.Some?
        invariant Steady() && pool.Conserved(Held() + rest)
        invariant start <= |ifaces| && NextLocal(net, idout.dst, start, k) && LocalCopy(idout, from, id)
        invariant found <==> LocalBelow(net, idout.dst, start)
        invariant hops + net.LocalHops(idout, from, start, id.dst) == net.LocalHops(idout, from, 0, idout.dst)
        invariant Sending(before, Now(), rest, data, from.None?, hops, fates)
        decreases |ifaces| - start
      {
        LocalStep(net, idout, from, start, k.value, id);
        LocalBelowStep(net, idout.dst, start, k.value);
        found := true;
        start := k.value + 1;
        ghost var sent := hops;
        id, hops, fates := LocalTurn(idout, b, from, k.value, id, hops, fates, rest, before, data);
        JoinOne(sent, Hop(k.value, NO_VIA, id), net.LocalHops(idout, from, start, id.dst));
        k := SearchLocal(idout.dst, k);
      }
      SkipToLocal(net, idout, from, start, id.dst, k);
      LocalBelowAll(net, idout.dst, start);
    }

    /** One turn of the other loops: the source a packet of our own gets here stays. */
    method StickyTurn(idout: Id, b: nat, from: Option<nat>, i: nat, via: bv16, sent: seq<Hop>, sentFates: seq<Fate>,
                      ghost rest: multiset<nat>, ghost before: Books, ghost data: seq<byte>)
      returns (id: Id, hops: seq<Hop>, fates: seq<Fate>)
      requires Steady() && pool.Conserved(Held() + rest) && b in rest && i < |ifaces| && Arrived(from)
      requires b < |before.packets| && data == before.packets[b].data
      requires Sending(before, Now(), rest, data, from.None?, sent, sentFates)
      modifies this`qfifo, this`drivers, this`sent, pool`free, pool`refcount, pool`packets
      ensures Steady() && pool.Conserved(Held() + rest) && rtable.Valid() && Network().Valid()
      ensures Sending(before, Now(), rest, data, from.None?, hops, fates)
      ensures id == if Network().Excluded(i, from) then idout else Network().Sourced(idout, from, i)
      ensures hops == if Network().Excluded(i, from) then sent else sent + [Hop(i, via, id)]
    {
      hide Steady, Held, Pool.Conserved, Sending, RoutingTable.Valid, Net.Valid, Skips;
      hide Net.Excluded, Net.Broadcast, WithinSubnet, IsBroadcast;
      TablesHold();
      SameTests(idout.dst, from);
      id, hops, fates := idout, sent, sentFates;
      if !Skips(i, from) {
        if from.None? && idout.src == 0 {
          id := id.(src := ifaces[i].addr);
        }
        var fate := SendNext(Hop(i, via, id), b, from.None?, rest, before, data, sent, sentFates);
        hops, fates := sent + [Hop(i, via, id)], sentFates + [fate];
      }
    }

    method SearchBack(j: nat) returns (prev: Option<nat>)
      requires Steady() && rtable.Valid() && j < |rtable.Routes()|
      ensures prev == PrevBelow(rtable.Routes(), rtable.Routes()[j], j)
      ensures prev.Some? ==> prev.value < j
    {
      hide Steady, RoutingTable.Valid, PrevBelow;
      TablesHold();
      prev := rtable.SearchBackward(j);
    }

    /** The second loop of `csp_send_direct`. */
    method SendRouted(idout: Id, b: nat, from: Option<nat>, ghost rest: multiset<nat>)
      returns (found: bool, id: Id, hops: seq<Hop>, fates: seq<Fate>)
      requires Steady() && pool.Conserved(Held() + rest) && b in rest && b < |pool.packets| && Arrived(from)
      modifies this`qfifo, this`drivers, this`sent, pool`free, pool`refcount, pool`packets
      ensures Steady() && pool.Conserved(Held() + rest) && rtable.Valid() && Network().Valid()
      ensures found == Best(version, rtable.Routes(), idout.dst).Some?
      ensures hops == RoutesFrom(Network(), idout, from, Best(version, rtable.Routes(), idout.dst))
      ensures id == LastId(idout, hops)
      ensures Sending(old(Now()), Now(), rest, old(pool.packets)[b].data, from.None?, hops, fates)
    {
      hide Steady, Held, Pool.Conserved, Sending, RoutingTable.Valid, Net.Valid, Net.Excluded, Net.Sourced;
      hide RoutesFrom, Best;
      TablesHold();
      RoomBound();
      ghost var net, data, before := Network(), pool.packets[b].data, Now();
      hops, fates, id := [], [], idout;
      SendingNone(before, rest, data, from.None?);
      var cur: Option<nat> := rtable.FindRoute(idout.dst);
      ghost var best: Option<nat> := cur;
      found := cur.Some?;
      while cur.Some?
        invariant Steady() && pool.Conserved(Held() + rest) && (cur.Some? ==> cur.value < rtable.inptr)
        invariant hops + RoutesFrom(net, id, from, cur) == RoutesFrom(net, idout, from, best)
        invariant id == LastId(idout, hops)
        invariant Sending(before, Now(), rest, data, from.None?, hops, fates)
        decreases if cur.Some? then cur.value + 1 else 0
      {
        var r := rtable.rtable[cur.value];
        RouteStep(net, id, from, cur.value);
        ghost var sent := hops;
        id, hops, fates := StickyTurn(id, b, from, r.iface, r.via, hops, fates, rest, before, data);
        cur := SearchBack(cur.value);
        JoinOne(sent, Hop(r.iface, r.via, id), RoutesFrom(net, id, from, cur));
      }
      RoutesEnd(net, id, from);
    }

    method SearchDefault(after: Option<nat>) returns (k: Option<nat>)
      requires Steady()
      ensures rtable.Valid() && NextDefault(Network(), if after.None? then 0 else after.value + 1, k)
    {
      hide Steady, RoutingTable.Valid;
      TablesHold();
      k := GetByDefault(ifaces, after);
    }

    /** The third loop of `csp_send_direct`. */
    method SendDefault(idout: Id, b: nat, from: Option<nat>, ghost rest: multiset<nat>)
      returns (id: Id, hops: seq<Hop>, fates: seq<Fate>)
      requires Steady() && pool.Conserved(Held() + rest) && b in rest && b < |pool.packets| && Arrived(from)
      modifies this`qfifo, this`drivers, this`sent, pool`free, pool`refcount, pool`packets
      ensures Steady() && pool.Conserved(Held() + rest) && rtable.Valid() && Network().Valid()
      ensures hops == Network().DefaultHops(idout, from, 0) && id == LastId(idout, hops)
      ensures Sending(old(Now()), Now(), rest, old(pool.packets)[b].data, from.None?, hops, fates)
    {
      hide Steady, Held, Pool.Conserved, Sending, RoutingTable.Valid, Net.Valid, Net.Excluded, Net.Sourced;
      hide Net.DefaultHops, NextDefault;
      TablesHold();
      RoomBound();
      ghost var net, data, before := Network(), pool.packets[b].data, Now();
      hops, fates, id := [], [], idout;
      SendingNone(before, rest, data, from.None?);
      ghost var start := 0;
      var k := SearchDefault(None);
      while k.Some?
        invariant Steady() && pool.Conserved(Held() + rest)
        invariant start <= |ifaces| && NextDefault(net, start, k)
        invariant hops + net.DefaultHops(id, from, start) == net.DefaultHops(idout, from, 0)
        invariant id == LastId(idout, hops)
        invariant Sending(before, Now(), rest, data, from.None?, hops, fates)
        decreases |ifaces| - start
      {
        DefaultStep(net, id, from, start, k.value);
        start := k.value + 1;
        ghost var sent := hops;
        id, hops, fates := StickyTurn(id, b, from, k.value, NO_VIA, hops, fates, rest, before, data);
        JoinOne(sent, Hop(k.value, NO_VIA, id), net.DefaultHops(id, from, start));
        k := SearchDefault(k);
      }
      SkipToDefault(net, id, from, start, k);
    }

    /** The three loops, one after the other until one finds something. */
    method SendCopies(idout: Id, b: nat, from: Option<nat>, ghost rest: multiset<nat>)
      returns (id: Id, hops: seq<Hop>, fates: seq<Fate>)
      requires Steady() && pool.Conserved(Held() + rest) && b in rest && b < |pool.packets| && Arrived(from)
      modifies this`qfifo, this`drivers, this`sent, pool`free, pool`refcount, pool`packets
      ensures Steady() && pool.Conserved(Held() + rest) && rtable.Valid() && Network().Valid()
      ensures hops == Network().Hops(idout, from)
      ensures id == if Network().AnyLocal(idout.dst) then idout else LastId(idout, hops)
      ensures Sending(old(Now()), Now(), rest, old(pool.packets)[b].data, from.None?, hops, fates)
    {
      hide Steady, Held, Pool.Conserved, RoutingTable.Valid, Net.Valid, Best, Sending, RoutesFrom;
      hide Net.AnyLocal, Net.Hops, LastId;
      TablesHold();
      RoomBound();
      ghost var data := pool.packets[b].data;
      ghost var first := Now();
      HopsByTier(Network(), idout, from);
      var found: bool;
      id := idout;
      found, hops, fates := SendLocal(idout, b, from, rest);
      if found {
        return;
      }
      ghost var second, none := Now(), fates;
      SentData(first, second, rest, data, from.None?, [], none, b);
      found, id, hops, fates := SendRouted(idout, b, from, rest);
      SendingAfterNone(first, second, Now(), rest, data, from.None?, none, hops, fates);
      if found {
        return;
      }
      ghost var third := Now();
      none := fates;
      SentData(first, third, rest, data, from.None?, [], none, b);
      id, hops, fates := SendDefault(idout, b, from, rest);
      SendingAfterNone(first, third, Now(), rest, data, from.None?, none, hops, fates);
    }

    /**
     `csp_send_direct`: the packet is copied for every direction, each copy fares as its id and
     the data say, and the original is released once. The caller's id may keep a source.
     */
    method SendDirect(idout: Id, b: nat, from: Option<nat>, ghost rest: multiset<nat>)
      returns (id: Id, hops: seq<Hop>, fates: seq<Fate>)
      requires Steady() && pool.Conserved(Held() + rest + multiset{b}) && b < |pool.packets| && Arrived(from)
      modifies this`qfifo, this`drivers, this`sent, pool`free, pool`refcount, pool`packets
      ensures Steady() && pool.Conserved(Held() + rest) && rtable.Valid() && Network().Valid()
      ensures hops == Directions(Network(), idout, from) && id == IdAfter(Network(), idout, from)
      ensures Dispatched(old(Now()), Now(), rest, b, old(pool.packets)[b].data, from.None?, hops, fates)
    {
      hide Steady, Held, Pool.Conserved, RoutingTable.Valid, Net.Valid, FateOf, Net.Hops, Net.AnyLocal;
      hide LastId, Sending, Dispatched, Out;
      TablesHold();
      RoomBound();
      ghost var before, data := Now(), pool.packets[b].data;
      if idout.dst == ifaces[lo].addr {
        var fate := SendIface(idout, b, lo, NO_VIA, from.None?, rest);
        OriginalDispatched(before, Now(), rest, b, data, from.None?, Hop(lo, NO_VIA, idout));
        return idout, [Hop(lo, NO_VIA, idout)], [fate];
      }
      InSum(rest, b);
      Regroup(Held(), rest, multiset{b});
      id, hops, fates := SendCopies(idout, b, from, rest + multiset{b});
      ghost var between := Now();
      Regroup(Held(), rest, multiset{b});
      InSum(Held() + rest, b);
      pool.Free(b, Held() + rest + multiset{b});
      CopiesDispatched(before, between, Now(), rest, b, data, from.None?, hops, fates);
    }

    /** The tests the loops make are those the specification makes. */
    lemma SameTests(dst: bv16, from: Option<nat>)
      requires rtable.Valid() && Network().Valid() && Arrived(from) && IfList.WellFormed(version, ifaces)
      ensures forall k :: 0 <= k < |ifaces| ==>
                && Skips(k, from) == Network().Excluded(k, from)
                && IsBroadcast(version, dst, ifaces[k]) == Network().Broadcast(k, dst)
                && IsLocal(version, dst, ifaces[k]) == Network().Local(k, dst)
    {}

    // ----- in -----

    ghost function State(): World
      reads this, table
    {
      World(table.conns, sockets, app, drivers, handles, sent)
    }

    /** The whole node at this moment. */
    ghost function Snap(): Snapshot
      reads this, table, pool, ports, ring
    {
      Snapshot(State(), qfifo, pool.packets, |pool.free|, ports.Table(), ring.history, pool.shared)
    }

    ghost function Setup(): Setting
      requires rtable.Valid()
      reads rtable, rtable.rtable
    {
      Setting(Network(), mode, defaultOpts)
    }

    /**
     `csp_route_security_check`: a flagged packet passes if one of the two checksums matches and
     loses its checksum; another passes, as it is, unless a checksum is demanded.
     */
    method SecurityCheck(b: nat, opts: bv32) returns (ok: bool)
      requires Steady() && pool.Conserved(Held() + multiset{b}) && b < |pool.packets|
      modifies pool`packets
      ensures Steady() && pool.Conserved(Held() + multiset{b})
      ensures ok == Checked(version, opts, old(pool.packets)[b]).Some?
      ensures pool.packets == if ok then old(pool.packets)[b := Checked(version, opts, old(pool.packets)[b]).value]
                              else old(pool.packets)
    {
      hide Steady, Held, Pool.Conserved, Crc32c, Be32, Header;
      var p := pool.packets[b];
      if p.id.flags & FCRC32 == 0 {
        return opts & SO_CRC32REQ == 0;
      }
      if |p.data| < 4 {
        return false;
      }
      var body, tag := p.data[..|p.data| - 4], p.data[|p.data| - 4..];
      ok := EitherChecksum(Header(version, p.id) + body, body, tag);
      if !ok {
        return false;
      }
      Overwrite(b, p.(data := body));
      return true;
    }

    method Overwrite(b: nat, p: Packet)
      requires Steady() && pool.Conserved(Held() + multiset{b})
      modifies pool`packets
      ensures Steady() && pool.Conserved(Held() + multiset{b})
      ensures b < |old(pool.packets)| && pool.packets == old(pool.packets)[b := p]
    {
      hide Steady, Held, Pool.Conserved;
      InSum(Held(), b);
      pool.Write(b, p, Held() + multiset{b});
    }

    method Drop(b: nat)
      requires Steady() && pool.Conserved(Held() + multiset{b})
      modifies pool`free, pool`refcount
      ensures Valid()
    {
      hide Steady, Held, Pool.Conserved;
      InSum(Held(), b);
      pool.Free(b, Held() + multiset{b});
    }

    /** A packet for a connection-less socket. */
    method QueueForSocket(b: nat, s: nat) returns (ok: bool)
      requires Steady() && pool.Conserved(Held() + multiset{b}) && s < |sockets| && sockets[s].ConnLess()
      modifies this`sockets, pool`free, pool`refcount
      ensures Valid()
      ensures ok == (|old(sockets)[s].queue| < CSP_CONN_RXQUEUE_LEN)
      ensures sockets == if ok then Posted(old(sockets), s, b) else old(sockets)
    {
      hide RxHeld, Queued, FifoHeld, Total, OneOwnerEach, Pool.Conserved, Separated, Quiet, Tables, BoundBelow;
      ok := |sockets[s].queue| < CSP_CONN_RXQUEUE_LEN;
      if ok {
        QueuedPosted(sockets, s, b, true);
        QueuedPosted(sockets, s, b, false);
        Nothing(Queued(sockets, false));
        TotalMore(FifoHeld(qfifo), RxHeld(table.conns), Queued(sockets, true), app, drivers, multiset{b});
        sockets := Posted(sockets, s, b);
      } else {
        Drop(b);
      }
    }

    /** `csp_conn_enqueue_packet` on a connection that is open. */
    method QueueForConn(b: nat, i: nat) returns (ok: bool)
      requires Steady() && pool.Conserved(Held() + multiset{b}) && i < |table.conns| && table.conns[i].open
      modifies table, pool`free, pool`refcount
      ensures Valid()
      ensures ok == (|old(table.conns)[i].rx| < CSP_CONN_RXQUEUE_LEN)
      ensures table.conns == if ok then old(table.conns)[i := old(table.conns)[i].(rx := old(table.conns)[i].rx + [b])]
                             else old(table.conns)
    {
      hide RxHeld, Queued, FifoHeld, Total, OneOwnerEach, Pool.Conserved, Separated, Quiet, Tables;
      hide BoundBelow, QueuesFit;
      ok := |table.conns[i].rx| < CSP_CONN_RXQUEUE_LEN;
      if ok {
        var c := table.conns[i].(rx := table.conns[i].rx + [b]);
        OpenWaitsForNone(table.conns, i);
        SameKeepsSeparated(table.conns, i, c);
        UpdateKeepsQuiet(table.conns, i, c);
        RxHeldPush(table.conns, i, b);
        SameOwners(table.conns, Queued(sockets, false) + handles, i, c);
        TotalMore(FifoHeld(qfifo), RxHeld(table.conns), Queued(sockets, true), app, drivers, multiset{b});
        table.conns := table.conns[i := c];
      } else {
        Drop(b);
      }
    }

    /** A connection for a new peer, with its first packet in it. */
    method Create(b: nat, id: Id, s: nat) returns (r: Option<nat>)
      requires Steady() && pool.Conserved(Held() + multiset{b}) && s < |sockets|
      modifies table, pool`free, pool`refcount
      ensures SteadyWith(old(table.conns)) && pool.Conserved(HeldWith(old(table.conns)) + multiset{b})
      ensures r.None? <==> forall i :: 0 <= i < |old(table.conns)| ==> old(table.conns)[i].open
      ensures r.None? ==> table.conns == old(table.conns)
      ensures r.Some? ==>
                && r.value < |old(table.conns)| && !old(table.conns)[r.value].open
                && var c := Opened(old(table.conns)[r.value], id, sockets[s].opts).(rx := [b], dest := Some(s));
                   table.conns == old(table.conns)[r.value := c]
    {
      hide RxHeld, Queued, FifoHeld, Total, OneOwnerEach, Pool.Conserved, Separated, Quiet, Tables;
      hide BoundBelow, QueuesFit;
      ghost var before := table.conns;
      ClosedAreEmpty(before);
      r := table.New(id, Swapped(id), Server, Held() + multiset{b});
      if r.Some? {
        var i := r.value;
        table.conns := table.conns[i := table.conns[i].(dest := Some(s), opts := sockets[s].opts)];
        assert table.conns[i].rx == [];
        table.conns := table.conns[i := table.conns[i].(rx := table.conns[i].rx + [b])];
        ghost var c := Opened(before[i], id, sockets[s].opts).(rx := [b], dest := Some(s));
        assert table.conns[i] == c;
        assert table.conns == before[i := c];
      }
    }

    /** The new connection goes into the accept queue, if there is room, and will not go there again. */
    method Post(i: nat, s: nat, b: nat, ghost before: seq<Conn>)
      requires SteadyWith(before) && pool.Conserved(HeldWith(before) + multiset{b})
      requires i < |before| && !before[i].open && before[i].rx == [] && i < |table.conns|
      requires table.conns == before[i := table.conns[i]] && table.conns[i].open && table.conns[i].rx == [b]
      requires s < |sockets| && !sockets[s].ConnLess() && |sockets[s].queue| < CSP_CONN_RXQUEUE_LEN
      requires Separated(before[i := table.conns[i].(dest := None)])
      modifies table`conns, this`sockets
      ensures Valid()
      ensures sockets == Posted(old(sockets), s, i)
      ensures table.conns == before[i := old(table.conns)[i].(dest := None)]
    {
      hide RxHeld, Queued, FifoHeld, Total, OneOwnerEach, Pool.Conserved, Separated, Quiet, Tables, BoundBelow;
      ghost var c := table.conns[i].(dest := None);
      UpdateKeepsQuiet(before, i, c);
      RxHeldFirst(before, i, c, b);
      OpenedHasOwner(before, Queued(sockets, false) + handles, i, c);
      QueuedPosted(sockets, s, i, true);
      QueuedPosted(sockets, s, i, false);
      Nothing(Queued(sockets, true));
      PassOn(Queued(sockets, false), handles, multiset{i});
      TotalMore(FifoHeld(qfifo), RxHeld(before), Queued(sockets, true), app, drivers, multiset{b});
      sockets := Posted(sockets, s, i);
      table.conns := table.conns[i := table.conns[i].(dest := None)];
      assert table.conns == before[i := c];
    }

    /** The new connection does not fit in: it is closed again, and its packet freed. */
    method CloseNew(i: nat, b: nat, ghost before: seq<Conn>)
      requires SteadyWith(before) && pool.Conserved(HeldWith(before) + multiset{b})
      requires i < |before| && !before[i].open && before[i].rx == []
      requires i < |table.conns| && before[i].sport == table.conns[i].sport
      requires table.conns == before[i := table.conns[i]] && table.conns[i].open && table.conns[i].rx == [b]
      modifies table`conns, pool`free, pool`refcount
      ensures Valid()
      ensures table.conns == before[i := old(table.conns)[i].(open := false, rx := [])]
    {
      hide RxHeld, Queued, FifoHeld, Total, OneOwnerEach, Pool.Conserved, Separated, Quiet, Tables;
      hide BoundBelow, QueuesFit;
      ghost var c := table.conns[i].(open := false, rx := []);
      CloseKeepsSeparated(before, i, c);
      UpdateKeepsQuiet(before, i, c);
      RxHeldSame(before, i, c);
      SameOwners(before, Queued(sockets, false) + handles, i, c);
      InSum(HeldWith(before), b);
      assert multiset(table.conns[i].rx) == multiset{b};
      table.Close(i, HeldWith(before) + multiset{b});
      assert table.conns == before[i := c];
    }

    /** A new connection with its first packet, offered to the socket once or closed again. */
    method Admit(b: nat, id: Id, s: nat) returns (verdict: Verdict)
      requires Steady() && pool.Conserved(Held() + multiset{b}) && s < |sockets| && !sockets[s].ConnLess()
      requires id.dport <= CSP_PORT_MAX_BIND && forall i :: 0 <= i < |table.conns| ==> !Matches(table.conns[i], id)
      modifies table, this`sockets, pool`free, pool`refcount
      ensures Valid() && NewOrNone(verdict, s, old(State())) && Carried(verdict, b, id, old(State()), State())
    {
      hide RxHeld, Queued, FifoHeld, Total, OneOwnerEach, Pool.Conserved, Separated, Quiet, Tables;
      hide BoundBelow, QueuesFit, Matches;
      ghost var before := table.conns;
      ClosedAreEmpty(before);
      var r := Create(b, id, s);
      if r.None? {
        Drop(b);
        return Dropped;
      }
      var i := r.value;
      if |sockets[s].queue| < CSP_CONN_RXQUEUE_LEN {
        ServerKeepsSeparated(before, i, table.conns[i].(dest := None));
        Post(i, s, b, before);
        return Accepted(i, s);
      } else {
        CloseNew(i, b, before);
        return ClosedAtOnce(i, s);
      }
    }

    lemma FacingValid(b: nat)
      requires Steady() && b < |pool.packets|
      ensures Snap().Facing(version, b).Valid()
    {
      hide Separated;
      var port := pool.packets[b].id.dport;
      assert ports.GetSocket(port) == ports.Table().Socket(port);
    }

    lemma SnapHeld()
      ensures Snap().Held() == Held() && Snap().Line(lo) == Line()
    {
      hide Total;
    }

    method ToPortCallback(b: nat, c: nat) returns (verdict: Verdict)
      requires Steady() && pool.Conserved(Held() + multiset{b}) && b < |pool.packets|
      requires ports.GetCallback(pool.packets[b].id.dport) == Some(c)
      modifies this`app, pool`free, pool`refcount, pool`packets
      ensures Valid() && Delivered(version, verdict, b, old(Snap()), Snap())
    {
      hide Held, Pool.Conserved, Steady, Checked, Delivery.Payload, Separated;
      ghost var d := Snap().Facing(version, b);
      FacingValid(b);
      var ok := SecurityCheck(b, SO_CRC32REQ);
      if !ok {
        Drop(b);
        return Dropped;
      }
      CheckedIsPayload(d, SO_CRC32REQ);
      ToApp(b);
      return ToCallback(c);
    }

    method ToPortSocket(b: nat, s: nat) returns (verdict: Verdict)
      requires Steady() && pool.Conserved(Held() + multiset{b}) && b < |pool.packets|
      requires ports.GetCallback(pool.packets[b].id.dport) == None
      requires ports.GetSocket(pool.packets[b].id.dport) == Some(s)
      requires s < |sockets| && sockets[s].ConnLess()
      modifies this`sockets, pool`free, pool`refcount, pool`packets
      ensures Valid() && Delivered(version, verdict, b, old(Snap()), Snap())
    {
      hide Held, Pool.Conserved, Steady, Checked, Delivery.Payload, Posted;
      ghost var d := Snap().Facing(version, b);
      FacingValid(b);
      var ok := SecurityCheck(b, sockets[s].opts);
      if !ok {
        Drop(b);
        return Dropped;
      }
      CheckedIsPayload(d, sockets[s].opts);
      ok := QueueForSocket(b, s);
      return if ok then ToSocket(s) else Dropped;
    }

    /** A packet for a connection that exists. */
    method ToOldConn(b: nat, i: nat) returns (verdict: Verdict)
      requires Steady() && pool.Conserved(Held() + multiset{b}) && b < |pool.packets|
      requires var d := Snap().Facing(version, b); d.Valid() && d.Connected() && d.For(i)
      modifies table, pool`free, pool`refcount, pool`packets
      ensures Valid() && Delivered(version, verdict, b, old(Snap()), Snap())
    {
      hide Held, Pool.Conserved, Steady, Checked, Delivery.Payload, Separated;
      ghost var d := Snap().Facing(version, b);
      var ok := SecurityCheck(b, table.conns[i].opts);
      if !ok {
        Drop(b);
        return Dropped;
      }
      CheckedIsPayload(d, table.conns[i].opts);
      ok := QueueForConn(b, i);
      return if ok then ToConn(i) else Dropped;
    }

    /** A packet no connection matches. */
    method ToNewConn(b: nat, s: nat) returns (verdict: Verdict)
      requires Steady() && pool.Conserved(Held() + multiset{b}) && b < |pool.packets|
      requires var d := Snap().Facing(version, b); d.Valid() && d.Connected() && !d.HasConn() && d.socket == Some(s)
      modifies table, this`sockets, pool`free, pool`refcount, pool`packets
      ensures Valid() && Delivered(version, verdict, b, old(Snap()), Snap())
    {
      hide Held, Pool.Conserved, Steady, Checked, Delivery.Payload, Separated, Matches;
      ghost var d := Snap().Facing(version, b);
      var ok := SecurityCheck(b, sockets[s].opts);
      if !ok {
        Drop(b);
        return Dropped;
      }
      CheckedIsPayload(d, sockets[s].opts);
      forall i | 0 <= i < |table.conns|
        ensures !Matches(table.conns[i], pool.packets[b].id)
      {
        assert !d.For(i);
      }
      verdict := Admit(b, pool.packets[b].id, s);
    }

    /** The last part of `csp_route_work`: callback, connection-less socket, existing connection, new connection. */
    method Deliver(b: nat) returns (verdict: Verdict)
      requires Steady() && pool.Conserved(Held() + multiset{b}) && b < |pool.packets|
      modifies table, this`sockets, this`app, pool`free, pool`refcount, pool`packets
      ensures Valid() && Delivered(version, verdict, b, old(Snap()), Snap()) && !verdict.Idle? && !verdict.Forwarded?
    {
      hide Held, Pool.Conserved, Steady, Delivery.Passes, Delivery.Payload, Separated, Matches;
      FacingValid(b);
      var id := pool.packets[b].id;
      var callback, socket := ports.GetCallback(id.dport), ports.GetSocket(id.dport);
      if callback.Some? {
        verdict := ToPortCallback(b, callback.value);
        return;
      }
      if socket.Some? && sockets[socket.value].ConnLess() {
        verdict := ToPortSocket(b, socket.value);
        return;
      }
      var conn := table.FindExisting(id);
      if conn.Some? {
        assert Snap().Facing(version, b).For(conn.value);
        verdict := ToOldConn(b, conn.value);
      } else if socket.Some? {
        verdict := ToNewConn(b, socket.value);
      } else {
        Drop(b);
        verdict := Dropped;
      }
    }

    /**
     Whether the packet was seen before, as far as the mode makes the router ask; what was asked and
     not seen is recorded.
     */
    method SeenBefore(b: nat, toMe: bool, now: Millis) returns (dup: bool)
      requires Steady() && pool.Conserved(Held() + multiset{b}) && b < |pool.packets|
      modifies ring, ring.crcs, ring.stamps
      ensures Steady() && pool.Conserved(Held() + multiset{b})
      ensures var crc := Footprint(version, pool.packets[b]);
              && dup == (Deduplicates(mode, toMe) && Duplicate(old(ring.history), crc, now))
              && ring.history == if Deduplicates(mode, toMe) && !dup then Record(old(ring.history), crc, now)
                                 else old(ring.history)
    {
      hide Separated, Quiet, OneOwnerEach, BoundBelow, QueuesFit, Held, Pool.Conserved, Duplicate, Record;
      hide DedupRing.Valid;
      hide Crc32c, Header, Net.Valid, RoutingTable.Valid;
      if !Deduplicates(mode, toMe) {
        return false;
      }
      var crc := Memory(Header(version, pool.packets[b].id) + pool.packets[b].data);
      dup := ring.IsDuplicate(crc, now);
    }

    method Relay(b: nat, k: nat) returns (verdict: Verdict)
      requires Steady() && pool.Conserved(Held() + multiset{b}) && b < |pool.packets| && k < |ifaces|
      modifies this`qfifo, this`drivers, this`sent, pool`free, pool`refcount, pool`packets
      ensures rtable.Valid() && Network().Valid()
      ensures Valid() && Relayed(Network(), verdict, b, k, old(Snap()), Snap())
    {
      hide Steady, Held, Pool.Conserved, RoutingTable.Valid, Net.Valid, SentOut, Snapshot.Held;
      TablesHold();
      SnapHeld();
      var idout := pool.packets[b].id;
      var _, hops, fates := SendFrom(idout, b, Some(k));
      return Forwarded(hops, fates);
    }

    /** A packet on its way, whether our own or not. */
    method SendFrom(idout: Id, b: nat, from: Option<nat>) returns (id: Id, hops: seq<Hop>, fates: seq<Fate>)
      requires Steady() && pool.Conserved(Held() + multiset{b}) && b < |pool.packets| && Arrived(from)
      modifies this`qfifo, this`drivers, this`sent, pool`free, pool`refcount, pool`packets
      ensures Valid() && rtable.Valid() && Network().Valid()
      ensures id == IdAfter(Network(), idout, from)
      ensures SentOut(Network(), idout, from, b, old(Held()), old(Snap()), Snap(), hops, fates)
    {
      hide Steady, Held, Pool.Conserved, RoutingTable.Valid, Net.Valid, Directions, IdAfter, Fared;
      hide NoneMissed, Untouched, Out;
      hide Snapshot.Held, Snapshot.Line;
      TablesHold();
      SnapHeld();
      Nothing(Held());
      Nothing(old(Held()));
      id, hops, fates := SendDirect(idout, b, from, multiset{});
      Nothing(Held());
      SnapHeld();
    }

    /** `csp_route_work` once it is known whether the packet is a duplicate. */
    method Settle(b: nat, k: nat, toMe: bool, dup: bool) returns (verdict: Verdict)
      requires Steady() && pool.Conserved(Held() + multiset{b}) && b < |pool.packets| && k < |ifaces|
      requires rtable.Valid() && Network().Valid() && toMe == ToMe(Network(), pool.packets[b].id.dst, k)
      modifies this`qfifo, this`sockets, this`app, this`drivers, this`sent, table
      modifies pool`free, pool`refcount, pool`packets
      ensures Valid() && Settled(Setup(), dup, verdict, b, k, old(Snap()), Snap())
    {
      hide Held, Pool.Conserved, Steady, RoutingTable.Valid, Net.Valid, Delivered, ToMe, SentOut, Carried;
      if dup {
        Drop(b);
        return Dropped;
      }
      if !toMe {
        verdict := Relay(b, k);
        return;
      }
      if !Supported(pool.packets[b].id) {
        Drop(b);
        return Dropped;
      }
      verdict := Deliver(b);
    }

    /** `csp_route_work` once it has a packet. */
    method Route(b: nat, k: nat, now: Millis) returns (verdict: Verdict)
      requires Steady() && pool.Conserved(Held() + multiset{b}) && b < |pool.packets| && k < |ifaces|
      modifies this`qfifo, this`sockets, this`app, this`drivers, this`sent, table, ring, ring.crcs, ring.stamps
      modifies pool`free, pool`refcount, pool`packets
      ensures rtable.Valid() && Network().Valid()
      ensures Valid() && Routed(Setup(), verdict, b, k, now, old(Snap()), Snap())
    {
      hide Held, Pool.Conserved, Steady, Duplicate, Record, RoutingTable.Valid, Net.Valid;
      hide WithinSubnet, IsBroadcast, Footprint, Settled;
      TablesHold();
      var p := pool.packets[b];
      var mine := GetByAddr(ifaces, p.id.dst);
      var toMe := mine || IsBroadcast(version, p.id.dst, ifaces[k]);
      ghost var x := Snap();
      var dup := SeenBefore(b, toMe, now);
      ghost var asked := Snap();
      verdict := Settle(b, k, toMe, dup);
      SettledAnyHistory(Setup(), dup, verdict, b, k, asked, Snap(), x.history);
      assert asked.(history := x.history) == x;
    }

    /** `csp_route_work`: takes one entry off the router's queue and deals with its packet. */
    method RouteWork(now: Millis) returns (verdict: Verdict)
      requires Valid()
      modifies this`qfifo, this`sockets, this`app, this`drivers, this`sent, table, ring, ring.crcs, ring.stamps
      modifies pool`free, pool`refcount, pool`packets
      ensures Valid()
      ensures verdict.Idle? <==> old(qfifo) == [] || old(qfifo[0]).packet.None?
      ensures verdict.Idle? ==>
                var x := old(Snap());
                State() == x.world && OnlyWorld(x.(qfifo := if x.qfifo == [] then [] else x.qfifo[1..]), Snap())
      ensures rtable.Valid() && Network().Valid()
      ensures !verdict.Idle? ==>
                var input, x := old(qfifo[0]), old(Snap());
                && input.packet.value < |x.packets| && input.iface < |ifaces|
                && Routed(Setup(), verdict, input.packet.value, input.iface, now, x.(qfifo := x.qfifo[1..]), Snap())
    {
      hide HeldWith, Pool.Conserved, SteadyWith, Duplicate, Record, Directions, Carried, Delivery.Valid;
      hide Delivery.Allows, Delivery.Payload;
      hide Footprint, ToMe, Supported, Deduplicates, RoutingTable.Valid, Net.Valid, Fared, NoneMissed, Out;
      TablesHold();
      if qfifo == [] {
        return Idle;
      }
      var input := Pop();
      Nothing(Held());
      if input.packet.None? {
        return Idle;
      }
      verdict := Route(input.packet.value, input.iface, now);
    }

    /** `csp_qfifo_read` from a queue that is not empty. */
    method Pop() returns (input: Input)
      requires Valid() && qfifo != []
      modifies this`qfifo
      ensures Steady() && pool.Conserved(Held() + Of(input.packet))
      ensures input == old(qfifo[0]) && qfifo == old(qfifo)[1..]
      ensures input.iface < |ifaces| && (input.packet.Some? ==> input.packet.value < |pool.packets|)
    {
      hide RxHeld, Queued, FifoHeld, Total, OneOwnerEach, Pool.Conserved, Separated, Quiet, Tables;
      hide BoundBelow, QueuesFit;
      input := qfifo[0];
      Dequeued(qfifo, RxHeld(table.conns), Queued(sockets, true), app, drivers);
      QueuesFitRest(qfifo, sockets, |ifaces|);
      qfifo := qfifo[1..];
      if input.packet.Some? {
        HeldInPool(input.packet.value);
      }
    }

    // ----- what the application and the drivers do -----

    /** A buffer passes out of the application's hands. */
    method FromApp(b: nat)
      requires Valid() && b in app
      modifies this`app
      ensures Steady() && pool.Conserved(Held() + multiset{b}) && b < |pool.packets| && app == old(app) - multiset{b}
      ensures Held() == old(Held()) - multiset{b}
    {
      hide RxHeld, Queued, FifoHeld, Total, OneOwnerEach, Pool.Conserved, Separated, Quiet, Tables;
      hide BoundBelow, QueuesFit;
      Restored(app, multiset{b});
      TotalMore(FifoHeld(qfifo), RxHeld(table.conns), Queued(sockets, true), app - multiset{b}, drivers, multiset{b});
      app := app - multiset{b};
      InSum(Held(), b);
      HeldInPool(b);
    }

    method ToApp(b: nat)
      requires Steady() && pool.Conserved(Held() + multiset{b})
      modifies this`app
      ensures Valid() && app == old(app) + multiset{b}
    {
      hide RxHeld, Queued, FifoHeld, Total, OneOwnerEach, Pool.Conserved, Separated, Quiet, Tables;
      hide BoundBelow, QueuesFit;
      TotalMore(FifoHeld(qfifo), RxHeld(table.conns), Queued(sockets, true), app, drivers, multiset{b});
      app := app + multiset{b};
    }

    method FromDrivers(b: nat)
      requires Valid() && b in drivers
      modifies this`drivers
      ensures Steady() && pool.Conserved(Held() + multiset{b})
      ensures b < |pool.packets| && drivers == old(drivers) - multiset{b}
    {
      hide RxHeld, Queued, FifoHeld, Total, OneOwnerEach, Pool.Conserved, Separated, Quiet, Tables;
      hide BoundBelow, QueuesFit;
      Restored(drivers, multiset{b});
      TotalMore(FifoHeld(qfifo), RxHeld(table.conns), Queued(sockets, true), app, drivers - multiset{b}, multiset{b});
      drivers := drivers - multiset{b};
      HeldInPool(b);
    }

    lemma HeldInPool(b: nat)
      requires pool.Conserved(Held() + multiset{b})
      ensures b < |pool.packets|
    {
      hide Held;
      InSum(Held(), b);
    }

    /** `csp_buffer_get`, or `csp_buffer_get_always`: nobody has the buffer yet. */
    method TakeBuffer(always: bool) returns (b: Option<nat>)
      requires Valid()
      modifies this`app, pool`free, pool`refcount, pool`packets
      ensures Valid() && app == old(app) + Of(b)
      ensures b.None? <==> old(|pool.free|) < if always then 1 else 2
      ensures b.Some? ==> b.value !in old(Held())
      ensures b.Some? ==> b.value < |pool.packets| && pool.packets[b.value] == Packet(NO_ID, [])
      ensures pool.packets == if b.None? then old(pool.packets) else old(pool.packets)[b.value := Packet(NO_ID, [])]
      ensures b.Some? ==> b.value < |old(pool.packets)|
    {
      hide Steady, Held, Pool.Conserved;
      b := pool.Get(if always then 0 else 2, Held());
      Nothing(app);
      if b.Some? {
        ToApp(b.value);
      }
    }

    /** `csp_buffer_free`. */
    method FreeBuffer(b: nat)
      requires Valid() && b in app
      modifies this`app, pool`free, pool`refcount
      ensures Valid() && app == old(app) - multiset{b}
    {
      hide Steady, Held, Pool.Conserved;
      FromApp(b);
      Drop(b);
    }

    /** `csp_buffer_refc_inc`. */
    method Retain(b: nat)
      requires Valid() && b in app
      modifies this`app, pool`refcount, pool`shared
      ensures Valid() && app == old(app) + multiset{b}
      ensures pool.shared
    {
      hide RxHeld, Queued, FifoHeld, Total, OneOwnerEach, Pool.Conserved, Separated, Quiet, Tables;
      hide BoundBelow, QueuesFit;
      InTotal(FifoHeld(qfifo), RxHeld(table.conns), Queued(sockets, true), app, drivers, b);
      pool.RefcInc(b, Held());
      ToApp(b);
    }

    /** The application writes into a buffer of its own. */
    method Fill(b: nat, p: Packet)
      requires Valid() && b in app
      modifies pool`packets
      ensures Valid() && b < old(|pool.packets|) && pool.packets == old(pool.packets)[b := p]
    {
      hide RxHeld, Queued, FifoHeld, Total, OneOwnerEach, Pool.Conserved, Separated, Quiet, Tables;
      hide BoundBelow, QueuesFit;
      InTotal(FifoHeld(qfifo), RxHeld(table.conns), Queued(sockets, true), app, drivers, b);
      pool.Write(b, p, Held());
    }

    /** `csp_connect`. */
    method Connect(prio: bv8, dest: bv16, dport: bv8, opts: bv32) returns (r: Option<nat>)
      requires Valid()
      modifies this`handles, table, pool`free, pool`refcount
      ensures Valid() && handles == old(handles) + Of(r)
      ensures Dialled(old(table.conns), table.conns, r, prio, dest, dport, ConnectOptions(opts, defaultOpts))
      ensures r.Some? ==> r.value !in old(handles)
      ensures pool.free == old(pool.free)
    {
      hide RxHeld, Queued, FifoHeld, Total, OneOwnerEach, Pool.Conserved, Separated, Quiet, Tables;
      hide BoundBelow, QueuesFit, ConnectOptions;
      ghost var before, owners := table.conns, Queued(sockets, false) + handles;
      r := table.Connect(prio, dest, dport, opts, defaultOpts, Held());
      Nothing(handles);
      if r.Some? {
        OpenedHasOwner(before, owners, r.value, table.conns[r.value]);
        ClosedNotOwned(before, Queued(sockets, false), handles, r.value);
        Regroup(Queued(sockets, false), handles, multiset{r.value});
        handles := handles + multiset{r.value};
      }
    }

    /** `csp_close` by whoever has the handle; that ends it. */
    method CloseConn(i: nat)
      requires Valid() && i in handles
      modifies this`handles, table, pool`free, pool`refcount
      ensures Valid() && handles == old(handles) - multiset{i}
      ensures i < |old(table.conns)| && old(table.conns)[i].open
      ensures table.conns == old(table.conns)[i := old(table.conns)[i].(rx := [], open := false)]
    {
      hide RxHeld, Queued, FifoHeld, Total, OneOwnerEach, Pool.Conserved, Separated, Quiet, Tables;
      hide BoundBelow, QueuesFit;
      ghost var before, owners := table.conns, Queued(sockets, false) + handles;
      OwnerIsOpen(before, owners, i);
      ghost var c := before[i].(rx := [], open := false);
      OpenWaitsForNone(before, i);
      CloseKeepsSeparated(before, i, c);
      UpdateKeepsQuiet(before, i, c);
      RxHeldClose(before, i, c);
      ClosedHasNone(before, owners, i, c);
      LessRight(Queued(sockets, false), handles, i);
      TotalMore(FifoHeld(qfifo), RxHeld(before[i := c]), Queued(sockets, true), app, drivers, multiset(before[i].rx));
      AddBack(HeldWith(before[i := c]), multiset(before[i].rx));
      table.Close(i, Held());
      handles := handles - multiset{i};
    }

    /** `csp_read`: the oldest packet of an open connection. */
    method Read(conn: Option<nat>) returns (b: Option<nat>)
      requires Valid() && (conn.Some? ==> conn.value < |table.conns|)
      modifies this`app, table`conns
      ensures Valid() && app == old(app) + Of(b)
      ensures ReadFrom(old(table.conns), table.conns, conn, b)
    {
      hide RxHeld, Queued, FifoHeld, Total, OneOwnerEach, Pool.Conserved, Separated, Quiet, Tables;
      hide BoundBelow, QueuesFit;
      Nothing(app);
      if conn.None? || !table.conns[conn.value].open || table.conns[conn.value].rx == [] {
        return None;
      }
      ghost var before := table.conns;
      var i := conn.value;
      var c := table.conns[i].(rx := table.conns[i].rx[1..]);
      b := Some(table.conns[i].rx[0]);
      OpenWaitsForNone(before, i);
      SameKeepsSeparated(before, i, c);
      RxWithin(before, i);
      UpdateKeepsQuiet(before, i, c);
      RxHeldTake(before, i);
      SameOwners(before, Queued(sockets, false) + handles, i, c);
      TotalMore(FifoHeld(qfifo), RxHeld(before[i := c]), Queued(sockets, true), app, drivers, multiset{b.value});
      table.conns := table.conns[i := c];
      ToApp(b.value);
    }

    /** `csp_accept`: the connection that has waited longest, and with it its handle. */
    method Accept(s: nat) returns (conn: Option<nat>)
      requires Valid() && s < |sockets| && !sockets[s].ConnLess()
      modifies this`handles, this`sockets
      ensures Valid() && handles == old(handles) + Of(conn)
      ensures conn.None? <==> old(sockets)[s].queue == []
      ensures conn.None? ==> sockets == old(sockets)
      ensures conn.Some? ==>
                && conn.value == old(sockets)[s].queue[0] && sockets == Taken(old(sockets), s)
                && conn.value < |table.conns| && table.conns[conn.value].open && conn.value !in old(handles)
    {
      hide RxHeld, Queued, FifoHeld, Total, OneOwnerEach, Pool.Conserved, Separated, Quiet, Tables, BoundBelow;
      Nothing(handles);
      if sockets[s].queue == [] {
        return None;
      }
      conn := Some(sockets[s].queue[0]);
      QueuedTaken(sockets, s, true);
      QueuedTaken(sockets, s, false);
      Nothing(Queued(sockets, true));
      TakingOver(table.conns, Queued(sockets, false), handles, conn.value);
      sockets := Taken(sockets, s);
      handles := handles + multiset{conn.value};
    }

    /** `csp_recvfrom`: the packet that has waited longest, if the socket is connection-less. */
    method ReceiveFrom(s: nat) returns (b: Option<nat>)
      requires Valid() && s < |sockets|
      modifies this`app, this`sockets
      ensures Valid() && app == old(app) + Of(b)
      ensures b.None? <==> !old(sockets)[s].ConnLess() || old(sockets)[s].queue == []
      ensures b.None? ==> sockets == old(sockets)
      ensures b.Some? ==> b.value == old(sockets)[s].queue[0] && sockets == Taken(old(sockets), s)
    {
      hide RxHeld, Queued, FifoHeld, Total, OneOwnerEach, Pool.Conserved, Separated, Quiet, Tables, BoundBelow;
      Nothing(app);
      if !sockets[s].ConnLess() || sockets[s].queue == [] {
        return None;
      }
      b := Some(sockets[s].queue[0]);
      QueuedTaken(sockets, s, true);
      QueuedTaken(sockets, s, false);
      Nothing(Queued(sockets, false));
      Restored(Queued(sockets, true), multiset{b.value});
      TotalMore(FifoHeld(qfifo), RxHeld(table.conns), Queued(sockets, true) - multiset{b.value}, app, drivers,
                multiset{b.value});
      sockets := Taken(sockets, s);
      ToApp(b.value);
    }

    /** `csp_send`: the connection keeps the source a route gave it. */
    method Send(conn: Option<nat>, b: nat) returns (hops: seq<Hop>, fates: seq<Fate>)
      requires Valid() && b in app && (conn.Some? ==> conn.value < |table.conns|)
      modifies this`qfifo, this`app, this`drivers, this`sent, table`conns, pool`free, pool`refcount, pool`packets
      ensures Valid() && app == old(app) - multiset{b}
      ensures rtable.Valid() && Network().Valid() && b < |old(pool.packets)|
      ensures conn.None? || !old(table.conns)[conn.value].open ==>
                && hops == [] && table.conns == old(table.conns) && Line() == old(Line())
                && pool.packets == old(pool.packets)
      ensures conn.Some? && old(table.conns)[conn.value].open ==>
                var c := old(table.conns)[conn.value];
                && SentOut(Network(), c.idout, None, b, old(Snap()).Held() - multiset{b}, old(Snap()), Snap(),
                           hops, fates)
                && table.conns == old(table.conns)[conn.value := c.(idout := IdAfter(Network(), c.idout, None))]
    {
      hide Steady, Held, Pool.Conserved, RoutingTable.Valid, Net.Valid, IdAfter, SentOut, Snapshot.Held;
      TablesHold();
      SnapHeld();
      FromApp(b);
      ghost var others := Held();
      if conn.None? || !table.conns[conn.value].open {
        Drop(b);
        return [], [];
      }
      ghost var x, idout := Snap(), table.conns[conn.value].idout;
      hops, fates := SendOpen(conn.value, b);
      SnapHeld();
      SameSentOut(Network(), idout, None, b, others, hops, fates, x, Snap(), old(Snap()), Snap());
    }

    /** On an open connection, with the packet in hand. */
    method SendOpen(i: nat, b: nat) returns (hops: seq<Hop>, fates: seq<Fate>)
      requires Steady() && pool.Conserved(Held() + multiset{b}) && b < |pool.packets|
      requires i < |table.conns| && table.conns[i].open
      modifies this`qfifo, this`drivers, this`sent, table`conns, pool`free, pool`refcount, pool`packets
      ensures Valid() && rtable.Valid() && Network().Valid()
      ensures var c := old(table.conns)[i];
              && SentOut(Network(), c.idout, None, b, old(Held()), old(Snap()), Snap(), hops, fates)
              && table.conns == old(table.conns)[i := c.(idout := IdAfter(Network(), c.idout, None))]
    {
      hide Steady, Held, Pool.Conserved, RoutingTable.Valid, Net.Valid, IdAfter, SentOut, Snapshot.Held;
      ghost var x, others := Snap(), Held();
      var idout := table.conns[i].idout;
      var id: Id;
      id, hops, fates := SendFrom(idout, b, None);
      ghost var y := Snap();
      SnapHeld();
      NewIdOut(i, id);
      SnapHeld();
      SameSentOut(Network(), idout, None, b, others, hops, fates, x, y, x, Snap());
    }

    method NewIdOut(i: nat, id: Id)
      requires Valid() && i < |table.conns| && table.conns[i].open
      modifies table`conns
      ensures Valid() && table.conns == old(table.conns)[i := old(table.conns)[i].(idout := id)]
      ensures Held() == old(Held())
    {
      hide RxHeld, Queued, FifoHeld, Total, OneOwnerEach, Pool.Conserved, Separated, Quiet, Tables;
      hide BoundBelow, QueuesFit;
      ghost var before := table.conns;
      ghost var c := before[i].(idout := id);
      OpenWaitsForNone(before, i);
      SameKeepsSeparated(before, i, c);
      RxWithin(before, i);
      UpdateKeepsQuiet(before, i, c);
      RxHeldSame(before, i, c);
      SameOwners(before, Queued(sockets, false) + handles, i, c);
      table.conns := table.conns[i := table.conns[i].(idout := id)];
    }

    /** `csp_sendto`. */
    method SendTo(prio: bv8, dest: bv16, dport: bv8, sport: bv8, opts: bv32, b: nat)
      returns (hops: seq<Hop>, fates: seq<Fate>)
      requires Valid() && b in app
      modifies this`qfifo, this`app, this`drivers, this`sent, pool`free, pool`refcount, pool`packets
      ensures Valid() && app == old(app) - multiset{b}
      ensures rtable.Valid() && Network().Valid() && b < |old(pool.packets)|
      ensures var id := SendToId(old(pool.packets)[b].id, prio, dest, dport, sport, opts);
              if id.None? then hops == [] && Line() == old(Line()) && pool.packets == old(pool.packets)
              else SentOut(Network(), id.value, None, b, old(Snap()).Held() - multiset{b}, old(Snap()), Snap(),
                           hops, fates)
    {
      hide Steady, Held, Pool.Conserved, RoutingTable.Valid, Net.Valid, IdAfter, SendToId, SentOut, Snapshot.Held;
      TablesHold();
      SnapHeld();
      FromApp(b);
      ghost var others := Held();
      var p := pool.packets[b];
      var id := SendToId(p.id, prio, dest, dport, sport, opts);
      if id.None? {
        Drop(b);
        return [], [];
      }
      Overwrite(b, p.(id := id.value));
      var left: Id;
      ghost var x := Snap();
      left, hops, fates := SendFrom(id.value, b, None);
      SameSentOut(Network(), id.value, None, b, others, hops, fates, x, Snap(), old(Snap()), Snap());
    }

    /** A driver takes a buffer to receive into. */
    method DriverTake(always: bool) returns (b: Option<nat>)
      requires Valid()
      modifies this`drivers, pool`free, pool`refcount, pool`packets
      ensures Valid() && drivers == old(drivers) + Of(b)
      ensures b.None? <==> old(|pool.free|) < if always then 1 else 2
      ensures b.Some? ==> b.value !in old(Held())
      ensures b.Some? ==> b.value < |old(pool.packets)|
      ensures pool.packets == if b.None? then old(pool.packets) else old(pool.packets)[b.value := Packet(NO_ID, [])]
    {
      hide RxHeld, Queued, FifoHeld, Total, OneOwnerEach, Pool.Conserved, Separated, Quiet, Tables;
      hide BoundBelow, QueuesFit;
      b := pool.Get(if always then 0 else 2, Held());
      Nothing(drivers);
      if b.Some? {
        Nothing(Held());
        ToDrivers(b.value, multiset{});
        Nothing(Held());
      }
    }

    /** A driver has received a packet in buffer `b`. */
    method DriverDeliver(b: nat, p: Packet, iface: Option<nat>)
      requires Valid() && b in drivers && (iface.Some? ==> iface.value < |ifaces|)
      modifies this`drivers, this`qfifo, pool`free, pool`refcount, pool`packets
      ensures Valid() && drivers == old(drivers) - multiset{b} && b < |old(pool.packets)|
      ensures pool.packets == old(pool.packets)[b := p]
      ensures qfifo == if iface.Some? && |old(qfifo)| < CSP_QFIFO_LEN then old(qfifo) + [Input(iface.value, Some(b))]
                       else old(qfifo)
    {
      hide Steady, Held, Pool.Conserved;
      FromDrivers(b);
      Overwrite(b, p);
      Nothing(Held());
      QfifoWrite(Some(b), iface, multiset{});
      Nothing(Held());
    }

    /** A driver is done with a buffer, after transmission or a failed reception. */
    method DriverRelease(b: nat)
      requires Valid() && b in drivers
      modifies this`drivers, pool`free, pool`refcount
      ensures Valid() && drivers == old(drivers) - multiset{b}
    {
      hide Steady, Held, Pool.Conserved;
      FromDrivers(b);
      Drop(b);
    }

    method BindSocket(s: nat, port: bv8) returns (r: BindResult)
      requires Valid() && s < |sockets|
      modifies ports
      ensures Valid()
      ensures r == Bound ==> port == CSP_ANY || ports.GetSocket(port) == Some(s)
      ensures ports.Table() == if Bindable(old(ports.Table()), port) then Extended(old(ports.Table()), port, Open(s))
                               else old(ports.Table())
    {
      hide Held, Pool.Conserved, OneOwnerEach, Separated, Quiet, Tables, QueuesFit;
      r := ports.Bind(Some(s), port);
      forall p | ports.GetSocket(p).Some?
        ensures ports.GetSocket(p).value < |sockets|
      {
        assert ports.GetSocket(p) == Some(s) || ports.GetSocket(p) == old(ports.GetSocket(p));
      }
    }

    method BindCallback(c: nat, port: bv8) returns (r: BindResult)
      requires Valid()
      modifies ports
      ensures Valid()
      ensures r == Bound ==> port == CSP_ANY || ports.GetCallback(port) == Some(c)
      ensures ports.Table() == if Bindable(old(ports.Table()), port)
                               then Extended(old(ports.Table()), port, OpenCallback(c)) else old(ports.Table())
    {
      hide Held, Pool.Conserved, OneOwnerEach, Separated, Quiet, Tables, QueuesFit;
      r := ports.BindCallback(Some(c), port);
      forall p | ports.GetSocket(p).Some?
        ensures ports.GetSocket(p).value < |sockets|
      {
        assert ports.GetSocket(p) == old(ports.GetSocket(p));
      }
    }

    // ----- whole runs -----

    /** Between any two steps the node is accounted for: buffers, connections and their owners. */
    lemma BetweenSteps()
      requires Valid()
      ensures Snap().Accounted()
    {
      hide Separated, Quiet, HeldWith, Snapshot.Held, Busy, Queued, Tables, BoundBelow, QueuesFit, OneOwnerEach;
      hide HeldOnce;
      SnapHeld();
      NothingLost(pool.free, pool.refcount, Held());
    }

    lemma SetupHolds()
      requires Valid()
      ensures rtable.Valid() && Network().Valid()
      ensures rtable.rtable as object != ring.crcs && rtable.rtable as object != ring.stamps
    {
      hide RoutingTable.Valid, Net.Valid, Pool.Conserved, Held;
      TablesHold();
    }

    method RouterOne(now: Millis) returns (e: Event)
      requires Valid()
      modifies this`qfifo, this`sockets, this`app, this`drivers, this`sent, table, ring, ring.crcs, ring.stamps
      modifies pool`free, pool`refcount, pool`packets
      ensures Valid() && rtable.Valid() && Network().Valid() && RouterStep(Setup(), now, e, old(Snap()), Snap())
    {
      hide Valid, Routed, RoutingTable.Valid, Net.Valid;
      var b := if qfifo != [] && qfifo[0].packet.Some? then qfifo[0].packet.value else 0;
      var verdict := RouteWork(now);
      return if verdict.Idle? then Other else Decided(verdict, b);
    }

    method ConnectOne(prio: bv8, dest: bv16, dport: bv8, opts: bv32) returns (e: Event)
      requires Valid()
      modifies this`handles, table, pool`free, pool`refcount
      ensures Valid() && ConnectStep(prio, dest, dport, ConnectOptions(opts, defaultOpts), e, old(State()), State())
      ensures OnlyWorld(old(Snap()), Snap())
    {
      hide Valid, Dialled, ConnectOptions;
      var r := Connect(prio, dest, dport, opts);
      return if r.Some? then Begun(r.value) else Other;
    }

    method CloseOne(i: nat) returns (e: Event)
      requires Valid()
      modifies this`handles, table, pool`free, pool`refcount
      ensures Valid() && CloseStep(i, e, old(State()), State())
      ensures OnlyHolders(old(Snap()), Snap())
    {
      hide Valid;
      if i !in handles {
        return Other;
      }
      CloseConn(i);
      return Ended(i);
    }

    method ReadOne(i: nat) returns (e: Event)
      requires Valid()
      modifies this`app, table`conns
      ensures Valid() && ReadStep(i, e, old(State()), State())
      ensures OnlyWorld(old(Snap()), Snap())
    {
      hide Valid;
      if i >= |table.conns| {
        return Other;
      }
      Nothing(app);
      var b := Read(Some(i));
      return if b.Some? then ReadOut(i, b.value) else Other;
    }

    method AcceptOne(s: nat) returns (e: Event)
      requires Valid()
      modifies this`handles, this`sockets
      ensures Valid() && AcceptStep(s, e, old(State()), State())
      ensures OnlyWorld(old(Snap()), Snap())
    {
      hide Valid, Taken, Socket.ConnLess;
      if s >= |sockets| || sockets[s].ConnLess() {
        return Other;
      }
      Nothing(handles);
      var conn := Accept(s);
      return if conn.Some? then Took(s, conn.value) else Other;
    }

    method ReceiveOne(s: nat) returns (e: Event)
      requires Valid()
      modifies this`app, this`sockets
      ensures Valid() && ReceiveStep(s, e, old(State()), State())
      ensures OnlyWorld(old(Snap()), Snap())
    {
      hide Valid, Taken, Socket.ConnLess;
      if s >= |sockets| || !sockets[s].ConnLess() || sockets[s].queue == [] {
        return Other;
      }
      var b := ReceiveFrom(s);
      return Took(s, b.value);
    }

    method SendOne(i: nat, b: nat) returns (e: Event)
      requires Valid()
      modifies this`qfifo, this`app, this`drivers, this`sent, table`conns, pool`free, pool`refcount, pool`packets
      ensures Valid() && rtable.Valid() && Network().Valid() && SendStep(Setup(), i, b, e, old(Snap()), Snap())
    {
      hide Valid, Held, Snapshot.Held, SentOut, IdAfter, RoutingTable.Valid, Net.Valid;
      SetupHolds();
      if b !in app || i >= |table.conns| {
        return Other;
      }
      var open := table.conns[i].open;
      var hops, fates := Send(Some(i), b);
      return if open then Went(hops, fates) else Other;
    }

    method SendToOne(prio: bv8, dest: bv16, dport: bv8, sport: bv8, opts: bv32, b: nat) returns (e: Event)
      requires Valid()
      modifies this`qfifo, this`app, this`drivers, this`sent, pool`free, pool`refcount, pool`packets
      ensures Valid() && rtable.Valid() && Network().Valid()
      ensures SendToStep(Setup(), IdFor(old(Snap()), prio, dest, dport, sport, opts, b), b, e, old(Snap()), Snap())
    {
      hide Valid, Held, Snapshot.Held, SentOut, SendToId, RoutingTable.Valid, Net.Valid;
      SetupHolds();
      if b !in app {
        return Other;
      }
      AppInPool(b);
      var id := SendToId(pool.packets[b].id, prio, dest, dport, sport, opts);
      var hops, fates := SendTo(prio, dest, dport, sport, opts, b);
      return if id.Some? then Went(hops, fates) else Other;
    }

    lemma AppInPool(b: nat)
      requires Valid() && b in app
      ensures b < |pool.packets|
    {
      hide RxHeld, Queued, FifoHeld, Total, OneOwnerEach, Separated, Quiet, Tables, BoundBelow, QueuesFit;
      InTotal(FifoHeld(qfifo), RxHeld(table.conns), Queued(sockets, true), app, drivers, b);
    }

    method TakeOne(always: bool)
      requires Valid()
      modifies this`app, pool`free, pool`refcount, pool`packets
      ensures Valid() && TakeStep(always, old(Snap()), Snap())
    {
      hide Valid, Snapshot.Held, Held;
      SnapHeld();
      var r := TakeBuffer(always);
      assert Gained(always, r, old(Snap()), Snap());
    }

    method FreeOne(b: nat)
      requires Valid()
      modifies this`app, pool`free, pool`refcount
      ensures Valid() && FreeStep(b, old(Snap()), Snap())
    {
      hide Valid;
      if b in app {
        FreeBuffer(b);
      }
    }

    method RetainOne(b: nat)
      requires Valid()
      modifies this`app, pool`refcount, pool`shared
      ensures Valid() && RetainStep(b, old(Snap()), Snap())
    {
      hide Valid;
      if b in app {
        Retain(b);
      }
    }

    method FillOne(b: nat, p: Packet)
      requires Valid()
      modifies pool`packets
      ensures Valid() && FillStep(b, p, old(Snap()), Snap())
    {
      hide Valid;
      if b in app {
        Fill(b, p);
      }
    }

    method DriverTakeOne(always: bool)
      requires Valid()
      modifies this`drivers, pool`free, pool`refcount, pool`packets
      ensures Valid() && DriverTakeStep(always, old(Snap()), Snap())
    {
      hide Valid, Snapshot.Held, Held;
      SnapHeld();
      var r := DriverTake(always);
      assert Gained(always, r, old(Snap()), Snap());
    }

    method DeliverOne(b: nat, p: Packet, k: nat)
      requires Valid()
      modifies this`qfifo, this`drivers, pool`free, pool`refcount, pool`packets
      ensures Valid() && DeliverStep(b, p, k, |ifaces|, old(Snap()), Snap())
    {
      hide Valid;
      if b in drivers && k < |ifaces| {
        DriverDeliver(b, p, Some(k));
      }
    }

    method ReleaseOne(b: nat)
      requires Valid()
      modifies this`drivers, pool`free, pool`refcount
      ensures Valid() && ReleaseStep(b, old(Snap()), Snap())
    {
      hide Valid;
      if b in drivers {
        DriverRelease(b);
      }
    }

    method BindSocketOne(s: nat, port: bv8)
      requires Valid()
      modifies ports
      ensures Valid() && BindStep(port, Open(s), s < |old(Snap()).world.sockets|, old(Snap()), Snap())
    {
      hide Valid, Bindable, Extended;
      if s < |sockets| {
        var _ := BindSocket(s, port);
      }
    }

    method BindCallbackOne(f: nat, port: bv8)
      requires Valid()
      modifies ports
      ensures Valid() && BindStep(port, OpenCallback(f), true, old(Snap()), Snap())
    {
      hide Valid, Bindable, Extended;
      var _ := BindCallback(f, port);
    }

    method WakeOne()
      requires Valid()
      modifies this`qfifo
      ensures Valid() && WakeStep(|ifaces|, old(Snap()), Snap())
    {
      hide Valid;
      if |ifaces| > 0 {
        QfifoWakeUp();
      }
    }

    method HoldOne(op: Op)
      requires Valid() && Holds(op)
      modifies this`qfifo, this`app, this`drivers, ports, pool`free, pool`refcount, pool`packets, pool`shared
      ensures Valid() && rtable.Valid() && Network().Valid() && HoldStep(Setup(), op, old(Snap()), Snap())
    {
      hide Valid, RoutingTable.Valid, Net.Valid, TakeStep, FreeStep, RetainStep, FillStep, DriverTakeStep;
      hide DeliverStep, ReleaseStep, BindStep, WakeStep, Snap, State;
      SetupHolds();
      match op {
        case TakeBuffer(always) => TakeOne(always);
        case FreeBuffer(b) => FreeOne(b);
        case Retain(b) => RetainOne(b);
        case Fill(b, p) => FillOne(b, p);
        case DriverTake(always) => DriverTakeOne(always);
        case DriverDeliver(b, p, k) => DeliverOne(b, p, k);
        case DriverRelease(b) => ReleaseOne(b);
        case BindSocket(s, port) => BindSocketOne(s, port);
        case BindCallback(f, port) => BindCallbackOne(f, port);
        case WakeUp => WakeOne();
      }
    }

    method TellOne(op: Op) returns (e: Event)
      requires Valid() && !Holds(op)
      modifies this`qfifo, this`sockets, this`app, this`drivers, this`sent, this`handles
      modifies table, ring, ring.crcs, ring.stamps, pool`free, pool`refcount, pool`packets
      ensures Valid() && rtable.Valid() && Network().Valid() && TellStep(Setup(), op, e, old(Snap()), Snap())
    {
      hide Valid, RoutingTable.Valid, Net.Valid, ConnectOptions, IdFor;
      hide RouterStep, ConnectStep, CloseStep, ReadStep, AcceptStep, ReceiveStep, SendStep, SendToStep;
      SetupHolds();
      match op {
        case RouteWork(now) => e := RouterOne(now);
        case Connect(prio, dest, dport, opts) => e := ConnectOne(prio, dest, dport, opts);
        case CloseConn(i) => e := CloseOne(i);
        case Read(i) => e := ReadOne(i);
        case Accept(s) => e := AcceptOne(s);
        case ReceiveFrom(s) => e := ReceiveOne(s);
        case Send(i, b) => e := SendOne(i, b);
        case SendTo(prio, dest, dport, sport, opts, b) => e := SendToOne(prio, dest, dport, sport, opts, b);
      }
    }

    /** One step of a run; a step whose actor does not have what it names changes nothing. */
    method Step(op: Op) returns (e: Event)
      requires Valid()
      modifies this`qfifo, this`sockets, this`app, this`drivers, this`sent, this`handles
      modifies table, ports, ring, ring.crcs, ring.stamps, pool`free, pool`refcount, pool`packets, pool`shared
      ensures Valid() && rtable.Valid() && Network().Valid() && Transition(Setup(), op, e, old(Snap()), Snap())
    {
      hide Valid, RoutingTable.Valid, Net.Valid, TellStep, HoldStep;
      if Holds(op) {
        HoldOne(op);
        return Other;
      }
      e := TellOne(op);
    }

    /**
     Whatever the router, the application and the drivers do, in whatever order, is a run: every
     event is what its step returned, every state follows from the one before, and the node is
     accounted for in all of them.
     */
    method Run(ops: seq<Op>) returns (events: seq<Event>, ghost states: seq<Snapshot>)
      requires Valid()
      modifies this`qfifo, this`sockets, this`app, this`drivers, this`sent, this`handles
      modifies table, ports, ring, ring.crcs, ring.stamps, pool`free, pool`refcount, pool`packets, pool`shared
      ensures Valid() && rtable.Valid() && Network().Valid()
      ensures Follows(Setup(), Trace(ops, events, states))
      ensures states[0] == old(Snap()) && states[|ops|] == Snap()
    {
      hide Valid, RoutingTable.Valid, Net.Valid, Follows, Transition, Snapshot.Accounted;
      SetupHolds();
      BetweenSteps();
      events, states := [], [Snap()];
      NothingYet(Setup(), Snap());
      var i := 0;
      while i < |ops|
        invariant 0 <= i <= |ops| && |states| == i + 1 && Valid() && rtable.Valid() && Network().Valid()
        invariant Follows(Setup(), Trace(ops[..i], events, states))
        invariant states[0] == old(Snap()) && states[i] == Snap()
      {
        var e := Step(ops[i]);
        BetweenSteps();
        FollowsOneMore(Setup(), Trace(ops[..i], events, states), ops[i], e, Snap());
        assert ops[..i] + [ops[i]] == ops[..i + 1];
        events, states := events + [e], states + [Snap()];
        i := i + 1;
      }
      assert ops[..i] == ops;
    }
  }
}
