/** The connection table of csp_conn.c. A connection is named by its position in `arr_conn`. */
module Conn {
  import opened Words
  import opened CspId
  import opened Packet
  import opened BufferPool
  import opened Port

  type QueueLength = n: nat | 1 <= n witness 4

  /** `CSP_CONN_RXQUEUE_LEN`: of connections and of sockets. */
  const CSP_CONN_RXQUEUE_LEN: QueueLength

  const FHMAC: bv8 := 0x08
  const FRDP: bv8 := 0x02
  const FCRC32: bv8 := 0x01

  const SO_RDPREQ: bv32 := 0x0001
  const SO_HMACREQ: bv32 := 0x0004
  const SO_CRC32REQ: bv32 := 0x0040
  const SO_CRC32PROHIB: bv32 := 0x0080
  const SO_CONN_LESS: bv32 := 0x0100
  const SO_SAME: bv32 := 0x8000

  datatype Kind = Client | Server

  /** `csp_conn_t`: `sport` is `sport_outgoing`, `rx` the buffers waiting to be read, `dest` is `dest_socket`. */
  datatype Conn = Conn(kind: Kind, open: bool, idin: Id, idout: Id, sport: bv8, rx: seq<nat>, dest: Option<nat>,
                       opts: bv32)

  /** What `csp_conn_find_existing` looks for: clients by their own port alone, servers by ports and source. */
  predicate Matches(c: Conn, id: Id) {
    && c.open && c.idin.dport == id.dport
    && (c.kind.Server? ==> c.idin.sport == id.sport && c.idin.src == id.src)
  }

  predicate SameServer(c: Conn, d: Conn) {
    c.idin.dport == d.idin.dport && c.idin.sport == d.idin.sport && c.idin.src == d.idin.src
  }

  /**
   Outgoing ports lie above the ports that can be bound; an open client listens on its own, an open
   server on a bound one.
   */
  predicate WellPlaced(c: Conn) {
    && c.sport > CSP_PORT_MAX_BIND
    && (c.open ==> if c.kind.Client? then c.idin.dport == c.sport else c.idin.dport <= CSP_PORT_MAX_BIND)
  }

  /** Two slots have different outgoing ports, and do not both serve the same peer and ports. */
  predicate Apart(c: Conn, d: Conn) {
    c.sport != d.sport && !(c.open && d.open && c.kind.Server? && d.kind.Server? && SameServer(c, d))
  }

  predicate Separated(conns: seq<Conn>) {
    && (forall i :: 0 <= i < |conns| ==> WellPlaced(conns[i]))
    && (forall i, j :: 0 <= i < |conns| && 0 <= j < |conns| && i != j ==> Apart(conns[i], conns[j]))
  }

  lemma ApartMatch(c: Conn, d: Conn, id: Id)
    requires WellPlaced(c) && WellPlaced(d) && Apart(c, d) && Matches(c, id)
    ensures !Matches(d, id)
  {}

  /** At most one open connection matches any incoming id, so the order of the search does not matter. */
  lemma UniqueMatch(conns: seq<Conn>, id: Id, i: nat, j: nat)
    requires Separated(conns) && i < |conns| && j < |conns|
    requires Matches(conns[i], id) && Matches(conns[j], id)
    ensures i == j
  {
    hide WellPlaced, Apart, Matches;
    if i != j {
      ApartMatch(conns[i], conns[j], id);
    }
  }

  /** Between router steps closed connections hold no packet and open ones wait for no socket. */
  predicate Quiet(conns: seq<Conn>) {
    && (forall i :: 0 <= i < |conns| && !conns[i].open ==> conns[i].rx == [])
    && (forall i :: 0 <= i < |conns| && conns[i].open ==> conns[i].dest.None?)
    && (forall i :: 0 <= i < |conns| ==> |conns[i].rx| <= CSP_CONN_RXQUEUE_LEN)
  }

  lemma ClosedAreEmpty(conns: seq<Conn>)
    requires Quiet(conns)
    ensures forall i :: 0 <= i < |conns| && !conns[i].open ==> conns[i].rx == []
  {}

  // ----- buffers held by receive queues -----

  ghost function RxHeld(conns: seq<Conn>): multiset<nat> {
    if conns == [] then multiset{} else multiset(conns[0].rx) + RxHeld(conns[1..])
  }

  lemma {:induction false} RxHeldUpdate(conns: seq<Conn>, i: nat, c: Conn)
    requires i < |conns|
    ensures RxHeld(conns[i := c]) == RxHeld(conns) - multiset(conns[i].rx) + multiset(c.rx)
    ensures multiset(conns[i].rx) <= RxHeld(conns)
    decreases |conns|
  {
    if i == 0 {
      assert conns[i := c][1..] == conns[1..];
    } else {
      assert conns[i := c][1..] == conns[1..][i - 1 := c];
      RxHeldUpdate(conns[1..], i - 1, c);
    }
  }

  /** One more packet for connection `i`. */
  lemma RxHeldPush(conns: seq<Conn>, i: nat, b: nat)
    requires i < |conns|
    ensures RxHeld(conns[i := conns[i].(rx := conns[i].rx + [b])]) == RxHeld(conns) + multiset{b}
  {
    hide RxHeld;
    RxHeldUpdate(conns, i, conns[i].(rx := conns[i].rx + [b]));
    assert multiset(conns[i].rx + [b]) == multiset(conns[i].rx) + multiset{b};
  }

  lemma RxHeldFirst(conns: seq<Conn>, i: nat, c: Conn, b: nat)
    requires i < |conns| && conns[i].rx == [] && c.rx == [b]
    ensures RxHeld(conns[i := c]) == RxHeld(conns) + multiset{b}
  {
    hide RxHeld;
    RxHeldUpdate(conns, i, c);
  }

  lemma RxHeldSame(conns: seq<Conn>, i: nat, c: Conn)
    requires i < |conns| && c.rx == conns[i].rx
    ensures RxHeld(conns[i := c]) == RxHeld(conns)
  {
    hide RxHeld;
    RxHeldUpdate(conns, i, c);
  }

  lemma RxHeldClose(conns: seq<Conn>, i: nat, c: Conn)
    requires i < |conns| && c.rx == []
    ensures RxHeld(conns) == RxHeld(conns[i := c]) + multiset(conns[i].rx)
  {
    hide RxHeld;
    RxHeldUpdate(conns, i, c);
  }

  lemma RxHeldTake(conns: seq<Conn>, i: nat)
    requires i < |conns| && conns[i].rx != []
    ensures RxHeld(conns) == RxHeld(conns[i := conns[i].(rx := conns[i].rx[1..])]) + multiset{conns[i].rx[0]}
  {
    hide RxHeld;
    var rx := conns[i].rx;
    assert rx == [rx[0]] + rx[1..];
    assert multiset(rx) == multiset{rx[0]} + multiset(rx[1..]);
    RxHeldUpdate(conns, i, conns[i].(rx := rx[1..]));
  }

  lemma RxWithin(conns: seq<Conn>, i: nat)
    requires Quiet(conns) && i < |conns|
    ensures |conns[i].rx| <= CSP_CONN_RXQUEUE_LEN
  {}

  lemma OpenWaitsForNone(conns: seq<Conn>, i: nat)
    requires Quiet(conns) && i < |conns| && conns[i].open
    ensures conns[i].dest.None?
  {}

  lemma {:induction false} NoRxHeld(conns: seq<Conn>)
    requires forall i :: 0 <= i < |conns| ==> conns[i].rx == []
    ensures RxHeld(conns) == multiset{}
  {
    if conns != [] {
      NoRxHeld(conns[1..]);
    }
  }

  /** Of `held`, from which `all` has to go, `left` remains, from which `rx` still has to. */
  ghost predicate ToGo(left: multiset<nat>, rx: seq<nat>, held: multiset<nat>, all: seq<nat>) {
    multiset(rx) <= left && left - multiset(rx) == held - multiset(all)
  }

  lemma TakeFirst(left: multiset<nat>, rx: seq<nat>, held: multiset<nat>, all: seq<nat>)
    requires rx != [] && ToGo(left, rx, held, all)
    ensures rx[0] in left && ToGo(left - multiset{rx[0]}, rx[1..], held, all)
  {
    assert rx == [rx[0]] + rx[1..];
  }

  lemma NothingToGo(left: multiset<nat>, held: multiset<nat>, all: seq<nat>)
    requires ToGo(left, [], held, all)
    ensures left == held - multiset(all)
  {}

  // ----- what opening and closing keep -----

  lemma UpdateKeepsQuiet(conns: seq<Conn>, i: nat, c: Conn)
    requires i < |conns| && |c.rx| <= CSP_CONN_RXQUEUE_LEN && (if c.open then c.dest.None? else c.rx == [])
    requires Quiet(conns)
    ensures Quiet(conns[i := c])
  {}

  lemma UpdateKeepsSeparated(conns: seq<Conn>, i: nat, c: Conn)
    requires Separated(conns) && i < |conns| && WellPlaced(c)
    requires forall j :: 0 <= j < |conns| && j != i ==> Apart(c, conns[j]) && Apart(conns[j], c)
    ensures Separated(conns[i := c])
  {
    hide WellPlaced, Apart;
  }

  lemma CloseKeepsSeparated(conns: seq<Conn>, i: nat, c: Conn)
    requires Separated(conns) && i < |conns| && c.sport == conns[i].sport && !c.open
    ensures Separated(conns[i := c])
  {
    forall j | 0 <= j < |conns| && j != i
      ensures Apart(c, conns[j]) && Apart(conns[j], c)
    {
      assert Apart(conns[i], conns[j]);
    }
    assert WellPlaced(conns[i]);
    UpdateKeepsSeparated(conns, i, c);
  }

  lemma SameKeepsSeparated(conns: seq<Conn>, i: nat, c: Conn)
    requires Separated(conns) && i < |conns| && c.sport == conns[i].sport
    requires c.open == conns[i].open && c.kind == conns[i].kind && c.idin == conns[i].idin
    ensures Separated(conns[i := c])
  {
    forall j | 0 <= j < |conns| && j != i
      ensures Apart(c, conns[j]) && Apart(conns[j], c)
    {
      assert Apart(conns[i], conns[j]) && Apart(conns[j], conns[i]);
    }
    assert WellPlaced(conns[i]);
    UpdateKeepsSeparated(conns, i, c);
  }

  lemma ClientKeepsSeparated(conns: seq<Conn>, i: nat, c: Conn)
    requires Separated(conns) && i < |conns| && c.sport == conns[i].sport
    requires c.kind.Client? && c.idin.dport == c.sport
    ensures Separated(conns[i := c])
  {
    forall j | 0 <= j < |conns| && j != i
      ensures Apart(c, conns[j]) && Apart(conns[j], c)
    {
      assert Apart(conns[i], conns[j]);
    }
    assert WellPlaced(conns[i]);
    UpdateKeepsSeparated(conns, i, c);
  }

  /** A server may be opened for an id nobody matches yet. */
  lemma ServerKeepsSeparated(conns: seq<Conn>, i: nat, c: Conn)
    requires Separated(conns) && i < |conns| && c.sport == conns[i].sport
    requires c.kind.Server? && c.idin.dport <= CSP_PORT_MAX_BIND
    requires forall j :: 0 <= j < |conns| && j != i ==> !Matches(conns[j], c.idin)
    ensures Separated(conns[i := c])
  {
    forall j | 0 <= j < |conns| && j != i
      ensures Apart(c, conns[j]) && Apart(conns[j], c)
    {
      assert Apart(conns[i], conns[j]) && !Matches(conns[j], c.idin);
    }
    assert WellPlaced(conns[i]);
    UpdateKeepsSeparated(conns, i, c);
  }

  lemma AddKeepsSeparated(conns: seq<Conn>, c: Conn)
    requires Separated(conns) && WellPlaced(c) && !c.open
    requires forall j :: 0 <= j < |conns| ==> conns[j].sport < c.sport
    ensures Separated(conns + [c])
  {
    forall j | 0 <= j < |conns|
      ensures Apart(c, conns[j]) && Apart(conns[j], c)
    {
      assert conns[j].sport < c.sport;
    }
    hide WellPlaced, Apart;
  }

  /** Closed, empty, with outgoing ports below `port`. */
  predicate ClosedBelow(conns: seq<Conn>, port: bv8) {
    forall k :: 0 <= k < |conns| ==> !conns[k].open && conns[k].rx == [] && conns[k].sport < port
  }

  lemma AddClosed(conns: seq<Conn>, port: bv8)
    requires Separated(conns) && ClosedBelow(conns, port) && CSP_PORT_MAX_BIND < port < 64
    ensures var all := conns + [Conn(Client, false, NO_ID, NO_ID, port, [], None, 0)];
            Separated(all) && ClosedBelow(all, Next(port))
  {
    AddKeepsSeparated(conns, Conn(Client, false, NO_ID, NO_ID, port, [], None, 0));
    hide Separated;
    forall k | 0 <= k < |conns|
      ensures conns[k].sport < Next(port)
    {
      assert conns[k].sport < port;
    }
  }

  /** The options and id flags `csp_connect` settles on, or none if it asks for something not compiled in. */
  function ConnectOptions(opts: bv32, defaults: bv32): Option<(bv32, bv8)> {
    var all := opts | defaults;
    var o := if all & SO_CRC32PROHIB != 0 then all & !SO_CRC32REQ else all;
    if o & SO_RDPREQ != 0 || o & SO_HMACREQ != 0 then None
    else Some((o, if o & SO_CRC32REQ != 0 then FCRC32 else 0))
  }

  /**
   RDP and authentication are refused, whoever asks for them; the checksum flag is set exactly if a
   checksum is required and not prohibited, and prohibiting it wins.
   */
  lemma ConnectOptionsMean(opts: bv32, defaults: bv32)
    ensures var r, all := ConnectOptions(opts, defaults), opts | defaults;
            && (r.None? <==> all & 0x0001 != 0 || all & 0x0004 != 0)
            && (r.Some? ==> r.value.1 == if all & 0x0040 != 0 && all & 0x0080 == 0 then 0x01 else 0x00)
            && (r.Some? ==> r.value.0 == if all & 0x0080 != 0 then all & 0xFFFF_FFBF else all)
  {}

  /**
   What `csp_connect` does: none exactly if options or slots are lacking, else a client on a free
   slot's own outgoing port.
   */
  ghost predicate Dialled(x: seq<Conn>, y: seq<Conn>, r: Option<nat>, prio: bv8, dest: bv16, dport: bv8,
                          o: Option<(bv32, bv8)>) {
    && (r.None? <==> o.None? || forall i :: 0 <= i < |x| ==> x[i].open)
    && (r.None? ==> y == x)
    && (r.Some? ==>
          var i := r.value;
          && i < |x| && !x[i].open
          && y == x[i := Conn(Client, true,
                              Id(prio, o.value.1, dest, 0, x[i].sport, dport),
                              Id(prio, o.value.1, 0, dest, dport, x[i].sport),
                              x[i].sport, [], None, o.value.0)])
  }

  /** What `csp_read` does: the oldest packet, if the connection is open and has one. */
  ghost predicate ReadFrom(x: seq<Conn>, y: seq<Conn>, conn: Option<nat>, b: Option<nat>)
    requires conn.Some? ==> conn.value < |x|
  {
    && (b.None? <==> conn.None? || !x[conn.value].open || x[conn.value].rx == [])
    && (b.None? ==> y == x)
    && (b.Some? ==>
          var c := x[conn.value];
          b.value == c.rx[0] && y == x[conn.value := c.(rx := c.rx[1..])])
  }

  /** The loop of `csp_conn_init`. */
  method Slots(count: bv8) returns (all: seq<Conn>)
    requires 0 < count <= 63 - CSP_PORT_MAX_BIND
    ensures all != [] && Separated(all) && ClosedBelow(all, 64)
  {
    hide Separated, ClosedBelow, Next, PortsLeft, InRange;
    all := [];
    var last := CSP_PORT_MAX_BIND + 1 + count;
    var port := CSP_PORT_MAX_BIND + 1;
    PortRange(count);
    NoSlots(port);
    while port != last
      invariant InRange(port, last)
      invariant all == [] ==> port != last
      invariant Separated(all) && ClosedBelow(all, port)
      decreases PortsLeft(port)
    {
      NextInRange(port, last);
      AddClosed(all, port);
      all := all + [Conn(Client, false, NO_ID, NO_ID, port, [], None, 0)];
      port := Next(port);
    }
    PortsEnd(port, last);
    ClosedBelowMore(all, port);
  }

  lemma PortRange(count: bv8)
    requires 0 < count <= 63 - CSP_PORT_MAX_BIND
    ensures CSP_PORT_MAX_BIND + 1 != CSP_PORT_MAX_BIND + 1 + count
    ensures InRange(CSP_PORT_MAX_BIND + 1, CSP_PORT_MAX_BIND + 1 + count)
  {}

  function Next(port: bv8): bv8 { port + 1 }

  ghost function PortsLeft(port: bv8): nat { (64 - port) as nat }

  /** Above the bound ports, and not beyond the last. */
  predicate InRange(port: bv8, last: bv8) {
    CSP_PORT_MAX_BIND < port <= last <= 64
  }

  lemma NextInRange(port: bv8, last: bv8)
    requires InRange(port, last) && port != last
    ensures InRange(Next(port), last) && CSP_PORT_MAX_BIND < port < 64
    ensures PortsLeft(Next(port)) < PortsLeft(port)
  {}

  lemma PortsEnd(port: bv8, last: bv8)
    requires InRange(port, last)
    ensures port <= 64
  {}

  lemma NoSlots(port: bv8)
    ensures Separated([]) && ClosedBelow([], port)
  {}

  lemma ClosedBelowMore(conns: seq<Conn>, port: bv8)
    requires ClosedBelow(conns, port) && port <= 64
    ensures ClosedBelow(conns, 64)
  {}

  class ConnTable {
    const pool: Pool
    var conns: seq<Conn>
    var lastGiven: nat

    ghost predicate Valid()
      reads this
    {
      Separated(conns) && Quiet(conns) && |conns| > 0 && lastGiven < |conns|
    }

    /** `csp_conn_init`: as many connections as there are ports left above the bound ones, at most. */
    constructor (pool: Pool, count: bv8)
      requires 0 < count <= 63 - CSP_PORT_MAX_BIND
      ensures Valid() && this.pool == pool
      ensures forall i :: 0 <= i < |conns| ==> !conns[i].open
      ensures RxHeld(conns) == multiset{}
    {
      hide Separated;
      var all := Slots(count);
      this.pool := pool;
      conns := all;
      lastGiven := 0;
      NoRxHeld(all);
    }

    /** `csp_conn_find_existing`. */
    method FindExisting(id: Id) returns (r: Option<nat>)
      ensures r.None? ==> forall i :: 0 <= i < |conns| ==> !Matches(conns[i], id)
      ensures r.Some? ==> r.value < |conns| && Matches(conns[r.value], id)
    {
      var i := 0;
      while i < |conns|
        invariant 0 <= i <= |conns|
        invariant forall j :: 0 <= j < i ==> !Matches(conns[j], id)
      {
        if Matches(conns[i], id) {
          return Some(i);
        }
        i := i + 1;
      }
      return None;
    }

    /** `csp_conn_flush_rx_queue`: every packet goes back to the pool. */
    method Flush(i: nat, ghost held: multiset<nat>)
      requires i < |conns| && pool.Conserved(held) && multiset(conns[i].rx) <= held
      modifies this`conns, pool`free, pool`refcount
      ensures conns == old(conns)[i := old(conns)[i].(rx := [])]
      ensures pool.Conserved(held - multiset(old(conns)[i].rx))
      ensures old(conns)[i].rx == [] ==> pool.free == old(pool.free)
    {
      hide Pool.Conserved;
      ghost var left := held;
      ghost var before := conns;
      while conns[i].rx != []
        invariant |conns| == |before| && conns == before[i := before[i].(rx := conns[i].rx)]
        invariant pool.Conserved(left) && ToGo(left, conns[i].rx, held, before[i].rx)
        invariant before[i].rx == [] ==> conns[i].rx == [] && pool.free == old(pool.free)
        decreases |conns[i].rx|
      {
        hide ToGo;
        var rx := conns[i].rx;
        TakeFirst(left, rx, held, before[i].rx);
        pool.Free(rx[0], left);
        left := left - multiset{rx[0]};
        conns := conns[i := conns[i].(rx := rx[1..])];
      }
      NothingToGo(left, held, before[i].rx);
    }

    /** `csp_conn_allocate`: the next closed slot after the one given last; none exactly when all are open. */
    method Allocate(kind: Kind) returns (r: Option<nat>)
      requires |conns| > 0 && lastGiven < |conns|
      modifies this
      ensures lastGiven < |conns|
      ensures r.None? <==> forall i :: 0 <= i < |old(conns)| ==> old(conns)[i].open
      ensures r.None? ==> conns == old(conns)
      ensures r.Some? ==>
                && r.value < old(|conns|) && !old(conns)[r.value].open && lastGiven == r.value
                && conns == old(conns)[r.value := Fresh(old(conns)[r.value], kind)]
    {
      var i := lastGiven;
      var j := 0;
      while j < |conns|
        invariant 0 <= j <= |conns| && i < |conns| && conns == old(conns)
        invariant i == if lastGiven + j < |conns| then lastGiven + j else lastGiven + j - |conns|
        invariant forall k :: 0 <= k < |conns| && (lastGiven < k <= lastGiven + j || k <= lastGiven + j - |conns|) ==>
                    conns[k].open
      {
        i := if i + 1 == |conns| then 0 else i + 1;
        if !conns[i].open {
          lastGiven := i;
          conns := conns[i := Fresh(conns[i], kind)];
          return Some(i);
        }
        j := j + 1;
      }
      return None;
    }

    /** `csp_conn_new`. */
    method New(idin: Id, idout: Id, kind: Kind, ghost held: multiset<nat>) returns (r: Option<nat>)
      requires Valid() && pool.Conserved(held)
      modifies this, pool`free, pool`refcount
      ensures lastGiven < |conns| && pool.Conserved(held) && pool.free == old(pool.free)
      ensures r.None? <==> forall i :: 0 <= i < |old(conns)| ==> old(conns)[i].open
      ensures r.None? ==> conns == old(conns)
      ensures r.Some? ==>
                && r.value < old(|conns|) && !old(conns)[r.value].open
                && conns == old(conns)[r.value := old(conns)[r.value].(kind := kind, open := true,
                                                                      idin := idin, idout := idout)]
    {
      r := Allocate(kind);
      if r.Some? {
        var i := r.value;
        conns := conns[i := conns[i].(idin := idin, idout := idout)];
        assert conns[i].rx == [];
        Flush(i, held);
      }
    }

    /** `csp_conn_close`: a second close changes nothing. */
    method Close(i: nat, ghost held: multiset<nat>)
      requires i < |conns| && pool.Conserved(held) && multiset(conns[i].rx) <= held
      modifies this`conns, pool`free, pool`refcount
      ensures var c := old(conns)[i];
              && conns == (if c.open then old(conns)[i := c.(rx := [], open := false)] else old(conns))
              && pool.Conserved(if c.open then held - multiset(c.rx) else held)
    {
      if !conns[i].open {
        return;
      }
      Flush(i, held);
      conns := conns[i := conns[i].(open := false)];
    }

    /** `csp_connect`: a client on the slot's own outgoing port, unless options or slots are lacking. */
    method Connect(prio: bv8, dest: bv16, dport: bv8, opts: bv32, defaults: bv32, ghost held: multiset<nat>)
      returns (r: Option<nat>)
      requires Valid() && pool.Conserved(held)
      modifies this, pool`free, pool`refcount
      ensures Valid() && pool.Conserved(held) && RxHeld(conns) == old(RxHeld(conns)) && pool.free == old(pool.free)
      ensures Dialled(old(conns), conns, r, prio, dest, dport, ConnectOptions(opts, defaults))
    {
      hide ConnectOptions, Separated, Quiet, RxHeld;
      var o := ConnectOptions(opts, defaults);
      if o.None? {
        return None;
      }
      var flags := o.value.1;
      ghost var before := conns;
      ClosedAreEmpty(before);
      r := New(Id(prio, flags, dest, 0, 0, dport), Id(prio, flags, 0, dest, dport, 0), Client, held);
      if r.Some? {
        var i := r.value;
        var c := conns[i];
        conns := conns[i := c.(idout := c.idout.(sport := c.sport), idin := c.idin.(dport := c.sport),
                               dest := None, opts := o.value.0)];
        assert conns == before[i := conns[i]];
        ClientKeepsSeparated(before, i, conns[i]);
        UpdateKeepsQuiet(before, i, conns[i]);
        RxHeldUpdate(before, i, conns[i]);
      }
    }
  }

  /** A slot as `csp_conn_allocate` hands it out: open, with the flags cleared. */
  function Fresh(c: Conn, kind: Kind): Conn {
    c.(open := true, kind := kind, idin := c.idin.(flags := 0), idout := c.idout.(flags := 0))
  }
}
