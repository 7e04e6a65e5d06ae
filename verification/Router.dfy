/**
 The decisions of csp_io.c and csp_route.c about one packet, and the bookkeeping of the
 queues of a node, on values. Buffers, connections, interfaces, sockets and callbacks are
 named by numbers.
 */
module Router {
  import opened Words
  import opened CspId
  import opened Packet
  import opened Crc32
  import opened Conn
  import opened Forward
  import opened Outgoing
  import opened Kiss

  /** `csp_socket_t`: the queue holds buffers if the socket is connection-less, else connections to accept. */
  datatype Socket = Socket(opts: bv32, queue: seq<nat>) {
    predicate ConnLess() {
      opts & SO_CONN_LESS != 0
    }
  }

  /** No queue holds more than it has room for, and packets come from interfaces there are. */
  ghost predicate QueuesFit(qfifo: seq<Input>, sockets: seq<Socket>, ifaces: nat) {
    && |qfifo| <= CSP_QFIFO_LEN
    && (forall i :: 0 <= i < |qfifo| ==> qfifo[i].iface < ifaces)
    && (forall s :: 0 <= s < |sockets| ==> |sockets[s].queue| <= CSP_CONN_RXQUEUE_LEN)
  }

  // ----- what queues hold -----

  function Of(b: Option<nat>): multiset<nat> {
    if b.Some? then multiset{b.value} else multiset{}
  }

  ghost function FifoHeld(q: seq<Input>): multiset<nat> {
    if q == [] then multiset{} else Of(q[0].packet) + FifoHeld(q[1..])
  }

  lemma {:induction false} FifoHeldPush(q: seq<Input>, x: Input)
    ensures FifoHeld(q + [x]) == FifoHeld(q) + Of(x.packet)
  {
    if q == [] {
      assert q + [x] == [x];
    } else {
      assert (q + [x])[1..] == q[1..] + [x];
      FifoHeldPush(q[1..], x);
    }
  }

  /** What a socket's queue holds, if it is a socket of the given sort. */
  ghost function QueueOf(s: Socket, connLess: bool): multiset<nat> {
    if s.ConnLess() == connLess then multiset(s.queue) else multiset{}
  }

  ghost function Queued(sockets: seq<Socket>, connLess: bool): multiset<nat> {
    if sockets == [] then multiset{} else QueueOf(sockets[0], connLess) + Queued(sockets[1..], connLess)
  }

  lemma {:induction false} QueuedUpdate(sockets: seq<Socket>, i: nat, s: Socket, connLess: bool)
    requires i < |sockets|
    ensures Queued(sockets[i := s], connLess)
         == Queued(sockets, connLess) - QueueOf(sockets[i], connLess) + QueueOf(s, connLess)
    ensures QueueOf(sockets[i], connLess) <= Queued(sockets, connLess)
    decreases |sockets|
  {
    hide QueueOf;
    if i == 0 {
      assert sockets[i := s][1..] == sockets[1..];
    } else {
      assert sockets[i := s][1..] == sockets[1..][i - 1 := s];
      QueuedUpdate(sockets[1..], i - 1, s, connLess);
    }
  }

  /** One more entry in a socket's queue. */
  function Posted(sockets: seq<Socket>, s: nat, x: nat): seq<Socket>
    requires s < |sockets|
  {
    sockets[s := sockets[s].(queue := sockets[s].queue + [x])]
  }

  /** The first entry of a socket's queue taken out. */
  function Taken(sockets: seq<Socket>, s: nat): seq<Socket>
    requires s < |sockets| && sockets[s].queue != []
  {
    sockets[s := sockets[s].(queue := sockets[s].queue[1..])]
  }

  lemma QueuedPosted(sockets: seq<Socket>, s: nat, x: nat, connLess: bool)
    requires s < |sockets|
    ensures Queued(Posted(sockets, s, x), connLess)
         == Queued(sockets, connLess) + if sockets[s].ConnLess() == connLess then multiset{x} else multiset{}
  {
    hide Queued;
    QueuedUpdate(sockets, s, sockets[s].(queue := sockets[s].queue + [x]), connLess);
    assert multiset(sockets[s].queue + [x]) == multiset(sockets[s].queue) + multiset{x};
  }

  lemma QueuedTaken(sockets: seq<Socket>, s: nat, connLess: bool)
    requires s < |sockets| && sockets[s].queue != []
    ensures Queued(Taken(sockets, s), connLess)
         == Queued(sockets, connLess)
            - if sockets[s].ConnLess() == connLess then multiset{sockets[s].queue[0]} else multiset{}
    ensures sockets[s].ConnLess() == connLess ==> sockets[s].queue[0] in Queued(sockets, connLess)
  {
    hide Queued;
    var q := sockets[s].queue;
    assert q == [q[0]] + q[1..];
    assert multiset(q) == multiset{q[0]} + multiset(q[1..]);
    QueuedUpdate(sockets, s, sockets[s].(queue := q[1..]), connLess);
  }

  /** Sockets with the given options and nothing in their queues. */
  function EmptySockets(opts: seq<bv32>): (s: seq<Socket>)
    ensures |s| == |opts| && forall i :: 0 <= i < |s| ==> s[i] == Socket(opts[i], [])
  {
    seq(|opts|, i requires 0 <= i < |opts| => Socket(opts[i], []))
  }

  lemma {:induction false} NothingQueued(opts: seq<bv32>, connLess: bool)
    ensures Queued(EmptySockets(opts), connLess) == multiset{}
  {
    if opts != [] {
      assert EmptySockets(opts)[1..] == EmptySockets(opts[1..]);
      NothingQueued(opts[1..], connLess);
    }
  }

  // ----- sums of what is held -----

  /** What the router's queue, the connections, the connection-less sockets, the application and the drivers hold. */
  ghost function Total(fifo: multiset<nat>, rx: multiset<nat>, queued: multiset<nat>, app: multiset<nat>,
                       drivers: multiset<nat>): multiset<nat> {
    fifo + rx + queued + app + drivers
  }

  lemma TotalMore(f: multiset<nat>, r: multiset<nat>, q: multiset<nat>, a: multiset<nat>, d: multiset<nat>,
                  x: multiset<nat>)
    ensures Total(f + x, r, q, a, d) == Total(f, r, q, a, d) + x
    ensures Total(f, r + x, q, a, d) == Total(f, r, q, a, d) + x
    ensures Total(f, r, q + x, a, d) == Total(f, r, q, a, d) + x
    ensures Total(f, r, q, a + x, d) == Total(f, r, q, a, d) + x
    ensures Total(f, r, q, a, d + x) == Total(f, r, q, a, d) + x
  {}

  /** The head of the router's queue taken out. */
  lemma Dequeued(q: seq<Input>, r: multiset<nat>, s: multiset<nat>, a: multiset<nat>, d: multiset<nat>)
    requires q != []
    ensures Total(FifoHeld(q), r, s, a, d) == Total(FifoHeld(q[1..]), r, s, a, d) + Of(q[0].packet)
  {
    hide Total, Of;
    Commute(FifoHeld(q[1..]), Of(q[0].packet));
    TotalMore(FifoHeld(q[1..]), r, s, a, d, Of(q[0].packet));
  }

  lemma Commute<T>(x: multiset<T>, y: multiset<T>)
    ensures x + y == y + x
  {}

  lemma QueuesFitRest(q: seq<Input>, sockets: seq<Socket>, ifaces: nat)
    requires QueuesFit(q, sockets, ifaces) && q != []
    ensures QueuesFit(q[1..], sockets, ifaces) && q[0].iface < ifaces
  {}

  lemma NothingHeld()
    ensures Total(FifoHeld([]), multiset{}, multiset{}, multiset{}, multiset{}) == multiset{}
  {}

  lemma AddBack<T>(m: multiset<T>, x: multiset<T>)
    ensures m + x - x == m && m <= m + x && x <= m + x
  {}

  lemma Restored<T>(m: multiset<T>, x: multiset<T>)
    requires x <= m
    ensures m - x + x == m
  {}

  lemma InSum<T>(m: multiset<T>, b: T)
    ensures b in m + multiset{b} && m + multiset{b} - multiset{b} == m && m <= m + multiset{b}
  {}

  lemma Nothing<T>(m: multiset<T>)
    ensures m + multiset{} == m && m - multiset{} == m
  {}

  lemma InTotal(f: multiset<nat>, r: multiset<nat>, q: multiset<nat>, a: multiset<nat>, d: multiset<nat>, b: nat)
    requires b in a
    ensures b in Total(f, r, q, a, d)
  {}

  lemma LessRight<T>(m: multiset<T>, rest: multiset<T>, b: T)
    requires b in rest
    ensures b in m + rest && m + (rest - multiset{b}) == m + rest - multiset{b}
  {}

  lemma InRight<T>(m: multiset<T>, rest: multiset<T>, b: T)
    requires b in rest
    ensures b in m + rest
  {}

  lemma Regroup<T>(m: multiset<T>, rest: multiset<T>, x: multiset<T>)
    ensures m + (rest + x) == m + rest + x
  {}

  /** Passing something from one side of a sum to the other. */
  lemma PassOn<T>(m: multiset<T>, rest: multiset<T>, x: multiset<T>)
    ensures m + x + rest == m + rest + x
  {}

  // ----- who may read, send on and close a connection -----

  /**
   Every open connection has exactly one owner, a place in an accept queue or the application; closed
   ones have none.
   */
  ghost predicate OneOwnerEach(conns: seq<Conn>, owners: multiset<nat>) {
    forall i: nat :: owners[i] == if i < |conns| && conns[i].open then 1 else 0
  }

  lemma NobodyOwns(conns: seq<Conn>)
    requires forall i :: 0 <= i < |conns| ==> !conns[i].open
    ensures OneOwnerEach(conns, multiset{} + multiset{})
  {}

  lemma OwnerIsOpen(conns: seq<Conn>, owners: multiset<nat>, i: nat)
    requires OneOwnerEach(conns, owners) && i in owners
    ensures i < |conns| && conns[i].open && owners[i] == 1
  {}

  lemma ClosedNotOwned(conns: seq<Conn>, queued: multiset<nat>, handles: multiset<nat>, i: nat)
    requires OneOwnerEach(conns, queued + handles) && i < |conns| && !conns[i].open
    ensures i !in handles
  {
    assert (queued + handles)[i] == 0;
  }

  /** A handle passes from a queue to the application. */
  lemma TakingOver(conns: seq<Conn>, queued: multiset<nat>, handles: multiset<nat>, i: nat)
    requires OneOwnerEach(conns, queued + handles) && i in queued
    ensures OneOwnerEach(conns, (queued - multiset{i}) + (handles + multiset{i}))
    ensures i < |conns| && conns[i].open && i !in handles
  {
    assert (queued - multiset{i}) + (handles + multiset{i}) == queued + handles;
    assert (queued + handles)[i] == queued[i] + handles[i];
  }

  lemma OpenedHasOwner(conns: seq<Conn>, owners: multiset<nat>, i: nat, c: Conn)
    requires OneOwnerEach(conns, owners) && i < |conns| && !conns[i].open && c.open
    ensures OneOwnerEach(conns[i := c], owners + multiset{i})
  {}

  lemma ClosedHasNone(conns: seq<Conn>, owners: multiset<nat>, i: nat, c: Conn)
    requires OneOwnerEach(conns, owners) && i < |conns| && conns[i].open && !c.open
    ensures OneOwnerEach(conns[i := c], owners - multiset{i})
  {}

  lemma SameOwners(conns: seq<Conn>, owners: multiset<nat>, i: nat, c: Conn)
    requires OneOwnerEach(conns, owners) && i < |conns| && conns[i].open == c.open
    ensures OneOwnerEach(conns[i := c], owners)
  {}

  // ----- what the router decides -----

  datatype DedupMode = DedupOff | DedupForward | DedupIncoming | DedupAll

  predicate Deduplicates(mode: DedupMode, toMe: bool) {
    mode.DedupAll? || (toMe && mode.DedupIncoming?) || (!toMe && mode.DedupForward?)
  }

  /** Which packets each mode asks about: none, those for others, those for this node, all. */
  lemma ModesAsk(toMe: bool)
    ensures !Deduplicates(DedupOff, toMe) && Deduplicates(DedupAll, toMe)
    ensures Deduplicates(DedupForward, toMe) <==> !toMe
    ensures Deduplicates(DedupIncoming, toMe) <==> toMe
  {}

  /** `csp_route_security_check`: the packet as accepted, without its checksum, if it passes. */
  function Checked(v: Version, opts: bv32, p: Packet): Option<Packet> {
    if p.id.flags & FCRC32 != 0 then
      if CrcMatches(v, p.id, p.data) then Some(p.(data := p.data[..|p.data| - 4])) else None
    else if opts & SO_CRC32REQ != 0 then None
    else Some(p)
  }

  /** `csp_route_check_options`: nothing that is not compiled in. */
  predicate Supported(id: Id) {
    id.flags & FHMAC == 0 && id.flags & FRDP == 0
  }

  /** What is not compiled in: RDP and authentication, flags 0x02 and 0x08. */
  lemma SupportedFlags(id: Id)
    ensures Supported(id) <==> id.flags & 0x0A == 0
  {}

  function Swapped(id: Id): Id {
    Id(id.pri, id.flags, id.dst, id.src, id.sport, id.dport)
  }

  /** What happened to the packet at the head of the router's queue. */
  datatype Verdict =
    | Idle
    | Dropped
    | Forwarded(hops: seq<Hop>, fates: seq<Fate>)
    | ToCallback(callback: nat)
    | ToSocket(socket: nat)
    | ToConn(conn: nat)
    | Accepted(conn: nat, socket: nat)
    | ClosedAtOnce(conn: nat, socket: nat)

  /** What the delivery of a packet for this node depends on: `callback` and `socket` are what its port is bound to. */
  datatype Delivery = Delivery(v: Version, p: Packet, conns: seq<Conn>, sockets: seq<Socket>, callback: Option<nat>,
                               socket: Option<nat>) {
    predicate Valid() {
      && Separated(conns) && (socket.Some? ==> socket.value < |sockets|)
      && (forall i :: 0 <= i < |conns| ==> |conns[i].rx| <= CSP_CONN_RXQUEUE_LEN)
    }

    predicate Passes(opts: bv32) {
      Checked(v, opts, p).Some?
    }

    predicate ConnLess()
      requires Valid()
    {
      socket.Some? && sockets[socket.value].ConnLess()
    }

    /** The packet is for connections: no callback and no connection-less socket takes it first. */
    predicate Connected()
      requires Valid()
    {
      callback.None? && !ConnLess()
    }

    predicate For(i: nat) {
      i < |conns| && Matches(conns[i], p.id)
    }

    ghost predicate HasConn() {
      exists i: nat :: For(i)
    }

    /** A new connection to socket `s` in slot `i`. */
    ghost predicate Opens(i: nat, s: nat)
      requires Valid()
    {
      && Connected() && !HasConn() && socket == Some(s) && Passes(sockets[s].opts)
      && i < |conns| && !conns[i].open
    }

    predicate AllOpen() {
      forall i :: 0 <= i < |conns| ==> conns[i].open
    }

    /** The packet gets as far as a queue with no room, or not even that far. */
    ghost predicate Refused()
      requires Valid()
    {
      if callback.Some? then !Passes(SO_CRC32REQ)
      else if ConnLess() then
        var s := sockets[socket.value];
        !Passes(s.opts) || |s.queue| >= CSP_CONN_RXQUEUE_LEN
      else if HasConn() then
        exists i: nat :: For(i) && (!Passes(conns[i].opts) || |conns[i].rx| >= CSP_CONN_RXQUEUE_LEN)
      else socket.None? || !Passes(sockets[socket.value].opts) || AllOpen()
    }

    /** The verdicts the router may reach. */
    ghost predicate Allows(verdict: Verdict)
      requires Valid()
    {
      match verdict
      case Idle => false
      case Forwarded(_, _) => false
      case Dropped => Refused()
      case ToCallback(c) => callback == Some(c) && Passes(SO_CRC32REQ)
      case ToSocket(s) =>
        && callback.None? && ConnLess() && socket == Some(s)
        && Passes(sockets[s].opts) && |sockets[s].queue| < CSP_CONN_RXQUEUE_LEN
      case ToConn(i) => Connected() && For(i) && Passes(conns[i].opts) && |conns[i].rx| < CSP_CONN_RXQUEUE_LEN
      case Accepted(i, s) => Opens(i, s) && |sockets[s].queue| < CSP_CONN_RXQUEUE_LEN
      case ClosedAtOnce(i, s) => Opens(i, s) && |sockets[s].queue| >= CSP_CONN_RXQUEUE_LEN
    }

    /** What is delivered: the packet without a verified checksum. */
    function Payload(): Packet {
      if p.id.flags & FCRC32 != 0 && |p.data| >= 4 then p.(data := p.data[..|p.data| - 4]) else p
    }
  }

  /** The same outcome up to the choice of a slot for a new connection. */
  predicate SameOutcome(v: Verdict, w: Verdict) {
    || v == w
    || (v.Accepted? && w.Accepted? && v.socket == w.socket)
    || (v.ClosedAtOnce? && w.ClosedAtOnce? && v.socket == w.socket)
  }

  /** The rules leave no choice but that of the slot, because at most one connection matches. */
  lemma OutcomeIsUnique(d: Delivery, v: Verdict, w: Verdict)
    requires d.Valid() && d.Allows(v) && d.Allows(w)
    ensures SameOutcome(v, w)
  {
    hide Delivery.Passes, Separated, Matches;
    forall i: nat, j: nat | d.For(i) && d.For(j)
      ensures i == j
    {
      UniqueMatch(d.conns, d.p.id, i, j);
    }
  }

  /** And they always leave one. */
  lemma SomeOutcome(d: Delivery)
    requires d.Valid()
    ensures exists v :: d.Allows(v)
  {
    hide Delivery.Passes, Separated, Matches;
    if d.Refused() {
      assert d.Allows(Dropped);
    } else if d.callback.Some? {
      assert d.Allows(ToCallback(d.callback.value));
    } else if d.ConnLess() {
      assert d.Allows(ToSocket(d.socket.value));
    } else if i: nat :| d.For(i) {
      assert d.Allows(ToConn(i));
    } else {
      var i: nat :| i < |d.conns| && !d.conns[i].open;
      var s := d.socket.value;
      assert d.Allows(if |d.sockets[s].queue| < CSP_CONN_RXQUEUE_LEN then Accepted(i, s) else ClosedAtOnce(i, s));
    }
  }

  /**
   Who comes first: a callback on the port, then a connection-less socket, flag 0x0100, then a
   connection that matches, and only then is a connection opened, and never to a connection-less
   socket. Callbacks are given packets only with a checksum of their own that matches.
   */
  lemma WhoComesFirst(d: Delivery, v: Verdict)
    requires d.Valid() && d.Allows(v)
    ensures d.callback.Some? ==> v == Dropped || v == ToCallback(d.callback.value)
    ensures v.ToCallback? ==> d.p.id.flags & 0x01 != 0 && CrcMatches(d.v, d.p.id, d.p.data)
    ensures d.callback.None? && d.socket.Some? && d.sockets[d.socket.value].opts & 0x0100 != 0 ==>
              v == Dropped || v == ToSocket(d.socket.value)
    ensures v.ToSocket? || v.Accepted? || v.ClosedAtOnce? ==>
              d.callback.None? && d.socket == Some(v.socket)
              && (v.ToSocket? <==> d.sockets[v.socket].opts & 0x0100 != 0)
    ensures v.Accepted? || v.ClosedAtOnce? ==> forall i :: 0 <= i < |d.conns| ==> !Matches(d.conns[i], d.p.id)
    ensures v.ToConn? ==> v.conn < |d.conns| && Matches(d.conns[v.conn], d.p.id)
  {
    hide Separated, Matches, CrcMatches;
    if v.Accepted? || v.ClosedAtOnce? {
      forall i | 0 <= i < |d.conns|
        ensures !Matches(d.conns[i], d.p.id)
      {
        assert !d.For(i);
      }
    }
  }

  /** What passes the check is delivered without its checksum. */
  lemma CheckedIsPayload(d: Delivery, opts: bv32)
    requires d.Passes(opts)
    ensures Checked(d.v, opts, d.p) == Some(d.Payload()) && d.Payload().id == d.p.id
  {
    hide Header, Crc32c;
  }

  /**
   Whatever a node sends with a checksum of its own, a node that gets it unchanged takes off
   again: the payload is what was sent, and no check of any socket or connection fails.
   */
  lemma SentPasses(d: Delivery, id: Id, data: seq<byte>, opts: bv32)
    requires FateOf(id, data, true) == Handed(d.p)
    ensures d.Payload() == Packet(id, data)
    ensures d.Passes(opts) <==> (id.flags & FCRC32 != 0 || opts & SO_CRC32REQ == 0)
    ensures id.flags & FHMAC == 0
  {
    hide Header, Crc32c, WithCrc;
    WithCrcMatches(d.v, id, data);
  }

  /** What a client's options come to: its packets carry a checksum exactly if one is required and not prohibited. */
  lemma ClientChecksums(x: seq<Conn>, y: seq<Conn>, i: nat, prio: bv8, dest: bv16, dport: bv8, opts: bv32,
                        defaults: bv32, data: seq<byte>)
    requires Dialled(x, y, Some(i), prio, dest, dport, ConnectOptions(opts, defaults))
    ensures var id, all := y[i].idout, opts | defaults;
            FateOf(id, data, true) ==
              if all & SO_CRC32REQ == 0 || all & SO_CRC32PROHIB != 0 then Handed(Packet(id, data))
              else if |data| + 4 > CSP_BUFFER_SIZE then Refused else Handed(Packet(id, WithCrc(data)))
  {
    hide WithCrc, ConnectOptions;
    ConnectOptionsMean(opts, defaults);
  }

  /** What the router can change besides buffers: connections, sockets, and what the application has. */
  datatype World = World(conns: seq<Conn>, sockets: seq<Socket>,
                         app: multiset<nat>, drivers: multiset<nat>, handles: multiset<nat>, sent: seq<Sent>)

  /** The connection a packet with this id opens to a socket with these options, before anything is queued. */
  function Opened(slot: Conn, id: Id, opts: bv32): Conn {
    slot.(kind := Server, open := true, idin := id, idout := Swapped(id), opts := opts)
  }

  /** What can come of a packet nobody has a connection for, at socket `s`. */
  ghost predicate NewOrNone(verdict: Verdict, s: nat, x: World) {
    s < |x.sockets| &&
    match verdict
    case Dropped => forall i :: 0 <= i < |x.conns| ==> x.conns[i].open
    case Accepted(i, s') => s' == s && i < |x.conns| && !x.conns[i].open && |x.sockets[s].queue| < CSP_CONN_RXQUEUE_LEN
    case ClosedAtOnce(i, s') =>
      s' == s && i < |x.conns| && !x.conns[i].open && |x.sockets[s].queue| >= CSP_CONN_RXQUEUE_LEN
    case _ => false
  }

  /** What a verdict about buffer `b` with packet id `id` comes to: everything not mentioned stays as it was. */
  ghost predicate Carried(verdict: Verdict, b: nat, id: Id, x: World, y: World) {
    match verdict
    case Idle => y == x
    case Dropped => y == x
    case Forwarded(_, _) => y == x.(drivers := y.drivers, sent := y.sent)
    case ToCallback(_) => y == x.(app := x.app + multiset{b})
    case ToSocket(s) => s < |x.sockets| && y == x.(sockets := Posted(x.sockets, s, b))
    case ToConn(i) => i < |x.conns| && y == x.(conns := x.conns[i := x.conns[i].(rx := x.conns[i].rx + [b])])
    case Accepted(i, s) =>
      && i < |x.conns| && s < |x.sockets|
      && y == x.(conns := x.conns[i := Opened(x.conns[i], id, x.sockets[s].opts).(rx := [b], dest := None)],
                 sockets := Posted(x.sockets, s, i))
    case ClosedAtOnce(i, s) =>
      && i < |x.conns| && s < |x.sockets|
      && var c := Opened(x.conns[i], id, x.sockets[s].opts).(open := false, rx := [], dest := Some(s));
         y == x.(conns := x.conns[i := c])
  }

  // ----- a conversation -----

  /**
   A client's packets open a connection at the server that matches all of them, and nobody else's.
   What the server sends back on it keeps priority and flags, and matches the client's connection
   and, by `UniqueMatch`, no other; so does an answer from any other source and port.
   */
  lemma Conversation(x: seq<Conn>, y: seq<Conn>, i: nat, prio: bv8, dest: bv16, dport: bv8, o: Option<(bv32, bv8)>,
                     slot: Conn, src: bv16, opts: bv32)
    requires Dialled(x, y, Some(i), prio, dest, dport, o)
    ensures var request := y[i].idout.(src := src);
            var server := Opened(slot, request, opts);
            && Matches(server, request)
            && server.idout == Id(prio, o.value.1, dest, src, y[i].sport, dport) && server.opts == opts
            && Matches(y[i], server.idout)
            && (forall s, p :: Matches(y[i], server.idout.(src := s, sport := p)))
            && (forall s, p :: Matches(server, request.(src := s, sport := p)) <==> s == src && p == y[i].sport)
            && !Matches(server.(open := false), request) && !Matches(y[i].(open := false), server.idout)
            && (Separated(y) ==> forall j :: 0 <= j < |y| && Matches(y[j], server.idout) ==> j == i)
  {
    var reply := Opened(slot, y[i].idout.(src := src), opts).idout;
    if Separated(y) {
      forall j | 0 <= j < |y| && Matches(y[j], reply)
        ensures j == i
      {
        UniqueMatch(y, reply, i, j);
      }
    }
  }
}
