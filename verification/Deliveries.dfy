/**
 What is true of every run about buffers and the packets in them: that none is in two places,
 and that the application is given exactly the packets the router delivered, in order.
 */
module Deliveries {
  import opened Words
  import opened CspId
  import opened Packet
  import opened BufferPool
  import opened Port
  import opened Conn
  import opened Forward
  import opened Outgoing
  import opened Router
  import opened Dedup
  import opened Runs

  // ----- no buffer in two places -----

  /** Between `m` and `n` nobody asks for a second reference to a buffer. */
  predicate NoRetain(t: Trace, m: nat, n: nat)
    requires m <= n <= |t.ops|
  {
    forall k :: m <= k < n ==> !t.ops[k].Retain?
  }

  lemma SharedByRetain(c: Setting, op: Op, e: Event, x: Snapshot, y: Snapshot)
    requires c.net.Valid() && Transition(c, op, e, x, y) && !op.Retain?
    ensures y.shared == x.shared
  {
    hide Net.Valid, SentOut, Delivered, Dialled, ConnectOptions, IdFor, IdAfter, Duplicate, Record, Footprint, ToMe;
    hide Extended, Bindable;
  }

  lemma {:induction false} StaysUnshared(c: Setting, t: Trace, m: nat, n: nat)
    requires c.net.Valid() && Follows(c, t) && m <= n <= |t.ops| && NoRetain(t, m, n) && !t.states[m].shared
    ensures !t.states[n].shared
    decreases n - m
  {
    hide Transition, Follows, Net.Valid, OneOwner;
    if m < n {
      StepAt(c, t, n - 1);
      StaysUnshared(c, t, m, n - 1);
      SharedByRetain(c, t.ops[n - 1], t.events[n - 1], t.states[n - 1], t.states[n]);
    }
  }

  /**
   Over every run in which nobody asks for a second reference, whatever else happens: no buffer is
   ever in two places, not in two queues, nor with the application and in a queue, nor with a driver.
   */
  lemma NeverInTwoPlaces(c: Setting, t: Trace, n: nat)
    requires c.net.Valid() && Follows(c, t) && n <= |t.ops| && NoRetain(t, 0, n) && !t.states[0].shared
    ensures HeldOnce(t.states[n].Held())
  {
    hide Transition, Net.Valid, Snapshot.Held, HeldOnce;
    StaysUnshared(c, t, 0, n);
    assert t.states[n].Accounted();
  }

  // ----- where packets wait for the application -----

  /** The receive queue of a connection, or the queue of a connection-less socket. */
  datatype Place = AtConn(conn: nat) | AtSocket(socket: nat)

  predicate Exists(w: World, p: Place) {
    match p
    case AtConn(i) => i < |w.conns|
    case AtSocket(s) => s < |w.sockets| && w.sockets[s].ConnLess()
  }

  /** The buffers that wait there. */
  function Waits(w: World, p: Place): seq<nat>
    requires Exists(w, p)
  {
    match p
    case AtConn(i) => w.conns[i].rx
    case AtSocket(s) => w.sockets[s].queue
  }

  /** What the router puts there. */
  function Entering(e: Event, p: Place): seq<nat> {
    if e.Decided? && match p
                     case AtConn(i) => e.verdict == ToConn(i) || (e.verdict.Accepted? && e.verdict.conn == i)
                     case AtSocket(s) => e.verdict == ToSocket(s)
    then [e.packet] else []
  }

  /** What the application takes from there. */
  function Leaving(e: Event, p: Place): seq<nat> {
    match p
    case AtConn(i) => if e.ReadOut? && e.conn == i then [e.packet] else []
    case AtSocket(s) => if e.Took? && e.socket == s then [e.item] else []
  }

  /** Closing a connection empties its queue. */
  predicate Emptied(e: Event, p: Place) {
    p.AtConn? && e == Ended(p.conn)
  }

  /** Nothing but the event has happened there. */
  predicate Moved(e: Event, x: World, y: World, p: Place)
    requires Exists(x, p)
  {
    Exists(y, p) && Waits(x, p) + Entering(e, p) == Leaving(e, p) + Waits(y, p)
  }

  lemma NothingThere(e: Event, x: World, y: World, p: Place)
    requires Exists(x, p) && Exists(y, p) && Waits(x, p) == Waits(y, p)
    requires !e.Decided? && !e.ReadOut? && !e.Took?
    ensures Moved(e, x, y, p)
  {}

  lemma VerdictMoves(verdict: Verdict, b: nat, id: Id, x: World, y: World, p: Place)
    requires Carried(verdict, b, id, x, y) && Quiet(x.conns) && Exists(x, p)
    requires verdict.Accepted? || verdict.ClosedAtOnce? ==> !IsOpen(x, verdict.conn)
    requires verdict.Accepted? ==> verdict.socket < |x.sockets| && !x.sockets[verdict.socket].ConnLess()
    ensures Moved(Decided(verdict, b), x, y, p)
  {
    hide Socket.ConnLess;
    if verdict.ToSocket? || verdict.Accepted? {
      SameSorts(x.sockets, verdict.socket, if verdict.ToSocket? then b else verdict.conn);
    }
  }

  lemma SameSorts(x: seq<Socket>, s: nat, i: nat)
    requires s < |x|
    ensures forall t :: 0 <= t < |x| ==> Posted(x, s, i)[t].ConnLess() == x[t].ConnLess()
  {}

  lemma RouterMoves(c: Setting, now: Millis, e: Event, x: Snapshot, y: Snapshot, p: Place)
    requires c.net.Valid() && RouterStep(c, now, e, x, y) && Quiet(x.world.conns) && Exists(x.world, p)
    ensures Moved(e, x.world, y.world, p)
  {
    hide Net.Valid, Routed, Carried, Quiet;
    if e.Decided? {
      var b, k := x.qfifo[0].packet.value, x.qfifo[0].iface;
      RoutedCarried(c, e.verdict, b, k, now, x.(qfifo := x.qfifo[1..]), y);
      if e.verdict.Accepted? || e.verdict.ClosedAtOnce? {
        PostedOnce(c, RouteWork(now), e, x, y, e.verdict.conn, e.verdict.socket);
        StepEffects(c, RouteWork(now), e, x, y, e.verdict.conn);
      }
      if e.verdict.Accepted? {
        AcceptedWaits(c, RouteWork(now), e, x, y);
        PostedSort(x.world.sockets, e.verdict.socket, e.verdict.conn);
      }
      VerdictMoves(e.verdict, b, x.packets[b].id, x.world, y.world, p);
    } else {
      NothingThere(e, x.world, y.world, p);
    }
  }

  lemma ConnectMoves(prio: bv8, dest: bv16, dport: bv8, o: Option<(bv32, bv8)>, e: Event, x: World, y: World, p: Place)
    requires ConnectStep(prio, dest, dport, o, e, x, y) && Quiet(x.conns) && Exists(x, p)
    ensures Moved(e, x, y, p)
  {
    NothingThere(e, x, y, p);
  }

  lemma CloseMoves(i: nat, e: Event, x: World, y: World, p: Place)
    requires CloseStep(i, e, x, y) && Exists(x, p) && !Emptied(e, p)
    ensures Moved(e, x, y, p)
  {
    NothingThere(e, x, y, p);
  }

  lemma ReadMoves(i: nat, e: Event, x: World, y: World, p: Place)
    requires ReadStep(i, e, x, y) && Exists(x, p)
    ensures Moved(e, x, y, p)
  {
    if e.ReadOut? {
      var rx := x.conns[i].rx;
      assert rx == [rx[0]] + rx[1..];
    }
  }

  lemma AcceptMoves(s: nat, e: Event, x: World, y: World, p: Place)
    requires AcceptStep(s, e, x, y) && Exists(x, p)
    ensures Moved(e, x, y, p)
  {}

  lemma ReceiveMoves(s: nat, e: Event, x: World, y: World, p: Place)
    requires ReceiveStep(s, e, x, y) && Exists(x, p)
    ensures Moved(e, x, y, p)
  {
    if e.Took? {
      var q := x.sockets[s].queue;
      assert q == [q[0]] + q[1..];
    }
  }

  lemma SendMoves(c: Setting, i: nat, b: nat, e: Event, x: Snapshot, y: Snapshot, p: Place)
    requires c.net.Valid() && SendStep(c, i, b, e, x, y) && Exists(x.world, p)
    ensures Moved(e, x.world, y.world, p)
  {
    hide Net.Valid, SentOut, IdAfter;
    NothingThere(e, x.world, y.world, p);
  }

  lemma SendToMoves(c: Setting, id: Option<Id>, b: nat, e: Event, x: Snapshot, y: Snapshot, p: Place)
    requires c.net.Valid() && SendToStep(c, id, b, e, x, y) && Exists(x.world, p)
    ensures Moved(e, x.world, y.world, p)
  {
    hide Net.Valid, SentOut;
    NothingThere(e, x.world, y.world, p);
  }

  lemma HoldMoves(c: Setting, op: Op, x: Snapshot, y: Snapshot, p: Place)
    requires HoldStep(c, op, x, y) && Exists(x.world, p)
    ensures Moved(Other, x.world, y.world, p)
  {
    hide Gained;
    NothingThere(Other, x.world, y.world, p);
  }

  lemma TellMoves(c: Setting, op: Op, e: Event, x: Snapshot, y: Snapshot, p: Place)
    requires c.net.Valid() && TellStep(c, op, e, x, y) && Quiet(x.world.conns) && Exists(x.world, p) && !Emptied(e, p)
    ensures Moved(e, x.world, y.world, p)
  {
    hide Net.Valid, RouterStep, ConnectStep, CloseStep, ReadStep, AcceptStep, ReceiveStep, SendStep, SendToStep;
    hide Moved, IdFor, ConnectOptions, Quiet, OnlyWorld, OnlyHolders;
    match op {
      case RouteWork(now) => RouterMoves(c, now, e, x, y, p);
      case Connect(prio, dest, dport, opts) =>
        ConnectMoves(prio, dest, dport, ConnectOptions(opts, c.defaultOpts), e, x.world, y.world, p);
      case CloseConn(i) => CloseMoves(i, e, x.world, y.world, p);
      case Read(i) => ReadMoves(i, e, x.world, y.world, p);
      case Accept(s) => AcceptMoves(s, e, x.world, y.world, p);
      case ReceiveFrom(s) => ReceiveMoves(s, e, x.world, y.world, p);
      case Send(i, b) => SendMoves(c, i, b, e, x, y, p);
      case SendTo(prio, dest, dport, sport, opts, b) =>
        SendToMoves(c, IdFor(x, prio, dest, dport, sport, opts, b), b, e, x, y, p);
    }
  }

  lemma StepMoves(c: Setting, op: Op, e: Event, x: Snapshot, y: Snapshot, p: Place)
    requires c.net.Valid() && Transition(c, op, e, x, y) && Quiet(x.world.conns) && Exists(x.world, p) && !Emptied(e, p)
    ensures Moved(e, x.world, y.world, p)
  {
    hide Net.Valid, TellStep, HoldStep, Moved, Quiet;
    if Holds(op) {
      HoldMoves(c, op, x, y, p);
    } else {
      TellMoves(c, op, e, x, y, p);
    }
  }

  // ----- in order, over every run -----

  predicate NotEmptied(t: Trace, p: Place, m: nat, n: nat)
    requires m <= n <= |t.events|
  {
    forall k :: m <= k < n ==> !Emptied(t.events[k], p)
  }

  function Entered(t: Trace, p: Place, m: nat, n: nat): seq<nat>
    requires m <= n <= |t.events|
    decreases n - m
  {
    if m == n then [] else Entered(t, p, m, n - 1) + Entering(t.events[n - 1], p)
  }

  function Left(t: Trace, p: Place, m: nat, n: nat): seq<nat>
    requires m <= n <= |t.events|
    decreases n - m
  {
    if m == n then [] else Left(t, p, m, n - 1) + Leaving(t.events[n - 1], p)
  }

  lemma QuietAt(c: Setting, t: Trace, m: nat)
    requires c.net.Valid() && Follows(c, t) && m <= |t.ops|
    ensures |t.events| == |t.ops| && |t.states| == |t.ops| + 1
    ensures t.states[m].Accounted() && Quiet(t.states[m].world.conns)
  {
    hide Transition, Net.Valid, Quiet;
    assert t.states[m].Accounted();
  }

  /**
   As long as a connection is not closed, the buffers its reader is given, then those that wait, are
   those that waited and those the router put in, in order; and so for connection-less sockets.
   */
  lemma {:induction false} InOrderThere(c: Setting, t: Trace, p: Place, m: nat, n: nat)
    requires c.net.Valid() && Follows(c, t) && m <= n <= |t.ops|
    requires Exists(t.states[m].world, p) && NotEmptied(t, p, m, n)
    ensures Exists(t.states[n].world, p)
    ensures Waits(t.states[m].world, p) + Entered(t, p, m, n) == Left(t, p, m, n) + Waits(t.states[n].world, p)
    decreases n - m
  {
    hide Transition, Follows, Net.Valid, Waits, Entering, Leaving, Exists, Emptied, Snapshot.Accounted, Quiet, OneOwner;
    QuietAt(c, t, m);
    if m < n {
      InOrderThere(c, t, p, m, n - 1);
      QuietAt(c, t, n - 1);
      StepAt(c, t, n - 1);
      StepMoves(c, t.ops[n - 1], t.events[n - 1], t.states[n - 1], t.states[n], p);
      Rearranged(Waits(t.states[m].world, p), Entered(t, p, m, n - 1), Entering(t.events[n - 1], p),
                 Left(t, p, m, n - 1), Leaving(t.events[n - 1], p),
                 Waits(t.states[n - 1].world, p), Waits(t.states[n].world, p));
    }
  }

  // ----- what waits says what it said -----

  /** Everything that waits for the application. */
  ghost function Parked(w: World): multiset<nat> {
    RxHeld(w.conns) + Queued(w.sockets, true)
  }

  lemma WaitingIsParked(w: World, p: Place, b: nat)
    requires Exists(w, p) && b in Waits(w, p)
    ensures b in Parked(w)
  {
    hide RxHeld, Queued;
    match p {
      case AtConn(i) =>
        RxHeldUpdate(w.conns, i, w.conns[i]);
        assert b in multiset(w.conns[i].rx);
      case AtSocket(s) =>
        QueuedUpdate(w.sockets, s, w.sockets[s], true);
        assert b in multiset(w.sockets[s].queue);
    }
  }

  /** Whoever has it only once has it nowhere else. */
  lemma ParkedNowhereElse(x: Snapshot, b: nat)
    requires x.Accounted() && !x.shared && b in Parked(x.world)
    ensures b < |x.packets| && b !in x.world.app && b !in x.world.drivers && b !in FifoHeld(x.qfifo)
  {
    hide RxHeld, Queued, FifoHeld, Separated, Quiet, OneOwnerEach, Busy;
    var w := x.world;
    assert x.Held()[b] == FifoHeld(x.qfifo)[b] + Parked(w)[b] + w.app[b] + w.drivers[b];
    assert b in x.Held();
  }

  lemma ParkedIsHeld(x: Snapshot, b: nat)
    requires b in Parked(x.world)
    ensures b in x.Held()
  {
    hide RxHeld, Queued, FifoHeld;
  }

  predicate Unchanged(x: Snapshot, y: Snapshot, b: nat) {
    b < |x.packets| == |y.packets| && y.packets[b] == x.packets[b]
  }

  lemma SentUnchanged(net: Net, idout: Id, from: Option<nat>, b': nat, others: multiset<nat>,
                      x: Snapshot, y: Snapshot, hops: seq<Hop>, fates: seq<Fate>, b: nat)
    requires net.Valid() && (from.Some? ==> from.value < |net.ifaces|) && b' < |x.packets|
    requires SentOut(net, idout, from, b', others, x, y, hops, fates)
    requires b in others && b != b' && b < |x.packets|
    ensures Unchanged(x, y, b)
  {
    hide Net.Valid, Directions, Fared, NoneMissed, Out, Snapshot.Held, Snapshot.Line;
  }

  lemma HeadInFifo(q: seq<Input>)
    requires q != [] && q[0].packet.Some?
    ensures q[0].packet.value in FifoHeld(q)
  {}

  lemma RouterUnchanged(c: Setting, now: Millis, e: Event, x: Snapshot, y: Snapshot, b: nat)
    requires c.net.Valid() && RouterStep(c, now, e, x, y)
    requires b in Parked(x.world) && b < |x.packets| && b !in FifoHeld(x.qfifo)
    ensures Unchanged(x, y, b)
  {
    hide Net.Valid, ToMe, Duplicate, Record, Footprint, SentOut, Carried, Parked, FifoHeld, Snapshot.Held;
    hide Delivery.Valid, Delivery.Allows, Delivery.Payload;
    if e.Decided? {
      HeadInFifo(x.qfifo);
      var b', k, x' := x.qfifo[0].packet.value, x.qfifo[0].iface, x.(qfifo := x.qfifo[1..]);
      if e.verdict.Forwarded? {
        ParkedIsHeld(x', b);
        SentUnchanged(c.net, x.packets[b'].id, Some(k), b', x'.Held(), x', y, e.verdict.hops, e.verdict.fates, b);
      }
    }
  }

  lemma Without(m: multiset<nat>, b: nat, b': nat)
    requires b in m && b != b'
    ensures b in m - multiset{b'}
  {}

  lemma SendUnchanged(c: Setting, i: nat, b': nat, e: Event, x: Snapshot, y: Snapshot, b: nat)
    requires c.net.Valid() && SendStep(c, i, b', e, x, y)
    requires b in Parked(x.world) && b < |x.packets| && b !in x.world.app
    ensures Unchanged(x, y, b)
  {
    hide Net.Valid, SentOut, IdAfter, Parked, Snapshot.Held;
    if e.Went? {
      ParkedIsHeld(x, b);
      Without(x.Held(), b, b');
      SentUnchanged(c.net, x.world.conns[i].idout, None, b', x.Held() - multiset{b'}, x, y, e.hops, e.fates, b);
    }
  }

  lemma SendToUnchanged(c: Setting, id: Option<Id>, b': nat, e: Event, x: Snapshot, y: Snapshot, b: nat)
    requires c.net.Valid() && SendToStep(c, id, b', e, x, y)
    requires b in Parked(x.world) && b < |x.packets| && b !in x.world.app
    ensures Unchanged(x, y, b)
  {
    hide Net.Valid, SentOut, Parked, Snapshot.Held;
    if e.Went? {
      ParkedIsHeld(x, b);
      Without(x.Held(), b, b');
      SentUnchanged(c.net, id.value, None, b', x.Held() - multiset{b'}, x, y, e.hops, e.fates, b);
    }
  }

  lemma HoldUnchanged(c: Setting, op: Op, x: Snapshot, y: Snapshot, b: nat)
    requires HoldStep(c, op, x, y)
    requires b in Parked(x.world) && b < |x.packets| && b !in x.world.app && b !in x.world.drivers
    ensures Unchanged(x, y, b)
  {
    hide Parked, Snapshot.Held, Extended, Bindable;
    ParkedIsHeld(x, b);
  }

  lemma TellUnchanged(c: Setting, op: Op, e: Event, x: Snapshot, y: Snapshot, b: nat)
    requires c.net.Valid() && TellStep(c, op, e, x, y)
    requires b in Parked(x.world) && b < |x.packets| && b !in x.world.app && b !in FifoHeld(x.qfifo)
    ensures Unchanged(x, y, b)
  {
    hide Net.Valid, RouterStep, ConnectStep, CloseStep, ReadStep, AcceptStep, ReceiveStep, SendStep, SendToStep;
    hide IdFor, ConnectOptions, Parked, FifoHeld;
    match op {
      case RouteWork(now) => RouterUnchanged(c, now, e, x, y, b);
      case Send(i, b') => SendUnchanged(c, i, b', e, x, y, b);
      case SendTo(prio, dest, dport, sport, opts, b') =>
        SendToUnchanged(c, IdFor(x, prio, dest, dport, sport, opts, b'), b', e, x, y, b);
      case Connect(_, _, _, _) =>
      case CloseConn(_) =>
      case Read(_) =>
      case Accept(_) =>
      case ReceiveFrom(_) =>
    }
  }

  /** Nobody writes into a buffer that waits, as long as nobody asked for a second reference to any. */
  lemma WaitingUnchanged(c: Setting, op: Op, e: Event, x: Snapshot, y: Snapshot, b: nat)
    requires c.net.Valid() && Transition(c, op, e, x, y) && x.Accounted() && !x.shared && b in Parked(x.world)
    ensures Unchanged(x, y, b)
  {
    hide Net.Valid, TellStep, HoldStep, Parked, Snapshot.Accounted, FifoHeld;
    ParkedNowhereElse(x, b);
    if Holds(op) {
      HoldUnchanged(c, op, x, y, b);
    } else {
      TellUnchanged(c, op, e, x, y, b);
    }
  }

  // ----- the packets themselves -----

  /** What the buffers in a queue say. */
  function Says(packets: seq<Packet>, q: seq<nat>): (said: seq<Packet>)
    ensures |said| == |q|
  {
    seq(|q|, i requires 0 <= i < |q| => if q[i] < |packets| then packets[q[i]] else Packet(NO_ID, []))
  }

  /** What the router delivers there: the payload of the packet it decided about. */
  function SaidEntering(v: Version, e: Event, x: Snapshot, p: Place): seq<Packet> {
    if Entering(e, p) != [] && e.packet < |x.packets| then [x.Facing(v, e.packet).Payload()] else []
  }

  /** What the packet that is taken says when it is taken. */
  function SaidLeaving(e: Event, x: Snapshot, p: Place): seq<Packet> {
    Says(x.packets, Leaving(e, p))
  }

  lemma SaysBoth(packets: seq<Packet>, q: seq<nat>, r: seq<nat>)
    ensures Says(packets, q + r) == Says(packets, q) + Says(packets, r)
  {}

  lemma SaysSame(x: Snapshot, y: Snapshot, q: seq<nat>)
    requires forall b :: b in q ==> Unchanged(x, y, b)
    ensures Says(x.packets, q) == Says(y.packets, q)
  {
    forall i | 0 <= i < |q|
      ensures Says(x.packets, q)[i] == Says(y.packets, q)[i]
    {
      assert q[i] in q;
    }
  }

  /** What has just entered says what was delivered. */
  lemma EnteringSays(c: Setting, op: Op, e: Event, x: Snapshot, y: Snapshot, p: Place)
    requires c.net.Valid() && Transition(c, op, e, x, y)
    ensures Says(y.packets, Entering(e, p)) == SaidEntering(c.net.v, e, x, p)
  {
    hide Net.Valid, ToMe, Duplicate, Record, Footprint, SentOut, Carried, HoldStep, IdFor, ConnectOptions, Dialled;
    hide Delivery.Valid, Delivery.Allows, Delivery.Payload, IdAfter;
  }

  lemma FirstOut(q: seq<nat>, b: nat, rest: seq<nat>)
    requires q == [b] + rest
    ensures b in q
  {}

  lemma StepSays(c: Setting, op: Op, e: Event, x: Snapshot, y: Snapshot, p: Place)
    requires c.net.Valid() && Transition(c, op, e, x, y) && x.Accounted() && !x.shared
    requires Exists(x.world, p) && !Emptied(e, p)
    ensures Exists(y.world, p)
    ensures Says(x.packets, Waits(x.world, p)) + SaidEntering(c.net.v, e, x, p)
         == SaidLeaving(e, x, p) + Says(y.packets, Waits(y.world, p))
  {
    hide Net.Valid, Transition, Says, Unchanged, SaidEntering, Waits, Exists, Emptied, Parked;
    assert Quiet(x.world.conns);
    StepMoves(c, op, e, x, y, p);
    var before, entering, leaving, after := Waits(x.world, p), Entering(e, p), Leaving(e, p), Waits(y.world, p);
    forall b | b in before
      ensures Unchanged(x, y, b)
    {
      WaitingIsParked(x.world, p, b);
      WaitingUnchanged(c, op, e, x, y, b);
    }
    SaysSame(x, y, before);
    EnteringSays(c, op, e, x, y, p);
    if leaving != [] {
      assert entering == [] && before == leaving + after;
      FirstOut(before, leaving[0], after);
    }
    SaysSame(x, y, leaving);
    SaysBoth(y.packets, before, entering);
    SaysBoth(y.packets, leaving, after);
  }

  /** All the router delivers there between `m` and `n`. */
  function DeliveredTo(v: Version, t: Trace, p: Place, m: nat, n: nat): seq<Packet>
    requires m <= n <= |t.events| && n <= |t.states|
    decreases n - m
  {
    if m == n then []
    else DeliveredTo(v, t, p, m, n - 1) + SaidEntering(v, t.events[n - 1], t.states[n - 1], p)
  }

  /** All the application is given from there. */
  function GivenFrom(t: Trace, p: Place, m: nat, n: nat): seq<Packet>
    requires m <= n <= |t.events| && n <= |t.states|
    decreases n - m
  {
    if m == n then [] else GivenFrom(t, p, m, n - 1) + SaidLeaving(t.events[n - 1], t.states[n - 1], p)
  }

  /**
   Over every run in which nobody asks for a second reference, as long as a connection is not closed:
   the packets its reader is given, then those that wait, are those that waited and those the router
   delivered, in order and unchanged; and so for connection-less sockets.
   */
  lemma {:induction false} GivenAsDelivered(c: Setting, t: Trace, p: Place, m: nat, n: nat)
    requires c.net.Valid() && Follows(c, t) && m <= n <= |t.ops|
    requires NoRetain(t, m, n) && !t.states[m].shared
    requires Exists(t.states[m].world, p) && NotEmptied(t, p, m, n)
    ensures Exists(t.states[n].world, p)
    ensures Says(t.states[m].packets, Waits(t.states[m].world, p)) + DeliveredTo(c.net.v, t, p, m, n)
         == GivenFrom(t, p, m, n) + Says(t.states[n].packets, Waits(t.states[n].world, p))
    decreases n - m
  {
    hide Transition, Follows, Net.Valid, Waits, Says, Exists, Emptied, Snapshot.Accounted, Quiet, OneOwner;
    hide SaidEntering, SaidLeaving;
    QuietAt(c, t, m);
    if m < n {
      GivenAsDelivered(c, t, p, m, n - 1);
      QuietAt(c, t, n - 1);
      StepAt(c, t, n - 1);
      StaysUnshared(c, t, m, n - 1);
      StepSays(c, t.ops[n - 1], t.events[n - 1], t.states[n - 1], t.states[n], p);
      Rearranged(Says(t.states[m].packets, Waits(t.states[m].world, p)), DeliveredTo(c.net.v, t, p, m, n - 1),
                 SaidEntering(c.net.v, t.events[n - 1], t.states[n - 1], p),
                 GivenFrom(t, p, m, n - 1), SaidLeaving(t.events[n - 1], t.states[n - 1], p),
                 Says(t.states[n - 1].packets, Waits(t.states[n - 1].world, p)),
                 Says(t.states[n].packets, Waits(t.states[n].world, p)));
    }
  }
}
