/**
 Where a packet goes: the interfaces `csp_send_direct` (csp_io.c) chooses, and the id each
 copy carries.
 */
module Forward {
  import opened Words
  import opened CspId
  import opened IfList
  import opened RouteTable

  /** One copy of a packet on its way out. */
  datatype Hop = Hop(iface: nat, via: bv16, id: Id)

  /** The configuration a decision depends on. `lo` is the loopback interface. */
  datatype Net = Net(v: Version, ifaces: seq<Iface>, lo: nat, routes: seq<Route>) {
    predicate Valid() {
      && IfList.WellFormed(v, ifaces) && RouteTable.WellFormed(v, routes) && lo < |ifaces|
      && forall i :: 0 <= i < |routes| ==> routes[i].iface < |ifaces|
    }

    /** Split horizon: not back to where the packet came from, nor to anything with an address in that subnet. */
    predicate Excluded(k: nat, from: Option<nat>)
      requires Valid() && k < |ifaces| && (from.Some? ==> from.value < |ifaces|)
    {
      from.Some? && (k == from.value || WithinSubnet(v, ifaces[k].addr, ifaces[from.value]))
    }

    predicate Local(k: nat, dst: bv16)
      requires Valid() && k < |ifaces|
    {
      IsLocal(v, dst, ifaces[k])
    }

    predicate Broadcast(k: nat, dst: bv16)
      requires Valid() && k < |ifaces|
    {
      IsBroadcast(v, dst, ifaces[k])
    }

    // ----- first tier: interfaces whose subnet contains the destination -----

    /** From interface `k` on; `dst` is the destination the next copy carries unless a broadcast rewrites it. */
    function LocalHops(idout: Id, from: Option<nat>, k: nat, dst: bv16): (hops: seq<Hop>)
      requires Valid() && (from.Some? ==> from.value < |ifaces|)
      ensures forall i :: 0 <= i < |hops| ==> hops[i].iface < |ifaces|
      decreases |ifaces| - k
    {
      if k >= |ifaces| then []
      else if !Local(k, idout.dst) || Excluded(k, from) then LocalHops(idout, from, k + 1, dst)
      else
        var dst' := if Broadcast(k, idout.dst) then MaxNodeId(v) else dst;
        var src := if from.None? && idout.src == 0 then ifaces[k].addr else idout.src;
        [Hop(k, NO_VIA, idout.(src := src, dst := dst'))] + LocalHops(idout, from, k + 1, dst')
    }

    // ----- second tier: routes, third tier: default interfaces -----

    /**
     The id once an interface has been chosen: a packet of our own without source takes the
     interface's address, for good.
     */
    function Sourced(idout: Id, from: Option<nat>, k: nat): Id
      requires Valid() && k < |ifaces|
    {
      if from.None? && idout.src == 0 then idout.(src := ifaces[k].addr) else idout
    }

    function RouteHops(idout: Id, from: Option<nat>, visited: seq<nat>): (hops: seq<Hop>)
      requires Valid() && (from.Some? ==> from.value < |ifaces|)
      requires forall i :: 0 <= i < |visited| ==> visited[i] < |routes|
      ensures forall i :: 0 <= i < |hops| ==> hops[i].iface < |ifaces|
      decreases |visited|
    {
      if visited == [] then [] else
      var r := routes[visited[0]];
      if Excluded(r.iface, from) then RouteHops(idout, from, visited[1..])
      else
        var id := Sourced(idout, from, r.iface);
        [Hop(r.iface, r.via, id)] + RouteHops(id, from, visited[1..])
    }

    function DefaultHops(idout: Id, from: Option<nat>, k: nat): (hops: seq<Hop>)
      requires Valid() && (from.Some? ==> from.value < |ifaces|)
      ensures forall i :: 0 <= i < |hops| ==> hops[i].iface < |ifaces|
      decreases |ifaces| - k
    {
      if k >= |ifaces| then []
      else if !ifaces[k].isDefault || Excluded(k, from) then DefaultHops(idout, from, k + 1)
      else
        var id := Sourced(idout, from, k);
        [Hop(k, NO_VIA, id)] + DefaultHops(id, from, k + 1)
    }

    // ----- all three -----

    predicate AnyLocal(dst: bv16)
      requires Valid()
    {
      exists k :: 0 <= k < |ifaces| && Local(k, dst)
    }

    /** The copies made of a packet that does not go to the loopback interface. */
    function Hops(idout: Id, from: Option<nat>): (hops: seq<Hop>)
      requires Valid() && (from.Some? ==> from.value < |ifaces|)
      ensures forall i :: 0 <= i < |hops| ==> hops[i].iface < |ifaces|
    {
      if AnyLocal(idout.dst) then LocalHops(idout, from, 0, idout.dst)
      else
        var best := Best(v, routes, idout.dst);
        if best.Some? then RouteHops(idout, from, Visited(routes, best.value))
        else DefaultHops(idout, from, 0)
    }
  }

  // ----- what the choice means -----

  /** Everything of the id but source and destination is passed on unchanged. */
  predicate SameRest(id: Id, idout: Id) {
    id.pri == idout.pri && id.flags == idout.flags && id.dport == idout.dport && id.sport == idout.sport
  }

  /** The same id but for the source. */
  predicate Passed(id: Id, idout: Id) {
    SameRest(id, idout) && id.dst == idout.dst
  }

  predicate AllPassed(hops: seq<Hop>, idout: Id) {
    forall i :: 0 <= i < |hops| ==> Passed(hops[i].id, idout)
  }

  lemma AllPassedCons(h: Hop, rest: seq<Hop>, id: Id, idout: Id)
    requires Passed(h.id, idout) && AllPassed(rest, id) && Passed(id, idout)
    ensures AllPassed([h] + rest, idout)
  {
    forall i | 0 <= i < |rest|
      ensures Passed(rest[i].id, idout)
    {
      assert Passed(rest[i].id, id);
    }
  }

  lemma SourcedPasses(net: Net, idout: Id, from: Option<nat>, k: nat)
    requires net.Valid() && k < |net.ifaces|
    ensures Passed(net.Sourced(idout, from, k), idout)
  {}

  /** No interface twice. */
  predicate DistinctIfaces(hops: seq<Hop>) {
    forall i, j :: 0 <= i < j < |hops| ==> hops[i].iface != hops[j].iface
  }

  ghost predicate GoesTo(hops: seq<Hop>, k: nat) {
    exists i :: 0 <= i < |hops| && hops[i].iface == k
  }

  /** An interface between `start` and `k` takes the packet as a broadcast of its own. */
  ghost predicate Rewritten(net: Net, idout: Id, from: Option<nat>, start: nat, k: nat)
    requires net.Valid() && k < |net.ifaces| && (from.Some? ==> from.value < |net.ifaces|)
  {
    exists m :: start <= m <= k && net.Local(m, idout.dst) && !net.Excluded(m, from) && net.Broadcast(m, idout.dst)
  }

  /** What is true of every copy the first tier sends. */
  ghost predicate LocalHop(net: Net, idout: Id, from: Option<nat>, start: nat, dst: bv16, h: Hop)
    requires net.Valid() && (from.Some? ==> from.value < |net.ifaces|)
  {
    && start <= h.iface < |net.ifaces| && h.via == NO_VIA && SameRest(h.id, idout)
    && h.id.src == (if from.None? && idout.src == 0 then net.ifaces[h.iface].addr else idout.src)
    && h.id.dst == (if Rewritten(net, idout, from, start, h.iface) then MaxNodeId(net.v) else dst)
  }

  /** Strictly ascending from `start` on. */
  predicate Ascending(hops: seq<Hop>, start: nat) {
    && (forall i :: 0 <= i < |hops| ==> start <= hops[i].iface)
    && (forall i, j :: 0 <= i < j < |hops| ==> hops[i].iface < hops[j].iface)
  }

  lemma AscendingCons(h: Hop, rest: seq<Hop>, start: nat)
    requires h.iface == start && Ascending(rest, start + 1)
    ensures Ascending([h] + rest, start)
  {}

  lemma GoesToCons(h: Hop, rest: seq<Hop>, k: nat)
    ensures GoesTo([h] + rest, k) <==> h.iface == k || GoesTo(rest, k)
  {
    var hops := [h] + rest;
    if i :| 0 <= i < |rest| && rest[i].iface == k {
      assert hops[i + 1].iface == k;
    }
    if i :| 0 < i < |hops| && hops[i].iface == k {
      assert rest[i - 1].iface == k;
    }
    if h.iface == k {
      assert hops[0].iface == k;
    }
  }

  lemma NotBefore(hops: seq<Hop>, start: nat, k: nat)
    requires Ascending(hops, start) && k < start
    ensures !GoesTo(hops, k)
  {}

  /** The first tier: each interface that is local and not excluded gets exactly one copy, nobody else gets one. */
  lemma {:induction false} LocalHopsMembers(net: Net, idout: Id, from: Option<nat>, start: nat, dst: bv16)
    requires net.Valid() && (from.Some? ==> from.value < |net.ifaces|)
    ensures var hops := net.LocalHops(idout, from, start, dst);
            && Ascending(hops, start)
            && (forall k :: start <= k < |net.ifaces| ==>
                  (GoesTo(hops, k) <==> net.Local(k, idout.dst) && !net.Excluded(k, from)))
    decreases |net.ifaces| - start
  {
    hide Net.Local, Net.Excluded, Net.Broadcast, GoesTo;
    if start >= |net.ifaces| {
    } else if !net.Local(start, idout.dst) || net.Excluded(start, from) {
      LocalHopsMembers(net, idout, from, start + 1, dst);
      NotBefore(net.LocalHops(idout, from, start + 1, dst), start + 1, start);
    } else {
      var dst' := if net.Broadcast(start, idout.dst) then MaxNodeId(net.v) else dst;
      var hops, rest := net.LocalHops(idout, from, start, dst), net.LocalHops(idout, from, start + 1, dst');
      LocalHopsMembers(net, idout, from, start + 1, dst');
      assert hops == [hops[0]] + rest && hops[0].iface == start;
      AscendingCons(hops[0], rest, start);
      forall k | start <= k < |net.ifaces|
        ensures GoesTo(hops, k) <==> net.Local(k, idout.dst) && !net.Excluded(k, from)
      {
        GoesToCons(hops[0], rest, k);
        if k == start {
          NotBefore(rest, start + 1, start);
        }
      }
    }
  }

  ghost predicate AllLocal(net: Net, idout: Id, from: Option<nat>, start: nat, dst: bv16, hops: seq<Hop>)
    requires net.Valid() && (from.Some? ==> from.value < |net.ifaces|)
  {
    forall i :: 0 <= i < |hops| ==> LocalHop(net, idout, from, start, dst, hops[i])
  }

  /** What the copies of the first tier carry. */
  lemma {:induction false} LocalHopsContent(net: Net, idout: Id, from: Option<nat>, start: nat, dst: bv16)
    requires net.Valid() && (from.Some? ==> from.value < |net.ifaces|)
    ensures AllLocal(net, idout, from, start, dst, net.LocalHops(idout, from, start, dst))
    decreases |net.ifaces| - start
  {
    hide Net.Local, Net.Excluded, Net.Broadcast, AllLocal;
    if start >= |net.ifaces| {
      NoneLocal(net, idout, from, start, dst);
    } else {
      var taken := net.Local(start, idout.dst) && !net.Excluded(start, from);
      var dst' := if taken && net.Broadcast(start, idout.dst) then MaxNodeId(net.v) else dst;
      var rest := net.LocalHops(idout, from, start + 1, dst');
      LocalHopsContent(net, idout, from, start + 1, dst');
      EarlierStarts(net, idout, from, start, dst, dst', rest);
      if taken {
        var h := net.LocalHops(idout, from, start, dst)[0];
        ThisHop(net, idout, from, start, dst, h);
        AllLocalCons(net, idout, from, start, dst, h, rest);
      }
    }
  }

  lemma NoneLocal(net: Net, idout: Id, from: Option<nat>, start: nat, dst: bv16)
    requires net.Valid() && (from.Some? ==> from.value < |net.ifaces|)
    ensures AllLocal(net, idout, from, start, dst, [])
  {}

  lemma AllLocalCons(net: Net, idout: Id, from: Option<nat>, start: nat, dst: bv16, h: Hop, rest: seq<Hop>)
    requires net.Valid() && (from.Some? ==> from.value < |net.ifaces|)
    requires LocalHop(net, idout, from, start, dst, h) && AllLocal(net, idout, from, start, dst, rest)
    ensures AllLocal(net, idout, from, start, dst, [h] + rest)
  {
    hide LocalHop;
  }

  lemma EarlierStarts(net: Net, idout: Id, from: Option<nat>, start: nat, dst: bv16, dst': bv16, rest: seq<Hop>)
    requires net.Valid() && (from.Some? ==> from.value < |net.ifaces|) && start < |net.ifaces|
    requires AllLocal(net, idout, from, start + 1, dst', rest)
    requires dst' == if net.Local(start, idout.dst) && !net.Excluded(start, from) && net.Broadcast(start, idout.dst)
                     then MaxNodeId(net.v) else dst
    ensures AllLocal(net, idout, from, start, dst, rest)
  {
    hide Net.Local, Net.Excluded, Net.Broadcast, LocalHop;
    forall i | 0 <= i < |rest|
      ensures LocalHop(net, idout, from, start, dst, rest[i])
    {
      EarlierStart(net, idout, from, start, dst, dst', rest[i]);
    }
  }

  lemma ThisHop(net: Net, idout: Id, from: Option<nat>, start: nat, dst: bv16, h: Hop)
    requires net.Valid() && (from.Some? ==> from.value < |net.ifaces|) && start < |net.ifaces|
    requires net.Local(start, idout.dst) && !net.Excluded(start, from)
    requires h == net.LocalHops(idout, from, start, dst)[0]
    ensures LocalHop(net, idout, from, start, dst, h)
  {
    hide Net.Local, Net.Excluded, Net.Broadcast;
    assert Rewritten(net, idout, from, start, start) == net.Broadcast(start, idout.dst);
  }

  /** What a hop says counting from the next interface, it says counting from this one. */
  lemma EarlierStart(net: Net, idout: Id, from: Option<nat>, start: nat, dst: bv16, dst': bv16, h: Hop)
    requires net.Valid() && (from.Some? ==> from.value < |net.ifaces|) && start < |net.ifaces|
    requires LocalHop(net, idout, from, start + 1, dst', h)
    requires dst' == if net.Local(start, idout.dst) && !net.Excluded(start, from) && net.Broadcast(start, idout.dst)
                     then MaxNodeId(net.v) else dst
    ensures LocalHop(net, idout, from, start, dst, h)
  {
    hide Net.Local, Net.Excluded, Net.Broadcast, SameRest;
    assert start < h.iface < |net.ifaces|;
    RewrittenFrom(net, idout, from, start, h.iface);
  }

  lemma RewrittenFrom(net: Net, idout: Id, from: Option<nat>, start: nat, k: nat)
    requires net.Valid() && (from.Some? ==> from.value < |net.ifaces|) && start <= k < |net.ifaces|
    ensures Rewritten(net, idout, from, start, k)
       <==> (net.Local(start, idout.dst) && !net.Excluded(start, from) && net.Broadcast(start, idout.dst))
            || Rewritten(net, idout, from, start + 1, k)
  {
    hide Net.Local, Net.Excluded, Net.Broadcast;
  }

  /** The third tier, likewise: exactly the default interfaces that are not excluded. */
  lemma {:induction false} DefaultHopsMembers(net: Net, idout: Id, from: Option<nat>, start: nat)
    requires net.Valid() && (from.Some? ==> from.value < |net.ifaces|)
    ensures var hops := net.DefaultHops(idout, from, start);
            && Ascending(hops, start)
            && (forall k :: start <= k < |net.ifaces| ==>
                  (GoesTo(hops, k) <==> net.ifaces[k].isDefault && !net.Excluded(k, from)))
    decreases |net.ifaces| - start
  {
    hide Net.Excluded, Net.Sourced, GoesTo;
    if start >= |net.ifaces| {
    } else if !net.ifaces[start].isDefault || net.Excluded(start, from) {
      DefaultHopsMembers(net, idout, from, start + 1);
      NotBefore(net.DefaultHops(idout, from, start + 1), start + 1, start);
    } else {
      var id := net.Sourced(idout, from, start);
      var hops, rest := net.DefaultHops(idout, from, start), net.DefaultHops(id, from, start + 1);
      DefaultHopsMembers(net, id, from, start + 1);
      assert hops == [hops[0]] + rest && hops[0].iface == start;
      AscendingCons(hops[0], rest, start);
      forall k | start <= k < |net.ifaces|
        ensures GoesTo(hops, k) <==> net.ifaces[k].isDefault && !net.Excluded(k, from)
      {
        GoesToCons(hops[0], rest, k);
        if k == start {
          NotBefore(rest, start + 1, start);
        }
      }
    }
  }

  lemma {:induction false} DefaultHopsContent(net: Net, idout: Id, from: Option<nat>, start: nat)
    requires net.Valid() && (from.Some? ==> from.value < |net.ifaces|)
    ensures AllPassed(net.DefaultHops(idout, from, start), idout)
    decreases |net.ifaces| - start
  {
    hide Net.Excluded, Net.Sourced, Passed;
    if start >= |net.ifaces| {
    } else if !net.ifaces[start].isDefault || net.Excluded(start, from) {
      DefaultHopsContent(net, idout, from, start + 1);
    } else {
      var id := net.Sourced(idout, from, start);
      DefaultHopsContent(net, id, from, start + 1);
      SourcedPasses(net, idout, from, start);
      AllPassedCons(Hop(start, NO_VIA, id), net.DefaultHops(id, from, start + 1), id, idout);
    }
  }

  /** The routes that are followed. */
  function Kept(net: Net, from: Option<nat>, visited: seq<nat>): (kept: seq<nat>)
    requires net.Valid() && (from.Some? ==> from.value < |net.ifaces|)
    requires forall i :: 0 <= i < |visited| ==> visited[i] < |net.routes|
    ensures forall j :: j in kept <==> j in visited && !net.Excluded(net.routes[j].iface, from)
    ensures forall i :: 0 <= i < |kept| ==> kept[i] < |net.routes|
    decreases |visited|
  {
    if visited == [] then [] else
    var rest := Kept(net, from, visited[1..]);
    if net.Excluded(net.routes[visited[0]].iface, from) then rest else [visited[0]] + rest
  }

  /** The second tier: one copy for every visited route whose interface is not excluded, in the order of the visit. */
  lemma {:induction false} RouteHopsMembers(net: Net, idout: Id, from: Option<nat>, visited: seq<nat>)
    requires net.Valid() && (from.Some? ==> from.value < |net.ifaces|)
    requires forall i :: 0 <= i < |visited| ==> visited[i] < |net.routes|
    ensures var hops, kept := net.RouteHops(idout, from, visited), Kept(net, from, visited);
            && |hops| == |kept|
            && forall i :: 0 <= i < |hops| ==>
                 hops[i].iface == net.routes[kept[i]].iface && hops[i].via == net.routes[kept[i]].via
    decreases |visited|
  {
    hide Net.Excluded, Net.Sourced;
    if visited != [] {
      var k := net.routes[visited[0]].iface;
      if net.Excluded(k, from) {
        RouteHopsMembers(net, idout, from, visited[1..]);
      } else {
        var id := net.Sourced(idout, from, k);
        RouteHopsMembers(net, id, from, visited[1..]);
        assert net.RouteHops(idout, from, visited)[1..] == net.RouteHops(id, from, visited[1..]);
        assert Kept(net, from, visited)[1..] == Kept(net, from, visited[1..]);
      }
    }
  }

  lemma {:induction false} RouteHopsContent(net: Net, idout: Id, from: Option<nat>, visited: seq<nat>)
    requires net.Valid() && (from.Some? ==> from.value < |net.ifaces|)
    requires forall i :: 0 <= i < |visited| ==> visited[i] < |net.routes|
    ensures AllPassed(net.RouteHops(idout, from, visited), idout)
    decreases |visited|
  {
    hide Net.Excluded, Net.Sourced, Passed;
    if visited != [] {
      var r := net.routes[visited[0]];
      if net.Excluded(r.iface, from) {
        RouteHopsContent(net, idout, from, visited[1..]);
      } else {
        var id := net.Sourced(idout, from, r.iface);
        RouteHopsContent(net, id, from, visited[1..]);
        SourcedPasses(net, idout, from, r.iface);
        AllPassedCons(Hop(r.iface, r.via, id), net.RouteHops(id, from, visited[1..]), id, idout);
      }
    }
  }

  lemma {:induction false} KeptDecreasing(net: Net, from: Option<nat>, visited: seq<nat>)
    requires net.Valid() && (from.Some? ==> from.value < |net.ifaces|)
    requires forall i :: 0 <= i < |visited| ==> visited[i] < |net.routes|
    requires Decreasing(visited)
    ensures Decreasing(Kept(net, from, visited))
    decreases |visited|
  {
    hide Net.Excluded;
    if visited != [] {
      KeptDecreasing(net, from, visited[1..]);
      var kept := Kept(net, from, visited[1..]);
      forall j | 0 <= j < |kept|
        ensures kept[j] < visited[0]
      {
        assert kept[j] in visited[1..];
      }
    }
  }

  /** Routes that are followed for one destination lead to different interfaces, if table keys are distinct. */
  lemma KeptDistinct(net: Net, from: Option<nat>, best: nat)
    requires net.Valid() && (from.Some? ==> from.value < |net.ifaces|)
    requires best < |net.routes| && KeysDistinct(net.routes)
    requires forall j :: j in Visited(net.routes, best) ==> j < |net.routes|
    ensures var visited := Visited(net.routes, best);
            (forall i :: 0 <= i < |visited| ==> visited[i] in visited && visited[i] < |net.routes|) &&
            var kept := Kept(net, from, visited);
            forall i, j :: 0 <= i < j < |kept| ==> net.routes[kept[i]].iface != net.routes[kept[j]].iface
  {
    hide Net.Excluded, Visited, PrevBelow, Kept;
    var visited := Visited(net.routes, best);
    assert forall i :: 0 <= i < |visited| ==> visited[i] in visited && visited[i] < |net.routes|;
    VisitedIsNetwork(net.routes, best);
    KeptDecreasing(net, from, visited);
    var kept := Kept(net, from, visited);
    forall i, j | 0 <= i < j < |kept|
      ensures net.routes[kept[i]].iface != net.routes[kept[j]].iface
    {
      assert kept[i] in visited && kept[j] in visited;
      assert !SameEntry(net.routes[kept[j]], net.routes[kept[i]]);
    }
  }

  /** The interfaces a packet may go to: those of the first tier that has any candidate. */
  ghost predicate Candidate(net: Net, dst: bv16, k: nat)
    requires net.Valid() && k < |net.ifaces|
  {
    if net.AnyLocal(dst) then net.Local(k, dst) else
    var best := Best(net.v, net.routes, dst);
    if best.Some? then exists j :: j in Visited(net.routes, best.value) && net.routes[j].iface == k
    else net.ifaces[k].isDefault
  }

  /**
   The forwarding rule: the packet goes to exactly the candidates of the first non-empty tier
   that split horizon does not exclude, to each of them once, and copies differ from the
   original only in source and destination; the destination changes in the first tier alone.
   */
  lemma ForwardingRule(net: Net, idout: Id, from: Option<nat>)
    requires net.Valid() && (from.Some? ==> from.value < |net.ifaces|) && KeysDistinct(net.routes)
    ensures var hops := net.Hops(idout, from);
            && DistinctIfaces(hops)
            && (forall k :: 0 <= k < |net.ifaces| ==>
                  (GoesTo(hops, k) <==> Candidate(net, idout.dst, k) && !net.Excluded(k, from)))
            && (forall i :: 0 <= i < |hops| ==>
                  SameRest(hops[i].id, idout)
                  && (net.AnyLocal(idout.dst) || hops[i].id.dst == idout.dst)
                  && (hops[i].id.dst == idout.dst || hops[i].id.dst == MaxNodeId(net.v)))
  {
    hide Net.Excluded, Net.Local;
    var best := Best(net.v, net.routes, idout.dst);
    if net.AnyLocal(idout.dst) {
      LocalHopsMembers(net, idout, from, 0, idout.dst);
      LocalHopsContent(net, idout, from, 0, idout.dst);
    } else if best.Some? {
      RoutedRule(net, idout, from, best.value);
    } else {
      DefaultHopsMembers(net, idout, from, 0);
      DefaultHopsContent(net, idout, from, 0);
    }
  }

  lemma RoutedRule(net: Net, idout: Id, from: Option<nat>, best: nat)
    requires net.Valid() && (from.Some? ==> from.value < |net.ifaces|) && KeysDistinct(net.routes)
    requires best < |net.routes|
    ensures var hops := net.RouteHops(idout, from, Visited(net.routes, best));
            && DistinctIfaces(hops)
            && (forall k :: 0 <= k < |net.ifaces| ==>
                  (GoesTo(hops, k) <==>
                     && (exists j :: j in Visited(net.routes, best) && net.routes[j].iface == k)
                     && !net.Excluded(k, from)))
            && AllPassed(hops, idout)
  {
    hide Net.Excluded, Passed;
    var visited := Visited(net.routes, best);
    var hops, kept := net.RouteHops(idout, from, visited), Kept(net, from, visited);
    VisitedIsNetwork(net.routes, best);
    KeptDistinct(net, from, best);
    RouteHopsMembers(net, idout, from, visited);
    RouteHopsContent(net, idout, from, visited);
    forall k | 0 <= k < |net.ifaces|
      ensures GoesTo(hops, k) <==> (exists j :: j in visited && net.routes[j].iface == k) && !net.Excluded(k, from)
    {
      if i :| 0 <= i < |hops| && hops[i].iface == k {
        assert kept[i] in kept;
      }
      if j :| j in visited && net.routes[j].iface == k {
        if !net.Excluded(k, from) {
          assert j in kept;
          var i :| 0 <= i < |kept| && kept[i] == j;
          assert hops[i].iface == k;
        }
      }
    }
  }

  predicate AllFrom(hops: seq<Hop>, src: bv16) {
    forall i :: 0 <= i < |hops| ==> hops[i].id.src == src
  }

  /**
   A packet of our own without source, sent by routes, leaves everywhere with the address of the
   first interface.
   */
  lemma {:induction false} FirstAddressSticks(net: Net, idout: Id, visited: seq<nat>)
    requires net.Valid() && forall i :: 0 <= i < |visited| ==> visited[i] < |net.routes|
    requires visited != [] && idout.src == 0 && net.ifaces[net.routes[visited[0]].iface].addr != 0
    ensures var hops := net.RouteHops(idout, None, visited);
            |hops| == |visited| && AllFrom(hops, net.ifaces[net.routes[visited[0]].iface].addr)
  {
    SourceStays(net, net.Sourced(idout, None, net.routes[visited[0]].iface), visited[1..]);
  }

  lemma {:induction false} SourceStays(net: Net, idout: Id, visited: seq<nat>)
    requires net.Valid() && forall i :: 0 <= i < |visited| ==> visited[i] < |net.routes|
    requires idout.src != 0
    ensures var hops := net.RouteHops(idout, None, visited);
            |hops| == |visited| && AllFrom(hops, idout.src)
    decreases |visited|
  {
    if visited != [] {
      SourceStays(net, idout, visited[1..]);
    }
  }

  /** The same on default interfaces: every copy has the address of the first interface the packet leaves by. */
  lemma {:induction false} FirstDefaultAddressSticks(net: Net, idout: Id, start: nat)
    requires net.Valid() && idout.src == 0
    ensures var hops := net.DefaultHops(idout, None, start);
            hops != [] && net.ifaces[hops[0].iface].addr != 0 ==> AllFrom(hops, net.ifaces[hops[0].iface].addr)
    decreases |net.ifaces| - start
  {
    if start < |net.ifaces| {
      if net.ifaces[start].isDefault {
        if net.ifaces[start].addr != 0 {
          DefaultSourceStays(net, net.Sourced(idout, None, start), start + 1);
        }
      } else {
        FirstDefaultAddressSticks(net, idout, start + 1);
      }
    }
  }

  lemma {:induction false} DefaultSourceStays(net: Net, idout: Id, start: nat)
    requires net.Valid() && idout.src != 0
    ensures AllFrom(net.DefaultHops(idout, None, start), idout.src)
    decreases |net.ifaces| - start
  {
    if start < |net.ifaces| {
      DefaultSourceStays(net, idout, start + 1);
    }
  }

  /** A packet that has a source keeps it, and so does every packet of somebody else, source or none. */
  lemma SourceKept(net: Net, idout: Id, from: Option<nat>)
    requires net.Valid() && (from.Some? ==> from.value < |net.ifaces|) && (from.Some? || idout.src != 0)
    ensures AllFrom(net.Hops(idout, from), idout.src)
  {
    hide Net.Local, Net.Excluded, Net.LocalHops, Net.RouteHops, Net.DefaultHops;
    var best := Best(net.v, net.routes, idout.dst);
    if net.AnyLocal(idout.dst) {
      LocalHopsContent(net, idout, from, 0, idout.dst);
    } else if best.Some? {
      RouteSourceKept(net, idout, from, Visited(net.routes, best.value));
    } else {
      DefaultSourceKept(net, idout, from, 0);
    }
  }

  lemma {:induction false} RouteSourceKept(net: Net, idout: Id, from: Option<nat>, visited: seq<nat>)
    requires net.Valid() && (from.Some? ==> from.value < |net.ifaces|) && (from.Some? || idout.src != 0)
    requires forall i :: 0 <= i < |visited| ==> visited[i] < |net.routes|
    ensures AllFrom(net.RouteHops(idout, from, visited), idout.src)
    decreases |visited|
  {
    hide Net.Excluded;
    if visited != [] {
      RouteSourceKept(net, idout, from, visited[1..]);
    }
  }

  lemma {:induction false} DefaultSourceKept(net: Net, idout: Id, from: Option<nat>, start: nat)
    requires net.Valid() && (from.Some? ==> from.value < |net.ifaces|) && (from.Some? || idout.src != 0)
    ensures AllFrom(net.DefaultHops(idout, from, start), idout.src)
    decreases |net.ifaces| - start
  {
    hide Net.Excluded;
    if start < |net.ifaces| {
      DefaultSourceKept(net, idout, from, start + 1);
    }
  }

  // ----- the first tier and split horizon, by prefixes -----

  /** The addresses of the interfaces are addresses. */
  predicate AddressesFit(net: Net) {
    forall k :: 0 <= k < |net.ifaces| ==> IsNode(net.v, net.ifaces[k].addr)
  }

  lemma LocalByPrefix(net: Net, k: nat, dst: bv16)
    requires net.Valid() && AddressesFit(net) && k < |net.ifaces| && IsNode(net.v, dst)
    ensures net.Local(k, dst) <==>
            net.ifaces[k].netmask != 0 && SamePrefix(net.v, net.ifaces[k].netmask, dst, net.ifaces[k].addr)
  {
    hide WithinSubnet, SamePrefix, IsNode, HostBits;
    WithinIsSamePrefix(net.v, dst, net.ifaces[k]);
  }

  lemma ExcludedByPrefix(net: Net, k: nat, from: nat)
    requires net.Valid() && AddressesFit(net) && k < |net.ifaces| && from < |net.ifaces|
    ensures net.Excluded(k, Some(from)) <==>
            k == from || SamePrefix(net.v, net.ifaces[from].netmask, net.ifaces[k].addr, net.ifaces[from].addr)
  {
    hide WithinSubnet, SamePrefix, IsNode, HostBits;
    WithinIsSamePrefix(net.v, net.ifaces[k].addr, net.ifaces[from]);
  }

  /** Interface `k` gets a copy in the first tier. */
  predicate TakesLocally(net: Net, dst: bv16, from: Option<nat>, k: nat)
    requires net.Valid() && k < |net.ifaces| && (from.Some? ==> from.value < |net.ifaces|)
  {
    var ifc := net.ifaces[k];
    && ifc.netmask != 0 && SamePrefix(net.v, ifc.netmask, dst, ifc.addr)
    && (from.Some? ==> k != from.value
                       && !SamePrefix(net.v, net.ifaces[from.value].netmask, ifc.addr, net.ifaces[from.value].addr))
  }

  /**
   If any interface has the destination in its subnet, the copies go exactly to those that have, leave out
   the interface of arrival and all interfaces with addresses in its subnet, and go nowhere else.
   */
  lemma ForwardedByPrefix(net: Net, idout: Id, from: Option<nat>)
    requires net.Valid() && AddressesFit(net) && KeysDistinct(net.routes) && IsNode(net.v, idout.dst)
    requires from.Some? ==> from.value < |net.ifaces|
    requires exists k :: 0 <= k < |net.ifaces| && TakesLocally(net, idout.dst, None, k)
    ensures forall k :: 0 <= k < |net.ifaces| ==>
              (GoesTo(net.Hops(idout, from), k) <==> TakesLocally(net, idout.dst, from, k))
  {
    hide Net.Local, Net.Excluded, Net.Hops, SamePrefix, IsNode, HostBits;
    ForwardingRule(net, idout, from);
    forall k | 0 <= k < |net.ifaces|
      ensures net.Local(k, idout.dst) && !net.Excluded(k, from) <==> TakesLocally(net, idout.dst, from, k)
      ensures net.Local(k, idout.dst) <==> TakesLocally(net, idout.dst, None, k)
    {
      LocalByPrefix(net, k, idout.dst);
      if from.Some? {
        ExcludedByPrefix(net, k, from.value);
      } else {
        OwnNotExcluded(net, k);
      }
    }
  }

  lemma OwnNotExcluded(net: Net, k: nat)
    requires net.Valid() && k < |net.ifaces|
    ensures !net.Excluded(k, None)
  {}

  lemma NoMaskWithinAll(v: Version, addr: bv16, ifc: Iface)
    requires ifc.netmask == 0
    ensures WithinSubnet(v, addr, ifc)
  {}

  /** An interface without a prefix counts every address as its own: what arrives there is never forwarded. */
  lemma UnmaskedArrivalStops(net: Net, idout: Id, from: nat)
    requires net.Valid() && from < |net.ifaces| && net.ifaces[from].netmask == 0 && KeysDistinct(net.routes)
    ensures net.Hops(idout, Some(from)) == []
  {
    hide Net.Local, WithinSubnet, Net.Hops;
    ForwardingRule(net, idout, Some(from));
    forall k | 0 <= k < |net.ifaces|
      ensures !GoesTo(net.Hops(idout, Some(from)), k)
    {
      NoMaskWithinAll(net.v, net.ifaces[k].addr, net.ifaces[from]);
    }
    NowhereToGo(net, net.Hops(idout, Some(from)));
  }

  lemma NowhereToGo(net: Net, hops: seq<Hop>)
    requires forall i :: 0 <= i < |hops| ==> hops[i].iface < |net.ifaces|
    requires forall k :: 0 <= k < |net.ifaces| ==> !GoesTo(hops, k)
    ensures hops == []
  {
    if hops != [] {
      var k := hops[0].iface;
      assert GoesTo(hops, k) by { assert hops[0].iface == k; }
    }
  }
}
