/** The CIDR routing table of csp_rtable_cidr.c. */
module RouteTable {
  import opened Words
  import opened CspId

  /** `csp_route_t`; the interface is named by its position in the interface list. */
  datatype Route = Route(address: bv16, netmask: bv16, via: bv16, iface: nat)

  const NO_VIA: bv16 := 0xFFFF

  /** The host part of an address below a prefix of `netmask` bits. */
  function HostMask(v: Version, netmask: bv16): bv16
    requires netmask <= HostBits(v)
  {
    Ones(HostLength(v, netmask))
  }

  function Other(mask: bv16): bv16 { !mask }
  function Without(a: bv16, mask: bv16): bv16 { Both(a, Other(mask)) }

  function NetPart(v: Version, netmask: bv16, addr: bv16): bv16
    requires netmask <= HostBits(v)
  {
    Without(addr, HostMask(v, netmask))
  }

  function HostPart(v: Version, netmask: bv16, addr: bv16): bv16
    requires netmask <= HostBits(v)
  {
    Both(addr, HostMask(v, netmask))
  }

  predicate Covers(v: Version, r: Route, addr: bv16)
    requires HasLength(v, r)
  {
    NetPart(v, r.netmask, r.address) == NetPart(v, r.netmask, addr)
  }

  // ----- which addresses these are -----

  lemma OtherBits(k: bv16)
    requires k <= 14
    ensures Other(Ones(k)) == Upper(k)
  {}

  lemma WithoutOnes(a: bv16, k: bv16)
    requires k <= 14
    ensures Without(a, Ones(k)) == Both(a, Upper(k))
  {
    hide Ones, Upper, Other, Both;
    OtherBits(k);
  }

  /** A route covers an address exactly if its first bits, as many as the prefix says, are the stored address's. */
  lemma CoversIsSamePrefix(v: Version, r: Route, addr: bv16)
    requires HasLength(v, r)
    ensures Covers(v, r, addr) <==> SamePrefix(v, r.netmask, addr, r.address)
  {
    hide Without, Ones, Upper, Both, Right, HostBits, HostLength;
    var k := HostLength(v, r.netmask);
    WithoutOnes(r.address, k);
    WithoutOnes(addr, k);
    SameUpperBits(addr, r.address, k);
  }

  lemma NoBitsLeft(v: Version, a: bv16)
    requires IsNode(v, a)
    ensures Right(a, HostLength(v, 0)) == 0
  {}

  lemma AllBitsLeft(v: Version, a: bv16)
    ensures Right(a, HostLength(v, HostBits(v))) == a
  {}

  /** The default route covers every address there is, a host route its own alone. */
  lemma DefaultAndHostRoute(v: Version, r: Route, addr: bv16)
    requires IsNode(v, addr) && IsNode(v, r.address)
    ensures r.netmask == 0 ==> Covers(v, r, addr)
    ensures r.netmask == HostBits(v) ==> (Covers(v, r, addr) <==> addr == r.address)
  {
    hide Covers, Right, HostLength, IsNode, MaxNodeId;
    if r.netmask == 0 || r.netmask == HostBits(v) {
      CoversIsSamePrefix(v, r, addr);
      NoBitsLeft(v, addr);
      NoBitsLeft(v, r.address);
      AllBitsLeft(v, addr);
      AllBitsLeft(v, r.address);
    }
  }

  /** Every stored prefix length is one the header format has; `csp_rtable_set` sees to it. */
  predicate WellFormed(v: Version, routes: seq<Route>) {
    forall i :: 0 <= i < |routes| ==> HasLength(v, routes[i])
  }

  predicate HasLength(v: Version, r: Route) {
    r.netmask <= HostBits(v)
  }

  // ----- lookup -----

  /** Prefix lengths in order. */
  predicate AtLeast(m: bv16, n: bv16) { m >= n }

  lemma AtLeastOrder(m: bv16, n: bv16)
    ensures AtLeast(m, m) && AtLeast(m, 0) && (AtLeast(m, n) || AtLeast(n, m))
  {}

  lemma SameLength(m: bv16, n: bv16)
    requires AtLeast(m, n) && AtLeast(n, m) && m <= 14
    ensures m == n
  {}

  lemma LengthBound(v: Version, r: Route)
    requires HasLength(v, r)
    ensures r.netmask <= 14
  {}

  lemma AtLeastTransitive(m: bv16, n: bv16, k: bv16)
    requires AtLeast(m, n) && AtLeast(n, k)
    ensures AtLeast(m, k)
  {}

  /** The route found among the first `n`: the longest prefix, and of those the one stored last. */
  function BestOf(v: Version, routes: seq<Route>, addr: bv16, n: nat): (best: Option<nat>)
    requires WellFormed(v, routes) && n <= |routes|
    ensures best.Some? ==> best.value < n
  {
    if n == 0 then None else
    var best := BestOf(v, routes, addr, n - 1);
    if Covers(v, routes[n - 1], addr) && (best.None? || AtLeast(routes[n - 1].netmask, routes[best.value].netmask))
    then Some(n - 1) else best
  }

  function Best(v: Version, routes: seq<Route>, addr: bv16): (best: Option<nat>)
    requires WellFormed(v, routes)
    ensures best.Some? ==> best.value < |routes|
  {
    BestOf(v, routes, addr, |routes|)
  }

  /** A route that matches, with a prefix no other matching route exceeds. */
  predicate Maximal(v: Version, routes: seq<Route>, addr: bv16, i: int)
    requires WellFormed(v, routes)
  {
    && 0 <= i < |routes| && Covers(v, routes[i], addr)
    && forall j :: 0 <= j < |routes| && Covers(v, routes[j], addr) ==> AtLeast(routes[i].netmask, routes[j].netmask)
  }

  /**
   Route `i` covers the address, later ones among the first `n` only with a shorter prefix, earlier
   ones with no longer one.
   */
  ghost predicate LastLongest(v: Version, routes: seq<Route>, addr: bv16, n: nat, i: nat)
    requires WellFormed(v, routes) && i < n <= |routes|
  {
    && Covers(v, routes[i], addr)
    && forall j :: 0 <= j < n && Covers(v, routes[j], addr) ==>
         AtLeast(routes[i].netmask, routes[j].netmask) && (j > i ==> !AtLeast(routes[j].netmask, routes[i].netmask))
  }

  ghost predicate NoneCovers(v: Version, routes: seq<Route>, addr: bv16, n: nat)
    requires WellFormed(v, routes) && n <= |routes|
  {
    forall j :: 0 <= j < n ==> !Covers(v, routes[j], addr)
  }

  lemma {:induction false} BestOfIsLast(v: Version, routes: seq<Route>, addr: bv16, n: nat)
    requires WellFormed(v, routes) && n <= |routes|
    ensures var best := BestOf(v, routes, addr, n);
            if best.None? then NoneCovers(v, routes, addr, n) else LastLongest(v, routes, addr, n, best.value)
  {
    hide Covers, HasLength, AtLeast;
    if n > 0 {
      BestOfIsLast(v, routes, addr, n - 1);
      var best, m := BestOf(v, routes, addr, n - 1), routes[n - 1].netmask;
      AtLeastOrder(m, m);
      if best.Some? {
        AtLeastOrder(m, routes[best.value].netmask);
        if AtLeast(m, routes[best.value].netmask) {
          forall j | 0 <= j < n - 1 && Covers(v, routes[j], addr)
            ensures AtLeast(m, routes[j].netmask)
          {
            AtLeastTransitive(m, routes[best.value].netmask, routes[j].netmask);
          }
        }
      }
    }
  }

  /** The lookup fails exactly when nothing matches; otherwise it returns the last-stored maximal match. */
  lemma BestIsLastMaximal(v: Version, routes: seq<Route>, addr: bv16)
    requires WellFormed(v, routes)
    ensures var best := Best(v, routes, addr);
            && (best.None? <==> forall j :: 0 <= j < |routes| ==> !Covers(v, routes[j], addr))
            && (best.Some? ==> Maximal(v, routes, addr, best.value))
            && (best.Some? ==> forall j :: Maximal(v, routes, addr, j) ==> j <= best.value)
  {
    hide Covers, HasLength, AtLeast;
    BestOfIsLast(v, routes, addr, |routes|);
  }

  // ----- backward enumeration -----

  predicate SameNetwork(r: Route, s: Route) {
    r.netmask == s.netmask && r.address == s.address
  }

  /** The nearest route before position `n` for the same network as `r`. */
  function PrevBelow(routes: seq<Route>, r: Route, n: nat): (p: Option<nat>)
    requires n <= |routes|
    ensures p.Some? ==> p.value < n && SameNetwork(routes[p.value], r)
    ensures p.Some? ==> forall j :: p.value < j < n ==> !SameNetwork(routes[j], r)
    ensures p.None? ==> forall j :: 0 <= j < n ==> !SameNetwork(routes[j], r)
  {
    if n == 0 then None
    else if SameNetwork(routes[n - 1], r) then Some(n - 1)
    else PrevBelow(routes, r, n - 1)
  }

  /** The routes a caller visits that starts at `i` and searches backward until nothing is found. */
  function Visited(routes: seq<Route>, i: nat): (p: seq<nat>)
    requires i < |routes|
    ensures p != [] && p[0] == i && forall k :: 0 <= k < |p| ==> p[k] <= i
  {
    var prev := PrevBelow(routes, routes[i], i);
    [i] + if prev.None? then [] else Visited(routes, prev.value)
  }

  predicate Decreasing(p: seq<nat>) {
    forall j, k :: 0 <= j < k < |p| ==> p[j] > p[k]
  }

  /** The enumeration is strictly decreasing and consists of all routes up to `i` for the network of route `i`. */
  lemma {:induction false} VisitedIsNetwork(routes: seq<Route>, i: nat)
    requires i < |routes|
    ensures Decreasing(Visited(routes, i))
    ensures forall j :: j in Visited(routes, i) <==> 0 <= j <= i && SameNetwork(routes[j], routes[i])
  {
    var prev := PrevBelow(routes, routes[i], i);
    if prev.Some? {
      VisitedIsNetwork(routes, prev.value);
      var rest := Visited(routes, prev.value);
      assert Visited(routes, i) == [i] + rest;
      assert forall k :: 0 <= k < |rest| ==> rest[k] <= prev.value;
      assert forall j :: 0 <= j <= i && SameNetwork(routes[j], routes[i]) ==> j == i || j <= prev.value;
    }
  }

  /**
   Following the search from the route found visits every maximal match, each once and last
   stored first, exactly when all of them store the same address.
   */
  lemma VisitsAllMaximal(v: Version, routes: seq<Route>, addr: bv16)
    requires WellFormed(v, routes) && Best(v, routes, addr).Some?
    ensures var best := Best(v, routes, addr).value;
            && Decreasing(Visited(routes, best))
            && (forall j :: j in Visited(routes, best) ==> Maximal(v, routes, addr, j))
            && ((forall j :: Maximal(v, routes, addr, j) ==> j in Visited(routes, best))
                <==> (forall j :: Maximal(v, routes, addr, j) ==> routes[j].address == routes[best].address))
  {
    hide Covers;
    BestIsLastMaximal(v, routes, addr);
    var best := Best(v, routes, addr).value;
    VisitedIsNetwork(routes, best);
    forall j | j in Visited(routes, best)
      ensures Maximal(v, routes, addr, j)
    {
      MatchesByNetwork(v, routes[j], routes[best], addr);
    }
  }

  lemma MatchesByNetwork(v: Version, r: Route, s: Route, addr: bv16)
    requires HasLength(v, r) && SameNetwork(r, s)
    ensures Covers(v, r, addr) == Covers(v, s, addr)
  {
    hide NetPart;
  }

  /** Stored addresses without host bits, as an operator would write them: then nothing is missed. */
  lemma NormalizedVisitsAll(v: Version, routes: seq<Route>, addr: bv16)
    requires WellFormed(v, routes) && Best(v, routes, addr).Some?
    requires forall i :: 0 <= i < |routes| ==> HostPart(v, routes[i].netmask, routes[i].address) == 0
    ensures var best := Best(v, routes, addr).value;
            forall j :: j in Visited(routes, best) <==> Maximal(v, routes, addr, j)
  {
    hide Covers, HostPart, HasLength, AtLeast, Visited, PrevBelow, Best;
    VisitsAllMaximal(v, routes, addr);
    BestIsLastMaximal(v, routes, addr);
    var best := Best(v, routes, addr).value;
    forall j | Maximal(v, routes, addr, j)
      ensures routes[j].address == routes[best].address
    {
      LengthBound(v, routes[j]);
      SameLength(routes[j].netmask, routes[best].netmask);
      NormalizedUnique(v, routes[j], routes[best], addr);
    }
  }

  lemma NormalizedUnique(v: Version, r: Route, s: Route, addr: bv16)
    requires HasLength(v, r) && HasLength(v, s) && r.netmask == s.netmask
    requires HostPart(v, r.netmask, r.address) == 0 && HostPart(v, s.netmask, s.address) == 0
    requires Covers(v, r, addr) && Covers(v, s, addr)
    ensures r.address == s.address
  {
    hide NetPart, HostPart;
    OnlyNetPart(v, r.netmask, r.address);
    OnlyNetPart(v, s.netmask, s.address);
  }

  lemma OnlyNetPart(v: Version, netmask: bv16, addr: bv16)
    requires netmask <= HostBits(v) && HostPart(v, netmask, addr) == 0
    ensures NetPart(v, netmask, addr) == addr
  {
    hide HostMask, HostBits, Both, Without;
    MaskedOff(addr, HostMask(v, netmask));
  }

  lemma MaskedOff(a: bv16, m: bv16)
    requires Both(a, m) == 0
    ensures Without(a, m) == a
  {}

  /** With host bits left in, a maximal match can be missed. */
  lemma HostBitsHideRoutes()
    ensures var routes := [Route(8, 10, NO_VIA, 1), Route(9, 10, NO_VIA, 2)];
            && WellFormed(V2, routes) && Best(V2, routes, 12) == Some(1)
            && Maximal(V2, routes, 12, 0) && 0 !in Visited(routes, 1)
  {
    var routes := [Route(8, 10, NO_VIA, 1), Route(9, 10, NO_VIA, 2)];
    assert HostMask(V2, 10) == 0xF;
    assert Covers(V2, routes[0], 12) && Covers(V2, routes[1], 12);
    assert BestOf(V2, routes, 12, 1) == Some(0);
    assert PrevBelow(routes, routes[1], 0) == None;
    assert PrevBelow(routes, routes[1], 1) == None;
  }

  // ----- storing -----

  /** What `csp_rtable_find_exact` compares. */
  function Key(r: Route): (bv16, bv16, nat) {
    (r.address, r.netmask, r.iface)
  }

  predicate SameEntry(r: Route, s: Route) {
    Key(r) == Key(s)
  }

  /** No two entries with the same address, prefix and interface. */
  predicate KeysDistinct(routes: seq<Route>) {
    forall i, j :: 0 <= i < j < |routes| ==> !SameEntry(routes[i], routes[j])
  }

  /** The table with one more route: an entry with its key is overwritten, a new key goes to the end. */
  function Store(routes: seq<Route>, r: Route): (s: seq<Route>)
    ensures |routes| <= |s| <= |routes| + 1
  {
    if routes == [] then [r]
    else if SameEntry(routes[0], r) then [r] + routes[1..]
    else [routes[0]] + Store(routes[1..], r)
  }

  lemma {:induction false} StoreAt(routes: seq<Route>, r: Route, i: nat)
    requires i < |routes| && SameEntry(routes[i], r)
    requires forall j :: 0 <= j < i ==> !SameEntry(routes[j], r)
    ensures Store(routes, r) == routes[i := r]
  {
    if i > 0 {
      StoreAt(routes[1..], r, i - 1);
    }
  }

  lemma {:induction false} StoreNew(routes: seq<Route>, r: Route)
    requires forall j :: 0 <= j < |routes| ==> !SameEntry(routes[j], r)
    ensures Store(routes, r) == routes + [r]
  {
    if routes != [] {
      StoreNew(routes[1..], r);
    }
  }

  /** The position of the entry that storing `r` overwrites, or the end. */
  function Slot(routes: seq<Route>, r: Route): (i: nat)
    ensures i <= |routes| && (i < |routes| ==> SameEntry(routes[i], r))
    ensures forall j :: 0 <= j < i ==> !SameEntry(routes[j], r)
  {
    if routes == [] || SameEntry(routes[0], r) then 0 else 1 + Slot(routes[1..], r)
  }

  /** The table grows exactly if it has no route for this address and prefix by this interface. */
  lemma StoreGrows(routes: seq<Route>, r: Route)
    ensures |Store(routes, r)| == |routes| <==>
            exists i :: 0 <= i < |routes| && routes[i].address == r.address && routes[i].netmask == r.netmask
                        && routes[i].iface == r.iface
  {
    hide Store;
    var k := Slot(routes, r);
    if k < |routes| {
      StoreAt(routes, r, k);
    } else {
      StoreNew(routes, r);
    }
  }

  /** Storing puts the route in exactly one place and keeps every other route where it is. */
  lemma StoreKeepsOthers(routes: seq<Route>, r: Route)
    requires KeysDistinct(routes)
    ensures var s, k := Store(routes, r), Slot(routes, r);
            && k < |s| && s[k] == r && |s| == (if k < |routes| then |routes| else |routes| + 1)
            && (forall i :: 0 <= i < |routes| && i != k ==> s[i] == routes[i] && !SameEntry(routes[i], r))
  {
    hide Key, Store;
    var k := Slot(routes, r);
    if k < |routes| {
      StoreAt(routes, r, k);
      forall i | 0 <= i < |routes| && i != k
        ensures !SameEntry(routes[i], r)
      {
        assert if i < k then !SameEntry(routes[i], routes[k]) else !SameEntry(routes[k], routes[i]);
      }
    } else {
      StoreNew(routes, r);
    }
  }

  lemma StoreKeepsKeysDistinct(routes: seq<Route>, r: Route)
    requires KeysDistinct(routes)
    ensures KeysDistinct(Store(routes, r))
  {
    hide Key, Store;
    StoreKeepsOthers(routes, r);
    var s, k := Store(routes, r), Slot(routes, r);
    forall i, j | 0 <= i < j < |s|
      ensures !SameEntry(s[i], s[j])
    {
      if i != k && j != k {
        assert !SameEntry(routes[i], routes[j]);
      }
    }
  }

  lemma StoreKeepsWellFormed(v: Version, routes: seq<Route>, r: Route)
    requires WellFormed(v, routes) && HasLength(v, r) && KeysDistinct(routes)
    ensures WellFormed(v, Store(routes, r))
  {
    hide HasLength, Store, SameEntry;
    StoreKeepsOthers(routes, r);
    var s, k := Store(routes, r), Slot(routes, r);
    forall i | 0 <= i < |s|
      ensures HasLength(v, s[i])
    {
      if i != k {
        assert HasLength(v, routes[i]);
      }
    }
  }

  /** Whether `csp_rtable_find_exact` would find an entry for the key of `r`. */
  predicate Known(routes: seq<Route>, r: Route) {
    exists i :: 0 <= i < |routes| && SameEntry(routes[i], r)
  }

  lemma KeyOnly(routes: seq<Route>, r: Route, s: Route)
    requires Key(r) == Key(s)
    ensures forall i :: 0 <= i < |routes| ==> SameEntry(routes[i], r) == SameEntry(routes[i], s)
  {}

  /** `Overrun`: there was no room in the table. */
  datatype SetResult = Stored | NoInterface | Overrun

  /** `csp_route_t rtable[]` and `rtable_inptr`. */
  class RoutingTable {
    const version: Version
    const rtable: array<Route>
    var inptr: nat

    ghost predicate Valid()
      reads this, rtable
    {
      inptr <= rtable.Length && WellFormed(version, rtable[..inptr]) && KeysDistinct(rtable[..inptr])
    }

    ghost function Routes(): (r: seq<Route>)
      requires Valid()
      reads this, rtable
      ensures WellFormed(version, r)
    {
      rtable[..inptr]
    }

    /** The empty table of `CSP_RTABLE_SIZE` entries. */
    constructor (v: Version, size: nat)
      ensures Valid() && version == v && rtable.Length == size && Routes() == [] && fresh(rtable)
    {
      version := v;
      rtable := new Route[size](_ => Route(0, 0, 0, 0));
      inptr := 0;
    }

    /** `csp_rtable_find_exact`. */
    method FindExact(address: bv16, netmask: bv16, iface: nat) returns (r: Option<nat>)
      requires Valid()
      ensures r.None? ==> forall i :: 0 <= i < inptr ==> !SameEntry(rtable[i], Route(address, netmask, 0, iface))
      ensures r.Some? ==> r.value < inptr && SameEntry(rtable[r.value], Route(address, netmask, 0, iface))
      ensures r.Some? ==> forall i :: 0 <= i < r.value ==> !SameEntry(rtable[i], Route(address, netmask, 0, iface))
    {
      var i := 0;
      while i < inptr
        invariant 0 <= i <= inptr
        invariant forall j :: 0 <= j < i ==> !SameEntry(rtable[j], Route(address, netmask, 0, iface))
      {
        if rtable[i].address == address && rtable[i].netmask == netmask && rtable[i].iface == iface {
          return Some(i);
        }
        i := i + 1;
      }
      return None;
    }

    /** `csp_rtable_find_route`: the position of the route, by the scan with the best result so far. */
    method FindRoute(addr: bv16) returns (r: Option<nat>)
      requires Valid()
      ensures r == Best(version, Routes(), addr)
    {
      hide Covers, AtLeast;
      ghost var routes := Routes();
      var best: Option<nat> := None;
      var bestMask: bv16 := 0;
      var i := 0;
      while i < inptr
        invariant 0 <= i <= inptr
        invariant best == BestOf(version, routes, addr, i)
        invariant bestMask == if best.None? then 0 else routes[best.value].netmask
      {
        assert routes[i] == rtable[i];
        if Covers(version, rtable[i], addr) {
          AtLeastOrder(rtable[i].netmask, bestMask);
          if AtLeast(rtable[i].netmask, bestMask) {
            best := Some(i);
            bestMask := rtable[i].netmask;
          }
        }
        i := i + 1;
      }
      return best;
    }

    /** `csp_rtable_search_backward`. */
    method SearchBackward(start: nat) returns (r: Option<nat>)
      requires Valid() && start < inptr
      ensures r == PrevBelow(Routes(), Routes()[start], start)
    {
      ghost var routes := Routes();
      assert routes[start] == rtable[start];
      var i := start;
      while i > 0
        invariant i <= start
        invariant PrevBelow(routes, routes[start], start) == PrevBelow(routes, routes[start], i)
      {
        i := i - 1;
        assert routes[i] == rtable[i];
        if rtable[i].netmask == rtable[start].netmask && rtable[i].address == rtable[start].address {
          return Some(i);
        }
      }
      return None;
    }

    /**
     `csp_rtable_set`: an out-of-range prefix length becomes the longest one. A new key that finds the
     table full is written behind it: the table itself stays as it was.
     */
    method Set(address: bv16, netmask: int, iface: Option<nat>, via: bv16) returns (r: SetResult)
      requires Valid()
      modifies this`inptr, rtable
      ensures Valid() && (r.NoInterface? <==> iface.None?)
      ensures iface.Some? ==>
                var route := Route(address, Clamp(version, netmask), via, iface.value);
                && (r.Overrun? <==> |old(Routes())| == rtable.Length && !Known(old(Routes()), route))
                && Routes() == if r.Stored? then Store(old(Routes()), route) else old(Routes())
      ensures iface.None? ==> Routes() == old(Routes())
    {
      hide Clamp, Store, WellFormed, KeysDistinct, SameEntry;
      if iface.None? {
        return NoInterface;
      }
      var route := Route(address, Clamp(version, netmask), via, iface.value);
      var found := FindExact(route.address, route.netmask, route.iface);
      KeyOnly(Routes(), route, Route(address, route.netmask, 0, route.iface));
      if found.None? && inptr == rtable.Length {
        return Overrun;
      }
      Put(route);
      return Stored;
    }

    method Put(r: Route)
      requires Valid() && HasLength(version, r)
      requires inptr < rtable.Length || exists i :: 0 <= i < inptr && SameEntry(rtable[i], r)
      modifies this`inptr, rtable
      ensures Valid() && Routes() == Store(old(Routes()), r)
    {
      hide Store, WellFormed, KeysDistinct, HasLength;
      var found := FindExact(r.address, r.netmask, r.iface);
      ghost var before := Routes();
      assert forall i :: 0 <= i < inptr ==> before[i] == rtable[i];
      StoreKeepsKeysDistinct(before, r);
      StoreKeepsWellFormed(version, before, r);
      if found.Some? {
        StoreAt(before, r, found.value);
        rtable[found.value] := r;
        assert rtable[..inptr] == before[found.value := r];
      } else {
        StoreNew(before, r);
        rtable[inptr] := r;
        inptr := inptr + 1;
        assert rtable[..inptr] == before + [r];
      }
    }

    /** `csp_rtable_free`. */
    method Free()
      requires Valid()
      modifies this`inptr, rtable
      ensures Valid() && Routes() == []
    {
      forall i | 0 <= i < rtable.Length {
        rtable[i] := Route(0, 0, 0, 0);
      }
      inptr := 0;
    }
  }

  /** A prefix length as `uint16_t`. */
  function Length(k: nat): (n: bv16)
    requires k <= 14
    ensures n <= 14 && (k <= 5 ==> n <= 5) && Num16(n) == k
  {
    match k
    case 0 => 0 case 1 => 1 case 2 => 2 case 3 => 3 case 4 => 4 case 5 => 5 case 6 => 6 case 7 => 7
    case 8 => 8 case 9 => 9 case 10 => 10 case 11 => 11 case 12 => 12 case 13 => 13 case _ => 14
  }

  /** A negative or too long prefix length stands for the longest one. */
  function Clamp(v: Version, netmask: int): (n: bv16)
    ensures n <= HostBits(v)
  {
    var bits := if v.V2? then 14 else 5;
    if netmask < 0 || netmask > bits then HostBits(v) else Length(netmask)
  }

  /** A prefix length in range is stored as it is, every other one as that of a host route. */
  lemma ClampKeeps(v: Version, netmask: int)
    ensures Num16(HostBits(v)) == if v.V2? then 14 else 5
    ensures Num16(Clamp(v, netmask)) == if 0 <= netmask <= Num16(HostBits(v)) then netmask else Num16(HostBits(v))
  {}
}
