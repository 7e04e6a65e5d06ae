/**
 Interfaces and subnets: csp_iflist.c, and the broadcast test of csp_id.c. An interface is named by
 its position in the list.
 */
module IfList {
  import opened Words
  import opened CspId

  /** The settings of a `csp_iface_t`. */
  datatype Iface = Iface(addr: bv16, netmask: bv16, isDefault: bool)

  /** Prefix lengths the header format has. */
  predicate WellFormed(v: Version, ifaces: seq<Iface>) {
    forall k :: 0 <= k < |ifaces| ==> HasLength(v, ifaces[k])
  }

  predicate HasLength(v: Version, ifc: Iface) {
    ifc.netmask <= HostBits(v)
  }

  function SubnetMask(v: Version, ifc: Iface): bv16
    requires HasLength(v, ifc)
  {
    (((1 as bv16) << ifc.netmask) - 1) << HostLength(v, ifc.netmask)
  }

  /** `csp_iflist_is_within_subnet` for an interface that is there. */
  predicate WithinSubnet(v: Version, addr: bv16, ifc: Iface)
    requires HasLength(v, ifc)
  {
    Both(ifc.addr, SubnetMask(v, ifc)) == Both(addr, SubnetMask(v, ifc))
  }

  function NetMask(v: Version, k: bv16): bv16
    requires k <= HostBits(v)
  {
    Ones(HostBits(v)) - Ones(k)
  }

  /** `csp_id_is_broadcast`: all host bits set within the interface's network, or the highest address of all. */
  predicate IsBroadcast(v: Version, addr: bv16, ifc: Iface)
    requires HasLength(v, ifc)
  {
    var hostmask := Ones(HostLength(v, ifc.netmask));
    var netmask := NetMask(v, HostLength(v, ifc.netmask));
    (Both(addr, hostmask) == hostmask && Both(addr, netmask) == Both(ifc.addr, netmask)) || addr == MaxNodeId(v)
  }

  // ----- which addresses these are -----

  lemma SubnetMaskBits(v: Version, ifc: Iface)
    requires HasLength(v, ifc)
    ensures SubnetMask(v, ifc) == Both(MaxNodeId(v), Upper(HostLength(v, ifc.netmask)))
  {}

  /** An address is within the subnet exactly if its first bits, as many as the prefix says, are the interface's. */
  lemma WithinIsSamePrefix(v: Version, addr: bv16, ifc: Iface)
    requires HasLength(v, ifc) && IsNode(v, addr) && IsNode(v, ifc.addr)
    ensures WithinSubnet(v, addr, ifc) <==> SamePrefix(v, ifc.netmask, addr, ifc.addr)
  {
    hide SubnetMask, HostBits, HostLength, Upper, Both, Right, MaxNodeId, IsNode;
    SubnetMaskBits(v, ifc);
    SameNetworkBits(v, addr, ifc.addr, HostLength(v, ifc.netmask));
  }

  /** The address with all bits set that come after the prefix. */
  function Highest(v: Version, ifc: Iface): bv16
    requires HasLength(v, ifc)
  {
    Filled(ifc.addr, HostLength(v, ifc.netmask))
  }

  function Filled(a: bv16, k: bv16): bv16
    requires k <= 14
  {
    a | Ones(k)
  }

  lemma FilledUp(a: bv16, k: bv16)
    requires k <= 14
    ensures Right(Filled(a, k), k) == Right(a, k)
  {}

  lemma FilledHasOnes(a: bv16, k: bv16)
    requires k <= 14
    ensures Both(Filled(a, k), Ones(k)) == Ones(k)
  {}

  lemma OnesAreHighest(a: bv16, b: bv16, k: bv16)
    requires k <= 14 && Both(a, Ones(k)) == Ones(k) && Right(a, k) == Right(b, k)
    ensures NotAbove(b, a)
  {}

  function Joined(a: bv16, b: bv16): bv16 { a ^ b }

  lemma TwoParts(a: bv16, k: bv16)
    requires k <= 14
    ensures a == Joined(Left(Right(a, k), k), Both(a, Ones(k)))
  {}

  /** It is in the subnet, and no other address there is higher. */
  lemma HighestOfSubnet(v: Version, ifc: Iface, b: bv16)
    requires HasLength(v, ifc) && SamePrefix(v, ifc.netmask, b, ifc.addr)
    ensures NotAbove(b, Highest(v, ifc)) && SamePrefix(v, ifc.netmask, Highest(v, ifc), ifc.addr)
  {
    hide Ones, Filled, Both, Right, NotAbove, HostLength, HostBits;
    var k := HostLength(v, ifc.netmask);
    FilledUp(ifc.addr, k);
    FilledHasOnes(ifc.addr, k);
    OnesAreHighest(Highest(v, ifc), b, k);
  }

  lemma NetworkBits(v: Version, k: bv16)
    requires k <= HostBits(v)
    ensures NetMask(v, k) == Both(MaxNodeId(v), Upper(k))
  {}

  lemma BroadcastBits(v: Version, addr: bv16, ifc: Iface)
    requires HasLength(v, ifc) && IsNode(v, addr) && IsNode(v, ifc.addr)
    ensures var k := HostLength(v, ifc.netmask);
            IsBroadcast(v, addr, ifc) <==>
            (Both(addr, Ones(k)) == Ones(k) && Right(addr, k) == Right(ifc.addr, k)) || addr == MaxNodeId(v)
  {
    hide HostBits, HostLength, Ones, Upper, Both, Right, NetMask, MaxNodeId, IsNode;
    var k := HostLength(v, ifc.netmask);
    NetworkBits(v, k);
    SameNetworkBits(v, addr, ifc.addr, k);
  }

  lemma OnlyFilled(a: bv16, b: bv16, k: bv16)
    requires k <= 14
    ensures Both(a, Ones(k)) == Ones(k) && Right(a, k) == Right(b, k) <==> a == Filled(b, k)
  {
    hide Ones, Filled, Both, Left, Right, Joined;
    FilledUp(b, k);
    FilledHasOnes(b, k);
    TwoParts(a, k);
    TwoParts(Filled(b, k), k);
  }

  /** Broadcast addresses are the highest address of the interface's subnet and the highest of all. */
  lemma BroadcastIsHighest(v: Version, addr: bv16, ifc: Iface)
    requires HasLength(v, ifc) && IsNode(v, addr) && IsNode(v, ifc.addr)
    ensures IsBroadcast(v, addr, ifc) <==> addr == Highest(v, ifc) || addr == MaxNodeId(v)
  {
    hide IsBroadcast, HostBits, HostLength, Ones, Filled, Both, Right, MaxNodeId, IsNode;
    BroadcastBits(v, addr, ifc);
    OnlyFilled(addr, ifc.addr, HostLength(v, ifc.netmask));
  }

  /** What `csp_iflist_get_by_subnet` accepts: a prefix, and the address under it. */
  predicate IsLocal(v: Version, addr: bv16, ifc: Iface)
    requires HasLength(v, ifc)
  {
    ifc.netmask != 0 && WithinSubnet(v, addr, ifc)
  }

  /** `csp_iflist_get_by_subnet`: the next interface after a given one, or from the head. */
  method GetBySubnet(v: Version, ifaces: seq<Iface>, addr: bv16, after: Option<nat>) returns (r: Option<nat>)
    requires WellFormed(v, ifaces)
    ensures var start := if after.None? then 0 else after.value + 1;
            && (r.None? ==> forall k :: start <= k < |ifaces| ==> !IsLocal(v, addr, ifaces[k]))
            && (r.Some? ==> start <= r.value < |ifaces| && IsLocal(v, addr, ifaces[r.value])
                            && forall k :: start <= k < r.value ==> !IsLocal(v, addr, ifaces[k]))
  {
    hide WithinSubnet, HasLength;
    var start := if after.None? then 0 else after.value + 1;
    var i := start;
    while i < |ifaces|
      invariant start <= i
      invariant forall k :: start <= k < i && k < |ifaces| ==> !IsLocal(v, addr, ifaces[k])
    {
      if ifaces[i].netmask != 0 && WithinSubnet(v, addr, ifaces[i]) {
        return Some(i);
      }
      i := i + 1;
    }
    return None;
  }

  /** `csp_iflist_get_by_isdfl`. */
  method GetByDefault(ifaces: seq<Iface>, after: Option<nat>) returns (r: Option<nat>)
    ensures var start := if after.None? then 0 else after.value + 1;
            && (r.None? ==> forall k :: start <= k < |ifaces| ==> !ifaces[k].isDefault)
            && (r.Some? ==> start <= r.value < |ifaces| && ifaces[r.value].isDefault
                            && forall k :: start <= k < r.value ==> !ifaces[k].isDefault)
  {
    var start := if after.None? then 0 else after.value + 1;
    var i := start;
    while i < |ifaces|
      invariant start <= i
      invariant forall k :: start <= k < i && k < |ifaces| ==> !ifaces[k].isDefault
    {
      if ifaces[i].isDefault {
        return Some(i);
      }
      i := i + 1;
    }
    return None;
  }

  predicate IsMine(ifaces: seq<Iface>, addr: bv16) {
    exists k :: 0 <= k < |ifaces| && ifaces[k].addr == addr
  }

  /** `csp_iflist_get_by_addr`, as the router uses it: is there such an interface. */
  method GetByAddr(ifaces: seq<Iface>, addr: bv16) returns (found: bool)
    ensures found == IsMine(ifaces, addr)
  {
    var i := 0;
    while i < |ifaces|
      invariant 0 <= i <= |ifaces|
      invariant forall k :: 0 <= k < i ==> ifaces[k].addr != addr
    {
      if ifaces[i].addr == addr {
        return true;
      }
      i := i + 1;
    }
    return false;
  }
}
