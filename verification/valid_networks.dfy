/**
  What it means for a list of networks to have no faults, stated without the program's order of
  checks, and what follows for addresses.
 */
module ValidNetworks {
  import opened Wrappers
  import opened Models
  import opened Prefixes
  import opened Text
  import opened Defaults
  import opened Validate

  // ---- validity ----

  ghost predicate DhcpFits(d: DhcpServer, p: Cidr) {
    d.enabled ==>
      && d.start.IPv4? && d.end.IPv4? && d.start.v <= d.end.v
      && Contains(p, d.start.v) && Contains(p, d.end.v)
      && d.leaseSeconds >= 0
      && (forall i :: 0 <= i < |d.dns| ==> ValidAddr(d.dns[i]))
      && (forall i :: 0 <= i < |d.reservations| ==> ReservationFits(d.reservations[i], p))
  }

  ghost predicate ReservationFits(r: Reservation, p: Cidr) { ValidMac(r.mac) && r.ip.IPv4? && Contains(p, r.ip.v) }

  ghost predicate Sound(n: Network) {
    && ValidName(n.name) && n.iface != "" && n.zone != ""
    && (n.vlan.Some? ==> 1 <= n.vlan.value.id <= 4094 && n.vlan.value.parent != "")
    && Parsed(n.subnet) && DhcpFits(n.dhcp, n.subnet)
  }

  /** No address is in both subnets. */
  ghost predicate Disjoint(p: Cidr, q: Cidr) {
    && (forall v: Word32 :: !(Contains(p, v) && Contains(q, v)))
    && (forall v: Word128 :: !(Contains6(p, v) && Contains6(q, v)))
  }

  ghost predicate Apart(m: Network, n: Network) {
    && m.name != n.name && m.iface != n.iface
    && (m.vlan.Some? && n.vlan.Some? ==> m.vlan != n.vlan)
    && Disjoint(m.subnet, n.subnet)
  }

  ghost predicate ValidNetworks(ns: seq<Network>) {
    && (forall i :: 0 <= i < |ns| ==> Sound(ns[i]))
    && (forall i, j :: 0 <= i < j < |ns| ==> Apart(ns[i], ns[j]))
  }

  // ---- no fault, one list at a time ----

  lemma Empty2<T>(a: seq<T>, b: seq<T>)
    ensures a + b == [] <==> a == [] && b == []
  {}

  lemma {:induction false} NoDnsFaults(dns: seq<Address>)
    ensures DnsFaults(dns) == [] <==> forall i :: 0 <= i < |dns| ==> ValidAddr(dns[i])
  {
    if dns != [] {
      var init, last := dns[..|dns| - 1], dns[|dns| - 1];
      NoDnsFaults(init);
      Empty2(DnsFaults(init), When(!ValidAddr(last), DnsInvalid(|dns| - 1)));
      assert forall i :: 0 <= i < |init| ==> init[i] == dns[i];
    }
  }

  lemma {:induction false} NoReservationFaults(rs: seq<Reservation>, p: Cidr)
    ensures ReservationFaults(rs, p) == [] <==> forall i :: 0 <= i < |rs| ==> ReservationFits(rs[i], p)
  {
    if rs != [] { NoReservationFaults(rs[..|rs| - 1], p); }
  }

  lemma Empty3<T>(a: seq<T>, b: seq<T>, c: seq<T>)
    ensures a + b + c == [] <==> a == [] && b == [] && c == []
  {}

  lemma NoRangeFaults(start: Word32, end: Word32, p: Cidr)
    ensures RangeFaults(start, end, p) == [] <==> Contains(p, start) && Contains(p, end) && start <= end
  {
    Empty3(When(!Contains(p, start), StartOutside), When(!Contains(p, end), EndOutside),
      When(start > end, EndBeforeStart));
  }

  lemma NoDhcpFaults(d: DhcpServer, p: Cidr)
    ensures DhcpFaults(d, p) == [] <==> DhcpFits(d, p)
  {
    if d.enabled && d.start.IPv4? && d.end.IPv4? {
      NoRangeFaults(d.start.v, d.end.v, p);
      NoDnsFaults(d.dns);
      NoReservationFaults(d.reservations, p);
      Empty3(RangeFaults(d.start.v, d.end.v, p), When(d.leaseSeconds < 0, LeaseNegative),
             DnsFaults(d.dns) + ReservationFaults(d.reservations, p));
      assert DnsFaults(d.dns) + ReservationFaults(d.reservations, p) == []
        <==> DnsFaults(d.dns) == [] && ReservationFaults(d.reservations, p) == [];
    }
  }

  lemma {:induction false} NoUser(ns: seq<Network>, iface: string)
    ensures LastUser(ns, iface).None? <==> forall i :: 0 <= i < |ns| ==> ns[i].iface != iface
  {
    if ns != [] { NoUser(ns[..|ns| - 1], iface); }
  }

  lemma {:induction false} NoVlan(ns: seq<Network>, key: string)
    ensures LastVlan(ns, key).None? <==>
      forall i :: 0 <= i < |ns| ==>
        ns[i].vlan.None? || ns[i].vlan.value.parent == "" || VlanKey(ns[i].vlan.value) != key
  {
    if ns != [] { NoVlan(ns[..|ns| - 1], key); }
  }

  /** A VLAN's key names its parent and its number, dots in the parent notwithstanding. */
  lemma VlanKeyInjective(v: Vlan, w: Vlan)
    requires VlanKey(v) == VlanKey(w)
    ensures v == w
  {
    if |v.parent| < |w.parent| {
      DotInDecimal(w.parent, w.id, v.parent, v.id);
    } else if |w.parent| < |v.parent| {
      DotInDecimal(v.parent, v.id, w.parent, w.id);
    } else {
      assert VlanKey(v)[..|v.parent|] == v.parent && VlanKey(w)[..|w.parent|] == w.parent;
      assert VlanKey(v)[|v.parent| + 1..] == Decimal(v.id) && VlanKey(w)[|w.parent| + 1..] == Decimal(w.id);
      DecimalInjective(v.id, w.id);
    }
  }

  lemma NoDot(n: int)
    ensures '.' !in Decimal(n)
  {}

  lemma DotInDecimal(p: string, m: int, q: string, n: int)
    requires |q| < |p|
    ensures p + "." + Decimal(m) != q + "." + Decimal(n)
  {
    NoDot(n);
    var a, b := p + "." + Decimal(m), q + "." + Decimal(n);
    if |a| == |b| {
      var i := |p| - |q| - 1;
      assert a[|p|] == '.' && b[|p|] == Decimal(n)[i] && Decimal(n)[i] in Decimal(n);
    }
  }

  lemma {:induction false} NoOverlapFaults(ps: seq<Cidr>, p: Cidr)
    requires Parsed(p) && forall q :: q in ps ==> Parsed(q)
    ensures OverlapFaults(ps, p) == [] <==> forall q :: q in ps ==> !Overlaps(q, p)
  {
    if ps != [] {
      assert ps == ps[..|ps| - 1] + [ps[|ps| - 1]];
      NoOverlapFaults(ps[..|ps| - 1], p);
    }
  }

  lemma {:induction false} SubnetsHas(ns: seq<Network>, p: Cidr)
    ensures p in Subnets(ns) <==> Parsed(p) && exists i :: 0 <= i < |ns| && ns[i].subnet == p
  {
    if ns != [] {
      SubnetsHas(ns[..|ns| - 1], p);
      assert ns[|ns| - 1].subnet == p ==> exists i :: 0 <= i < |ns| && ns[i].subnet == p;
    }
  }

  lemma OverlapIsShared(p: Cidr, q: Cidr)
    requires Parsed(p) && Parsed(q)
    ensures Overlaps(p, q) <==> !Disjoint(p, q)
  {
    if p.V4? && q.V4? { OverlapIsIntersection(p, q); }
    if p.V6? && q.V6? { OverlapIsIntersection6(p, q); }
  }

  // ---- no fault in the whole list ----

  /** The checks on one network against those before it, each alone. */
  lemma NoNetworkFaults(before: seq<Network>, n: Network)
    ensures NetworkFaults(before, n) == [] <==>
      NameFaults(before, n) == [] && InterfaceFaults(before, n) == [] && VlanFaults(before, n) == []
      && SubnetFaults(before, n) == [] && n.zone != ""
  {
    Empty3(NameFaults(before, n) + InterfaceFaults(before, n) + VlanFaults(before, n),
      SubnetFaults(before, n), When(n.zone == "", ZoneRequired));
    Empty3(NameFaults(before, n), InterfaceFaults(before, n), VlanFaults(before, n));
  }

  lemma NoNameFaults(before: seq<Network>, n: Network)
    ensures NameFaults(before, n) == [] <==>
      ValidName(n.name) && forall i :: 0 <= i < |before| ==> before[i].name != n.name
  {}

  lemma NoInterfaceFaults(before: seq<Network>, n: Network)
    ensures InterfaceFaults(before, n) == [] <==>
      n.iface != "" && forall i :: 0 <= i < |before| ==> before[i].iface != n.iface
  {
    NoUser(before, n.iface);
  }

  lemma NoVlanFaults(before: seq<Network>, n: Network)
    requires forall i :: 0 <= i < |before| && before[i].vlan.Some? ==> before[i].vlan.value.parent != ""
    ensures VlanFaults(before, n) == [] <==>
      n.vlan.Some? ==> 1 <= n.vlan.value.id <= 4094 && n.vlan.value.parent != ""
                       && forall i :: 0 <= i < |before| ==> before[i].vlan != n.vlan
  {
    if n.vlan.Some? {
      var key := VlanKey(n.vlan.value);
      NoVlan(before, key);
      forall i | 0 <= i < |before| && before[i].vlan.Some?
        ensures VlanKey(before[i].vlan.value) == key <==> before[i].vlan == n.vlan
      {
        if VlanKey(before[i].vlan.value) == key { VlanKeyInjective(before[i].vlan.value, n.vlan.value); }
      }
    }
  }

  lemma NoSubnetFaults(before: seq<Network>, n: Network)
    requires forall i :: 0 <= i < |before| ==> Parsed(before[i].subnet)
    ensures SubnetFaults(before, n) == [] <==>
      Parsed(n.subnet) && DhcpFits(n.dhcp, n.subnet)
      && forall i :: 0 <= i < |before| ==> Disjoint(before[i].subnet, n.subnet)
  {
    if Parsed(n.subnet) {
      NoDhcpFaults(n.dhcp, n.subnet);
      NoOverlapFaults(Subnets(before), n.subnet);
      forall i | 0 <= i < |before|
        ensures before[i].subnet in Subnets(before)
        ensures Overlaps(before[i].subnet, n.subnet) <==> !Disjoint(before[i].subnet, n.subnet)
      {
        SubnetsHas(before, before[i].subnet);
        OverlapIsShared(before[i].subnet, n.subnet);
      }
      forall q | q in Subnets(before)
        ensures exists i :: 0 <= i < |before| && before[i].subnet == q
      {
        SubnetsHas(before, q);
      }
    }
  }

  ghost predicate ApartFrom(before: seq<Network>, n: Network) { forall i :: 0 <= i < |before| ==> Apart(before[i], n) }

  lemma NoFaultsHere(before: seq<Network>, n: Network)
    requires ValidNetworks(before)
    ensures NetworkFaults(before, n) == [] <==> Sound(n) && ApartFrom(before, n)
  {
    assert forall i :: 0 <= i < |before| ==> Sound(before[i]);
    NoNetworkFaults(before, n);
    NoNameFaults(before, n);
    NoInterfaceFaults(before, n);
    NoVlanFaults(before, n);
    NoSubnetFaults(before, n);
  }

  lemma ValidSnoc(before: seq<Network>, n: Network)
    ensures ValidNetworks(before + [n]) <==> ValidNetworks(before) && Sound(n) && ApartFrom(before, n)
  {
    var ns := before + [n];
    if ValidNetworks(ns) {
      forall i | 0 <= i < |before| ensures Sound(before[i]) && Apart(before[i], n) {
        assert ns[i] == before[i] && ns[|before|] == n && Apart(ns[i], ns[|before|]);
      }
      forall i, j | 0 <= i < j < |before| ensures Apart(before[i], before[j]) { assert Apart(ns[i], ns[j]); }
      assert Sound(ns[|before|]);
    }
  }

  lemma OneMoreNetwork(before: seq<Network>, n: Network)
    requires Faults(before) == [] <==> ValidNetworks(before)
    ensures Faults(before + [n]) == [] <==> ValidNetworks(before + [n])
  {
    FaultsSnoc(before, n);
    ValidSnoc(before, n);
    assert |At(|before|, NetworkFaults(before, n))| == |NetworkFaults(before, n)|;
    if ValidNetworks(before) { NoFaultsHere(before, n); }
  }

  /**
    Validation reports no fault exactly when the networks are sound and pairwise apart, subnets as
    address sets included.
   */
  lemma {:induction false} CleanMeansValid(ns: seq<Network>)
    ensures Faults(ns) == [] <==> ValidNetworks(ns)
  {
    if ns != [] {
      var before, n := ns[..|ns| - 1], ns[|ns| - 1];
      assert ns == before + [n];
      CleanMeansValid(before);
      OneMoreNetwork(before, n);
    }
  }

  // ---- what follows ----

  /** The first network whose subnet contains the address (router/internal/monitor/monitor.go:181-191). */
  function MatchNet(ns: seq<Network>, v: Word32): string {
    if ns == [] then "" else if Contains(ns[0].subnet, v) then ns[0].name else MatchNet(ns[1..], v)
  }

  lemma {:induction false} MatchIs(ns: seq<Network>, v: Word32, n: Network)
    requires n in ns && Contains(n.subnet, v)
    requires forall m :: m in ns && Contains(m.subnet, v) ==> m == n
    ensures MatchNet(ns, v) == n.name
  {
    if !Contains(ns[0].subnet, v) { MatchIs(ns[1..], v, n); }
  }

  lemma {:induction false} MatchNone(ns: seq<Network>, v: Word32)
    requires forall m :: m in ns ==> !Contains(m.subnet, v)
    ensures MatchNet(ns, v) == ""
  {
    if ns != [] { MatchNone(ns[1..], v); }
  }

  lemma LaterDisjoint(ns: seq<Network>, i: nat, j: nat)
    requires ValidNetworks(ns) && i < j < |ns|
    ensures Disjoint(ns[i].subnet, ns[j].subnet)
  {
    assert Apart(ns[i], ns[j]);
  }

  lemma OneIndex(ns: seq<Network>, i: nat, j: nat, v: Word32)
    requires ValidNetworks(ns) && i < |ns| && j < |ns| && Contains(ns[i].subnet, v) && Contains(ns[j].subnet, v)
    ensures i == j
  {
    if i < j { LaterDisjoint(ns, i, j); }
    if j < i { LaterDisjoint(ns, j, i); }
  }

  lemma OneMatch(ns: seq<Network>, v: Word32, m: Network, n: Network)
    requires ValidNetworks(ns) && m in ns && n in ns && Contains(m.subnet, v) && Contains(n.subnet, v)
    ensures m == n
  {
    var i :| 0 <= i < |ns| && ns[i] == m;
    var j :| 0 <= j < |ns| && ns[j] == n;
    OneIndex(ns, i, j, v);
  }

  /** Which network an address belongs to does not depend on the order of a validated list. */
  lemma MatchOrderFree(ns: seq<Network>, ms: seq<Network>, v: Word32)
    requires Faults(ns) == [] && forall n :: n in ns <==> n in ms
    ensures MatchNet(ns, v) == MatchNet(ms, v)
  {
    CleanMeansValid(ns);
    if n :| n in ns && Contains(n.subnet, v) {
      forall m | m in ns && Contains(m.subnet, v) ensures m == n { OneMatch(ns, v, m, n); }
      MatchIs(ns, v, n);
      MatchIs(ms, v, n);
    } else {
      MatchNone(ns, v);
      MatchNone(ms, v);
    }
  }

  predicate InPool(n: Network, v: Word32) {
    n.dhcp.enabled && n.dhcp.start.IPv4? && n.dhcp.end.IPv4? && n.dhcp.start.v <= v <= n.dhcp.end.v
  }

  /** A validated pool lies inside its own subnet. */
  lemma PoolInside(n: Network, v: Word32)
    requires Sound(n) && InPool(n, v)
    ensures Contains(n.subnet, v)
  {
    var low: nat := 32 - n.subnet.bits;
    BlockOf(n.subnet.addr, n.dhcp.start.v, low);
    BlockOf(n.subnet.addr, n.dhcp.end.v, low);
    BlockOf(n.subnet.addr, v, low);
  }

  /** Two networks of a validated configuration never lease the same address. */
  lemma PoolsShareNothing(ns: seq<Network>, i: nat, j: nat, v: Word32)
    requires Faults(ns) == [] && i < |ns| && j < |ns| && InPool(ns[i], v) && InPool(ns[j], v)
    ensures i == j
  {
    CleanMeansValid(ns);
    PoolInside(ns[i], v);
    PoolInside(ns[j], v);
    OneIndex(ns, i, j, v);
  }

  /** A service with everything left to defaults. */
  predicate Bare(d: DhcpServer) {
    d.enabled && d.start == Unset && d.end == Unset && d.leaseSeconds == 0 && d.dns == [] && d.reservations == []
  }

  lemma PoolContained(p: Cidr)
    requires p.V4? && DefaultPool(p).Some?
    ensures (Contains(p, DefaultPool(p).value.0) && Contains(p, DefaultPool(p).value.1))
      <==> p.bits <= 30 && NetAddr(p) + 220 < WORDS
  {
    var (start, end) := DefaultPool(p).value;
    BlockOf(p.addr, start, 32 - p.bits);
    BlockOf(p.addr, end, 32 - p.bits);
    PoolUsable(p);
    PoolBounds(p);
  }

  /** The proposed pool never touches the network or broadcast address of a subnet it lies in. */
  lemma PoolBounds(p: Cidr)
    requires p.V4? && DefaultPool(p).Some?
    ensures var (start, end) := DefaultPool(p).value;
      NetAddr(p) <= start && end < NetAddr(p) + Pow2(32 - p.bits) ==> Inner(p, start, end)
  {
    BlockSize(p);
    SubnetFits(p);
    if p.bits <= 30 {
      BoundsArithmetic(NetAddr(p), Pow2(32 - p.bits));
    } else {
      SmallBounds(NetAddr(p), Pow2(32 - p.bits));
    }
  }

  lemma BoundsArithmetic(base: Word32, block: nat)
    requires block >= 4 && base + block <= WORDS && PoolAt(base, Wrap(block)).Some?
    ensures var (start, end) := PoolAt(base, Wrap(block)).value;
      base <= start && end < base + block ==> base < start < end < base + block - 1
  {
    LastUsable(base, block);
    WrapOnce(base + 100);
    WrapOnce(base + 220);
    WrapOnce(base + block - 3);
  }

  lemma SmallBounds(base: Word32, block: nat)
    requires 1 <= block < 4 && base + block <= WORDS && PoolAt(base, Wrap(block)).Some?
    requires block != 3
    ensures var (start, end) := PoolAt(base, Wrap(block)).value; !(base <= start && end < base + block)
  {
    WrapOnce(block);
    WrapOnce(base + 100);
    WrapOnce(base + 220);
  }

  /** A service left to defaults validates exactly where the default pool is usable. */
  lemma DefaultedServicePasses(d: DhcpServer, p: Cidr)
    requires Bare(d) && Parsed(p)
    ensures DhcpFaults(DhcpDefaults(d, p), p) == [] <==> p.V4? && p.bits <= 30 && NetAddr(p) + 220 < WORDS
  {
    var full := DhcpDefaults(d, p);
    NoDhcpFaults(full, p);
    if p.V4? {
      PoolUsable(p);
      if DefaultPool(p).Some? { PoolContained(p); }
    }
  }

  // ---- the configuration a store is seeded with ----

  lemma DefaultPoolFits()
    ensures Contains(V4(0xC0A8_0101, 24), 0xC0A8_0164) && Contains(V4(0xC0A8_0101, 24), 0xC0A8_01DC)
  {
    assert Pow2(8) == 256;
  }

  lemma DefaultSound(members: seq<string>, v6: Cidr)
    ensures Sound(DefaultConfig().networks[0].(members := members, ipv6Subnet := v6))
  {
    DefaultPoolFits();
  }

  /** Its network is valid, whatever its bridge's members and its IPv6 subnet. */
  lemma DefaultNetworkClean(members: seq<string>, v6: Cidr)
    ensures Faults([DefaultConfig().networks[0].(members := members, ipv6Subnet := v6)]) == []
  {
    DefaultSound(members, v6);
    CleanMeansValid([DefaultConfig().networks[0].(members := members, ipv6Subnet := v6)]);
  }
}
