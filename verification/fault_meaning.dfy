/**
  Which faults validation reports: one for each thing that is wrong, and no others
  (router/pkg/models/validate.go:91-143, 306-347).
 */
module FaultMeaning {
  import opened Wrappers
  import opened Models
  import opened Sequences
  import opened Prefixes
  import opened Text
  import opened Validate
  import opened ValidNetworks

  // ---- what can be wrong ----

  predicate LetterOrDigit(c: char) { 'a' <= c <= 'z' || 'A' <= c <= 'Z' || '0' <= c <= '9' }

  /** One to 64 letters, digits, underscores and hyphens, the first a letter or digit. */
  predicate GoodName(s: string) {
    && 1 <= |s| <= 64 && LetterOrDigit(s[0])
    && forall i :: 0 <= i < |s| ==> LetterOrDigit(s[i]) || s[i] == '_' || s[i] == '-'
  }

  /** Six pairs of hexadecimal digits with colons between them. */
  predicate GoodMac(s: string) {
    |s| == 17 && forall i :: 0 <= i < 17 ==>
      if i % 3 == 2 then s[i] == ':' else '0' <= s[i] <= '9' || 'a' <= s[i] <= 'f' || 'A' <= s[i] <= 'F'
  }

  predicate HasPrefix(n: Network) { n.subnet.V4? || n.subnet.V6? }

  /** How many of the networks have a subnet that parsed. */
  function Prefixed(ns: seq<Network>): nat {
    if ns == [] then 0 else Prefixed(Init(ns)) + if HasPrefix(Last(ns)) then 1 else 0
  }

  /** The network is served, and the ends of its pool are addresses. */
  predicate Served(n: Network) { HasPrefix(n) && n.dhcp.enabled && n.dhcp.start.IPv4? && n.dhcp.end.IPv4? }

  /** The last of the networks before the i-th of which this holds. */
  predicate LastBefore(ns: seq<Network>, i: nat, k: nat, same: Network -> bool)
    requires i < |ns|
  {
    k < i && same(ns[k]) && forall j :: k < j < i ==> !same(ns[j])
  }

  /** The problem is there. */
  ghost predicate Wrong(ns: seq<Network>, i: nat, p: Problem)
    requires i < |ns|
  {
    var n := ns[i];
    match p
    case NameRequired => n.name == ""
    case NameInvalid => n.name != "" && !GoodName(n.name)
    case NameDuplicate => GoodName(n.name) && exists j :: 0 <= j < i && ns[j].name == n.name
    case InterfaceRequired => n.iface == ""
    case InterfaceUsedBy(k) => n.iface != "" && LastBefore(ns, i, k, (m: Network) => m.iface == n.iface)
    case VlanIdRange => n.vlan.Some? && !(1 <= n.vlan.value.id <= 4094)
    case VlanParentRequired => n.vlan.Some? && n.vlan.value.parent == ""
    case VlanAssignedTo(k) =>
      n.vlan.Some? && n.vlan.value.parent != "" && LastBefore(ns, i, k, (m: Network) => m.vlan == n.vlan)
    case SubnetRequired => n.subnet == NoCidr
    case SubnetInvalid => n.subnet.Malformed?
    case OverlapsWith(j) =>
      HasPrefix(n) && exists k ::
        0 <= k < i && HasPrefix(ns[k]) && Prefixed(ns[..k]) == j && !Disjoint(ns[k].subnet, n.subnet)
    case ZoneRequired => n.zone == ""
    case StartInvalid => HasPrefix(n) && n.dhcp.enabled && !n.dhcp.start.IPv4?
    case EndInvalid => HasPrefix(n) && n.dhcp.enabled && n.dhcp.start.IPv4? && !n.dhcp.end.IPv4?
    case StartOutside => Served(n) && !Contains(n.subnet, n.dhcp.start.v)
    case EndOutside => Served(n) && !Contains(n.subnet, n.dhcp.end.v)
    case EndBeforeStart => Served(n) && n.dhcp.end.v < n.dhcp.start.v
    case LeaseNegative => Served(n) && n.dhcp.leaseSeconds < 0
    case DnsInvalid(k) => Served(n) && k < |n.dhcp.dns| && !n.dhcp.dns[k].IPv4? && !n.dhcp.dns[k].IPv6?
    case MacInvalid(k) => Served(n) && k < |n.dhcp.reservations| && !GoodMac(n.dhcp.reservations[k].mac)
    case ReservedInvalid(k) => Served(n) && k < |n.dhcp.reservations| && !n.dhcp.reservations[k].ip.IPv4?
    case ReservedOutside(k) =>
      Served(n) && k < |n.dhcp.reservations| && n.dhcp.reservations[k].ip.IPv4?
      && !Contains(n.subnet, n.dhcp.reservations[k].ip.v)
  }

  // ---- one list of problems after another ----

  lemma {:induction false} UserIs(ns: seq<Network>, iface: string, k: nat)
    ensures LastUser(ns, iface) == Some(k) <==>
      k < |ns| && ns[k].iface == iface && forall j :: k < j < |ns| ==> ns[j].iface != iface
  {
    if ns != [] { UserIs(ns[..|ns| - 1], iface, k); }
  }

  lemma {:induction false} VlanIs(ns: seq<Network>, v: Vlan, k: nat)
    requires v.parent != ""
    ensures LastVlan(ns, VlanKey(v)) == Some(k) <==>
      k < |ns| && ns[k].vlan == Some(v) && forall j :: k < j < |ns| ==> ns[j].vlan != Some(v)
  {
    if ns != [] {
      VlanIs(ns[..|ns| - 1], v, k);
      var last := ns[|ns| - 1].vlan;
      if last.Some? && VlanKey(last.value) == VlanKey(v) { VlanKeyInjective(last.value, v); }
    }
  }

  lemma NameProblems(ns: seq<Network>, i: nat, p: Problem)
    requires i < |ns|
    ensures p in NameFaults(ns[..i], ns[i]) <==>
      (p.NameRequired? || p.NameInvalid? || p.NameDuplicate?) && Wrong(ns, i, p)
  {
    assert NameUsed(ns[..i], ns[i].name) <==> exists j :: 0 <= j < i && ns[j].name == ns[i].name by {
      if j :| 0 <= j < i && ns[j].name == ns[i].name { assert ns[..i][j].name == ns[i].name; }
    }
  }

  lemma InterfaceProblems(ns: seq<Network>, i: nat, p: Problem)
    requires i < |ns|
    ensures p in InterfaceFaults(ns[..i], ns[i]) <==> (p.InterfaceRequired? || p.InterfaceUsedBy?) && Wrong(ns, i, p)
  {
    if p.InterfaceUsedBy? { UserIs(ns[..i], ns[i].iface, p.network); }
  }

  lemma AssignedIs(ns: seq<Network>, i: nat, v: Vlan, k: nat)
    requires i < |ns| && v.parent != ""
    ensures LastVlan(ns[..i], VlanKey(v)) == Some(k) <==> LastBefore(ns, i, k, (m: Network) => m.vlan == Some(v))
  {
    VlanIs(ns[..i], v, k);
  }

  lemma VlanList(before: seq<Network>, n: Network, p: Problem)
    requires n.vlan.Some?
    ensures var v := n.vlan.value;
      p in VlanFaults(before, n) <==>
      || (p.VlanIdRange? && !(1 <= v.id <= 4094)) || (p.VlanParentRequired? && v.parent == "")
      || (v.parent != "" && p.VlanAssignedTo? && LastVlan(before, VlanKey(v)) == Some(p.network))
  {}

  lemma VlanProblems(ns: seq<Network>, i: nat, p: Problem)
    requires i < |ns|
    ensures p in VlanFaults(ns[..i], ns[i]) <==>
      (p.VlanIdRange? || p.VlanParentRequired? || p.VlanAssignedTo?) && Wrong(ns, i, p)
  {
    var n := ns[i];
    if n.vlan.Some? {
      VlanList(ns[..i], n, p);
      if n.vlan.value.parent != "" && p.VlanAssignedTo? { AssignedIs(ns, i, n.vlan.value, p.network); }
    }
  }

  /** One of the networks, with that many parsed subnets before it, shares an address with this one. */
  ghost predicate Shares(ns: seq<Network>, n: Network, count: nat) {
    exists k :: 0 <= k < |ns| && HasPrefix(ns[k]) && Prefixed(ns[..k]) == count && !Disjoint(ns[k].subnet, n.subnet)
  }

  lemma SharesSnoc(init: seq<Network>, last: Network, n: Network, count: nat)
    ensures Shares(init + [last], n, count) <==>
      Shares(init, n, count) || (HasPrefix(last) && Prefixed(init) == count && !Disjoint(last.subnet, n.subnet))
  {
    var ns := init + [last];
    assert ns[|init|] == last && ns[..|init|] == init;
    assert forall k :: 0 <= k < |init| ==> ns[k] == init[k] && ns[..k] == init[..k];
  }

  lemma OverlapSnoc(ps: seq<Cidr>, q: Cidr, p: Cidr, problem: Problem)
    requires Parsed(p) && Parsed(q) && forall x :: x in ps ==> Parsed(x)
    ensures problem in OverlapFaults(ps + [q], p) <==>
      problem in OverlapFaults(ps, p) || (!Disjoint(q, p) && problem == OverlapsWith(|ps|))
  {
    var longer := ps + [q];
    assert longer[..|longer| - 1] == ps;
    OverlapIsShared(q, p);
  }

  lemma {:induction false} OverlapProblems(ns: seq<Network>, n: Network, p: Problem)
    requires HasPrefix(n)
    ensures |Subnets(ns)| == Prefixed(ns)
    ensures p in OverlapFaults(Subnets(ns), n.subnet) <==> p.OverlapsWith? && Shares(ns, n, p.prefix)
  {
    if ns != [] {
      var init, last := Init(ns), Last(ns);
      OverlapProblems(init, n, p);
      assert ns == init + [last];
      SubnetsSnoc(init, last);
      if HasPrefix(last) {
        OverlapSnoc(Subnets(init), last.subnet, n.subnet, p);
      } else {
        assert Subnets(init) + [] == Subnets(init);
      }
      if p.OverlapsWith? { SharesSnoc(init, last, n, p.prefix); }
    }
  }

  lemma {:induction false} DnsProblems(dns: seq<Address>, p: Problem)
    ensures p in DnsFaults(dns) <==> p.DnsInvalid? && p.index < |dns| && !dns[p.index].IPv4? && !dns[p.index].IPv6?
  {
    if dns != [] { DnsProblems(dns[..|dns| - 1], p); }
  }

  lemma {:induction false} ReservationProblems(rs: seq<Reservation>, s: Cidr, p: Problem)
    ensures p in ReservationFaults(rs, s) <==>
      match p
      case MacInvalid(k) => k < |rs| && !GoodMac(rs[k].mac)
      case ReservedInvalid(k) => k < |rs| && !rs[k].ip.IPv4?
      case ReservedOutside(k) => k < |rs| && rs[k].ip.IPv4? && !Contains(s, rs[k].ip.v)
      case _ => false
  {
    if rs != [] {
      ReservationProblems(rs[..|rs| - 1], s, p);
    }
  }

  predicate OfService(p: Problem) {
    p.StartInvalid? || p.EndInvalid? || p.StartOutside? || p.EndOutside? || p.EndBeforeStart? || p.LeaseNegative?
    || p.DnsInvalid? || p.MacInvalid? || p.ReservedInvalid? || p.ReservedOutside?
  }

  lemma RangeProblems(start: Word32, end: Word32, s: Cidr, p: Problem)
    ensures p in RangeFaults(start, end, s) <==>
      || (p.StartOutside? && !Contains(s, start)) || (p.EndOutside? && !Contains(s, end))
      || (p.EndBeforeStart? && end < start)
  {}

  lemma Four<T>(a: seq<T>, b: seq<T>, c: seq<T>, d: seq<T>, x: T)
    ensures x in a + b + (c + d) <==> x in a || x in b || x in c || x in d
  {}

  lemma ServedProblems(d: DhcpServer, s: Cidr, p: Problem)
    requires d.enabled && d.start.IPv4? && d.end.IPv4?
    ensures p in DhcpFaults(d, s) <==>
      || p in RangeFaults(d.start.v, d.end.v, s) || (p.LeaseNegative? && d.leaseSeconds < 0)
      || p in DnsFaults(d.dns) || p in ReservationFaults(d.reservations, s)
  {
    Four(RangeFaults(d.start.v, d.end.v, s), When(d.leaseSeconds < 0, LeaseNegative), DnsFaults(d.dns),
         ReservationFaults(d.reservations, s), p);
  }

  lemma UnservedProblems(d: DhcpServer, s: Cidr, p: Problem)
    requires !(d.enabled && d.start.IPv4? && d.end.IPv4?)
    ensures p in DhcpFaults(d, s) <==>
      d.enabled && if d.start.IPv4? then p.EndInvalid? else p.StartInvalid?
  {}

  lemma ServedWrong(ns: seq<Network>, i: nat, p: Problem)
    requires i < |ns| && Served(ns[i])
    ensures p in DhcpFaults(ns[i].dhcp, ns[i].subnet) <==> OfService(p) && Wrong(ns, i, p)
  {
    var d, s := ns[i].dhcp, ns[i].subnet;
    ServedProblems(d, s, p);
    RangeProblems(d.start.v, d.end.v, s, p);
    DnsProblems(d.dns, p);
    ReservationProblems(d.reservations, s, p);
  }

  lemma ServiceProblems(ns: seq<Network>, i: nat, p: Problem)
    requires i < |ns| && HasPrefix(ns[i])
    ensures p in DhcpFaults(ns[i].dhcp, ns[i].subnet) <==> OfService(p) && Wrong(ns, i, p)
  {
    if Served(ns[i]) { ServedWrong(ns, i, p); } else { UnservedProblems(ns[i].dhcp, ns[i].subnet, p); }
  }

  lemma OverlapsHere(ns: seq<Network>, i: nat, p: Problem)
    requires i < |ns| && HasPrefix(ns[i])
    ensures p in OverlapFaults(Subnets(ns[..i]), ns[i].subnet) <==> p.OverlapsWith? && Wrong(ns, i, p)
  {
    OverlapProblems(ns[..i], ns[i], p);
    assert forall k :: 0 <= k < i ==> ns[..i][k] == ns[k] && ns[..i][..k] == ns[..k];
  }

  lemma SubnetList(before: seq<Network>, n: Network, p: Problem)
    ensures p in SubnetFaults(before, n) <==>
      if HasPrefix(n) then p in OverlapFaults(Subnets(before), n.subnet) || p in DhcpFaults(n.dhcp, n.subnet)
      else if n.subnet == NoCidr then p.SubnetRequired? else p.SubnetInvalid?
  {}

  lemma SubnetProblems(ns: seq<Network>, i: nat, p: Problem)
    requires i < |ns|
    ensures p in SubnetFaults(ns[..i], ns[i]) <==>
      (p.SubnetRequired? || p.SubnetInvalid? || p.OverlapsWith? || OfService(p)) && Wrong(ns, i, p)
  {
    SubnetList(ns[..i], ns[i], p);
    if HasPrefix(ns[i]) {
      ServiceProblems(ns, i, p);
      OverlapsHere(ns, i, p);
    }
  }

  lemma NetworkProblems(ns: seq<Network>, i: nat, p: Problem)
    requires i < |ns|
    ensures p in NetworkFaults(ns[..i], ns[i]) <==> Wrong(ns, i, p)
  {
    NameProblems(ns, i, p);
    InterfaceProblems(ns, i, p);
    VlanProblems(ns, i, p);
    SubnetProblems(ns, i, p);
  }

  lemma {:induction false} Attributed(i: nat, ps: seq<Problem>, f: Fault)
    ensures f in At(i, ps) <==> f.network == i && f.problem in ps
  {
    if ps != [] { Attributed(i, ps[1..], f); }
  }

  /** The problems that a check finds with each network, given those before it. */
  function Gathered(check: (seq<Network>, Network) -> seq<Problem>, ns: seq<Network>): seq<Fault> {
    if ns == [] then [] else Gathered(check, Init(ns)) + At(|ns| - 1, check(Init(ns), Last(ns)))
  }

  lemma {:induction false} GatheredHas(check: (seq<Network>, Network) -> seq<Problem>, ns: seq<Network>, f: Fault)
    ensures f in Gathered(check, ns) <==>
      f.network < |ns| && f.problem in check(ns[..f.network], ns[f.network])
  {
    if ns != [] {
      var init := Init(ns);
      GatheredHas(check, init, f);
      Attributed(|ns| - 1, check(init, Last(ns)), f);
      if f.network < |init| { assert init[..f.network] == ns[..f.network]; }
    }
  }

  lemma {:induction false} FaultsGathered(ns: seq<Network>)
    ensures Faults(ns) == Gathered(NetworkFaults, ns)
  {
    if ns != [] { FaultsGathered(Init(ns)); }
  }

  /** A fault is reported exactly if it is there. */
  lemma ReportedExactly(ns: seq<Network>, f: Fault)
    ensures f in Faults(ns) <==> f.network < |ns| && Wrong(ns, f.network, f.problem)
  {
    FaultsGathered(ns);
    GatheredHas(NetworkFaults, ns, f);
    if f.network < |ns| { NetworkProblems(ns, f.network, f.problem); }
  }
}
