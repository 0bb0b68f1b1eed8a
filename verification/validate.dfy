/**
  Validation of networks and their DHCP service (router/pkg/models/validate.go:91-143, 306-347),
  and what a configuration without faults guarantees.
 */
module Validate {
  import opened Wrappers
  import opened Models
  import opened Sequences
  import opened Prefixes
  import opened Text
  import opened Defaults

  datatype Problem =
    | NameRequired | NameInvalid | NameDuplicate
    | InterfaceRequired | InterfaceUsedBy(network: nat)
    | VlanIdRange | VlanParentRequired | VlanAssignedTo(network: nat)
    | SubnetRequired | SubnetInvalid | OverlapsWith(prefix: nat)
    | ZoneRequired
    | StartInvalid | EndInvalid | StartOutside | EndOutside | EndBeforeStart | LeaseNegative
    | DnsInvalid(index: nat) | MacInvalid(index: nat) | ReservedInvalid(index: nat) | ReservedOutside(index: nat)

  datatype Fault = Fault(network: nat, problem: Problem)

  // ---- texts ----

  predicate Alphanumeric(c: char) { 'a' <= c <= 'z' || 'A' <= c <= 'Z' || '0' <= c <= '9' }

  predicate ValidName(s: string) {
    && 1 <= |s| <= 64 && Alphanumeric(s[0])
    && forall i :: 0 <= i < |s| ==> Alphanumeric(s[i]) || s[i] == '_' || s[i] == '-'
  }

  predicate Hex(c: char) { '0' <= c <= '9' || 'a' <= c <= 'f' || 'A' <= c <= 'F' }

  predicate ValidMac(s: string) {
    |s| == 17 && forall i :: 0 <= i < 17 ==> if i % 3 == 2 then s[i] == ':' else Hex(s[i])
  }

  predicate ValidAddr(a: Address) { a.IPv4? || a.IPv6? }

  function VlanKey(v: Vlan): string { v.parent + "." + Decimal(v.id) }

  // ---- the faults of one DHCP service ----

  function When(b: bool, p: Problem): seq<Problem> { if b then [p] else [] }

  function DnsFaults(dns: seq<Address>): seq<Problem> {
    if dns == [] then [] else DnsFaults(dns[..|dns| - 1]) + When(!ValidAddr(dns[|dns| - 1]), DnsInvalid(|dns| - 1))
  }

  function ReservationFaults(rs: seq<Reservation>, p: Cidr): seq<Problem> {
    if rs == [] then []
    else
      var i, r := |rs| - 1, rs[|rs| - 1];
      ReservationFaults(rs[..i], p) + When(!ValidMac(r.mac), MacInvalid(i))
      + if !r.ip.IPv4? then [ReservedInvalid(i)] else When(!Contains(p, r.ip.v), ReservedOutside(i))
  }

  function DhcpFaults(d: DhcpServer, p: Cidr): seq<Problem> {
    if !d.enabled then []
    else if !d.start.IPv4? then [StartInvalid]
    else if !d.end.IPv4? then [EndInvalid]
    else
      RangeFaults(d.start.v, d.end.v, p) + When(d.leaseSeconds < 0, LeaseNegative)
      + (DnsFaults(d.dns) + ReservationFaults(d.reservations, p))
  }

  function RangeFaults(start: Word32, end: Word32, p: Cidr): seq<Problem> {
    When(!Contains(p, start), StartOutside) + When(!Contains(p, end), EndOutside) + When(start > end, EndBeforeStart)
  }

  method CheckRange(start: Word32, end: Word32, p: Cidr) returns (faults: seq<Problem>)
    ensures faults == RangeFaults(start, end, p)
  {
    faults := [];
    if !Contains(p, start) { faults := faults + [StartOutside]; }
    if !Contains(p, end) { faults := faults + [EndOutside]; }
    if start > end { faults := faults + [EndBeforeStart]; }
  }

  method CheckDhcp(d: DhcpServer, p: Cidr) returns (faults: seq<Problem>)
    ensures faults == DhcpFaults(d, p)
  {
    if !d.enabled { return []; }
    if !d.start.IPv4? { return [StartInvalid]; }
    if !d.end.IPv4? { return [EndInvalid]; }
    var ranges := CheckRange(d.start.v, d.end.v, p);
    var dns := CheckDns(d.dns);
    var reservations := CheckReservations(d.reservations, p);
    faults := ranges + (if d.leaseSeconds < 0 then [LeaseNegative] else []) + (dns + reservations);
  }

  method CheckDns(dns: seq<Address>) returns (faults: seq<Problem>)
    ensures faults == DnsFaults(dns)
  {
    faults := [];
    for i := 0 to |dns|
      invariant faults == DnsFaults(dns[..i])
    {
      assert dns[..i + 1][..i] == dns[..i];
      if !ValidAddr(dns[i]) { faults := faults + [DnsInvalid(i)]; }
    }
    assert dns[..|dns|] == dns;
  }

  method CheckReservations(rs: seq<Reservation>, p: Cidr) returns (faults: seq<Problem>)
    ensures faults == ReservationFaults(rs, p)
  {
    faults := [];
    for i := 0 to |rs|
      invariant faults == ReservationFaults(rs[..i], p)
    {
      assert rs[..i + 1][..i] == rs[..i];
      var r := rs[i];
      if !ValidMac(r.mac) { faults := faults + [MacInvalid(i)]; }
      if !r.ip.IPv4? {
        faults := faults + [ReservedInvalid(i)];
      } else if !Contains(p, r.ip.v) {
        faults := faults + [ReservedOutside(i)];
      }
    }
    assert rs[..|rs|] == rs;
  }

  // ---- the faults of one network, given those before it ----

  /** The last network before the i-th that uses the interface. */
  function LastUser(ns: seq<Network>, iface: string): Option<nat> {
    if ns == [] then None
    else if ns[|ns| - 1].iface == iface then Some(|ns| - 1)
    else LastUser(ns[..|ns| - 1], iface)
  }

  function LastVlan(ns: seq<Network>, key: string): Option<nat> {
    if ns == [] then None
    else
      var v := ns[|ns| - 1].vlan;
      if v.Some? && v.value.parent != "" && VlanKey(v.value) == key then Some(|ns| - 1)
      else LastVlan(ns[..|ns| - 1], key)
  }

  predicate NameUsed(ns: seq<Network>, name: string) { exists i :: 0 <= i < |ns| && ns[i].name == name }

  function NameFaults(before: seq<Network>, n: Network): seq<Problem> {
    if n.name == "" then [NameRequired]
    else if !ValidName(n.name) then [NameInvalid]
    else When(NameUsed(before, n.name), NameDuplicate)
  }

  function InterfaceFaults(before: seq<Network>, n: Network): seq<Problem> {
    if n.iface == "" then [InterfaceRequired]
    else
      var prev := LastUser(before, n.iface);
      if prev.Some? then [InterfaceUsedBy(prev.value)] else []
  }

  function VlanFaults(before: seq<Network>, n: Network): seq<Problem> {
    if n.vlan.None? then []
    else
      var v := n.vlan.value;
      When(v.id < 1 || v.id > 4094, VlanIdRange)
      + if v.parent == "" then [VlanParentRequired]
        else
          var prev := LastVlan(before, VlanKey(v));
          if prev.Some? then [VlanAssignedTo(prev.value)] else []
  }

  /** The subnets that parsed, in order. */
  function Subnets(ns: seq<Network>): (ps: seq<Cidr>)
    ensures forall p :: p in ps ==> Parsed(p)
  {
    if ns == [] then []
    else Subnets(ns[..|ns| - 1]) + if Parsed(ns[|ns| - 1].subnet) then [ns[|ns| - 1].subnet] else []
  }

  function OverlapFaults(ps: seq<Cidr>, p: Cidr): seq<Problem>
    requires Parsed(p) && forall q :: q in ps ==> Parsed(q)
  {
    if ps == [] then []
    else OverlapFaults(ps[..|ps| - 1], p) + When(Overlaps(ps[|ps| - 1], p), OverlapsWith(|ps| - 1))
  }

  function SubnetFaults(before: seq<Network>, n: Network): seq<Problem> {
    if n.subnet == NoCidr then [SubnetRequired]
    else if !Parsed(n.subnet) then [SubnetInvalid]
    else OverlapFaults(Subnets(before), n.subnet) + DhcpFaults(n.dhcp, n.subnet)
  }

  function NetworkFaults(before: seq<Network>, n: Network): seq<Problem> {
    NameFaults(before, n) + InterfaceFaults(before, n) + VlanFaults(before, n) + SubnetFaults(before, n)
    + When(n.zone == "", ZoneRequired)
  }

  function At(i: nat, ps: seq<Problem>): (fs: seq<Fault>)
    ensures |fs| == |ps|
  {
    if ps == [] then [] else [Fault(i, ps[0])] + At(i, ps[1..])
  }

  function Faults(ns: seq<Network>): seq<Fault> {
    if ns == [] then []
    else Faults(ns[..|ns| - 1]) + At(|ns| - 1, NetworkFaults(ns[..|ns| - 1], ns[|ns| - 1]))
  }

  // ---- the program's loop ----

  method CheckOverlaps(ps: seq<Cidr>, p: Cidr) returns (faults: seq<Problem>)
    requires Parsed(p) && forall q :: q in ps ==> Parsed(q)
    ensures faults == OverlapFaults(ps, p)
  {
    faults := [];
    for j := 0 to |ps|
      invariant faults == OverlapFaults(ps[..j], p)
    {
      assert ps[..j + 1][..j] == ps[..j];
      if Overlaps(ps[j], p) { faults := faults + [OverlapsWith(j)]; }
    }
    assert ps[..|ps|] == ps;
  }

  /** The maps of the loop hold what was said of the networks before. */
  ghost predicate Remembered(before: seq<Network>, names: set<string>, ifaces: map<string, nat>,
                             vlans: map<string, nat>) {
    && (forall s :: s in names <==> NameUsed(before, s))
    && (forall s :: LastUser(before, s) == if s in ifaces then Some(ifaces[s]) else None)
    && (forall s :: LastVlan(before, s) == if s in vlans then Some(vlans[s]) else None)
  }

  method CheckName(n: Network, ghost before: seq<Network>, names: set<string>) returns (faults: seq<Problem>)
    requires forall s :: s in names <==> NameUsed(before, s)
    ensures faults == NameFaults(before, n)
  {
    if n.name == "" {
      faults := [NameRequired];
    } else if !ValidName(n.name) {
      faults := [NameInvalid];
    } else if n.name in names {
      faults := [NameDuplicate];
    } else {
      faults := [];
    }
  }

  method CheckInterface(n: Network, ghost before: seq<Network>, ifaces: map<string, nat>) returns (faults: seq<Problem>)
    requires forall s :: LastUser(before, s) == if s in ifaces then Some(ifaces[s]) else None
    ensures faults == InterfaceFaults(before, n)
  {
    if n.iface == "" {
      faults := [InterfaceRequired];
    } else if n.iface in ifaces {
      faults := [InterfaceUsedBy(ifaces[n.iface])];
    } else {
      faults := [];
    }
  }

  method CheckVlan(n: Network, ghost before: seq<Network>, vlans: map<string, nat>) returns (faults: seq<Problem>)
    requires forall s :: LastVlan(before, s) == if s in vlans then Some(vlans[s]) else None
    ensures faults == VlanFaults(before, n)
  {
    faults := [];
    if n.vlan.Some? {
      if n.vlan.value.id < 1 || n.vlan.value.id > 4094 { faults := faults + [VlanIdRange]; }
      if n.vlan.value.parent == "" {
        faults := faults + [VlanParentRequired];
      } else if VlanKey(n.vlan.value) in vlans {
        faults := faults + [VlanAssignedTo(vlans[VlanKey(n.vlan.value)])];
      }
    }
  }

  method CheckSubnet(n: Network, ghost before: seq<Network>, prefixes: seq<Cidr>) returns (faults: seq<Problem>)
    requires prefixes == Subnets(before)
    ensures faults == SubnetFaults(before, n)
  {
    if n.subnet == NoCidr {
      faults := [SubnetRequired];
    } else if !Parsed(n.subnet) {
      faults := [SubnetInvalid];
    } else {
      var overlaps := CheckOverlaps(prefixes, n.subnet);
      var dhcp := CheckDhcp(n.dhcp, n.subnet);
      faults := overlaps + dhcp;
    }
  }

  method CheckNetwork(n: Network, ghost before: seq<Network>, names: set<string>, ifaces: map<string, nat>,
                      vlans: map<string, nat>, prefixes: seq<Cidr>) returns (faults: seq<Problem>)
    requires Remembered(before, names, ifaces, vlans) && prefixes == Subnets(before)
    ensures faults == NetworkFaults(before, n)
  {
    var name := CheckName(n, before, names);
    var iface := CheckInterface(n, before, ifaces);
    var vlan := CheckVlan(n, before, vlans);
    var subnet := CheckSubnet(n, before, prefixes);
    faults := name + iface + vlan + subnet + if n.zone == "" then [ZoneRequired] else [];
  }

  lemma Remember(before: seq<Network>, n: Network, names: set<string>, ifaces: map<string, nat>,
                 vlans: map<string, nat>)
    requires Remembered(before, names, ifaces, vlans)
    ensures Remembered(before + [n], names + {n.name}, ifaces[n.iface := |before|],
                       if n.vlan.Some? && n.vlan.value.parent != ""
                       then vlans[VlanKey(n.vlan.value) := |before|] else vlans)
  {
    var after := before + [n];
    assert after[..|before|] == before;
    forall s ensures NameUsed(after, s) <==> NameUsed(before, s) || s == n.name {
      if NameUsed(before, s) {
        var i :| 0 <= i < |before| && before[i].name == s;
        assert after[i].name == s;
      }
      assert after[|before|].name == n.name;
    }
  }

  method Attribute(i: nat, ps: seq<Problem>) returns (fs: seq<Fault>)
    ensures fs == At(i, ps)
  {
    fs := [];
    for k := 0 to |ps|
      invariant At(i, ps) == fs + At(i, ps[k..])
    {
      Tail(ps, k);
      Shift(fs, [Fault(i, ps[k])], At(i, ps[k + 1..]));
      fs := fs + [Fault(i, ps[k])];
    }
  }

  lemma FaultsSnoc(before: seq<Network>, n: Network)
    ensures Faults(before + [n]) == Faults(before) + At(|before|, NetworkFaults(before, n))
  {
    var after := before + [n];
    assert after[..|after| - 1] == before && after[|after| - 1] == n;
  }

  lemma SubnetsSnoc(before: seq<Network>, n: Network)
    ensures Subnets(before + [n]) == Subnets(before) + if Parsed(n.subnet) then [n.subnet] else []
  {
    var after := before + [n];
    assert after[..|after| - 1] == before && after[|after| - 1] == n;
  }

  datatype Memory = Memory(names: set<string>, ifaces: map<string, nat>, vlans: map<string, nat>, prefixes: seq<Cidr>)

  ghost predicate Progress(before: seq<Network>, m: Memory, faults: seq<Fault>) {
    && Remembered(before, m.names, m.ifaces, m.vlans)
    && m.prefixes == Subnets(before)
    && faults == Faults(before)
  }

  method CheckNext(ns: seq<Network>, i: nat, m: Memory, faults: seq<Fault>) returns (m': Memory, faults': seq<Fault>)
    requires i < |ns| && Progress(ns[..i], m, faults)
    ensures Progress(ns[..i + 1], m', faults')
  {
    ghost var before := ns[..i];
    var n := ns[i];
    assert ns[..i + 1] == before + [n];
    FaultsSnoc(before, n);
    SubnetsSnoc(before, n);
    Remember(before, n, m.names, m.ifaces, m.vlans);
    var problems := CheckNetwork(n, before, m.names, m.ifaces, m.vlans, m.prefixes);
    var added := Attribute(i, problems);
    faults' := faults + added;
    m' := m.(names := m.names + {n.name}, ifaces := m.ifaces[n.iface := i]);
    if n.vlan.Some? && n.vlan.value.parent != "" { m' := m'.(vlans := m.vlans[VlanKey(n.vlan.value) := i]); }
    if Parsed(n.subnet) { m' := m'.(prefixes := m.prefixes + [n.subnet]); }
  }

  lemma NothingYet(ns: seq<Network>)
    ensures Progress(ns[..0], Memory({}, map[], map[], []), [])
  {}

  lemma AllChecked(ns: seq<Network>, m: Memory, faults: seq<Fault>)
    requires Progress(ns[..|ns|], m, faults)
    ensures faults == Faults(ns)
  {
    assert ns[..|ns|] == ns;
  }

  method ValidateNetworks(ns: seq<Network>) returns (faults: seq<Fault>)
    ensures faults == Faults(ns)
  {
    faults := [];
    var m := Memory({}, map[], map[], []);
    NothingYet(ns);
    for i := 0 to |ns|
      invariant Progress(ns[..i], m, faults)
    {
      m, faults := CheckNext(ns, i, m, faults);
    }
    AllChecked(ns, m, faults);
  }
}
