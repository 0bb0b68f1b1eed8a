/**
  The firewall compiler (router/internal/firewall/ruleset.go:17-302): interface sets per zone and
  the forward chain, as a rule list with nft's first-match evaluation. The program walks Go maps to
  order the sets and the trusted-zone lines; here those orders are arbitrary.
 */
module Firewall {
  import opened Wrappers
  import opened Models
  import opened Sequences
  import opened Prefixes

  // ---- the script ----

  datatype Verdict = Accept | Drop | Reject

  // A limit fires only when the meter of its own rule allows.
  datatype Condition =
    | Established
    | Invalid
    | FromSet(name: string)
    | ToSet(name: string)
    | Saddr(prefixes: seq<Cidr>)
    | Daddr(prefixes: seq<Cidr>)
    | Dport(protocol: Protocol, ranges: seq<PortRange>)
    | L4Icmp
    | Limited(meter: int)

  datatype Line = Line(conditions: seq<Condition>, verdict: Verdict)

  datatype SetDecl = SetDecl(name: string, elements: seq<string>)

  datatype Script = Script(sets: seq<SetDecl>, forward: seq<Line>)

  // ---- evaluating it ----

  datatype Tracking = KnownFlow | InvalidFlow | NewFlow

  // A forwarded packet. `AnyProtocol` stands for every other transport; addresses are absent on IPv6.
  datatype Flow = Flow(iif: string, oif: string, ct: Tracking, protocol: Protocol,
                       src: Option<Word32>, dst: Option<Word32>, dport: Word16)

  predicate InSet(sets: seq<SetDecl>, name: string, iface: string) {
    exists d :: d in sets && d.name == name && iface in d.elements
  }

  predicate AnyContains(ps: seq<Cidr>, a: Option<Word32>) { a.Some? && exists p :: p in ps && Contains(p, a.value) }

  predicate AnyRange(rs: seq<PortRange>, port: Word16) { exists r :: r in rs && r.start <= port <= r.end }

  predicate Holds(k: Condition, sets: seq<SetDecl>, f: Flow, allow: int -> bool) {
    match k
    case Established => f.ct == KnownFlow
    case Invalid => f.ct == InvalidFlow
    case FromSet(name) => InSet(sets, name, f.iif)
    case ToSet(name) => InSet(sets, name, f.oif)
    case Saddr(ps) => AnyContains(ps, f.src)
    case Daddr(ps) => AnyContains(ps, f.dst)
    case Dport(p, rs) => f.protocol == p && AnyRange(rs, f.dport)
    case L4Icmp => f.protocol == Icmp
    case Limited(meter) => allow(meter)
  }

  predicate AllHold(ks: seq<Condition>, sets: seq<SetDecl>, f: Flow, allow: int -> bool) {
    ks == [] || (Holds(ks[0], sets, f, allow) && AllHold(ks[1..], sets, f, allow))
  }

  function First(lines: seq<Line>, sets: seq<SetDecl>, f: Flow, allow: int -> bool): Option<Verdict> {
    if lines == [] then None
    else if AllHold(lines[0].conditions, sets, f, allow) then Some(lines[0].verdict)
    else First(lines[1..], sets, f, allow)
  }

  /** The verdict of the forward chain, whose policy is drop. */
  function Evaluate(s: Script, f: Flow, allow: int -> bool): Verdict {
    var v := First(s.forward, s.sets, f, allow);
    if v.Some? then v.value else Drop
  }

  // ---- names ----

  function ZoneSet(zone: string): string { Lower(zone) + "_ifaces" }

  predicate Same(a: string, b: string) { Lower(a) == Lower(b) }

  const WAN := "WAN"
  const LAN := "LAN"

  function TunnelZone(t: Tunnel): string { if t.zone == "" then "VPN" else t.zone }

  lemma SetNames(a: string, b: string)
    ensures ZoneSet(a) == ZoneSet(b) <==> Same(a, b)
  {
    if ZoneSet(a) == ZoneSet(b) {
      assert |Lower(a)| == |Lower(b)|;
      assert ZoneSet(a)[..|Lower(a)|] == Lower(a);
      assert ZoneSet(b)[..|Lower(b)|] == Lower(b);
    }
  }

  // ---- zones ----

  /** The interfaces of a zone's networks, each once, in configuration order. */
  function NetMembers(ns: seq<Network>, z: string): seq<string> {
    if ns == [] then []
    else
      var rest := NetMembers(Init(ns), z);
      if Last(ns).zone == z && Last(ns).iface !in rest then rest + [Last(ns).iface] else rest
  }

  function TunMembers(ts: seq<Tunnel>, z: string): seq<string> {
    if ts == [] then []
    else TunMembers(Init(ts), z) + if TunnelZone(Last(ts)) == z then [WgIface(Last(ts).name)] else []
  }

  function Members(c: Config, z: string): seq<string> { NetMembers(c.networks, z) + TunMembers(c.tunnels, z) }

  function NetZones(ns: seq<Network>): set<string> {
    if ns == [] then {} else NetZones(Init(ns)) + {Last(ns).zone}
  }

  function TunZones(ts: seq<Tunnel>): set<string> {
    if ts == [] then {} else TunZones(Init(ts)) + {TunnelZone(Last(ts))}
  }

  /** A zone a rule mentions is declared in upper case, unless it is the WAN. */
  function Mention(z: string): set<string> { if z != "" && Upper(z) != WAN then {Upper(z)} else {} }

  function RuleZones(rs: seq<FirewallRule>): set<string> {
    if rs == [] then {} else RuleZones(Init(rs)) + Mention(Last(rs).sourceZone) + Mention(Last(rs).destZone)
  }

  function Zones(c: Config): set<string> { NetZones(c.networks) + TunZones(c.tunnels) + RuleZones(c.rules) }

  function TrustedNets(ns: seq<Network>): set<string> {
    if ns == [] then {}
    else TrustedNets(Init(ns)) + if CanAccessLan(Last(ns)) && Same(Last(ns).zone, LAN) then {Last(ns).zone} else {}
  }

  function Trusted(c: Config): set<string> { TrustedNets(c.networks) + TunZones(c.tunnels) }

  function WanNames(ws: seq<Wan>): seq<string> {
    if ws == [] then [] else WanNames(Init(ws)) + if Enabled(Last(ws)) then [Last(ws).iface] else []
  }

  // ---- the compiler's output, given the two orders ----

  function TrustPairs(c: Config): set<(string, string)> {
    set a, b | a in Trusted(c) && b in Zones(c) && a != b && !Same(b, WAN) :: (a, b)
  }

  function Decls(c: Config, order: seq<string>): seq<SetDecl> {
    if order == [] then [] else Decls(c, Init(order)) + [SetDecl(ZoneSet(Last(order)), Members(c, Last(order)))]
  }

  function Range(p: PortRange): PortRange { if p.end == 0 then PortRange(p.start, p.start) else p }

  function Ranges(ps: seq<PortRange>): seq<PortRange> { if ps == [] then [] else Ranges(Init(ps)) + [Range(Last(ps))] }

  function Ports(ps: seq<PortRange>): seq<PortRange> { if ps == [] then [PortRange(0, 65535)] else Ranges(ps) }

  function RuleConditions(r: FirewallRule, meter: int): seq<Condition> {
    [FromSet(ZoneSet(r.sourceZone)), ToSet(ZoneSet(r.destZone))]
    + (if r.source != [] then [Saddr(r.source)] else [])
    + (if r.destination != [] then [Daddr(r.destination)] else [])
    + (if r.protocol == Tcp || r.protocol == Udp then [Dport(r.protocol, Ports(r.ports))]
       else if r.protocol == Icmp then [L4Icmp] else [])
    + (if r.action == LogVerb then [Limited(meter)] else [])
  }

  function RuleVerdict(v: Verb): Verdict {
    match v case AcceptVerb => Accept case RejectVerb => Reject case DropVerb => Drop case LogVerb => Drop
  }

  function RuleLine(r: FirewallRule, meter: int): Line { Line(RuleConditions(r, meter), RuleVerdict(r.action)) }

  function RuleLines(rs: seq<FirewallRule>): seq<Line> {
    if rs == [] then []
    else RuleLines(Init(rs)) + if Last(rs).enabled then [RuleLine(Last(rs), |rs| - 1)] else []
  }

  function PairLine(a: string, b: string): Line { Line([FromSet(ZoneSet(a)), ToSet(ZoneSet(b))], Accept) }

  function InternetLines(c: Config, ns: seq<Network>): seq<Line> {
    if ns == [] then []
    else
      var n := Last(ns);
      InternetLines(c, Init(ns))
      + if n.zone in Trusted(c) || CanAccessLan(n) || HasInternet(n) then [PairLine(n.zone, WAN)] else []
  }

  function TrustLines(order: seq<(string, string)>): seq<Line> {
    if order == [] then [] else TrustLines(Init(order)) + [PairLine(Last(order).0, Last(order).1)]
  }

  function GrantLines(c: Config, ns: seq<Network>): seq<Line> {
    if ns == [] then []
    else
      var n := Last(ns);
      GrantLines(c, Init(ns)) + if CanAccessLan(n) && n.zone !in Trusted(c) then [PairLine(n.zone, LAN)] else []
  }

  const OPENING := [Line([Established], Accept), Line([Invalid], Drop), Line([FromSet("wan_ifaces")], Drop)]
  const CLOSING := [Line([Limited(-1)], Drop)]

  function Grants(c: Config, pairs: seq<(string, string)>): seq<Line> {
    InternetLines(c, c.networks) + TrustLines(pairs) + GrantLines(c, c.networks)
  }

  function Compile(c: Config, zones: seq<string>, pairs: seq<(string, string)>): Script {
    Script([SetDecl("wan_ifaces", WanNames(c.wans))] + Decls(c, zones),
           OPENING + (RuleLines(c.rules) + (Grants(c, pairs) + CLOSING)))
  }

  /** The scripts the program may produce. */
  ghost predicate Compiled(c: Config, s: Script) {
    exists zones, pairs :: Enumerates(zones, Zones(c)) && Enumerates(pairs, TrustPairs(c))
      && s == Compile(c, zones, pairs)
  }

  // ---- the program's loops ----

  method PortList(ps: seq<PortRange>) returns (out: seq<PortRange>)
    ensures out == Ports(ps)
  {
    out := [];
    for i := 0 to |ps|
      invariant out == Ranges(ps[..i])
    {
      Grow(ps, i);
      out := out + [if ps[i].end == 0 || ps[i].end == ps[i].start then PortRange(ps[i].start, ps[i].start) else ps[i]];
    }
    assert ps[..|ps|] == ps;
    if ps == [] { out := [PortRange(0, 65535)]; }
  }

  method WriteRule(r: FirewallRule, meter: int) returns (l: Line)
    ensures l == RuleLine(r, meter)
  {
    var ks := [FromSet(ZoneSet(r.sourceZone)), ToSet(ZoneSet(r.destZone))];
    if |r.source| > 0 { ks := ks + [Saddr(r.source)]; }
    if |r.destination| > 0 { ks := ks + [Daddr(r.destination)]; }
    var ps := PortList(r.ports);
    if r.protocol == Tcp || r.protocol == Udp {
      ks := ks + [Dport(r.protocol, ps)];
    } else if r.protocol == Icmp {
      ks := ks + [L4Icmp];
    }
    if r.action == LogVerb { ks := ks + [Limited(meter)]; }
    l := Line(ks, RuleVerdict(r.action));
  }

  lemma {:induction false} NoMembers(ns: seq<Network>, z: string)
    requires z !in NetZones(ns)
    ensures NetMembers(ns, z) == []
  {
    if ns != [] { NoMembers(Init(ns), z); }
  }

  lemma {:induction false} NoTunnels(ts: seq<Tunnel>, z: string)
    requires z !in TunZones(ts)
    ensures TunMembers(ts, z) == []
  {
    if ts != [] { NoTunnels(Init(ts), z); }
  }

  /** The zone map after these networks. */
  ghost predicate NetMap(zones: map<string, seq<string>>, ns: seq<Network>) {
    && zones.Keys == NetZones(ns)
    && forall z :: z in zones ==> zones[z] == NetMembers(ns, z)
  }

  function Have(zones: map<string, seq<string>>, z: string): seq<string> { if z in zones then zones[z] else [] }

  function AddOnce(have: seq<string>, iface: string): seq<string> { if iface in have then have else have + [iface] }

  lemma NetStep(zones: map<string, seq<string>>, ns: seq<Network>)
    requires ns != [] && NetMap(zones, Init(ns))
    ensures NetMap(zones[Last(ns).zone := AddOnce(Have(zones, Last(ns).zone), Last(ns).iface)], ns)
  {
    if Last(ns).zone !in zones { NoMembers(Init(ns), Last(ns).zone); }
  }

  method Admit(have: seq<string>, iface: string) returns (out: seq<string>)
    ensures out == AddOnce(have, iface)
  {
    var fits := true;
    for k := 0 to |have|
      invariant fits <==> iface !in have[..k]
    {
      if have[k] == iface { fits := false; }
    }
    assert have[..|have|] == have;
    out := if fits then have + [iface] else have;
  }

  method NetworkZones(ns: seq<Network>) returns (zones: map<string, seq<string>>, trusted: set<string>)
    ensures NetMap(zones, ns) && trusted == TrustedNets(ns)
  {
    zones, trusted := map[], {};
    for i := 0 to |ns|
      invariant NetMap(zones, ns[..i]) && trusted == TrustedNets(ns[..i])
    {
      Grow(ns, i);
      NetStep(zones, ns[..i + 1]);
      var n := ns[i];
      var members := Admit(Have(zones, n.zone), n.iface);
      zones := zones[n.zone := members];
      if CanAccessLan(n) && Same(n.zone, LAN) { trusted := trusted + {n.zone}; }
    }
    assert ns[..|ns|] == ns;
  }

  /** The zone map after the networks and these tunnels. */
  ghost predicate ZoneMap(zones: map<string, seq<string>>, ns: seq<Network>, ts: seq<Tunnel>) {
    && zones.Keys == NetZones(ns) + TunZones(ts)
    && forall z :: z in zones ==> zones[z] == NetMembers(ns, z) + TunMembers(ts, z)
  }

  function AddTo(zones: map<string, seq<string>>, z: string, iface: string): map<string, seq<string>> {
    zones[z := Have(zones, z) + [iface]]
  }

  lemma TunnelStep(zones: map<string, seq<string>>, ns: seq<Network>, ts: seq<Tunnel>)
    requires ts != [] && ZoneMap(zones, ns, Init(ts))
    ensures ZoneMap(AddTo(zones, TunnelZone(Last(ts)), WgIface(Last(ts).name)), ns, ts)
  {
    var z := TunnelZone(Last(ts));
    if z !in zones {
      NoMembers(ns, z);
      NoTunnels(Init(ts), z);
    }
    forall y | y in zones || y == z
      ensures AddTo(zones, z, WgIface(Last(ts).name))[y] == NetMembers(ns, y) + TunMembers(ts, y)
    {
      Shift(NetMembers(ns, y), TunMembers(Init(ts), y),
        if TunnelZone(Last(ts)) == y then [WgIface(Last(ts).name)] else []);
    }
  }

  method AddTunnels(ts: seq<Tunnel>, ghost ns: seq<Network>, nets: map<string, seq<string>>, lan: set<string>)
    returns (zones: map<string, seq<string>>, trusted: set<string>)
    requires ZoneMap(nets, ns, [])
    ensures ZoneMap(zones, ns, ts) && trusted == lan + TunZones(ts)
  {
    zones, trusted := nets, lan;
    for i := 0 to |ts|
      invariant ZoneMap(zones, ns, ts[..i]) && trusted == lan + TunZones(ts[..i])
    {
      Grow(ts, i);
      TunnelStep(zones, ns, ts[..i + 1]);
      var z := TunnelZone(ts[i]);
      zones := AddTo(zones, z, WgIface(ts[i].name));
      trusted := trusted + {z};
    }
    assert ts[..|ts|] == ts;
  }

  method Declare(zones: map<string, seq<string>>, z: string) returns (out: map<string, seq<string>>)
    ensures out.Keys == zones.Keys + Mention(z)
    ensures forall y :: y in out ==> out[y] == Have(zones, y)
  {
    out := zones;
    if z != "" && Upper(z) != WAN && Upper(z) !in zones { out := out[Upper(z) := []]; }
  }

  /** The base with some more zones, empty unless the base has them. */
  ghost predicate Extends(zones: map<string, seq<string>>, base: map<string, seq<string>>, more: set<string>) {
    zones.Keys == base.Keys + more && forall z :: z in zones ==> zones[z] == Have(base, z)
  }

  lemma ExtendsMore(zones: map<string, seq<string>>, longer: map<string, seq<string>>, base: map<string, seq<string>>,
                    more: set<string>, added: set<string>)
    requires Extends(zones, base, more) && longer.Keys == zones.Keys + added
    requires forall y :: y in longer ==> longer[y] == Have(zones, y)
    ensures Extends(longer, base, more + added)
  {}

  /** Zones only rules mention are declared too, empty. */
  method DeclareMentioned(rs: seq<FirewallRule>, base: map<string, seq<string>>)
    returns (zones: map<string, seq<string>>)
    ensures zones.Keys == base.Keys + RuleZones(rs)
    ensures forall z :: z in zones ==> zones[z] == Have(base, z)
  {
    zones := base;
    for i := 0 to |rs|
      invariant Extends(zones, base, RuleZones(rs[..i]))
    {
      Grow(rs, i);
      var source := Declare(zones, rs[i].sourceZone);
      ExtendsMore(zones, source, base, RuleZones(rs[..i]), Mention(rs[i].sourceZone));
      zones := Declare(source, rs[i].destZone);
      ExtendsMore(source, zones, base, RuleZones(rs[..i]) + Mention(rs[i].sourceZone), Mention(rs[i].destZone));
    }
    assert rs[..|rs|] == rs;
  }

  method CollectZones(c: Config) returns (zones: map<string, seq<string>>, trusted: set<string>)
    ensures zones.Keys == Zones(c) && trusted == Trusted(c)
    ensures forall z :: z in zones ==> zones[z] == Members(c, z)
  {
    var nets, lan := NetworkZones(c.networks);
    assert ZoneMap(nets, c.networks, []);
    var base;
    base, trusted := AddTunnels(c.tunnels, c.networks, nets, lan);
    zones := DeclareMentioned(c.rules, base);
    forall z | z in zones ensures zones[z] == Members(c, z) {
      if z !in base {
        NoMembers(c.networks, z);
        NoTunnels(c.tunnels, z);
      }
    }
  }

  /** Network order first; the rest in any order. */
  method ZoneOrder(ns: seq<Network>, zones: set<string>) returns (out: seq<string>)
    requires NetZones(ns) <= zones
    ensures Enumerates(out, zones)
  {
    out := [];
    var seen: set<string> := {};
    for i := 0 to |ns|
      invariant seen == NetZones(ns[..i]) && Enumerates(out, seen)
    {
      Grow(ns, i);
      if ns[i].zone !in seen {
        EnumeratesAppend(out, seen, ns[i].zone);
        seen, out := seen + {ns[i].zone}, out + [ns[i].zone];
      }
    }
    assert ns[..|ns|] == ns;
    ghost var done := seen;
    var rest := zones - seen;
    while rest != {}
      invariant rest <= zones && Enumerates(out, zones - rest)
      decreases rest
    {
      var z :| z in rest;
      EnumeratesAppend(out, zones - rest, z);
      assert zones - (rest - {z}) == (zones - rest) + {z};
      rest, out := rest - {z}, out + [z];
    }
    assert zones - {} == zones;
  }

  method DeclareSets(c: Config, zones: map<string, seq<string>>, order: seq<string>) returns (sets: seq<SetDecl>)
    requires forall z :: z in order ==> z in zones && zones[z] == Members(c, z)
    ensures sets == Decls(c, order)
  {
    sets := [];
    for i := 0 to |order|
      invariant sets == Decls(c, order[..i])
    {
      Grow(order, i);
      sets := sets + [SetDecl(ZoneSet(order[i]), zones[order[i]])];
    }
    assert order[..|order|] == order;
  }

  /** One trusted zone against every other zone, in any order. */
  method TrustRow(a: string, zones: set<string>, lines: seq<Line>, ghost pairs: seq<(string, string)>,
                  ghost done: set<(string, string)>)
    returns (out: seq<Line>, ghost order: seq<(string, string)>)
    requires Enumerates(pairs, done) && lines == TrustLines(pairs) && forall b :: (a, b) !in done
    ensures out == TrustLines(order)
    ensures Enumerates(order, done + Row(a, zones))
  {
    out, order := lines, pairs;
    var rest := zones;
    assert Row(a, zones - rest) == {};
    assert done + {} == done;
    while rest != {}
      invariant rest <= zones && out == TrustLines(order) && Enumerates(order, done + Row(a, zones - rest))
      decreases rest
    {
      var b :| b in rest;
      RowStep(a, zones, rest, b);
      if a != b && !Same(b, WAN) {
        EnumeratesAppend(order, done + Row(a, zones - rest), (a, b));
        assert Init(order + [(a, b)]) == order;
        assert done + Row(a, zones - rest) + {(a, b)} == done + Row(a, zones - (rest - {b}));
        out, order := out + [PairLine(a, b)], order + [(a, b)];
      }
      rest := rest - {b};
    }
    assert zones - rest == zones;
  }

  function Row(a: string, zones: set<string>): set<(string, string)> {
    set b | b in zones && a != b && !Same(b, WAN) :: (a, b)
  }

  lemma RowStep(a: string, zones: set<string>, rest: set<string>, b: string)
    requires b in rest && rest <= zones
    ensures Row(a, zones - (rest - {b})) == Row(a, zones - rest) + if a != b && !Same(b, WAN) then {(a, b)} else {}
  {}

  function Rows(trusted: set<string>, zones: set<string>): set<(string, string)> {
    set a, b | a in trusted && b in zones && a != b && !Same(b, WAN) :: (a, b)
  }

  method TrustTable(trusted: set<string>, zones: set<string>)
    returns (lines: seq<Line>, ghost order: seq<(string, string)>)
    ensures lines == TrustLines(order) && Enumerates(order, Rows(trusted, zones))
  {
    lines, order := [], [];
    var rest := trusted;
    assert Rows(trusted - rest, zones) == {};
    while rest != {}
      invariant rest <= trusted && lines == TrustLines(order) && Enumerates(order, Rows(trusted - rest, zones))
      decreases rest
    {
      var a :| a in rest;
      lines, order := TrustRow(a, zones, lines, order, Rows(trusted - rest, zones));
      assert Rows(trusted - rest, zones) + Row(a, zones) == Rows(trusted - (rest - {a}), zones);
      rest := rest - {a};
    }
    assert trusted - rest == trusted;
  }

  method WriteRules(rs: seq<FirewallRule>) returns (lines: seq<Line>)
    ensures lines == RuleLines(rs)
  {
    lines := [];
    for i := 0 to |rs|
      invariant lines == RuleLines(rs[..i])
    {
      Grow(rs, i);
      if rs[i].enabled {
        var l := WriteRule(rs[i], i);
        lines := lines + [l];
      }
    }
    assert rs[..|rs|] == rs;
  }

  method WriteInternet(c: Config, trusted: set<string>) returns (lines: seq<Line>)
    requires trusted == Trusted(c)
    ensures lines == InternetLines(c, c.networks)
  {
    lines := [];
    for i := 0 to |c.networks|
      invariant lines == InternetLines(c, c.networks[..i])
    {
      Grow(c.networks, i);
      var n := c.networks[i];
      if n.zone in trusted || CanAccessLan(n) {
        lines := lines + [PairLine(n.zone, WAN)];
      } else if HasInternet(n) {
        lines := lines + [PairLine(n.zone, WAN)];
      }
    }
    assert c.networks[..|c.networks|] == c.networks;
  }

  method WriteGrants(c: Config, trusted: set<string>) returns (lines: seq<Line>)
    requires trusted == Trusted(c)
    ensures lines == GrantLines(c, c.networks)
  {
    lines := [];
    for i := 0 to |c.networks|
      invariant lines == GrantLines(c, c.networks[..i])
    {
      Grow(c.networks, i);
      var n := c.networks[i];
      if CanAccessLan(n) && n.zone !in trusted { lines := lines + [PairLine(n.zone, LAN)]; }
    }
    assert c.networks[..|c.networks|] == c.networks;
  }

  method WanInterfaces(ws: seq<Wan>) returns (names: seq<string>)
    ensures names == WanNames(ws)
  {
    names := [];
    for i := 0 to |ws|
      invariant names == WanNames(ws[..i])
    {
      Grow(ws, i);
      if Enabled(ws[i]) { names := names + [ws[i].iface]; }
    }
    assert ws[..|ws|] == ws;
  }

  method Generate(c: Config) returns (s: Script)
    ensures Compiled(c, s)
  {
    var wans := WanInterfaces(c.wans);
    var zones, trusted := CollectZones(c);
    var order := ZoneOrder(c.networks, zones.Keys);
    var sets := DeclareSets(c, zones, order);
    var rules := WriteRules(c.rules);
    var internet := WriteInternet(c, trusted);
    ghost var pairs;
    var trust;
    trust, pairs := TrustTable(trusted, zones.Keys);
    var grants := WriteGrants(c, trusted);
    s := Script([SetDecl("wan_ifaces", wans)] + sets, OPENING + (rules + (internet + trust + grants + CLOSING)));
    assert Rows(trusted, zones.Keys) == TrustPairs(c);
    assert s == Compile(c, order, pairs);
  }
}
