/**
  What the compiled forward chain means: the zone policy stated without sets, lines or order, and
  the proof that first-match evaluation of every script the compiler may emit decides by it.
 */
module FirewallPolicy {
  import opened Wrappers
  import opened Models
  import opened Sequences
  import opened Prefixes
  import opened Firewall

  // ---- the policy, in the configuration's own terms ----

  predicate OnWan(c: Config, iface: string) { exists w :: w in c.wans && w.enabled != Some(false) && w.iface == iface }

  /** A network or tunnel of this zone, in whatever case it is spelled, is on the interface. */
  predicate OnZone(c: Config, iface: string, z: string) {
    || (exists n :: n in c.networks && Same(n.zone, z) && n.iface == iface)
    || (exists t :: t in c.tunnels && Same(if t.zone == "" then "VPN" else t.zone, z)
          && iface == if "wg" <= t.name then t.name else "wg-" + t.name)
  }

  predicate InZone(c: Config, iface: string, z: string) {
    if Same(z, "WAN") then OnWan(c, iface) else OnZone(c, iface, z)
  }

  predicate PortMatches(ps: seq<PortRange>, port: Word16) {
    ps == [] || exists p :: p in ps && (p.start <= port <= p.end || (p.end == 0 && port == p.start))
  }

  predicate ProtocolMatches(r: FirewallRule, f: Flow) {
    match r.protocol
    case AnyProtocol => true
    case Icmp => f.protocol == Icmp
    case _ => f.protocol == r.protocol && PortMatches(r.ports, f.dport)
  }

  predicate RuleMatches(c: Config, r: FirewallRule, f: Flow) {
    && InZone(c, f.iif, r.sourceZone) && InZone(c, f.oif, r.destZone)
    && (r.source == [] || AnyContains(r.source, f.src))
    && (r.destination == [] || AnyContains(r.destination, f.dst))
    && ProtocolMatches(r, f)
  }

  /** Rule i decides a packet it matches; a log rule only while its meter allows. */
  predicate Decides(c: Config, i: nat, f: Flow, allow: int -> bool)
    requires i < |c.rules|
  {
    c.rules[i].enabled && RuleMatches(c, c.rules[i], f) && (c.rules[i].action == LogVerb ==> allow(i))
  }

  /** Some network in the packet's zone grants its whole zone the internet. */
  predicate InternetGrant(c: Config, f: Flow) {
    && OnWan(c, f.oif)
    && exists n ::
      n in c.networks && InZone(c, f.iif, n.zone)
      && (n.internetAccess != Some(false) || n.accessToLan == Some(true) || TrustedZone(c, n.zone))
  }

  /** The LAN if one of its networks may reach it, and every tunnel's zone. */
  predicate TrustedZone(c: Config, z: string) {
    || (Same(z, "LAN") && exists n :: n in c.networks && Same(n.zone, "LAN") && n.accessToLan == Some(true))
    || exists t :: t in c.tunnels && Same(if t.zone == "" then "VPN" else t.zone, z)
  }

  /** From a trusted zone into a different one; `a` and `b` are zones in use. */
  predicate TrustGrant(c: Config, f: Flow) {
    exists a, b :: a in Zones(c) && b in Zones(c) && TrustedZone(c, a) && !Same(a, b) && InZone(c, f.iif, a)
      && InZone(c, f.oif, b)
  }

  predicate LanGrant(c: Config, f: Flow) {
    InZone(c, f.oif, "LAN")
    && exists n :: n in c.networks && n.accessToLan == Some(true) && !Same(n.zone, "LAN") && InZone(c, f.iif, n.zone)
  }

  predicate Granted(c: Config, f: Flow) { InternetGrant(c, f) || TrustGrant(c, f) || LanGrant(c, f) }

  ghost predicate Undecided(c: Config, upto: nat, f: Flow, allow: int -> bool)
    requires upto <= |c.rules|
  {
    forall i :: 0 <= i < upto ==> !Decides(c, i, f, allow)
  }

  /** The first rule that decides gives the verdict. */
  ghost predicate FirstRule(c: Config, upto: nat, f: Flow, allow: int -> bool, v: Verdict)
    requires upto <= |c.rules|
  {
    exists i :: 0 <= i < upto && Undecided(c, i, f, allow) && Decides(c, i, f, allow)
      && Asks(c.rules[i].action, v)
  }

  /** What a rule's action asks for; a log rule logs and drops. */
  predicate Asks(a: Verb, v: Verdict) {
    && (a == AcceptVerb ==> v == Accept)
    && (a == RejectVerb ==> v == Reject)
    && (a == DropVerb || a == LogVerb ==> v == Drop)
  }

  /** The verdict the configuration asks for. */
  ghost predicate Policy(c: Config, f: Flow, allow: int -> bool, v: Verdict) {
    match f.ct
    case KnownFlow => v == Accept
    case InvalidFlow => v == Drop
    case NewFlow =>
      if OnWan(c, f.iif) then v == Drop
      else
        || FirstRule(c, |c.rules|, f, allow, v)
        || (Undecided(c, |c.rules|, f, allow) && v == if Granted(c, f) then Accept else Drop)
  }

  // ---- well-formed scripts ----

  function Named(k: Condition): set<string> {
    match k case FromSet(n) => {n} case ToSet(n) => {n} case _ => {}
  }

  ghost predicate Declared(sets: seq<SetDecl>, name: string) { exists i :: 0 <= i < |sets| && sets[i].name == name }

  ghost predicate UniqueSets(sets: seq<SetDecl>) { forall i, j :: 0 <= i < j < |sets| ==> sets[i].name != sets[j].name }

  /** Every set is declared once, and every set a line names is declared. */
  ghost predicate WellFormed(s: Script) {
    && UniqueSets(s.sets)
    && (forall l, k, name :: l in s.forward && k in l.conditions && name in Named(k) ==> Declared(s.sets, name))
  }

  /** Zones differ by more than case and none is the WAN, rules name zones, and grants into the LAN have a LAN. */
  ghost predicate Deployable(c: Config) {
    && DistinctZones(c)
    && (forall r :: r in c.rules && r.enabled ==> Known(c, r.sourceZone) && Known(c, r.destZone))
    && ((exists n :: n in c.networks && CanAccessLan(n) && n.zone !in Trusted(c)) ==>
      exists z :: z in Zones(c) && Same(z, LAN))
  }

  ghost predicate DistinctZones(c: Config) {
    && (forall a, b :: a in Zones(c) && b in Zones(c) && Same(a, b) ==> a == b)
    && (forall a :: a in Zones(c) ==> !Same(a, WAN))
  }

  /** Only an empty zone name in a rule can go undeclared. */
  predicate Known(c: Config, z: string) { z != "" || "" in Zones(c) }

  // ---- membership in the compiler's lists ----

  lemma {:induction false} NetZonesHas(ns: seq<Network>, z: string)
    ensures z in NetZones(ns) <==> exists n :: n in ns && n.zone == z
  {
    if ns != [] {
      assert ns == Init(ns) + [Last(ns)];
      NetZonesHas(Init(ns), z);
    }
  }

  lemma {:induction false} TunZonesHas(ts: seq<Tunnel>, z: string)
    ensures z in TunZones(ts) <==> exists t :: t in ts && TunnelZone(t) == z
  {
    if ts != [] {
      assert ts == Init(ts) + [Last(ts)];
      TunZonesHas(Init(ts), z);
    }
  }

  lemma {:induction false} RuleZonesHas(rs: seq<FirewallRule>, r: FirewallRule)
    requires r in rs
    ensures Mention(r.sourceZone) <= RuleZones(rs) && Mention(r.destZone) <= RuleZones(rs)
  {
    assert rs == Init(rs) + [Last(rs)];
    if r in Init(rs) { RuleZonesHas(Init(rs), r); }
  }

  lemma {:induction false} TrustedNetsHas(ns: seq<Network>, z: string)
    ensures z in TrustedNets(ns) <==> Same(z, LAN) && exists n :: n in ns && n.zone == z && CanAccessLan(n)
  {
    if ns != [] {
      assert ns == Init(ns) + [Last(ns)];
      TrustedNetsHas(Init(ns), z);
    }
  }

  lemma {:induction false} NetMembersHas(ns: seq<Network>, z: string, iface: string)
    ensures iface in NetMembers(ns, z) <==> exists n :: n in ns && n.zone == z && n.iface == iface
  {
    if ns != [] {
      assert ns == Init(ns) + [Last(ns)];
      NetMembersHas(Init(ns), z, iface);
    }
  }

  lemma {:induction false} TunMembersHas(ts: seq<Tunnel>, z: string, iface: string)
    ensures iface in TunMembers(ts, z) <==> exists t :: t in ts && TunnelZone(t) == z && WgIface(t.name) == iface
  {
    if ts != [] {
      assert ts == Init(ts) + [Last(ts)];
      TunMembersHas(Init(ts), z, iface);
    }
  }

  lemma {:induction false} WanNamesHas(ws: seq<Wan>, iface: string)
    ensures iface in WanNames(ws) <==> exists w :: w in ws && Enabled(w) && w.iface == iface
  {
    if ws != [] {
      assert ws == Init(ws) + [Last(ws)];
      WanNamesHas(Init(ws), iface);
    }
  }

  lemma {:induction false} DeclsAt(c: Config, order: seq<string>)
    ensures |Decls(c, order)| == |order|
    ensures forall i :: 0 <= i < |order| ==> Decls(c, order)[i] == SetDecl(ZoneSet(order[i]), Members(c, order[i]))
  {
    if order != [] { DeclsAt(c, Init(order)); }
  }

  // ---- sets mean zones ----

  lemma WanSet()
    ensures ZoneSet(WAN) == "wan_ifaces"
  {
    assert Lower(WAN) == "wan";
  }

  lemma ZoneElements(c: Config, z: string, iface: string)
    ensures (exists y :: y in Zones(c) && Same(y, z) && iface in Members(c, y)) <==> OnZone(c, iface, z)
  {
    forall y ensures iface in Members(c, y) <==>
      (exists n :: n in c.networks && n.zone == y && n.iface == iface)
        || (exists t :: t in c.tunnels && TunnelZone(t) == y && WgIface(t.name) == iface)
    {
      NetMembersHas(c.networks, y, iface);
      TunMembersHas(c.tunnels, y, iface);
    }
    forall n | n in c.networks ensures n.zone in Zones(c) { NetZonesHas(c.networks, n.zone); }
    forall t | t in c.tunnels ensures TunnelZone(t) in Zones(c) { TunZonesHas(c.tunnels, TunnelZone(t)); }
  }

  lemma WanInSet(c: Config, rest: seq<SetDecl>, z: string, iface: string)
    requires Same(z, WAN) && OnWan(c, iface)
    ensures InSet([SetDecl("wan_ifaces", WanNames(c.wans))] + rest, ZoneSet(z), iface)
  {
    WanSet();
    SetNames(z, WAN);
    WanNamesHas(c.wans, iface);
    assert SetDecl("wan_ifaces", WanNames(c.wans)) in [SetDecl("wan_ifaces", WanNames(c.wans))] + rest;
  }

  lemma DeclOf(c: Config, order: seq<string>, y: string)
    requires y in order
    ensures SetDecl(ZoneSet(y), Members(c, y)) in Decls(c, order)
  {
    DeclsAt(c, order);
    var i :| 0 <= i < |order| && order[i] == y;
    assert Decls(c, order)[i] == SetDecl(ZoneSet(y), Members(c, y));
  }

  lemma NetInSet(c: Config, order: seq<string>, first: SetDecl, z: string, iface: string)
    requires Enumerates(order, Zones(c)) && OnZone(c, iface, z)
    ensures InSet([first] + Decls(c, order), ZoneSet(z), iface)
  {
    ZoneElements(c, z, iface);
    var y :| y in Zones(c) && Same(y, z) && iface in Members(c, y);
    DeclOf(c, order, y);
    SetNames(y, z);
    assert SetDecl(ZoneSet(y), Members(c, y)) in [first] + Decls(c, order);
  }

  lemma ZoneInSet(c: Config, order: seq<string>, z: string, iface: string)
    requires Enumerates(order, Zones(c)) && InZone(c, iface, z)
    ensures InSet([SetDecl("wan_ifaces", WanNames(c.wans))] + Decls(c, order), ZoneSet(z), iface)
  {
    if Same(z, WAN) {
      WanInSet(c, Decls(c, order), z, iface);
    } else {
      NetInSet(c, order, SetDecl("wan_ifaces", WanNames(c.wans)), z, iface);
    }
  }

  lemma SetInZone(c: Config, order: seq<string>, z: string, iface: string)
    requires Enumerates(order, Zones(c)) && DistinctZones(c)
    requires InSet([SetDecl("wan_ifaces", WanNames(c.wans))] + Decls(c, order), ZoneSet(z), iface)
    ensures InZone(c, iface, z)
  {
    var wan := SetDecl("wan_ifaces", WanNames(c.wans));
    var d :| d in [wan] + Decls(c, order) && d.name == ZoneSet(z) && iface in d.elements;
    if d in Decls(c, order) {
      DeclsAt(c, order);
      var i :| 0 <= i < |order| && Decls(c, order)[i] == d;
      SetNames(order[i], z);
      assert order[i] in Zones(c) && Same(order[i], z);
      ZoneElements(c, z, iface);
    } else {
      WanSet();
      SetNames(z, WAN);
      WanNamesHas(c.wans, iface);
    }
  }

  /** Membership in the set a zone name selects is being in that zone. */
  lemma SetsAreZones(c: Config, order: seq<string>, z: string, iface: string)
    requires Enumerates(order, Zones(c)) && DistinctZones(c)
    ensures InSet([SetDecl("wan_ifaces", WanNames(c.wans))] + Decls(c, order), ZoneSet(z), iface) <==>
      InZone(c, iface, z)
  {
    if InZone(c, iface, z) { ZoneInSet(c, order, z, iface); }
    if InSet([SetDecl("wan_ifaces", WanNames(c.wans))] + Decls(c, order), ZoneSet(z), iface) {
      SetInZone(c, order, z, iface);
    }
  }

  // ---- lines mean rules ----

  lemma {:induction false} AllHoldConcat(a: seq<Condition>, b: seq<Condition>, sets: seq<SetDecl>, f: Flow,
                                         allow: int -> bool)
    ensures AllHold(a + b, sets, f, allow) <==> AllHold(a, sets, f, allow) && AllHold(b, sets, f, allow)
  {
    if a == [] {
      assert a + b == b;
    } else {
      assert (a + b)[1..] == a[1..] + b;
      AllHoldConcat(a[1..], b, sets, f, allow);
    }
  }

  lemma AllHoldOne(k: Condition, sets: seq<SetDecl>, f: Flow, allow: int -> bool)
    ensures AllHold([k], sets, f, allow) <==> Holds(k, sets, f, allow)
  {
    assert [k][1..] == [];
  }

  lemma AllHoldTwo(k: Condition, m: Condition, sets: seq<SetDecl>, f: Flow, allow: int -> bool)
    ensures AllHold([k, m], sets, f, allow) <==> Holds(k, sets, f, allow) && Holds(m, sets, f, allow)
  {
    assert [k, m] == [k] + [m];
    AllHoldConcat([k], [m], sets, f, allow);
    AllHoldOne(k, sets, f, allow);
    AllHoldOne(m, sets, f, allow);
  }

  lemma {:induction false} FirstConcat(a: seq<Line>, b: seq<Line>, sets: seq<SetDecl>, f: Flow, allow: int -> bool)
    ensures First(a + b, sets, f, allow)
      == if First(a, sets, f, allow).Some? then First(a, sets, f, allow) else First(b, sets, f, allow)
  {
    if a == [] {
      assert a + b == b;
    } else {
      assert (a + b)[1..] == a[1..] + b;
      FirstConcat(a[1..], b, sets, f, allow);
    }
  }

  lemma {:induction false} RangesMatch(ps: seq<PortRange>, port: Word16)
    ensures AnyRange(Ranges(ps), port) <==>
      exists p :: p in ps && (p.start <= port <= p.end || (p.end == 0 && port == p.start))
  {
    if ps != [] {
      var p, init := Last(ps), Init(ps);
      assert ps == init + [p];
      RangesMatch(init, port);
      assert Ranges(ps) == Ranges(init) + [Range(p)];
      assert AnyRange(Ranges(ps), port) <==> AnyRange(Ranges(init), port) || Range(p).start <= port <= Range(p).end;
    }
  }

  lemma PortsMatch(ps: seq<PortRange>, port: Word16)
    ensures AnyRange(Ports(ps), port) <==> PortMatches(ps, port)
  {
    RangesMatch(ps, port);
    if ps == [] { assert PortRange(0, 65535) in Ports(ps); }
  }

  /** The sets of a compiled script, for deployable zones. */
  ghost predicate Faithful(c: Config, sets: seq<SetDecl>) {
    forall z: string, iface: string :: InSet(sets, ZoneSet(z), iface) <==> InZone(c, iface, z)
  }

  function Optional(b: bool, k: Condition): seq<Condition> { if b then [k] else [] }

  lemma OptionalHolds(b: bool, k: Condition, sets: seq<SetDecl>, f: Flow, allow: int -> bool)
    ensures AllHold(Optional(b, k), sets, f, allow) <==> (b ==> Holds(k, sets, f, allow))
  {
    AllHoldOne(k, sets, f, allow);
  }

  function ProtocolConditions(r: FirewallRule): seq<Condition> {
    if r.protocol == Tcp || r.protocol == Udp then [Dport(r.protocol, Ports(r.ports))]
    else if r.protocol == Icmp then [L4Icmp] else []
  }

  lemma ProtocolHolds(r: FirewallRule, sets: seq<SetDecl>, f: Flow, allow: int -> bool)
    ensures AllHold(ProtocolConditions(r), sets, f, allow) <==> ProtocolMatches(r, f)
  {
    PortsMatch(r.ports, f.dport);
    AllHoldOne(L4Icmp, sets, f, allow);
    AllHoldOne(Dport(r.protocol, Ports(r.ports)), sets, f, allow);
  }

  lemma RuleConditionsAre(r: FirewallRule, meter: int)
    ensures RuleConditions(r, meter)
      == [FromSet(ZoneSet(r.sourceZone)), ToSet(ZoneSet(r.destZone))]
        + Optional(r.source != [], Saddr(r.source)) + Optional(r.destination != [], Daddr(r.destination))
        + ProtocolConditions(r) + Optional(r.action == LogVerb, Limited(meter))
  {}

  lemma RuleHolds(c: Config, r: FirewallRule, meter: int, sets: seq<SetDecl>, f: Flow, allow: int -> bool)
    requires Faithful(c, sets)
    ensures AllHold(RuleConditions(r, meter), sets, f, allow)
      <==> RuleMatches(c, r, f) && (r.action == LogVerb ==> allow(meter))
  {
    var zones := [FromSet(ZoneSet(r.sourceZone)), ToSet(ZoneSet(r.destZone))];
    var src, dst := Optional(r.source != [], Saddr(r.source)), Optional(r.destination != [], Daddr(r.destination));
    var proto, log := ProtocolConditions(r), Optional(r.action == LogVerb, Limited(meter));
    RuleConditionsAre(r, meter);
    AllHoldConcat(zones + src + dst + proto, log, sets, f, allow);
    AllHoldConcat(zones + src + dst, proto, sets, f, allow);
    AllHoldConcat(zones + src, dst, sets, f, allow);
    AllHoldConcat(zones, src, sets, f, allow);
    AllHoldTwo(zones[0], zones[1], sets, f, allow);
    OptionalHolds(r.source != [], Saddr(r.source), sets, f, allow);
    OptionalHolds(r.destination != [], Daddr(r.destination), sets, f, allow);
    OptionalHolds(r.action == LogVerb, Limited(meter), sets, f, allow);
    ProtocolHolds(r, sets, f, allow);
  }

  lemma PairHolds(c: Config, a: string, b: string, sets: seq<SetDecl>, f: Flow, allow: int -> bool)
    requires Faithful(c, sets)
    ensures AllHold(PairLine(a, b).conditions, sets, f, allow) <==> InZone(c, f.iif, a) && InZone(c, f.oif, b)
  {
    AllHoldTwo(FromSet(ZoneSet(a)), ToSet(ZoneSet(b)), sets, f, allow);
  }

  // ---- the user rules ----

  /** What the first n rules come to. */
  ghost predicate Outcome(c: Config, n: nat, f: Flow, allow: int -> bool, v: Option<Verdict>)
    requires n <= |c.rules|
  {
    if v.None? then Undecided(c, n, f, allow) else FirstRule(c, n, f, allow, v.value)
  }

  function Otherwise(v: Option<Verdict>, w: Option<Verdict>): Option<Verdict> { if v.Some? then v else w }

  function RuleOutcome(c: Config, i: nat, f: Flow, allow: int -> bool): Option<Verdict>
    requires i < |c.rules|
  {
    if Decides(c, i, f, allow) then Some(RuleVerdict(c.rules[i].action)) else None
  }

  lemma OutcomeStep(c: Config, n: nat, f: Flow, allow: int -> bool, v: Option<Verdict>)
    requires n < |c.rules| && Outcome(c, n, f, allow, v)
    ensures Outcome(c, n + 1, f, allow, Otherwise(v, RuleOutcome(c, n, f, allow)))
  {
    if v.Some? { FirstRuleStays(c, n, f, allow, v.value); }
  }

  function RulesVerdict(c: Config, n: nat, sets: seq<SetDecl>, f: Flow, allow: int -> bool): Option<Verdict>
    requires n <= |c.rules|
  {
    First(RuleLines(c.rules[..n]), sets, f, allow)
  }

  lemma NothingDecided(c: Config, sets: seq<SetDecl>, f: Flow, allow: int -> bool)
    ensures Outcome(c, 0, f, allow, RulesVerdict(c, 0, sets, f, allow))
  {
    assert c.rules[..0] == [];
  }

  lemma {:induction false} RulesDecide(c: Config, n: nat, sets: seq<SetDecl>, f: Flow, allow: int -> bool)
    requires Faithful(c, sets) && n <= |c.rules|
    ensures Outcome(c, n, f, allow, RulesVerdict(c, n, sets, f, allow))
    decreases n
  {
    if n == 0 {
      NothingDecided(c, sets, f, allow);
    } else {
      var m := n - 1;
      RulesDecide(c, m, sets, f, allow);
      RuleLinesStep(c, m, sets, f, allow);
      OutcomeStep(c, m, f, allow, RulesVerdict(c, m, sets, f, allow));
    }
  }

  lemma RuleLinesStep(c: Config, n: nat, sets: seq<SetDecl>, f: Flow, allow: int -> bool)
    requires Faithful(c, sets) && n < |c.rules|
    ensures RulesVerdict(c, n + 1, sets, f, allow)
      == Otherwise(RulesVerdict(c, n, sets, f, allow), RuleOutcome(c, n, f, allow))
  {
    Grow(c.rules, n);
    var line := if c.rules[n].enabled then [RuleLine(c.rules[n], n)] else [];
    FirstConcat(RuleLines(c.rules[..n]), line, sets, f, allow);
    OneRule(c, n, sets, f, allow);
  }

  lemma OneRule(c: Config, i: nat, sets: seq<SetDecl>, f: Flow, allow: int -> bool)
    requires Faithful(c, sets) && i < |c.rules|
    ensures First(if c.rules[i].enabled then [RuleLine(c.rules[i], i)] else [], sets, f, allow)
      == if Decides(c, i, f, allow) then Some(RuleVerdict(c.rules[i].action)) else None
  {
    RuleHolds(c, c.rules[i], i, sets, f, allow);
    assert [RuleLine(c.rules[i], i)][1..] == [];
  }

  lemma FirstRuleStays(c: Config, n: nat, f: Flow, allow: int -> bool, v: Verdict)
    requires n < |c.rules| && FirstRule(c, n, f, allow, v)
    ensures FirstRule(c, n + 1, f, allow, v)
  {
    var i :| 0 <= i < n && Undecided(c, i, f, allow) && Decides(c, i, f, allow) && v == RuleVerdict(c.rules[i].action);
  }

  // ---- the grants ----

  lemma OneAccepts(a: string, b: string, c: Config, sets: seq<SetDecl>, f: Flow, allow: int -> bool)
    requires Faithful(c, sets)
    ensures First([PairLine(a, b)], sets, f, allow) ==
      if InZone(c, f.iif, a) && InZone(c, f.oif, b) then Some(Accept) else None
  {
    PairHolds(c, a, b, sets, f, allow);
    assert [PairLine(a, b)][1..] == [];
  }

  predicate InternetLine(c: Config, n: Network) { n.zone in Trusted(c) || CanAccessLan(n) || HasInternet(n) }

  lemma {:induction false} InternetAccepts(c: Config, ns: seq<Network>, sets: seq<SetDecl>, f: Flow, allow: int -> bool)
    requires Faithful(c, sets)
    ensures First(InternetLines(c, ns), sets, f, allow)
      == if (exists n :: n in ns && InternetLine(c, n) && InZone(c, f.iif, n.zone) && OnWan(c, f.oif))
        then Some(Accept) else None
  {
    if ns != [] {
      var n := Last(ns);
      assert ns == Init(ns) + [n];
      InternetAccepts(c, Init(ns), sets, f, allow);
      FirstConcat(InternetLines(c, Init(ns)),
        if InternetLine(c, n) then [PairLine(n.zone, WAN)] else [], sets, f, allow);
      OneAccepts(n.zone, WAN, c, sets, f, allow);
    }
  }

  lemma {:induction false} TrustAccepts(c: Config, pairs: seq<(string, string)>, sets: seq<SetDecl>, f: Flow,
                                        allow: int -> bool)
    requires Faithful(c, sets)
    ensures First(TrustLines(pairs), sets, f, allow)
      == if exists p :: p in pairs && InZone(c, f.iif, p.0) && InZone(c, f.oif, p.1) then Some(Accept) else None
  {
    if pairs != [] {
      var p := Last(pairs);
      assert pairs == Init(pairs) + [p];
      TrustAccepts(c, Init(pairs), sets, f, allow);
      FirstConcat(TrustLines(Init(pairs)), [PairLine(p.0, p.1)], sets, f, allow);
      OneAccepts(p.0, p.1, c, sets, f, allow);
    }
  }

  lemma {:induction false} GrantAccepts(c: Config, ns: seq<Network>, sets: seq<SetDecl>, f: Flow, allow: int -> bool)
    requires Faithful(c, sets)
    ensures First(GrantLines(c, ns), sets, f, allow)
      == if (exists n ::
           n in ns && CanAccessLan(n) && n.zone !in Trusted(c) && InZone(c, f.iif, n.zone) && InZone(c, f.oif, LAN))
         then Some(Accept) else None
  {
    if ns != [] {
      var n := Last(ns);
      assert ns == Init(ns) + [n];
      GrantAccepts(c, Init(ns), sets, f, allow);
      FirstConcat(GrantLines(c, Init(ns)),
        if CanAccessLan(n) && n.zone !in Trusted(c) then [PairLine(n.zone, LAN)] else [], sets, f, allow);
      OneAccepts(n.zone, LAN, c, sets, f, allow);
    }
  }

  lemma ZonesInUse(c: Config)
    ensures forall n :: n in c.networks ==> n.zone in Zones(c)
    ensures forall t :: t in c.tunnels ==> TunnelZone(t) in Zones(c)
  {
    forall n | n in c.networks ensures n.zone in Zones(c) { NetZonesHas(c.networks, n.zone); }
    forall t | t in c.tunnels ensures TunnelZone(t) in Zones(c) { TunZonesHas(c.tunnels, TunnelZone(t)); }
  }

  lemma TrustedIsTrust(c: Config, z: string)
    requires z in Trusted(c)
    ensures z in Zones(c) && TrustedZone(c, z)
  {
    ZonesInUse(c);
    TrustedNetsHas(c.networks, z);
    TunZonesHas(c.tunnels, z);
  }

  lemma TunnelTrusted(c: Config, t: Tunnel, z: string)
    requires DistinctZones(c) && z in Zones(c) && t in c.tunnels && Same(TunnelZone(t), z)
    ensures z in Trusted(c)
  {
    TunZonesHas(c.tunnels, TunnelZone(t));
    assert TunnelZone(t) in Zones(c) && TunnelZone(t) == z;
  }

  lemma LanTrusted(c: Config, n: Network, z: string)
    requires DistinctZones(c) && z in Zones(c) && n in c.networks && Same(n.zone, LAN) && CanAccessLan(n)
    requires Same(z, LAN)
    ensures z in Trusted(c)
  {
    NetZonesHas(c.networks, n.zone);
    assert n.zone in Zones(c) && n.zone == z;
    TrustedNetsHas(c.networks, z);
  }

  lemma TrustIsTrusted(c: Config, z: string)
    requires DistinctZones(c) && z in Zones(c) && TrustedZone(c, z)
    ensures z in Trusted(c)
  {
    if t :| t in c.tunnels && Same(TunnelZone(t), z) {
      TunnelTrusted(c, t, z);
    } else {
      var n :| n in c.networks && Same(n.zone, LAN) && CanAccessLan(n);
      LanTrusted(c, n, z);
    }
  }

  /** Among zones in use the program's trust table is the policy's trust. */
  lemma TrustIs(c: Config, z: string)
    requires DistinctZones(c)
    ensures z in Trusted(c) <==> z in Zones(c) && TrustedZone(c, z)
  {
    if z in Trusted(c) { TrustedIsTrust(c, z); }
    if z in Zones(c) && TrustedZone(c, z) { TrustIsTrusted(c, z); }
  }

  lemma TrustGrantIs(c: Config, pairs: seq<(string, string)>, f: Flow)
    requires DistinctZones(c) && Enumerates(pairs, TrustPairs(c))
    ensures (exists p :: p in pairs && InZone(c, f.iif, p.0) && InZone(c, f.oif, p.1)) <==> TrustGrant(c, f)
  {
    forall z ensures z in Trusted(c) <==> z in Zones(c) && TrustedZone(c, z) { TrustIs(c, z); }
    if TrustGrant(c, f) {
      var a, b :| a in Zones(c) && b in Zones(c) && TrustedZone(c, a) && !Same(a, b) && InZone(c, f.iif, a)
        && InZone(c, f.oif, b);
      assert (a, b) in pairs;
    }
    if p :| p in pairs && InZone(c, f.iif, p.0) && InZone(c, f.oif, p.1) {
      assert p in TrustPairs(c);
      assert !Same(p.0, p.1);
    }
  }

  lemma InternetGrantIs(c: Config, f: Flow)
    requires DistinctZones(c)
    ensures (exists n :: n in c.networks && InternetLine(c, n) && InZone(c, f.iif, n.zone) && OnWan(c, f.oif)) <==>
      InternetGrant(c, f)
  {
    ZonesInUse(c);
    forall n | n in c.networks
      ensures InternetLine(c, n) <==> HasInternet(n) || CanAccessLan(n) || TrustedZone(c, n.zone)
    {
      TrustIs(c, n.zone);
    }
  }

  /** The compiler's own condition for a line into the LAN. */
  predicate LanLine(c: Config, f: Flow) {
    exists n :: n in c.networks && CanAccessLan(n) && n.zone !in Trusted(c) && InZone(c, f.iif, n.zone)
      && InZone(c, f.oif, LAN)
  }

  lemma LanLineIsGrant(c: Config, f: Flow)
    requires DistinctZones(c) && LanLine(c, f)
    ensures LanGrant(c, f)
  {
    ZonesInUse(c);
    var n :| n in c.networks && CanAccessLan(n) && n.zone !in Trusted(c) && InZone(c, f.iif, n.zone)
      && InZone(c, f.oif, LAN);
    TrustIs(c, n.zone);
    if Same(n.zone, LAN) { SameZones(c, n); }
  }

  lemma SameZones(c: Config, n: Network)
    requires n in c.networks && Same(n.zone, LAN) && CanAccessLan(n)
    ensures TrustedZone(c, n.zone)
  {}

  /**
    A network outside the LAN that may reach it has its own line, or its zone is trusted and the LAN
    is another zone.
   */
  lemma LanGrantIsLine(c: Config, f: Flow)
    requires DistinctZones(c) && LanGrant(c, f)
    ensures LanLine(c, f) || TrustGrant(c, f)
  {
    ZonesInUse(c);
    var n :| n in c.networks && CanAccessLan(n) && !Same(n.zone, LAN) && InZone(c, f.iif, n.zone);
    if n.zone in Trusted(c) {
      TrustIs(c, n.zone);
      LanInUse(c, f.oif);
      var z :| z in Zones(c) && Same(z, LAN) && InZone(c, f.oif, z);
      assert !Same(n.zone, z);
    }
  }

  lemma NotWan()
    ensures !Same(LAN, WAN)
  {
    assert Lower(LAN) == "lan" && Lower(WAN) == "wan";
  }

  lemma LanInUse(c: Config, iface: string)
    requires InZone(c, iface, LAN)
    ensures exists z :: z in Zones(c) && Same(z, LAN) && InZone(c, iface, z)
  {
    NotWan();
    ZonesInUse(c);
    ZoneElements(c, LAN, iface);
    var z :| z in Zones(c) && Same(z, LAN) && iface in Members(c, z);
  }

  lemma GrantsAccept(c: Config, pairs: seq<(string, string)>, sets: seq<SetDecl>, f: Flow, allow: int -> bool)
    requires DistinctZones(c) && Enumerates(pairs, TrustPairs(c)) && Faithful(c, sets)
    ensures First(Grants(c, pairs), sets, f, allow) == if Granted(c, f) then Some(Accept) else None
  {
    FirstConcat(InternetLines(c, c.networks) + TrustLines(pairs), GrantLines(c, c.networks), sets, f, allow);
    FirstConcat(InternetLines(c, c.networks), TrustLines(pairs), sets, f, allow);
    InternetAccepts(c, c.networks, sets, f, allow);
    TrustAccepts(c, pairs, sets, f, allow);
    GrantAccepts(c, c.networks, sets, f, allow);
    InternetGrantIs(c, f);
    TrustGrantIs(c, pairs, f);
    if LanLine(c, f) { LanLineIsGrant(c, f); }
    if LanGrant(c, f) { LanGrantIsLine(c, f); }
  }

  lemma FirstOne(l: Line, sets: seq<SetDecl>, f: Flow, allow: int -> bool)
    ensures First([l], sets, f, allow) == if AllHold(l.conditions, sets, f, allow) then Some(l.verdict) else None
  {
    assert [l][1..] == [];
  }

  lemma OpeningDecides(c: Config, sets: seq<SetDecl>, f: Flow, allow: int -> bool)
    requires Faithful(c, sets)
    ensures First(OPENING, sets, f, allow)
      == match f.ct
         case KnownFlow => Some(Accept)
         case InvalidFlow => Some(Drop)
         case NewFlow => if OnWan(c, f.iif) then Some(Drop) else None
  {
    WanSet();
    assert InSet(sets, ZoneSet(WAN), f.iif) <==> InZone(c, f.iif, WAN);
    AllHoldOne(Established, sets, f, allow);
    AllHoldOne(Invalid, sets, f, allow);
    AllHoldOne(FromSet("wan_ifaces"), sets, f, allow);
    var a, b, d := OPENING[0], OPENING[1], OPENING[2];
    FirstOne(a, sets, f, allow);
    FirstOne(b, sets, f, allow);
    FirstOne(d, sets, f, allow);
    FirstConcat([a], [b], sets, f, allow);
    FirstConcat([a] + [b], [d], sets, f, allow);
    assert OPENING == [a] + [b] + [d];
  }

  lemma CompiledFaithful(c: Config, zones: seq<string>, pairs: seq<(string, string)>)
    requires Enumerates(zones, Zones(c)) && DistinctZones(c)
    ensures Faithful(c, Compile(c, zones, pairs).sets)
  {
    var sets := Compile(c, zones, pairs).sets;
    forall z: string, iface: string ensures InSet(sets, ZoneSet(z), iface) <==> InZone(c, iface, z) {
      SetsAreZones(c, zones, z, iface);
    }
  }

  /** The rest of the chain, with its policy: accepted exactly if granted. */
  lemma GrantsOrDrop(c: Config, pairs: seq<(string, string)>, sets: seq<SetDecl>, f: Flow, allow: int -> bool)
    requires DistinctZones(c) && Enumerates(pairs, TrustPairs(c)) && Faithful(c, sets)
    ensures var v := First(Grants(c, pairs) + CLOSING, sets, f, allow);
      (if v.Some? then v.value else Drop) == if Granted(c, f) then Accept else Drop
  {
    FirstConcat(Grants(c, pairs), CLOSING, sets, f, allow);
    GrantsAccept(c, pairs, sets, f, allow);
    assert CLOSING[1..] == [];
  }

  /**
    The compiler preserves meaning: whatever orders its maps gave, first-match evaluation of the
    forward chain is the configured policy, rate-limited log rules included.
   */
  lemma CompiledMeansPolicy(c: Config, s: Script, f: Flow, allow: int -> bool)
    requires Compiled(c, s) && DistinctZones(c)
    ensures Policy(c, f, allow, Evaluate(s, f, allow))
  {
    var zones, pairs :| Enumerates(zones, Zones(c)) && Enumerates(pairs, TrustPairs(c))
      && s == Compile(c, zones, pairs);
    CompiledFaithful(c, zones, pairs);
    FirstConcat(OPENING, RuleLines(c.rules) + (Grants(c, pairs) + CLOSING), s.sets, f, allow);
    OpeningDecides(c, s.sets, f, allow);
    FirstConcat(RuleLines(c.rules), Grants(c, pairs) + CLOSING, s.sets, f, allow);
    assert c.rules[..|c.rules|] == c.rules;
    RulesDecide(c, |c.rules|, s.sets, f, allow);
    GrantsOrDrop(c, pairs, s.sets, f, allow);
  }

  /** The policy leaves nothing open. */
  lemma PolicyDecides(c: Config, f: Flow, allow: int -> bool, v: Verdict, w: Verdict)
    requires Policy(c, f, allow, v) && Policy(c, f, allow, w)
    ensures v == w
  {
    if f.ct == NewFlow && !OnWan(c, f.iif) && FirstRule(c, |c.rules|, f, allow, v)
      && FirstRule(c, |c.rules|, f, allow, w) {
      var i :| 0 <= i < |c.rules| && Undecided(c, i, f, allow) && Decides(c, i, f, allow)
        && Asks(c.rules[i].action, v);
      var j :| 0 <= j < |c.rules| && Undecided(c, j, f, allow) && Decides(c, j, f, allow)
        && Asks(c.rules[j].action, w);
      assert i == j;
    }
  }

  /** So the order of Go's maps never shows. */
  lemma OrderIndependent(c: Config, s: Script, t: Script, f: Flow, allow: int -> bool)
    requires Compiled(c, s) && Compiled(c, t) && DistinctZones(c)
    ensures Evaluate(s, f, allow) == Evaluate(t, f, allow)
  {
    CompiledMeansPolicy(c, s, f, allow);
    CompiledMeansPolicy(c, t, f, allow);
    PolicyDecides(c, f, allow, Evaluate(s, f, allow), Evaluate(t, f, allow));
  }

  // ---- what one packet gets ----

  /** A new packet from inside is decided by the first rule that matches it, and by that rule's own action. */
  lemma RuleAnswers(c: Config, s: Script, f: Flow, allow: int -> bool, i: nat)
    requires Compiled(c, s) && DistinctZones(c)
    requires f.ct == NewFlow && !OnWan(c, f.iif)
    requires i < |c.rules| && Undecided(c, i, f, allow) && Decides(c, i, f, allow)
    ensures match c.rules[i].action
      case AcceptVerb => Evaluate(s, f, allow) == Accept
      case RejectVerb => Evaluate(s, f, allow) == Reject
      case DropVerb => Evaluate(s, f, allow) == Drop
      case LogVerb => Evaluate(s, f, allow) == Drop
  {
    CompiledMeansPolicy(c, s, f, allow);
    var v := Evaluate(s, f, allow);
    if j :| 0 <= j < |c.rules| && Undecided(c, j, f, allow) && Decides(c, j, f, allow) && Asks(c.rules[j].action, v) {
      assert i == j;
    }
  }

  /** Zone names are compared letter by letter, capitals as small letters. */
  lemma {:induction false} SameLetters(a: string, b: string)
    ensures Same(a, b) <==>
      |a| == |b| && forall i :: 0 <= i < |a| ==>
        a[i] == b[i] || ('A' <= a[i] <= 'Z' && b[i] as int == a[i] as int + 32)
        || ('A' <= b[i] <= 'Z' && a[i] as int == b[i] as int + 32)
  {
    if a != "" && b != "" {
      SameLetters(a[1..], b[1..]);
      assert Lower(a) == [LowerChar(a[0])] + Lower(a[1..]) && Lower(b) == [LowerChar(b[0])] + Lower(b[1..]);
      assert Lower(a)[0] == LowerChar(a[0]) && Lower(a)[1..] == Lower(a[1..]);
      assert Lower(b)[0] == LowerChar(b[0]) && Lower(b)[1..] == Lower(b[1..]);
    } else {
      assert |Lower(a)| == |a| && |Lower(b)| == |b|;
    }
  }

  // ---- zones in use and trusted zones ----

  lemma {:induction false} RuleZonesAre(rs: seq<FirewallRule>, z: string)
    ensures z in RuleZones(rs) <==>
      exists r :: r in rs && ((r.sourceZone != "" && z == Upper(r.sourceZone))
                              || (r.destZone != "" && z == Upper(r.destZone))) && z != "WAN"
  {
    if rs != [] {
      assert rs == Init(rs) + [Last(rs)];
      RuleZonesAre(Init(rs), z);
    }
  }

  /** The zones with a set: those of networks and tunnels, and in capitals those that rules name, but for the WAN. */
  lemma ZonesExactly(c: Config, z: string)
    ensures z in Zones(c) <==>
      || (exists n :: n in c.networks && n.zone == z)
      || (exists t :: t in c.tunnels && z == if t.zone == "" then "VPN" else t.zone)
      || (exists r :: r in c.rules && ((r.sourceZone != "" && z == Upper(r.sourceZone))
                                       || (r.destZone != "" && z == Upper(r.destZone))) && z != "WAN")
  {
    NetZonesHas(c.networks, z);
    TunZonesHas(c.tunnels, z);
    RuleZonesAre(c.rules, z);
  }

  /** The trusted ones: the LAN's names if a network of that name may reach the LAN, and those of tunnels. */
  lemma TrustedExactly(c: Config, z: string)
    ensures z in Trusted(c) <==>
      || (Same(z, "LAN") && exists n :: n in c.networks && n.zone == z && n.accessToLan == Some(true))
      || (exists t :: t in c.tunnels && z == if t.zone == "" then "VPN" else t.zone)
  {
    TrustedNetsHas(c.networks, z);
    TunZonesHas(c.tunnels, z);
  }
}
