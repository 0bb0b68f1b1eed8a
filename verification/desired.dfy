/**
  The desired-state builder (router/internal/reconcile/desired.go:68-233): links, addresses and
  routes from a validated configuration and what the DHCP clients learned. The generated texts are
  inputs.
 */
module DesiredState {
  import opened Wrappers
  import Kernel
  import opened Planner
  import opened Models
  import opened Sequences
  import opened Prefixes
  import opened Text
  import opened Validate

  datatype Runtime = Runtime(routes: seq<DesiredRoute>, addrs: map<string, seq<string>>)

  datatype Artifacts = Artifacts(ruleset: Kernel.Ruleset, dnsmasq: string, conf: Tunnel -> string)

  const DEFAULT_DST := "0.0.0.0/0"

  // ---- validation ----

  /** Every prefix's text has a length part. */
  predicate PrefixText(s: string) { '/' in s }

  /** The checks of the other sections that the desired state depends on. */
  predicate RestValid(c: Config) {
    && |c.wans| > 0
    && (forall w :: w in c.wans ==>
      w.iface != "" && (w.mode == "static" ==> w.fixed.Some? && Parsed(w.fixed.value.address)))
    && (forall t :: t in c.tunnels ==> ValidName(t.name) && Parsed(t.address))
    && (forall t, p, a :: t in c.tunnels && p in t.peers && a in p.allowedIps ==> PrefixText(a))
    && (forall r :: r in c.staticRoutes ==> PrefixText(r.destination))
  }

  predicate Valid(c: Config) { Faults(c.networks) == [] && RestValid(c) }

  // ---- links ----

  predicate Named(ls: seq<DesiredLink>, name: string) { exists i :: 0 <= i < |ls| && ls[i].name == name }

  /** The first link of each name. */
  function FirstByName(ls: seq<DesiredLink>): seq<DesiredLink> {
    if ls == [] then [] else FirstByName(Init(ls)) + if Named(Init(ls), Last(ls).name) then [] else [Last(ls)]
  }

  function Up(name: string, kind: Kernel.LinkType, parent: string, vlanID: int, master: string): DesiredLink {
    DesiredLink(name, kind, parent, master, vlanID, 0, true)
  }

  function WanLinks(ws: seq<Wan>): seq<DesiredLink> {
    if ws == [] then []
    else WanLinks(Init(ws)) + [DesiredLink(Last(ws).iface, Kernel.Ether, "", "", 0, 0, Enabled(Last(ws)))]
  }

  predicate Routed(n: Network)
    requires n.vlan.Some?
  {
    n.iface == VlanKey(n.vlan.value) || '.' in n.iface
  }

  /** An uplink's interface; no bridge is made for it. */
  predicate Physical(c: Config, name: string) { exists i :: 0 <= i < |c.wans| && c.wans[i].iface == name }

  predicate Bridged(c: Config, n: Network) { if n.vlan.Some? then !Routed(n) else !Physical(c, n.iface) }

  function OwnLinks(c: Config, n: Network): seq<DesiredLink> {
    if n.vlan.Some? then
      var v := n.vlan.value;
      if Routed(n) then [Up(n.iface, Kernel.Vlan, v.parent, v.id, "")]
      else [Up(n.iface, Kernel.Bridge, "", 0, ""), Up(VlanKey(v), Kernel.Vlan, v.parent, v.id, n.iface)]
    else if !Physical(c, n.iface) then [Up(n.iface, Kernel.Bridge, "", 0, "")]
    else []
  }

  function MemberLinks(ms: seq<string>, master: string): seq<DesiredLink> {
    if ms == [] then [] else MemberLinks(Init(ms), master) + [Up(Last(ms), Kernel.Ether, "", 0, master)]
  }

  function NetLinks(c: Config, ns: seq<Network>): seq<DesiredLink> {
    if ns == [] then []
    else NetLinks(c, Init(ns)) + (OwnLinks(c, Last(ns)) + MemberLinks(Last(ns).members, Last(ns).iface))
  }

  function TunLinks(ts: seq<Tunnel>): seq<DesiredLink> {
    if ts == [] then [] else TunLinks(Init(ts)) + [Up(WgIface(Last(ts).name), Kernel.Wireguard, "", 0, "")]
  }

  /** Every link the configuration mentions, in order of mention. */
  function Mentions(c: Config): seq<DesiredLink> { WanLinks(c.wans) + NetLinks(c, c.networks) + TunLinks(c.tunnels) }

  // ---- addresses ----

  function Put(addrs: map<string, seq<string>>, dev: string, cidr: string): map<string, seq<string>> {
    addrs[dev := (if dev in addrs then addrs[dev] else []) + [cidr]]
  }

  function Group(pairs: seq<(string, string)>): map<string, seq<string>> {
    if pairs == [] then map[] else Put(Group(Init(pairs)), Last(pairs).0, Last(pairs).1)
  }

  predicate StaticWan(w: Wan) { w.mode == "static" && w.fixed.Some? }

  function WanPairs(ws: seq<Wan>): seq<(string, string)> {
    if ws == [] then []
    else WanPairs(Init(ws)) + if StaticWan(Last(ws)) then [(Last(ws).iface, Show(Last(ws).fixed.value.address))] else []
  }

  function NetPairs(ns: seq<Network>): seq<(string, string)> {
    if ns == [] then []
    else
      var n := Last(ns);
      NetPairs(Init(ns)) + [(n.iface, Show(n.subnet))]
        + if n.ipv6Subnet != NoCidr then [(n.iface, Show(n.ipv6Subnet))] else []
  }

  function TunPairs(ts: seq<Tunnel>): seq<(string, string)> {
    if ts == [] then [] else TunPairs(Init(ts)) + [(WgIface(Last(ts).name), Show(Last(ts).address))]
  }

  function DevPairs(dev: string, cidrs: seq<string>): seq<(string, string)> {
    if cidrs == [] then [] else DevPairs(dev, Init(cidrs)) + [(dev, Last(cidrs))]
  }

  /** What the leases add, device by device in any order. */
  function LeasePairs(order: seq<string>, addrs: map<string, seq<string>>): seq<(string, string)>
    requires forall dev :: dev in order ==> dev in addrs
  {
    if order == [] then []
    else
      assert order == Init(order) + [Last(order)];
      LeasePairs(Init(order), addrs) + DevPairs(Last(order), addrs[Last(order)])
  }

  function Pairs(c: Config): seq<(string, string)> { WanPairs(c.wans) + NetPairs(c.networks) + TunPairs(c.tunnels) }

  /** The devices whose other addresses are removed. */
  function WanDrops(ws: seq<Wan>): set<string> {
    if ws == [] then {} else WanDrops(Init(ws)) + if StaticWan(Last(ws)) then {Last(ws).iface} else {}
  }

  function NetDrops(c: Config, ns: seq<Network>): set<string> {
    if ns == [] then {} else NetDrops(c, Init(ns)) + if Bridged(c, Last(ns)) then {Last(ns).iface} else {}
  }

  function TunDrops(ts: seq<Tunnel>): set<string> {
    if ts == [] then {} else TunDrops(Init(ts)) + {WgIface(Last(ts).name)}
  }

  // ---- routes ----

  function WanRoutes(ws: seq<Wan>): seq<DesiredRoute> {
    if ws == [] then []
    else
      var w := Last(ws);
      WanRoutes(Init(ws)) + if StaticWan(w) then [WanRoute(w)] else []
  }

  function WanRoute(w: Wan): DesiredRoute
    requires w.fixed.Some?
  {
    DesiredRoute(DEFAULT_DST, w.fixed.value.gateway, w.iface, if w.metric == 0 then 100 else w.metric, 0)
  }

  predicate EndsInZero(s: string) { |s| >= 2 && s[|s| - 2..] == "/0" }

  function PeerRoutes(t: Tunnel, ips: seq<string>): seq<DesiredRoute> {
    if ips == [] then []
    else
      PeerRoutes(t, Init(ips))
      + if EndsInZero(Last(ips)) then [] else [DesiredRoute(Last(ips), "", WgIface(t.name), t.table, 0)]
  }

  function TunRoutes(t: Tunnel, ps: seq<Peer>): seq<DesiredRoute> {
    if ps == [] then [] else TunRoutes(t, Init(ps)) + PeerRoutes(t, Last(ps).allowedIps)
  }

  function AllTunRoutes(ts: seq<Tunnel>): seq<DesiredRoute> {
    if ts == [] then [] else AllTunRoutes(Init(ts)) + TunRoutes(Last(ts), Last(ts).peers)
  }

  function StaticRoutes(rs: seq<StaticRoute>): seq<DesiredRoute> {
    if rs == [] then []
    else
      var r := Last(rs);
      StaticRoutes(Init(rs))
        + [DesiredRoute(r.destination, r.via, r.device, if r.metric > 0 then r.metric else 100, r.table)]
  }

  function Confs(ts: seq<Tunnel>, conf: Tunnel -> string): map<string, string> {
    if ts == [] then map[] else Confs(Init(ts), conf)[WgIface(Last(ts).name) := conf(Last(ts))]
  }

  function WanIfaces(ws: seq<Wan>): seq<string> { if ws == [] then [] else WanIfaces(Init(ws)) + [Last(ws).iface] }

  /** The desired state, for one order of the lease map. */
  function Build(c: Config, rt: Option<Runtime>, art: Artifacts, order: seq<string>): Desired
    requires rt.Some? ==> forall dev :: dev in order ==> dev in rt.value.addrs
  {
    var leased := if rt.Some? then LeasePairs(order, rt.value.addrs) else [];
    Desired(WanIfaces(c.wans), FirstByName(Mentions(c)), Group(Pairs(c) + leased),
            WanDrops(c.wans) + NetDrops(c, c.networks) + TunDrops(c.tunnels)
              + if rt.Some? then rt.value.addrs.Keys else {},
            WanRoutes(c.wans) + AllTunRoutes(c.tunnels) + StaticRoutes(c.staticRoutes)
              + if rt.Some? then rt.value.routes else [],
            art.ruleset, art.dnsmasq, Confs(c.tunnels, art.conf))
  }

  // ---- the program's loops ----

  function Names(ls: seq<DesiredLink>): set<string> { if ls == [] then {} else Names(Init(ls)) + {Last(ls).name} }

  lemma {:induction false} NamesAre(ls: seq<DesiredLink>, name: string)
    ensures name in Names(ls) <==> Named(ls, name)
  {
    if ls != [] {
      NamesAre(Init(ls), name);
      NamedSnoc(Init(ls), Last(ls), name);
      assert ls == Init(ls) + [Last(ls)];
    }
  }

  lemma NamedSnoc(ls: seq<DesiredLink>, l: DesiredLink, name: string)
    ensures Named(ls + [l], name) <==> Named(ls, name) || l.name == name
  {
    var longer := ls + [l];
    assert longer[|ls|] == l;
    if Named(ls, name) {
      var i :| 0 <= i < |ls| && ls[i].name == name;
      assert longer[i].name == name;
    }
  }

  lemma Regroup<T>(a: seq<T>, b: seq<T>, c: seq<T>, d: seq<T>)
    ensures a + b + c + d == a + (b + (c + d))
  {}

  /** The links added so far: the first of each name mentioned. */
  class LinkList {
    var links: seq<DesiredLink>
    var seen: set<string>
    ghost var mentioned: seq<DesiredLink>

    ghost predicate Valid()
      reads this
    {
      links == FirstByName(mentioned) && seen == Names(mentioned)
    }

    constructor ()
      ensures Valid() && mentioned == []
    {
      links, seen, mentioned := [], {}, [];
    }

    method Add(l: DesiredLink)
      requires Valid()
      modifies this
      ensures Valid() && mentioned == old(mentioned) + [l]
    {
      NamesAre(mentioned, l.name);
      Snoc(mentioned, l);
      mentioned := mentioned + [l];
      if l.name in seen { assert seen + {l.name} == seen; return; }
      seen := seen + {l.name};
      links := links + [l];
    }

    method AddWans(ws: seq<Wan>)
      requires Valid() && mentioned == []
      modifies this
      ensures Valid() && mentioned == WanLinks(ws)
    {
      for i := 0 to |ws|
        invariant Valid() && mentioned == WanLinks(ws[..i])
      {
        Grow(ws, i);
        Add(DesiredLink(ws[i].iface, Kernel.Ether, "", "", 0, 0, Enabled(ws[i])));
      }
      assert ws[..|ws|] == ws;
    }

    method AddNetwork(c: Config, n: Network)
      requires Valid()
      modifies this
      ensures Valid() && mentioned == old(mentioned) + OwnLinks(c, n)
    {
      if n.vlan.Some? {
        var v := n.vlan.value;
        if Routed(n) {
          Add(Up(n.iface, Kernel.Vlan, v.parent, v.id, ""));
        } else {
          Add(Up(n.iface, Kernel.Bridge, "", 0, ""));
          Add(Up(VlanKey(v), Kernel.Vlan, v.parent, v.id, n.iface));
        }
      } else {
        var physical := IsPhysical(c, n.iface);
        if !physical { Add(Up(n.iface, Kernel.Bridge, "", 0, "")); }
      }
    }

    method AddMembers(ms: seq<string>, master: string)
      requires Valid()
      modifies this
      ensures Valid() && mentioned == old(mentioned) + MemberLinks(ms, master)
    {
      for i := 0 to |ms|
        invariant Valid() && mentioned == old(mentioned) + MemberLinks(ms[..i], master)
      {
        Grow(ms, i);
        Add(Up(ms[i], Kernel.Ether, "", 0, master));
      }
      assert ms[..|ms|] == ms;
    }

    method AddNetworks(c: Config)
      requires Valid()
      modifies this
      ensures Valid() && mentioned == old(mentioned) + NetLinks(c, c.networks)
    {
      for i := 0 to |c.networks|
        invariant Valid() && mentioned == old(mentioned) + NetLinks(c, c.networks[..i])
      {
        Grow(c.networks, i);
        var n := c.networks[i];
        AddNetwork(c, n);
        AddMembers(n.members, n.iface);
        Regroup(old(mentioned), NetLinks(c, c.networks[..i]), OwnLinks(c, n), MemberLinks(n.members, n.iface));
      }
      assert c.networks[..|c.networks|] == c.networks;
    }

    method AddTunnels(ts: seq<Tunnel>)
      requires Valid()
      modifies this
      ensures Valid() && mentioned == old(mentioned) + TunLinks(ts)
    {
      for i := 0 to |ts|
        invariant Valid() && mentioned == old(mentioned) + TunLinks(ts[..i])
      {
        Grow(ts, i);
        Add(Up(WgIface(ts[i].name), Kernel.Wireguard, "", 0, ""));
      }
      assert ts[..|ts|] == ts;
    }
  }

  method IsPhysical(c: Config, name: string) returns (r: bool)
    ensures r == Physical(c, name)
  {
    for i := 0 to |c.wans|
      invariant forall j :: 0 <= j < i ==> c.wans[j].iface != name
    {
      if c.wans[i].iface == name { return true; }
    }
    r := false;
  }

  method PutWans(ws: seq<Wan>) returns (addrs: map<string, seq<string>>, drops: set<string>, routes: seq<DesiredRoute>)
    ensures addrs == Group(WanPairs(ws)) && drops == WanDrops(ws) && routes == WanRoutes(ws)
  {
    addrs, drops, routes := map[], {}, [];
    for i := 0 to |ws|
      invariant addrs == Group(WanPairs(ws[..i])) && drops == WanDrops(ws[..i]) && routes == WanRoutes(ws[..i])
    {
      Grow(ws, i);
      var w := ws[i];
      if StaticWan(w) {
        Snoc(WanPairs(ws[..i]), (w.iface, Show(w.fixed.value.address)));
        addrs := Put(addrs, w.iface, Show(w.fixed.value.address));
        drops, routes := drops + {w.iface}, routes + [WanRoute(w)];
      } else {
        assert WanPairs(ws[..i]) + [] == WanPairs(ws[..i]);
      }
    }
    assert ws[..|ws|] == ws;
  }

  lemma RegroupPairs(a: seq<(string, string)>, b: seq<(string, string)>, p: (string, string))
    ensures Group(a + (b + [p])) == Put(Group(a + b), p.0, p.1)
  {
    assert a + (b + [p]) == (a + b) + [p];
    Snoc(a + b, p);
  }

  method PutNetworks(c: Config, ghost before: seq<(string, string)>, was: map<string, seq<string>>)
    returns (addrs: map<string, seq<string>>, drops: set<string>)
    requires was == Group(before)
    ensures addrs == Group(before + NetPairs(c.networks)) && drops == NetDrops(c, c.networks)
  {
    addrs, drops := was, {};
    assert before + NetPairs([]) == before;
    for i := 0 to |c.networks|
      invariant addrs == Group(before + NetPairs(c.networks[..i])) && drops == NetDrops(c, c.networks[..i])
    {
      Grow(c.networks, i);
      var n := c.networks[i];
      var physical := IsPhysical(c, n.iface);
      if (n.vlan.Some? && !Routed(n)) || (n.vlan.None? && !physical) { drops := drops + {n.iface}; }
      ghost var pairs := NetPairs(c.networks[..i]);
      RegroupPairs(before, pairs, (n.iface, Show(n.subnet)));
      addrs := Put(addrs, n.iface, Show(n.subnet));
      if n.ipv6Subnet != NoCidr {
        RegroupPairs(before, pairs + [(n.iface, Show(n.subnet))], (n.iface, Show(n.ipv6Subnet)));
        addrs := Put(addrs, n.iface, Show(n.ipv6Subnet));
      } else {
        assert pairs + [(n.iface, Show(n.subnet))] + [] == pairs + [(n.iface, Show(n.subnet))];
      }
    }
    assert c.networks[..|c.networks|] == c.networks;
  }

  method PeerRouteList(t: Tunnel) returns (routes: seq<DesiredRoute>)
    ensures routes == TunRoutes(t, t.peers)
  {
    routes := [];
    for i := 0 to |t.peers|
      invariant routes == TunRoutes(t, t.peers[..i])
    {
      Grow(t.peers, i);
      var ips := t.peers[i].allowedIps;
      ghost var done := routes;
      for j := 0 to |ips|
        invariant routes == done + PeerRoutes(t, ips[..j])
      {
        Grow(ips, j);
        if EndsInZero(ips[j]) || ips[j] == DEFAULT_DST || ips[j] == "::/0" { continue; }
        routes := routes + [DesiredRoute(ips[j], "", WgIface(t.name), t.table, 0)];
      }
      assert ips[..|ips|] == ips;
    }
    assert t.peers[..|t.peers|] == t.peers;
  }

  method PutTunnels(ts: seq<Tunnel>, conf: Tunnel -> string, ghost before: seq<(string, string)>,
                    was: map<string, seq<string>>)
    returns (addrs: map<string, seq<string>>, drops: set<string>, routes: seq<DesiredRoute>, confs: map<string, string>)
    requires was == Group(before)
    ensures addrs == Group(before + TunPairs(ts)) && drops == TunDrops(ts)
    ensures routes == AllTunRoutes(ts) && confs == Confs(ts, conf)
  {
    addrs, drops, routes, confs := was, {}, [], map[];
    assert before + TunPairs([]) == before;
    for i := 0 to |ts|
      invariant addrs == Group(before + TunPairs(ts[..i])) && drops == TunDrops(ts[..i])
      invariant routes == AllTunRoutes(ts[..i]) && confs == Confs(ts[..i], conf)
    {
      Grow(ts, i);
      var iface := WgIface(ts[i].name);
      RegroupPairs(before, TunPairs(ts[..i]), (iface, Show(ts[i].address)));
      addrs, drops := Put(addrs, iface, Show(ts[i].address)), drops + {iface};
      confs := confs[iface := conf(ts[i])];
      var more := PeerRouteList(ts[i]);
      routes := routes + more;
    }
    assert ts[..|ts|] == ts;
  }

  method PutStatics(rs: seq<StaticRoute>) returns (routes: seq<DesiredRoute>)
    ensures routes == StaticRoutes(rs)
  {
    routes := [];
    for i := 0 to |rs|
      invariant routes == StaticRoutes(rs[..i])
    {
      Grow(rs, i);
      var metric := 100;
      if rs[i].metric > 0 { metric := rs[i].metric; }
      routes := routes + [DesiredRoute(rs[i].destination, rs[i].via, rs[i].device, metric, rs[i].table)];
    }
    assert rs[..|rs|] == rs;
  }

  method PutDevice(dev: string, cidrs: seq<string>, ghost before: seq<(string, string)>, was: map<string, seq<string>>)
    returns (addrs: map<string, seq<string>>)
    requires was == Group(before)
    ensures addrs == Group(before + DevPairs(dev, cidrs))
  {
    addrs := was;
    assert before + DevPairs(dev, []) == before;
    for i := 0 to |cidrs|
      invariant addrs == Group(before + DevPairs(dev, cidrs[..i]))
    {
      Grow(cidrs, i);
      RegroupPairs(before, DevPairs(dev, cidrs[..i]), (dev, cidrs[i]));
      addrs := Put(addrs, dev, cidrs[i]);
    }
    assert cidrs[..|cidrs|] == cidrs;
  }

  lemma OneMoreLease(before: seq<(string, string)>, order: seq<string>, leases: map<string, seq<string>>, dev: string)
    requires dev in leases && forall x :: x in order ==> x in leases
    ensures before + LeasePairs(order + [dev], leases) ==
            before + LeasePairs(order, leases) + DevPairs(dev, leases[dev])
  {
    Snoc(order, dev);
  }

  /** Leases in whatever order the map gives them. */
  method PutLeases(leases: map<string, seq<string>>, ghost before: seq<(string, string)>, was: map<string, seq<string>>)
    returns (addrs: map<string, seq<string>>, ghost order: seq<string>)
    requires was == Group(before)
    ensures Enumerates(order, leases.Keys) && addrs == Group(before + LeasePairs(order, leases))
  {
    addrs, order := was, [];
    var left := leases.Keys;
    assert before + LeasePairs([], leases) == before;
    while left != {}
      invariant left <= leases.Keys && Enumerates(order, leases.Keys - left)
      invariant addrs == Group(before + LeasePairs(order, leases))
      decreases left
    {
      var dev :| dev in left;
      addrs := PutDevice(dev, leases[dev], before + LeasePairs(order, leases), addrs);
      OneMoreLease(before, order, leases, dev);
      order, left := order + [dev], left - {dev};
    }
    assert leases.Keys - {} == leases.Keys;
  }

  method BuildLinks(c: Config) returns (links: seq<DesiredLink>)
    ensures links == FirstByName(Mentions(c))
  {
    var list := new LinkList();
    list.AddWans(c.wans);
    list.AddNetworks(c);
    list.AddTunnels(c.tunnels);
    links := list.links;
  }

  method FromConfig(c: Config, art: Artifacts)
    returns (addrs: map<string, seq<string>>, drops: set<string>, routes: seq<DesiredRoute>, confs: map<string, string>)
    ensures addrs == Group(Pairs(c)) && confs == Confs(c.tunnels, art.conf)
    ensures drops == WanDrops(c.wans) + NetDrops(c, c.networks) + TunDrops(c.tunnels)
    ensures routes == WanRoutes(c.wans) + AllTunRoutes(c.tunnels) + StaticRoutes(c.staticRoutes)
  {
    var wanAddrs, wanDrops, wanRoutes := PutWans(c.wans);
    var netAddrs, netDrops := PutNetworks(c, WanPairs(c.wans), wanAddrs);
    var tunDrops, tunRoutes;
    addrs, tunDrops, tunRoutes, confs :=
      PutTunnels(c.tunnels, art.conf, WanPairs(c.wans) + NetPairs(c.networks), netAddrs);
    var statics := PutStatics(c.staticRoutes);
    drops, routes := wanDrops + netDrops + tunDrops, wanRoutes + tunRoutes + statics;
  }

  method BuildValid(c: Config, rt: Option<Runtime>, art: Artifacts) returns (d: Desired, ghost order: seq<string>)
    ensures rt.Some? ==> Enumerates(order, rt.value.addrs.Keys)
    ensures d == Build(c, rt, art, order)
  {
    order := [];
    var links := BuildLinks(c);
    var addrs, drops, routes, confs := FromConfig(c, art);
    if rt.Some? {
      routes := routes + rt.value.routes;
      addrs, order := PutLeases(rt.value.addrs, Pairs(c), addrs);
      drops := drops + rt.value.addrs.Keys;
    } else {
      assert Pairs(c) + [] == Pairs(c);
    }
    d := Desired(WanIfaces(c.wans), links, addrs, drops, routes, art.ruleset, art.dnsmasq, confs);
  }

  method BuildWith(c: Config, rt: Option<Runtime>, art: Artifacts)
    returns (d: Option<Desired>, ghost order: seq<string>)
    ensures d.Some? <==> Valid(c)
    ensures d.Some? && rt.Some? ==> Enumerates(order, rt.value.addrs.Keys)
    ensures d.Some? ==> d.value == Build(c, rt, art, order)
  {
    var faults := ValidateNetworks(c.networks);
    if faults != [] || !RestValid(c) { return None, []; }
    var built;
    built, order := BuildValid(c, rt, art);
    d := Some(built);
  }
}
