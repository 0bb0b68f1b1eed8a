/**
  What the desired state built from a configuration contains, field by field and in the configuration's
  own terms (router/internal/reconcile/desired.go:66-200).
 */
module BuiltExactly {
  import opened Wrappers
  import Kernel
  import opened Planner
  import opened Models
  import opened Sequences
  import opened Prefixes
  import opened Text
  import opened DesiredState
  import opened BuiltState
  import opened BuiltConvergence

  /** The interface of a tunnel. */
  function WgName(name: string): string { if "wg" <= name then name else "wg-" + name }

  predicate IsStatic(w: Wan) { w.mode == "static" && w.fixed.Some? }

  // ---- routes ----

  predicate UplinkRoute(c: Config, r: DesiredRoute) {
    exists w :: w in c.wans && IsStatic(w)
      && r == DesiredRoute("0.0.0.0/0", w.fixed.value.gateway, w.iface, if w.metric == 0 then 100 else w.metric, 0)
  }

  predicate PeerRoute(c: Config, r: DesiredRoute) {
    exists t, p, a :: t in c.tunnels && p in t.peers && a in p.allowedIps
      && !(|a| >= 2 && a[|a| - 2] == '/' && a[|a| - 1] == '0') && r == DesiredRoute(a, "", WgName(t.name), t.table, 0)
  }

  predicate ConfiguredRoute(c: Config, r: DesiredRoute) {
    exists q :: q in c.staticRoutes
      && r == DesiredRoute(q.destination, q.via, q.device, if q.metric > 0 then q.metric else 100, q.table)
  }

  lemma {:induction false} WanRoutesAre(c: Config, ws: seq<Wan>, r: DesiredRoute)
    ensures r in WanRoutes(ws) <==> UplinkRoute(c.(wans := ws), r)
  {
    if ws != [] {
      assert ws == Init(ws) + [Last(ws)];
      WanRoutesAre(c, Init(ws), r);
    }
  }

  lemma {:induction false} PeerRoutesAre(t: Tunnel, ips: seq<string>, r: DesiredRoute)
    ensures r in PeerRoutes(t, ips) <==>
      exists a :: a in ips && !(|a| >= 2 && a[|a| - 2] == '/' && a[|a| - 1] == '0')
        && r == DesiredRoute(a, "", WgName(t.name), t.table, 0)
  {
    if ips != [] {
      assert ips == Init(ips) + [Last(ips)];
      PeerRoutesAre(t, Init(ips), r);
      var a := Last(ips);
      assert EndsInZero(a) <==> |a| >= 2 && a[|a| - 2] == '/' && a[|a| - 1] == '0' by {
        if |a| >= 2 { assert a[|a| - 2..] == [a[|a| - 2], a[|a| - 1]]; }
      }
    }
  }

  lemma {:induction false} TunRoutesAre(t: Tunnel, ps: seq<Peer>, r: DesiredRoute)
    ensures r in TunRoutes(t, ps) <==> exists p :: p in ps && r in PeerRoutes(t, p.allowedIps)
  {
    if ps != [] {
      assert ps == Init(ps) + [Last(ps)];
      TunRoutesAre(t, Init(ps), r);
    }
  }

  lemma {:induction false} AllTunRoutesAre(ts: seq<Tunnel>, r: DesiredRoute)
    ensures r in AllTunRoutes(ts) <==> exists t :: t in ts && r in TunRoutes(t, t.peers)
  {
    if ts != [] {
      assert ts == Init(ts) + [Last(ts)];
      AllTunRoutesAre(Init(ts), r);
    }
  }

  lemma PeersAre(c: Config, r: DesiredRoute)
    ensures r in AllTunRoutes(c.tunnels) <==> PeerRoute(c, r)
  {
    AllTunRoutesAre(c.tunnels, r);
    forall t | t in c.tunnels
      ensures r in TunRoutes(t, t.peers) <==> exists p :: p in t.peers && r in PeerRoutes(t, p.allowedIps)
    {
      TunRoutesAre(t, t.peers, r);
    }
    forall t, p | t in c.tunnels && p in t.peers
      ensures r in PeerRoutes(t, p.allowedIps) <==>
        exists a :: a in p.allowedIps && !(|a| >= 2 && a[|a| - 2] == '/' && a[|a| - 1] == '0')
          && r == DesiredRoute(a, "", WgName(t.name), t.table, 0)
    {
      PeerRoutesAre(t, p.allowedIps, r);
    }
  }

  lemma {:induction false} StaticRoutesAre(c: Config, rs: seq<StaticRoute>, r: DesiredRoute)
    ensures r in StaticRoutes(rs) <==> ConfiguredRoute(c.(staticRoutes := rs), r)
  {
    if rs != [] {
      assert rs == Init(rs) + [Last(rs)];
      StaticRoutesAre(c, Init(rs), r);
    }
  }

  /** Exactly the default routes of static uplinks, what peers may reach, the configured and the leased routes. */
  lemma RoutesExactly(c: Config, rt: Option<Runtime>, art: Artifacts, order: seq<string>, r: DesiredRoute)
    requires rt.Some? ==> Enumerates(order, rt.value.addrs.Keys)
    ensures r in Build(c, rt, art, order).routes <==>
      UplinkRoute(c, r) || PeerRoute(c, r) || ConfiguredRoute(c, r) || (rt.Some? && r in rt.value.routes)
  {
    WanRoutesAre(c, c.wans, r);
    PeersAre(c, r);
    StaticRoutesAre(c, c.staticRoutes, r);
    assert c.(wans := c.wans) == c && c.(staticRoutes := c.staticRoutes) == c;
  }

  // ---- links ----

  predicate UplinkIface(c: Config, name: string) { exists w :: w in c.wans && w.iface == name }

  /** The VLAN is routed itself: the interface has its name, or any name with a dot. */
  predicate OwnVlan(n: Network)
    requires n.vlan.Some?
  {
    n.iface == n.vlan.value.parent + "." + Decimal(n.vlan.value.id) || '.' in n.iface
  }

  /** The network has a bridge of its own. */
  predicate HasBridge(c: Config, n: Network) { if n.vlan.Some? then !OwnVlan(n) else !UplinkIface(c, n.iface) }

  /** A link a network asks for: its bridge, its VLAN on its own or in the bridge, and the bridge's members. */
  predicate NetworkLink(c: Config, n: Network, l: DesiredLink) {
    || (HasBridge(c, n) && l == DesiredLink(n.iface, Kernel.Bridge, "", "", 0, 0, true))
    || (n.vlan.Some? && OwnVlan(n)
        && l == DesiredLink(n.iface, Kernel.Vlan, n.vlan.value.parent, "", n.vlan.value.id, 0, true))
    || (n.vlan.Some? && !OwnVlan(n)
        && l == DesiredLink(n.vlan.value.parent + "." + Decimal(n.vlan.value.id), Kernel.Vlan, n.vlan.value.parent,
                            n.iface, n.vlan.value.id, 0, true))
    || (exists m :: m in n.members && l == DesiredLink(m, Kernel.Ether, "", n.iface, 0, 0, true))
  }

  predicate TunnelLink(c: Config, l: DesiredLink) {
    exists t :: t in c.tunnels && l == DesiredLink(WgName(t.name), Kernel.Wireguard, "", "", 0, 0, true)
  }

  // Of uplinks, networks and tunnels, in this order, the first to ask for a name gets it.

  predicate FirstUplink(ws: seq<Wan>, l: DesiredLink) {
    exists i :: 0 <= i < |ws| && (forall j :: 0 <= j < i ==> ws[j].iface != l.name)
      && l == DesiredLink(ws[i].iface, Kernel.Ether, "", "", 0, 0, ws[i].enabled != Some(false))
  }

  /** The interface of the network's VLAN. */
  function VlanName(n: Network): string
    requires n.vlan.Some?
  {
    if OwnVlan(n) then n.iface else n.vlan.value.parent + "." + Decimal(n.vlan.value.id)
  }

  /** Some link the network asks for has the name. */
  predicate Takes(c: Config, n: Network, name: string) {
    || (HasBridge(c, n) && n.iface == name)
    || (n.vlan.Some? && VlanName(n) == name)
    || name in n.members
  }

  /** Within a network its bridge and VLAN come before its members. */
  predicate OwnOrFree(c: Config, n: Network, l: DesiredLink) {
    NetworkLink(c, n, l) &&
    (l.kind == Kernel.Ether ==>
       && !(HasBridge(c, n) && n.iface == l.name)
       && !(n.vlan.Some? && l.name == VlanName(n)))
  }

  predicate FirstNetwork(c: Config, ns: seq<Network>, l: DesiredLink) {
    exists i :: 0 <= i < |ns| && (forall j :: 0 <= j < i ==> !Takes(c, ns[j], l.name)) && OwnOrFree(c, ns[i], l)
  }

  lemma {:induction false} ByNameConcat(a: seq<DesiredLink>, b: seq<DesiredLink>, name: string)
    ensures ByName(a + b, name) == if ByName(a, name).Some? then ByName(a, name) else ByName(b, name)
  {
    if a == [] {
      assert a + b == b;
    } else {
      assert (a + b)[1..] == a[1..] + b;
      ByNameConcat(a[1..], b, name);
    }
  }

  lemma ByNameOne(x: DesiredLink, name: string)
    ensures ByName([x], name) == if x.name == name then Some(x) else None
  {
    assert [x][1..] == [];
  }

  lemma FirstUplinkSnoc(init: seq<Wan>, w: Wan, l: DesiredLink)
    ensures FirstUplink(init + [w], l) <==>
      FirstUplink(init, l)
      || ((forall i :: 0 <= i < |init| ==> init[i].iface != l.name)
          && l == DesiredLink(w.iface, Kernel.Ether, "", "", 0, 0, w.enabled != Some(false)))
  {
    var ws := init + [w];
    assert ws[|init|] == w && forall i :: 0 <= i < |init| ==> ws[i] == init[i];
  }

  lemma {:induction false} WanFound(ws: seq<Wan>, l: DesiredLink)
    ensures ByName(WanLinks(ws), l.name) == Some(l) <==> FirstUplink(ws, l)
    ensures ByName(WanLinks(ws), l.name).Some? <==> exists i :: 0 <= i < |ws| && ws[i].iface == l.name
  {
    if ws != [] {
      var init, w := Init(ws), Last(ws);
      var x := DesiredLink(w.iface, Kernel.Ether, "", "", 0, 0, Enabled(w));
      WanFound(init, l);
      ByNameConcat(WanLinks(init), [x], l.name);
      ByNameOne(x, l.name);
      FirstUplinkSnoc(init, w, l);
      assert ws == init + [w] && ws[|init|] == w;
    }
  }

  lemma {:induction false} MemberFound(ms: seq<string>, master: string, name: string)
    ensures ByName(MemberLinks(ms, master), name) ==
            if name in ms then Some(DesiredLink(name, Kernel.Ether, "", master, 0, 0, true)) else None
  {
    if ms != [] {
      assert ms == Init(ms) + [Last(ms)];
      MemberFound(Init(ms), master, name);
      ByNameConcat(MemberLinks(Init(ms), master), [Up(Last(ms), Kernel.Ether, "", 0, master)], name);
      ByNameOne(Up(Last(ms), Kernel.Ether, "", 0, master), name);
    }
  }

  lemma OwnFound(c: Config, n: Network, name: string)
    ensures ByName(OwnLinks(c, n), name) ==
      if HasBridge(c, n) && n.iface == name then Some(DesiredLink(name, Kernel.Bridge, "", "", 0, 0, true))
      else if n.vlan.Some? && OwnVlan(n) && n.iface == name then
        Some(DesiredLink(name, Kernel.Vlan, n.vlan.value.parent, "", n.vlan.value.id, 0, true))
      else if n.vlan.Some? && !OwnVlan(n) && n.vlan.value.parent + "." + Decimal(n.vlan.value.id) == name then
        Some(DesiredLink(name, Kernel.Vlan, n.vlan.value.parent, n.iface, n.vlan.value.id, 0, true))
      else None
  {
    assert Physical(c, n.iface) <==> UplinkIface(c, n.iface);
    if OwnLinks(c, n) != [] {
      assert OwnLinks(c, n) == [OwnLinks(c, n)[0]] + OwnLinks(c, n)[1..];
      ByNameOne(OwnLinks(c, n)[0], name);
      if |OwnLinks(c, n)| == 2 { ByNameOne(OwnLinks(c, n)[1], name); }
    }
  }

  lemma NetworkFound(c: Config, n: Network, l: DesiredLink)
    ensures var ls := OwnLinks(c, n) + MemberLinks(n.members, n.iface);
      && (ByName(ls, l.name) == Some(l) <==> OwnOrFree(c, n, l))
      && (ByName(ls, l.name).Some? <==> Takes(c, n, l.name))
  {
    ByNameConcat(OwnLinks(c, n), MemberLinks(n.members, n.iface), l.name);
    OwnFound(c, n, l.name);
    MemberFound(n.members, n.iface, l.name);
  }

  lemma {:induction false} NetFound(c: Config, ns: seq<Network>, l: DesiredLink)
    ensures ByName(NetLinks(c, ns), l.name) == Some(l) <==> FirstNetwork(c, ns, l)
    ensures ByName(NetLinks(c, ns), l.name).Some? <==> exists i :: 0 <= i < |ns| && Takes(c, ns[i], l.name)
  {
    if ns != [] {
      var init, n := Init(ns), Last(ns);
      NetFound(c, init, l);
      ByNameConcat(NetLinks(c, init), OwnLinks(c, n) + MemberLinks(n.members, n.iface), l.name);
      NetworkFound(c, n, l);
      FirstNetworkSnoc(c, init, n, l);
      assert ns == init + [n];
      assert forall i :: 0 <= i < |init| ==> ns[i] == init[i];
      if i :| 0 <= i < |init| && Takes(c, init[i], l.name) { assert Takes(c, ns[i], l.name); }
      assert ns[|init|] == n;
    }
  }

  lemma FirstNetworkSnoc(c: Config, init: seq<Network>, n: Network, l: DesiredLink)
    ensures FirstNetwork(c, init + [n], l) <==>
      FirstNetwork(c, init, l)
      || ((forall i :: 0 <= i < |init| ==> !Takes(c, init[i], l.name)) && OwnOrFree(c, n, l))
  {
    var ns := init + [n];
    assert ns[|init|] == n && forall i :: 0 <= i < |init| ==> ns[i] == init[i];
    if FirstNetwork(c, init, l) {
      var i :| 0 <= i < |init| && (forall j :: 0 <= j < i ==> !Takes(c, init[j], l.name)) && OwnOrFree(c, init[i], l);
      assert OwnOrFree(c, ns[i], l);
    }
    if FirstNetwork(c, ns, l) {
      var i :| 0 <= i < |ns| && (forall j :: 0 <= j < i ==> !Takes(c, ns[j], l.name)) && OwnOrFree(c, ns[i], l);
      if i < |init| {
        assert OwnOrFree(c, init[i], l);
      } else {
        forall j | 0 <= j < |init| ensures !Takes(c, init[j], l.name) { assert ns[j] == init[j]; }
      }
    }
  }

  lemma {:induction false} TunFound(ts: seq<Tunnel>, name: string)
    ensures ByName(TunLinks(ts), name) ==
            if exists t :: t in ts && WgName(t.name) == name then
              Some(DesiredLink(name, Kernel.Wireguard, "", "", 0, 0, true)) else None
  {
    if ts != [] {
      assert ts == Init(ts) + [Last(ts)];
      TunFound(Init(ts), name);
      var x := Up(WgIface(Last(ts).name), Kernel.Wireguard, "", 0, "");
      ByNameConcat(TunLinks(Init(ts)), [x], name);
      ByNameOne(x, name);
    }
  }

  lemma {:induction false} InFirst(ls: seq<DesiredLink>, l: DesiredLink)
    ensures l in FirstByName(ls) <==> ByName(ls, l.name) == Some(l)
  {
    if ls != [] {
      var init, last := Init(ls), Last(ls);
      assert ls == init + [last];
      InFirst(init, l);
      FirstSnoc(init, last);
      ByNameSnoc(init, last, l.name);
      NamedIsFound(init, last.name);
    }
  }

  /** Exactly which links are built, conflicts over a name included. */
  lemma LinksExactly(c: Config, rt: Option<Runtime>, art: Artifacts, order: seq<string>, l: DesiredLink)
    requires rt.Some? ==> Enumerates(order, rt.value.addrs.Keys)
    ensures l in Build(c, rt, art, order).links <==>
      if UplinkIface(c, l.name) then FirstUplink(c.wans, l)
      else if exists i :: 0 <= i < |c.networks| && Takes(c, c.networks[i], l.name) then FirstNetwork(c, c.networks, l)
      else TunnelLink(c, l)
  {
    InFirst(Mentions(c), l);
    ByNameConcat(WanLinks(c.wans) + NetLinks(c, c.networks), TunLinks(c.tunnels), l.name);
    ByNameConcat(WanLinks(c.wans), NetLinks(c, c.networks), l.name);
    WanFound(c.wans, l);
    NetFound(c, c.networks, l);
    TunFound(c.tunnels, l.name);
  }

  // ---- addresses ----

  /** The configuration wants this address on this device. */
  predicate WantsAddress(c: Config, dev: string, a: string) {
    || (exists w :: w in c.wans && IsStatic(w) && w.iface == dev && a == Show(w.fixed.value.address))
    || (exists n :: n in c.networks && n.iface == dev
         && (a == Show(n.subnet) || (n.ipv6Subnet != NoCidr && a == Show(n.ipv6Subnet))))
    || (exists t :: t in c.tunnels && WgName(t.name) == dev && a == Show(t.address))
  }

  lemma {:induction false} WanPairsAre(ws: seq<Wan>, dev: string, a: string)
    ensures (dev, a) in WanPairs(ws) <==>
      exists w :: w in ws && IsStatic(w) && w.iface == dev && a == Show(w.fixed.value.address)
  {
    if ws != [] {
      assert ws == Init(ws) + [Last(ws)];
      WanPairsAre(Init(ws), dev, a);
    }
  }

  lemma {:induction false} NetPairsAre(ns: seq<Network>, dev: string, a: string)
    ensures (dev, a) in NetPairs(ns) <==>
      exists n :: n in ns && n.iface == dev
        && (a == Show(n.subnet) || (n.ipv6Subnet != NoCidr && a == Show(n.ipv6Subnet)))
  {
    if ns != [] {
      assert ns == Init(ns) + [Last(ns)];
      NetPairsAre(Init(ns), dev, a);
    }
  }

  lemma {:induction false} TunPairsAre(ts: seq<Tunnel>, dev: string, a: string)
    ensures (dev, a) in TunPairs(ts) <==> exists t :: t in ts && WgName(t.name) == dev && a == Show(t.address)
  {
    if ts != [] {
      assert ts == Init(ts) + [Last(ts)];
      TunPairsAre(Init(ts), dev, a);
    }
  }

  /** Exactly the addresses of static uplinks, networks and tunnels, and the leased ones. */
  lemma AddressesExactly(c: Config, rt: Option<Runtime>, art: Artifacts, order: seq<string>, dev: string, a: string)
    requires rt.Some? ==> Enumerates(order, rt.value.addrs.Keys)
    ensures var d := Build(c, rt, art, order);
      dev in d.addrs && a in d.addrs[dev] <==>
      WantsAddress(c, dev, a) || (rt.Some? && dev in rt.value.addrs && a in rt.value.addrs[dev])
  {
    Wanted(c, rt, art, order, dev, a);
    WanPairsAre(c.wans, dev, a);
    NetPairsAre(c.networks, dev, a);
    TunPairsAre(c.tunnels, dev, a);
  }

  // ---- whose other addresses go, and the rest ----

  lemma {:induction false} WanDropsAre(ws: seq<Wan>, dev: string)
    ensures dev in WanDrops(ws) <==> exists w :: w in ws && IsStatic(w) && w.iface == dev
  {
    if ws != [] {
      assert ws == Init(ws) + [Last(ws)];
      WanDropsAre(Init(ws), dev);
    }
  }

  lemma {:induction false} NetDropsAre(c: Config, ns: seq<Network>, dev: string)
    ensures dev in NetDrops(c, ns) <==> exists n :: n in ns && HasBridge(c, n) && n.iface == dev
  {
    if ns != [] {
      assert ns == Init(ns) + [Last(ns)];
      NetDropsAre(c, Init(ns), dev);
      assert Physical(c, Last(ns).iface) <==> UplinkIface(c, Last(ns).iface);
    }
  }

  lemma {:induction false} TunDropsAre(ts: seq<Tunnel>, dev: string)
    ensures dev in TunDrops(ts) <==> exists t :: t in ts && WgName(t.name) == dev
  {
    if ts != [] {
      assert ts == Init(ts) + [Last(ts)];
      TunDropsAre(Init(ts), dev);
    }
  }

  lemma {:induction false} WanIfacesAre(ws: seq<Wan>, dev: string)
    ensures dev in WanIfaces(ws) <==> exists w :: w in ws && w.iface == dev
  {
    if ws != [] {
      assert ws == Init(ws) + [Last(ws)];
      WanIfacesAre(Init(ws), dev);
    }
  }

  lemma {:induction false} ConfsAre(ts: seq<Tunnel>, conf: Tunnel -> string, dev: string)
    ensures dev in Confs(ts, conf) <==> exists t :: t in ts && WgName(t.name) == dev
    ensures dev in Confs(ts, conf) ==> exists t :: t in ts && WgName(t.name) == dev && Confs(ts, conf)[dev] == conf(t)
  {
    if ts != [] {
      assert ts == Init(ts) + [Last(ts)];
      ConfsAre(Init(ts), conf, dev);
    }
  }

  /** Authority over a device's addresses, the uplinks' interfaces, tunnel configurations, ruleset and DHCP file. */
  lemma RestExactly(c: Config, rt: Option<Runtime>, art: Artifacts, order: seq<string>, dev: string)
    requires rt.Some? ==> Enumerates(order, rt.value.addrs.Keys)
    ensures var d := Build(c, rt, art, order);
      && (dev in d.dropAddrs <==>
            || (exists w :: w in c.wans && IsStatic(w) && w.iface == dev)
            || (exists n :: n in c.networks && HasBridge(c, n) && n.iface == dev)
            || (exists t :: t in c.tunnels && WgName(t.name) == dev)
            || (rt.Some? && dev in rt.value.addrs))
      && (dev in d.wanIfaces <==> UplinkIface(c, dev))
      && (dev in d.wgConf <==> exists t :: t in c.tunnels && WgName(t.name) == dev)
      && (dev in d.wgConf ==> exists t :: t in c.tunnels && WgName(t.name) == dev && d.wgConf[dev] == art.conf(t))
      && d.ruleset == art.ruleset && d.dnsmasqConf == art.dnsmasq
  {
    WanDropsAre(c.wans, dev);
    NetDropsAre(c, c.networks, dev);
    TunDropsAre(c.tunnels, dev);
    WanIfacesAre(c.wans, dev);
    ConfsAre(c.tunnels, art.conf, dev);
  }
}
