/**
  What the desired state built from a validated configuration guarantees, and so when an apply of it
  converges.
 */
module BuiltState {
  import opened Wrappers
  import Kernel
  import opened Planner
  import opened Models
  import opened Sequences
  import opened Prefixes
  import opened Text
  import opened Validate
  import opened ValidNetworks
  import opened DesiredState
  import opened LinkConvergence
  import opened RouteConvergence
  import opened ServiceConvergence
  import opened Convergence

  // ---- the first of each name ----

  lemma FirstSnoc(ls: seq<DesiredLink>, l: DesiredLink)
    ensures FirstByName(ls + [l]) == FirstByName(ls) + if Named(ls, l.name) then [] else [l]
  {
    Snoc(ls, l);
  }

  lemma {:induction false} FirstNamed(ls: seq<DesiredLink>, name: string)
    ensures Named(FirstByName(ls), name) <==> Named(ls, name)
  {
    if ls != [] {
      var init, l := Init(ls), Last(ls);
      assert ls == init + [l];
      FirstNamed(init, name);
      FirstSnoc(init, l);
      NamedSnoc(init, l, name);
      NamedSnoc(FirstByName(init), l, name);
      assert FirstByName(init) + [] == FirstByName(init);
    }
  }

  lemma ByNameSnoc(ls: seq<DesiredLink>, l: DesiredLink, name: string)
    ensures ByName(ls + [l], name) == if ByName(ls, name).Some? then ByName(ls, name)
      else if l.name == name then Some(l) else None
  {
    if ls == [] {
      assert [l][1..] == [];
    } else {
      assert (ls + [l])[1..] == ls[1..] + [l];
      if ls[0].name != name { ByNameSnoc(ls[1..], l, name); }
    }
  }

  lemma {:induction false} NamedIsFound(ls: seq<DesiredLink>, name: string)
    ensures Named(ls, name) <==> ByName(ls, name).Some?
  {
    ByNameAt(ls, name);
  }

  /** The list keeps, of each name, exactly its first mention. */
  lemma {:induction false} FirstMentionWins(ls: seq<DesiredLink>, name: string)
    ensures ByName(FirstByName(ls), name) == ByName(ls, name)
  {
    if ls != [] {
      var init, l := Init(ls), Last(ls);
      assert ls == init + [l];
      FirstMentionWins(init, name);
      FirstSnoc(init, l);
      ByNameSnoc(init, l, name);
      ByNameSnoc(FirstByName(init), l, name);
      NamedIsFound(init, name);
      assert FirstByName(init) + [] == FirstByName(init);
    }
  }

  // ---- mentions are well formed ----

  /** One link as the planner needs it, given the links mentioned before it. */
  ghost predicate Proper(before: seq<DesiredLink>, l: DesiredLink) {
    && l.name != "" && l.kind != Kernel.Loopback
    && (l.kind == Kernel.Vlan ==> l.parent != "" && 1 <= l.vlanID <= 4094)
    && (l.master != "" ==> Named(before, l.master))
  }

  ghost predicate AllProper(ls: seq<DesiredLink>) { ls == [] || (AllProper(Init(ls)) && Proper(Init(ls), Last(ls))) }

  lemma ProperSnoc(ls: seq<DesiredLink>, l: DesiredLink)
    ensures AllProper(ls + [l]) <==> AllProper(ls) && Proper(ls, l)
  {
    Snoc(ls, l);
  }

  lemma WellFormedSnoc(ls: seq<DesiredLink>, l: DesiredLink)
    requires WellFormedLinks(ls) && Proper(ls, l) && !Named(ls, l.name)
    ensures WellFormedLinks(ls + [l])
  {
    var longer := ls + [l];
    forall i | 0 <= i < |longer| && longer[i].master != ""
      ensures exists j :: 0 <= j < i && longer[j].name == longer[i].master
    {
      if i < |ls| {
        var j :| 0 <= j < i && ls[j].name == ls[i].master;
        assert longer[j].name == longer[i].master;
      } else {
        var j :| 0 <= j < |ls| && ls[j].name == l.master;
        assert longer[j].name == longer[i].master;
      }
    }
  }

  lemma {:induction false} FirstWellFormed(ls: seq<DesiredLink>)
    requires AllProper(ls)
    ensures WellFormedLinks(FirstByName(ls))
  {
    if ls != [] {
      var init, l := Init(ls), Last(ls);
      assert ls == init + [l];
      FirstWellFormed(init);
      FirstSnoc(init, l);
      if !Named(init, l.name) {
        FirstNamed(init, l.name);
        FirstNamed(init, l.master);
        WellFormedSnoc(FirstByName(init), l);
      } else {
        assert FirstByName(init) + [] == FirstByName(init);
      }
    }
  }

  lemma {:induction false} NamedPrefix(a: seq<DesiredLink>, b: seq<DesiredLink>, name: string)
    ensures Named(a + b, name) <==> Named(a, name) || Named(b, name)
  {
    var ab := a + b;
    if Named(a, name) {
      var i :| 0 <= i < |a| && a[i].name == name;
      assert ab[i].name == name;
    }
    if Named(b, name) {
      var i :| 0 <= i < |b| && b[i].name == name;
      assert ab[|a| + i].name == name;
    }
  }

  lemma {:induction false} WanNamed(ws: seq<Wan>, w: Wan)
    requires w in ws
    ensures Named(WanLinks(ws), w.iface)
  {
    assert ws == Init(ws) + [Last(ws)];
    NamedSnoc(WanLinks(Init(ws)), DesiredLink(Last(ws).iface, Kernel.Ether, "", "", 0, 0, Enabled(Last(ws))), w.iface);
    if w in Init(ws) { WanNamed(Init(ws), w); }
  }

  lemma {:induction false} WansProper(ws: seq<Wan>)
    requires forall w :: w in ws ==> w.iface != ""
    ensures AllProper(WanLinks(ws))
  {
    if ws != [] {
      assert ws == Init(ws) + [Last(ws)];
      WansProper(Init(ws));
      ProperSnoc(WanLinks(Init(ws)), DesiredLink(Last(ws).iface, Kernel.Ether, "", "", 0, 0, Enabled(Last(ws))));
    }
  }

  lemma {:induction false} MembersProper(ls: seq<DesiredLink>, ms: seq<string>, master: string)
    requires AllProper(ls) && Named(ls, master)
    ensures AllProper(ls + MemberLinks(ms, master)) <==> "" !in ms
    ensures Named(ls + MemberLinks(ms, master), master)
  {
    if ms == [] {
      assert ls + MemberLinks(ms, master) == ls;
    } else {
      assert ms == Init(ms) + [Last(ms)];
      var more, l := MemberLinks(Init(ms), master), Up(Last(ms), Kernel.Ether, "", 0, master);
      Shift(ls, more, [l]);
      MembersProper(ls, Init(ms), master);
      ProperSnoc(ls + more, l);
      NamedSnoc(ls + more, l, master);
    }
  }

  lemma VlanKeyNotEmpty(v: Vlan)
    ensures VlanKey(v) != ""
  {
    assert |VlanKey(v)| >= 1;
  }

  lemma OwnProper(c: Config, ls: seq<DesiredLink>, n: Network)
    requires AllProper(ls) && Sound(n) && (Physical(c, n.iface) ==> Named(ls, n.iface))
    ensures AllProper(ls + OwnLinks(c, n)) && Named(ls + OwnLinks(c, n), n.iface)
  {
    if n.vlan.Some? {
      var v := n.vlan.value;
      if Routed(n) {
        var l := Up(n.iface, Kernel.Vlan, v.parent, v.id, "");
        ProperSnoc(ls, l);
        NamedSnoc(ls, l, n.iface);
      } else {
        VlanKeyNotEmpty(v);
        var b, l := Up(n.iface, Kernel.Bridge, "", 0, ""), Up(VlanKey(v), Kernel.Vlan, v.parent, v.id, n.iface);
        ProperSnoc(ls, b);
        NamedSnoc(ls, b, n.iface);
        ProperSnoc(ls + [b], l);
        NamedSnoc(ls + [b], l, n.iface);
        assert ls + [b, l] == ls + [b] + [l];
      }
    } else if !Physical(c, n.iface) {
      var b := Up(n.iface, Kernel.Bridge, "", 0, "");
      ProperSnoc(ls, b);
      NamedSnoc(ls, b, n.iface);
    } else {
      assert ls + [] == ls;
    }
  }

  ghost predicate NoBlankMembers(ns: seq<Network>) { forall n :: n in ns ==> "" !in n.members }

  lemma {:induction false} AllProperPrefix(a: seq<DesiredLink>, b: seq<DesiredLink>)
    requires AllProper(a + b)
    ensures AllProper(a)
    decreases |b|
  {
    if b == [] {
      assert a + b == a;
    } else {
      assert Init(a + b) == a + Init(b);
      AllProperPrefix(a, Init(b));
    }
  }

  ghost predicate WansKnown(c: Config, ls: seq<DesiredLink>) { forall w :: w in c.wans ==> Named(ls, w.iface) }

  lemma NetworkProper(c: Config, before: seq<DesiredLink>, n: Network)
    requires AllProper(before) && WansKnown(c, before) && Sound(n)
    ensures AllProper(before + (OwnLinks(c, n) + MemberLinks(n.members, n.iface))) <==> "" !in n.members
  {
    OwnProper(c, before, n);
    MembersProper(before + OwnLinks(c, n), n.members, n.iface);
    Shift(before, OwnLinks(c, n), MemberLinks(n.members, n.iface));
  }

  lemma WansStillKnown(c: Config, ls: seq<DesiredLink>, more: seq<DesiredLink>)
    requires WansKnown(c, ls)
    ensures WansKnown(c, ls + more)
  {
    forall w | w in c.wans ensures Named(ls + more, w.iface) { NamedPrefix(ls, more, w.iface); }
  }

  lemma {:induction false} NetworksProper(c: Config, ls: seq<DesiredLink>, ns: seq<Network>)
    requires AllProper(ls) && WansKnown(c, ls) && forall n :: n in ns ==> Sound(n)
    ensures AllProper(ls + NetLinks(c, ns)) <==> NoBlankMembers(ns)
  {
    if ns == [] {
      assert ls + NetLinks(c, ns) == ls;
    } else {
      var init, n := Init(ns), Last(ns);
      assert ns == init + [n];
      NetworksProper(c, ls, init);
      var before, more := ls + NetLinks(c, init), OwnLinks(c, n) + MemberLinks(n.members, n.iface);
      Shift(ls, NetLinks(c, init), more);
      WansStillKnown(c, ls, NetLinks(c, init));
      if AllProper(before) {
        NetworkProper(c, before, n);
      } else if AllProper(before + more) {
        AllProperPrefix(before, more);
      }
    }
  }

  lemma OwnNamed(c: Config, ls: seq<DesiredLink>, n: Network)
    requires WansKnown(c, ls)
    ensures Named(ls + OwnLinks(c, n), n.iface)
  {
    NamedPrefix(ls, OwnLinks(c, n), n.iface);
    if OwnLinks(c, n) != [] { assert OwnLinks(c, n)[0].name == n.iface; }
  }

  /** Every network's interface is mentioned. */
  lemma {:induction false} NetworkNamed(c: Config, ls: seq<DesiredLink>, ns: seq<Network>, n: Network)
    requires WansKnown(c, ls) && n in ns
    ensures Named(ls + NetLinks(c, ns), n.iface)
  {
    var init, last := Init(ns), Last(ns);
    assert ns == init + [last];
    var before, own, members := ls + NetLinks(c, init), OwnLinks(c, last), MemberLinks(last.members, last.iface);
    Shift(ls, NetLinks(c, init), own + members);
    Shift(before, own, members);
    NamedPrefix(before, own, n.iface);
    NamedPrefix(before + own, members, n.iface);
    if n in init {
      NetworkNamed(c, ls, init, n);
    } else {
      WansStillKnown(c, ls, NetLinks(c, init));
      OwnNamed(c, before, n);
    }
  }

  lemma {:induction false} TunnelsProper(ls: seq<DesiredLink>, ts: seq<Tunnel>)
    requires AllProper(ls) && forall t :: t in ts ==> t.name != ""
    ensures AllProper(ls + TunLinks(ts))
  {
    if ts == [] {
      assert ls + TunLinks(ts) == ls;
    } else {
      assert ts == Init(ts) + [Last(ts)];
      var l := Up(WgIface(Last(ts).name), Kernel.Wireguard, "", 0, "");
      TunnelsProper(ls, Init(ts));
      Shift(ls, TunLinks(Init(ts)), [l]);
      ProperSnoc(ls + TunLinks(Init(ts)), l);
      TunnelProper(ls + TunLinks(Init(ts)), Last(ts));
    }
  }

  lemma TunnelProper(ls: seq<DesiredLink>, t: Tunnel)
    requires t.name != ""
    ensures Proper(ls, Up(WgIface(t.name), Kernel.Wireguard, "", 0, ""))
  {}

  lemma SoundNetworks(c: Config)
    requires Valid(c)
    ensures forall n :: n in c.networks ==> Sound(n)
  {
    CleanMeansValid(c.networks);
  }

  lemma MentionsProper(c: Config)
    requires Valid(c)
    ensures AllProper(Mentions(c)) <==> NoBlankMembers(c.networks)
  {
    SoundNetworks(c);
    WansProper(c.wans);
    forall w | w in c.wans ensures Named(WanLinks(c.wans), w.iface) { WanNamed(c.wans, w); }
    var nets := WanLinks(c.wans) + NetLinks(c, c.networks);
    NetworksProper(c, WanLinks(c.wans), c.networks);
    if AllProper(nets) { TunnelsProper(nets, c.tunnels); }
    if AllProper(nets + TunLinks(c.tunnels)) { AllProperPrefix(nets, TunLinks(c.tunnels)); }
  }

  lemma {:induction false} BlankMentioned(ms: seq<string>, master: string)
    requires "" in ms
    ensures Named(MemberLinks(ms, master), "")
  {
    assert ms == Init(ms) + [Last(ms)];
    NamedSnoc(MemberLinks(Init(ms), master), Up(Last(ms), Kernel.Ether, "", 0, master), "");
    if Last(ms) != "" { BlankMentioned(Init(ms), master); }
  }

  lemma {:induction false} BlankInNetworks(c: Config, ns: seq<Network>, n: Network)
    requires n in ns && "" in n.members
    ensures Named(NetLinks(c, ns), "")
  {
    assert ns == Init(ns) + [Last(ns)];
    var own, members := OwnLinks(c, Last(ns)), MemberLinks(Last(ns).members, Last(ns).iface);
    NamedPrefix(NetLinks(c, Init(ns)), own + members, "");
    NamedPrefix(own, members, "");
    if n in Init(ns) { BlankInNetworks(c, Init(ns), n); } else { BlankMentioned(n.members, n.iface); }
  }

  lemma BlankBreaks(c: Config)
    requires !NoBlankMembers(c.networks)
    ensures !WellFormedLinks(FirstByName(Mentions(c)))
  {
    var n :| n in c.networks && "" in n.members;
    BlankInNetworks(c, c.networks, n);
    NamedPrefix(WanLinks(c.wans), NetLinks(c, c.networks), "");
    NamedPrefix(WanLinks(c.wans) + NetLinks(c, c.networks), TunLinks(c.tunnels), "");
    FirstNamed(Mentions(c), "");
    var ls := FirstByName(Mentions(c));
    var i :| 0 <= i < |ls| && ls[i].name == "";
  }

  /**
    A validated configuration builds unique link names, complete VLANs and masters before members,
    exactly when no network lists a blank member: validation does not look at members.
   */
  lemma LinksWellFormed(c: Config)
    requires Valid(c)
    ensures WellFormedLinks(FirstByName(Mentions(c))) <==> NoBlankMembers(c.networks)
  {
    MentionsProper(c);
    if NoBlankMembers(c.networks) { FirstWellFormed(Mentions(c)); } else { BlankBreaks(c); }
  }

  // ---- addresses ----

  /** The addresses of one device, in order of mention. */
  function Only(pairs: seq<(string, string)>, dev: string): seq<string> {
    if pairs == [] then [] else Only(Init(pairs), dev) + if Last(pairs).0 == dev then [Last(pairs).1] else []
  }

  lemma {:induction false} GroupIs(pairs: seq<(string, string)>, dev: string)
    ensures dev in Group(pairs) <==> Only(pairs, dev) != []
    ensures dev in Group(pairs) ==> Group(pairs)[dev] == Only(pairs, dev)
  {
    if pairs != [] {
      GroupIs(Init(pairs), dev);
      if Last(pairs).0 != dev { assert Only(Init(pairs), dev) + [] == Only(Init(pairs), dev); }
    }
  }

  lemma {:induction false} OnlyConcat(a: seq<(string, string)>, b: seq<(string, string)>, dev: string)
    ensures Only(a + b, dev) == Only(a, dev) + Only(b, dev)
  {
    if b == [] {
      assert a + b == a;
    } else {
      assert Init(a + b) == a + Init(b) && Last(a + b) == Last(b);
      OnlyConcat(a, Init(b), dev);
    }
  }

  lemma OnlySnoc(pairs: seq<(string, string)>, p: (string, string), dev: string)
    ensures Only(pairs + [p], dev) == Only(pairs, dev) + if p.0 == dev then [p.1] else []
  {
    Snoc(pairs, p);
  }

  lemma OneMoreCidr(pairs: seq<(string, string)>, dev: string, cidrs: seq<string>, a: string, other: string)
    requires Only(pairs, other) == if dev == other then cidrs else []
    ensures Only(pairs + [(dev, a)], other) == if dev == other then cidrs + [a] else []
  {
    OnlySnoc(pairs, (dev, a), other);
  }

  lemma {:induction false} DevPairsAre(dev: string, cidrs: seq<string>, other: string)
    ensures Only(DevPairs(dev, cidrs), other) == if dev == other then cidrs else []
  {
    if cidrs != [] {
      DevPairsAre(dev, Init(cidrs), other);
      OneMoreCidr(DevPairs(dev, Init(cidrs)), dev, Init(cidrs), Last(cidrs), other);
      assert cidrs == Init(cidrs) + [Last(cidrs)];
    }
  }

  lemma {:induction false} LeasePairsAre(order: seq<string>, addrs: map<string, seq<string>>, dev: string)
    requires forall d :: d in order ==> d in addrs
    requires forall i, j :: 0 <= i < j < |order| ==> order[i] != order[j]
    ensures Only(LeasePairs(order, addrs), dev) == if dev in order then addrs[dev] else []
  {
    if order != [] {
      assert order == Init(order) + [Last(order)];
      LeasePairsAre(Init(order), addrs, dev);
      OnlyConcat(LeasePairs(Init(order), addrs), DevPairs(Last(order), addrs[Last(order)]), dev);
      DevPairsAre(Last(order), addrs[Last(order)], dev);
    }
  }

  /** The order in which leases are taken from their map never shows. */
  lemma LeaseOrderFree(c: Config, addrs: map<string, seq<string>>, order: seq<string>, other: seq<string>)
    requires Enumerates(order, addrs.Keys) && Enumerates(other, addrs.Keys)
    ensures Group(Pairs(c) + LeasePairs(order, addrs)) == Group(Pairs(c) + LeasePairs(other, addrs))
  {
    var g, h := Group(Pairs(c) + LeasePairs(order, addrs)), Group(Pairs(c) + LeasePairs(other, addrs));
    forall dev ensures (dev in g <==> dev in h) && (dev in g ==> g[dev] == h[dev]) {
      GroupIs(Pairs(c) + LeasePairs(order, addrs), dev);
      GroupIs(Pairs(c) + LeasePairs(other, addrs), dev);
      OnlyConcat(Pairs(c), LeasePairs(order, addrs), dev);
      OnlyConcat(Pairs(c), LeasePairs(other, addrs), dev);
      LeasePairsAre(order, addrs, dev);
      LeasePairsAre(other, addrs, dev);
    }
  }

  // ---- routes ----

  lemma {:induction false} PeerRoutesText(t: Tunnel, ips: seq<string>)
    requires forall a :: a in ips ==> PrefixText(a)
    ensures forall r :: r in PeerRoutes(t, ips) ==> PrefixText(r.dst)
  {
    if ips != [] {
      assert ips == Init(ips) + [Last(ips)];
      PeerRoutesText(t, Init(ips));
    }
  }

  lemma {:induction false} TunRoutesText(t: Tunnel, ps: seq<Peer>)
    requires forall p, a :: p in ps && a in p.allowedIps ==> PrefixText(a)
    ensures forall r :: r in TunRoutes(t, ps) ==> PrefixText(r.dst)
  {
    if ps != [] {
      assert ps == Init(ps) + [Last(ps)];
      TunRoutesText(t, Init(ps));
      PeerRoutesText(t, Last(ps).allowedIps);
    }
  }

  lemma {:induction false} AllTunRoutesText(ts: seq<Tunnel>)
    requires forall t, p, a :: t in ts && p in t.peers && a in p.allowedIps ==> PrefixText(a)
    ensures forall r :: r in AllTunRoutes(ts) ==> PrefixText(r.dst)
  {
    if ts != [] {
      assert ts == Init(ts) + [Last(ts)];
      AllTunRoutesText(Init(ts));
      TunRoutesText(Last(ts), Last(ts).peers);
    }
  }

  lemma {:induction false} WanRoutesText(ws: seq<Wan>)
    ensures forall r :: r in WanRoutes(ws) ==> PrefixText(r.dst)
  {
    if ws != [] {
      WanRoutesText(Init(ws));
      assert DEFAULT_DST[7] == '/';
    }
  }

  lemma {:induction false} StaticRoutesText(rs: seq<StaticRoute>)
    requires forall r :: r in rs ==> PrefixText(r.destination)
    ensures forall r :: r in StaticRoutes(rs) ==> PrefixText(r.dst)
  {
    if rs != [] {
      assert rs == Init(rs) + [Last(rs)];
      StaticRoutesText(Init(rs));
    }
  }

  /** Leased routes are written as prefixes, as the registry writes them. */
  ghost predicate LeasedText(rt: Option<Runtime>) {
    rt.Some? ==> forall r :: r in rt.value.routes ==> PrefixText(r.dst)
  }

  lemma NoRouteSpelledDefault(c: Config, rt: Option<Runtime>, art: Artifacts, order: seq<string>)
    requires Valid(c) && LeasedText(rt) && (rt.Some? ==> forall dev :: dev in order ==> dev in rt.value.addrs)
    ensures forall r :: r in Build(c, rt, art, order).routes ==> r.dst != "default"
  {
    WanRoutesText(c.wans);
    AllTunRoutesText(c.tunnels);
    StaticRoutesText(c.staticRoutes);
    assert !PrefixText("default");
  }
}
