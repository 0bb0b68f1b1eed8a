/** When one apply of what a validated configuration builds converges, stated on the configuration and the kernel. */
module BuiltConvergence {
  import opened Wrappers
  import Kernel
  import opened AddressText
  import opened Planner
  import opened Models
  import opened Sequences
  import opened Prefixes
  import opened Validate
  import opened ValidNetworks
  import Text
  import opened Defaults
  import opened DesiredState
  import opened BuiltState
  import opened LinkConvergence
  import opened LinkRun
  import opened LinkPhase
  import opened AddressConvergence
  import opened ServiceConvergence
  import opened Convergence

  // ---- which addresses are wanted ----

  lemma {:induction false} OnlyHas(pairs: seq<(string, string)>, dev: string, a: string)
    ensures a in Only(pairs, dev) <==> (dev, a) in pairs
  {
    if pairs != [] {
      assert pairs == Init(pairs) + [Last(pairs)];
      OnlyHas(Init(pairs), dev, a);
    }
  }

  /** An address is wanted on a device if the configuration says so or a lease does. */
  lemma Wanted(c: Config, rt: Option<Runtime>, art: Artifacts, order: seq<string>, dev: string, a: string)
    requires rt.Some? ==> Enumerates(order, rt.value.addrs.Keys)
    ensures var d := Build(c, rt, art, order);
      dev in d.addrs && a in d.addrs[dev] <==>
      (dev, a) in Pairs(c) || (rt.Some? && dev in rt.value.addrs && a in rt.value.addrs[dev])
  {
    var leased := if rt.Some? then LeasePairs(order, rt.value.addrs) else [];
    GroupIs(Pairs(c) + leased, dev);
    OnlyConcat(Pairs(c), leased, dev);
    OnlyHas(Pairs(c), dev, a);
    if rt.Some? { LeasePairsAre(order, rt.value.addrs, dev); }
  }

  lemma {:induction false} WanPairsPlain(ws: seq<Wan>)
    requires forall w :: w in ws && w.mode == "static" ==> w.fixed.Some? && Parsed(w.fixed.value.address)
    ensures forall p :: p in WanPairs(ws) ==> Plain(p.1)
  {
    if ws != [] {
      assert ws == Init(ws) + [Last(ws)];
      WanPairsPlain(Init(ws));
      if DesiredState.StaticWan(Last(ws)) { ShowPlain(Last(ws).fixed.value.address); }
    }
  }

  lemma {:induction false} TunPairsPlain(ts: seq<Tunnel>)
    requires forall t :: t in ts ==> Parsed(t.address)
    ensures forall p :: p in TunPairs(ts) ==> Plain(p.1)
  {
    if ts != [] {
      assert ts == Init(ts) + [Last(ts)];
      TunPairsPlain(Init(ts));
      ShowPlain(Last(ts).address);
    }
  }

  /** The IPv6 subnet, which validation never looks at, is absent or an address, a slash and a plain length. */
  ghost predicate V6Plain(n: Network) { n.ipv6Subnet == NoCidr || Plain(Show(n.ipv6Subnet)) }

  lemma {:induction false} NetPairsPlain(ns: seq<Network>)
    requires forall n :: n in ns ==> Parsed(n.subnet) && V6Plain(n)
    ensures forall p :: p in NetPairs(ns) ==> Plain(p.1)
  {
    if ns != [] {
      assert ns == Init(ns) + [Last(ns)];
      NetPairsPlain(Init(ns));
      ShowPlain(Last(ns).subnet);
    }
  }

  lemma {:induction false} V6Wanted(ns: seq<Network>, n: Network)
    requires n in ns && n.ipv6Subnet != NoCidr
    ensures (n.iface, Show(n.ipv6Subnet)) in NetPairs(ns)
  {
    assert ns == Init(ns) + [Last(ns)];
    if n in Init(ns) { V6Wanted(Init(ns), n); }
  }

  lemma ConfiguredPlain(c: Config)
    requires Valid(c) && forall n :: n in c.networks ==> V6Plain(n)
    ensures forall p :: p in Pairs(c) ==> Plain(p.1)
  {
    SoundNetworks(c);
    WanPairsPlain(c.wans);
    NetPairsPlain(c.networks);
    TunPairsPlain(c.tunnels);
  }

  /** A network's interface is a desired link. */
  lemma NetworkDesired(c: Config, n: Network)
    requires n in c.networks
    ensures ByName(FirstByName(Mentions(c)), n.iface).Some?
  {
    forall w | w in c.wans ensures Named(WanLinks(c.wans), w.iface) { WanNamed(c.wans, w); }
    NetworkNamed(c, WanLinks(c.wans), c.networks, n);
    NamedPrefix(WanLinks(c.wans) + NetLinks(c, c.networks), TunLinks(c.tunnels), n.iface);
    NamedIsFound(Mentions(c), n.iface);
    FirstMentionWins(Mentions(c), n.iface);
  }

  /** Leased addresses on the devices the apply plans for are plain. */
  ghost predicate LeasesPlain(d: Desired, m: Links, rt: Option<Runtime>) {
    rt.Some? ==>
      forall dev, a :: dev in rt.value.addrs && Planned(d, m, dev) && a in rt.value.addrs[dev] ==> Plain(a)
  }

  lemma PlainWhen(c: Config, rt: Option<Runtime>, art: Artifacts, order: seq<string>, m: Links)
    requires Valid(c) && (rt.Some? ==> Enumerates(order, rt.value.addrs.Keys))
    requires (forall n :: n in c.networks ==> V6Plain(n)) && LeasesPlain(Build(c, rt, art, order), m, rt)
    ensures AddressesPlain(Build(c, rt, art, order), m)
  {
    var d := Build(c, rt, art, order);
    ConfiguredPlain(c);
    forall dev, a | dev in d.addrs && Planned(d, m, dev) && a in d.addrs[dev] ensures Plain(a) {
      Wanted(c, rt, art, order, dev, a);
      if (dev, a) in Pairs(c) { assert Plain((dev, a).1); }
    }
  }

  lemma PlainOnlyWhen(c: Config, rt: Option<Runtime>, art: Artifacts, order: seq<string>, m: Links)
    requires rt.Some? ==> Enumerates(order, rt.value.addrs.Keys)
    requires AddressesPlain(Build(c, rt, art, order), m)
    ensures (forall n :: n in c.networks ==> V6Plain(n)) && LeasesPlain(Build(c, rt, art, order), m, rt)
  {
    var d := Build(c, rt, art, order);
    forall n | n in c.networks && n.ipv6Subnet != NoCidr ensures Plain(Show(n.ipv6Subnet)) {
      V6Wanted(c.networks, n);
      Wanted(c, rt, art, order, n.iface, Show(n.ipv6Subnet));
      NetworkDesired(c, n);
      assert WantsPlain(d, n.iface);
    }
    if rt.Some? {
      forall dev, a | dev in rt.value.addrs && Planned(d, m, dev) && a in rt.value.addrs[dev] ensures Plain(a) {
        Wanted(c, rt, art, order, dev, a);
        assert WantsPlain(d, dev);
      }
    }
  }

  // ---- and so ----

  /**
    One apply of what a validated configuration builds, in whatever order devices are taken: every
    command succeeds, verification finds nothing and the physical interfaces are still there, exactly
    if IPv6 subnets and leased addresses are plain and the kernel is convergible. Validation sees to
    everything else.
   */
  lemma BuiltStateConverges(c: Config, rt: Option<Runtime>, art: Artifacts, order: seq<string>, s: Kernel.State,
                            managed: seq<Kernel.Route>, devices: seq<string>)
    requires Valid(c) && NoBlankMembers(c.networks) && LeasedText(rt)
    requires rt.Some? ==> Enumerates(order, rt.value.addrs.Keys)
    requires art.ruleset.Ruleset? && art.ruleset.marker != ""
    requires Kernel.Unique(s.links) && forall q :: q in managed ==> q.dst != "default"
    requires Enumerates(devices, Build(c, rt, art, order).addrs.Keys)
    ensures var d := Build(c, rt, art, order);
      var o := ApplyOutcome(d, s, managed, devices);
      o.ok && InterfacesExist(d, Kernel.View(o.state.links)) <==>
      (forall n :: n in c.networks ==> V6Plain(n)) && LeasesPlain(d, Kernel.View(s.links), rt)
      && KernelConvergible(d, s, managed)
  {
    var d, m := Build(c, rt, art, order), Kernel.View(s.links);
    LinksWellFormed(c);
    NoRouteSpelledDefault(c, rt, art, order);
    FullConvergence(d, s, managed, devices);
    if AddressesPlain(d, m) { PlainOnlyWhen(c, rt, art, order, m); }
    if (forall n :: n in c.networks ==> V6Plain(n)) && LeasesPlain(d, m, rt) { PlainWhen(c, rt, art, order, m); }
  }

  // ---- a subnet that is never applied ----

  /** Nothing verifies while a wanted address of a device that exists is not plain. */
  lemma VerifiedIsPlain(d: Desired, s: Kernel.State, managed: seq<Kernel.Route>, dev: string)
    requires Verified(d, s, managed) && dev in d.addrs && dev in Kernel.View(s.links)
    ensures WantsPlain(d, dev)
  {
    DevSettled(d, Kernel.View(s.links), dev);
    ShownIsPlain(d, dev, Kernel.View(s.links)[dev].addrs);
  }

  lemma VerifiedHasBridge(d: Desired, links: seq<Kernel.Link>, dev: string)
    requires LinkPlan(d, links) == [] && ByName(d.links, dev).Some? && ByName(d.links, dev).value.kind != Kernel.Ether
    ensures dev in Kernel.View(links)
  {
    ByNameAt(d.links, dev);
    var i :| 0 <= i < |d.links| && d.links[i] == ByName(d.links, dev).value && d.links[i].name == dev;
    assert AllLinkCommands(d, d.links, Kernel.View(links)) == [];
    NoLinkCommands(d, d.links, Kernel.View(links));
    assert LinkCommands(d, d.links[i], Current(Kernel.View(links), dev)) == [];
  }

  /** A network whose interface is made by the router and whose IPv6 subnet is not plain: no apply ever succeeds. */
  lemma NeverApplies(c: Config, rt: Option<Runtime>, art: Artifacts, order: seq<string>, n: Network, s: Kernel.State,
                     managed: seq<Kernel.Route>, devices: seq<string>)
    requires n in c.networks && !V6Plain(n)
    requires ByName(Mentions(c), n.iface).Some? && ByName(Mentions(c), n.iface).value.kind != Kernel.Ether
    requires rt.Some? ==> Enumerates(order, rt.value.addrs.Keys)
    requires Enumerates(devices, Build(c, rt, art, order).addrs.Keys)
    ensures !ApplyOutcome(Build(c, rt, art, order), s, managed, devices).ok
  {
    var d := Build(c, rt, art, order);
    var o := ApplyOutcome(d, s, managed, devices);
    if o.ok {
      FirstMentionWins(Mentions(c), n.iface);
      VerifiedHasBridge(d, o.state.links, n.iface);
      V6Wanted(c.networks, n);
      Wanted(c, rt, art, order, n.iface, Show(n.ipv6Subnet));
      VerifiedIsPlain(d, o.state, managed, n.iface);
    }
  }

  /** The out-of-the-box configuration with this IPv6 subnet. */
  function WithV6(text: Spelling): Config {
    var c := DefaultConfig();
    c.(networks := [c.networks[0].(ipv6Subnet := Malformed(text))])
  }

  lemma NoNumber()
    ensures Text.Atoi("x") == 0 && Text.Decimal(0) == "0" != "x"
  {
    assert "x"[..0] == "" && Text.Read("x"[..0]) == Text.Value(0);
  }

  lemma NotPlain()
    ensures !Plain("fd00::1") && !Plain("fd00::1" + "/" + "x")
  {
    PlainReadsBack("fd00::1");
    NoNumber();
    PlainLength("fd00::1", "x");
  }

  lemma V6Bridge(text: Spelling)
    ensures var l := ByName(Mentions(WithV6(text)), "br-lan"); l.Some? && l.value.kind == Kernel.Bridge
  {
    var c := WithV6(text);
    var n := c.networks[0];
    assert Init(c.wans) == [] && Init(c.networks) == [];
    assert c.wans[0].iface == "eth0" != "br-lan";
    var wan := DesiredLink("eth0", Kernel.Ether, "", "", 0, 0, true);
    assert WanLinks(c.wans) == [wan] && TunLinks(c.tunnels) == [];
    assert MemberLinks(n.members, "br-lan") == [];
    assert NetLinks(c, c.networks) == [Up("br-lan", Kernel.Bridge, "", 0, "")];
    assert OwnLinks(c, n) == [Up("br-lan", Kernel.Bridge, "", 0, "")];
    assert Mentions(c) == [wan, Up("br-lan", Kernel.Bridge, "", 0, "")];
    assert Mentions(c)[1..] == [Up("br-lan", Kernel.Bridge, "", 0, "")];
  }

  lemma WithV6Valid(text: Spelling)
    ensures Valid(WithV6(text)) && NoBlankMembers(WithV6(text).networks)
  {
    DefaultNetworkClean([], Malformed(text));
    assert WithV6(text).networks == [DefaultConfig().networks[0].(members := [], ipv6Subnet := Malformed(text))];
  }

  /** Validation accepts it without a slash or with a length that is no number; no apply, from any kernel, succeeds. */
  lemma ValidYetNeverApplied(text: Spelling, art: Artifacts, s: Kernel.State, managed: seq<Kernel.Route>,
                             devices: seq<string>)
    requires text == "fd00::1" || text == "fd00::1" + "/" + "x"
    requires Enumerates(devices, Build(WithV6(text), None, art, []).addrs.Keys)
    ensures Valid(WithV6(text)) && NoBlankMembers(WithV6(text).networks)
    ensures !ApplyOutcome(Build(WithV6(text), None, art, []), s, managed, devices).ok
  {
    WithV6Valid(text);
    NotPlain();
    V6Bridge(text);
    var n := WithV6(text).networks[0];
    assert n.iface == "br-lan" && Show(n.ipv6Subnet) == text;
    NeverApplies(WithV6(text), None, art, [], n, s, managed, devices);
  }
}
