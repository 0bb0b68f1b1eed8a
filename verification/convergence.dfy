/**
  A whole `Apply` on the kernel (router/internal/reconcile/engine.go:492-590):
  exactly when it converges, what it leaves behind, and what a second one does.
 */
module Convergence {
  import opened Wrappers
  import opened Sequences
  import opened Kernel
  import opened Planner
  import opened LinkRun
  import opened LinkConvergence
  import opened LinkLimits
  import opened LinkPhase
  import opened AddressConvergence
  import opened RouteConvergence
  import opened ServiceConvergence

  ghost predicate WellFormed(d: Desired, managed: seq<Route>) {
    WellFormedLinks(d.links) && CanonicalRoutes(d.routes, managed) && Marks(d)
  }

  function TailPlan(d: Desired, s: State, managed: seq<Route>): seq<Command> {
    RoutePlan(d, Normals(s.routes), managed) + (FirewallPlan(d, s.ruleset) + ServicePlan(d, s.files, s.wgConf))
  }

  ghost predicate Verified(d: Desired, s: State, managed: seq<Route>) {
    LinkPlan(d, s.links) == [] && AddrsSettled(d, View(s.links)) && TailPlan(d, s, managed) == []
  }

  /** Links, then addresses, then everything planned on what is observed after those, then verification. */
  ghost function ApplyOutcome(d: Desired, s: State, managed: seq<Route>, order: seq<string>): Outcome
    requires forall dev :: dev in order ==> dev in d.addrs
  {
    if !InterfacesExist(d, View(s.links)) then Outcome(s, false)
    else
      var o1 := Execute(s, LinkPlan(d, s.links));
      if !o1.ok then o1
      else
        var o2 := Execute(o1.state, AddrPlan(d, View(o1.state.links), order));
        if !o2.ok then o2
        else
          var o3 := Execute(o2.state, TailPlan(d, o2.state, managed));
          Outcome(o3.state, o3.ok && Verified(d, o3.state, managed))
  }

  /** What a successful apply records as its own routes. */
  function ManagedOf(ws: seq<DesiredRoute>): (out: seq<Route>)
    ensures |out| == |ws| && forall i :: 0 <= i < |ws| ==> out[i] == RouteOf(ws[i])
  {
    if ws == [] then [] else [RouteOf(ws[0])] + ManagedOf(ws[1..])
  }

  // ---- routes, whatever their order ----

  /** The route condition depends on which routes there are, not on their order. */
  lemma SameRoutes(ws: seq<DesiredRoute>, a: seq<Route>, b: seq<Route>, managed: seq<Route>)
    requires CanonicalRoutes(ws, managed) && forall r :: r in a <==> r in b
    ensures RoutesConvergible(ws, a, managed) <==> RoutesConvergible(ws, b, managed)
  {
    forall dst, via, dev ensures HasRoute(a, dst, via, dev) <==> HasRoute(b, dst, via, dev) {}
    forall q | q in managed ensures IsStale(ws, Normals(a), q) <==> IsStale(ws, Normals(b), q) {
      ObservedAs(a, q.dst, q.via, q.dev);
      ObservedAs(b, q.dst, q.via, q.dev);
    }
  }

  // ---- the tail ----

  /** Routes, firewall and services, once every desired tunnel exists. */
  lemma TailRun(d: Desired, s: State, managed: seq<Route>)
    requires Marks(d) && forall l :: l in d.links && l.kind == Wireguard ==> l.name in View(s.links)
    ensures var o := Execute(s, TailPlan(d, s, managed)); var rs := Normals(s.routes);
      && o.ok && o.state.links == s.links
      && o.state.routes == Execute(s, RoutePlan(d, rs, managed)).state.routes
      && o.state.ruleset == (if Loaded(d, s.ruleset) then s.ruleset else d.ruleset)
      && o.state.files == WantedFiles(d, s.files)
      && WgSynced(d, s.wgConf, o.state.wgConf)
      && FirewallPlan(d, o.state.ruleset) == [] && ServicePlan(d, o.state.files, o.state.wgConf) == []
  {
    var a, b, c :=
      RoutePlan(d, Normals(s.routes), managed), FirewallPlan(d, s.ruleset), ServicePlan(d, s.files, s.wgConf);
    ExecuteAppend(s, a, b + c);
    RoutePlanRun(d, s, managed);
    var s1 := Execute(s, a).state;
    ExecuteAppend(s1, b, c);
    FirewallRun(d, s1);
    ServicesRun(d, Execute(s1, b).state);
  }

  lemma TailEmpty(d: Desired, s: State, managed: seq<Route>)
    ensures TailPlan(d, s, managed) == [] <==>
      RoutePlan(d, Normals(s.routes), managed) == [] && FirewallPlan(d, s.ruleset) == []
        && ServicePlan(d, s.files, s.wgConf) == []
  {
    var a, b, c :=
      RoutePlan(d, Normals(s.routes), managed), FirewallPlan(d, s.ruleset), ServicePlan(d, s.files, s.wgConf);
    assert a + (b + c) == [] <==> a == [] && b == [] && c == [];
  }

  /** Whether the links are settled does not depend on their addresses. */
  lemma SettledIgnoresAddrs(d: Desired, a: seq<Link>, b: seq<Link>)
    requires UniqueNames(d.links) && Unique(a) && Unique(b) && View(a).Keys == View(b).Keys
    requires forall n :: n in View(a) ==> SameLink(View(a)[n], View(b)[n])
    ensures LinksSettled(d, a) <==> LinksSettled(d, b)
  {
    SettledMeans(d, a);
    SettledMeans(d, b);
    ObsoleteByName(d, a);
    ObsoleteByName(d, b);
    forall n | n in View(a) ensures View(a)[n].kind == View(b)[n].kind && View(a)[n].name == View(b)[n].name {
      assert SameLink(View(a)[n], View(b)[n]);
    }
    forall i | 0 <= i < |d.links| && d.links[i].name in View(a)
      ensures Done(d, d.links[i], View(a)[d.links[i].name]) <==> Done(d, d.links[i], View(b)[d.links[i].name])
    {
      assert SameLink(View(a)[d.links[i].name], View(b)[d.links[i].name]);
    }
  }

  lemma ObsoleteByName(d: Desired, links: seq<Link>)
    requires Unique(links)
    ensures (forall i :: 0 <= i < |links| ==> !Obsolete(d, links[i])) <==>
      forall n :: n in View(links) ==> !Obsolete(d, View(links)[n])
  {
    if i :| 0 <= i < |links| && Obsolete(d, links[i]) {
      ViewIn(links, links[i]);
      assert Obsolete(d, View(links)[links[i].name]);
    }
    if n :| n in View(links) && Obsolete(d, View(links)[n]) {
      ViewNames(links, n);
      var i :| 0 <= i < |links| && links[i] == View(links)[n];
      assert Obsolete(d, links[i]);
    }
  }

  // ---- full convergence ----

  /** The address pass plans for this device. */
  predicate Planned(d: Desired, m: Links, dev: string) { ByName(d.links, dev).Some? || Remains(d, m, dev) }

  /** Every address wanted on a planned device is an address, a slash and a plain decimal length. */
  ghost predicate AddressesPlain(d: Desired, m: Links) {
    forall dev :: dev in d.addrs && Planned(d, m, dev) ==> WantsPlain(d, dev)
  }

  /** What the kernel needs for everything but wanted addresses. */
  ghost predicate KernelConvergible(d: Desired, s: State, managed: seq<Route>) {
    && InterfacesExist(d, View(s.links))
    && LinksConvergible(d, s.links)
    && (forall dev :: dev in d.addrs && Planned(d, View(s.links), dev) ==>
      Tidy(d, dev, Starting(d, View(s.links), dev)))
    && RoutesConvergible(d.routes, Surviving(d, s), managed)
  }

  /** Everything a caller can check before applying. */
  ghost predicate Convergible(d: Desired, s: State, managed: seq<Route>) {
    AddressesPlain(d, View(s.links)) && KernelConvergible(d, s, managed)
  }

  /** The address condition after the link pass, from before it. */
  lemma AddressesBefore(d: Desired, s: State)
    requires WellFormedLinks(d.links) && Unique(s.links) && Execute(s, LinkPlan(d, s.links)).ok
    requires forall i :: 0 <= i < |d.links| ==> d.links[i].name in View(Execute(s, LinkPlan(d, s.links)).state.links)
    ensures var m, m1 := View(s.links), View(Execute(s, LinkPlan(d, s.links)).state.links);
      AddrsConvergible(d, m1) <==>
      AddressesPlain(d, m) && forall dev :: dev in d.addrs && Planned(d, m, dev) ==> Tidy(d, dev, Starting(d, m, dev))
  {
    forall dev | dev in d.addrs
      ensures var m, m1 := View(s.links), View(Execute(s, LinkPlan(d, s.links)).state.links);
        (dev in m1 <==> Planned(d, m, dev)) && (dev in m1 ==> m1[dev].addrs == Starting(d, m, dev))
    {
      StartsAs(d, s, dev);
    }
  }

  lemma AddressPhase(d: Desired, s: State, order: seq<string>)
    requires UniqueNames(d.links) && Unique(s.links) && Enumerates(order, d.addrs.Keys)
    requires Execute(s, AddrPlan(d, View(s.links), order)).ok
    ensures var t := Execute(s, AddrPlan(d, View(s.links), order)).state;
      Unique(t.links) && t == s.(links := t.links) && View(t.links).Keys == View(s.links).Keys
      && (LinksSettled(d, t.links) <==> LinksSettled(d, s.links))
  {
    var cs := AddrPlan(d, View(s.links), order);
    AddrPlanOnly(d, View(s.links), order);
    ExecuteLinks(s, cs);
    AddrsKeepLinks(View(s.links), cs);
    AddrsFrame(s, cs);
    SettledIgnoresAddrs(d, Execute(s, cs).state.links, s.links);
  }

  lemma ConvergesWhen(d: Desired, s: State, managed: seq<Route>, order: seq<string>)
    requires WellFormed(d, managed) && Unique(s.links) && Enumerates(order, d.addrs.Keys)
    requires Convergible(d, s, managed)
    ensures var o := ApplyOutcome(d, s, managed, order);
      o.ok && Unique(o.state.links) && InterfacesExist(d, View(o.state.links))
  {
    LinkPassConverges(d, s);
    var s1 := Execute(s, LinkPlan(d, s.links)).state;
    ExecuteLinks(s, LinkPlan(d, s.links));
    SettledMeans(d, s1.links);
    RoutesAfterLinks(d, s);
    AddressesBefore(d, s);
    AddressesExact(d, s1, order);
    AddressPhase(d, s1, order);
    var s2 := Execute(s1, AddrPlan(d, View(s1.links), order)).state;
    SameRoutes(d.routes, s2.routes, Surviving(d, s), managed);
    TailRun(d, s2, managed);
    RoutePassConverges(d, s2, managed);
    TailEmpty(d, Execute(s2, TailPlan(d, s2, managed)).state, managed);
  }

  /** The kernel after the link pass and after the address pass of a successful apply. */
  lemma PassesSettle(d: Desired, s: State, managed: seq<Route>, order: seq<string>) returns (s1: State, s2: State)
    requires WellFormed(d, managed) && Unique(s.links) && Enumerates(order, d.addrs.Keys)
    requires var o := ApplyOutcome(d, s, managed, order); o.ok && InterfacesExist(d, View(o.state.links))
    ensures Execute(s, LinkPlan(d, s.links)) == Outcome(s1, true) && Unique(s1.links) && LinksSettled(d, s1.links)
    ensures Execute(s1, AddrPlan(d, View(s1.links), order)) == Outcome(s2, true) && Unique(s2.links)
    ensures s2 == s1.(links := s2.links) && AddrsSettled(d, View(s2.links)) && LinksSettled(d, s2.links)
    ensures var o := Execute(s2, TailPlan(d, s2, managed)); o.ok && TailPlan(d, o.state, managed) == []
  {
    s1 := Execute(s, LinkPlan(d, s.links)).state;
    ExecuteLinks(s, LinkPlan(d, s.links));
    AddressPhase(d, s1, order);
    s2 := Execute(s1, AddrPlan(d, View(s1.links), order)).state;
    TailKeepsLinks(d, s2, managed);
    assert LinksSettled(d, s2.links);
  }

  lemma RoutesNeeded(d: Desired, s: State, s2: State, managed: seq<Route>)
    requires WellFormed(d, managed) && Unique(s2.links) && LinksSettled(d, s2.links)
    requires forall r :: r in s2.routes <==> r in Surviving(d, s)
    requires var o := Execute(s2, TailPlan(d, s2, managed)); o.ok && TailPlan(d, o.state, managed) == []
    ensures RoutesConvergible(d.routes, Surviving(d, s), managed)
  {
    SettledMeans(d, s2.links);
    TailRun(d, s2, managed);
    TailEmpty(d, Execute(s2, TailPlan(d, s2, managed)).state, managed);
    RoutePassConverges(d, s2, managed);
    SameRoutes(d.routes, s2.routes, Surviving(d, s), managed);
  }

  lemma AddressesNeeded(d: Desired, s: State, s1: State, s2: State, order: seq<string>)
    requires WellFormedLinks(d.links) && Unique(s.links) && Unique(s1.links) && Enumerates(order, d.addrs.Keys)
    requires Execute(s, LinkPlan(d, s.links)) == Outcome(s1, true) && LinksSettled(d, s1.links)
    requires Execute(s1, AddrPlan(d, View(s1.links), order)) == Outcome(s2, true) && AddrsSettled(d, View(s2.links))
    ensures AddressesPlain(d, View(s.links))
    ensures forall dev :: dev in d.addrs && Planned(d, View(s.links), dev) ==>
      Tidy(d, dev, Starting(d, View(s.links), dev))
  {
    SettledMeans(d, s1.links);
    AddressesBefore(d, s);
    AddressesExact(d, s1, order);
  }

  /** A successful apply whose physical interfaces are still there started from a convergible state. */
  lemma ConvergesOnlyWhen(d: Desired, s: State, managed: seq<Route>, order: seq<string>)
    requires WellFormed(d, managed) && Unique(s.links) && Enumerates(order, d.addrs.Keys)
    requires var o := ApplyOutcome(d, s, managed, order); o.ok && InterfacesExist(d, View(o.state.links))
    ensures Convergible(d, s, managed)
  {
    var s1, s2 := PassesSettle(d, s, managed, order);
    LinkPassConverges(d, s);
    AddressesNeeded(d, s, s1, s2, order);
    RoutesAfterLinks(d, s);
    RoutesNeeded(d, s, s2, managed);
  }

  lemma TailKeepsLinks(d: Desired, s: State, managed: seq<Route>)
    ensures Execute(s, TailPlan(d, s, managed)).state.links == s.links
  {
    TailShape(d, s, managed);
    LinksUntouched(s, TailPlan(d, s, managed));
  }

  predicate BeyondLinks(a: Action) {
    a.RouteReplace? || a.RouteDel? || a.NftDelete? || a.NftLoad? || a.WriteFile? || a.Systemctl? || a.WgSync?
  }

  ghost predicate NoLinkChange(cs: seq<Command>) {
    forall c :: c in cs ==> BeyondLinks(c.action)
  }

  lemma {:induction false} LinksUntouched(s: State, cs: seq<Command>)
    requires NoLinkChange(cs)
    ensures Execute(s, cs).state.links == s.links
    decreases |cs|
  {
    if cs != [] {
      assert cs[0] in cs && NoLinkChange(cs[1..]);
      var t := Step(s, cs[0].action);
      if t.Some? { LinksUntouched(t.value, cs[1..]); } else if cs[0].ignoreErrors { LinksUntouched(s, cs[1..]); }
    }
  }

  lemma {:induction false} MissingShape(ws: seq<DesiredRoute>, rs: seq<Route>)
    ensures forall c :: c in Missing(ws, rs) ==> c.action.RouteReplace?
  {
    if ws != [] { MissingShape(ws[1..], rs); }
  }

  lemma {:induction false} StaleShape(ws: seq<DesiredRoute>, rs: seq<Route>, managed: seq<Route>)
    ensures forall c :: c in Stale(ws, rs, managed) ==> c.action.RouteDel?
  {
    if managed != [] { StaleShape(ws, rs, managed[1..]); }
  }

  lemma {:induction false} WgShape(d: Desired, ls: seq<DesiredLink>, live: map<string, string>)
    ensures forall c :: c in WgPlan(d, ls, live) ==> c.action.WgSync?
  {
    if ls != [] { WgShape(d, ls[1..], live); }
  }

  lemma TailShape(d: Desired, s: State, managed: seq<Route>)
    ensures NoLinkChange(TailPlan(d, s, managed))
  {
    MissingShape(d.routes, Normals(s.routes));
    StaleShape(d.routes, Normals(s.routes), managed);
    WgShape(d, d.links, s.wgConf);
    var a, b, c, e :=
      RoutePlan(d, Normals(s.routes), managed), FirewallPlan(d, s.ruleset), DnsmasqPlan(d, s.files),
        WgPlan(d, d.links, s.wgConf);
    assert NoLinkChange(a) && NoLinkChange(b) && NoLinkChange(c) && NoLinkChange(e);
    JoinNoLinkChange(c, e);
    JoinNoLinkChange(b, c + e);
    JoinNoLinkChange(a, b + (c + e));
  }

  lemma JoinNoLinkChange(a: seq<Command>, b: seq<Command>)
    ensures NoLinkChange(a) && NoLinkChange(b) ==> NoLinkChange(a + b)
  {}

  /**
    Full convergence: one apply succeeds, with the desired physical interfaces still there,
    exactly from the convergible states, in whatever order devices are visited.
   */
  lemma FullConvergence(d: Desired, s: State, managed: seq<Route>, order: seq<string>)
    requires WellFormed(d, managed) && Unique(s.links) && Enumerates(order, d.addrs.Keys)
    ensures var o := ApplyOutcome(d, s, managed, order);
      o.ok && InterfacesExist(d, View(o.state.links)) <==> Convergible(d, s, managed)
  {
    if Convergible(d, s, managed) { ConvergesWhen(d, s, managed, order); }
    var o := ApplyOutcome(d, s, managed, order);
    if o.ok && InterfacesExist(d, View(o.state.links)) { ConvergesOnlyWhen(d, s, managed, order); }
  }
}
