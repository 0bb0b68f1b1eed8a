/**
  What an apply does to the kernel, told without the planner's words: kinds, names, fields and texts
  only (router/internal/reconcile/engine.go:140-384, 545-590).
 */
module Reached {
  import opened Wrappers
  import opened Sequences
  import opened Kernel
  import opened AddressText
  import opened Planner
  import opened LinkRun
  import opened LinkConvergence
  import opened LinkPhase
  import opened AddressConvergence
  import opened RouteConvergence
  import opened ServiceConvergence
  import opened Convergence
  import opened ApplyRuns

  ghost predicate Succeeds(d: Desired, s: State, managed: seq<Route>, t: State) {
    WellFormed(d, managed) && Unique(s.links) && Applied(d, s, managed, t) && InterfacesExist(d, View(t.links))
  }

  // ---- links ----

  /** The link is one the desired state has, in another kind, neither of them physical. */
  predicate WrongKind(d: Desired, x: Link) {
    exists l :: l in d.links && l.name == x.name && l.kind != x.kind && l.kind != Ether && x.kind != Ether
  }

  /** The link is a bridge, a tunnel or a VLAN, and no desired link has its name. */
  predicate LeftOver(d: Desired, x: Link) {
    (x.kind == Bridge || x.kind == Wireguard || x.kind == Vlan) && forall l :: l in d.links ==> l.name != x.name
  }

  predicate Deleted(d: Desired, links: seq<Link>, n: string) {
    exists x :: x in links && x.name == n && (LeftOver(d, x) || WrongKind(d, x))
  }

  lemma LeftOverIs(d: Desired, x: Link)
    ensures Obsolete(d, x) <==> LeftOver(d, x)
  {
    ByNameAt(d.links, x.name);
  }

  /** The plan deletes exactly the left-over links and those of a wrong kind. */
  lemma DeletesExactly(d: Desired, links: seq<Link>, n: string)
    requires Unique(links)
    ensures (exists c :: c in LinkPlan(d, links) && c.action == LinkDel(n)) <==> Deleted(d, links, n)
  {
    var m := View(links);
    PlanShape(d, links);
    if n in m { LeftOverIs(d, m[n]); }
    ViewNames(links, n);
    if x :| x in links && x.name == n && (LeftOver(d, x) || WrongKind(d, x)) {
      ViewIn(links, x);
      if !LeftOver(d, x) {
        var l :| l in d.links && l.name == x.name && l.kind != x.kind && l.kind != Ether && x.kind != Ether;
        assert IsRecreated(m, l);
      }
    }
    if DeletedDev(d, m, n) {
      assert m[n] in links && (LeftOver(d, m[n]) || WrongKind(d, m[n]));
      assert Must(LinkDel(n)) in LinkPlan(d, links);
    }
    forall c | c in LinkPlan(d, links) && c.action == LinkDel(n) ensures DeletedDev(d, m, n) {
      assert LinkOnly(c) && c == Must(LinkDel(n));
    }
  }

  /** Kind, master, state and MTU of a desired link are as desired; a VLAN's MTU only if one is asked for. */
  predicate AsAsked(d: Desired, l: DesiredLink, x: Link) {
    && x.name == l.name
    && (x.kind == l.kind || x.kind == Ether || l.kind == Ether)
    && x.master == l.master
    && x.up == (l.up || (l.kind == Ether && l.name in d.wanIfaces))
    && (l.kind == Vlan && l.mtu > 0 ==> x.mtu == l.mtu)
  }

  /** After a successful apply every desired link is there as asked, and every bridge, tunnel or VLAN is desired. */
  lemma LinksReached(d: Desired, s: State, managed: seq<Route>, t: State)
    requires Succeeds(d, s, managed, t)
    ensures forall l :: l in d.links ==> exists x :: x in t.links && AsAsked(d, l, x)
    ensures forall x :: x in t.links && (x.kind == Bridge || x.kind == Wireguard || x.kind == Vlan) ==>
      exists l :: l in d.links && l.name == x.name
  {
    var s1, s2 := Phases(d, s, managed, t);
    LinksAndAddressesReached(d, s, managed, t);
    forall l | l in d.links ensures exists x :: x in t.links && AsAsked(d, l, x) {
      var i :| 0 <= i < |d.links| && d.links[i] == l;
      ViewNames(t.links, l.name);
      assert Done(d, d.links[i], View(t.links)[l.name]);
    }
    forall x | x in t.links && (x.kind == Bridge || x.kind == Wireguard || x.kind == Vlan)
      ensures exists l :: l in d.links && l.name == x.name
    {
      ViewIn(t.links, x);
      LeftOverIs(d, x);
    }
  }

  // ---- addresses ----

  /** The kernel shows this address on this device. */
  ghost predicate ShowsOn(links: seq<Link>, n: string, a: string) {
    exists x, y :: x in links && x.name == n && y in x.addrs && ReadBack(y) == Some(a)
  }

  lemma ShowsIs(links: seq<Link>, n: string, a: string)
    requires Unique(links)
    ensures ShowsOn(links, n, a) <==> n in View(links) && a in Reports(View(links)[n].addrs)
  {
    ViewNames(links, n);
    if x, y :| x in links && x.name == n && y in x.addrs && ReadBack(y) == Some(a) {
      ViewIn(links, x);
      ReportsHas(x.addrs, a);
    }
    if n in View(links) { ReportsHas(View(links)[n].addrs, a); }
  }

  lemma StartingShows(d: Desired, s: State, i: nat, a: string)
    requires Unique(s.links) && UniqueNames(d.links) && i < |d.links|
    ensures var l := d.links[i];
      a in Reports(AddrsBefore(l, View(s.links))) <==> ShowsOn(s.links, l.name, a) && !Deleted(d, s.links, l.name)
  {
    ShowsIs(s.links, d.links[i].name, a);
    DeletedDesired(d, s.links, i);
  }

  /** A desired device shows what is wanted, and unless it was replaced all it showed or the link-local of that. */
  lemma AddressesReached(d: Desired, s: State, managed: seq<Route>, t: State, l: DesiredLink, a: string)
    requires Succeeds(d, s, managed, t) && l in d.links && l.name in d.addrs
    ensures ShowsOn(t.links, l.name, a) <==>
      a in d.addrs[l.name]
      || (ShowsOn(s.links, l.name, a) && !Deleted(d, s.links, l.name) && (l.name !in d.dropAddrs || "fe80:" <= a))
  {
    var s1, s2 := Phases(d, s, managed, t);
    var i :| 0 <= i < |d.links| && d.links[i] == l;
    StartingShows(d, s, i, a);
    ShowsIs(t.links, l.name, a);
    LinksAndAddressesReached(d, s, managed, t);
    OneReached(d, l, View(s.links), View(t.links)[l.name].addrs, a);
  }

  lemma OneReached(d: Desired, l: DesiredLink, m: Links, now: seq<string>, a: string)
    requires l.name in d.addrs && AddrsAre(d, l.name, AddrsBefore(l, m), now)
    ensures a in Reports(now) <==>
      a in d.addrs[l.name] || (a in Reports(AddrsBefore(l, m)) && (l.name !in d.dropAddrs || "fe80:" <= a))
  {}

  lemma DeletedDesired(d: Desired, links: seq<Link>, i: nat)
    requires Unique(links) && UniqueNames(d.links) && i < |d.links|
    ensures Deleted(d, links, d.links[i].name) <==> IsRecreated(View(links), d.links[i])
  {
    var n := d.links[i].name;
    ViewNames(links, n);
    if x :| x in links && x.name == n && (LeftOver(d, x) || WrongKind(d, x)) {
      ViewIn(links, x);
      var l :| l in d.links && l.name == x.name && l.kind != x.kind && l.kind != Ether && x.kind != Ether;
      assert l == d.links[i];
    }
    if IsRecreated(View(links), d.links[i]) { assert WrongKind(d, View(links)[n]); }
  }

  // ---- routes ----

  /** A route the link pass leaves: it was there, and its device is not deleted. */
  predicate Left(d: Desired, s: State, r: Route) { r in s.routes && !Deleted(d, s.links, r.dev) }

  /** A left route is seen under this destination; the kernel's short spelling of the default route counts. */
  predicate Seen(d: Desired, s: State, dst: string, via: string, dev: string) {
    exists r :: r in s.routes && Left(d, s, r) && r.via == via && r.dev == dev
      && (r.dst == dst || (r.dst == "default" && dst == "0.0.0.0/0"))
  }

  /** A managed route nothing desired stands for any more, and that is seen. */
  predicate Unwanted(d: Desired, s: State, q: Route) {
    && (forall w :: w in d.routes ==> !(w.dst == q.dst && w.dev == q.dev && (q.via == "" || w.via == q.via)))
    && Seen(d, s, q.dst, q.via, q.dev)
  }

  /** A desired route not seen, with its own metric. */
  predicate New(d: Desired, s: State, r: Route) {
    exists w :: w in d.routes && r == Route(w.dst, w.via, w.dev, w.metric) && !Seen(d, s, w.dst, w.via, w.dev)
  }

  /** An unwanted managed route's destination, and its gateway and device if it has them, match. */
  predicate Taken(d: Desired, s: State, managed: seq<Route>, r: Route) {
    exists q :: q in managed && Unwanted(d, s, q)
      && r.dst == q.dst && (q.via == "" || r.via == q.via) && (q.dev == "" || r.dev == q.dev)
  }

  lemma NewIs(d: Desired, s: State, r: Route)
    requires Unique(s.links) && forall w :: w in d.routes ==> w.dst != "default"
    ensures Added(d.routes, Normals(Surviving(d, s)), r) <==> New(d, s, r)
  {
    forall w | w in d.routes
      ensures HasRoute(Normals(Surviving(d, s)), w.dst, w.via, w.dev) <==> Seen(d, s, w.dst, w.via, w.dev)
    {
      SeenIs(d, s, w.dst, w.via, w.dev);
    }
  }

  lemma TakenIs(d: Desired, s: State, managed: seq<Route>, r: Route)
    requires Unique(s.links) && forall q :: q in managed ==> q.dst != "default"
    ensures Swept(d.routes, Normals(Surviving(d, s)), managed, r) <==> Taken(d, s, managed, r)
  {
    forall q | q in managed ensures IsStale(d.routes, Normals(Surviving(d, s)), q) <==> Unwanted(d, s, q) {
      SeenIs(d, s, q.dst, q.via, q.dev);
      UnwantedIs(d, s, q);
    }
  }

  lemma UnwantedIs(d: Desired, s: State, q: Route)
    ensures Unwanted(d, s, q) <==> !DesiredHas(d.routes, q) && Seen(d, s, q.dst, q.via, q.dev)
  {}

  /**
    The routes after a successful apply: those left and the new ones, less those an unwanted managed
    route takes with it.
   */
  lemma RoutesReached(d: Desired, s: State, managed: seq<Route>, t: State, r: Route)
    requires Succeeds(d, s, managed, t)
    ensures r in t.routes <==> (Left(d, s, r) || New(d, s, r)) && !Taken(d, s, managed, r)
  {
    RouteEffect(d, s, managed, t);
    LeftIs(d, s, r);
    NewIs(d, s, r);
    TakenIs(d, s, managed, r);
  }

  lemma DeletedIs(d: Desired, links: seq<Link>, n: string)
    requires Unique(links)
    ensures DeletedDev(d, View(links), n) <==> Deleted(d, links, n)
  {
    DeletesExactly(d, links, n);
    PlanShape(d, links);
    if c :| c in LinkPlan(d, links) && c.action == LinkDel(n) { assert LinkOnly(c) && c == Must(LinkDel(n)); }
  }

  lemma LeftIs(d: Desired, s: State, r: Route)
    requires Unique(s.links)
    ensures r in Surviving(d, s) <==> Left(d, s, r)
  {
    DeletedIs(d, s.links, r.dev);
  }

  lemma SeenIs(d: Desired, s: State, dst: string, via: string, dev: string)
    requires Unique(s.links) && dst != "default"
    ensures HasRoute(Normals(Surviving(d, s)), dst, via, dev) <==> Seen(d, s, dst, via, dev)
  {
    var left := Surviving(d, s);
    ObservedAs(left, dst, via, dev);
    forall r ensures r in left <==> Left(d, s, r) { LeftIs(d, s, r); }
  }

  // ---- ruleset, files, tunnels ----

  predicate White(c: char) { c in {' ', '\t', '\n', '\r', '\U{0B}', '\U{0C}'} }

  /** The text is this core with nothing but white space before and after it. */
  ghost predicate Padded(x: string, core: string) {
    exists i, j :: 0 <= i <= j <= |x| && x[i..j] == core && forall k :: 0 <= k < i || j <= k < |x| ==> White(x[k])
  }

  ghost predicate SameBody(x: string, y: string) { exists core :: Padded(x, core) && Padded(y, core) }

  lemma {:induction false} TrimLeftParts(s: string)
    ensures |TrimLeft(s)| <= |s| && s == s[..|s| - |TrimLeft(s)|] + TrimLeft(s)
    ensures forall c :: c in s[..|s| - |TrimLeft(s)|] ==> White(c)
  {
    if s != "" && IsSpace(s[0]) {
      TrimLeftParts(s[1..]);
      var k := |s| - |TrimLeft(s)|;
      assert s[..k] == [s[0]] + s[1..][..k - 1];
    }
  }

  lemma {:induction false} TrimRightParts(s: string)
    ensures |TrimRight(s)| <= |s| && s == TrimRight(s) + s[|TrimRight(s)|..]
    ensures forall c :: c in s[|TrimRight(s)|..] ==> White(c)
  {
    if s != "" && IsSpace(s[|s| - 1]) {
      var init := s[..|s| - 1];
      TrimRightParts(init);
      var k := |TrimRight(s)|;
      assert s[k..] == init[k..] + [s[|s| - 1]];
    }
  }

  /** Trimming takes white space from both ends and nothing else. */
  lemma TrimPads(s: string)
    ensures Padded(s, TrimSpace(s))
  {
    var l := TrimLeft(s);
    TrimLeftParts(s);
    TrimRightParts(l);
    var i := |s| - |l|;
    var j := i + |TrimRight(l)|;
    assert l == s[i..];
    assert s[i..j] == TrimRight(l);
    forall k | 0 <= k < i ensures White(s[k]) { assert s[k] in s[..i]; }
    forall k | j <= k < |s| ensures White(s[k]) { assert s[k] == l[k - i] && l[k - i] in l[|TrimRight(l)|..]; }
  }

  /** The ruleset, the two files and the tunnels after a successful apply. */
  lemma ServicesReached(d: Desired, s: State, managed: seq<Route>, t: State)
    requires Succeeds(d, s, managed, t)
    ensures var live := s.ruleset.Ruleset? && s.ruleset.marker == d.ruleset.marker;
      d.ruleset.Ruleset? && t.ruleset == if live then s.ruleset else d.ruleset
    ensures forall path :: path !in {"/etc/dnsmasq.d/router.conf", "/etc/systemd/system/routerd-dnsmasq.service"} ==>
      (path in t.files <==> path in s.files) && (path in t.files ==> t.files[path] == s.files[path])
    ensures d.dnsmasqConf != "" ==>
      "/etc/dnsmasq.d/router.conf" in t.files && t.files["/etc/dnsmasq.d/router.conf"] == d.dnsmasqConf
    ensures "/etc/systemd/system/routerd-dnsmasq.service" in t.files
      && t.files["/etc/systemd/system/routerd-dnsmasq.service"] == UNIT_TEXT
    ensures forall l :: l in d.links && l.kind == Wireguard && l.name in d.wgConf ==>
      SameBody(if l.name in t.wgConf then t.wgConf[l.name] else "", d.wgConf[l.name])
  {
    var s1, s2 := Phases(d, s, managed, t);
    RoutesAfterLinks(d, s);
    TunnelsExist(d, s2.links);
    TailRun(d, s2, managed);
    TailEmpty(d, t, managed);
    ApplyRuns.ServicesReached(d, s, managed, t);
    Paths();
    forall l | l in d.links && l.kind == Wireguard && l.name in d.wgConf
      ensures SameBody(if l.name in t.wgConf then t.wgConf[l.name] else "", d.wgConf[l.name])
    {
      TrimPads(Lookup(t.wgConf, l.name));
      TrimPads(d.wgConf[l.name]);
    }
  }

  lemma Paths()
    ensures CONF_PATH == "/etc/dnsmasq.d/router.conf" && UNIT_PATH == "/etc/systemd/system/routerd-dnsmasq.service"
    ensures UNIT_PATH != CONF_PATH
  {
    assert UNIT_PATH[5] != CONF_PATH[5];
  }

  // ---- the service manager ----

  /** What a command asks of the service manager, reloading its own files aside. */
  function AskedBy(c: Command): seq<string> {
    if c.action.Systemctl? && c.action.verb != "daemon-reload" then [c.action.verb + " " + c.action.unit] else []
  }

  function Asked(cs: seq<Command>): seq<string> { if cs == [] then [] else AskedBy(cs[0]) + Asked(cs[1..]) }

  lemma StepAsks(s: State, c: Command)
    ensures var t := Step(s, c.action);
      if t.Some? then t.value.services == s.services + AskedBy(c) else AskedBy(c) == []
  {}

  lemma {:induction false} AskedRun(s: State, cs: seq<Command>)
    ensures Execute(s, cs).ok ==> Execute(s, cs).state.services == s.services + Asked(cs)
    decreases |cs|
  {
    if cs != [] {
      var t := Step(s, cs[0].action);
      StepAsks(s, cs[0]);
      AskedRun(if t.Some? then t.value else s, cs[1..]);
    }
  }

  lemma {:induction false} AskedAppend(a: seq<Command>, b: seq<Command>)
    ensures Asked(a + b) == Asked(a) + Asked(b)
  {
    if a == [] {
      assert a + b == b;
    } else {
      assert (a + b)[1..] == a[1..] + b;
      AskedAppend(a[1..], b);
    }
  }

  lemma {:induction false} AskedNothing(cs: seq<Command>)
    requires forall c :: c in cs ==> !c.action.Systemctl?
    ensures Asked(cs) == []
  {
    if cs != [] {
      assert cs[0] in cs;
      AskedNothing(cs[1..]);
    }
  }

  /** What the service manager is asked for the DHCP service. */
  function Requests(d: Desired, files: map<string, string>): seq<string> {
    var changed := d.dnsmasqConf != "" && !("/etc/dnsmasq.d/router.conf" in files
                                            && files["/etc/dnsmasq.d/router.conf"] == d.dnsmasqConf);
    var unit := "/etc/systemd/system/routerd-dnsmasq.service" in files
                && files["/etc/systemd/system/routerd-dnsmasq.service"] == UNIT_TEXT;
    (if changed then ["reload-or-restart routerd-dnsmasq"] else [])
    + if changed || (d.dnsmasqConf != "" && !unit) then ["enable routerd-dnsmasq"] else []
  }

  lemma UnitAsks(files: map<string, string>)
    ensures Asked(UnitCommands(files)) == []
  {
    var w, r := Must(WriteFile(UNIT_PATH, UNIT_TEXT)), Must(Systemctl("daemon-reload", ""));
    assert [w, r][1..] == [r] && [r][1..] == [];
    assert Asked([r]) == [];
    assert Asked([w, r]) == [];
  }

  lemma ReloadAsks()
    ensures Asked([Must(Systemctl("reload-or-restart", SERVICE))]) == ["reload-or-restart routerd-dnsmasq"]
  {
    var r := Must(Systemctl("reload-or-restart", SERVICE));
    assert [r][1..] == [] && "reload-or-restart" + " " + SERVICE == "reload-or-restart routerd-dnsmasq";
  }

  lemma WritesAsk(d: Desired, files: map<string, string>)
    ensures Asked(WritePart(d, files)) == if ConfStale(d, files) then ["reload-or-restart routerd-dnsmasq"] else []
  {
    var w, u, r :=
      [Must(WriteFile(CONF_PATH, d.dnsmasqConf))], UnitCommands(files), [Must(Systemctl("reload-or-restart", SERVICE))];
    UnitAsks(files);
    if ConfStale(d, files) {
      ReloadAsks();
      AskedNothing(w);
      AskedAppend(w, u);
      AskedAppend(w + u, r);
    }
  }

  /** The part of the plan that enables the service. */
  function EnablePart(d: Desired, files: map<string, string>): seq<Command> {
    if d.dnsmasqConf != "" && (ConfStale(d, files) || !FileIs(files, UNIT_PATH, UNIT_TEXT))
    then [Try(Systemctl("enable", SERVICE))] else []
  }

  lemma EnableAsks(d: Desired, files: map<string, string>)
    ensures Asked(EnablePart(d, files)) == if EnablePart(d, files) == [] then [] else ["enable routerd-dnsmasq"]
  {
    var e := Try(Systemctl("enable", SERVICE));
    assert [e][1..] == [] && "enable" + " " + SERVICE == "enable routerd-dnsmasq";
  }

  lemma DnsmasqAsks(d: Desired, files: map<string, string>)
    ensures Asked(DnsmasqPlan(d, files)) == Requests(d, files)
  {
    assert DnsmasqPlan(d, files) == WritePart(d, files) + EnablePart(d, files);
    AskedAppend(WritePart(d, files), EnablePart(d, files));
    WritesAsk(d, files);
    EnableAsks(d, files);
    Paths();
  }

  lemma TailAsks(d: Desired, s: State, managed: seq<Route>)
    ensures Asked(TailPlan(d, s, managed)) == Requests(d, s.files)
  {
    var rs := Normals(s.routes);
    MissingShape(d.routes, rs);
    StaleShape(d.routes, rs, managed);
    WgShape(d, d.links, s.wgConf);
    var a, b, c, e := RoutePlan(d, rs, managed), FirewallPlan(d, s.ruleset), DnsmasqPlan(d, s.files),
      WgPlan(d, d.links, s.wgConf);
    AskedNothing(a);
    AskedNothing(b);
    AskedNothing(e);
    DnsmasqAsks(d, s.files);
    AskedAppend(c, e);
    AskedAppend(b, c + e);
    AskedAppend(a, b + (c + e));
  }

  lemma LinksAsk(d: Desired, s: State, order: seq<string>)
    requires Unique(s.links) && Enumerates(order, d.addrs.Keys)
    ensures Asked(LinkPlan(d, s.links)) == [] && Asked(AddrPlan(d, View(s.links), order)) == []
  {
    PlanShape(d, s.links);
    forall c | c in LinkPlan(d, s.links) ensures !c.action.Systemctl? { assert LinkOnly(c); }
    AskedNothing(LinkPlan(d, s.links));
    AddrPlanOnly(d, View(s.links), order);
    AskedNothing(AddrPlan(d, View(s.links), order));
  }

  /** A successful apply has the service reloaded exactly if its file changed, and enabled if file or unit did. */
  lemma ServiceAsked(d: Desired, s: State, managed: seq<Route>, t: State)
    requires Succeeds(d, s, managed, t)
    ensures t.services == s.services + Requests(d, s.files)
  {
    var order :| Enumerates(order, d.addrs.Keys) && ApplyOutcome(d, s, managed, order) == Outcome(t, true);
    var s1 := Execute(s, LinkPlan(d, s.links)).state;
    ExecuteLinks(s, LinkPlan(d, s.links));
    RoutesAfterLinks(d, s);
    AddressPhase(d, s1, order);
    var s2 := Execute(s1, AddrPlan(d, View(s1.links), order)).state;
    LinksAsk(d, s, order);
    LinksAsk(d, s1, order);
    TailAsks(d, s2, managed);
    AskedRun(s, LinkPlan(d, s.links));
    AskedRun(s1, AddrPlan(d, View(s1.links), order));
    AskedRun(s2, TailPlan(d, s2, managed));
  }

  /** ... and not before the file is written. */
  lemma ReloadedAfterWriting(d: Desired, s: State, k: nat)
    requires k < |DnsmasqPlan(d, s.files)|
    requires DnsmasqPlan(d, s.files)[k].action == Systemctl("reload-or-restart", "routerd-dnsmasq")
    ensures var files := Execute(s, DnsmasqPlan(d, s.files)[..k]).state.files;
      d.dnsmasqConf != "" && "/etc/dnsmasq.d/router.conf" in files
      && files["/etc/dnsmasq.d/router.conf"] == d.dnsmasqConf
  {
    var cs := DnsmasqPlan(d, s.files);
    var w := Must(WriteFile(CONF_PATH, d.dnsmasqConf));
    Paths();
    assert ConfStale(d, s.files) && cs[0] == w && k > 0;
    assert cs[..k] == [w] + cs[1..k];
    ExecuteAppend(s, [w], cs[1..k]);
    assert [w][1..] == [];
    var s1 := s.(files := s.files[CONF_PATH := d.dnsmasqConf]);
    assert Execute(s, [w]) == Outcome(s1, true);
    PlanWritten(d, s.files);
    assert OnlyFiles(cs[1..k]);
    FilesRun(s1, cs[1..k]);
    WrittenKeeps(s1.files, cs[1..k], CONF_PATH, d.dnsmasqConf);
  }

  lemma {:induction false} WrittenKeeps(files: map<string, string>, cs: seq<Command>, path: string, text: string)
    requires path in files && files[path] == text
    requires forall c :: c in cs && c.action.WriteFile? && c.action.path == path ==> c.action.data == text
    ensures path in Written(files, cs) && Written(files, cs)[path] == text
    decreases |cs|
  {
    if cs != [] {
      assert cs[0] in cs;
      WrittenKeeps(if cs[0].action.WriteFile? then files[cs[0].action.path := cs[0].action.data] else files, cs[1..],
                   path, text);
    }
  }
}
