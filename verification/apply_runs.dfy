/** What successful applies leave behind, one after another. */
module ApplyRuns {
  import opened Wrappers
  import opened Sequences
  import opened Kernel
  import opened Planner
  import opened LinkRun
  import opened LinkConvergence
  import opened LinkLimits
  import opened LinkPhase
  import opened AddressConvergence
  import opened RouteConvergence
  import opened ServiceConvergence
  import opened Convergence

  /** One successful apply, in some device order. */
  ghost predicate Applied(d: Desired, s: State, managed: seq<Route>, t: State) {
    exists order :: Enumerates(order, d.addrs.Keys) && ApplyOutcome(d, s, managed, order) == Outcome(t, true)
  }

  // ---- one apply ----

  /** A tunnel that re-planning leaves alone exists. */
  lemma TunnelsExist(d: Desired, links: seq<Link>)
    requires LinkPlan(d, links) == []
    ensures forall l :: l in d.links && l.kind == Wireguard ==> l.name in View(links)
  {
    var m := View(links);
    assert AllLinkCommands(d, d.links, m) == [];
    NoLinkCommands(d, d.links, m);
    forall l | l in d.links && l.kind == Wireguard ensures l.name in m {
      var i :| 0 <= i < |d.links| && d.links[i] == l;
      assert LinkCommands(d, l, Current(m, l.name)) == [];
    }
  }

  /**
    The exact effect on routes: those whose device the link pass kept, and the missing desired ones,
    less everything a stale managed route's deletion matches.
   */
  lemma RouteEffect(d: Desired, s: State, managed: seq<Route>, t: State)
    requires WellFormed(d, managed) && Unique(s.links) && Applied(d, s, managed, t)
    ensures var rs := Normals(Surviving(d, s));
      && Unique(t.links)
      && (forall r :: r in t.routes <==>
           (r in Surviving(d, s) || Added(d.routes, rs, r)) && !Swept(d.routes, rs, managed, r))
      && (forall w :: w in d.routes ==> HasRoute(Normals(t.routes), w.dst, w.via, w.dev))
  {
    var order :| Enumerates(order, d.addrs.Keys) && ApplyOutcome(d, s, managed, order) == Outcome(t, true);
    var s1 := Execute(s, LinkPlan(d, s.links)).state;
    ExecuteLinks(s, LinkPlan(d, s.links));
    RoutesAfterLinks(d, s);
    AddressPhase(d, s1, order);
    var s2 := Execute(s1, AddrPlan(d, View(s1.links), order)).state;
    TailKeepsLinks(d, s2, managed);
    TunnelsExist(d, t.links);
    TailRun(d, s2, managed);
    RoutePlanRun(d, s2, managed);
    SameEffect(d, s2.routes, Surviving(d, s), managed);
    TailEmpty(d, t, managed);
    RoutePlanEmpty(d, Normals(t.routes), managed);
  }

  lemma SameEffect(d: Desired, a: seq<Route>, b: seq<Route>, managed: seq<Route>)
    requires CanonicalRoutes(d.routes, managed) && forall r :: r in a <==> r in b
    ensures forall r :: Added(d.routes, Normals(a), r) <==> Added(d.routes, Normals(b), r)
    ensures forall r :: Swept(d.routes, Normals(a), managed, r) <==> Swept(d.routes, Normals(b), managed, r)
  {
    forall dst, via, dev ensures HasRoute(a, dst, via, dev) <==> HasRoute(b, dst, via, dev) {}
    forall w | w in d.routes
      ensures HasRoute(Normals(a), w.dst, w.via, w.dev) <==> HasRoute(Normals(b), w.dst, w.via, w.dev)
    {
      ObservedAs(a, w.dst, w.via, w.dev);
      ObservedAs(b, w.dst, w.via, w.dev);
    }
    forall q | q in managed ensures IsStale(d.routes, Normals(a), q) <==> IsStale(d.routes, Normals(b), q) {
      ObservedAs(a, q.dst, q.via, q.dev);
      ObservedAs(b, q.dst, q.via, q.dev);
    }
  }

  /** The kernel after the link pass and after the address pass of a successful apply. */
  lemma Phases(d: Desired, s: State, managed: seq<Route>, t: State) returns (s1: State, s2: State)
    requires WellFormed(d, managed) && Unique(s.links) && Applied(d, s, managed, t) && InterfacesExist(d, View(t.links))
    ensures Execute(s, LinkPlan(d, s.links)) == Outcome(s1, true) && Unique(s1.links) && s1.files == s.files
    ensures forall i :: 0 <= i < |d.links| ==> d.links[i].name in View(s1.links)
    ensures View(s2.links).Keys == View(s1.links).Keys && s2 == s1.(links := s2.links) && Unique(s2.links)
    ensures forall n :: n in View(s1.links) ==> SameLink(View(s2.links)[n], View(s1.links)[n])
    ensures forall n :: n in View(s1.links) && n in d.addrs ==>
      AddrsAre(d, n, View(s1.links)[n].addrs, View(s2.links)[n].addrs)
    ensures Execute(s2, TailPlan(d, s2, managed)) == Outcome(t, true) && t.links == s2.links && Verified(d, t, managed)
  {
    var order :| Enumerates(order, d.addrs.Keys) && ApplyOutcome(d, s, managed, order) == Outcome(t, true);
    s1 := Execute(s, LinkPlan(d, s.links)).state;
    ExecuteLinks(s, LinkPlan(d, s.links));
    RoutesAfterLinks(d, s);
    AddressPhase(d, s1, order);
    s2 := Execute(s1, AddrPlan(d, View(s1.links), order)).state;
    TailKeepsLinks(d, s2, managed);
    assert LinksSettled(d, s2.links);
    SettledMeans(d, s1.links);
    AddressesExact(d, s1, order);
  }

  /**
    The target reached: links as desired with no managed link left over, and exact addresses;
    a replaced or new device starts without any.
   */
  lemma LinksAndAddressesReached(d: Desired, s: State, managed: seq<Route>, t: State)
    requires WellFormed(d, managed) && Unique(s.links) && Applied(d, s, managed, t) && InterfacesExist(d, View(t.links))
    ensures var m' := View(t.links);
      && (forall i :: 0 <= i < |d.links| ==> d.links[i].name in m' && Done(d, d.links[i], m'[d.links[i].name]))
      && (forall n :: n in m' ==> !Obsolete(d, m'[n]))
    ensures forall i :: 0 <= i < |d.links| && d.links[i].name in d.addrs ==>
      AddrsAre(d, d.links[i].name, AddrsBefore(d.links[i], View(s.links)), View(t.links)[d.links[i].name].addrs)
  {
    var s1, s2 := Phases(d, s, managed, t);
    assert LinksSettled(d, t.links);
    SettledMeans(d, t.links);
    ObsoleteByName(d, t.links);
    forall i | 0 <= i < |d.links| && d.links[i].name in d.addrs
      ensures AddrsAre(d, d.links[i].name, AddrsBefore(d.links[i], View(s.links)), View(t.links)[d.links[i].name].addrs)
    {
      StartingAddrs(d, s, i);
    }
  }

  /** ... the ruleset loaded, files and tunnels as wanted. */
  lemma ServicesReached(d: Desired, s: State, managed: seq<Route>, t: State)
    requires WellFormed(d, managed) && Unique(s.links) && Applied(d, s, managed, t) && InterfacesExist(d, View(t.links))
    ensures Loaded(d, t.ruleset) && t.files == WantedFiles(d, s.files)
    ensures forall l :: l in d.links && l.kind == Wireguard && l.name in d.wgConf ==>
      TrimSpace(Lookup(t.wgConf, l.name)) == TrimSpace(d.wgConf[l.name])
  {
    var s1, s2 := Phases(d, s, managed, t);
    TunnelsExist(d, s2.links);
    TailRun(d, s2, managed);
    TailEmpty(d, t, managed);
  }

  // ---- where VLANs end up ----

  /** The VLAN is on its parent with its number. */
  predicate Placed(l: DesiredLink, x: Link) { x.parent == l.parent && x.vlanID == l.vlanID }

  predicate Kept(l: DesiredLink, m: Links) { l.name in m && !IsRecreated(m, l) }

  lemma KeptPlace(d: Desired, links: seq<Link>, i: nat)
    requires WellFormedLinks(d.links) && Unique(links) && i < |d.links| && Kept(d.links[i], View(links))
    requires var r := RunView(View(links), LinkPlan(d, links)); r.Some? && d.links[i].name in r.value
    ensures var x, y := View(links)[d.links[i].name], RunView(View(links), LinkPlan(d, links)).value[d.links[i].name];
      y.parent == x.parent && y.vlanID == x.vlanID
  {
    KeptIsNotAdded(d, View(links), i);
    PlanNoAdd(d, links, d.links, d.links[i].name);
    Stable(View(links), LinkPlan(d, links), d.links[i].name);
  }

  lemma NewPlace(d: Desired, links: seq<Link>, i: nat)
    requires WellFormedLinks(d.links) && i < |d.links| && d.links[i].kind == Vlan && !Kept(d.links[i], View(links))
    requires var r := RunView(View(links), LinkPlan(d, links)); r.Some? && d.links[i].name in r.value
    ensures Placed(d.links[i], RunView(View(links), LinkPlan(d, links)).value[d.links[i].name])
  {
    var cs := LinkPlan(d, links);
    var k := CreationAt(d, links, i);
    var m1, m2 := RunThrough(View(links), cs, k);
    Stable(m2, cs[k + 1..], d.links[i].name);
  }

  /**
    Where a desired VLAN ends up: the planner compares neither parent nor number, so one that was
    there before ends right exactly if it was right before; a new or replaced one ends right.
   */
  lemma VlanPlacedExactlyWhen(d: Desired, s: State, managed: seq<Route>, t: State, i: nat)
    requires WellFormed(d, managed) && Unique(s.links) && Applied(d, s, managed, t) && InterfacesExist(d, View(t.links))
    requires i < |d.links| && d.links[i].kind == Vlan
    ensures d.links[i].name in View(t.links)
    ensures var l := d.links[i];
      Placed(l, View(t.links)[l.name]) <==> (Kept(l, View(s.links)) ==> Placed(l, View(s.links)[l.name]))
  {
    var s1, s2 := Phases(d, s, managed, t);
    var n := d.links[i].name;
    ExecuteLinks(s, LinkPlan(d, s.links));
    assert SameLink(View(s2.links)[n], View(s1.links)[n]);
    if Kept(d.links[i], View(s.links)) { KeptPlace(d, s.links, i); } else { NewPlace(d, s.links, i); }
  }

  // ---- a second apply ----

  lemma OwnRoutesAreDesired(d: Desired, rs: seq<Route>)
    ensures Stale(d.routes, rs, ManagedOf(d.routes)) == []
    ensures (forall w :: w in d.routes ==> w.dst != "default") ==> CanonicalRoutes(d.routes, ManagedOf(d.routes))
  {
    var managed := ManagedOf(d.routes);
    forall q | q in managed ensures DesiredHas(d.routes, q) && exists w :: w in d.routes && q == RouteOf(w) {
      var i :| 0 <= i < |managed| && managed[i] == q;
      assert d.routes[i] in d.routes && q == RouteOf(d.routes[i]);
    }
    NoStale(d.routes, rs, managed);
  }

  /**
    Verified means idempotent: after a successful apply on an untouched kernel, a second one plans
    no command and changes nothing; it succeeds exactly when no desired physical interface is gone.
   */
  lemma SecondApply(d: Desired, s: State, managed: seq<Route>, t: State, order: seq<string>)
    requires WellFormed(d, managed) && Unique(s.links) && Applied(d, s, managed, t) && Enumerates(order, d.addrs.Keys)
    ensures var own := ManagedOf(d.routes);
      && LinkPlan(d, t.links) == [] && AddrPlan(d, View(t.links), order) == [] && TailPlan(d, t, own) == []
      && ApplyOutcome(d, t, own, order) == Outcome(t, InterfacesExist(d, View(t.links)))
  {
    var o1 :| Enumerates(o1, d.addrs.Keys) && ApplyOutcome(d, s, managed, o1) == Outcome(t, true);
    var own := ManagedOf(d.routes);
    SettledInAnyOrder(d, View(t.links), order);
    TailEmpty(d, t, managed);
    TailEmpty(d, t, own);
    OwnRoutesAreDesired(d, Normals(t.routes));
    RoutePlanEmpty(d, Normals(t.routes), managed);
    NoMissing(d.routes, Normals(t.routes));
  }

  // ---- routes over whole runs ----

  ghost predicate KeyIn(ws: seq<DesiredRoute>, r: Route) {
    exists w :: w in ws && w.dst == r.dst && w.via == r.via && w.dev == r.dev
  }

  /** Every kernel route is a foreign one or one of the desired ones. */
  ghost predicate Owned(rs: seq<Route>, foreign: seq<Route>, ws: seq<DesiredRoute>) {
    forall r :: r in rs ==> r in foreign || KeyIn(ws, r)
  }

  /** A route without gateway that is dropped while one with the same destination and device stays is taken for it. */
  ghost predicate Mistaken(was: seq<DesiredRoute>, ws: seq<DesiredRoute>) {
    exists w :: w in was && w.via == "" && !KeyIn(ws, RouteOf(w)) && DesiredHas(ws, RouteOf(w))
  }

  /** A managed route that is no longer desired is swept, unless it is mistaken for a desired one. */
  lemma DroppedIsSwept(was: seq<DesiredRoute>, ws: seq<DesiredRoute>, left: seq<Route>, r: Route)
    requires CanonicalRoutes(ws, ManagedOf(was)) && !Mistaken(was, ws)
    requires r in left && KeyIn(was, r) && !KeyIn(ws, r)
    ensures Swept(ws, Normals(left), ManagedOf(was), r)
  {
    var i :| 0 <= i < |was| && was[i].dst == r.dst && was[i].via == r.via && was[i].dev == r.dev;
    var q := ManagedOf(was)[i];
    assert was[i] in was && q in ManagedOf(was) && q == RouteOf(was[i]);
    ObservedAs(left, q.dst, q.via, q.dev);
    assert IsStale(ws, Normals(left), q) && Covers(q.dst, q.via, q.dev, r);
  }

  predicate SameKey(r: Route, q: Route) { r.dst == q.dst && r.via == q.via && r.dev == q.dev }

  lemma SameKeySwept(ws: seq<DesiredRoute>, rs: seq<Route>, managed: seq<Route>, q: Route, r: Route)
    requires SameKey(r, q)
    ensures Swept(ws, rs, managed, r) <==> Swept(ws, rs, managed, q)
  {}

  lemma UndesiredNotAdded(ws: seq<DesiredRoute>, rs: seq<Route>, q: Route, r: Route)
    requires SameKey(r, q) && !KeyIn(ws, q)
    ensures !Added(ws, rs, r)
  {}

  /** Exactly which managed routes outlive an apply that no longer wants them; provenance then forgets them. */
  lemma DroppedRoute(d: Desired, s: State, managed: seq<Route>, t: State, q: Route)
    requires WellFormed(d, managed) && Unique(s.links) && Applied(d, s, managed, t)
    requires q in managed && !KeyIn(d.routes, q)
    ensures var left := Surviving(d, s);
      HasRoute(t.routes, q.dst, q.via, q.dev) <==>
        HasRoute(left, q.dst, q.via, q.dev) && DesiredHas(d.routes, q) && !Swept(d.routes, Normals(left), managed, q)
  {
    var left := Surviving(d, s);
    RouteEffect(d, s, managed, t);
    ObservedAs(left, q.dst, q.via, q.dev);
    forall r: Route | SameKey(r, q)
      ensures Swept(d.routes, Normals(left), managed, r) <==> Swept(d.routes, Normals(left), managed, q)
      ensures !Added(d.routes, Normals(left), r)
    {
      SameKeySwept(d.routes, Normals(left), managed, q, r);
      UndesiredNotAdded(d.routes, Normals(left), q, r);
    }
    if !DesiredHas(d.routes, q) && HasRoute(left, q.dst, q.via, q.dev) {
      assert IsStale(d.routes, Normals(left), q) && Covers(q.dst, q.via, q.dev, q);
    }
  }

  lemma OwnershipStep(was: seq<DesiredRoute>, d: Desired, s: State, t: State, foreign: seq<Route>)
    requires WellFormed(d, ManagedOf(was)) && Unique(s.links) && Applied(d, s, ManagedOf(was), t)
    requires Owned(s.routes, foreign, was) && !Mistaken(was, d.routes)
    ensures Owned(t.routes, foreign, d.routes)
  {
    var left := Surviving(d, s);
    RouteEffect(d, s, ManagedOf(was), t);
    forall r | r in left && KeyIn(was, r) && !KeyIn(d.routes, r)
      ensures Swept(d.routes, Normals(left), ManagedOf(was), r)
    {
      DroppedIsSwept(was, d.routes, left, r);
    }
  }

  /** A run of successful applies on a kernel nobody else touches. */
  ghost predicate IsRun(ds: seq<Desired>, states: seq<State>) {
    && |states| == |ds| + 1
    && Unique(states[0].links)
    && forall i :: 0 <= i < |ds| ==>
      WellFormed(ds[i], Own(ds, i)) && Applied(ds[i], states[i], Own(ds, i), states[i + 1])
  }

  function Own(ds: seq<Desired>, i: nat): seq<Route>
    requires i <= |ds|
  {
    ManagedOf(Latest(ds, i))
  }

  function Latest(ds: seq<Desired>, i: nat): seq<DesiredRoute>
    requires i <= |ds|
  {
    if i == 0 then [] else ds[i - 1].routes
  }

  /** The reason a route disappears in step `j`. */
  ghost predicate Lost(ds: seq<Desired>, states: seq<State>, j: nat, r: Route)
    requires j < |ds| && j < |states|
  {
    DeletedDev(ds[j], View(states[j].links), r.dev)
      || Swept(ds[j].routes, Normals(Surviving(ds[j], states[j])), Own(ds, j), r)
  }

  /**
    Route provenance over a run: at every point the kernel's routes are foreign ones from the start
    or the latest desired ones, every desired route is there, and a route from the start is missing
    only if its device was deleted or a stale route's deletion matched it.
   */
  lemma {:induction false} RouteProvenance(ds: seq<Desired>, states: seq<State>, n: nat)
    requires IsRun(ds, states) && n <= |ds|
    requires forall i :: 0 <= i < n ==> !Mistaken(Latest(ds, i), ds[i].routes)
    ensures Unique(states[n].links)
    ensures Owned(states[n].routes, states[0].routes, Latest(ds, n))
    ensures forall w :: w in Latest(ds, n) ==> HasRoute(Normals(states[n].routes), w.dst, w.via, w.dev)
    ensures forall r :: r in states[0].routes && r !in states[n].routes ==>
      exists j :: 0 <= j < n && Lost(ds, states, j, r)
    decreases n
  {
    if n > 0 {
      var i := n - 1;
      RouteProvenance(ds, states, i);
      RouteEffect(ds[i], states[i], Own(ds, i), states[i + 1]);
      OwnershipStep(Latest(ds, i), ds[i], states[i], states[i + 1], states[0].routes);
      forall r | r in states[0].routes && r !in states[n].routes
        ensures exists j :: 0 <= j < n && Lost(ds, states, j, r)
      {
        if r in states[i].routes {
          assert Lost(ds, states, i, r);
        }
      }
    }
  }
}
