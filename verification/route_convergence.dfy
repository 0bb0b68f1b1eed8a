/** Executing a route plan: the exact routes it leaves, and when re-planning gives nothing. */
module RouteConvergence {
  import opened Wrappers
  import opened Kernel
  import opened Planner

  /** A stale managed route whose delete pattern matches `r`. */
  ghost predicate Swept(ws: seq<DesiredRoute>, rs: seq<Route>, managed: seq<Route>, r: Route) {
    exists q :: q in managed && IsStale(ws, rs, q) && Covers(q.dst, q.via, q.dev, r)
  }

  ghost predicate Added(ws: seq<DesiredRoute>, rs: seq<Route>, r: Route) {
    exists w :: w in ws && r == RouteOf(w) && !HasRoute(rs, w.dst, w.via, w.dev)
  }

  /** The kernel holds this default route under its short spelling. */
  predicate SpelledDefault(rs: seq<Route>, dst: string, via: string, dev: string) {
    dst == "0.0.0.0/0" && HasRoute(rs, "default", via, dev)
  }

  ghost predicate CanonicalRoutes(ws: seq<DesiredRoute>, managed: seq<Route>) {
    (forall w :: w in ws ==> w.dst != "default") && (forall q :: q in managed ==> q.dst != "default")
  }

  /**
    No stale managed route is held under the short spelling of a default route (its deletion would
    miss), and none deletes by a pattern that hits a desired route.
   */
  ghost predicate RoutesConvergible(ws: seq<DesiredRoute>, rs: seq<Route>, managed: seq<Route>) {
    && (forall q :: q in managed && IsStale(ws, Normals(rs), q) ==> !SpelledDefault(rs, q.dst, q.via, q.dev))
    && (forall w :: w in ws && Swept(ws, Normals(rs), managed, RouteOf(w)) ==> SpelledDefault(rs, w.dst, w.via, w.dev))
  }

  /** Only a stale route without a device can hit a desired route. */
  lemma OnlyDeviceless(ws: seq<DesiredRoute>, rs: seq<Route>, q: Route, w: DesiredRoute)
    requires w in ws && IsStale(ws, rs, q) && Covers(q.dst, q.via, q.dev, RouteOf(w))
    ensures q.dev == "" && w.dev != ""
  {}

  lemma ObservedAs(rs: seq<Route>, dst: string, via: string, dev: string)
    requires dst != "default"
    ensures HasRoute(Normals(rs), dst, via, dev) <==> HasRoute(rs, dst, via, dev) || SpelledDefault(rs, dst, via, dev)
  {
    var ns := Normals(rs);
    if HasRoute(ns, dst, via, dev) {
      var r :| r in ns && r.dst == dst && r.via == via && r.dev == dev;
      var i :| 0 <= i < |ns| && ns[i] == r;
      assert rs[i] in rs && r == Normal(rs[i]);
    }
    if HasRoute(rs, dst, via, dev) {
      var r :| r in rs && r.dst == dst && r.via == via && r.dev == dev;
      var i :| 0 <= i < |rs| && rs[i] == r;
      assert ns[i] == Normal(r) && ns[i] in ns;
    }
    if SpelledDefault(rs, dst, via, dev) {
      var r :| r in rs && r.dst == "default" && r.via == via && r.dev == dev;
      var i :| 0 <= i < |rs| && rs[i] == r;
      assert ns[i] == Normal(r) && ns[i] in ns;
    }
  }

  // ---- execution ----

  lemma {:induction false} ExecuteAppend(s: State, a: seq<Command>, b: seq<Command>)
    ensures Execute(s, a + b) == if Execute(s, a).ok then Execute(Execute(s, a).state, b) else Execute(s, a)
    decreases |a|
  {
    if a == [] {
      assert a + b == b;
    } else {
      assert (a + b)[1..] == a[1..] + b && (a + b)[0] == a[0];
      var t := Step(s, a[0].action);
      ExecuteAppend(if t.Some? then t.value else s, a[1..], b);
    }
  }

  lemma {:induction false} MissingRun(s: State, ws: seq<DesiredRoute>, rs: seq<Route>)
    ensures var o := Execute(s, Missing(ws, rs));
      o.ok && o.state == s.(routes := o.state.routes)
      && forall r :: r in o.state.routes <==> r in s.routes || Added(ws, rs, r)
    decreases |ws|
  {
    if ws != [] {
      var w, rest := ws[0], ws[1..];
      if HasRoute(rs, w.dst, w.via, w.dev) {
        MissingRun(s, rest, rs);
        assert Missing(ws, rs) == Missing(rest, rs);
      } else {
        var c := Must(RouteReplace(RouteOf(w)));
        var t := s.(routes := s.routes + [RouteOf(w)]);
        assert Step(s, c.action) == Some(t);
        MissingRun(t, rest, rs);
        assert Missing(ws, rs)[0] == c && Missing(ws, rs)[1..] == Missing(rest, rs);
      }
      forall r
        ensures Added(ws, rs, r) <==> Added(rest, rs, r) || (r == RouteOf(w) && !HasRoute(rs, w.dst, w.via, w.dev))
      {
        assert ws == [w] + rest;
      }
    }
  }

  lemma {:induction false} StaleRun(s: State, ws: seq<DesiredRoute>, rs: seq<Route>, managed: seq<Route>)
    ensures var o := Execute(s, Stale(ws, rs, managed));
      o.ok && o.state == s.(routes := o.state.routes)
      && forall r :: r in o.state.routes <==> r in s.routes && !Swept(ws, rs, managed, r)
    decreases |managed|
  {
    if managed != [] {
      var q, rest := managed[0], managed[1..];
      if IsStale(ws, rs, q) {
        var c := Must(RouteDel(q.dst, q.via, q.dev));
        var t := s.(routes := Select(s.routes, (r: Route) => !Covers(q.dst, q.via, q.dev, r)));
        assert Step(s, c.action) == Some(t);
        StaleRun(t, ws, rs, rest);
        assert Stale(ws, rs, managed)[0] == c && Stale(ws, rs, managed)[1..] == Stale(ws, rs, rest);
      } else {
        StaleRun(s, ws, rs, rest);
        assert Stale(ws, rs, managed) == Stale(ws, rs, rest);
      }
      forall r ensures Swept(ws, rs, managed, r) <==>
        Swept(ws, rs, rest, r) || (IsStale(ws, rs, q) && Covers(q.dst, q.via, q.dev, r))
      {
        assert managed == [q] + rest;
      }
    }
  }

  /** The routes after the plan: the old and the missing ones, less those a stale route's deletion matches. */
  lemma RoutePlanRun(d: Desired, s: State, managed: seq<Route>)
    ensures var rs := Normals(s.routes); var o := Execute(s, RoutePlan(d, rs, managed));
      && o.ok && o.state == s.(routes := o.state.routes)
      && forall r :: r in o.state.routes <==>
        (r in s.routes || Added(d.routes, rs, r)) && !Swept(d.routes, rs, managed, r)
  {
    var rs := Normals(s.routes);
    ExecuteAppend(s, Missing(d.routes, rs), Stale(d.routes, rs, managed));
    MissingRun(s, d.routes, rs);
    StaleRun(Execute(s, Missing(d.routes, rs)).state, d.routes, rs, managed);
  }

  // ---- nothing left to plan ----

  ghost predicate RoutesSettled(ws: seq<DesiredRoute>, rs: seq<Route>, managed: seq<Route>) {
    && (forall w :: w in ws ==> HasRoute(rs, w.dst, w.via, w.dev))
    && (forall q :: q in managed ==> !IsStale(ws, rs, q))
  }

  lemma {:induction false} NoMissing(ws: seq<DesiredRoute>, rs: seq<Route>)
    ensures Missing(ws, rs) == [] <==> forall w :: w in ws ==> HasRoute(rs, w.dst, w.via, w.dev)
  {
    if ws != [] { NoMissing(ws[1..], rs); }
  }

  lemma {:induction false} NoStale(ws: seq<DesiredRoute>, rs: seq<Route>, managed: seq<Route>)
    ensures Stale(ws, rs, managed) == [] <==> forall q :: q in managed ==> !IsStale(ws, rs, q)
  {
    if managed != [] { NoStale(ws, rs, managed[1..]); }
  }

  lemma RoutePlanEmpty(d: Desired, rs: seq<Route>, managed: seq<Route>)
    ensures RoutePlan(d, rs, managed) == [] <==> RoutesSettled(d.routes, rs, managed)
  {
    NoMissing(d.routes, rs);
    NoStale(d.routes, rs, managed);
    assert Missing(d.routes, rs) + Stale(d.routes, rs, managed) == [] <==>
           Missing(d.routes, rs) == [] && Stale(d.routes, rs, managed) == [];
  }

  /** A route with this destination, gateway and device, however its metric, is kept or dropped as a whole. */
  lemma KeyAfter(d: Desired, s: State, managed: seq<Route>, dst: string, via: string, dev: string)
    ensures var rs := Normals(s.routes); var out := Execute(s, RoutePlan(d, rs, managed)).state.routes;
      HasRoute(out, dst, via, dev) <==>
        (HasRoute(s.routes, dst, via, dev)
          || exists r :: Added(d.routes, rs, r) && r.dst == dst && r.via == via && r.dev == dev)
        && !Swept(d.routes, rs, managed, Route(dst, via, dev, 0))
  {
    RoutePlanRun(d, s, managed);
    var rs := Normals(s.routes);
    forall r: Route | r.dst == dst && r.via == via && r.dev == dev
      ensures Swept(d.routes, rs, managed, r) <==> Swept(d.routes, rs, managed, Route(dst, via, dev, 0))
    {}
  }

  lemma SpellingUntouched(d: Desired, s: State, managed: seq<Route>, via: string, dev: string)
    requires CanonicalRoutes(d.routes, managed)
    ensures var out := Execute(s, RoutePlan(d, Normals(s.routes), managed)).state.routes;
      HasRoute(out, "default", via, dev) <==> HasRoute(s.routes, "default", via, dev)
  {
    KeyAfter(d, s, managed, "default", via, dev);
  }

  lemma DesiredAfter(d: Desired, s: State, managed: seq<Route>, w: DesiredRoute)
    requires CanonicalRoutes(d.routes, managed) && w in d.routes
    ensures var rs := Normals(s.routes); var out := Execute(s, RoutePlan(d, rs, managed)).state.routes;
      HasRoute(Normals(out), w.dst, w.via, w.dev) <==>
        (Swept(d.routes, rs, managed, RouteOf(w)) ==> SpelledDefault(s.routes, w.dst, w.via, w.dev))
  {
    var rs := Normals(s.routes);
    var out := Execute(s, RoutePlan(d, rs, managed)).state.routes;
    ObservedAs(out, w.dst, w.via, w.dev);
    ObservedAs(s.routes, w.dst, w.via, w.dev);
    KeyAfter(d, s, managed, w.dst, w.via, w.dev);
    SpellingUntouched(d, s, managed, w.via, w.dev);
    assert Swept(d.routes, rs, managed, RouteOf(w)) <==> Swept(d.routes, rs, managed, Route(w.dst, w.via, w.dev, 0));
    if !HasRoute(rs, w.dst, w.via, w.dev) { assert Added(d.routes, rs, RouteOf(w)); }
  }

  lemma StaleAfter(d: Desired, s: State, managed: seq<Route>, q: Route)
    requires CanonicalRoutes(d.routes, managed) && q in managed
    ensures var rs := Normals(s.routes); var out := Execute(s, RoutePlan(d, rs, managed)).state.routes;
      IsStale(d.routes, Normals(out), q) <==> IsStale(d.routes, rs, q) && SpelledDefault(s.routes, q.dst, q.via, q.dev)
  {
    var rs := Normals(s.routes);
    var out := Execute(s, RoutePlan(d, rs, managed)).state.routes;
    ObservedAs(out, q.dst, q.via, q.dev);
    ObservedAs(s.routes, q.dst, q.via, q.dev);
    KeyAfter(d, s, managed, q.dst, q.via, q.dev);
    SpellingUntouched(d, s, managed, q.via, q.dev);
    if IsStale(d.routes, rs, q) {
      assert Covers(q.dst, q.via, q.dev, Route(q.dst, q.via, q.dev, 0));
    }
  }

  /** A route pass never fails, and re-planning gives nothing exactly when `RoutesConvergible`. */
  lemma RoutePassConverges(d: Desired, s: State, managed: seq<Route>)
    requires CanonicalRoutes(d.routes, managed)
    ensures var o := Execute(s, RoutePlan(d, Normals(s.routes), managed));
      o.ok && (RoutePlan(d, Normals(o.state.routes), managed) == [] <==> RoutesConvergible(d.routes, s.routes, managed))
  {
    var rs := Normals(s.routes);
    RoutePlanRun(d, s, managed);
    var out := Execute(s, RoutePlan(d, rs, managed)).state.routes;
    RoutePlanEmpty(d, Normals(out), managed);
    forall w | w in d.routes
      ensures HasRoute(Normals(out), w.dst, w.via, w.dev) <==>
        (Swept(d.routes, rs, managed, RouteOf(w)) ==> SpelledDefault(s.routes, w.dst, w.via, w.dev))
    {
      DesiredAfter(d, s, managed, w);
    }
    forall q | q in managed
      ensures IsStale(d.routes, Normals(out), q) <==>
        IsStale(d.routes, rs, q) && SpelledDefault(s.routes, q.dst, q.via, q.dev)
    {
      StaleAfter(d, s, managed, q);
    }
  }
}
