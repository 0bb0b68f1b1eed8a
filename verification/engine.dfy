/** The reconciliation engine (router/internal/reconcile/engine.go:439-590, provenance.go). */
module Engine {
  import opened Wrappers
  import opened Sequences
  import opened Kernel
  import opened Planner
  import opened LinkRun
  import opened AddressConvergence
  import opened RouteConvergence
  import opened Convergence

  /** Which routes the router installed itself. */
  class MemoryProvenance {
    var routes: seq<Route>

    constructor ()
      ensures routes == []
    {
      routes := [];
    }

    method Load() returns (rs: seq<Route>)
      ensures rs == routes
    {
      rs := routes;
    }

    method Save(rs: seq<Route>)
      modifies this
      ensures routes == rs
    {
      routes := rs;
    }
  }

  class Engine {
    const kernel: Fake
    const prov: MemoryProvenance

    constructor (kernel: Fake, prov: MemoryProvenance)
      ensures this.kernel == kernel && this.prov == prov
    {
      this.kernel, this.prov := kernel, prov;
    }

    method PlanObservedLinks(d: Desired, a: Actual) returns (ops: seq<Command>)
      requires Unique(a.links) && UniqueNames(d.links) && forall l :: l in d.links ==> l.kind != Loopback
      ensures ops == LinkPlan(d, a.links)
    {
      var snapshot := new Link[|a.links|](i requires 0 <= i < |a.links| => a.links[i]);
      assert snapshot[..] == a.links;
      ops := PlanLinks(d, snapshot);
    }

    method PlanTail(d: Desired, a: Actual) returns (ops: seq<Command>)
      requires a == Observed(kernel.Snapshot())
      ensures ops == TailPlan(d, kernel.Snapshot(), prov.routes)
    {
      var managed := prov.Load();
      ops := PlanRoutes(d, a, managed);
      var services := PlanServices(d, kernel);
      ops := ops + (FirewallPlan(d, a.ruleset) + services);
    }

    /** Re-plans from a fresh observation; any leftover command means the kernel is not as desired. */
    method Verify(d: Desired) returns (ok: bool)
      requires kernel.Valid() && UniqueNames(d.links) && forall l :: l in d.links ==> l.kind != Loopback
      ensures ok == Verified(d, kernel.Snapshot(), prov.routes)
    {
      var a := Observe(kernel);
      var ops := PlanObservedLinks(d, a);
      var addrs, order := PlanAddrs(d, a);
      SettledInAnyOrder(d, View(a.links), order);
      var tail := PlanTail(d, a);
      ok := |ops + addrs + tail| == 0;
    }

    /**
      Plans and executes everything, then verifies. Provenance is saved only on success. `ops` are
      the commands planned after the link and address passes, which are executed as they are planned.
     */
    method Apply(d: Desired) returns (ok: bool, ops: seq<Command>, ghost order: seq<string>)
      requires kernel.Valid() && WellFormed(d, prov.routes)
      modifies kernel, prov
      ensures kernel.Valid() && Enumerates(order, d.addrs.Keys)
      ensures ApplyOutcome(d, old(kernel.Snapshot()), old(prov.routes), order) == Outcome(kernel.Snapshot(), ok)
      ensures prov.routes == if ok then ManagedOf(d.routes) else old(prov.routes)
      ensures ok && LinkPlan(d, old(kernel.links)) == [] && AddrsSettled(d, View(old(kernel.links))) ==>
        ops == TailPlan(d, old(kernel.Snapshot()), old(prov.routes))
    {
      ops := [];
      ghost var s := kernel.Snapshot();
      var a := Observe(kernel);
      order := SomeOrder(d.addrs.Keys);
      SettledInAnyOrder(d, View(a.links), order);
      var present := CheckInterfaces(d, a);
      if !present {
        return false, [], order;
      }
      var linkOps := PlanObservedLinks(d, a);
      ok := ApplyOps(kernel, linkOps);
      if !ok {
        return false, [], order;
      }
      a := Observe(kernel);
      var addrOps;
      addrOps, order := PlanAddrs(d, a);
      SettledInAnyOrder(d, View(a.links), order);
      ok := ApplyOps(kernel, addrOps);
      if !ok {
        return false, [], order;
      }
      a := Observe(kernel);
      ops := PlanTail(d, a);
      ok := ApplyOps(kernel, ops);
      if !ok {
        return false, ops, order;
      }
      ok := Verify(d);
      if !ok {
        return false, ops, order;
      }
      SaveManaged(d);
    }

    method SaveManaged(d: Desired)
      modifies prov
      ensures prov.routes == ManagedOf(d.routes)
    {
      var managed: seq<Route> := [];
      for i := 0 to |d.routes|
        invariant |managed| == i && forall j :: 0 <= j < i ==> managed[j] == RouteOf(d.routes[j])
      {
        managed := managed + [RouteOf(d.routes[i])];
      }
      assert managed == ManagedOf(d.routes);
      prov.Save(managed);
    }
  }
}
