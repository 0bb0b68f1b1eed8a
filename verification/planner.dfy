/**
  Desired state and the planners that compare it with an observed kernel
  (router/internal/reconcile/engine.go). Each planner is a method over its loops,
  tied to a function of its inputs; what those functions achieve when executed is
  proved in the convergence modules.
 */
module Planner {
  import opened Wrappers
  import opened Sequences
  import opened Kernel
  import opened AddressText

  datatype DesiredLink = DesiredLink(name: string, kind: LinkType, parent: string, master: string,
                                     vlanID: int, mtu: int, up: bool)

  datatype DesiredRoute = DesiredRoute(dst: string, via: string, dev: string, metric: int, table: int)

  datatype Desired = Desired(wanIfaces: seq<string>, links: seq<DesiredLink>, addrs: map<string, seq<string>>,
                             dropAddrs: set<string>, routes: seq<DesiredRoute>, ruleset: Ruleset,
                             dnsmasqConf: string, wgConf: map<string, string>)

  // What `Observe` returns: links, their addresses as they read back, routes and the ruleset.
  datatype Actual = Actual(links: seq<Link>, addrs: map<string, seq<string>>, routes: seq<Route>, ruleset: Ruleset)

  datatype Command = Command(action: Action, ignoreErrors: bool)

  function Must(a: Action): Command { Command(a, false) }
  function Try(a: Action): Command { Command(a, true) }

  // ---- executing commands ----

  datatype Outcome = Outcome(state: State, ok: bool)

  /** Commands run in order; the first failure that is not tolerated stops the run. */
  function Execute(s: State, cs: seq<Command>): Outcome
    decreases |cs|
  {
    if cs == [] then Outcome(s, true)
    else
      var t := Step(s, cs[0].action);
      if t.Some? then Execute(t.value, cs[1..])
      else if cs[0].ignoreErrors then Execute(s, cs[1..])
      else Outcome(s, false)
  }

  method ApplyOps(kernel: Fake, ops: seq<Command>) returns (ok: bool)
    requires kernel.Valid()
    modifies kernel
    ensures kernel.Valid()
    ensures Outcome(kernel.Snapshot(), ok) == Execute(old(kernel.Snapshot()), ops)
  {
    for i := 0 to |ops|
      invariant kernel.Valid()
      invariant Execute(kernel.Snapshot(), ops[i..]) == Execute(old(kernel.Snapshot()), ops)
    {
      ghost var before := kernel.Snapshot();
      Tail(ops, i);
      var done := kernel.Run(ops[i].action);
      if !done && !ops[i].ignoreErrors {
        return false;
      }
    }
    return true;
  }

  // ---- observation ----

  function Normal(r: Route): Route { if r.dst == "default" then r.(dst := "0.0.0.0/0") else r }

  function Normals(rs: seq<Route>): (out: seq<Route>)
    ensures |out| == |rs|
    ensures forall i :: 0 <= i < |rs| ==> out[i] == Normal(rs[i])
  {
    if rs == [] then [] else [Normal(rs[0])] + Normals(rs[1..])
  }

  function Addresses(m: map<string, Link>): map<string, seq<string>> { map n | n in m :: Reports(m[n].addrs) }

  function Observed(s: State): Actual { Actual(s.links, Addresses(View(s.links)), Normals(s.routes), s.ruleset) }

  method ObserveAddrs(links: seq<Link>) returns (addrs: map<string, seq<string>>)
    requires Unique(links)
    ensures addrs == Addresses(View(links))
  {
    addrs := map[];
    for i := 0 to |links|
      invariant addrs == Addresses(View(links[..i]))
    {
      var shown := ReadAddrs(links[i].addrs);
      OneMore(links, i);
      addrs := addrs[links[i].name := shown];
    }
    assert links[..|links|] == links;
  }

  lemma OneMore(links: seq<Link>, i: nat)
    requires Unique(links) && i < |links|
    ensures Addresses(View(links[..i + 1])) ==
            Addresses(View(links[..i]))[links[i].name := Reports(links[i].addrs)]
  {
    assert links[..i + 1] == links[..i] + [links[i]];
    ViewNames(links[..i], links[i].name);
    ViewAppend(links[..i], links[i]);
  }

  /** Reads the kernel; a default route is reported as 0.0.0.0/0. */
  method Observe(kernel: Fake) returns (a: Actual)
    requires kernel.Valid()
    ensures a == Observed(kernel.Snapshot())
  {
    var addrs := ObserveAddrs(kernel.links);
    var rs: seq<Route> := [];
    for i := 0 to |kernel.routes|
      invariant |rs| == i && forall j :: 0 <= j < i ==> rs[j] == Normal(kernel.routes[j])
    {
      rs := rs + [Normal(kernel.routes[i])];
    }
    assert rs == Normals(kernel.routes);
    a := Actual(kernel.links, addrs, rs, kernel.ruleset);
  }

  // ---- links ----

  function ByName(ls: seq<DesiredLink>, name: string): Option<DesiredLink> {
    if ls == [] then None else if ls[0].name == name then Some(ls[0]) else ByName(ls[1..], name)
  }

  ghost predicate UniqueNames(ls: seq<DesiredLink>) {
    forall i, j :: 0 <= i < j < |ls| ==> ls[i].name != ls[j].name
  }

  lemma {:induction false} ByNameAt(ls: seq<DesiredLink>, name: string)
    ensures ByName(ls, name).Some? ==>
      exists i :: 0 <= i < |ls| && ls[i] == ByName(ls, name).value && ls[i].name == name
    ensures ByName(ls, name).None? ==> forall i :: 0 <= i < |ls| ==> ls[i].name != name
  {
    if ls != [] && ls[0].name != name {
      ByNameAt(ls[1..], name);
      if ByName(ls, name).Some? {
        var i :| 0 <= i < |ls[1..]| && ls[1..][i] == ByName(ls[1..], name).value && ls[1..][i].name == name;
        assert ls[i + 1].name == name;
      }
    }
  }

  lemma ByNameIs(ls: seq<DesiredLink>, i: nat)
    requires UniqueNames(ls) && i < |ls|
    ensures ByName(ls, ls[i].name) == Some(ls[i])
  {
    ByNameAt(ls, ls[i].name);
  }

  predicate Managed(kind: LinkType) { kind == Bridge || kind == Wireguard || kind == Vlan }

  /** Physical interfaces of the desired state all exist. */
  predicate InterfacesExist(d: Desired, m: map<string, Link>) {
    forall l :: l in d.links && l.kind == Ether ==> l.name in m
  }

  method CheckInterfaces(d: Desired, a: Actual) returns (ok: bool)
    ensures ok == InterfacesExist(d, View(a.links))
  {
    for i := 0 to |d.links|
      invariant forall j :: 0 <= j < i && d.links[j].kind == Ether ==> d.links[j].name in View(a.links)
    {
      if d.links[i].kind == Ether && d.links[i].name !in View(a.links) {
        return false;
      }
    }
    return true;
  }

  function Deletions(d: Desired, links: seq<Link>): seq<Command> {
    if links == [] then []
    else (if Obsolete(d, links[0]) then [Must(LinkDel(links[0].name))] else []) + Deletions(d, links[1..])
  }

  /** A link of a kind the router manages that is no longer desired. */
  predicate Obsolete(d: Desired, x: Link) { ByName(d.links, x.name).None? && Managed(x.kind) }

  /** The link exists as another kind and is replaced; physical devices are left alone. */
  predicate Recreated(l: DesiredLink, x: Link) { x.kind != l.kind && l.kind != Ether && x.kind != Ether }

  predicate Created(l: DesiredLink, cur: Option<Link>) {
    if cur.None? then l.kind != Ether else Recreated(l, cur.value)
  }

  function Create(l: DesiredLink): Command { Must(LinkAdd(l.name, l.kind, l.parent, l.vlanID)) }

  predicate MemberOfDesired(ls: seq<DesiredLink>, name: string) {
    exists l :: l in ls && l.name == name && l.master != ""
  }

  predicate WantUp(d: Desired, l: DesiredLink) { l.up || (l.kind == Ether && l.name in d.wanIfaces) }

  // The planner's record of a link: the observed one, or a blank one just created.
  function Basis(l: DesiredLink, cur: Option<Link>): Link {
    if cur.None? || Recreated(l, cur.value) then Link(l.name, l.kind, "", "", 0, 0, false, []) else cur.value
  }

  function MtuCommands(l: DesiredLink, x: Link): seq<Command> {
    if l.mtu > 0 && x.mtu != l.mtu && l.kind == Vlan then [Must(SetMtu(l.name, l.mtu))] else []
  }

  function MasterCommands(d: Desired, l: DesiredLink, x: Link): seq<Command> {
    if l.master != "" && x.master != l.master then [Must(SetMaster(l.name, l.master))]
    else if l.master == "" && x.master != "" && !MemberOfDesired(d.links, l.name) then [Must(NoMaster(l.name))]
    else []
  }

  function UpCommands(d: Desired, l: DesiredLink, x: Link): seq<Command> {
    if x.up != WantUp(d, l) then [Must(SetUp(l.name, WantUp(d, l)))] else []
  }

  function CreateCommands(l: DesiredLink, cur: Option<Link>): seq<Command> {
    if cur.None? then [Create(l)] else if Recreated(l, cur.value) then [Must(LinkDel(l.name)), Create(l)] else []
  }

  function LinkCommands(d: Desired, l: DesiredLink, cur: Option<Link>): seq<Command> {
    if cur.None? && l.kind == Ether then []
    else
      var x := Basis(l, cur);
      CreateCommands(l, cur) + (MtuCommands(l, x) + (MasterCommands(d, l, x) + UpCommands(d, l, x)))
  }

  function Current(m: map<string, Link>, name: string): Option<Link> { if name in m then Some(m[name]) else None }

  function AllLinkCommands(d: Desired, ls: seq<DesiredLink>, m: map<string, Link>): seq<Command> {
    if ls == [] then []
    else LinkCommands(d, ls[0], Current(m, ls[0].name)) + AllLinkCommands(d, ls[1..], m)
  }

  function LinkPlan(d: Desired, links: seq<Link>): seq<Command> {
    Deletions(d, links) + AllLinkCommands(d, d.links, View(links))
  }

  /** The planner records the master it asks for in the snapshot it was given. */
  function Marked(d: Desired, x: Link): Link {
    match ByName(d.links, x.name)
    case Some(l) => if l.master != "" && !Recreated(l, x) then x.(master := l.master) else x
    case None => x
  }

  /** Whether a desired link must be created or replaced, and the planner's record of it. */
  method PlanCreation(l: DesiredLink, cur: Option<Link>) returns (ops: seq<Command>, x: Link)
    requires cur.Some? || l.kind != Ether
    ensures ops == CreateCommands(l, cur) && x == Basis(l, cur)
  {
    ops := [];
    x := Link(l.name, l.kind, "", "", 0, 0, false, []);
    if cur.None? {
      ops := [Create(l)];
    } else if cur.value.kind != l.kind && l.kind != Ether && cur.value.kind != Ether {
      ops := [Must(LinkDel(l.name)), Create(l)];
    } else {
      x := cur.value;
    }
  }

  /** One desired link: the commands it needs, and the planner's record of it afterwards. */
  method PlanLink(d: Desired, l: DesiredLink, cur: Option<Link>) returns (ops: seq<Command>, x: Link)
    requires l.kind != Loopback
    ensures ops == LinkCommands(d, l, cur)
    ensures cur.Some? && !Recreated(l, cur.value) ==>
      x == if l.master != "" then cur.value.(master := l.master) else cur.value
  {
    ops := [];
    if cur.None? && l.kind == Ether {
      x := Link(l.name, l.kind, "", "", 0, 0, false, []);
      return;
    }
    ops, x := PlanCreation(l, cur);
    ghost var base := x;
    var mtu: seq<Command>, master: seq<Command>, up: seq<Command> := [], [], [];
    if l.mtu > 0 && x.mtu != l.mtu && l.kind == Vlan {
      mtu := [Must(SetMtu(l.name, l.mtu))];
    }
    assert mtu == MtuCommands(l, base);
    if l.master != "" && x.master != l.master {
      master := [Must(SetMaster(l.name, l.master))];
      x := x.(master := l.master);
    } else if l.master == "" && x.master != "" {
      var member := IsMember(d, l.name);
      if !member {
        master := [Must(NoMaster(l.name))];
      }
    }
    assert master == MasterCommands(d, l, base);
    var wantUp := l.up;
    if l.kind == Ether && l.name in d.wanIfaces {
      wantUp := true;
    }
    if x.up != wantUp {
      up := [Must(SetUp(l.name, wantUp))];
    }
    assert up == UpCommands(d, l, base);
    ops := ops + (mtu + (master + up));
  }

  method IsMember(d: Desired, name: string) returns (member: bool)
    ensures member == MemberOfDesired(d.links, name)
  {
    for i := 0 to |d.links|
      invariant forall j :: 0 <= j < i ==> !(d.links[j].name == name && d.links[j].master != "")
    {
      if d.links[i].name == name && d.links[i].master != "" { return true; }
    }
    return false;
  }

  method Search(a: array<Link>, name: string) returns (i: nat)
    ensures i <= a.Length && forall k :: 0 <= k < i ==> a[k].name != name
    ensures i < a.Length ==> a[i].name == name
  {
    i := 0;
    while i < a.Length
      invariant i <= a.Length && forall k :: 0 <= k < i ==> a[k].name != name
    {
      if a[i].name == name { return; }
      i := i + 1;
    }
  }

  /** The record of a link after the first `j` desired links were planned. */
  ghost function MarkedUpTo(d: Desired, j: nat, x: Link): Link
    requires j <= |d.links|
  {
    if ByName(d.links[..j], x.name).Some? then Marked(d, x) else x
  }

  lemma MarkNext(d: Desired, j: nat, x: Link)
    requires UniqueNames(d.links) && j < |d.links|
    ensures x.name != d.links[j].name ==> MarkedUpTo(d, j + 1, x) == MarkedUpTo(d, j, x)
    ensures x.name == d.links[j].name ==>
      MarkedUpTo(d, j, x) == x && MarkedUpTo(d, j + 1, x) == Marked(d, x) && ByName(d.links, x.name) == Some(d.links[j])
  {
    assert d.links[..j + 1] == d.links[..j] + [d.links[j]];
    ByNameAt(d.links[..j + 1], x.name);
    ByNameAt(d.links[..j], x.name);
    ByNameIs(d.links, j);
  }

  lemma MarkedByAll(d: Desired, x: Link)
    ensures MarkedUpTo(d, |d.links|, x) == Marked(d, x)
  {
    assert d.links[..|d.links|] == d.links;
  }

  lemma MarkedByNone(d: Desired, x: Link)
    ensures MarkedUpTo(d, 0, x) == x
  {}

  method PlanLinks(d: Desired, a: array<Link>) returns (ops: seq<Command>)
    requires UniqueNames(d.links) && Unique(a[..])
    requires forall l :: l in d.links ==> l.kind != Loopback
    modifies a
    ensures ops == LinkPlan(d, old(a[..]))
    ensures forall k :: 0 <= k < a.Length ==> a[k] == Marked(d, old(a[k]))
  {
    ghost var was := a[..];
    ops := PlanDeletions(d, a);
    NothingMarked(d, was);
    assert d.links[0..] == d.links;
    for j := 0 to |d.links|
      invariant ops + AllLinkCommands(d, d.links[j..], View(was)) == LinkPlan(d, was)
      invariant MarkedSoFar(d, j, was, a[..])
    {
      var more := PlanNext(d, a, j, was);
      OneMoreLink(d, was, ops, more, j);
      ops := ops + more;
    }
    AllMarked(d, was, a[..]);
  }

  /** The snapshot after the first `j` desired links were planned. */
  ghost predicate MarkedSoFar(d: Desired, j: nat, was: seq<Link>, now: seq<Link>)
    requires j <= |d.links|
  {
    |now| == |was| && forall k :: 0 <= k < |was| ==> now[k] == MarkedUpTo(d, j, was[k])
  }

  lemma NothingMarked(d: Desired, was: seq<Link>)
    ensures MarkedSoFar(d, 0, was, was)
  {
    forall k | 0 <= k < |was| ensures was[k] == MarkedUpTo(d, 0, was[k]) { MarkedByNone(d, was[k]); }
  }

  lemma AllMarked(d: Desired, was: seq<Link>, now: seq<Link>)
    requires MarkedSoFar(d, |d.links|, was, now)
    ensures forall k :: 0 <= k < |was| ==> now[k] == Marked(d, was[k])
  {
    forall k | 0 <= k < |was| ensures now[k] == Marked(d, was[k]) { MarkedByAll(d, was[k]); }
  }

  lemma OneMoreLink(d: Desired, was: seq<Link>, ops: seq<Command>, more: seq<Command>, j: nat)
    requires j < |d.links| && ops + AllLinkCommands(d, d.links[j..], View(was)) == LinkPlan(d, was)
    requires more == LinkCommands(d, d.links[j], Current(View(was), d.links[j].name))
    ensures (ops + more) + AllLinkCommands(d, d.links[j + 1..], View(was)) == LinkPlan(d, was)
  {
    Tail(d.links, j);
    Shift(ops, more, AllLinkCommands(d, d.links[j + 1..], View(was)));
  }

  // Deletions first: managed kinds that are no longer desired.
  method PlanDeletions(d: Desired, a: array<Link>) returns (ops: seq<Command>)
    ensures ops == Deletions(d, a[..])
  {
    ops := [];
    for i := 0 to a.Length
      invariant ops + Deletions(d, a[i..]) == Deletions(d, a[..])
    {
      Tail(a[..], i);
      assert a[..][i..] == a[i..] && a[..][i + 1..] == a[i + 1..];
      Shift(ops, if Obsolete(d, a[i]) then [Must(LinkDel(a[i].name))] else [], Deletions(d, a[i + 1..]));
      if ByName(d.links, a[i].name).None? {
        match a[i].kind
        case Bridge => ops := ops + [Must(LinkDel(a[i].name))];
        case Wireguard => ops := ops + [Must(LinkDel(a[i].name))];
        case Vlan => ops := ops + [Must(LinkDel(a[i].name))];
        case _ =>
      }
    }
  }

  method PlanNext(d: Desired, a: array<Link>, j: nat, ghost was: seq<Link>) returns (ops: seq<Command>)
    requires UniqueNames(d.links) && Unique(was) && j < |d.links| && d.links[j].kind != Loopback
    requires MarkedSoFar(d, j, was, a[..])
    modifies a
    ensures ops == LinkCommands(d, d.links[j], Current(View(was), d.links[j].name))
    ensures MarkedSoFar(d, j + 1, was, a[..])
  {
    var l := d.links[j];
    forall k | 0 <= k < a.Length
      ensures was[k].name != l.name ==> MarkedUpTo(d, j + 1, was[k]) == MarkedUpTo(d, j, was[k])
      ensures was[k].name == l.name ==>
        a[k] == was[k] && MarkedUpTo(d, j + 1, was[k]) == Marked(d, was[k]) && ByName(d.links, was[k].name) == Some(l)
    {
      MarkNext(d, j, was[k]);
    }
    assert forall k :: 0 <= k < a.Length ==> a[k].name == was[k].name;
    var at := Search(a, l.name);
    CurrentAt(was, at, l.name);
    var x;
    ops, x := PlanLink(d, l, if at < a.Length then Some(a[at]) else None);
    if at < a.Length && !Recreated(l, a[at]) {
      a[at] := x;
    }
  }

  lemma CurrentAt(links: seq<Link>, at: nat, name: string)
    requires Unique(links)
    requires at <= |links| && forall k :: 0 <= k < at ==> links[k].name != name
    requires at < |links| ==> links[at].name == name
    ensures Current(View(links), name) == if at < |links| then Some(links[at]) else None
  {
    ViewNames(links, name);
    if at < |links| { ViewAt(links, at); }
  }

  // ---- addresses ----

  predicate LinkLocal(addr: string) { "fe80:" <= addr }

  /** The addresses the device shows. */
  function Have(m: map<string, Link>, dev: string): seq<string> { if dev in m then Reports(m[dev].addrs) else [] }

  function Drops(dev: string, have: seq<string>, want: seq<string>): seq<Command> {
    if have == [] then []
    else
      (if have[0] !in want && !LinkLocal(have[0]) then [Try(AddrDel(dev, have[0]))] else [])
      + Drops(dev, have[1..], want)
  }

  function Adds(dev: string, want: seq<string>, have: seq<string>): seq<Command> {
    if want == [] then []
    else (if want[0] !in have then [Must(AddrAdd(dev, want[0]))] else []) + Adds(dev, want[1..], have)
  }

  function DevPlan(d: Desired, m: map<string, Link>, dev: string): seq<Command>
    requires dev in d.addrs
  {
    if ByName(d.links, dev).None? && dev !in m then []
    else
      (if dev in d.dropAddrs then Drops(dev, Have(m, dev), d.addrs[dev]) else [])
      + Adds(dev, d.addrs[dev], Have(m, dev))
  }

  function AddrPlan(d: Desired, m: map<string, Link>, devs: seq<string>): seq<Command>
    requires forall dev :: dev in devs ==> dev in d.addrs
  {
    if devs == [] then [] else DevPlan(d, m, devs[0]) + AddrPlan(d, m, devs[1..])
  }

  method PlanDev(d: Desired, m: map<string, Link>, addrs: map<string, seq<string>>, dev: string)
    returns (ops: seq<Command>)
    requires dev in d.addrs && addrs == Addresses(m)
    ensures ops == DevPlan(d, m, dev)
  {
    ops := [];
    if ByName(d.links, dev).None? && dev !in m {
      return;
    }
    var have, want := if dev in addrs then addrs[dev] else [], d.addrs[dev];
    if dev in d.dropAddrs {
      ops := PlanDrops(dev, have, want);
    }
    var adds := PlanAdds(dev, want, have);
    ops := ops + adds;
  }

  method PlanDrops(dev: string, have: seq<string>, want: seq<string>) returns (ops: seq<Command>)
    ensures ops == Drops(dev, have, want)
  {
    ops := [];
    for i := 0 to |have|
      invariant ops + Drops(dev, have[i..], want) == Drops(dev, have, want)
    {
      Tail(have, i);
      Shift(ops,
        if have[i] !in want && !LinkLocal(have[i]) then [Try(AddrDel(dev, have[i]))] else [],
        Drops(dev, have[i + 1..], want));
      if have[i] !in want && !LinkLocal(have[i]) { ops := ops + [Try(AddrDel(dev, have[i]))]; }
    }
  }

  method PlanAdds(dev: string, want: seq<string>, have: seq<string>) returns (ops: seq<Command>)
    ensures ops == Adds(dev, want, have)
  {
    ops := [];
    for i := 0 to |want|
      invariant ops + Adds(dev, want[i..], have) == Adds(dev, want, have)
    {
      Tail(want, i);
      Shift(ops, if want[i] !in have then [Must(AddrAdd(dev, want[i]))] else [], Adds(dev, want[i + 1..], have));
      if want[i] !in have { ops := ops + [Must(AddrAdd(dev, want[i]))]; }
    }
  }

  lemma {:induction false} AddrPlanAppend(d: Desired, m: map<string, Link>, devs: seq<string>, dev: string)
    requires dev in d.addrs && forall x :: x in devs ==> x in d.addrs
    ensures AddrPlan(d, m, devs + [dev]) == AddrPlan(d, m, devs) + DevPlan(d, m, dev)
  {
    if devs == [] {
      assert [dev][1..] == [];
    } else {
      assert (devs + [dev])[1..] == devs[1..] + [dev];
      AddrPlanAppend(d, m, devs[1..], dev);
    }
  }

  /** Devices are visited in any order the map iteration gives. */
  method PlanAddrs(d: Desired, a: Actual) returns (ops: seq<Command>, ghost order: seq<string>)
    requires a.addrs == Addresses(View(a.links))
    ensures Enumerates(order, d.addrs.Keys) && ops == AddrPlan(d, View(a.links), order)
    ensures exists devs :: Enumerates(devs, d.addrs.Keys) && ops == AddrPlan(d, View(a.links), devs)
  {
    ops, order := [], [];
    var left := d.addrs.Keys;
    while left != {}
      invariant left <= d.addrs.Keys && Enumerates(order, d.addrs.Keys - left)
      invariant ops == AddrPlan(d, View(a.links), order)
    {
      var dev :| dev in left;
      AddrPlanAppend(d, View(a.links), order, dev);
      var more := PlanDev(d, View(a.links), a.addrs, dev);
      ops, order, left := ops + more, order + [dev], left - {dev};
    }
  }

  // ---- routes ----

  predicate HasRoute(rs: seq<Route>, dst: string, via: string, dev: string) {
    exists r :: r in rs && r.dst == dst && r.via == via && r.dev == dev
  }

  function RouteOf(w: DesiredRoute): Route { Route(w.dst, w.via, w.dev, w.metric) }

  predicate DesiredHas(ws: seq<DesiredRoute>, r: Route) {
    exists w :: w in ws && w.dst == r.dst && w.dev == r.dev && (w.via == r.via || r.via == "")
  }

  function Missing(ws: seq<DesiredRoute>, rs: seq<Route>): seq<Command> {
    if ws == [] then []
    else
      (if HasRoute(rs, ws[0].dst, ws[0].via, ws[0].dev) then [] else [Must(RouteReplace(RouteOf(ws[0])))])
      + Missing(ws[1..], rs)
  }

  predicate IsStale(ws: seq<DesiredRoute>, rs: seq<Route>, r: Route) {
    !DesiredHas(ws, r) && HasRoute(rs, r.dst, r.via, r.dev)
  }

  function Stale(ws: seq<DesiredRoute>, rs: seq<Route>, managed: seq<Route>): seq<Command> {
    if managed == [] then []
    else
      var r := managed[0];
      (if IsStale(ws, rs, r) then [Must(RouteDel(r.dst, r.via, r.dev))] else []) + Stale(ws, rs, managed[1..])
  }

  function RoutePlan(d: Desired, rs: seq<Route>, managed: seq<Route>): seq<Command> {
    Missing(d.routes, rs) + Stale(d.routes, rs, managed)
  }

  method FindRoute(rs: seq<Route>, dst: string, via: string, dev: string) returns (found: bool)
    ensures found == HasRoute(rs, dst, via, dev)
  {
    for i := 0 to |rs|
      invariant forall j :: 0 <= j < i ==> !(rs[j].dst == dst && rs[j].via == via && rs[j].dev == dev)
    {
      if rs[i].dst == dst && rs[i].via == via && rs[i].dev == dev { return true; }
    }
    return false;
  }

  method DesiredHasRoute(d: Desired, r: Route) returns (found: bool)
    ensures found == DesiredHas(d.routes, r)
  {
    for i := 0 to |d.routes|
      invariant forall j :: 0 <= j < i ==>
        !(d.routes[j].dst == r.dst && d.routes[j].dev == r.dev && (d.routes[j].via == r.via || r.via == ""))
    {
      var w := d.routes[i];
      if w.dst == r.dst && w.dev == r.dev && (w.via == r.via || r.via == "") { return true; }
    }
    return false;
  }

  method PlanRoutes(d: Desired, a: Actual, managed: seq<Route>) returns (ops: seq<Command>)
    ensures ops == RoutePlan(d, a.routes, managed)
  {
    ops := PlanMissing(d, a);
    var stale := PlanStale(d, a, managed);
    ops := ops + stale;
  }

  method PlanMissing(d: Desired, a: Actual) returns (ops: seq<Command>)
    ensures ops == Missing(d.routes, a.routes)
  {
    ops := [];
    for i := 0 to |d.routes|
      invariant ops + Missing(d.routes[i..], a.routes) == Missing(d.routes, a.routes)
    {
      var w := d.routes[i];
      var present := FindRoute(a.routes, w.dst, w.via, w.dev);
      Tail(d.routes, i);
      Shift(ops, if present then [] else [Must(RouteReplace(RouteOf(w)))], Missing(d.routes[i + 1..], a.routes));
      if !present { ops := ops + [Must(RouteReplace(RouteOf(w)))]; }
    }
  }

  method PlanStale(d: Desired, a: Actual, managed: seq<Route>) returns (ops: seq<Command>)
    ensures ops == Stale(d.routes, a.routes, managed)
  {
    ops := [];
    for i := 0 to |managed|
      invariant ops + Stale(d.routes, a.routes, managed[i..]) == Stale(d.routes, a.routes, managed)
    {
      var r := managed[i];
      Tail(managed, i);
      Shift(ops, if IsStale(d.routes, a.routes, r) then [Must(RouteDel(r.dst, r.via, r.dev))] else [],
            Stale(d.routes, a.routes, managed[i + 1..]));
      var wanted := DesiredHasRoute(d, r);
      if wanted { continue; }
      var present := FindRoute(a.routes, r.dst, r.via, r.dev);
      if !present { continue; }
      ops := ops + [Must(RouteDel(r.dst, r.via, r.dev))];
    }
  }

  // ---- firewall ----

  predicate Loaded(d: Desired, live: Ruleset) {
    d.ruleset.Ruleset? && d.ruleset.marker != "" && live.Ruleset? && live.marker == d.ruleset.marker
  }

  /** The ruleset is replaced unless the live one carries the wanted marker. */
  function FirewallPlan(d: Desired, live: Ruleset): seq<Command> {
    if Loaded(d, live) then [] else [Try(NftDelete), Must(NftLoad(d.ruleset))]
  }

  // ---- services ----

  const CONF_PATH := "/etc/dnsmasq.d/router.conf"
  const UNIT_PATH := "/etc/systemd/system/routerd-dnsmasq.service"
  const SERVICE := "routerd-dnsmasq"
  const UNIT_TEXT := "unit " + CONF_PATH

  predicate IsSpace(c: char) { c == ' ' || c == '\t' || c == '\n' || c == '\r' || c == '\U{0B}' || c == '\U{0C}' }

  function TrimLeft(s: string): string { if s != "" && IsSpace(s[0]) then TrimLeft(s[1..]) else s }

  function TrimRight(s: string): string { if s != "" && IsSpace(s[|s| - 1]) then TrimRight(s[..|s| - 1]) else s }

  function TrimSpace(s: string): string { TrimRight(TrimLeft(s)) }

  function Lookup(m: map<string, string>, k: string): string { if k in m then m[k] else "" }

  predicate FileIs(files: map<string, string>, path: string, text: string) { path in files && files[path] == text }

  predicate ConfStale(d: Desired, files: map<string, string>) {
    d.dnsmasqConf != "" && !FileIs(files, CONF_PATH, d.dnsmasqConf)
  }

  function UnitCommands(files: map<string, string>): seq<Command> {
    if FileIs(files, UNIT_PATH, UNIT_TEXT) then []
    else [Must(WriteFile(UNIT_PATH, UNIT_TEXT)), Must(Systemctl("daemon-reload", ""))]
  }

  function DnsmasqPlan(d: Desired, files: map<string, string>): seq<Command> {
    (if ConfStale(d, files) then
       [Must(WriteFile(CONF_PATH, d.dnsmasqConf))] + UnitCommands(files)
         + [Must(Systemctl("reload-or-restart", SERVICE))]
     else UnitCommands(files))
    + (if d.dnsmasqConf != "" && (ConfStale(d, files) || !FileIs(files, UNIT_PATH, UNIT_TEXT))
       then [Try(Systemctl("enable", SERVICE))] else [])
  }

  predicate WgStale(d: Desired, l: DesiredLink, live: map<string, string>) {
    l.kind == Wireguard && l.name in d.wgConf && TrimSpace(Lookup(live, l.name)) != TrimSpace(d.wgConf[l.name])
  }

  function WgPlan(d: Desired, ls: seq<DesiredLink>, live: map<string, string>): seq<Command> {
    if ls == [] then []
    else
      (if WgStale(d, ls[0], live) then [Must(WgSync(ls[0].name, d.wgConf[ls[0].name]))] else [])
      + WgPlan(d, ls[1..], live)
  }

  function ServicePlan(d: Desired, files: map<string, string>, live: map<string, string>): seq<Command> {
    DnsmasqPlan(d, files) + WgPlan(d, d.links, live)
  }

  method PlanServices(d: Desired, kernel: Fake) returns (ops: seq<Command>)
    ensures ops == ServicePlan(d, kernel.files, kernel.wgConf)
  {
    ops := [];
    var unitStale := UNIT_PATH !in kernel.files || kernel.files[UNIT_PATH] != UNIT_TEXT;
    var confChanged := d.dnsmasqConf != "" && (CONF_PATH !in kernel.files || kernel.files[CONF_PATH] != d.dnsmasqConf);
    if confChanged {
      ops := [Must(WriteFile(CONF_PATH, d.dnsmasqConf))];
      if unitStale {
        ops := ops + [Must(WriteFile(UNIT_PATH, UNIT_TEXT)), Must(Systemctl("daemon-reload", ""))];
      }
      ops := ops + [Must(Systemctl("reload-or-restart", SERVICE))];
    } else if unitStale {
      ops := [Must(WriteFile(UNIT_PATH, UNIT_TEXT)), Must(Systemctl("daemon-reload", ""))];
    }
    if d.dnsmasqConf != "" && (confChanged || unitStale) {
      ops := ops + [Try(Systemctl("enable", SERVICE))];
    }
    assert ops == DnsmasqPlan(d, kernel.files);
    for i := 0 to |d.links|
      invariant ops + WgPlan(d, d.links[i..], kernel.wgConf) == ServicePlan(d, kernel.files, kernel.wgConf)
    {
      var l := d.links[i];
      Tail(d.links, i);
      Shift(ops, if WgStale(d, l, kernel.wgConf) then [Must(WgSync(l.name, d.wgConf[l.name]))] else [],
            WgPlan(d, d.links[i + 1..], kernel.wgConf));
      if l.kind == Wireguard && l.name in d.wgConf {
        var conf := d.wgConf[l.name];
        if TrimSpace(Lookup(kernel.wgConf, l.name)) != TrimSpace(conf) {
          ops := ops + [Must(WgSync(l.name, conf))];
        }
      }
    }
  }
}
