/** What the link pass does to routes, to addresses and to links nobody asked for. */
module LinkPhase {
  import opened Wrappers
  import opened Sequences
  import opened Kernel
  import opened Planner
  import opened LinkRun
  import opened LinkConvergence
  import opened LinkLimits

  // ---- routes ----

  /** The link pass deletes this device, for good or to replace it. */
  predicate DeletedDev(d: Desired, m: Links, n: string) {
    n in m && (Obsolete(d, m[n]) || exists l :: l in d.links && l.name == n && IsRecreated(m, l))
  }

  function Surviving(d: Desired, s: State): seq<Route> {
    var m := View(s.links);
    Select(s.routes, (r: Route) => !DeletedDev(d, m, r.dev))
  }

  ghost predicate LinkOnly(c: Command) {
    !c.ignoreErrors && (c.action.LinkAdd? || c.action.LinkDel? || c.action.SetMtu? || c.action.SetMaster?
      || c.action.NoMaster? || c.action.SetUp?)
  }

  lemma {:induction false} LinksFrame(s: State, cs: seq<Command>)
    requires Execute(s, cs).ok && forall c :: c in cs ==> LinkOnly(c)
    ensures var t := Execute(s, cs).state;
      && t.ruleset == s.ruleset && t.files == s.files && t.services == s.services
      && (forall r :: r in t.routes <==> r in s.routes && Must(LinkDel(r.dev)) !in cs)
    decreases |cs|
  {
    if cs != [] {
      assert cs[0] in cs && LinkOnly(cs[0]);
      forall c | c in cs[1..] ensures LinkOnly(c) { assert c in cs; }
      LinksFrame(Step(s, cs[0].action).value, cs[1..]);
      assert forall c :: c in cs <==> c == cs[0] || c in cs[1..];
    }
  }

  lemma {:induction false} DeletionsShape(d: Desired, links: seq<Link>)
    ensures forall c :: c in Deletions(d, links) ==>
      LinkOnly(c) && exists x :: x in links && Obsolete(d, x) && c == Must(LinkDel(x.name))
  {
    if links != [] { DeletionsShape(d, links[1..]); }
  }

  lemma BlockOnly(d: Desired, l: DesiredLink, cur: Option<Link>)
    ensures forall c :: c in LinkCommands(d, l, cur) ==>
      LinkOnly(c) && (c.action.LinkDel? ==> cur.Some? && Recreated(l, cur.value) && c == Must(LinkDel(l.name)))
  {}

  lemma {:induction false} BlocksOnly(d: Desired, ls: seq<DesiredLink>, m: Links)
    ensures forall c :: c in AllLinkCommands(d, ls, m) ==>
      LinkOnly(c) && (c.action.LinkDel? ==> exists l :: l in ls && IsRecreated(m, l) && c == Must(LinkDel(l.name)))
  {
    if ls != [] {
      BlocksOnly(d, ls[1..], m);
      BlockOnly(d, ls[0], Current(m, ls[0].name));
    }
  }

  lemma PlanShape(d: Desired, links: seq<Link>)
    requires Unique(links)
    ensures forall c :: c in LinkPlan(d, links) ==> LinkOnly(c)
    ensures forall n :: Must(LinkDel(n)) in LinkPlan(d, links) <==> DeletedDev(d, View(links), n)
  {
    var m := View(links);
    DeletionsShape(d, links);
    BlocksOnly(d, d.links, m);
    forall n ensures Must(LinkDel(n)) in LinkPlan(d, links) <==> DeletedDev(d, m, n) {
      var c := Must(LinkDel(n));
      if c in Deletions(d, links) {
        var x :| x in links && Obsolete(d, x) && c == Must(LinkDel(x.name));
        ViewIn(links, x);
      }
      if n in m && Obsolete(d, m[n]) {
        ViewNames(links, n);
        var i :| 0 <= i < |links| && links[i] == m[n];
        DeletionIn(d, links, i);
      }
      if l :| l in d.links && l.name == n && IsRecreated(m, l) {
        var p :| 0 <= p < |d.links| && d.links[p] == l;
        ReplacementIn(d, links, d.links, p);
      }
    }
  }

  /** The routes a successful link pass leaves are those whose device it did not delete. */
  lemma RoutesAfterLinks(d: Desired, s: State)
    requires Unique(s.links) && Execute(s, LinkPlan(d, s.links)).ok
    ensures var t := Execute(s, LinkPlan(d, s.links)).state;
      && t.ruleset == s.ruleset && t.files == s.files && t.services == s.services
      && forall r :: r in t.routes <==> r in Surviving(d, s)
  {
    PlanShape(d, s.links);
    LinksFrame(s, LinkPlan(d, s.links));
  }

  // ---- addresses ----

  lemma {:induction false} AddrsKept(m: Links, cs: seq<Command>, n: string)
    requires RunView(m, cs).Some? && NoAdd(cs, n) && n in RunView(m, cs).value && forall c :: c in cs ==> LinkOnly(c)
    ensures n in m && RunView(m, cs).value[n].addrs == m[n].addrs
    decreases |cs|
  {
    if cs != [] {
      assert cs[0] in cs && LinkOnly(cs[0]);
      forall c | c in cs[1..] ensures LinkOnly(c) { assert c in cs; }
      AddrsKept(StepView(m, cs[0].action).value, cs[1..], n);
    }
  }

  /** The addresses a desired device starts from: those it had, or none if it is new or replaced. */
  function AddrsBefore(l: DesiredLink, m: Links): seq<string> {
    if l.name in m && !IsRecreated(m, l) then m[l.name].addrs else []
  }

  /** A link that is kept keeps its addresses. */
  lemma KeptStarts(d: Desired, s: State, i: nat)
    requires WellFormedLinks(d.links) && Unique(s.links) && i < |d.links|
    requires !Created(d.links[i], Current(View(s.links), d.links[i].name))
    requires var r := RunView(View(s.links), LinkPlan(d, s.links)); r.Some? && d.links[i].name in r.value
    ensures d.links[i].name in View(s.links)
    ensures RunView(View(s.links), LinkPlan(d, s.links)).value[d.links[i].name].addrs ==
            View(s.links)[d.links[i].name].addrs
  {
    var l, m := d.links[i], View(s.links);
    PlanShape(d, s.links);
    if l.name in m { KeptIsNotAdded(d, m, i); } else { NeverAdded(d, m, i); }
    PlanNoAdd(d, s.links, d.links, l.name);
    AddrsKept(m, LinkPlan(d, s.links), l.name);
  }

  lemma NeverAdded(d: Desired, m: Links, i: nat)
    requires UniqueNames(d.links) && i < |d.links| && !Created(d.links[i], Current(m, d.links[i].name))
    ensures !AddsLink(d, d.links, m, d.links[i].name)
  {
    forall k | 0 <= k < |d.links| && d.links[k].name == d.links[i].name ensures k == i {}
  }

  /** Addresses of a desired link after the link pass: none on a new device, the old ones on a kept one. */
  lemma StartingAddrs(d: Desired, s: State, i: nat)
    requires WellFormedLinks(d.links) && Unique(s.links) && i < |d.links|
    requires Execute(s, LinkPlan(d, s.links)).ok
    requires d.links[i].name in View(Execute(s, LinkPlan(d, s.links)).state.links)
    ensures var l := d.links[i]; var m, m1 := View(s.links), View(Execute(s, LinkPlan(d, s.links)).state.links);
      m1[l.name].addrs == AddrsBefore(l, m)
  {
    ExecuteLinks(s, LinkPlan(d, s.links));
    if Created(d.links[i], Current(View(s.links), d.links[i].name)) {
      NewIsEmpty(d, s, i);
    } else {
      KeptStarts(d, s, i);
    }
  }

  /** Link commands, none of which adds `n`, leave a link without addresses without any. */
  lemma RestKeepsEmpty(m: Links, cs: seq<Command>, k: nat, l: DesiredLink)
    requires (forall c :: c in cs ==> LinkOnly(c)) && k < |cs| && cs[k] == Create(l) && NoAdd(cs[k + 1..], l.name)
    requires RunView(m, cs).Some? && l.name in RunView(m, cs).value
    ensures RunView(m, cs).value[l.name].addrs == []
  {
    var m1, m2 := RunThrough(m, cs, k);
    forall c | c in cs[k + 1..] ensures LinkOnly(c) { assert c in cs; }
    AddrsKept(m2, cs[k + 1..], l.name);
  }

  /** Where the plan creates a desired link, for the last time. */
  lemma CreationAt(d: Desired, links: seq<Link>, i: nat) returns (k: nat)
    requires WellFormedLinks(d.links) && i < |d.links| && Created(d.links[i], Current(View(links), d.links[i].name))
    ensures var cs := LinkPlan(d, links); k < |cs| && cs[k] == Create(d.links[i]) && NoAdd(cs[k + 1..], d.links[i].name)
  {
    var l, m := d.links[i], View(links);
    var block, tail := LinkCommands(d, l, Current(m, l.name)), AllLinkCommands(d, d.links[i + 1..], m);
    var b := CreationIn(d, l, Current(m, l.name));
    AllSplit(d, d.links, i, m);
    Locate(Deletions(d, links), AllLinkCommands(d, d.links[..i], m), block, tail, b);
    NoLaterAdd(d, m, i);
    JoinShape(block[b + 1..], tail, l.name);
    k := |Deletions(d, links) + AllLinkCommands(d, d.links[..i], m)| + b;
  }

  lemma NewIsEmpty(d: Desired, s: State, i: nat)
    requires WellFormedLinks(d.links) && Unique(s.links) && i < |d.links|
    requires Created(d.links[i], Current(View(s.links), d.links[i].name))
    requires var r := RunView(View(s.links), LinkPlan(d, s.links)); r.Some? && d.links[i].name in r.value
    ensures RunView(View(s.links), LinkPlan(d, s.links)).value[d.links[i].name].addrs == []
  {
    var k := CreationAt(d, s.links, i);
    PlanShape(d, s.links);
    RestKeepsEmpty(View(s.links), LinkPlan(d, s.links), k, d.links[i]);
  }

  // ---- links nobody asked for ----

  /** A link outlasts the pass if neither it nor its parent is deleted. */
  predicate Remains(d: Desired, m: Links, n: string) {
    n in m && !DeletedDev(d, m, n) && !DeletedDev(d, m, m[n].parent)
  }

  lemma KeptStep(m: Links, c: Command, n: string)
    requires LinkOnly(c) && StepView(m, c.action).Some? && !(c.action.LinkAdd? && c.action.name == n)
    ensures var m1 := StepView(m, c.action).value;
      && (n in m1 <==> n in m && c != Must(LinkDel(n)) && c != Must(LinkDel(m[n].parent)))
      && (n in m1 ==> m1[n].parent == m[n].parent)
  {}

  lemma {:induction false} KeptThrough(m: Links, cs: seq<Command>, n: string)
    requires RunView(m, cs).Some? && NoAdd(cs, n) && forall c :: c in cs ==> LinkOnly(c)
    ensures n in RunView(m, cs).value <==> n in m && Must(LinkDel(n)) !in cs && Must(LinkDel(m[n].parent)) !in cs
    decreases |cs|
  {
    if cs != [] {
      assert cs[0] in cs && LinkOnly(cs[0]);
      forall c | c in cs[1..] ensures LinkOnly(c) { assert c in cs; }
      assert forall c :: c in cs <==> c == cs[0] || c in cs[1..];
      KeptStep(m, cs[0], n);
      KeptThrough(StepView(m, cs[0].action).value, cs[1..], n);
    }
  }

  /** Of the links that are not desired, exactly those remain, with their addresses. */
  lemma OthersAfterLinks(d: Desired, s: State, n: string)
    requires Unique(s.links) && Execute(s, LinkPlan(d, s.links)).ok && ByName(d.links, n).None?
    ensures var m, m1 := View(s.links), View(Execute(s, LinkPlan(d, s.links)).state.links);
      && (n in m1 <==> Remains(d, m, n))
      && (n in m1 ==> m1[n].addrs == m[n].addrs)
  {
    var m, cs := View(s.links), LinkPlan(d, s.links);
    ExecuteLinks(s, cs);
    PlanShape(d, s.links);
    ByNameAt(d.links, n);
    PlanNoAdd(d, s.links, d.links, n);
    KeptThrough(m, cs, n);
    if n in RunView(m, cs).value { AddrsKept(m, cs, n); }
  }

  /** The addresses a device starts from, once the link pass is done. */
  function Starting(d: Desired, m: Links, n: string): seq<string> {
    if n in m && !DeletedDev(d, m, n) then m[n].addrs else []
  }

  lemma DesiredStarts(d: Desired, m: Links, i: nat)
    requires UniqueNames(d.links) && i < |d.links|
    requires forall n :: n in m ==> m[n].name == n
    ensures Starting(d, m, d.links[i].name) == AddrsBefore(d.links[i], m)
  {
    ByNameIs(d.links, i);
    forall l | l in d.links && l.name == d.links[i].name ensures l == d.links[i] {}
  }

  /** The devices the address pass plans for, and what they start from, are known before the link pass. */
  lemma StartsAs(d: Desired, s: State, n: string)
    requires WellFormedLinks(d.links) && Unique(s.links) && Execute(s, LinkPlan(d, s.links)).ok
    requires forall i :: 0 <= i < |d.links| ==> d.links[i].name in View(Execute(s, LinkPlan(d, s.links)).state.links)
    ensures var m, m1 := View(s.links), View(Execute(s, LinkPlan(d, s.links)).state.links);
      && (n in m1 <==> ByName(d.links, n).Some? || Remains(d, m, n))
      && (n in m1 ==> m1[n].addrs == Starting(d, m, n))
  {
    ByNameAt(d.links, n);
    if ByName(d.links, n).None? {
      OthersAfterLinks(d, s, n);
    } else {
      var i :| 0 <= i < |d.links| && d.links[i].name == n;
      forall k | k in View(s.links) ensures View(s.links)[k].name == k { ViewNames(s.links, k); }
      StartingAddrs(d, s, i);
      DesiredStarts(d, View(s.links), i);
    }
  }
}
