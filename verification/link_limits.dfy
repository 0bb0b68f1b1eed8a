/** The link passes that cannot converge, and the exact condition for convergence. */
module LinkLimits {
  import opened Wrappers
  import opened Kernel
  import opened Planner
  import opened LinkRun
  import opened LinkConvergence

  /** Where a replaced link's own deletion stands in the plan. */
  lemma AroundRecreation(d: Desired, links: seq<Link>, x: nat) returns (after: seq<Command>)
    requires x < |d.links| && IsRecreated(View(links), d.links[x])
    ensures LinkPlan(d, links) == (Deletions(d, links) + AllLinkCommands(d, d.links[..x], View(links)))
                                  + ([Must(LinkDel(d.links[x].name))] + after)
  {
    var m, l := View(links), d.links[x];
    var cs := LinkCommands(d, l, Current(m, l.name));
    AllSplit(d, d.links, x, m);
    RecreationFirst(d, l, m[l.name]);
    after := cs[1..] + AllLinkCommands(d, d.links[x + 1..], m);
    Rearrange(Deletions(d, links), AllLinkCommands(d, d.links[..x], m), cs, AllLinkCommands(d, d.links[x + 1..], m));
  }

  lemma RecreationFirst(d: Desired, l: DesiredLink, x: Link)
    requires Recreated(l, x)
    ensures |LinkCommands(d, l, Some(x))| > 0 && LinkCommands(d, l, Some(x))[0] == Must(LinkDel(l.name))
  {}

  lemma Rearrange(a: seq<Command>, b: seq<Command>, c: seq<Command>, e: seq<Command>)
    requires |c| > 0
    ensures a + (b + (c + e)) == (a + b) + ([c[0]] + (c[1..] + e))
  {}

  lemma ReplacementIn(d: Desired, links: seq<Link>, ls: seq<DesiredLink>, p: nat)
    requires p < |ls| && IsRecreated(View(links), ls[p])
    ensures Must(LinkDel(ls[p].name)) in AllLinkCommands(d, ls, View(links))
  {
    var l := ls[p];
    RecreationFirst(d, l, View(links)[l.name]);
    var cs := LinkCommands(d, l, Current(View(links), l.name));
    assert cs[0] in cs;
    BlockIn(d, ls, View(links), p, cs[0]);
  }

  /** Both phases of the plan, the second up to some desired link, leave `n` alone. */
  lemma PlanNoAdd(d: Desired, links: seq<Link>, ls: seq<DesiredLink>, n: string)
    ensures !AddsLink(d, ls, View(links), n) ==> NoAdd(Deletions(d, links) + AllLinkCommands(d, ls, View(links)), n)
    ensures !EnslavesLink(d, ls, View(links), n) ==>
      NoEnslave(Deletions(d, links) + AllLinkCommands(d, ls, View(links)), n)
  {
    DeletionsOnly(d, links);
    AllShape(d, ls, View(links), n);
    JoinShape(Deletions(d, links), AllLinkCommands(d, ls, View(links)), n);
  }

  /** The links a successful, settled pass ends with. */
  lemma Ends(d: Desired, s: State) returns (mf: Links)
    requires WellFormedLinks(d.links) && Unique(s.links)
    requires var o := Execute(s, LinkPlan(d, s.links)); o.ok && LinksSettled(d, o.state.links)
    ensures RunView(View(s.links), LinkPlan(d, s.links)) == Some(mf)
    ensures forall i :: 0 <= i < |d.links| ==> d.links[i].name in mf && Done(d, d.links[i], mf[d.links[i].name])
  {
    ExecuteLinks(s, LinkPlan(d, s.links));
    var o := Execute(s, LinkPlan(d, s.links));
    SettledMeans(d, o.state.links);
    mf := View(o.state.links);
  }

  // ---- deletions ----

  lemma LaterDeletionFails(d: Desired, links: seq<Link>, i: nat, j: nat)
    requires Unique(links) && i < j < |links| && Obsolete(d, links[i]) && Obsolete(d, links[j])
    requires links[j].parent == links[i].name
    ensures RunView(View(links), LinkPlan(d, links)) == None
  {
    var head, n := links[..j], links[j].name;
    ViewIn(links, links[j]);
    DeletionsSplit(d, links, j);
    DeletionIn(d, head, i);
    DeletionsOnly(d, head);
    var del, rest, all := [Must(LinkDel(n))], Deletions(d, links[j + 1..]), AllLinkCommands(d, d.links, View(links));
    DoomedThenDeleted(View(links), Deletions(d, head), links[i].name, n, rest + all);
    Reassociate(Deletions(d, head), del, rest, all);
  }

  lemma Reassociate(a: seq<Command>, b: seq<Command>, c: seq<Command>, e: seq<Command>)
    ensures a + (b + (c + e)) == (a + (b + c)) + e
  {}

  /** A link that exists and is not replaced is not added, and not enslaved if its master is right. */
  lemma KeptIsNotAdded(d: Desired, m: Links, q: nat)
    requires UniqueNames(d.links) && q < |d.links|
    requires d.links[q].name in m && !Recreated(d.links[q], m[d.links[q].name])
    ensures !AddsLink(d, d.links, m, d.links[q].name)
    ensures d.links[q].master == m[d.links[q].name].master ==> !EnslavesLink(d, d.links, m, d.links[q].name)
  {
    forall i | 0 <= i < |d.links| && d.links[i].name == d.links[q].name ensures i == q {}
  }

  lemma NotAddedBefore(d: Desired, m: Links, q: nat)
    requires UniqueNames(d.links) && q < |d.links|
    ensures !AddsLink(d, d.links[..q], m, d.links[q].name)
  {
    forall i | 0 <= i < q ensures d.links[..q][i].name != d.links[q].name {}
  }

  lemma DeletedChildIsLost(d: Desired, links: seq<Link>, i: nat, j: nat, q: nat)
    requires WellFormedLinks(d.links) && Unique(links) && i < |links| && j < |links| && q < |d.links|
    requires Obsolete(d, links[i]) && links[j].parent == links[i].name && d.links[q].name == links[j].name
    ensures var r := RunView(View(links), LinkPlan(d, links)); r.Some? ==> links[j].name !in r.value
  {
    var m, p, n, l := View(links), links[i].name, links[j].name, d.links[q];
    ViewIn(links, links[j]);
    DeletionIn(d, links, i);
    if Recreated(l, m[n]) {
      var rest := AroundRecreation(d, links, q);
      NotAddedBefore(d, m, q);
      PlanNoAdd(d, links, d.links[..q], n);
      DoomedThenDeleted(m, Deletions(d, links) + AllLinkCommands(d, d.links[..q], m), p, n, rest);
    } else {
      KeptIsNotAdded(d, m, q);
      PlanNoAdd(d, links, d.links, n);
      Doomed(m, LinkPlan(d, links), p, n);
    }
  }

  lemma NeedsDeletionSafe(d: Desired, s: State)
    requires WellFormedLinks(d.links) && Unique(s.links)
    requires var o := Execute(s, LinkPlan(d, s.links)); o.ok && LinksSettled(d, o.state.links)
    ensures DeletionSafe(d, s.links)
  {
    var links := s.links;
    var mf := Ends(d, s);
    forall i, j | 0 <= i < |links| && 0 <= j < |links| && i != j && Obsolete(d, links[i])
      && links[j].parent == links[i].name
      ensures ByName(d.links, links[j].name).None? && (Obsolete(d, links[j]) ==> j < i)
    {
      ByNameAt(d.links, links[j].name);
      if ByName(d.links, links[j].name).Some? {
        var q :| 0 <= q < |d.links| && d.links[q].name == links[j].name;
        DeletedChildIsLost(d, links, i, j, q);
      } else if Obsolete(d, links[j]) && i < j {
        LaterDeletionFails(d, links, i, j);
      }
    }
  }

  // ---- replacements ----

  lemma KeptChildIsLost(d: Desired, links: seq<Link>, p: nat, x: nat)
    requires WellFormedLinks(d.links) && Unique(links) && p < |d.links| && x < |d.links| && p != x
    requires var m := View(links); var l := d.links[x];
      IsRecreated(m, d.links[p]) && l.name in m && m[l.name].parent == d.links[p].name && !IsRecreated(m, l)
    ensures var r := RunView(View(links), LinkPlan(d, links)); r.Some? ==> d.links[x].name !in r.value
  {
    ReplacementIn(d, links, d.links, p);
    KeptIsNotAdded(d, View(links), x);
    PlanNoAdd(d, links, d.links, d.links[x].name);
    Doomed(View(links), LinkPlan(d, links), d.links[p].name, d.links[x].name);
  }

  lemma LaterReplacementFails(d: Desired, links: seq<Link>, p: nat, x: nat)
    requires WellFormedLinks(d.links) && Unique(links) && p < x < |d.links|
    requires var m := View(links); var l := d.links[x];
      IsRecreated(m, d.links[p]) && IsRecreated(m, l) && m[l.name].parent == d.links[p].name
    ensures RunView(View(links), LinkPlan(d, links)) == None
  {
    var m, n := View(links), d.links[x].name;
    var rest := AroundRecreation(d, links, x);
    ReplacementIn(d, links, d.links[..x], p);
    NotAddedBefore(d, m, x);
    PlanNoAdd(d, links, d.links[..x], n);
    DoomedThenDeleted(m, Deletions(d, links) + AllLinkCommands(d, d.links[..x], m), d.links[p].name, n, rest);
  }

  /** Nothing later in the plan adds a desired link again. */
  lemma NoLaterAdd(d: Desired, m: Links, x: nat)
    requires UniqueNames(d.links) && x < |d.links|
    ensures NoAdd(AllLinkCommands(d, d.links[x + 1..], m), d.links[x].name)
  {
    var rest := d.links[x + 1..];
    forall i | 0 <= i < |rest| ensures rest[i].name != d.links[x].name { assert rest[i] == d.links[x + 1 + i]; }
    AllShape(d, rest, m, d.links[x].name);
  }

  lemma LaterReplacementIn(d: Desired, links: seq<Link>, p: nat, x: nat)
    requires x < p < |d.links| && IsRecreated(View(links), d.links[p])
    ensures Must(LinkDel(d.links[p].name)) in AllLinkCommands(d, d.links[x + 1..], View(links))
  {
    assert d.links[x + 1..][p - x - 1] == d.links[p];
    ReplacementIn(d, links, d.links[x + 1..], p - x - 1);
  }

  lemma AfterCommand(a: seq<Command>, b: seq<Command>, c: seq<Command>, e: seq<Command>, i: nat, n: string,
                     del: Command)
    requires i < |c| && NoAdd(c[i + 1..], n) && NoAdd(e, n) && del in e
    ensures var cs := a + (b + (c + e)); var k := |a + b| + i;
      k < |cs| && cs[k] == c[i] && NoAdd(cs[k + 1..], n) && del in cs[k + 1..]
  {
    Locate(a, b, c, e, i);
    JoinShape(c[i + 1..], e, n);
  }

  /** A link created before its parent is replaced: after its `add`, its parent is deleted and nothing adds it again. */
  lemma AfterCreation(d: Desired, links: seq<Link>, p: nat, x: nat) returns (k: nat)
    requires WellFormedLinks(d.links) && x < p < |d.links|
    requires var m := View(links); IsRecreated(m, d.links[p]) && Created(d.links[x], Current(m, d.links[x].name))
    ensures var cs := LinkPlan(d, links);
      k < |cs| && cs[k] == Create(d.links[x]) && NoAdd(cs[k + 1..], d.links[x].name)
        && Must(LinkDel(d.links[p].name)) in cs[k + 1..]
  {
    var m, l := View(links), d.links[x];
    var block := LinkCommands(d, l, Current(m, l.name));
    var b := CreationIn(d, l, Current(m, l.name));
    k := |Deletions(d, links) + AllLinkCommands(d, d.links[..x], m)| + b;
    AllSplit(d, d.links, x, m);
    NoLaterAdd(d, m, x);
    LaterReplacementIn(d, links, p, x);
    AfterCommand(Deletions(d, links), AllLinkCommands(d, d.links[..x], m), block,
      AllLinkCommands(d, d.links[x + 1..], m),
                 b, l.name, Must(LinkDel(d.links[p].name)));
  }

  lemma Locate(a: seq<Command>, b: seq<Command>, c: seq<Command>, e: seq<Command>, i: nat)
    requires i < |c|
    ensures var cs := a + (b + (c + e)); var k := |a + b| + i;
      k < |cs| && cs[k] == c[i] && cs[k + 1..] == c[i + 1..] + e
  {}

  lemma CreationIn(d: Desired, l: DesiredLink, cur: Option<Link>) returns (b: nat)
    requires Created(l, cur)
    ensures var cs := LinkCommands(d, l, cur); b < |cs| && cs[b] == Create(l) && NoAdd(cs[b + 1..], l.name)
  {
    b := if cur.None? then 0 else 1;
    var x := Basis(l, cur);
    var rest := MtuCommands(l, x) + (MasterCommands(d, l, x) + UpCommands(d, l, x));
    assert LinkCommands(d, l, cur)[b + 1..] == rest;
  }

  lemma NewChildIsLost(d: Desired, links: seq<Link>, p: nat, x: nat)
    requires WellFormedLinks(d.links) && Unique(links) && x < p < |d.links|
    requires var m := View(links); var l := d.links[x];
      IsRecreated(m, d.links[p]) && Created(l, Current(m, l.name)) && l.kind == Vlan && l.parent == d.links[p].name
    ensures var r := RunView(View(links), LinkPlan(d, links)); r.Some? ==> d.links[x].name !in r.value
  {
    var cs := LinkPlan(d, links);
    var k := AfterCreation(d, links, p, x);
    if RunView(View(links), cs).Some? {
      var m1, m2 := RunThrough(View(links), cs, k);
      Doomed(m2, cs[k + 1..], d.links[p].name, d.links[x].name);
    }
  }

  lemma MemberIsFreed(d: Desired, links: seq<Link>, p: nat, x: nat)
    requires WellFormedLinks(d.links) && Unique(links) && p < |d.links| && x < |d.links| && p != x
    requires var m := View(links); var l := d.links[x];
      IsRecreated(m, d.links[p]) && l.name in m && !IsRecreated(m, l) && l.master == m[l.name].master == d.links[p].name
    ensures var r := RunView(View(links), LinkPlan(d, links));
      r.Some? && d.links[x].name in r.value ==> r.value[d.links[x].name].master == ""
  {
    ReplacementIn(d, links, d.links, p);
    KeptIsNotAdded(d, View(links), x);
    PlanNoAdd(d, links, d.links, d.links[x].name);
    Freed(View(links), LinkPlan(d, links), d.links[p].name, d.links[x].name);
  }

  lemma NeedsRecreationSafe(d: Desired, s: State)
    requires WellFormedLinks(d.links) && Unique(s.links)
    requires var o := Execute(s, LinkPlan(d, s.links)); o.ok && LinksSettled(d, o.state.links)
    ensures RecreationSafe(d.links, View(s.links))
  {
    var m, ls := View(s.links), d.links;
    var mf := Ends(d, s);
    forall p, x | 0 <= p < |ls| && 0 <= x < |ls| && p != x && IsRecreated(m, ls[p]) ensures PairSafe(ls, m, p, x) {
      var gone, l := ls[p].name, ls[x];
      assert l.name in mf && Done(d, l, mf[l.name]);
      if l.name in m && m[l.name].parent == gone {
        if !IsRecreated(m, l) {
          KeptChildIsLost(d, s.links, p, x);
        } else if p < x {
          LaterReplacementFails(d, s.links, p, x);
        }
      }
      if Created(l, Current(m, l.name)) && l.kind == Vlan && l.parent == gone && x < p {
        NewChildIsLost(d, s.links, p, x);
      }
      if l.name in m && !IsRecreated(m, l) && l.master == gone == m[l.name].master {
        MemberIsFreed(d, s.links, p, x);
      }
    }
  }

  /** One pass over the links succeeds and leaves nothing to plan exactly from the convergible snapshots. */
  lemma LinkPassConverges(d: Desired, s: State)
    requires WellFormedLinks(d.links) && Unique(s.links) && InterfacesExist(d, View(s.links))
    ensures var o := Execute(s, LinkPlan(d, s.links));
      o.ok && LinksSettled(d, o.state.links) <==> LinksConvergible(d, s.links)
  {
    var o := Execute(s, LinkPlan(d, s.links));
    if LinksConvergible(d, s.links) {
      Sufficient(d, s);
    }
    if o.ok && LinksSettled(d, o.state.links) {
      NeedsDeletionSafe(d, s);
      NeedsRecreationSafe(d, s);
    }
  }
}
