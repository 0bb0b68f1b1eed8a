/** Executing link commands by name, and what a run leaves alone. */
module LinkRun {
  import opened Wrappers
  import opened Kernel
  import opened Planner

  type Links = map<string, Link>

  function RunView(m: Links, cs: seq<Command>): Option<Links>
    decreases |cs|
  {
    if cs == [] then Some(m)
    else
      var t := StepView(m, cs[0].action);
      if t.Some? then RunView(t.value, cs[1..])
      else if cs[0].ignoreErrors then RunView(m, cs[1..])
      else None
  }

  lemma {:induction false} RunAppend(m: Links, a: seq<Command>, b: seq<Command>)
    ensures RunView(m, a + b) == if RunView(m, a).Some? then RunView(RunView(m, a).value, b) else None
    decreases |a|
  {
    if a == [] {
      assert a + b == b;
    } else {
      assert (a + b)[1..] == a[1..] + b && (a + b)[0] == a[0];
      var t := StepView(m, a[0].action);
      RunAppend(if t.Some? then t.value else m, a[1..], b);
    }
  }

  /** A run of the kernel and a run by name agree on success and on the links. */
  lemma {:induction false} ExecuteLinks(s: State, cs: seq<Command>)
    requires Unique(s.links)
    ensures Unique(Execute(s, cs).state.links)
    ensures Execute(s, cs).ok == RunView(View(s.links), cs).Some?
    ensures Execute(s, cs).ok ==> View(Execute(s, cs).state.links) == RunView(View(s.links), cs).value
    decreases |cs|
  {
    if cs != [] {
      StepCommutes(s.links, cs[0].action);
      var t := Step(s, cs[0].action);
      if t.Some? {
        ExecuteLinks(t.value, cs[1..]);
      } else if cs[0].ignoreErrors {
        ExecuteLinks(s, cs[1..]);
      }
    }
  }

  // ---- what a run cannot bring back ----

  ghost predicate NoAdd(cs: seq<Command>, n: string) {
    forall c :: c in cs ==> !(c.action.LinkAdd? && c.action.name == n)
  }

  ghost predicate NoEnslave(cs: seq<Command>, n: string) {
    forall c :: c in cs ==> !(c.action.SetMaster? && c.action.name == n)
  }

  lemma StableStep(m: Links, a: Action, n: string)
    requires StepView(m, a).Some? && !(a.LinkAdd? && a.name == n) && n in StepView(m, a).value
    ensures n in m && StepView(m, a).value[n].parent == m[n].parent && StepView(m, a).value[n].vlanID == m[n].vlanID
    ensures !(a.SetMaster? && a.name == n) ==>
      StepView(m, a).value[n].master == m[n].master || StepView(m, a).value[n].master == ""
  {}

  /** Without an `add` a missing link stays missing and a surviving one keeps its parent and number. */
  lemma {:induction false} Stable(m: Links, cs: seq<Command>, n: string)
    requires RunView(m, cs).Some? && NoAdd(cs, n) && n in RunView(m, cs).value
    ensures n in m && RunView(m, cs).value[n].parent == m[n].parent && RunView(m, cs).value[n].vlanID == m[n].vlanID
    ensures NoEnslave(cs, n) ==>
      RunView(m, cs).value[n].master == m[n].master || RunView(m, cs).value[n].master == ""
    decreases |cs|
  {
    if cs != [] {
      var t := StepView(m, cs[0].action);
      assert NoAdd(cs[1..], n) && (NoEnslave(cs, n) ==> NoEnslave(cs[1..], n));
      if t.Some? {
        Stable(t.value, cs[1..], n);
        assert cs[0] in cs;
        StableStep(m, cs[0].action, n);
      } else {
        Stable(m, cs[1..], n);
      }
    }
  }

  lemma RunOne(m: Links, a: Action)
    ensures RunView(m, [Must(a)]) == StepView(m, a)
  {
    var cs := [Must(a)];
    assert cs[1..] == [] && cs[0] == Must(a);
  }

  /** The links right after one of the commands of a run. */
  lemma RunThrough(m: Links, cs: seq<Command>, k: nat) returns (before: Links, after: Links)
    requires RunView(m, cs).Some? && k < |cs| && !cs[k].ignoreErrors
    ensures RunView(m, cs[..k]) == Some(before) && StepView(before, cs[k].action) == Some(after)
    ensures RunView(after, cs[k + 1..]) == RunView(m, cs)
  {
    assert cs == cs[..k] + cs[k..];
    RunAppend(m, cs[..k], cs[k..]);
    before := RunView(m, cs[..k]).value;
    assert cs[k..][0] == cs[k] && cs[k..][1..] == cs[k + 1..];
    after := StepView(before, cs[k].action).value;
  }

  lemma NoAddPart(cs: seq<Command>, k: nat, n: string)
    requires k <= |cs|
    ensures NoAdd(cs, n) ==> NoAdd(cs[..k], n) && NoAdd(cs[k..], n)
    ensures NoEnslave(cs, n) ==> NoEnslave(cs[..k], n) && NoEnslave(cs[k..], n)
  {}

  /** A VLAN child of a device the run deletes is gone in the end, unless it is added again. */
  lemma Doomed(m: Links, cs: seq<Command>, p: string, n: string)
    requires Must(LinkDel(p)) in cs && NoAdd(cs, n) && (n in m ==> m[n].parent == p)
    ensures RunView(m, cs).Some? ==> n !in RunView(m, cs).value
  {
    if RunView(m, cs).Some? && n in RunView(m, cs).value {
      var k :| 0 <= k < |cs| && cs[k] == Must(LinkDel(p));
      var m1, m2 := RunThrough(m, cs, k);
      NoAddPart(cs, k, n);
      NoAddPart(cs, k + 1, n);
      Stable(m2, cs[k + 1..], n);
      Stable(m, cs[..k], n);
    }
  }

  /** ... and the run fails if it means to delete the child as well, later. */
  lemma DoomedThenDeleted(m: Links, cs: seq<Command>, p: string, n: string, rest: seq<Command>)
    requires Must(LinkDel(p)) in cs && NoAdd(cs, n) && (n in m ==> m[n].parent == p)
    ensures RunView(m, cs + ([Must(LinkDel(n))] + rest)) == None
  {
    Doomed(m, cs, p, n);
    RunAppend(m, cs, [Must(LinkDel(n))] + rest);
    if RunView(m, cs).Some? {
      RunAppend(RunView(m, cs).value, [Must(LinkDel(n))], rest);
      RunOne(RunView(m, cs).value, LinkDel(n));
    }
  }

  /** A bridge member freed by the bridge's deletion stays free unless it is enslaved again. */
  lemma Freed(m: Links, cs: seq<Command>, p: string, n: string)
    requires Must(LinkDel(p)) in cs && NoAdd(cs, n) && NoEnslave(cs, n) && (n in m ==> m[n].master == p)
    ensures RunView(m, cs).Some? && n in RunView(m, cs).value ==> RunView(m, cs).value[n].master == ""
  {
    if RunView(m, cs).Some? && n in RunView(m, cs).value {
      var k :| 0 <= k < |cs| && cs[k] == Must(LinkDel(p));
      var m1, m2 := RunThrough(m, cs, k);
      NoAddPart(cs, k, n);
      NoAddPart(cs, k + 1, n);
      Stable(m2, cs[k + 1..], n);
      Stable(m, cs[..k], n);
    }
  }

  // ---- shape of the link plan ----

  lemma {:induction false} DeletionsAppend(d: Desired, a: seq<Link>, b: seq<Link>)
    ensures Deletions(d, a + b) == Deletions(d, a) + Deletions(d, b)
  {
    if a == [] {
      assert a + b == b;
    } else {
      assert (a + b)[1..] == a[1..] + b;
      DeletionsAppend(d, a[1..], b);
    }
  }

  lemma {:induction false} DeletionIn(d: Desired, links: seq<Link>, i: nat)
    requires i < |links| && Obsolete(d, links[i])
    ensures Must(LinkDel(links[i].name)) in Deletions(d, links)
  {
    if i > 0 { DeletionIn(d, links[1..], i - 1); }
  }

  lemma DeletionsSplit(d: Desired, links: seq<Link>, i: nat)
    requires i < |links| && Obsolete(d, links[i])
    ensures Deletions(d, links) ==
            Deletions(d, links[..i]) + ([Must(LinkDel(links[i].name))] + Deletions(d, links[i + 1..]))
  {
    assert links == links[..i] + links[i..];
    DeletionsAppend(d, links[..i], links[i..]);
    assert links[i..][1..] == links[i + 1..];
  }

  lemma {:induction false} DeletionsOnly(d: Desired, links: seq<Link>)
    ensures forall c :: c in Deletions(d, links) ==> c.action.LinkDel?
  {
    if links != [] { DeletionsOnly(d, links[1..]); }
  }

  lemma Regroup(a: seq<Command>, b: seq<Command>, c: seq<Command>)
    ensures a + (b + c) == (a + b) + c
  {}

  lemma {:induction false} AllAppend(d: Desired, a: seq<DesiredLink>, b: seq<DesiredLink>, m: Links)
    ensures AllLinkCommands(d, a + b, m) == AllLinkCommands(d, a, m) + AllLinkCommands(d, b, m)
  {
    if a == [] {
      assert a + b == b;
    } else {
      AllAppend(d, a[1..], b, m);
      AllHead(d, a, b, m);
      AllHead(d, a, [], m);
      assert a + [] == a && a[1..] + [] == a[1..];
      Regroup(LinkCommands(d, a[0], Current(m, a[0].name)), AllLinkCommands(d, a[1..], m), AllLinkCommands(d, b, m));
    }
  }

  lemma AllHead(d: Desired, a: seq<DesiredLink>, b: seq<DesiredLink>, m: Links)
    requires a != []
    ensures AllLinkCommands(d, a + b, m) ==
            LinkCommands(d, a[0], Current(m, a[0].name)) + AllLinkCommands(d, a[1..] + b, m)
  {
    assert (a + b)[0] == a[0] && (a + b)[1..] == a[1..] + b;
  }

  lemma AllSplit(d: Desired, ls: seq<DesiredLink>, q: nat, m: Links)
    requires q < |ls|
    ensures AllLinkCommands(d, ls, m) ==
            AllLinkCommands(d, ls[..q], m)
              + (LinkCommands(d, ls[q], Current(m, ls[q].name)) + AllLinkCommands(d, ls[q + 1..], m))
  {
    assert ls == ls[..q] + ls[q..];
    AllAppend(d, ls[..q], ls[q..], m);
    assert ls[q..][1..] == ls[q + 1..];
  }

  lemma {:induction false} BlockIn(d: Desired, ls: seq<DesiredLink>, m: Links, p: nat, c: Command)
    requires p < |ls| && c in LinkCommands(d, ls[p], Current(m, ls[p].name))
    ensures c in AllLinkCommands(d, ls, m)
  {
    if p > 0 {
      assert ls[1..][p - 1] == ls[p];
      BlockIn(d, ls[1..], m, p - 1, c);
    }
  }

  ghost predicate AddsLink(d: Desired, ls: seq<DesiredLink>, m: Links, n: string) {
    exists i :: 0 <= i < |ls| && ls[i].name == n && Created(ls[i], Current(m, n))
  }

  ghost predicate EnslavesLink(d: Desired, ls: seq<DesiredLink>, m: Links, n: string) {
    exists i :: 0 <= i < |ls| && ls[i].name == n && ls[i].master != ""
      && Basis(ls[i], Current(m, n)).master != ls[i].master
  }

  lemma BlockShape(d: Desired, l: DesiredLink, cur: Option<Link>, n: string)
    ensures l.name != n || !Created(l, cur) ==> NoAdd(LinkCommands(d, l, cur), n)
    ensures l.name != n || l.master == "" || Basis(l, cur).master == l.master ==> NoEnslave(LinkCommands(d, l, cur), n)
  {}

  lemma {:induction false} AllShape(d: Desired, ls: seq<DesiredLink>, m: Links, n: string)
    ensures !AddsLink(d, ls, m, n) ==> NoAdd(AllLinkCommands(d, ls, m), n)
    ensures !EnslavesLink(d, ls, m, n) ==> NoEnslave(AllLinkCommands(d, ls, m), n)
  {
    if ls != [] {
      var rest := ls[1..];
      AllShape(d, rest, m, n);
      BlockShape(d, ls[0], Current(m, ls[0].name), n);
      if AddsLink(d, rest, m, n) {
        var i :| 0 <= i < |rest| && rest[i].name == n && Created(rest[i], Current(m, n));
        assert ls[i + 1] == rest[i];
      }
      if EnslavesLink(d, rest, m, n) {
        var i :| 0 <= i < |rest| && rest[i].name == n && rest[i].master != ""
          && Basis(rest[i], Current(m, n)).master != rest[i].master;
        assert ls[i + 1] == rest[i];
      }
      JoinShape(LinkCommands(d, ls[0], Current(m, ls[0].name)), AllLinkCommands(d, rest, m), n);
    }
  }

  lemma JoinShape(a: seq<Command>, b: seq<Command>, n: string)
    ensures NoAdd(a, n) && NoAdd(b, n) ==> NoAdd(a + b, n)
    ensures NoEnslave(a, n) && NoEnslave(b, n) ==> NoEnslave(a + b, n)
  {}
}
