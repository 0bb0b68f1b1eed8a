/**
  When one pass of the link reconciler converges. Plans are computed from a
  snapshot, but deleting a device kills its VLAN children and frees its bridge
  members while the plan runs; `LinksConvergible` says exactly which snapshots survive this.
 */
module LinkConvergence {
  import opened Wrappers
  import opened Kernel
  import opened Planner
  import opened LinkRun

  /** What the desired-state builder guarantees about its list of links. */
  ghost predicate WellFormedLinks(ls: seq<DesiredLink>) {
    && UniqueNames(ls)
    && (forall i :: 0 <= i < |ls| ==> ls[i].name != "" && ls[i].kind != Loopback)
    && (forall i :: 0 <= i < |ls| && ls[i].kind == Vlan ==> ls[i].parent != "" && 1 <= ls[i].vlanID <= 4094)
    && (forall i :: 0 <= i < |ls| && ls[i].master != "" ==> exists j :: 0 <= j < i && ls[j].name == ls[i].master)
  }

  predicate IsRecreated(m: Links, l: DesiredLink) { l.name in m && Recreated(l, m[l.name]) }

  /** No deleted link takes a desired link, or one whose own deletion comes later, with it. */
  ghost predicate DeletionSafe(d: Desired, links: seq<Link>) {
    forall i, j ::
      0 <= i < |links| && 0 <= j < |links| && i != j
      && Obsolete(d, links[i]) && links[j].parent == links[i].name ==>
      ByName(d.links, links[j].name).None? && (Obsolete(d, links[j]) ==> j < i)
  }

  /** No recreated link takes a desired link with it or frees one that is not enslaved again. */
  ghost predicate RecreationSafe(ls: seq<DesiredLink>, m: Links) {
    forall p, x :: 0 <= p < |ls| && 0 <= x < |ls| && p != x && IsRecreated(m, ls[p]) ==> PairSafe(ls, m, p, x)
  }

  ghost predicate PairSafe(ls: seq<DesiredLink>, m: Links, p: nat, x: nat)
    requires p < |ls| && x < |ls|
  {
    var gone, l := ls[p].name, ls[x];
    && (l.name in m && m[l.name].parent == gone ==> IsRecreated(m, l) && x < p)
    && (Created(l, Current(m, l.name)) && l.kind == Vlan && l.parent == gone ==> p < x)
    && (l.name in m && !IsRecreated(m, l) && l.master == gone ==> m[l.name].master != gone)
  }

  ghost predicate LinksConvergible(d: Desired, links: seq<Link>) {
    DeletionSafe(d, links) && RecreationSafe(d.links, View(links))
  }

  /** Nothing is left to plan and no physical interface is missing. */
  ghost predicate LinksSettled(d: Desired, links: seq<Link>) {
    LinkPlan(d, links) == [] && InterfacesExist(d, View(links))
  }

  // ---- what "nothing left to plan" means ----

  /** A link as desired. */
  predicate Done(d: Desired, l: DesiredLink, x: Link) {
    && !Recreated(l, x)
    && (l.mtu > 0 && l.kind == Vlan ==> x.mtu == l.mtu)
    && x.master == l.master
    && x.up == WantUp(d, l)
  }

  lemma NotMember(ls: seq<DesiredLink>, i: nat)
    requires UniqueNames(ls) && i < |ls| && ls[i].master == ""
    ensures !MemberOfDesired(ls, ls[i].name)
  {}

  lemma DonePlansNothing(d: Desired, i: nat, x: Link)
    requires UniqueNames(d.links) && i < |d.links|
    ensures LinkCommands(d, d.links[i], Some(x)) == [] <==> Done(d, d.links[i], x)
  {
    if d.links[i].master == "" { NotMember(d.links, i); }
  }

  /** The i-th desired link exists as desired. */
  predicate AsDesired(d: Desired, m: Links, i: nat)
    requires i < |d.links|
  {
    d.links[i].name in m && Done(d, d.links[i], m[d.links[i].name])
  }

  lemma PlansNothing(d: Desired, i: nat, m: Links)
    requires UniqueNames(d.links) && i < |d.links|
    ensures var l := d.links[i];
      LinkCommands(d, l, Current(m, l.name)) == [] && (l.kind == Ether ==> l.name in m) <==> AsDesired(d, m, i)
  {
    if d.links[i].name in m { DonePlansNothing(d, i, m[d.links[i].name]); }
  }

  lemma AllPlanNothing(d: Desired, m: Links)
    requires UniqueNames(d.links)
    ensures AllLinkCommands(d, d.links, m) == [] && InterfacesExist(d, m) <==>
            forall i :: 0 <= i < |d.links| ==> AsDesired(d, m, i)
  {
    NoLinkCommands(d, d.links, m);
    forall i | 0 <= i < |d.links|
      ensures var l := d.links[i];
        LinkCommands(d, l, Current(m, l.name)) == [] && (l.kind == Ether ==> l.name in m) <==> AsDesired(d, m, i)
    {
      PlansNothing(d, i, m);
    }
  }

  lemma {:induction false} NoDeletions(d: Desired, links: seq<Link>)
    ensures Deletions(d, links) == [] <==> forall i :: 0 <= i < |links| ==> !Obsolete(d, links[i])
  {
    if links != [] {
      NoDeletions(d, links[1..]);
      if Deletions(d, links) == [] {
        forall i | 0 <= i < |links| ensures !Obsolete(d, links[i]) {
          assert i > 0 ==> links[1..][i - 1] == links[i];
        }
      }
    }
  }

  lemma {:induction false} NoLinkCommands(d: Desired, ls: seq<DesiredLink>, m: Links)
    ensures AllLinkCommands(d, ls, m) == [] <==>
            forall i :: 0 <= i < |ls| ==> LinkCommands(d, ls[i], Current(m, ls[i].name)) == []
  {
    if ls != [] {
      var head, rest := LinkCommands(d, ls[0], Current(m, ls[0].name)), ls[1..];
      NoLinkCommands(d, rest, m);
      assert head + AllLinkCommands(d, rest, m) == [] <==> head == [] && AllLinkCommands(d, rest, m) == [];
      if AllLinkCommands(d, ls, m) == [] {
        forall i | 0 <= i < |ls| ensures LinkCommands(d, ls[i], Current(m, ls[i].name)) == [] {
          assert i > 0 ==> rest[i - 1] == ls[i];
        }
      }
    }
  }

  /** Nothing to plan: every desired link exists as desired and no managed link is left over. */
  lemma SettledMeans(d: Desired, links: seq<Link>)
    requires UniqueNames(d.links) && Unique(links)
    ensures LinksSettled(d, links) <==>
      && (forall i :: 0 <= i < |d.links| ==>
        d.links[i].name in View(links) && Done(d, d.links[i], View(links)[d.links[i].name]))
      && (forall i :: 0 <= i < |links| ==> !Obsolete(d, links[i]))
  {
    var m := View(links);
    NoDeletions(d, links);
    AllPlanNothing(d, m);
    assert forall i :: 0 <= i < |d.links| ==>
      (AsDesired(d, m, i) <==> d.links[i].name in m && Done(d, d.links[i], m[d.links[i].name]));
  }

  // ---- first phase: deletions ----

  /** The links after those in `gone` were deleted. */
  function Purge(m: Links, gone: set<string>): Links {
    map n | n in m && n !in gone && m[n].parent !in gone ::
      if m[n].master in gone then m[n].(master := "") else m[n]
  }

  ghost function ObsoleteIn(d: Desired, links: seq<Link>): set<string> {
    set x | x in links && Obsolete(d, x) :: x.name
  }

  lemma PurgeStep(m: Links, gone: set<string>, n: string)
    ensures DropView(Purge(m, gone), n) == Purge(m, gone + {n})
  {}

  lemma {:induction false} DeletionsRun(d: Desired, links: seq<Link>, i: nat)
    requires Unique(links) && DeletionSafe(d, links) && i <= |links|
    ensures RunView(Purge(View(links), ObsoleteIn(d, links[..i])), Deletions(d, links[i..]))
            == Some(Purge(View(links), ObsoleteIn(d, links)))
    decreases |links| - i
  {
    var m := View(links);
    if i == |links| {
      assert links[..i] == links;
    } else {
      var x, gone := links[i], ObsoleteIn(d, links[..i]);
      DeletionsRun(d, links, i + 1);
      assert links[..i + 1] == links[..i] + [x];
      assert links[i..][1..] == links[i + 1..];
      assert ObsoleteIn(d, links[..i + 1]) == if Obsolete(d, x) then gone + {x.name} else gone;
      if Obsolete(d, x) {
        ViewIn(links, x);
        assert x.name in Purge(m, gone);
        PurgeStep(m, gone, x.name);
        assert Deletions(d, links[i..]) == [Must(LinkDel(x.name))] + Deletions(d, links[i + 1..]);
      } else {
        assert Deletions(d, links[i..]) == Deletions(d, links[i + 1..]);
      }
    }
  }

  // ---- second phase: one desired link at a time ----

  /** Desired link `i` has been dealt with. */
  ghost predicate Finished(d: Desired, m0: Links, m: Links, i: nat)
    requires i < |d.links|
  {
    var l := d.links[i];
    && l.name in m && m[l.name].name == l.name && Done(d, l, m[l.name])
    && m[l.name].parent == (
      if l.name in m0 && !IsRecreated(m0, l) then m0[l.name].parent else if l.kind == Vlan then l.parent else "")
  }

  /** Desired link `i` is as observed, except that a deleted master may have freed it. */
  ghost predicate Waiting(d: Desired, m0: Links, m: Links, i: nat, j: nat)
    requires i < |d.links| && j <= |d.links|
  {
    var n := d.links[i].name;
    && (n in m <==> n in m0)
    && (n in m ==> m[n] == m0[n] || (m[n] == m0[n].(master := "") && MasterGone(d.links, m0, m0[n].master, j)))
  }

  ghost predicate MasterGone(ls: seq<DesiredLink>, m0: Links, master: string, j: nat)
    requires j <= |ls|
  {
    ByName(ls, master).None? || exists p :: 0 <= p < j && ls[p].name == master && IsRecreated(m0, ls[p])
  }

  ghost predicate FinishedBefore(d: Desired, m0: Links, m: Links, j: nat)
    requires j <= |d.links|
  {
    forall i :: 0 <= i < j ==> Finished(d, m0, m, i)
  }

  ghost predicate WaitingFrom(d: Desired, m0: Links, m: Links, from: nat, j: nat)
    requires j <= |d.links|
  {
    forall i :: from <= i < |d.links| ==> Waiting(d, m0, m, i, j)
  }

  ghost predicate Progress(d: Desired, m0: Links, m: Links, j: nat)
    requires j <= |d.links|
  {
    && FinishedBefore(d, m0, m, j)
    && WaitingFrom(d, m0, m, j, j)
    && (forall n :: n in m ==> m[n].name == n && (ByName(d.links, n).Some? || !Managed(m[n].kind)))
  }

  lemma ProgressStarts(d: Desired, links: seq<Link>)
    requires UniqueNames(d.links) && Unique(links) && DeletionSafe(d, links)
    ensures Progress(d, View(links), Purge(View(links), ObsoleteIn(d, links)), 0)
  {
    var m0 := View(links);
    var gone := ObsoleteIn(d, links);
    var m := Purge(m0, gone);
    forall n | n in m0 ensures m0[n].name == n && m0[n] in links && (n in gone <==> Obsolete(d, m0[n])) {
      ViewNames(links, n);
      if n in gone {
        var x :| x in links && Obsolete(d, x) && x.name == n;
        ViewIn(links, x);
      }
    }
    forall i | 0 <= i < |d.links| ensures Waiting(d, m0, m, i, 0) {
      var n := d.links[i].name;
      ByNameIs(d.links, i);
      if n in m0 {
        var j :| 0 <= j < |links| && links[j] == m0[n];
        assert m0[n].parent !in gone;
      }
    }
  }

  // Settings touch only the link itself.

  lemma MtuRun(l: DesiredLink, m: Links, x: Link)
    requires l.name in m
    ensures var y := m[l.name].(mtu := if MtuCommands(l, x) == [] then m[l.name].mtu else l.mtu);
            RunView(m, MtuCommands(l, x)) == Some(m[l.name := y])
  {
    RunOne(m, SetMtu(l.name, l.mtu));
    assert m[l.name := m[l.name]] == m;
  }

  lemma MasterRun(d: Desired, l: DesiredLink, m: Links, x: Link)
    requires l.name in m && (l.master != "" ==> l.master in m)
    ensures var y := m[l.name].(master := if MasterCommands(d, l, x) == [] then m[l.name].master else l.master);
            RunView(m, MasterCommands(d, l, x)) == Some(m[l.name := y])
  {
    RunOne(m, SetMaster(l.name, l.master));
    RunOne(m, NoMaster(l.name));
    assert m[l.name := m[l.name]] == m;
  }

  lemma UpRun(d: Desired, l: DesiredLink, m: Links, x: Link)
    requires l.name in m
    ensures var y := m[l.name].(up := if UpCommands(d, l, x) == [] then m[l.name].up else WantUp(d, l));
            RunView(m, UpCommands(d, l, x)) == Some(m[l.name := y])
  {
    RunOne(m, SetUp(l.name, WantUp(d, l)));
    assert m[l.name := m[l.name]] == m;
  }

  lemma SettingsRun(d: Desired, i: nat, m: Links, x: Link) returns (y: Link)
    requires UniqueNames(d.links) && i < |d.links|
    requires var l := d.links[i]; l.name in m && (l.master != "" ==> l.master in m)
    requires var l := d.links[i];
      !Recreated(l, m[l.name]) && m[l.name].up == x.up && (m[l.name].mtu == x.mtu || x.mtu == 0)
    requires var l := d.links[i];
      m[l.name].master == x.master || (m[l.name].master == "" && (x.master != l.master || l.master == ""))
    ensures var l := d.links[i];
      && RunView(m, MtuCommands(l, x) + (MasterCommands(d, l, x) + UpCommands(d, l, x))) == Some(m[l.name := y])
      && Done(d, l, y) && y.name == m[l.name].name && y.kind == m[l.name].kind && y.parent == m[l.name].parent
  {
    var l := d.links[i];
    if l.master == "" { NotMember(d.links, i); }
    var a, b, c := MtuCommands(l, x), MasterCommands(d, l, x), UpCommands(d, l, x);
    RunAppend(m, a, b + c);
    MtuRun(l, m, x);
    var m1 := RunView(m, a).value;
    RunAppend(m1, b, c);
    MasterRun(d, l, m1, x);
    var m2 := RunView(m1, b).value;
    UpRun(d, l, m2, x);
    y := RunView(m2, c).value[l.name];
    assert RunView(m2, c).value == m[l.name := y];
  }

  // Replacing desired link `j` does no harm to the others.

  lemma DropKeepsFinished(d: Desired, m0: Links, m: Links, i: nat, j: nat)
    requires WellFormedLinks(d.links) && RecreationSafe(d.links, m0) && i < j < |d.links|
    requires Finished(d, m0, m, i) && IsRecreated(m0, d.links[j])
    ensures Finished(d, m0, DropView(m, d.links[j].name), i)
  {
    var ls := d.links;
    assert PairSafe(ls, m0, j, i);
    assert ls[i].master != ls[j].name;
  }

  lemma DropKeepsWaiting(d: Desired, m0: Links, m: Links, i: nat, j: nat)
    requires WellFormedLinks(d.links) && RecreationSafe(d.links, m0) && j < i < |d.links|
    requires Waiting(d, m0, m, i, j) && IsRecreated(m0, d.links[j])
    ensures Waiting(d, m0, DropView(m, d.links[j].name), i, j + 1)
  {
    assert PairSafe(d.links, m0, j, i);
  }

  lemma DropKeeps(d: Desired, m0: Links, m: Links, j: nat)
    requires WellFormedLinks(d.links) && RecreationSafe(d.links, m0) && j < |d.links|
    requires FinishedBefore(d, m0, m, j) && WaitingFrom(d, m0, m, j + 1, j) && IsRecreated(m0, d.links[j])
    ensures FinishedBefore(d, m0, DropView(m, d.links[j].name), j)
    ensures WaitingFrom(d, m0, DropView(m, d.links[j].name), j + 1, j + 1)
  {
    var m2, next := DropView(m, d.links[j].name), j + 1;
    forall i | 0 <= i < j ensures Finished(d, m0, m2, i) { DropKeepsFinished(d, m0, m, i, j); }
    forall i | next <= i < |d.links| ensures Waiting(d, m0, m2, i, next) { DropKeepsWaiting(d, m0, m, i, j); }
  }

  lemma OthersWait(d: Desired, m0: Links, m: Links, j: nat)
    requires j < |d.links| && WaitingFrom(d, m0, m, j, j)
    ensures WaitingFrom(d, m0, m, j + 1, j + 1)
  {
    var next := j + 1;
    forall i | next <= i < |d.links| ensures Waiting(d, m0, m, i, next) {
      assert Waiting(d, m0, m, i, j);
    }
  }

  /** Writing link `j` does not concern the other desired links. */
  lemma PutElsewhere(d: Desired, m0: Links, m: Links, j: nat, y: Link)
    requires UniqueNames(d.links) && j < |d.links|
    ensures FinishedBefore(d, m0, m, j) ==> FinishedBefore(d, m0, m[d.links[j].name := y], j)
    ensures WaitingFrom(d, m0, m, j + 1, j + 1) ==> WaitingFrom(d, m0, m[d.links[j].name := y], j + 1, j + 1)
  {
    var m', next := m[d.links[j].name := y], j + 1;
    forall i | 0 <= i < j ensures Finished(d, m0, m, i) ==> Finished(d, m0, m', i) { }
    forall i | next <= i < |d.links| ensures Waiting(d, m0, m, i, next) ==> Waiting(d, m0, m', i, next) { }
  }

  /** Creating or replacing desired link `j`, ready for its settings. */
  lemma CreationRun(d: Desired, m0: Links, m: Links, j: nat) returns (m1: Links)
    requires WellFormedLinks(d.links) && RecreationSafe(d.links, m0) && j < |d.links|
    requires InterfacesExist(d, m0) && Progress(d, m0, m, j)
    ensures var l := d.links[j];
      && RunView(m, CreateCommands(l, Current(m0, l.name))) == Some(m1)
      && l.name in m1 && m1[l.name].name == l.name
      && (if l.name in m0 && !IsRecreated(m0, l) then m1 == m
          else m1[l.name] == NewLink(l.name, l.kind, l.parent, l.vlanID))
      && (forall n :: n in m1 && n != l.name ==> n in m && (m1[n] == m[n] || m1[n] == Unenslave(m[n], l.name)))
      && FinishedBefore(d, m0, m1, j) && WaitingFrom(d, m0, m1, j + 1, j + 1)
  {
    var l := d.links[j];
    var add, del := Create(l), Must(LinkDel(l.name));
    var blank := NewLink(l.name, l.kind, l.parent, l.vlanID);
    assert Waiting(d, m0, m, j, j);
    if l.name !in m0 {
      RunOne(m, add.action);
      m1 := m[l.name := blank];
      OthersWait(d, m0, m, j);
      PutElsewhere(d, m0, m, j, blank);
    } else if IsRecreated(m0, l) {
      var m2 := DropView(m, l.name);
      RunAppend(m, [del], [add]);
      RunOne(m, del.action);
      RunOne(m2, add.action);
      m1 := m2[l.name := blank];
      DropKeeps(d, m0, m, j);
      PutElsewhere(d, m0, m2, j, blank);
    } else {
      m1 := m;
      OthersWait(d, m0, m, j);
    }
  }

  lemma MasterPresent(d: Desired, m0: Links, m: Links, j: nat)
    requires WellFormedLinks(d.links) && j < |d.links| && d.links[j].master != ""
    requires FinishedBefore(d, m0, m, j)
    ensures d.links[j].master in m
  {
    var i :| 0 <= i < j && d.links[i].name == d.links[j].master;
    assert Finished(d, m0, m, i);
  }

  /** A kept link that lost its master is one the plan does not expect to keep it. */
  lemma KeptMaster(d: Desired, m0: Links, m: Links, j: nat)
    requires WellFormedLinks(d.links) && RecreationSafe(d.links, m0) && j < |d.links|
    requires var l := d.links[j]; l.name in m0 && !IsRecreated(m0, l) && Waiting(d, m0, m, j, j)
    ensures var l := d.links[j]; l.name in m
    ensures var l := d.links[j]; var x := m0[l.name];
      m[l.name].master == x.master || (m[l.name].master == "" && (x.master != l.master || l.master == ""))
  {
    var l := d.links[j];
    var x := m0[l.name];
    forall p | 0 <= p < j && d.links[p].name == l.master && IsRecreated(m0, d.links[p]) ensures x.master != l.master {
      assert PairSafe(d.links, m0, p, j);
    }
    if l.master != "" {
      var i :| 0 <= i < j && d.links[i].name == l.master;
      ByNameIs(d.links, i);
    }
  }

  /** The settings bring desired link `j`, created or kept, to its desired form. */
  lemma FinishLink(d: Desired, m0: Links, m: Links, m1: Links, j: nat) returns (y: Link)
    requires WellFormedLinks(d.links) && RecreationSafe(d.links, m0) && j < |d.links|
    requires FinishedBefore(d, m0, m1, j) && Waiting(d, m0, m, j, j) && InterfacesExist(d, m0)
    requires var l := d.links[j]; l.name in m1 && m1[l.name].name == l.name
    requires var l := d.links[j];
      if l.name in m0 && !IsRecreated(m0, l) then m1[l.name] == m[l.name]
        else m1[l.name] == NewLink(l.name, l.kind, l.parent, l.vlanID)
    ensures var l := d.links[j]; var x := Basis(l, Current(m0, l.name));
      RunView(m1, MtuCommands(l, x) + (MasterCommands(d, l, x) + UpCommands(d, l, x))) == Some(m1[l.name := y])
    ensures var l := d.links[j]; Finished(d, m0, m1[l.name := y], j) && y.kind == m1[l.name].kind
  {
    var l := d.links[j];
    if l.name in m0 && !IsRecreated(m0, l) { KeptMaster(d, m0, m, j); }
    if l.master != "" { MasterPresent(d, m0, m1, j); }
    y := SettingsRun(d, j, m1, Basis(l, Current(m0, l.name)));
  }

  lemma BlockRun(d: Desired, l: DesiredLink, cur: Option<Link>, m: Links, m1: Links, m2: Links)
    requires RunView(m, CreateCommands(l, cur)) == Some(m1)
    requires var x := Basis(l, cur);
      RunView(m1, MtuCommands(l, x) + (MasterCommands(d, l, x) + UpCommands(d, l, x))) == Some(m2)
    ensures RunView(m, LinkCommands(d, l, cur)) == Some(m2)
  {
    var x := Basis(l, cur);
    RunAppend(m, CreateCommands(l, cur), MtuCommands(l, x) + (MasterCommands(d, l, x) + UpCommands(d, l, x)));
  }

  lemma ProgressStep(d: Desired, m0: Links, m: Links, j: nat) returns (m': Links)
    requires WellFormedLinks(d.links) && RecreationSafe(d.links, m0) && j < |d.links|
    requires InterfacesExist(d, m0) && Progress(d, m0, m, j)
    ensures RunView(m, LinkCommands(d, d.links[j], Current(m0, d.links[j].name))) == Some(m')
    ensures Progress(d, m0, m', j + 1)
  {
    var l := d.links[j];
    var cur := Current(m0, l.name);
    assert Waiting(d, m0, m, j, j);
    var m1 := CreationRun(d, m0, m, j);
    var y := FinishLink(d, m0, m, m1, j);
    m' := m1[l.name := y];
    BlockRun(d, l, cur, m, m1, m');
    PutElsewhere(d, m0, m1, j, y);
    NamesKept(d, m, m1, j, y);
  }

  lemma NamesKept(d: Desired, m: Links, m1: Links, j: nat, y: Link)
    requires UniqueNames(d.links) && j < |d.links| && y.name == d.links[j].name
    requires forall n :: n in m ==> m[n].name == n && (ByName(d.links, n).Some? || !Managed(m[n].kind))
    requires forall n :: n in m1 && n != y.name ==> n in m && (m1[n] == m[n] || m1[n] == Unenslave(m[n], y.name))
    ensures var m' := m1[y.name := y];
      forall n :: n in m' ==> m'[n].name == n && (ByName(d.links, n).Some? || !Managed(m'[n].kind))
  {
    ByNameIs(d.links, j);
  }

  lemma RestRun(d: Desired, m0: Links, m: Links, m1: Links, j: nat)
    requires j < |d.links|
    requires RunView(m, LinkCommands(d, d.links[j], Current(m0, d.links[j].name))) == Some(m1)
    ensures RunView(m, AllLinkCommands(d, d.links[j..], m0)) == RunView(m1, AllLinkCommands(d, d.links[j + 1..], m0))
  {
    assert d.links[j..][1..] == d.links[j + 1..];
    RunAppend(m, LinkCommands(d, d.links[j], Current(m0, d.links[j].name)), AllLinkCommands(d, d.links[j + 1..], m0));
  }

  lemma Advance(d: Desired, m0: Links, m: Links, j: nat) returns (m1: Links)
    requires WellFormedLinks(d.links) && RecreationSafe(d.links, m0) && j < |d.links|
    requires InterfacesExist(d, m0) && Progress(d, m0, m, j)
    ensures Progress(d, m0, m1, j + 1)
    ensures RunView(m, AllLinkCommands(d, d.links[j..], m0)) == RunView(m1, AllLinkCommands(d, d.links[j + 1..], m0))
  {
    m1 := ProgressStep(d, m0, m, j);
    RestRun(d, m0, m, m1, j);
  }

  lemma {:induction false} AllRun(d: Desired, m0: Links, m: Links, j: nat) returns (m': Links)
    requires WellFormedLinks(d.links) && RecreationSafe(d.links, m0) && j <= |d.links|
    requires InterfacesExist(d, m0) && Progress(d, m0, m, j)
    ensures RunView(m, AllLinkCommands(d, d.links[j..], m0)) == Some(m') && Progress(d, m0, m', |d.links|)
    decreases |d.links| - j
  {
    if j == |d.links| {
      m' := m;
    } else {
      var m1 := Advance(d, m0, m, j);
      m' := AllRun(d, m0, m1, j + 1);
    }
  }

  /** From a convergible snapshot every command succeeds and every desired link ends up as desired. */
  lemma Sufficient(d: Desired, s: State)
    requires WellFormedLinks(d.links) && Unique(s.links) && InterfacesExist(d, View(s.links))
    requires LinksConvergible(d, s.links)
    ensures var o := Execute(s, LinkPlan(d, s.links)); o.ok && LinksSettled(d, o.state.links)
  {
    var m0 := View(s.links);
    var m1 := Purge(m0, ObsoleteIn(d, s.links));
    DeletionsRun(d, s.links, 0);
    assert s.links[..0] == [] && s.links[0..] == s.links;
    assert ObsoleteIn(d, []) == {};
    assert Purge(m0, {}) == m0;
    ProgressStarts(d, s.links);
    var m' := AllRun(d, m0, m1, 0);
    assert d.links[0..] == d.links;
    RunAppend(m0, Deletions(d, s.links), AllLinkCommands(d, d.links, m0));
    ExecuteLinks(s, LinkPlan(d, s.links));
    var links := Execute(s, LinkPlan(d, s.links)).state.links;
    forall i | 0 <= i < |links| ensures !Obsolete(d, links[i]) {
      ViewIn(links, links[i]);
    }
    forall i | 0 <= i < |d.links| ensures d.links[i].name in m' && Done(d, d.links[i], m'[d.links[i].name]) {
      assert Finished(d, m0, m', i);
    }
    SettledMeans(d, links);
  }
}
