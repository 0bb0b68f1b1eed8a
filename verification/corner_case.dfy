/**
  An apply that verifies although it killed a physical interface it wants: a bridge member named
  like a VLAN of a bridge that goes (router/internal/reconcile/engine.go:130-138, 545-590).
 */
module CornerCase {
  import opened Wrappers
  import opened Kernel
  import opened Planner
  import Models
  import Prefixes
  import AddressText
  import Defaults
  import ValidNetworks
  import DesiredState
  import BuiltState
  import opened Sequences
  import opened LinkRun
  import opened LinkConvergence
  import opened AddressConvergence
  import opened RouteConvergence
  import opened ServiceConvergence
  import opened Convergence
  import opened LinkPhase
  import opened ApplyRuns

  /** The out-of-the-box configuration with one bridge member. */
  function CornerConfig(): Models.Config {
    var c := Defaults.DefaultConfig();
    c.(networks := [c.networks[0].(members := ["old.5"])])
  }

  const ARTIFACTS := DesiredState.Artifacts(Ruleset("sha", "table inet router {}"), "", (t: Models.Tunnel) => "")

  function Address(): string { Prefixes.Show(Models.V4(0xC0A8_0101, 24)) }

  function Corner(): Desired {
    Desired(["eth0"],
            [DesiredLink("eth0", Ether, "", "", 0, 0, true), DesiredLink("br-lan", Bridge, "", "", 0, 0, true),
             DesiredLink("old.5", Ether, "", "br-lan", 0, 0, true)],
            map["br-lan" := [Address()]], {"br-lan"}, [], ARTIFACTS.ruleset, "", map[])
  }

  lemma CornerValid()
    ensures DesiredState.Valid(CornerConfig()) && BuiltState.NoBlankMembers(CornerConfig().networks)
  {
    ValidNetworks.DefaultNetworkClean(["old.5"], Models.NoCidr);
  }

  lemma CornerMentions()
    ensures DesiredState.Mentions(CornerConfig()) == Corner().links
  {
    var c := CornerConfig();
    var n := c.networks[0];
    assert Init(c.wans) == [] && Init(c.networks) == [] && Init(n.members) == [];
    assert DesiredState.WanLinks(c.wans) == [Corner().links[0]];
    assert c.wans[0].iface == "eth0" != "br-lan";
    assert DesiredState.OwnLinks(c, n) == [Corner().links[1]];
    assert DesiredState.MemberLinks(n.members, n.iface) == [Corner().links[2]];
    assert DesiredState.NetLinks(c, c.networks) == [Corner().links[1], Corner().links[2]];
  }

  lemma CornerFirst()
    ensures DesiredState.FirstByName(Corner().links) == Corner().links
  {
    var ls := Corner().links;
    BuiltState.FirstSnoc([], ls[0]);
    BuiltState.FirstSnoc([ls[0]], ls[1]);
    BuiltState.FirstSnoc([ls[0], ls[1]], ls[2]);
    assert [] + [ls[0]] == [ls[0]] && [ls[0]] + [ls[1]] == [ls[0], ls[1]] && [ls[0], ls[1]] + [ls[2]] == ls;
  }

  lemma CornerAddresses()
    ensures DesiredState.Group(DesiredState.Pairs(CornerConfig()) + []) == Corner().addrs
  {
    var c := CornerConfig();
    assert Init(c.wans) == [] && Init(c.networks) == [];
    assert DesiredState.WanPairs(c.wans) == [];
    assert DesiredState.NetPairs(c.networks) == [("br-lan", Address())];
    var pairs := DesiredState.Pairs(c) + [];
    assert pairs == [("br-lan", Address())] && Init(pairs) == [];
    assert DesiredState.Group(Init(pairs)) == map[];
    assert [] + [Address()] == [Address()];
  }

  lemma CornerRest()
    ensures DesiredState.WanIfaces(CornerConfig().wans) == ["eth0"] && DesiredState.WanRoutes(CornerConfig().wans) == []
    ensures DesiredState.WanDrops(CornerConfig().wans) == {}
    ensures DesiredState.NetDrops(CornerConfig(), CornerConfig().networks) == {"br-lan"}
  {
    var c := CornerConfig();
    assert Init(c.wans) == [] && Init(c.networks) == [];
    assert c.wans[0].iface == "eth0" != "br-lan";
  }

  /** The program builds this desired state from it. */
  lemma CornerBuilt()
    ensures DesiredState.Build(CornerConfig(), None, ARTIFACTS, []) == Corner()
  {
    CornerMentions();
    CornerFirst();
    CornerAddresses();
    CornerRest();
  }

  // ---- the kernel it meets ----

  /** Uplink and bridge as desired, a bridge that goes, and its VLAN under the member's name. */
  function CornerLinks(): seq<Link> {
    [Link("eth0", Ether, "", "", 0, 1500, true, []), Link("br-lan", Bridge, "", "", 0, 1500, true, [Address()]),
     Link("old", Bridge, "", "", 0, 1500, true, []), Link("old.5", Vlan, "br-lan", "old", 5, 1496, true, [])]
  }

  function Left(): seq<Link> { [CornerLinks()[0], CornerLinks()[1]] }

  function CornerState(links: seq<Link>): State {
    State(links, [], ARTIFACTS.ruleset, map[UNIT_PATH := UNIT_TEXT], map[], [])
  }

  lemma CornerUnique()
    ensures Unique(CornerLinks()) && Unique(Left())
  {}

  lemma CornerView(links: seq<Link>)
    requires links == CornerLinks() || links == Left()
    ensures "eth0" in View(links) && View(links)["eth0"] == CornerLinks()[0]
    ensures "br-lan" in View(links) && View(links)["br-lan"] == CornerLinks()[1]
  {
    CornerUnique();
    ViewIn(links, links[0]);
    ViewIn(links, links[1]);
  }

  lemma CornerMember()
    ensures "old.5" in View(CornerLinks()) && View(CornerLinks())["old.5"] == CornerLinks()[3]
    ensures "old.5" !in View(Left())
  {
    CornerUnique();
    ViewIn(CornerLinks(), CornerLinks()[3]);
    ViewNames(Left(), "old.5");
    assert Left()[0].name == "eth0" && Left()[1].name == "br-lan";
  }

  lemma CornerNames()
    ensures UniqueNames(Corner().links) && ByName(Corner().links, "old").None?
    ensures forall i :: 0 <= i < 3 ==> ByName(Corner().links, Corner().links[i].name) == Some(Corner().links[i])
  {
    forall i | 0 <= i < 3 ensures ByName(Corner().links, Corner().links[i].name) == Some(Corner().links[i]) {
      ByNameIs(Corner().links, i);
    }
    ByNameAt(Corner().links, "old");
  }

  lemma DropOne(x: Link, rest: seq<Link>, dev: string)
    ensures DropLink([x] + rest, dev)
      == (if x.name == dev || x.parent == dev then [] else [Unenslave(x, dev)]) + DropLink(rest, dev)
    ensures ([x] + rest)[1..] == rest
  {
    assert ([x] + rest)[1..] == rest;
  }

  lemma DeleteOne(d: Desired, x: Link, rest: seq<Link>)
    ensures Deletions(d, [x] + rest) == (if Obsolete(d, x) then [Must(LinkDel(x.name))] else []) + Deletions(d, rest)
  {
    assert ([x] + rest)[1..] == rest;
  }

  lemma CornerFates()
    ensures var ls := CornerLinks();
      && ls[2].name == "old" && ls[3].parent == "old"
      && ls[0].name != "old" && ls[0].parent != "old" && Unenslave(ls[0], "old") == ls[0]
      && ls[1].name != "old" && ls[1].parent != "old" && Unenslave(ls[1], "old") == ls[1]
  {}

  lemma CornerSplit()
    ensures var ls := CornerLinks();
      && ls == [ls[0]] + ([ls[1]] + ([ls[2]] + ([ls[3]] + [])))
      && Left() == [ls[0]] + ([ls[1]] + [])
  {}

  lemma CornerDrop()
    ensures DropLink(CornerLinks(), "old") == Left()
  {
    var ls := CornerLinks();
    CornerFates();
    CornerSplit();
    DropOne(ls[3], [], "old");
    DropOne(ls[2], [ls[3]] + [], "old");
    DropOne(ls[1], [ls[2]] + ([ls[3]] + []), "old");
    DropOne(ls[0], [ls[1]] + ([ls[2]] + ([ls[3]] + [])), "old");
  }

  lemma CornerObsolete()
    ensures var d, ls := Corner(), CornerLinks();
      Obsolete(d, ls[2]) && !Obsolete(d, ls[0]) && !Obsolete(d, ls[1]) && !Obsolete(d, ls[3])
  {
    var d := Corner();
    CornerNames();
    assert d.links[0].name == "eth0" && d.links[1].name == "br-lan" && d.links[2].name == "old.5";
  }

  lemma CornerDeletions()
    ensures Deletions(Corner(), CornerLinks()) == [Must(LinkDel("old"))]
  {
    var d, ls := Corner(), CornerLinks();
    CornerObsolete();
    CornerSplit();
    DeleteOne(d, ls[3], []);
    DeleteOne(d, ls[2], [ls[3]] + []);
    DeleteOne(d, ls[1], [ls[2]] + ([ls[3]] + []));
    DeleteOne(d, ls[0], [ls[1]] + ([ls[2]] + ([ls[3]] + [])));
  }

  lemma LeftDeletions()
    ensures Deletions(Corner(), Left()) == []
  {
    var d, ls := Corner(), Left();
    CornerObsolete();
    CornerSplit();
    DeleteOne(d, ls[1], []);
    DeleteOne(d, ls[0], [ls[1]] + []);
  }

  /** Uplink, bridge and member are as desired where they exist; a missing member is not created. */
  lemma CornerBlock(links: seq<Link>, i: nat)
    requires (links == CornerLinks() || links == Left()) && i < 3
    ensures LinkCommands(Corner(), Corner().links[i], Current(View(links), Corner().links[i].name)) == []
  {
    CornerView(links);
    CornerMember();
    CornerNames();
    DonePlansNothing(Corner(), i, CornerLinks()[if i == 2 then 3 else i]);
  }

  lemma CornerLinksKept(links: seq<Link>)
    requires links == CornerLinks() || links == Left()
    ensures AllLinkCommands(Corner(), Corner().links, View(links)) == []
  {
    forall i | 0 <= i < |Corner().links|
      ensures LinkCommands(Corner(), Corner().links[i], Current(View(links), Corner().links[i].name)) == []
    {
      CornerBlock(links, i);
    }
    NoLinkCommands(Corner(), Corner().links, View(links));
  }

  lemma CornerStep()
    ensures Execute(CornerState(CornerLinks()), [Must(LinkDel("old"))]) == Outcome(CornerState(Left()), true)
  {
    var c := Must(LinkDel("old"));
    CornerDrop();
    CornerUnique();
    ViewIn(CornerLinks(), CornerLinks()[2]);
    var s, t := CornerState(CornerLinks()), CornerState(Left());
    assert s.wgConf - {"old"} == map[];
    assert Step(s, c.action) == Some(t);
    assert [c][1..] == [];
  }

  lemma CornerAddrPlan()
    ensures AddrPlan(Corner(), View(Left()), ["br-lan"]) == [] && AddrsSettled(Corner(), View(Left()))
  {
    CornerView(Left());
    Prefixes.ShowPlain(Models.V4(0xC0A8_0101, 24));
    AddressText.PlainReadsBack(Address());
    assert AddressText.Reports([Address()]) == [Address()];
    DevSettled(Corner(), View(Left()), "br-lan");
    assert ["br-lan"][1..] == [];
  }

  lemma CornerTail()
    ensures TailPlan(Corner(), CornerState(Left()), []) == []
  {
    var d, t := Corner(), CornerState(Left());
    TailEmpty(d, t, []);
    RoutePlanEmpty(d, Normals(t.routes), []);
    NoWg(d, d.links, t.wgConf);
  }

  lemma CornerLinkPhase()
    ensures Execute(CornerState(CornerLinks()), LinkPlan(Corner(), CornerLinks())) == Outcome(CornerState(Left()), true)
    ensures LinkPlan(Corner(), Left()) == []
  {
    CornerDeletions();
    LeftDeletions();
    CornerLinksKept(CornerLinks());
    CornerLinksKept(Left());
    CornerStep();
    assert [Must(LinkDel("old"))] + [] == [Must(LinkDel("old"))];
  }

  lemma CornerInterfaces()
    ensures InterfacesExist(Corner(), View(CornerLinks())) && !InterfacesExist(Corner(), View(Left()))
  {
    CornerView(CornerLinks());
    CornerMember();
    var ls := Corner().links;
    assert ls == [ls[0], ls[1], ls[2]] && ls[2] in ls;
  }

  /** An apply of three phases, the last two with nothing to do. */
  lemma OnlyLinkPhase(d: Desired, s: State, t: State, order: seq<string>)
    requires forall dev :: dev in order ==> dev in d.addrs
    requires InterfacesExist(d, View(s.links)) && Execute(s, LinkPlan(d, s.links)) == Outcome(t, true)
    requires AddrPlan(d, View(t.links), order) == [] && TailPlan(d, t, []) == []
    requires LinkPlan(d, t.links) == [] && AddrsSettled(d, View(t.links))
    ensures ApplyOutcome(d, s, [], order) == Outcome(t, true)
  {}

  lemma CornerApplied()
    ensures Applied(Corner(), CornerState(CornerLinks()), [], CornerState(Left()))
  {
    CornerLinkPhase();
    CornerAddrPlan();
    CornerTail();
    CornerInterfaces();
    OnlyLinkPhase(Corner(), CornerState(CornerLinks()), CornerState(Left()), ["br-lan"]);
    assert Enumerates(["br-lan"], Corner().addrs.Keys);
  }

  lemma CornerWellFormed()
    ensures WellFormed(Corner(), [])
  {
    CornerValid();
    CornerMentions();
    CornerFirst();
    BuiltState.LinksWellFormed(CornerConfig());
  }

  /**
    A valid configuration and a kernel on which its apply verifies and leaves a desired physical
    interface gone: the next apply fails its interface check.
   */
  lemma VerifiedYetMissing() returns (c: Models.Config, d: Desired, s: State, t: State)
    ensures DesiredState.Valid(c) && d == DesiredState.Build(c, None, ARTIFACTS, [])
    ensures WellFormed(d, []) && Unique(s.links) && Applied(d, s, [], t) && !InterfacesExist(d, View(t.links))
  {
    c, d, s, t := CornerConfig(), Corner(), CornerState(CornerLinks()), CornerState(Left());
    CornerValid();
    CornerBuilt();
    CornerWellFormed();
    CornerApplied();
    CornerUnique();
    CornerInterfaces();
  }
}
