/**
  The in-memory Linux kernel that plans are executed against
  (router/internal/platform/fake.go). `Step` says what one command does to a
  kernel state; class `Fake` is the simulation with its fields updated in place.
 */
module Kernel {
  import opened Wrappers
  import opened Sequences

  datatype LinkType = Bridge | Wireguard | Vlan | Ether | Loopback

  datatype Link = Link(name: string, kind: LinkType, master: string, parent: string,
                       vlanID: int, mtu: int, up: bool, addrs: seq<string>)

  datatype Route = Route(dst: string, via: string, dev: string, metric: int)

  // A loaded nft script, reduced to the marker `nft list ruleset` shows and its text.
  datatype Ruleset = NoRuleset | Ruleset(marker: string, text: string)

  datatype State = State(links: seq<Link>, routes: seq<Route>, ruleset: Ruleset,
                         files: map<string, string>, wgConf: map<string, string>, services: seq<string>)

  datatype Action =
    | LinkAdd(name: string, kind: LinkType, parent: string, id: int)
    | LinkDel(name: string)
    | SetMtu(name: string, mtu: int)
    | SetMaster(name: string, master: string)
    | NoMaster(name: string)
    | SetUp(name: string, up: bool)
    | AddrAdd(dev: string, cidr: string)
    | AddrDel(dev: string, cidr: string)
    | RouteReplace(route: Route)
    | RouteDel(dst: string, via: string, dev: string)
    | NftDelete
    | NftLoad(ruleset: Ruleset)
    | WriteFile(path: string, data: string)
    | Systemctl(verb: string, unit: string)
    | WgSync(iface: string, conf: string)

  // ---- links ----

  ghost predicate Unique(links: seq<Link>) {
    forall i, j :: 0 <= i < j < |links| ==> links[i].name != links[j].name
  }

  /** Links by name; the first of a name wins, as in `find`. */
  function View(links: seq<Link>): map<string, Link> {
    if links == [] then map[] else View(links[1..])[links[0].name := links[0]]
  }

  function Replace(links: seq<Link>, l: Link): seq<Link> {
    if links == [] then []
    else if links[0].name == l.name then [l] + links[1..]
    else [links[0]] + Replace(links[1..], l)
  }

  function Unenslave(l: Link, master: string): Link {
    if l.master == master then l.(master := "") else l
  }

  /** Deleting a device drops it and its VLAN children and frees its bridge members. */
  function DropLink(links: seq<Link>, dev: string): seq<Link> {
    if links == [] then []
    else if links[0].name == dev || links[0].parent == dev then DropLink(links[1..], dev)
    else [Unenslave(links[0], dev)] + DropLink(links[1..], dev)
  }

  // ---- routes and addresses ----

  function Select(rs: seq<Route>, keep: Route -> bool): (out: seq<Route>)
    ensures forall r :: r in out <==> r in rs && keep(r)
  {
    if rs == [] then [] else (if keep(rs[0]) then [rs[0]] else []) + Select(rs[1..], keep)
  }

  /** What `ip route del` matches: an omitted `via` or `dev` matches anything. */
  predicate Covers(dst: string, via: string, dev: string, r: Route) {
    r.dst == dst && (via == "" || r.via == via) && (dev == "" || r.dev == dev)
  }

  function Without(xs: seq<string>, v: string): (out: seq<string>)
    ensures forall x :: x in out <==> x in xs && x != v
  {
    if xs == [] then [] else (if xs[0] == v then [] else [xs[0]]) + Without(xs[1..], v)
  }

  // ---- one command ----

  function NewLink(name: string, kind: LinkType, parent: string, id: int): Link {
    if kind == Vlan then Link(name, Vlan, "", parent, id, 1496, false, [])
    else Link(name, kind, "", "", 0, 1500, false, [])
  }

  predicate Creatable(kind: LinkType, parent: string, id: int) {
    kind == Bridge || kind == Wireguard || (kind == Vlan && parent != "" && 1 <= id <= 4094)
  }

  /** The links after a command, or None when the command is rejected. */
  function StepLinks(links: seq<Link>, a: Action): Option<seq<Link>> {
    var m := View(links);
    match a
    case LinkAdd(n, kind, parent, id) =>
      if n == "" || n in m || !Creatable(kind, parent, id) then None
      else Some(links + [NewLink(n, kind, parent, id)])
    case LinkDel(n) => if n !in m then None else Some(DropLink(links, n))
    case SetMtu(n, mtu) => if n !in m then None else Some(Replace(links, m[n].(mtu := mtu)))
    case SetMaster(n, master) =>
      if n !in m || master !in m then None else Some(Replace(links, m[n].(master := master)))
    case NoMaster(n) => if n !in m then None else Some(Replace(links, m[n].(master := "")))
    case SetUp(n, up) => if n !in m then None else Some(Replace(links, m[n].(up := up)))
    case AddrAdd(n, cidr) =>
      if n !in m || '/' !in cidr then None
      else Some(Replace(links, m[n].(addrs := if cidr in m[n].addrs then m[n].addrs else m[n].addrs + [cidr])))
    case AddrDel(n, cidr) =>
      if n !in m || '/' !in cidr then None else Some(Replace(links, m[n].(addrs := Without(m[n].addrs, cidr))))
    case WgSync(n, _) => if n !in m then None else Some(links)
    case _ => Some(links)
  }

  function Step(s: State, a: Action): Option<State> {
    var links := StepLinks(s.links, a);
    if links.None? then None
    else
      var t := s.(links := links.value);
      match a
      case LinkDel(n) => Some(t.(routes := Select(s.routes, (r: Route) => r.dev != n), wgConf := s.wgConf - {n}))
      case RouteReplace(r) => Some(t.(routes := s.routes + [r]))
      case RouteDel(dst, via, dev) => Some(t.(routes := Select(s.routes, (r: Route) => !Covers(dst, via, dev, r))))
      case NftDelete => Some(t.(ruleset := NoRuleset))
      case NftLoad(rs) => Some(t.(ruleset := rs))
      case WriteFile(path, data) => Some(t.(files := s.files[path := data]))
      case Systemctl(verb, unit) =>
        Some(if verb == "daemon-reload" then t else t.(services := s.services + [verb + " " + unit]))
      case WgSync(n, conf) => Some(t.(wgConf := s.wgConf[n := conf]))
      case _ => Some(t)
  }

  // ---- the simulation ----

  class Fake {
    var links: seq<Link>
    var routes: seq<Route>
    var ruleset: Ruleset
    var files: map<string, string>
    var wgConf: map<string, string>
    var services: seq<string>

    ghost predicate Valid() reads this { Unique(links) }

    function Snapshot(): State reads this { State(links, routes, ruleset, files, wgConf, services) }

    /** A host with loopback and the given physical interfaces. */
    constructor (ethIfaces: seq<string>)
      requires forall i, j :: 0 <= i < j < |ethIfaces| ==> ethIfaces[i] != ethIfaces[j]
      ensures Valid() && routes == [] && ruleset == NoRuleset && files == map[] && wgConf == map[] && services == []
      ensures forall n :: n in View(links) <==> n == "lo" || n in ethIfaces
      ensures forall l :: l in links ==>
        l.kind == (if l.name == "lo" then Loopback else Ether) && l.master == l.parent == "" && l.addrs == []
    {
      var ls := [Link("lo", Loopback, "", "", 0, 65536, false, [])];
      for k := 0 to |ethIfaces|
        invariant Unique(ls)
        invariant forall n :: n in View(ls) <==> n == "lo" || n in ethIfaces[..k]
        invariant forall l :: l in ls ==>
          l.kind == (if l.name == "lo" then Loopback else Ether) && l.master == l.parent == "" && l.addrs == []
      {
        if ethIfaces[k] != "lo" {
          AppendCommutes(ls, Link(ethIfaces[k], Ether, "", "", 0, 1500, false, []));
          ls := ls + [Link(ethIfaces[k], Ether, "", "", 0, 1500, false, [])];
        }
      }
      links, routes, ruleset, files, wgConf, services := ls, [], NoRuleset, map[], map[], [];
    }

    method Find(name: string) returns (i: nat)
      ensures i <= |links| && (i < |links| <==> name in View(links))
      ensures i < |links| ==>
        links[i] == View(links)[name] && links[i].name == name
        && forall j :: 0 <= j < i ==> links[j].name != name
    {
      i := 0;
      while i < |links|
        invariant i <= |links| && forall j :: 0 <= j < i ==> links[j].name != name
      {
        if links[i].name == name {
          ViewAt(links, i);
          return;
        }
        i := i + 1;
      }
      ViewNames(links, name);
    }

    /** Executes one command; a rejected command changes nothing. */
    method Run(a: Action) returns (ok: bool)
      requires Valid()
      modifies this
      ensures Valid()
      ensures ok == Step(old(Snapshot()), a).Some?
      ensures ok ==> Snapshot() == Step(old(Snapshot()), a).value
      ensures !ok ==> Snapshot() == old(Snapshot())
    {
      StepCommutes(links, a);
      if a.SetMtu? || a.SetMaster? || a.NoMaster? || a.SetUp? || a.AddrAdd? || a.AddrDel? {
        ok := ChangeLink(a);
        return;
      }
      ok := true;
      match a
      case LinkAdd(n, kind, parent, id) =>
        var i := Find(n);
        if n == "" || i < |links| || !Creatable(kind, parent, id) { return false; }
        links := links + [NewLink(n, kind, parent, id)];
      case LinkDel(n) =>
        var i := Find(n);
        if i == |links| { return false; }
        DeleteLink(i, n);
      case RouteReplace(r) => routes := routes + [r];
      case RouteDel(dst, via, dev) => RemoveRoutes((r: Route) => !Covers(dst, via, dev, r));
      case NftDelete => ruleset := NoRuleset;
      case NftLoad(rs) => ruleset := rs;
      case WriteFile(path, data) => files := files[path := data];
      case Systemctl(verb, unit) =>
        if verb != "daemon-reload" { services := services + [verb + " " + unit]; }
      case WgSync(n, conf) =>
        var i := Find(n);
        if i == |links| { return false; }
        wgConf := wgConf[n := conf];
      case _ =>
    }

    /** A change of one link's fields. */
    method ChangeLink(a: Action) returns (ok: bool)
      requires a.SetMtu? || a.SetMaster? || a.NoMaster? || a.SetUp? || a.AddrAdd? || a.AddrDel?
      requires Valid()
      modifies this`links
      ensures ok == StepLinks(old(links), a).Some?
      ensures links == if ok then StepLinks(old(links), a).value else old(links)
    {
      match a
      case SetMtu(n, mtu) => ok := Update(n, (l: Link) => l.(mtu := mtu));
      case SetMaster(n, master) =>
        var i := Find(master);
        if i == |links| { return false; }
        ok := Update(n, (l: Link) => l.(master := master));
      case NoMaster(n) => ok := Update(n, (l: Link) => l.(master := ""));
      case SetUp(n, up) => ok := Update(n, (l: Link) => l.(up := up));
      case AddrAdd(n, cidr) =>
        if '/' !in cidr { return false; }
        ok := Update(n, (l: Link) => l.(addrs := if cidr in l.addrs then l.addrs else l.addrs + [cidr]));
      case AddrDel(n, cidr) =>
        if '/' !in cidr { return false; }
        ok := Update(n, (l: Link) => l.(addrs := Without(l.addrs, cidr)));
    }

    /** Updates the named link in place. */
    method Update(n: string, f: Link -> Link) returns (ok: bool)
      requires forall l :: f(l).name == l.name
      modifies this`links
      ensures ok == (n in View(old(links)))
      ensures links == if ok then Replace(old(links), f(View(old(links))[n])) else old(links)
    {
      var i := Find(n);
      if i == |links| { return false; }
      ReplaceAt(links, i, f(links[i]));
      links := links[i := f(links[i])];
      return true;
    }

    method DeleteLink(at: nat, dev: string)
      requires at < |links| && links[at].name == dev && Unique(links)
      modifies this`links, this`routes, this`wgConf
      ensures links == DropLink(old(links), dev)
      ensures routes == Select(old(routes), (r: Route) => r.dev != dev)
      ensures wgConf == old(wgConf) - {dev}
    {
      var keep: seq<Link> := [];
      for i := 0 to |links|
        invariant unchanged(this)
        invariant keep + DropLink(links[i..], dev) == DropLink(links, dev)
      {
        Tail(links, i);
        Shift(keep,
          if i != at && links[i].parent != dev then [Unenslave(links[i], dev)] else [],
          DropLink(links[i + 1..], dev));
        if i != at && links[i].parent != dev {
          keep := keep + [Unenslave(links[i], dev)];
        }
      }
      links := keep;
      RemoveRoutes((r: Route) => r.dev != dev);
      wgConf := wgConf - {dev};
    }

    method RemoveRoutes(keep: Route -> bool)
      modifies this`routes
      ensures routes == Select(old(routes), keep)
    {
      var out: seq<Route> := [];
      for i := 0 to |routes|
        invariant routes == old(routes)
        invariant out + Select(routes[i..], keep) == Select(routes, keep)
      {
        Tail(routes, i);
        Shift(out, if keep(routes[i]) then [routes[i]] else [], Select(routes[i + 1..], keep));
        if keep(routes[i]) { out := out + [routes[i]]; }
      }
      routes := out;
    }
  }

  // ---- links as a map from names ----

  /** What a link command does to the links by name. */
  function StepView(m: map<string, Link>, a: Action): Option<map<string, Link>> {
    match a
    case LinkAdd(n, kind, parent, id) =>
      if n == "" || n in m || !Creatable(kind, parent, id) then None else Some(m[n := NewLink(n, kind, parent, id)])
    case LinkDel(n) => if n !in m then None else Some(DropView(m, n))
    case SetMtu(n, mtu) => if n !in m then None else Some(m[n := m[n].(mtu := mtu)])
    case SetMaster(n, master) => if n !in m || master !in m then None else Some(m[n := m[n].(master := master)])
    case NoMaster(n) => if n !in m then None else Some(m[n := m[n].(master := "")])
    case SetUp(n, up) => if n !in m then None else Some(m[n := m[n].(up := up)])
    case AddrAdd(n, cidr) =>
      if n !in m || '/' !in cidr then None
      else Some(m[n := m[n].(addrs := if cidr in m[n].addrs then m[n].addrs else m[n].addrs + [cidr])])
    case AddrDel(n, cidr) =>
      if n !in m || '/' !in cidr then None else Some(m[n := m[n].(addrs := Without(m[n].addrs, cidr))])
    case WgSync(n, _) => if n !in m then None else Some(m)
    case _ => Some(m)
  }

  function DropView(m: map<string, Link>, dev: string): map<string, Link> {
    map n | n in m && n != dev && m[n].parent != dev :: Unenslave(m[n], dev)
  }

  lemma {:induction false} ViewNames(links: seq<Link>, n: string)
    ensures n in View(links) ==> View(links)[n].name == n && View(links)[n] in links
    ensures n in View(links) <==> exists i :: 0 <= i < |links| && links[i].name == n
  {
    if links != [] {
      ViewNames(links[1..], n);
      if n in View(links[1..]) {
        var i :| 0 <= i < |links[1..]| && links[1..][i].name == n;
        assert links[i + 1].name == n;
      }
    }
  }

  lemma {:induction false} ViewAt(links: seq<Link>, i: nat)
    requires i < |links| && forall j :: 0 <= j < i ==> links[j].name != links[i].name
    ensures links[i].name in View(links) && View(links)[links[i].name] == links[i]
  {
    if i > 0 {
      assert links[1..][i - 1] == links[i];
      ViewAt(links[1..], i - 1);
    }
  }

  lemma ViewIn(links: seq<Link>, l: Link)
    requires Unique(links) && l in links
    ensures l.name in View(links) && View(links)[l.name] == l
  {
    var i :| 0 <= i < |links| && links[i] == l;
    ViewAt(links, i);
  }

  lemma {:induction false} ViewAppend(links: seq<Link>, l: Link)
    requires l.name !in View(links)
    ensures View(links + [l]) == View(links)[l.name := l]
  {
    var all := links + [l];
    if links == [] {
      assert all[1..] == [];
    } else {
      var h := links[0];
      assert all[1..] == links[1..] + [l] && all[0] == h;
      ViewAppend(links[1..], l);
      assert View(all) == View(links[1..])[l.name := l][h.name := h];
    }
  }

  lemma {:induction false} ViewReplace(links: seq<Link>, l: Link)
    requires l.name in View(links)
    ensures View(Replace(links, l)) == View(links)[l.name := l]
  {
    var h, out := links[0], Replace(links, l);
    if h.name == l.name {
      assert out[1..] == links[1..];
    } else {
      ViewReplace(links[1..], l);
      assert out[1..] == Replace(links[1..], l);
      assert View(out) == View(links[1..])[l.name := l][h.name := h];
    }
  }

  lemma {:induction false} ReplaceNames(links: seq<Link>, l: Link)
    ensures |Replace(links, l)| == |links|
    ensures forall i :: 0 <= i < |links| ==> Replace(links, l)[i].name == links[i].name
  {
    if links != [] { ReplaceNames(links[1..], l); }
  }

  lemma {:induction false} ReplaceAt(links: seq<Link>, i: nat, l: Link)
    requires i < |links| && links[i].name == l.name && forall j :: 0 <= j < i ==> links[j].name != l.name
    ensures Replace(links, l) == links[i := l]
  {
    if i > 0 {
      assert links[1..][i - 1] == links[i];
      ReplaceAt(links[1..], i - 1, l);
      assert links[i := l] == [links[0]] + links[1..][i - 1 := l];
    }
  }

  lemma DropViewPut(m: map<string, Link>, l: Link, dev: string)
    requires l.name !in m
    ensures DropView(m[l.name := l], dev) ==
            if l.name == dev || l.parent == dev then DropView(m, dev) else DropView(m, dev)[l.name := Unenslave(l, dev)]
  {}

  lemma {:induction false} ViewDrop(links: seq<Link>, dev: string)
    requires Unique(links)
    ensures View(DropLink(links, dev)) == DropView(View(links), dev)
    ensures Unique(DropLink(links, dev))
  {
    if links != [] {
      var h, rest, out := links[0], links[1..], DropLink(links, dev);
      ViewDrop(rest, dev);
      ViewNames(rest, h.name);
      DropViewPut(View(rest), h, dev);
      if h.name != dev && h.parent != dev {
        assert out[0] == Unenslave(h, dev) && out[1..] == DropLink(rest, dev);
        ViewNames(out[1..], h.name);
      }
    }
  }

  /** A change of one link's fields, seen through the view. */
  lemma ReplaceCommutes(links: seq<Link>, l: Link)
    requires Unique(links) && l.name in View(links)
    ensures Unique(Replace(links, l)) && View(Replace(links, l)) == View(links)[l.name := l]
  {
    ViewReplace(links, l);
    ReplaceNames(links, l);
  }

  lemma AppendCommutes(links: seq<Link>, l: Link)
    requires Unique(links) && l.name !in View(links)
    ensures Unique(links + [l]) && View(links + [l]) == View(links)[l.name := l]
  {
    ViewAppend(links, l);
    ViewNames(links, l.name);
  }

  lemma AddrCommutes(links: seq<Link>, n: string, cidr: string)
    requires Unique(links)
    ensures forall a :: a == AddrAdd(n, cidr) || a == AddrDel(n, cidr) ==>
      StepView(View(links), a).Some? == StepLinks(links, a).Some?
      && (StepLinks(links, a).Some? ==>
            Unique(StepLinks(links, a).value) && View(StepLinks(links, a).value) == StepView(View(links), a).value)
  {
    var m := View(links);
    if n in m {
      ViewNames(links, n);
      ReplaceCommutes(links, m[n].(addrs := if cidr in m[n].addrs then m[n].addrs else m[n].addrs + [cidr]));
      ReplaceCommutes(links, m[n].(addrs := Without(m[n].addrs, cidr)));
    }
  }

  /** Working on links by name and working on the list agree. */
  lemma StepCommutes(links: seq<Link>, a: Action)
    requires Unique(links)
    ensures StepView(View(links), a).Some? == StepLinks(links, a).Some?
    ensures StepLinks(links, a).Some? ==>
      Unique(StepLinks(links, a).value) && View(StepLinks(links, a).value) == StepView(View(links), a).value
  {
    var m := View(links);
    match a
    case LinkAdd(n, kind, parent, id) => if n !in m { AppendCommutes(links, NewLink(n, kind, parent, id)); }
    case LinkDel(n) => ViewDrop(links, n);
    case SetMtu(n, mtu) => if n in m { ViewNames(links, n); ReplaceCommutes(links, m[n].(mtu := mtu)); }
    case SetMaster(n, master) => if n in m { ViewNames(links, n); ReplaceCommutes(links, m[n].(master := master)); }
    case NoMaster(n) => if n in m { ViewNames(links, n); ReplaceCommutes(links, m[n].(master := "")); }
    case SetUp(n, up) => if n in m { ViewNames(links, n); ReplaceCommutes(links, m[n].(up := up)); }
    case AddrAdd(n, cidr) => AddrCommutes(links, n, cidr);
    case AddrDel(n, cidr) => AddrCommutes(links, n, cidr);
    case _ =>
  }

  // ---- links deleted and added ----

  /** Exactly the links neither deleted nor on a deleted parent are left, members freed and otherwise unchanged. */
  lemma {:induction false} DeletionLeaves(links: seq<Link>, dev: string, x: Link)
    ensures x in DropLink(links, dev) <==>
      exists y :: y in links && y.name != dev && y.parent != dev
        && x == if y.master == dev then y.(master := "") else y
  {
    if links != [] {
      assert links == [links[0]] + links[1..];
      DeletionLeaves(links[1..], dev, x);
    }
  }

  /** An added link is new, comes last, and is down, bare of master and addresses; a VLAN has parent, number and MTU. */
  lemma AdditionAppends(links: seq<Link>, n: string, kind: LinkType, parent: string, id: int)
    ensures var r := StepLinks(links, LinkAdd(n, kind, parent, id));
      && (r.Some? <==>
            n != "" && (forall x :: x in links ==> x.name != n)
            && (kind == Bridge || kind == Wireguard || (kind == Vlan && parent != "" && 1 <= id <= 4094)))
      && (r.Some? ==>
            r.value == links + [if kind == Vlan then Link(n, Vlan, "", parent, id, 1496, false, [])
                                else Link(n, kind, "", "", 0, 1500, false, [])])
  {
    ViewNames(links, n);
    if x :| x in links && x.name == n { var i :| 0 <= i < |links| && links[i] == x; }
  }
}
