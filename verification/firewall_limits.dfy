/**
  When the compiled script loads, and what a new network cannot change.
 */
module FirewallLimits {
  import opened Wrappers
  import opened Models
  import opened Sequences
  import opened Prefixes
  import opened Firewall
  import opened FirewallPolicy

  // ---- closed scripts ----

  ghost predicate Closed(lines: seq<Line>, sets: seq<SetDecl>) {
    forall l, k, name :: l in lines && k in l.conditions && name in Named(k) ==> Declared(sets, name)
  }

  lemma ClosedConcat(a: seq<Line>, b: seq<Line>, sets: seq<SetDecl>)
    ensures Closed(a + b, sets) <==> Closed(a, sets) && Closed(b, sets)
  {
    assert forall l :: l in a + b <==> l in a || l in b;
  }

  lemma ClosedPair(a: string, b: string, sets: seq<SetDecl>)
    ensures Closed([PairLine(a, b)], sets) <==> Declared(sets, ZoneSet(a)) && Declared(sets, ZoneSet(b))
  {
    var l := PairLine(a, b);
    assert FromSet(ZoneSet(a)) in l.conditions && ZoneSet(a) in Named(FromSet(ZoneSet(a)));
    assert ToSet(ZoneSet(b)) in l.conditions && ZoneSet(b) in Named(ToSet(ZoneSet(b)));
  }

  ghost predicate RuleDeclared(r: FirewallRule, sets: seq<SetDecl>) {
    Declared(sets, ZoneSet(r.sourceZone)) && Declared(sets, ZoneSet(r.destZone))
  }

  lemma ClosedRule(r: FirewallRule, meter: int, sets: seq<SetDecl>)
    ensures Closed([RuleLine(r, meter)], sets) <==> RuleDeclared(r, sets)
  {
    var l := RuleLine(r, meter);
    var a, b := ZoneSet(r.sourceZone), ZoneSet(r.destZone);
    assert l.conditions[0] == FromSet(a) && a in Named(FromSet(a));
    assert l.conditions[1] == ToSet(b) && b in Named(ToSet(b));
    forall k, name | k in l.conditions && name in Named(k) ensures name == a || name == b {}
  }

  ghost predicate RulesDeclared(rs: seq<FirewallRule>, sets: seq<SetDecl>) {
    forall r :: r in rs && r.enabled ==> RuleDeclared(r, sets)
  }

  lemma RulesDeclaredSplit(rs: seq<FirewallRule>, sets: seq<SetDecl>)
    requires rs != []
    ensures RulesDeclared(rs, sets) <==>
      RulesDeclared(Init(rs), sets) && (Last(rs).enabled ==> RuleDeclared(Last(rs), sets))
  {
    assert rs == Init(rs) + [Last(rs)];
  }

  lemma {:induction false} ClosedRules(rs: seq<FirewallRule>, sets: seq<SetDecl>)
    ensures Closed(RuleLines(rs), sets) <==> RulesDeclared(rs, sets)
  {
    if rs != [] {
      var r := Last(rs);
      RulesDeclaredSplit(rs, sets);
      ClosedRules(Init(rs), sets);
      ClosedConcat(RuleLines(Init(rs)), if r.enabled then [RuleLine(r, |rs| - 1)] else [], sets);
      ClosedRule(r, |rs| - 1, sets);
    }
  }

  lemma {:induction false} ClosedInternet(c: Config, ns: seq<Network>, sets: seq<SetDecl>)
    requires Declared(sets, ZoneSet(WAN)) && forall n :: n in ns ==> Declared(sets, ZoneSet(n.zone))
    ensures Closed(InternetLines(c, ns), sets)
  {
    if ns != [] {
      var n := Last(ns);
      assert ns == Init(ns) + [n];
      ClosedInternet(c, Init(ns), sets);
      ClosedConcat(InternetLines(c, Init(ns)), if InternetLine(c, n) then [PairLine(n.zone, WAN)] else [], sets);
      ClosedPair(n.zone, WAN, sets);
    }
  }

  lemma {:induction false} ClosedTrust(pairs: seq<(string, string)>, sets: seq<SetDecl>)
    requires forall p :: p in pairs ==> Declared(sets, ZoneSet(p.0)) && Declared(sets, ZoneSet(p.1))
    ensures Closed(TrustLines(pairs), sets)
  {
    if pairs != [] {
      var p := Last(pairs);
      assert pairs == Init(pairs) + [p];
      ClosedTrust(Init(pairs), sets);
      ClosedConcat(TrustLines(Init(pairs)), [PairLine(p.0, p.1)], sets);
      ClosedPair(p.0, p.1, sets);
    }
  }

  predicate GrantLine(c: Config, n: Network) { CanAccessLan(n) && n.zone !in Trusted(c) }

  lemma {:induction false} ClosedGrants(c: Config, ns: seq<Network>, sets: seq<SetDecl>)
    requires forall n :: n in ns ==> Declared(sets, ZoneSet(n.zone))
    ensures Closed(GrantLines(c, ns), sets) <==>
      ((exists n :: n in ns && GrantLine(c, n)) ==> Declared(sets, ZoneSet(LAN)))
  {
    if ns != [] {
      var n := Last(ns);
      assert ns == Init(ns) + [n];
      ClosedGrants(c, Init(ns), sets);
      ClosedConcat(GrantLines(c, Init(ns)), if GrantLine(c, n) then [PairLine(n.zone, LAN)] else [], sets);
      ClosedPair(n.zone, LAN, sets);
    }
  }

  function Sets(c: Config, order: seq<string>): seq<SetDecl> {
    [SetDecl("wan_ifaces", WanNames(c.wans))] + Decls(c, order)
  }

  lemma SetNameAt(c: Config, order: seq<string>, i: nat)
    requires i <= |order|
    ensures |Sets(c, order)| == |order| + 1
    ensures Sets(c, order)[i].name == ZoneSet(if i == 0 then WAN else order[i - 1])
  {
    DeclsAt(c, order);
    WanSet();
  }

  lemma DeclaredIs(c: Config, order: seq<string>, z: string)
    requires Enumerates(order, Zones(c))
    ensures Declared(Sets(c, order), ZoneSet(z)) <==> Same(z, WAN) || exists y :: y in Zones(c) && Same(y, z)
  {
    var sets := Sets(c, order);
    SetNameAt(c, order, 0);
    SetNames(z, WAN);
    if Declared(sets, ZoneSet(z)) {
      var i :| 0 <= i < |sets| && sets[i].name == ZoneSet(z);
      SetNameAt(c, order, i);
      if i > 0 {
        SetNames(order[i - 1], z);
        assert order[i - 1] in Zones(c);
      }
    }
    if y :| y in Zones(c) && Same(y, z) {
      var i :| 0 <= i < |order| && order[i] == y;
      SetNameAt(c, order, i + 1);
      SetNames(y, z);
    }
  }

  /** A rule's zone has a set unless it is an empty name nobody declares. */
  lemma KnownIsDeclared(c: Config, order: seq<string>, r: FirewallRule)
    requires Enumerates(order, Zones(c)) && r in c.rules
    ensures Declared(Sets(c, order), ZoneSet(r.sourceZone)) <==> Known(c, r.sourceZone)
    ensures Declared(Sets(c, order), ZoneSet(r.destZone)) <==> Known(c, r.destZone)
  {
    RuleZonesHas(c.rules, r);
    MentionDeclares(c, order, r.sourceZone);
    MentionDeclares(c, order, r.destZone);
  }

  lemma MentionDeclares(c: Config, order: seq<string>, z: string)
    requires Enumerates(order, Zones(c)) && Mention(z) <= Zones(c)
    ensures Declared(Sets(c, order), ZoneSet(z)) <==> Known(c, z)
  {
    DeclaredIs(c, order, z);
    LowerUpper(z);
    SameFolded(z, WAN);
    assert Upper(WAN) == WAN;
    if z != "" && Upper(z) != WAN { assert Upper(z) in Zones(c) && Same(Upper(z), z); }
    if z == "" {
      assert |Lower(WAN)| == 3;
      forall y | Same(y, z) ensures y == "" { assert |Lower(y)| == |y|; }
    }
  }

  lemma DistinctMeansUnique(c: Config, order: seq<string>, i: nat, j: nat)
    requires Enumerates(order, Zones(c)) && DistinctZones(c) && i < j < |Sets(c, order)|
    ensures Sets(c, order)[i].name != Sets(c, order)[j].name
  {
    DeclsAt(c, order);
    SetNameAt(c, order, i);
    SetNameAt(c, order, j);
    SetNames(if i == 0 then WAN else order[i - 1], order[j - 1]);
    assert order[j - 1] in Zones(c);
    if i > 0 { assert order[i - 1] in Zones(c) && order[i - 1] != order[j - 1]; }
  }

  /** The zone whose set is the i-th declared. */
  function ZoneAt(order: seq<string>, i: nat): string requires i <= |order| { if i == 0 then WAN else order[i - 1] }

  lemma SameIndex(c: Config, order: seq<string>, i: nat, j: nat)
    requires UniqueSets(Sets(c, order)) && i <= |order| && j <= |order| && Same(ZoneAt(order, i), ZoneAt(order, j))
    ensures i == j
  {
    SetNameAt(c, order, i);
    SetNameAt(c, order, j);
    SetNames(ZoneAt(order, i), ZoneAt(order, j));
  }

  lemma PlaceOf(order: seq<string>, of: set<string>, a: string) returns (i: nat)
    requires Enumerates(order, of) && a in of
    ensures 0 < i <= |order| && ZoneAt(order, i) == a
  {
    var j :| 0 <= j < |order| && order[j] == a;
    i := j + 1;
  }

  lemma NoneIsWan(c: Config, order: seq<string>, a: string)
    requires Enumerates(order, Zones(c)) && UniqueSets(Sets(c, order)) && a in Zones(c)
    ensures !Same(a, WAN)
  {
    var i := PlaceOf(order, Zones(c), a);
    if Same(a, WAN) { SameIndex(c, order, i, 0); }
  }

  lemma NoneTwice(c: Config, order: seq<string>, a: string, b: string)
    requires Enumerates(order, Zones(c)) && UniqueSets(Sets(c, order)) && a in Zones(c) && b in Zones(c) && Same(a, b)
    ensures a == b
  {
    var i := PlaceOf(order, Zones(c), a);
    var j := PlaceOf(order, Zones(c), b);
    SameIndex(c, order, i, j);
  }

  lemma UniqueMeansDistinct(c: Config, order: seq<string>)
    requires Enumerates(order, Zones(c)) && UniqueSets(Sets(c, order))
    ensures DistinctZones(c)
  {
    forall a | a in Zones(c) ensures !Same(a, WAN) { NoneIsWan(c, order, a); }
    forall a, b | a in Zones(c) && b in Zones(c) && Same(a, b) ensures a == b { NoneTwice(c, order, a, b); }
  }

  lemma UniqueExactlyWhen(c: Config, order: seq<string>)
    requires Enumerates(order, Zones(c))
    ensures UniqueSets(Sets(c, order)) <==> DistinctZones(c)
  {
    if DistinctZones(c) {
      forall i, j | 0 <= i < j < |Sets(c, order)| ensures Sets(c, order)[i].name != Sets(c, order)[j].name {
        DistinctMeansUnique(c, order, i, j);
      }
    }
    if UniqueSets(Sets(c, order)) { UniqueMeansDistinct(c, order); }
  }

  lemma ClosedOpening(sets: seq<SetDecl>)
    requires Declared(sets, ZoneSet(WAN))
    ensures Closed(OPENING, sets) && Closed(CLOSING, sets)
  {
    WanSet();
  }

  lemma TrustedInUse(c: Config)
    ensures Trusted(c) <= Zones(c)
  {
    forall z | z in Trusted(c) ensures z in Zones(c) {
      TrustedNetsHas(c.networks, z);
      NetZonesHas(c.networks, z);
    }
  }

  lemma ClosedForward(c: Config, zones: seq<string>, pairs: seq<(string, string)>)
    requires Enumerates(zones, Zones(c)) && Enumerates(pairs, TrustPairs(c))
    ensures Closed(Compile(c, zones, pairs).forward, Sets(c, zones))
      <==> ((forall r :: r in c.rules && r.enabled ==> Known(c, r.sourceZone) && Known(c, r.destZone))
            && ((exists n :: n in c.networks && GrantLine(c, n)) ==> exists z :: z in Zones(c) && Same(z, LAN)))
  {
    var sets := Sets(c, zones);
    forall z
      ensures Declared(sets, ZoneSet(z)) <==> Same(z, WAN) || exists y :: y in Zones(c) && Same(y, z)
    {
      DeclaredIs(c, zones, z);
    }
    ZonesInUse(c);
    TrustedInUse(c);
    NotWan();
    forall r | r in c.rules ensures RuleDeclared(r, sets) <==> Known(c, r.sourceZone) && Known(c, r.destZone) {
      KnownIsDeclared(c, zones, r);
    }
    ClosedParts(c, zones, pairs, sets);
  }

  lemma ClosedParts(c: Config, zones: seq<string>, pairs: seq<(string, string)>, sets: seq<SetDecl>)
    requires Declared(sets, ZoneSet(WAN)) && forall n :: n in c.networks ==> Declared(sets, ZoneSet(n.zone))
    requires forall p :: p in pairs ==> Declared(sets, ZoneSet(p.0)) && Declared(sets, ZoneSet(p.1))
    ensures Closed(Compile(c, zones, pairs).forward, sets)
      <==> ((forall r :: r in c.rules && r.enabled ==> RuleDeclared(r, sets))
            && ((exists n :: n in c.networks && GrantLine(c, n)) ==> Declared(sets, ZoneSet(LAN))))
  {
    ClosedOpening(sets);
    ClosedRules(c.rules, sets);
    ClosedInternet(c, c.networks, sets);
    ClosedTrust(pairs, sets);
    ClosedGrants(c, c.networks, sets);
    ClosedConcat(OPENING, RuleLines(c.rules) + (Grants(c, pairs) + CLOSING), sets);
    ClosedConcat(RuleLines(c.rules), Grants(c, pairs) + CLOSING, sets);
    ClosedConcat(Grants(c, pairs), CLOSING, sets);
    ClosedConcat(InternetLines(c, c.networks) + TrustLines(pairs), GrantLines(c, c.networks), sets);
    ClosedConcat(InternetLines(c, c.networks), TrustLines(pairs), sets);
  }

  /** Exactly which configurations compile to a script whose sets are declared once and whose references resolve. */
  lemma LoadsExactlyWhen(c: Config, s: Script)
    requires Compiled(c, s)
    ensures WellFormed(s) <==> Deployable(c)
  {
    var zones, pairs :| Enumerates(zones, Zones(c)) && Enumerates(pairs, TrustPairs(c))
      && s == Compile(c, zones, pairs);
    assert s.sets == Sets(c, zones);
    UniqueExactlyWhen(c, zones);
    ClosedForward(c, zones, pairs);
  }

  // ---- a new network ----

  function AddNetwork(c: Config, k: nat, n: Network): Config
    requires k <= |c.networks|
  {
    c.(networks := c.networks[..k] + [n] + c.networks[k..])
  }

  /** No network or tunnel is in this zone yet, and it is not the WAN. */
  ghost predicate NewZone(c: Config, z: string) {
    && (forall m :: m in c.networks ==> !Same(m.zone, z))
    && (forall t :: t in c.tunnels ==> !Same(TunnelZone(t), z))
    && !Same(z, WAN)
  }

  lemma AddedHas(c: Config, k: nat, n: Network)
    requires k <= |c.networks|
    ensures forall m :: m in AddNetwork(c, k, n).networks <==> m in c.networks || m == n
  {
    assert c.networks == c.networks[..k] + c.networks[k..];
  }

  lemma AddedZones(c: Config, k: nat, n: Network)
    requires k <= |c.networks|
    ensures Zones(AddNetwork(c, k, n)) == Zones(c) + {n.zone}
  {
    AddedHas(c, k, n);
    forall z ensures z in NetZones(AddNetwork(c, k, n).networks) <==> z in NetZones(c.networks) || z == n.zone {
      NetZonesHas(c.networks, z);
      NetZonesHas(AddNetwork(c, k, n).networks, z);
    }
  }

  lemma AddedInZone(c: Config, k: nat, n: Network, iface: string)
    requires k <= |c.networks| && iface != n.iface
    ensures forall z :: InZone(AddNetwork(c, k, n), iface, z) <==> InZone(c, iface, z)
  {
    AddedHas(c, k, n);
  }

  lemma InZoneSame(c: Config, iface: string, a: string, b: string)
    requires Same(a, b)
    ensures InZone(c, iface, a) <==> InZone(c, iface, b)
  {}

  /** The network makes its zone trusted: it is the LAN and may reach the LAN. */
  predicate MakesTrusted(n: Network, z: string) { Same(z, LAN) && Same(n.zone, LAN) && CanAccessLan(n) }

  lemma AddedTrust(c: Config, k: nat, n: Network, z: string)
    requires k <= |c.networks|
    ensures TrustedZone(AddNetwork(c, k, n), z) <==> TrustedZone(c, z) || MakesTrusted(n, z)
  {
    AddedHas(c, k, n);
  }

  // The three grants a network adds for packets from its zone.

  predicate OpensInternet(c: Config, n: Network, f: Flow) {
    OnWan(c, f.oif) && (HasInternet(n) || CanAccessLan(n) || TrustedZone(c, n.zone))
  }

  predicate OpensZones(c: Config, n: Network, f: Flow) {
    MakesTrusted(n, n.zone) && exists b :: b in Zones(c) && !Same(n.zone, b) && InZone(c, f.oif, b)
  }

  predicate OpensLan(c: Config, n: Network, f: Flow) { CanAccessLan(n) && !Same(n.zone, LAN) && InZone(c, f.oif, LAN) }

  predicate Opens(c: Config, n: Network, f: Flow) {
    InZone(c, f.iif, n.zone) && (OpensInternet(c, n, f) || OpensZones(c, n, f) || OpensLan(c, n, f))
  }

  lemma AddedInternet(c: Config, k: nat, n: Network, f: Flow)
    requires k <= |c.networks| && f.iif != n.iface
    ensures InternetGrant(AddNetwork(c, k, n), f) <==>
      InternetGrant(c, f) || (InZone(c, f.iif, n.zone) && OpensInternet(c, n, f))
  {
    var d := AddNetwork(c, k, n);
    AddedHas(c, k, n);
    AddedInZone(c, k, n, f.iif);
    AddedTrust(c, k, n, n.zone);
    forall m | m in c.networks ensures TrustedZone(d, m.zone) <==> TrustedZone(c, m.zone) || MakesTrusted(n, m.zone) {
      AddedTrust(c, k, n, m.zone);
    }
    forall m | m in c.networks && MakesTrusted(n, m.zone)
      ensures InZone(c, f.iif, m.zone) <==> InZone(c, f.iif, n.zone)
    {
      InZoneSame(c, f.iif, m.zone, n.zone);
    }
    assert n in d.networks;
  }

  /** A zone an interface other than the new network's is in was in use before. */
  lemma ZoneInUseBefore(c: Config, k: nat, n: Network, iface: string, z: string)
    requires k <= |c.networks| && DistinctZones(AddNetwork(c, k, n)) && z in Zones(AddNetwork(c, k, n))
    requires InZone(c, iface, z)
    ensures z in Zones(c)
  {
    AddedZones(c, k, n);
    ZonesInUse(c);
    ZoneElements(c, z, iface);
    var y :| y in Zones(c) && Same(y, z) && iface in Members(c, y);
  }

  lemma TrustStillGrants(c: Config, k: nat, n: Network, f: Flow)
    requires k <= |c.networks| && f.iif != n.iface && f.oif != n.iface
    requires TrustGrant(c, f)
    ensures TrustGrant(AddNetwork(c, k, n), f)
  {
    var d := AddNetwork(c, k, n);
    AddedZones(c, k, n);
    AddedInZone(c, k, n, f.iif);
    AddedInZone(c, k, n, f.oif);
    var a, b :| a in Zones(c) && b in Zones(c) && TrustedZone(c, a) && !Same(a, b) && InZone(c, f.iif, a)
      && InZone(c, f.oif, b);
    AddedTrust(c, k, n, a);
    assert a in Zones(d) && b in Zones(d);
  }

  lemma NewTrustGrants(c: Config, k: nat, n: Network, f: Flow)
    requires k <= |c.networks| && f.iif != n.iface && f.oif != n.iface
    requires InZone(c, f.iif, n.zone) && OpensZones(c, n, f)
    ensures TrustGrant(AddNetwork(c, k, n), f)
  {
    var d := AddNetwork(c, k, n);
    AddedZones(c, k, n);
    AddedInZone(c, k, n, f.iif);
    AddedInZone(c, k, n, f.oif);
    AddedTrust(c, k, n, n.zone);
    var b :| b in Zones(c) && !Same(n.zone, b) && InZone(c, f.oif, b);
    assert n.zone in Zones(d) && b in Zones(d);
  }

  lemma TrustPairBefore(c: Config, k: nat, n: Network, f: Flow, a: string, b: string)
    requires k <= |c.networks| && a in Zones(c) && b in Zones(c) && !Same(a, b)
    requires TrustedZone(AddNetwork(c, k, n), a) && InZone(c, f.iif, a) && InZone(c, f.oif, b)
    ensures TrustGrant(c, f) || (InZone(c, f.iif, n.zone) && OpensZones(c, n, f))
  {
    AddedTrust(c, k, n, a);
    if MakesTrusted(n, a) {
      InZoneSame(c, f.iif, a, n.zone);
      assert MakesTrusted(n, n.zone) && !Same(n.zone, b);
    }
  }

  lemma TrustGrantedBefore(c: Config, k: nat, n: Network, f: Flow)
    requires k <= |c.networks| && f.iif != n.iface && f.oif != n.iface && DistinctZones(AddNetwork(c, k, n))
    requires TrustGrant(AddNetwork(c, k, n), f)
    ensures TrustGrant(c, f) || (InZone(c, f.iif, n.zone) && OpensZones(c, n, f))
  {
    var d := AddNetwork(c, k, n);
    var a, b :| a in Zones(d) && b in Zones(d) && TrustedZone(d, a) && !Same(a, b) && InZone(d, f.iif, a)
      && InZone(d, f.oif, b);
    AddedInZone(c, k, n, f.iif);
    AddedInZone(c, k, n, f.oif);
    ZoneInUseBefore(c, k, n, f.iif, a);
    ZoneInUseBefore(c, k, n, f.oif, b);
    TrustPairBefore(c, k, n, f, a, b);
  }

  lemma AddedLan(c: Config, k: nat, n: Network, f: Flow)
    requires k <= |c.networks| && f.iif != n.iface && f.oif != n.iface
    ensures LanGrant(AddNetwork(c, k, n), f) <==> LanGrant(c, f) || (InZone(c, f.iif, n.zone) && OpensLan(c, n, f))
  {
    AddedHas(c, k, n);
    AddedInZone(c, k, n, f.iif);
    AddedInZone(c, k, n, f.oif);
    assert n in AddNetwork(c, k, n).networks;
  }

  /** The grants after adding a network are those before and those it opens. */
  lemma AddedGrants(c: Config, k: nat, n: Network, f: Flow)
    requires k <= |c.networks| && f.iif != n.iface && f.oif != n.iface && DistinctZones(AddNetwork(c, k, n))
    ensures Granted(AddNetwork(c, k, n), f) <==> Granted(c, f) || Opens(c, n, f)
  {
    AddedInternet(c, k, n, f);
    AddedLan(c, k, n, f);
    if TrustGrant(c, f) { TrustStillGrants(c, k, n, f); }
    if InZone(c, f.iif, n.zone) && OpensZones(c, n, f) { NewTrustGrants(c, k, n, f); }
    if TrustGrant(AddNetwork(c, k, n), f) { TrustGrantedBefore(c, k, n, f); }
  }

  lemma AddedDecides(c: Config, k: nat, n: Network, f: Flow, allow: int -> bool)
    requires k <= |c.networks| && f.iif != n.iface && f.oif != n.iface
    ensures forall i :: 0 <= i < |c.rules| ==> (Decides(AddNetwork(c, k, n), i, f, allow) <==> Decides(c, i, f, allow))
  {
    AddedInZone(c, k, n, f.iif);
    AddedInZone(c, k, n, f.oif);
  }

  lemma SameFirstRule(c: Config, d: Config, f: Flow, allow: int -> bool, v: Verdict)
    requires c.rules == d.rules
    requires forall i :: 0 <= i < |c.rules| ==> (Decides(d, i, f, allow) <==> Decides(c, i, f, allow))
    ensures Undecided(d, |d.rules|, f, allow) <==> Undecided(c, |c.rules|, f, allow)
    ensures FirstRule(d, |d.rules|, f, allow, v) <==> FirstRule(c, |c.rules|, f, allow, v)
  {
    forall i | 0 <= i <= |c.rules| ensures Undecided(d, i, f, allow) <==> Undecided(c, i, f, allow) {}
  }

  /** The packet gets as far as the grants: it is new, not from the WAN, and no user rule decides it. */
  ghost predicate ReachesGrants(c: Config, f: Flow, allow: int -> bool) {
    f.ct == NewFlow && !OnWan(c, f.iif) && Undecided(c, |c.rules|, f, allow)
  }

  lemma AddedElsewhere(c: Config, k: nat, n: Network, f: Flow, allow: int -> bool, v: Verdict)
    requires k <= |c.networks| && f.iif != n.iface && f.oif != n.iface
    ensures ReachesGrants(AddNetwork(c, k, n), f, allow) <==> ReachesGrants(c, f, allow)
    ensures !ReachesGrants(c, f, allow) ==> (Policy(AddNetwork(c, k, n), f, allow, v) <==> Policy(c, f, allow, v))
  {
    var d := AddNetwork(c, k, n);
    AddedDecides(c, k, n, f, allow);
    SameFirstRule(c, d, f, allow, v);
  }

  lemma GrantsDecide(c: Config, s: Script, f: Flow, allow: int -> bool)
    requires DistinctZones(c) && Compiled(c, s) && ReachesGrants(c, f, allow)
    ensures Evaluate(s, f, allow) == if Granted(c, f) then Accept else Drop
  {
    CompiledMeansPolicy(c, s, f, allow);
  }

  lemma DistinctBefore(c: Config, k: nat, n: Network)
    requires k <= |c.networks| && DistinctZones(AddNetwork(c, k, n))
    ensures DistinctZones(c)
  {
    AddedZones(c, k, n);
  }

  /**
    What adding a network changes, off its own interface: exactly the packets that reach the grants
    without one, come from its zone and are opened by it; they were dropped and are accepted.
   */
  lemma NewNetworkChangesExactly(c: Config, k: nat, n: Network, s: Script, t: Script, f: Flow, allow: int -> bool)
    requires k <= |c.networks| && f.iif != n.iface && f.oif != n.iface
    requires DistinctZones(AddNetwork(c, k, n)) && Compiled(c, s) && Compiled(AddNetwork(c, k, n), t)
    ensures Evaluate(t, f, allow) != Evaluate(s, f, allow)
      <==> ReachesGrants(c, f, allow) && !Granted(c, f) && Opens(c, n, f)
    ensures Evaluate(t, f, allow) != Evaluate(s, f, allow) ==>
      Evaluate(s, f, allow) == Drop && Evaluate(t, f, allow) == Accept
  {
    var d := AddNetwork(c, k, n);
    DistinctBefore(c, k, n);
    AddedElsewhere(c, k, n, f, allow, Evaluate(t, f, allow));
    if ReachesGrants(c, f, allow) {
      GrantsDecide(c, s, f, allow);
      GrantsDecide(d, t, f, allow);
      AddedGrants(c, k, n, f);
    } else {
      CompiledMeansPolicy(c, s, f, allow);
      CompiledMeansPolicy(d, t, f, allow);
      PolicyDecides(c, f, allow, Evaluate(s, f, allow), Evaluate(t, f, allow));
    }
  }

  /** A network in a zone of its own, wherever it is inserted, changes no verdict off its own interface. */
  lemma NewNetworkInterferesNowhere(c: Config, k: nat, n: Network, s: Script, t: Script, f: Flow, allow: int -> bool)
    requires k <= |c.networks| && NewZone(c, n.zone) && f.iif != n.iface && f.oif != n.iface
    requires DistinctZones(AddNetwork(c, k, n)) && Compiled(c, s) && Compiled(AddNetwork(c, k, n), t)
    ensures Evaluate(t, f, allow) == Evaluate(s, f, allow)
  {
    NewNetworkChangesExactly(c, k, n, s, t, f, allow);
  }

  /** In a zone already in use, one with internet access opens it to every packet of the zone nothing decided. */
  lemma SharedZoneInterferes(c: Config, k: nat, n: Network, s: Script, t: Script, f: Flow, allow: int -> bool)
    requires k <= |c.networks| && f.iif != n.iface && f.oif != n.iface
    requires DistinctZones(AddNetwork(c, k, n)) && Compiled(c, s) && Compiled(AddNetwork(c, k, n), t)
    requires HasInternet(n) && InZone(c, f.iif, n.zone) && OnWan(c, f.oif)
    requires ReachesGrants(c, f, allow) && !Granted(c, f)
    ensures Evaluate(s, f, allow) == Drop && Evaluate(t, f, allow) == Accept
  {
    NewNetworkChangesExactly(c, k, n, s, t, f, allow);
  }
}
