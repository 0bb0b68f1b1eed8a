/**
  Executing an address plan, in any device order: when it succeeds, what it leaves, and when that is
  what was wanted.
 */
module AddressConvergence {
  import opened Wrappers
  import opened Sequences
  import opened Kernel
  import opened AddressText
  import opened Planner
  import opened LinkRun

  /** Two kernels agree on everything about a link but its addresses. */
  predicate SameLink(x: Link, y: Link) { x.(addrs := []) == y.(addrs := []) }

  // ---- one device ----

  /** Every wanted address is shown already or has the slash the kernel asks for. */
  predicate Accepted(want: seq<string>, have: seq<string>) { forall w :: w in want ==> w in have || '/' in w }

  predicate Authoritative(d: Desired, dev: string) { dev in d.dropAddrs }

  /** Shown, not wanted and not link-local: removed where the router is authoritative. */
  predicate Surplus(d: Desired, dev: string, x: string)
    requires dev in d.addrs
  {
    Authoritative(d, dev) && x !in d.addrs[dev] && !LinkLocal(x)
  }

  /** The addresses afterwards: those before but for the surplus that shows, and the wanted that did not show. */
  ghost predicate AddrsBecome(d: Desired, dev: string, before: seq<string>, now: seq<string>)
    requires dev in d.addrs
  {
    forall a :: a in now <==>
      (a in before && !(a in Reports(before) && Surplus(d, dev, a))) || (a in d.addrs[dev] && a !in Reports(before))
  }

  lemma {:induction false} DropsRun(m: Links, dev: string, have: seq<string>, want: seq<string>)
    returns (ys: seq<string>)
    requires dev in m && forall a :: a in have ==> '/' in a
    ensures RunView(m, Drops(dev, have, want)) == Some(m[dev := m[dev].(addrs := ys)])
    ensures forall a :: a in ys <==> a in m[dev].addrs && !(a in have && a !in want && !LinkLocal(a))
  {
    if have == [] {
      ys := m[dev].addrs;
      assert m[dev := m[dev]] == m;
    } else if have[0] !in want && !LinkLocal(have[0]) {
      var m1 := m[dev := m[dev].(addrs := Without(m[dev].addrs, have[0]))];
      ys := DropsRun(m1, dev, have[1..], want);
      var c := [Try(AddrDel(dev, have[0]))];
      assert c[1..] == [];
      RunAppend(m, c, Drops(dev, have[1..], want));
      assert RunView(m, c) == Some(m1);
      assert m1[dev := m1[dev].(addrs := ys)] == m[dev := m[dev].(addrs := ys)];
    } else {
      ys := DropsRun(m, dev, have[1..], want);
      assert Drops(dev, have, want) == Drops(dev, have[1..], want);
    }
  }

  lemma {:induction false} AddsRun(m: Links, dev: string, want: seq<string>, have: seq<string>)
    returns (ys: seq<string>)
    requires dev in m && Accepted(want, have)
    ensures RunView(m, Adds(dev, want, have)) == Some(m[dev := m[dev].(addrs := ys)])
    ensures forall a :: a in ys <==> a in m[dev].addrs || (a in want && a !in have)
  {
    if want == [] {
      ys := m[dev].addrs;
      assert m[dev := m[dev]] == m;
    } else if want[0] !in have {
      var xs := m[dev].addrs;
      var m1 := m[dev := m[dev].(addrs := if want[0] in xs then xs else xs + [want[0]])];
      ys := AddsRun(m1, dev, want[1..], have);
      AddOne(m, dev, want, have, m1);
      assert m1[dev := m1[dev].(addrs := ys)] == m[dev := m[dev].(addrs := ys)];
    } else {
      ys := AddsRun(m, dev, want[1..], have);
      assert Adds(dev, want, have) == Adds(dev, want[1..], have);
    }
  }

  /** The first addition of a plan. */
  lemma AddOne(m: Links, dev: string, want: seq<string>, have: seq<string>, m1: Links)
    requires want != [] && want[0] !in have
    requires StepView(m, AddrAdd(dev, want[0])) == Some(m1)
    ensures RunView(m, Adds(dev, want, have)) == RunView(m1, Adds(dev, want[1..], have))
  {
    var c := [Must(AddrAdd(dev, want[0]))];
    RunOne(m, AddrAdd(dev, want[0]));
    RunAppend(m, c, Adds(dev, want[1..], have));
  }

  lemma {:induction false} AddsRefused(m: Links, dev: string, want: seq<string>, have: seq<string>)
    requires dev in m && !Accepted(want, have)
    ensures RunView(m, Adds(dev, want, have)) == None
  {
    if want[0] in have {
      AddsRefused(m, dev, want[1..], have);
      assert Adds(dev, want, have) == Adds(dev, want[1..], have);
    } else if '/' !in want[0] {
      RunOne(m, AddrAdd(dev, want[0]));
      RunAppend(m, [Must(AddrAdd(dev, want[0]))], Adds(dev, want[1..], have));
    } else {
      var m1 := StepView(m, AddrAdd(dev, want[0])).value;
      AddOne(m, dev, want, have, m1);
      AddsRefused(m1, dev, want[1..], have);
    }
  }

  /** The removals of a device's plan. */
  lemma DropPhase(d: Desired, m: Links, dev: string, have: seq<string>) returns (kept: seq<string>)
    requires dev in d.addrs && dev in m && have == Reports(m[dev].addrs)
    ensures RunView(m, if Authoritative(d, dev) then Drops(dev, have, d.addrs[dev]) else []) ==
            Some(m[dev := m[dev].(addrs := kept)])
    ensures forall a :: a in kept <==> a in m[dev].addrs && !(a in have && Surplus(d, dev, a))
  {
    kept := m[dev].addrs;
    assert m[dev := m[dev].(addrs := kept)] == m;
    if Authoritative(d, dev) {
      forall a | a in have ensures '/' in a { ReportedIsPlain(m[dev].addrs, a); }
      kept := DropsRun(m, dev, have, d.addrs[dev]);
    }
  }

  lemma DevRun(d: Desired, m0: Links, m: Links, dev: string) returns (ys: seq<string>)
    requires dev in d.addrs && dev in m0 && dev in m && m[dev].addrs == m0[dev].addrs
    ensures Accepted(d.addrs[dev], Reports(m0[dev].addrs)) ==>
      RunView(m, DevPlan(d, m0, dev)) == Some(m[dev := m[dev].(addrs := ys)])
      && AddrsBecome(d, dev, m0[dev].addrs, ys)
    ensures !Accepted(d.addrs[dev], Reports(m0[dev].addrs)) ==> RunView(m, DevPlan(d, m0, dev)) == None
  {
    var have, want := Reports(m0[dev].addrs), d.addrs[dev];
    var kept := DropPhase(d, m, dev, have);
    var m1 := m[dev := m[dev].(addrs := kept)];
    RunAppend(m, if Authoritative(d, dev) then Drops(dev, have, want) else [], Adds(dev, want, have));
    if Accepted(want, have) {
      ys := AddsRun(m1, dev, want, have);
      assert m1[dev := m1[dev].(addrs := ys)] == m[dev := m[dev].(addrs := ys)];
    } else {
      AddsRefused(m1, dev, want, have);
      ys := kept;
    }
  }

  // ---- all devices ----

  predicate AllAccepted(d: Desired, m: Links, order: seq<string>)
    requires forall dev :: dev in order ==> dev in d.addrs
  {
    forall dev :: dev in order && dev in m ==> Accepted(d.addrs[dev], Reports(m[dev].addrs))
  }

  /** Executing the address plan, whatever the order of devices: it fails exactly where an address is refused. */
  lemma {:induction false} AddrPlanRun(d: Desired, m0: Links, m: Links, order: seq<string>) returns (m': Links)
    requires forall dev :: dev in order ==> dev in d.addrs
    requires forall i, j :: 0 <= i < j < |order| ==> order[i] != order[j]
    requires forall i :: 0 <= i < |d.links| ==> d.links[i].name in m0
    requires m.Keys == m0.Keys && forall dev :: dev in order && dev in m ==> m[dev].addrs == m0[dev].addrs
    ensures !AllAccepted(d, m0, order) ==> RunView(m, AddrPlan(d, m0, order)) == None
    ensures AllAccepted(d, m0, order) ==>
      && RunView(m, AddrPlan(d, m0, order)) == Some(m') && m'.Keys == m.Keys
      && (forall n :: n in m ==> SameLink(m'[n], m[n]) && (n !in order ==> m'[n] == m[n]))
      && (forall n :: n in m && n in order ==> AddrsBecome(d, n, m0[n].addrs, m'[n].addrs))
    decreases |order|
  {
    m' := m;
    if order != [] {
      var dev, rest := order[0], order[1..];
      assert forall i :: 0 <= i < |rest| ==> rest[i] == order[i + 1];
      AcceptedSplit(d, m0, order);
      var m1 := m;
      if dev in m0 {
        var ys := DevRun(d, m0, m, dev);
        m1 := m[dev := m[dev].(addrs := ys)];
      } else {
        ByNameAt(d.links, dev);
      }
      m' := AddrPlanRun(d, m0, m1, rest);
      RunAppend(m, DevPlan(d, m0, dev), AddrPlan(d, m0, rest));
    }
  }

  lemma AcceptedSplit(d: Desired, m: Links, order: seq<string>)
    requires order != [] && forall dev :: dev in order ==> dev in d.addrs
    ensures AllAccepted(d, m, order) <==>
      (order[0] in m ==> Accepted(d.addrs[order[0]], Reports(m[order[0]].addrs))) && AllAccepted(d, m, order[1..])
  {
    assert order == [order[0]] + order[1..];
  }

  // ---- nothing left to plan ----

  ghost predicate AddrsSettled(d: Desired, m: Links) {
    forall dev :: dev in d.addrs ==> DevPlan(d, m, dev) == []
  }

  /** Everything wanted shows, and nothing that shows is surplus. */
  predicate Shows(d: Desired, dev: string, have: seq<string>)
    requires dev in d.addrs
  {
    (forall w :: w in d.addrs[dev] ==> w in have) && (forall a :: a in have ==> !Surplus(d, dev, a))
  }

  lemma {:induction false} DropsNothing(dev: string, have: seq<string>, want: seq<string>)
    ensures Drops(dev, have, want) == [] <==> forall a :: a in have ==> a in want || LinkLocal(a)
  {
    if have != [] { DropsNothing(dev, have[1..], want); }
  }

  lemma {:induction false} AddsNothing(dev: string, want: seq<string>, have: seq<string>)
    ensures Adds(dev, want, have) == [] <==> forall a :: a in want ==> a in have
  {
    if want != [] { AddsNothing(dev, want[1..], have); }
  }

  lemma DevSettled(d: Desired, m: Links, dev: string)
    requires dev in d.addrs && dev in m
    ensures DevPlan(d, m, dev) == [] <==> Shows(d, dev, Reports(m[dev].addrs))
  {
    var have, want := Reports(m[dev].addrs), d.addrs[dev];
    DropsNothing(dev, have, want);
    AddsNothing(dev, want, have);
    var drops := if dev in d.dropAddrs then Drops(dev, have, want) else [];
    assert DevPlan(d, m, dev) == drops + Adds(dev, want, have);
    assert drops + Adds(dev, want, have) == [] <==> drops == [] && Adds(dev, want, have) == [];
  }

  lemma {:induction false} NoAddrCommands(d: Desired, m: Links, order: seq<string>)
    requires forall dev :: dev in order ==> dev in d.addrs
    ensures AddrPlan(d, m, order) == [] <==> forall dev :: dev in order ==> DevPlan(d, m, dev) == []
  {
    if order != [] {
      NoAddrCommands(d, m, order[1..]);
      var head, rest := DevPlan(d, m, order[0]), AddrPlan(d, m, order[1..]);
      assert head + rest == [] <==> head == [] && rest == [];
    }
  }

  /** Every order of devices plans nothing, or none does. */
  lemma SettledInAnyOrder(d: Desired, m: Links, order: seq<string>)
    requires Enumerates(order, d.addrs.Keys)
    ensures AddrPlan(d, m, order) == [] <==> AddrsSettled(d, m)
  {
    NoAddrCommands(d, m, order);
  }

  // ---- when one device settles ----

  /** Every wanted address is an address, a slash and a plain decimal length. */
  ghost predicate WantsPlain(d: Desired, dev: string)
    requires dev in d.addrs
  {
    forall w :: w in d.addrs[dev] ==> Plain(w)
  }

  /**
    What was there can be tidied: an address the kernel shows in another spelling is deleted under
    that other spelling, so it stays, and must not show as surplus.
   */
  ghost predicate Tidy(d: Desired, dev: string, before: seq<string>)
    requires dev in d.addrs
  {
    forall a :: a in before && !Plain(a) && ReadBack(a).Some? ==> !Surplus(d, dev, ReadBack(a).value)
  }

  /** What shows: the wanted, and of what showed before the link-local or, without authority, all. */
  ghost predicate AddrsAre(d: Desired, dev: string, before: seq<string>, now: seq<string>)
    requires dev in d.addrs
  {
    forall x :: x in Reports(now) <==> x in d.addrs[dev] || (x in Reports(before) && !Surplus(d, dev, x))
  }

  lemma PlainIsAccepted(d: Desired, dev: string, have: seq<string>)
    requires dev in d.addrs && WantsPlain(d, dev)
    ensures Accepted(d.addrs[dev], have)
  {
    forall w | w in d.addrs[dev] ensures '/' in w { PlainReadsBack(w); }
  }

  lemma ShownIsPlain(d: Desired, dev: string, have: seq<string>)
    requires dev in d.addrs && Shows(d, dev, Reports(have))
    ensures WantsPlain(d, dev)
  {
    forall w | w in d.addrs[dev] ensures Plain(w) { ReportedIsPlain(have, w); }
  }

  lemma KeptIsTidy(d: Desired, dev: string, before: seq<string>, now: seq<string>)
    requires dev in d.addrs && AddrsBecome(d, dev, before, now) && Shows(d, dev, Reports(now))
    ensures Tidy(d, dev, before)
  {
    forall a | a in before && !Plain(a) && ReadBack(a).Some? ensures !Surplus(d, dev, ReadBack(a).value) {
      if a in Reports(before) { ReportedIsPlain(before, a); }
      ReportsHas(now, ReadBack(a).value);
    }
  }

  /** One shown address afterwards. */
  lemma ShownBy(d: Desired, dev: string, before: seq<string>, now: seq<string>, x: string)
    requires dev in d.addrs && AddrsBecome(d, dev, before, now) && WantsPlain(d, dev) && Tidy(d, dev, before)
    requires x in Reports(now)
    ensures x in d.addrs[dev] || (x in Reports(before) && !Surplus(d, dev, x))
  {
    ReportsHas(now, x);
    var a :| a in now && ReadBack(a) == Some(x);
    PlainReadsBack(a);
    if a in before { ReportsHas(before, x); }
  }

  lemma WantedShows(d: Desired, dev: string, before: seq<string>, now: seq<string>, w: string)
    requires dev in d.addrs && AddrsBecome(d, dev, before, now) && WantsPlain(d, dev) && w in d.addrs[dev]
    ensures w in Reports(now)
  {
    PlainReadsBack(w);
    ReportsHas(now, w);
    if w in Reports(before) { KeptShows(d, dev, before, now, w); }
  }

  lemma KeptShows(d: Desired, dev: string, before: seq<string>, now: seq<string>, x: string)
    requires dev in d.addrs && AddrsBecome(d, dev, before, now)
    requires x in Reports(before) && !Surplus(d, dev, x)
    ensures x in Reports(now)
  {
    ReportsHas(before, x);
    ReportsHas(now, x);
    var a :| a in before && ReadBack(a) == Some(x);
    if a in Reports(before) {
      ReportedIsPlain(before, a);
      PlainReadsBack(a);
    }
  }

  lemma TidyShows(d: Desired, dev: string, before: seq<string>, now: seq<string>)
    requires dev in d.addrs && AddrsBecome(d, dev, before, now) && WantsPlain(d, dev) && Tidy(d, dev, before)
    ensures Shows(d, dev, Reports(now)) && AddrsAre(d, dev, before, now)
  {
    forall w | w in d.addrs[dev] ensures w in Reports(now) { WantedShows(d, dev, before, now, w); }
    forall x | x in Reports(now) ensures x in d.addrs[dev] || (x in Reports(before) && !Surplus(d, dev, x)) {
      ShownBy(d, dev, before, now, x);
    }
    forall x | x in Reports(before) && !Surplus(d, dev, x) ensures x in Reports(now) {
      KeptShows(d, dev, before, now, x);
    }
  }

  /** A device whose plan ran settles exactly if its wanted addresses are plain and its old ones tidy. */
  lemma DevConverges(d: Desired, dev: string, before: seq<string>, now: seq<string>)
    requires dev in d.addrs && AddrsBecome(d, dev, before, now)
    ensures Shows(d, dev, Reports(now)) <==> WantsPlain(d, dev) && Tidy(d, dev, before)
    ensures Shows(d, dev, Reports(now)) ==> AddrsAre(d, dev, before, now)
  {
    if Shows(d, dev, Reports(now)) {
      ShownIsPlain(d, dev, now);
      KeptIsTidy(d, dev, before, now);
    }
    if WantsPlain(d, dev) && Tidy(d, dev, before) { TidyShows(d, dev, before, now); }
  }

  // ---- the address pass ----

  ghost predicate AddrsConvergible(d: Desired, m: Links) {
    forall dev :: dev in d.addrs && dev in m ==> WantsPlain(d, dev) && Tidy(d, dev, m[dev].addrs)
  }

  /** The pass's effect on the links. */
  ghost predicate AddrsEffect(d: Desired, m: Links, m': Links) {
    && m'.Keys == m.Keys
    && (forall n :: n in m ==> SameLink(m'[n], m[n]) && (n !in d.addrs ==> m'[n] == m[n]))
    && (forall n :: n in m && n in d.addrs ==> AddrsBecome(d, n, m[n].addrs, m'[n].addrs))
  }

  lemma PassRuns(d: Desired, s: State, order: seq<string>)
    requires Unique(s.links) && Enumerates(order, d.addrs.Keys)
    requires forall i :: 0 <= i < |d.links| ==> d.links[i].name in View(s.links)
    ensures var o := Execute(s, AddrPlan(d, View(s.links), order));
      && (o.ok <==> AllAccepted(d, View(s.links), order))
      && (o.ok ==> Unique(o.state.links) && AddrsEffect(d, View(s.links), View(o.state.links))
                   && o.state == s.(links := o.state.links))
  {
    var m := View(s.links);
    var m' := AddrPlanRun(d, m, m, order);
    ExecuteLinks(s, AddrPlan(d, m, order));
    AddrPlanOnly(d, m, order);
    AddrsFrame(s, AddrPlan(d, m, order));
  }

  lemma EffectSettles(d: Desired, m: Links, m': Links)
    requires AddrsEffect(d, m, m') && forall i :: 0 <= i < |d.links| ==> d.links[i].name in m
    ensures AddrsSettled(d, m') <==> AddrsConvergible(d, m)
    ensures AddrsSettled(d, m') ==> forall n :: n in m && n in d.addrs ==> AddrsAre(d, n, m[n].addrs, m'[n].addrs)
  {
    forall dev | dev in d.addrs
      ensures DevPlan(d, m', dev) == [] <==>
              (dev in m ==> WantsPlain(d, dev) && Tidy(d, dev, m[dev].addrs))
      ensures dev in m && DevPlan(d, m', dev) == [] ==> AddrsAre(d, dev, m[dev].addrs, m'[dev].addrs)
    {
      ByNameAt(d.links, dev);
      if dev in m {
        DevSettled(d, m', dev);
        DevConverges(d, dev, m[dev].addrs, m'[dev].addrs);
      }
    }
  }

  /**
    Address exactness, every desired link present and devices in any order. The pass succeeds
    exactly if each wanted address shows or has a slash; it then changes only addresses, to exactly
    those stated. It succeeds and leaves nothing to plan exactly if wanted addresses are plain and
    old ones tidy; what shows is then what was wanted.
   */
  lemma AddressesExact(d: Desired, s: State, order: seq<string>)
    requires Unique(s.links) && Enumerates(order, d.addrs.Keys)
    requires forall i :: 0 <= i < |d.links| ==> d.links[i].name in View(s.links)
    ensures var o := Execute(s, AddrPlan(d, View(s.links), order)); var m, m' := View(s.links), View(o.state.links);
      && (o.ok <==> AllAccepted(d, m, order))
      && (o.ok ==> Unique(o.state.links) && AddrsEffect(d, m, m') && o.state == s.(links := o.state.links))
      && (o.ok && AddrsSettled(d, m') <==> AddrsConvergible(d, m))
      && (AddrsConvergible(d, m) ==>
            forall n :: n in m && n in d.addrs ==> AddrsAre(d, n, m[n].addrs, m'[n].addrs))
  {
    var m := View(s.links);
    PassRuns(d, s, order);
    var o := Execute(s, AddrPlan(d, m, order));
    if AddrsConvergible(d, m) {
      forall dev | dev in order && dev in m ensures Accepted(d.addrs[dev], Reports(m[dev].addrs)) {
        PlainIsAccepted(d, dev, Reports(m[dev].addrs));
      }
    }
    if o.ok { EffectSettles(d, m, View(o.state.links)); }
  }

  // ---- frame ----

  ghost predicate OnlyAddrs(cs: seq<Command>) {
    forall c :: c in cs ==> c.action.AddrAdd? || c.action.AddrDel?
  }

  lemma {:induction false} AddrPlanOnly(d: Desired, m: Links, order: seq<string>)
    requires forall dev :: dev in order ==> dev in d.addrs
    ensures OnlyAddrs(AddrPlan(d, m, order))
  {
    if order != [] {
      AddrPlanOnly(d, m, order[1..]);
      var dev := order[0];
      DropsOnly(dev, Have(m, dev), d.addrs[dev]);
      AddsOnly(dev, d.addrs[dev], Have(m, dev));
    }
  }

  lemma {:induction false} DropsOnly(dev: string, have: seq<string>, want: seq<string>)
    ensures OnlyAddrs(Drops(dev, have, want))
  {
    if have != [] { DropsOnly(dev, have[1..], want); }
  }

  lemma {:induction false} AddsOnly(dev: string, want: seq<string>, have: seq<string>)
    ensures OnlyAddrs(Adds(dev, want, have))
  {
    if want != [] { AddsOnly(dev, want[1..], have); }
  }

  lemma {:induction false} AddrsFrame(s: State, cs: seq<Command>)
    requires OnlyAddrs(cs)
    ensures Execute(s, cs).state == s.(links := Execute(s, cs).state.links)
    decreases |cs|
  {
    if cs != [] {
      assert cs[0] in cs && OnlyAddrs(cs[1..]);
      var t := Step(s, cs[0].action);
      if t.Some? {
        AddrsFrame(t.value, cs[1..]);
      } else if cs[0].ignoreErrors {
        AddrsFrame(s, cs[1..]);
      }
    }
  }

  /** Address commands change nothing about a link but its addresses. */
  lemma {:induction false} AddrsKeepLinks(m: Links, cs: seq<Command>)
    requires OnlyAddrs(cs) && RunView(m, cs).Some?
    ensures var m' := RunView(m, cs).value; m'.Keys == m.Keys && forall n :: n in m ==> SameLink(m'[n], m[n])
    decreases |cs|
  {
    if cs != [] {
      assert cs[0] in cs && OnlyAddrs(cs[1..]);
      var t := StepView(m, cs[0].action);
      AddrsKeepLinks(if t.Some? then t.value else m, cs[1..]);
    }
  }

  /** Of one device, addresses are removed before any is added. */
  lemma RemovesFirst(d: Desired, m: Links, dev: string, i: nat, j: nat)
    requires dev in d.addrs && i < j < |DevPlan(d, m, dev)|
    ensures DevPlan(d, m, dev)[j].action.AddrDel? ==> DevPlan(d, m, dev)[i].action.AddrDel?
  {
    var have, want := Have(m, dev), d.addrs[dev];
    DropsRemove(dev, have, want);
    AddsAdd(dev, want, have);
    var planned := !(ByName(d.links, dev).None? && dev !in m);
    var drops, adds := if planned && Authoritative(d, dev) then Drops(dev, have, want) else [],
      if planned then Adds(dev, want, have) else [];
    Apart(drops, adds, i, j);
    assert DevPlan(d, m, dev) == drops + adds;
  }

  lemma Apart(drops: seq<Command>, adds: seq<Command>, i: nat, j: nat)
    requires (forall c :: c in drops ==> c.action.AddrDel?) && (forall c :: c in adds ==> c.action.AddrAdd?)
    requires i < j < |drops + adds|
    ensures (drops + adds)[j].action.AddrDel? ==> (drops + adds)[i].action.AddrDel?
  {
    if j < |drops| { assert drops[i] in drops; } else { assert (drops + adds)[j] in adds; }
  }

  lemma {:induction false} DropsRemove(dev: string, have: seq<string>, want: seq<string>)
    ensures forall c :: c in Drops(dev, have, want) ==> c.action.AddrDel? && c.ignoreErrors
  {
    if have != [] { DropsRemove(dev, have[1..], want); }
  }

  lemma {:induction false} AddsAdd(dev: string, want: seq<string>, have: seq<string>)
    ensures forall c :: c in Adds(dev, want, have) ==> c.action.AddrAdd? && !c.ignoreErrors
  {
    if want != [] { AddsAdd(dev, want[1..], have); }
  }
}
