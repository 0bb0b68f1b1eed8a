/** Executing the firewall and service plans. */
module ServiceConvergence {
  import opened Wrappers
  import opened Kernel
  import opened Planner
  import opened RouteConvergence

  /** The generated script always carries its hash marker. */
  predicate Marks(d: Desired) { d.ruleset.Ruleset? && d.ruleset.marker != "" }

  lemma FirewallRun(d: Desired, s: State)
    requires Marks(d)
    ensures var o := Execute(s, FirewallPlan(d, s.ruleset));
      && o.ok && o.state == s.(ruleset := if Loaded(d, s.ruleset) then s.ruleset else d.ruleset)
      && FirewallPlan(d, o.state.ruleset) == []
  {
    if !Loaded(d, s.ruleset) {
      var cs := FirewallPlan(d, s.ruleset);
      var s1, s2 := s.(ruleset := NoRuleset), s.(ruleset := d.ruleset);
      assert Step(s, cs[0].action) == Some(s1) && Step(s1, cs[1].action) == Some(s2);
      assert cs[1..][0] == cs[1] && cs[1..][1..] == [];
      assert Execute(s1, cs[1..]) == Execute(s2, cs[1..][1..]);
    }
  }

  /** Commands on files and units never fail and touch nothing else. */
  ghost predicate OnlyFiles(cs: seq<Command>) {
    forall c :: c in cs ==> c.action.WriteFile? || c.action.Systemctl?
  }

  function Written(files: map<string, string>, cs: seq<Command>): map<string, string>
    decreases |cs|
  {
    if cs == [] then files
    else Written(if cs[0].action.WriteFile? then files[cs[0].action.path := cs[0].action.data] else files, cs[1..])
  }

  lemma {:induction false} FilesRun(s: State, cs: seq<Command>)
    requires OnlyFiles(cs)
    ensures var o := Execute(s, cs); o.ok && o.state == s.(files := Written(s.files, cs), services := o.state.services)
    decreases |cs|
  {
    if cs != [] {
      assert cs[0] in cs && OnlyFiles(cs[1..]);
      FilesRun(Step(s, cs[0].action).value, cs[1..]);
    }
  }

  lemma {:induction false} WrittenAppend(files: map<string, string>, a: seq<Command>, b: seq<Command>)
    ensures Written(files, a + b) == Written(Written(files, a), b)
    decreases |a|
  {
    if a == [] {
      assert a + b == b;
    } else {
      assert (a + b)[1..] == a[1..] + b && (a + b)[0] == a[0];
      WrittenAppend(if a[0].action.WriteFile? then files[a[0].action.path := a[0].action.data] else files, a[1..], b);
    }
  }

  lemma UnitWritten(files: map<string, string>)
    ensures OnlyFiles(UnitCommands(files))
    ensures Written(files, UnitCommands(files)) == files[UNIT_PATH := UNIT_TEXT]
  {
    if FileIs(files, UNIT_PATH, UNIT_TEXT) {
      assert files[UNIT_PATH := UNIT_TEXT] == files;
    } else {
      var cs := UnitCommands(files);
      assert cs[1..] == [Must(Systemctl("daemon-reload", ""))];
      assert cs[1..][1..] == [];
      assert Written(files[UNIT_PATH := UNIT_TEXT], cs[1..]) == Written(files[UNIT_PATH := UNIT_TEXT], cs[1..][1..]);
    }
  }

  lemma OneWrite(files: map<string, string>, c: Command)
    ensures Written(files, [c]) == if c.action.WriteFile? then files[c.action.path := c.action.data] else files
  {
    assert [c][1..] == [];
  }

  /** The configuration and unit files after the plan. */
  function WantedFiles(d: Desired, files: map<string, string>): map<string, string> {
    if d.dnsmasqConf != "" then files[CONF_PATH := d.dnsmasqConf][UNIT_PATH := UNIT_TEXT]
      else files[UNIT_PATH := UNIT_TEXT]
  }

  lemma ReloadWritten(d: Desired, files: map<string, string>)
    requires ConfStale(d, files)
    ensures var cs :=
      [Must(WriteFile(CONF_PATH, d.dnsmasqConf))] + UnitCommands(files)
        + [Must(Systemctl("reload-or-restart", SERVICE))];
      OnlyFiles(cs) && Written(files, cs) == WantedFiles(d, files)
  {
    var w, u, r :=
      Must(WriteFile(CONF_PATH, d.dnsmasqConf)), UnitCommands(files), Must(Systemctl("reload-or-restart", SERVICE));
    var f1 := files[CONF_PATH := d.dnsmasqConf];
    OneWrite(files, w);
    UnitWritten(files);
    assert UNIT_PATH != CONF_PATH by { assert UNIT_PATH[5] != CONF_PATH[5]; }
    assert UnitCommands(f1) == u;
    UnitWritten(f1);
    OneWrite(f1[UNIT_PATH := UNIT_TEXT], r);
    WrittenAppend(files, [w], u);
    WrittenAppend(files, [w] + u, [r]);
  }

  /** The part of the plan that writes files. */
  function WritePart(d: Desired, files: map<string, string>): seq<Command> {
    if ConfStale(d, files) then
      [Must(WriteFile(CONF_PATH, d.dnsmasqConf))] + UnitCommands(files)
        + [Must(Systemctl("reload-or-restart", SERVICE))]
    else UnitCommands(files)
  }

  lemma WritePartWritten(d: Desired, files: map<string, string>)
    ensures OnlyFiles(WritePart(d, files)) && Written(files, WritePart(d, files)) == WantedFiles(d, files)
  {
    if ConfStale(d, files) {
      ReloadWritten(d, files);
    } else {
      UnitWritten(files);
      if d.dnsmasqConf != "" { assert files[CONF_PATH := d.dnsmasqConf] == files; }
    }
  }

  /** The plan is those writes and perhaps the enabling of the service, which writes nothing. */
  lemma PlanWritten(d: Desired, files: map<string, string>)
    ensures OnlyFiles(DnsmasqPlan(d, files)) && Written(files, DnsmasqPlan(d, files)) == WantedFiles(d, files)
  {
    var e := Try(Systemctl("enable", SERVICE));
    var a, b := WritePart(d, files),
      if d.dnsmasqConf != "" && (ConfStale(d, files) || !FileIs(files, UNIT_PATH, UNIT_TEXT)) then [e] else [];
    assert DnsmasqPlan(d, files) == a + b;
    WritePartWritten(d, files);
    OneWrite(WantedFiles(d, files), e);
    WrittenAppend(files, a, b);
  }

  lemma WantedSettles(d: Desired, files: map<string, string>)
    ensures DnsmasqPlan(d, WantedFiles(d, files)) == []
  {
    assert UNIT_PATH != CONF_PATH by { assert UNIT_PATH[5] != CONF_PATH[5]; }
  }

  lemma DnsmasqRun(d: Desired, s: State)
    ensures var o := Execute(s, DnsmasqPlan(d, s.files));
      && o.ok && o.state == s.(files := WantedFiles(d, s.files), services := o.state.services)
      && DnsmasqPlan(d, o.state.files) == []
  {
    PlanWritten(d, s.files);
    FilesRun(s, DnsmasqPlan(d, s.files));
    WantedSettles(d, s.files);
  }

  /** WireGuard configurations after the plan. */
  ghost predicate WgSynced(d: Desired, live: map<string, string>, now: map<string, string>) {
    && (forall l :: l in d.links && l.kind == Wireguard && l.name in d.wgConf ==>
          TrimSpace(Lookup(now, l.name)) == TrimSpace(d.wgConf[l.name]))
    && (forall n :: n in now ==> (n in live && now[n] == live[n]) || (n in d.wgConf && now[n] == d.wgConf[n]))
    && live.Keys <= now.Keys
  }

  lemma {:induction false} WgRun(d: Desired, s: State, ls: seq<DesiredLink>, live: map<string, string>)
    requires forall l :: l in ls && l.kind == Wireguard ==> l.name in View(s.links)
    requires forall n :: n in s.wgConf ==>
      (n in live && s.wgConf[n] == live[n]) || (n in d.wgConf && s.wgConf[n] == d.wgConf[n])
    requires live.Keys <= s.wgConf.Keys
    ensures var o := Execute(s, WgPlan(d, ls, live));
      && o.ok && o.state == s.(wgConf := o.state.wgConf)
      && (forall n :: n in o.state.wgConf ==>
            (n in s.wgConf && o.state.wgConf[n] == s.wgConf[n]) || (n in d.wgConf && o.state.wgConf[n] == d.wgConf[n]))
      && (forall l :: l in ls && WgStale(d, l, live) ==>
        l.name in o.state.wgConf && o.state.wgConf[l.name] == d.wgConf[l.name])
      && s.wgConf.Keys <= o.state.wgConf.Keys
    decreases |ls|
  {
    if ls != [] {
      var l, rest := ls[0], ls[1..];
      if WgStale(d, l, live) {
        var c := Must(WgSync(l.name, d.wgConf[l.name]));
        var t := s.(wgConf := s.wgConf[l.name := d.wgConf[l.name]]);
        assert Step(s, c.action) == Some(t);
        WgRun(d, t, rest, live);
        assert WgPlan(d, ls, live)[0] == c && WgPlan(d, ls, live)[1..] == WgPlan(d, rest, live);
      } else {
        WgRun(d, s, rest, live);
        assert WgPlan(d, ls, live) == WgPlan(d, rest, live);
      }
    }
  }

  lemma {:induction false} NoWg(d: Desired, ls: seq<DesiredLink>, live: map<string, string>)
    ensures WgPlan(d, ls, live) == [] <==> forall l :: l in ls ==> !WgStale(d, l, live)
  {
    if ls != [] { NoWg(d, ls[1..], live); }
  }

  /** The service plan runs without error once every desired tunnel exists, and then there is nothing left to plan. */
  lemma ServicesRun(d: Desired, s: State)
    requires forall l :: l in d.links && l.kind == Wireguard ==> l.name in View(s.links)
    ensures var o := Execute(s, ServicePlan(d, s.files, s.wgConf));
      && o.ok && o.state == s.(files := WantedFiles(d, s.files), wgConf := o.state.wgConf, services := o.state.services)
      && WgSynced(d, s.wgConf, o.state.wgConf)
      && ServicePlan(d, o.state.files, o.state.wgConf) == []
  {
    var live := s.wgConf;
    ExecuteAppend(s, DnsmasqPlan(d, s.files), WgPlan(d, d.links, live));
    DnsmasqRun(d, s);
    var t := Execute(s, DnsmasqPlan(d, s.files)).state;
    WgRun(d, t, d.links, live);
    var now := Execute(t, WgPlan(d, d.links, live)).state.wgConf;
    forall l | l in d.links && l.kind == Wireguard && l.name in d.wgConf
      ensures TrimSpace(Lookup(now, l.name)) == TrimSpace(d.wgConf[l.name])
    {
      if !WgStale(d, l, live) {
        if l.name !in now { assert l.name !in live; }
      }
    }
    NoWg(d, d.links, now);
  }
}
