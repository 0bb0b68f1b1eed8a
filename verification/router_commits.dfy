/**
  The commit protocol over the router's own configurations, defaults and validation, from the store
  as it is first opened.
 */
module RouterCommits {
  import opened Wrappers
  import opened Models
  import opened Prefixes
  import opened Defaults
  import opened Validate
  import opened ValidNetworks
  import opened DesiredState
  import opened Store
  import opened Commits
  import opened CommitRuns

  /** Defaults, validation, building and the uplink test, as the server calls them. */
  function RouterRules(): Rules<Config> {
    Rules(WithDefaults, (c: Config) => DesiredState.Valid(c), (c: Config) => DesiredState.Valid(c),
      (c: Config) => |c.wans| > 0)
  }

  // ---- the rules are lawful ----

  lemma ServiceKept(n: Network)
    requires Sound(n)
    ensures DhcpFits(DhcpDefaults(n.dhcp, n.subnet), n.subnet)
  {}

  lemma NetworkKept(n: Network)
    requires Sound(n)
    ensures var d := NetworkDefaults(n);
      Sound(d) && d.name == n.name && d.iface == n.iface && d.vlan == n.vlan && d.subnet == n.subnet
  {
    ServiceKept(n);
  }

  lemma NetworksKept(ns: seq<Network>)
    requires ValidNetworks.ValidNetworks(ns)
    ensures ValidNetworks.ValidNetworks(AllNetworkDefaults(ns))
  {
    var ds := AllNetworkDefaults(ns);
    forall i | 0 <= i < |ns| ensures Sound(ds[i]) { NetworkKept(ns[i]); }
    forall i, j | 0 <= i < j < |ns| ensures Apart(ds[i], ds[j]) {
      NetworkKept(ns[i]);
      NetworkKept(ns[j]);
      assert Apart(ns[i], ns[j]);
    }
  }

  lemma WansKept(c: Config)
    requires RestValid(c)
    ensures RestValid(WithDefaults(c))
  {
    var ws := WithDefaults(c).wans;
    forall w | w in ws
      ensures w.iface != "" && (w.mode == "static" ==> w.fixed.Some? && Parsed(w.fixed.value.address))
    {
      var i :| 0 <= i < |ws| && ws[i] == w;
      assert c.wans[i] in c.wans && w == WanDefaults(c.wans[i], i);
    }
  }

  /** Filling in defaults never makes a valid configuration invalid. */
  lemma DefaultsKeepValid(c: Config)
    requires DesiredState.Valid(c)
    ensures DesiredState.Valid(WithDefaults(c))
  {
    CleanMeansValid(c.networks);
    NetworksKept(c.networks);
    CleanMeansValid(AllNetworkDefaults(c.networks));
    WansKept(c);
  }

  lemma RouterRulesLawful()
    ensures Lawful(RouterRules())
  {
    var k := RouterRules();
    forall c: Config ensures k.defaults(k.defaults(c)) == k.defaults(c) { DefaultsIdempotent(c); }
    forall c: Config | k.valid(c) ensures k.valid(k.defaults(c)) && k.builds(k.defaults(c)) { DefaultsKeepValid(c); }
  }

  // ---- a fresh store ----

  /** The server over a store that was just created. */
  function FreshStore(): State<Config> { Seeded(DefaultConfig()) }

  /** The seed is valid, but not complete: its uplink has no IPv6 mode and its DHCP service no DNS server. */
  lemma DefaultValidNotComplete()
    ensures Fit(RouterRules(), DefaultConfig()) && !Complete(RouterRules(), DefaultConfig())
    ensures CommitRuns.Inv(RouterRules(), FreshStore()) && Synced(FreshStore().core)
  {
    DefaultNetworkClean([], NoCidr);
    assert WithDefaults(DefaultConfig()).wans[0].ipv6Mode == "auto";
  }

  /**
    From a fresh store, everything committed is valid after every run, and live is effective exactly
    once and while the engine's last attempt worked: nothing was applied at the start.
   */
  lemma RouterStaysLive(moves: seq<Move<Config>>)
    requires NeverDiverges(RouterRules(), FreshStore(), moves)
    ensures var t := Run(RouterRules(), FreshStore(), moves);
      && CommitRuns.Inv(RouterRules(), t) && (forall e :: e in t.core.log ==> DesiredState.Valid(e.config))
      && t.core.live ==
         if Broken(RouterRules(), FreshStore(), moves, true) then Dirty else Running(Effective(t.core))
  {
    RouterRulesLawful();
    DefaultValidNotComplete();
    LiveIsEffective(RouterRules(), FreshStore(), moves);
  }

  /** Once one reconciliation completed, it stays so while the engine works and failed applies recover. */
  lemma RouterStaysEffective(io: Io, rest: seq<Move<Config>>)
    requires WorksFrom(RouterRules(), FreshStore(), io, rest)
    ensures EffectiveAfter(RouterRules(), FreshStore(), [Move(Tick, io)] + rest)
  {
    RouterRulesLawful();
    DefaultValidNotComplete();
    EffectiveOnceReconciled(RouterRules(), FreshStore(), io, rest);
  }

  const WORKING := Io(true, true, true, true)

  /** The first transaction of a fresh store commits a second revision although nobody edited anything. */
  lemma FirstTransactionCommits(id: string, author: string, token: string)
    ensures CommitsUnedited(RouterRules(), DefaultConfig(), id, author, token, WORKING)
  {
    RouterRulesLawful();
    DefaultValidNotComplete();
    SeedCommitsUnedited(RouterRules(), DefaultConfig(), id, author, token, WORKING);
  }

  function Renamed(): Config { DefaultConfig().(hostname := "edge") }

  lemma RenamedValid()
    ensures Fit(RouterRules(), WithDefaults(Renamed())) && WithDefaults(Renamed()) != WithDefaults(DefaultConfig())
  {
    DefaultValidNotComplete();
    assert DesiredState.Valid(Renamed());
    DefaultsKeepValid(Renamed());
    assert WithDefaults(Renamed()).hostname != WithDefaults(DefaultConfig()).hostname;
  }

  /** And a transaction the engine refused, rolled back after someone renamed the router, takes the name back. */
  lemma RenameIsLost(id: string, author: string)
    ensures LosesCommit(RouterRules(), DefaultConfig(), Renamed(), id, author, WORKING.(engine := false), WORKING)
  {
    RouterRulesLawful();
    DefaultValidNotComplete();
    RenamedValid();
    SeedLosesCommit(RouterRules(), DefaultConfig(), Renamed(), id, author, WORKING.(engine := false), WORKING);
  }
}
