/**
  Defaults for optional settings (router/internal/config/config.go:84-169), in the program's
  32-bit arithmetic.
 */
module Defaults {
  import opened Wrappers
  import opened Models
  import opened Prefixes
  import opened Text

  const WORDS := 0x1_0000_0000

  function Wrap(x: int): Word32 { x % WORDS }

  function Least(a: Word32, b: Word32): Word32 { if a < b then a else b }

  function NetAddr(p: Cidr): Word32
    requires p.V4?
  {
    MaskedIs(p.addr, 32 - p.bits);
    Masked(p.addr, 32 - p.bits)
  }

  /** Proposes .100 to .220 of the subnet, clamped; a shift by 32 gives 0. */
  function DefaultPool(p: Cidr): Option<(Word32, Word32)> {
    if !p.V4? then None else PoolAt(NetAddr(p), Wrap(Pow2(32 - p.bits)))
  }

  function PoolAt(base: Word32, size: Word32): Option<(Word32, Word32)> {
    var last := Wrap(base + size - 2);
    var start := Least(Wrap(base + 100), Wrap(last - 1));
    var end := Least(Wrap(base + 220), last);
    if end <= start then None else Some((start, end))
  }

  /** The network address plus one; an IPv6 prefix is read as the IPv4 address in its first four bytes. */
  function GatewayOf(p: Cidr): Address {
    match p
    case V4(a, bits) => IPv4(Wrap(NetAddr(p) + 1))
    case V6(a, bits, text) => IPv4(Wrap(Masked(a, 128 - bits) / 0x1_0000_0000_0000_0000_0000_0000 + 1))
    case _ => Unset
  }

  function WanDefaults(w: Wan, i: nat): Wan {
    w.(id := if w.id == "" then w.name else w.id,
       enabled := if w.enabled.None? then Some(true) else w.enabled,
       mode := if w.mode == "" then "dhcp" else w.mode,
       metric := if w.metric == 0 then 50 + i * 10 else w.metric,
       ipv6Mode := if w.ipv6Mode == "" then "auto" else w.ipv6Mode)
  }

  function PoolDefaults(d: DhcpServer, subnet: Cidr): DhcpServer {
    var pool := DefaultPool(subnet);
    if pool.None? then d
    else d.(start := if d.start == Unset then IPv4(pool.value.0) else d.start,
            end := if d.end == Unset then IPv4(pool.value.1) else d.end)
  }

  function DhcpDefaults(d: DhcpServer, subnet: Cidr): DhcpServer {
    if !d.enabled then d
    else
      var pooled := PoolDefaults(d.(leaseSeconds := if d.leaseSeconds == 0 then 86400 else d.leaseSeconds), subnet);
      if pooled.dns == [] then pooled.(dns := [GatewayOf(subnet)]) else pooled
  }

  function NetworkDefaults(n: Network): Network {
    n.(id := if n.id == "" then n.name else n.id,
       zone := if n.zone == "" then Upper(n.name) else n.zone,
       dhcp := DhcpDefaults(n.dhcp, n.subnet),
       iface :=
         if n.iface == "" && n.vlan.Some? then n.vlan.value.parent + ".v" + Decimal(n.vlan.value.id) else n.iface)
  }

  function AllWanDefaults(ws: seq<Wan>): (out: seq<Wan>)
    ensures |out| == |ws| && forall i :: 0 <= i < |ws| ==> out[i] == WanDefaults(ws[i], i)
  {
    if ws == [] then [] else AllWanDefaults(ws[..|ws| - 1]) + [WanDefaults(ws[|ws| - 1], |ws| - 1)]
  }

  function AllNetworkDefaults(ns: seq<Network>): (out: seq<Network>)
    ensures |out| == |ns| && forall i :: 0 <= i < |ns| ==> out[i] == NetworkDefaults(ns[i])
  {
    if ns == [] then [] else AllNetworkDefaults(ns[..|ns| - 1]) + [NetworkDefaults(ns[|ns| - 1])]
  }

  function WithDefaults(c: Config): Config {
    c.(version := if c.version == 0 then 1 else c.version,
       hostname := if c.hostname == "" then "routerd" else c.hostname,
       dnsPort := if c.dnsPort == 0 then 53 else c.dnsPort,
       wans := AllWanDefaults(c.wans),
       networks := AllNetworkDefaults(c.networks))
  }

  /** The out-of-the-box configuration a store is seeded with (router/internal/config/config.go:15-36). */
  function DefaultConfig(): Config {
    Config(1, "routerd", 53,
           [Wan("wan", "wan", "eth0", "dhcp", Some(true), 50, None, "")],
           [Network("lan", "lan", "br-lan", None, [], V4(0xC0A8_0101, 24), NoCidr,
                    DhcpServer(true, IPv4(0xC0A8_0164), IPv4(0xC0A8_01DC), 86400, [], []), "LAN",
                    Some(true), Some(true))],
           [], [], [])
  }

  // ---- filling them in, in place ----

  class Document {
    var version: int
    var hostname: string
    var dnsPort: int
    const wans: array<Wan>
    const networks: array<Network>
    const rest: Config

    constructor (c: Config)
      ensures Value() == c && fresh(wans) && fresh(networks)
    {
      version, hostname, dnsPort, rest := c.version, c.hostname, c.dnsPort, c;
      wans := new Wan[|c.wans|](i requires 0 <= i < |c.wans| => c.wans[i]);
      networks := new Network[|c.networks|](i requires 0 <= i < |c.networks| => c.networks[i]);
      new;
      assert wans[..] == c.wans && networks[..] == c.networks;
    }

    ghost function Value(): Config
      reads this, wans, networks
    {
      rest.(version := version, hostname := hostname, dnsPort := dnsPort, wans := wans[..], networks := networks[..])
    }

    method ApplyDefaults()
      modifies this, wans, networks
      ensures Value() == WithDefaults(old(Value()))
    {
      if version == 0 { version := 1; }
      if hostname == "" { hostname := "routerd"; }
      FillWans(wans);
      FillNetworks(networks);
      if dnsPort == 0 { dnsPort := 53; }
    }
  }

  method FillWans(wans: array<Wan>)
    modifies wans
    ensures wans[..] == AllWanDefaults(old(wans[..]))
  {
    for i := 0 to wans.Length
      invariant forall k :: 0 <= k < i ==> wans[k] == WanDefaults(old(wans[k]), k)
      invariant forall k :: i <= k < wans.Length ==> wans[k] == old(wans[k])
    {
      var w := wans[i];
      if w.id == "" { w := w.(id := w.name); }
      if w.enabled.None? { w := w.(enabled := Some(true)); }
      if w.mode == "" { w := w.(mode := "dhcp"); }
      if w.metric == 0 { w := w.(metric := 50 + i * 10); }
      if w.ipv6Mode == "" { w := w.(ipv6Mode := "auto"); }
      wans[i] := w;
    }
  }

  method FillDhcp(d: DhcpServer, subnet: Cidr) returns (out: DhcpServer)
    ensures out == DhcpDefaults(d, subnet)
  {
    out := d;
    if d.enabled {
      if out.leaseSeconds == 0 { out := out.(leaseSeconds := 86400); }
      if out.start == Unset || out.end == Unset {
        var pool := DefaultPool(subnet);
        if pool.Some? {
          if out.start == Unset { out := out.(start := IPv4(pool.value.0)); }
          if out.end == Unset { out := out.(end := IPv4(pool.value.1)); }
        }
      }
      if |out.dns| == 0 { out := out.(dns := [GatewayOf(subnet)]); }
    }
  }

  method FillNetworks(networks: array<Network>)
    modifies networks
    ensures networks[..] == AllNetworkDefaults(old(networks[..]))
  {
    for i := 0 to networks.Length
      invariant forall k :: 0 <= k < i ==> networks[k] == NetworkDefaults(old(networks[k]))
      invariant forall k :: i <= k < networks.Length ==> networks[k] == old(networks[k])
    {
      var n := networks[i];
      if n.id == "" { n := n.(id := n.name); }
      if n.zone == "" { n := n.(zone := Upper(n.name)); }
      var dhcp := FillDhcp(n.dhcp, n.subnet);
      n := n.(dhcp := dhcp);
      if n.iface == "" && n.vlan.Some? { n := n.(iface := n.vlan.value.parent + ".v" + Decimal(n.vlan.value.id)); }
      networks[i] := n;
    }
  }

  // ---- idempotence ----

  lemma DhcpTwice(d: DhcpServer, subnet: Cidr)
    ensures DhcpDefaults(DhcpDefaults(d, subnet), subnet) == DhcpDefaults(d, subnet)
  {}

  lemma NetworkTwice(n: Network)
    ensures NetworkDefaults(NetworkDefaults(n)) == NetworkDefaults(n)
  {
    DhcpTwice(n.dhcp, n.subnet);
    if n.name == "" { assert Upper(n.name) == ""; }
  }

  lemma WanTwice(w: Wan, i: nat)
    ensures WanDefaults(WanDefaults(w, i), i) == WanDefaults(w, i)
  {}

  lemma WansTwice(ws: seq<Wan>)
    ensures AllWanDefaults(AllWanDefaults(ws)) == AllWanDefaults(ws)
  {
    var once := AllWanDefaults(ws);
    forall i | 0 <= i < |ws| ensures AllWanDefaults(once)[i] == once[i] { WanTwice(ws[i], i); }
  }

  lemma NetworksTwice(ns: seq<Network>)
    ensures AllNetworkDefaults(AllNetworkDefaults(ns)) == AllNetworkDefaults(ns)
  {
    var once := AllNetworkDefaults(ns);
    forall i | 0 <= i < |ns| ensures AllNetworkDefaults(once)[i] == once[i] { NetworkTwice(ns[i]); }
  }

  /** Filling in defaults twice is filling them in once. */
  lemma DefaultsIdempotent(c: Config)
    ensures WithDefaults(WithDefaults(c)) == WithDefaults(c)
  {
    WansTwice(c.wans);
    NetworksTwice(c.networks);
  }

  // ---- the default pool ----

  /** Strictly between the network address and the broadcast address. */
  predicate Inner(p: Cidr, start: Word32, end: Word32)
    requires p.V4?
  {
    NetAddr(p) < start < end < NetAddr(p) + Pow2(32 - p.bits) - 1
  }

  lemma Pow2Is32()
    ensures Pow2(32) == WORDS
  {
    assert Pow2(8) == 256;
    Pow2Add(8, 8);
    Pow2Add(16, 16);
  }

  lemma {:induction false} Pow2Monotonic(m: nat, n: nat)
    requires m <= n
    ensures Pow2(m) <= Pow2(n)
  {
    if m < n { Pow2Monotonic(m, n - 1); }
  }

  /** A subnet ends inside the address space. */
  lemma SubnetFits(p: Cidr)
    requires p.V4?
    ensures NetAddr(p) + Pow2(32 - p.bits) <= WORDS
  {
    var low: nat := 32 - p.bits;
    var d, k := Pow2(low), p.addr / Pow2(low);
    MaskedIs(p.addr, low);
    Pow2Is32();
    Pow2Add(low, p.bits);
    assert d * k < d * Pow2(p.bits);
    MultipleAtLeast(d, Pow2(p.bits) - k);
    Distribute(d, Pow2(p.bits) - k, k);
  }

  lemma WrapOnce(x: nat)
    requires x < 2 * WORDS
    ensures Wrap(x) == if x < WORDS then x else x - WORDS
  {}

  /** A block of 2^32 addresses is the one whose size wraps to 0; the last usable address is the same either way. */
  lemma LastUsable(base: Word32, block: nat)
    requires 4 <= block && base + block <= WORDS
    ensures Wrap(base + Wrap(block) - 2) == base + block - 2
  {
    WrapOnce(block);
    if block == WORDS {
      assert Wrap(-2) == WORDS - 2;
    } else {
      WrapOnce(base + block - 2);
    }
  }

  lemma PoolArithmetic(base: Word32, block: nat)
    requires block >= 4 && base + block <= WORDS
    ensures var pool := PoolAt(base, Wrap(block));
      (pool.Some? && base < pool.value.0 < pool.value.1 < base + block - 1) <==> base + 220 < WORDS
  {
    LastUsable(base, block);
    WrapOnce(base + 100);
    WrapOnce(base + 220);
    WrapOnce(base + block - 3);
  }

  lemma BlockSize(p: Cidr)
    requires p.V4?
    ensures Pow2(32 - p.bits) >= 4 <==> p.bits <= 30
  {
    assert Pow2(2) == 4 && Pow2(1) == 2;
    if p.bits <= 30 { Pow2Monotonic(2, 32 - p.bits); }
  }

  /** The default pool is usable exactly for subnets of at least four addresses whose .220 does not wrap. */
  lemma PoolUsable(p: Cidr)
    requires p.V4?
    ensures (DefaultPool(p).Some? && Inner(p, DefaultPool(p).value.0, DefaultPool(p).value.1))
      <==> p.bits <= 30 && NetAddr(p) + 220 < WORDS
  {
    BlockSize(p);
    SubnetFits(p);
    if p.bits <= 30 { PoolArithmetic(NetAddr(p), Pow2(32 - p.bits)); }
  }

  /** The conventional router address lies in its subnet unless that is a single address. */
  lemma GatewayContained(p: Cidr)
    requires p.V4?
    ensures Contains(p, GatewayOf(p).v) <==> p.bits <= 31
  {
    BlockOf(p.addr, GatewayOf(p).v, 32 - p.bits);
    SubnetFits(p);
    BlockSize(p);
    WrapOnce(NetAddr(p) + 1);
    assert Pow2(1) == 2 && Pow2(0) == 1;
  }

  // ---- what is filled in ----

  /** The document's own settings. */
  lemma SettingsFilled(c: Config)
    ensures var d := WithDefaults(c);
      && d.version == (if c.version == 0 then 1 else c.version)
      && d.hostname == (if c.hostname == "" then "routerd" else c.hostname)
      && d.dnsPort == (if c.dnsPort == 0 then 53 else c.dnsPort)
      && d.rules == c.rules && d.tunnels == c.tunnels && d.staticRoutes == c.staticRoutes
      && |d.wans| == |c.wans| && |d.networks| == |c.networks|
  {}

  /** What an uplink says it keeps; what it does not say is as stated. */
  lemma UplinkFilled(c: Config, i: nat)
    requires i < |c.wans|
    ensures var w, d := c.wans[i], WithDefaults(c).wans[i];
      && d.name == w.name && d.iface == w.iface && d.fixed == w.fixed
      && (if w.id == "" then d.id == w.name else d.id == w.id)
      && (if w.enabled.None? then d.enabled == Some(true) else d.enabled == w.enabled)
      && (if w.mode == "" then d.mode == "dhcp" else d.mode == w.mode)
      && (if w.metric == 0 then d.metric == 50 + 10 * i else d.metric == w.metric)
      && (if w.ipv6Mode == "" then d.ipv6Mode == "auto" else d.ipv6Mode == w.ipv6Mode)
  {}

  /** A network gets its name for an identity, the same in capitals for a zone, and its VLAN's interface for its own. */
  lemma NetworkFilled(c: Config, i: nat)
    requires i < |c.networks|
    ensures var n, d := c.networks[i], WithDefaults(c).networks[i];
      && d.name == n.name && d.vlan == n.vlan && d.members == n.members && d.subnet == n.subnet
      && d.ipv6Subnet == n.ipv6Subnet && d.internetAccess == n.internetAccess && d.accessToLan == n.accessToLan
      && (if n.id == "" then d.id == n.name else d.id == n.id)
      && (if n.zone == "" then |d.zone| == |n.name| else d.zone == n.zone)
      && (if n.iface == "" && n.vlan.Some? then d.iface == n.vlan.value.parent + ".v" + Decimal(n.vlan.value.id)
          else d.iface == n.iface)
      && (n.zone == "" ==> forall k :: 0 <= k < |n.name| ==>
            d.zone[k] as int == if 'a' <= n.name[k] <= 'z' then n.name[k] as int - 32 else n.name[k] as int)
  {
    UpperLetters(c.networks[i].name);
  }

  lemma {:induction false} UpperLetters(s: string)
    ensures forall k :: 0 <= k < |s| ==>
      Upper(s)[k] as int == if 'a' <= s[k] <= 'z' then s[k] as int - 32 else s[k] as int
  {
    if s != "" { UpperLetters(s[1..]); }
  }

  /** The lesser of two addresses. */
  function Lesser(a: int, b: int): int { if a < b then a else b }

  /** The default pool of a subnet of at least four addresses whose .220 does not wrap: .100 to .220, cut to fit. */
  lemma PoolIs(p: Cidr)
    requires p.V4? && p.bits <= 30 && NetAddr(p) + 220 < WORDS
    ensures var base, size := NetAddr(p), Pow2(32 - p.bits);
      && DefaultPool(p).Some?
      && DefaultPool(p).value.0 as int == Lesser(base + 100, base + size - 3)
      && DefaultPool(p).value.1 as int == Lesser(base + 220, base + size - 2)
  {
    BlockSize(p);
    SubnetFits(p);
    PoolIsAt(NetAddr(p), Pow2(32 - p.bits));
  }

  lemma PoolIsAt(base: Word32, block: nat)
    requires block >= 4 && base + block <= WORDS && base + 220 < WORDS
    ensures var pool := PoolAt(base, Wrap(block));
      pool.Some? && pool.value.0 as int == Lesser(base + 100, base + block - 3)
      && pool.value.1 as int == Lesser(base + 220, base + block - 2)
  {
    LastUsable(base, block);
    WrapOnce(base + 100);
    WrapOnce(base + 220);
    WrapOnce(base + block - 3);
  }

  /** Of an enabled service unset ends of the pool are taken from the default pool, if there is one. */
  lemma PoolFilled(d: DhcpServer, p: Cidr)
    ensures var e, pool := PoolDefaults(d, p), DefaultPool(p);
      && e == d.(start := e.start, end := e.end)
      && (d.start != Unset || pool.None? ==> e.start == d.start) && (d.end != Unset || pool.None? ==> e.end == d.end)
      && (d.start == Unset && pool.Some? ==> e.start == IPv4(pool.value.0))
      && (d.end == Unset && pool.Some? ==> e.end == IPv4(pool.value.1))
  {}

  /** A disabled service stays as it is; an enabled one gets a day's lease, the pool, and the router as name server. */
  lemma ServiceFilled(d: DhcpServer, p: Cidr)
    ensures !d.enabled ==> DhcpDefaults(d, p) == d
    ensures d.enabled ==>
      var e, pooled := DhcpDefaults(d, p), PoolDefaults(d, p);
      && e.enabled && e.reservations == d.reservations && e.start == pooled.start && e.end == pooled.end
      && (if d.leaseSeconds == 0 then e.leaseSeconds == 86400 else e.leaseSeconds == d.leaseSeconds)
      && (d.dns != [] ==> e.dns == d.dns) && (d.dns == [] ==> |e.dns| == 1)
  {}

  lemma NameServerFilled(d: DhcpServer, a: Word32, bits: Bits)
    requires d.enabled && d.dns == [] && NetAddr(V4(a, bits)) + 1 < WORDS
    ensures DhcpDefaults(d, V4(a, bits)).dns == [IPv4(NetAddr(V4(a, bits)) + 1)]
  {
    WrapOnce(NetAddr(V4(a, bits)) + 1);
    assert GatewayOf(V4(a, bits)) == IPv4(NetAddr(V4(a, bits)) + 1);
  }
}
