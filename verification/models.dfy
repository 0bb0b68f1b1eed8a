/**
  The configuration (router/pkg/models/models.go). An address or prefix is held as what its text
  parses to; an IPv4 spelling that parses is the only one of its value, and so is a prefix length, so
  nothing is lost. An IPv6 prefix keeps the spelling of its address.
 */
module Models {
  import opened Wrappers

  type Word32 = x: nat | x < 0x1_0000_0000
  type Word16 = x: nat | x < 0x1_0000
  type Word128 = x: nat | x < 0x1_0000_0000_0000_0000_0000_0000_0000_0000
  type Bits = x: nat | x <= 32
  type Bits128 = x: nat | x <= 128
  type Spelling = s: string | s != "" witness "?"
  type IpText = s: Spelling | '/' !in s witness "::"

  datatype Address = Unset | IPv4(v: Word32) | IPv6(text: string) | BadText(text: string)

  datatype Cidr =
    | NoCidr
    | V4(addr: Word32, bits: Bits)
    | V6(addr6: Word128, bits6: Bits128, ip: IpText)
    | Malformed(text: Spelling)

  datatype StaticWan = StaticWan(address: Cidr, gateway: string)

  datatype Wan = Wan(id: string, name: string, iface: string, mode: string, enabled: Option<bool>, metric: int,
                     fixed: Option<StaticWan>, ipv6Mode: string)

  datatype Vlan = Vlan(parent: string, id: int)

  datatype Reservation = Reservation(mac: string, ip: Address)

  datatype DhcpServer = DhcpServer(enabled: bool, start: Address, end: Address, leaseSeconds: int,
                                   dns: seq<Address>, reservations: seq<Reservation>)

  datatype Network = Network(id: string, name: string, iface: string, vlan: Option<Vlan>, members: seq<string>,
                             subnet: Cidr, ipv6Subnet: Cidr, dhcp: DhcpServer, zone: string,
                             internetAccess: Option<bool>, accessToLan: Option<bool>)

  datatype StaticRoute = StaticRoute(destination: string, via: string, device: string, metric: int, table: int)

  datatype Protocol = AnyProtocol | Tcp | Udp | Icmp

  datatype Verb = AcceptVerb | DropVerb | RejectVerb | LogVerb

  datatype PortRange = PortRange(start: Word16, end: Word16)

  datatype FirewallRule = FirewallRule(sourceZone: string, destZone: string, protocol: Protocol, source: seq<Cidr>,
                                       destination: seq<Cidr>, ports: seq<PortRange>, action: Verb, enabled: bool)

  datatype Peer = Peer(allowedIps: seq<string>)

  datatype Tunnel = Tunnel(name: string, address: Cidr, table: int, peers: seq<Peer>, zone: string)

  datatype Config = Config(version: int, hostname: string, dnsPort: int, wans: seq<Wan>, networks: seq<Network>,
                           rules: seq<FirewallRule>, tunnels: seq<Tunnel>, staticRoutes: seq<StaticRoute>)

  predicate Enabled(w: Wan) { w.enabled != Some(false) }
  predicate HasInternet(n: Network) { n.internetAccess != Some(false) }
  predicate CanAccessLan(n: Network) { n.accessToLan == Some(true) }

  /** The kernel name of a tunnel. */
  function WgIface(name: string): string { if "wg" <= name then name else "wg-" + name }

  // ---- letters ----

  function LowerChar(c: char): char { if 'A' <= c <= 'Z' then c + 32 as char else c }
  function UpperChar(c: char): char { if 'a' <= c <= 'z' then c - 32 as char else c }

  function Lower(s: string): (r: string)
    ensures |r| == |s|
  {
    if s == "" then "" else [LowerChar(s[0])] + Lower(s[1..])
  }

  function Upper(s: string): (r: string)
    ensures |r| == |s|
  {
    if s == "" then "" else [UpperChar(s[0])] + Upper(s[1..])
  }

  lemma {:induction false} LowerUpper(s: string)
    ensures Lower(Upper(s)) == Lower(s) && Upper(Lower(s)) == Upper(s)
  {
    if s != "" { LowerUpper(s[1..]); }
  }

  /** Either case can be compared in. */
  lemma SameFolded(a: string, b: string)
    ensures Upper(a) == Upper(b) <==> Lower(a) == Lower(b)
  {
    LowerUpper(a);
    LowerUpper(b);
  }
}
