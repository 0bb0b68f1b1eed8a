/**
  The DHCPv4 packet codec (router/internal/dhcp4/packet.go:142-298). Offsets and the
  magic cookie are the program's own: `sname` at 40, `file` at 104, cookie 99.130.83.69.
 */
module DhcpPacket {
  import opened Wrappers

  type Byte = x: int | 0 <= x < 0x100
  type Word = x: int | 0 <= x < 0x1_0000
  type Word32 = x: int | 0 <= x < 0x1_0000_0000

  // A nil or an IPv4 address.
  datatype IP = NoIP | IPv4(a: Byte, b: Byte, c: Byte, d: Byte)

  datatype Packet = Packet(op: Byte, htype: Byte, hlen: Byte, hops: Byte, xid: Word32, secs: Word, flags: Word,
                           ciaddr: IP, yiaddr: IP, siaddr: IP, giaddr: IP,
                           chaddr: seq<Byte>, sname: seq<Byte>, file: seq<Byte>, opts: map<Byte, seq<Byte>>)

  const PAD: Byte := 0
  const SUBNET: Byte := 1
  const ROUTER: Byte := 3
  const DNS: Byte := 6
  const HOST_NAME: Byte := 12
  const DOMAIN: Byte := 15
  const REQ_IP: Byte := 50
  const LEASE: Byte := 51
  const MSG_TYPE: Byte := 53
  const SERVER_ID: Byte := 54
  const PARAM_REQ: Byte := 55
  const RENEW_T1: Byte := 58
  const REBIND_T2: Byte := 59
  const VENDOR: Byte := 60
  const CLIENT_ID: Byte := 61
  const CLASS_ROUTE: Byte := 121
  const END: Byte := 255
  const COOKIE: seq<Byte> := [99, 130, 83, 69]

  // ---- fields ----

  function Be16(v: Word): seq<Byte> { [v / 0x100, v % 0x100] }

  function Be32(v: Word32): seq<Byte> {
    [v / 0x100_0000, v / 0x1_0000 % 0x100, v / 0x100 % 0x100, v % 0x100]
  }

  function Read16(b: seq<Byte>, i: nat): Word
    requires i + 2 <= |b|
  {
    b[i] as int * 0x100 + b[i + 1] as int
  }

  function Read32(b: seq<Byte>, i: nat): Word32
    requires i + 4 <= |b|
  {
    b[i] as int * 0x100_0000 + b[i + 1] as int * 0x1_0000 + b[i + 2] as int * 0x100 + b[i + 3] as int
  }

  function Ip4(ip: IP): seq<Byte> { if ip.NoIP? then [0, 0, 0, 0] else [ip.a, ip.b, ip.c, ip.d] }

  function ReadIp(b: seq<Byte>, i: nat): IP
    requires i + 4 <= |b|
  {
    if b[i] == b[i + 1] == b[i + 2] == b[i + 3] == 0 then NoIP else IPv4(b[i], b[i + 1], b[i + 2], b[i + 3])
  }

  /** The bytes before the first NUL. */
  function CString(b: seq<Byte>): (s: seq<Byte>)
    ensures |s| <= |b| && s == b[..|s|] && 0 !in s && (|s| < |b| ==> b[|s|] == 0)
  {
    if b == [] || b[0] == 0 then [] else [b[0]] + CString(b[1..])
  }

  /** Writing `s` at `at`, as Go's `copy` does: what does not fit is cut off. */
  function Overlay(buf: seq<Byte>, at: nat, s: seq<Byte>): (out: seq<Byte>)
    requires at <= |buf|
    ensures |out| == |buf|
    ensures forall i :: 0 <= i < |buf| ==> out[i] == if at <= i < at + |s| then s[i - at] else buf[i]
  {
    var n := if |s| <= |buf| - at then |s| else |buf| - at;
    buf[..at] + s[..n] + buf[at + n..]
  }

  function Zeros(n: nat): (z: seq<Byte>)
    ensures |z| == n && forall i :: 0 <= i < n ==> z[i] == 0
  {
    seq(n, _ => 0)
  }

  /** The 236 fixed bytes: hardware address, server name and file are written over each other in this order. */
  function Header(p: Packet): (h: seq<Byte>)
    ensures |h| == 236
  {
    Overlay(Overlay(Overlay(Fixed(p) + Zeros(208), 28, p.chaddr), 40, p.sname), 104, p.file)
  }

  function Fixed(p: Packet): (h: seq<Byte>)
    ensures |h| == 28
  {
    [p.op, p.htype, p.hlen, p.hops] + Be32(p.xid) + Be16(p.secs) + Be16(p.flags)
    + Ip4(p.ciaddr) + Ip4(p.yiaddr) + Ip4(p.siaddr) + Ip4(p.giaddr)
  }

  // ---- options ----

  const LISTED: seq<Byte> := [MSG_TYPE, REQ_IP, SERVER_ID, CLIENT_ID, VENDOR, HOST_NAME, PARAM_REQ, LEASE,
                              RENEW_T1, REBIND_T2, SUBNET, ROUTER, DNS, DOMAIN, CLASS_ROUTE]

  ghost predicate Distinct(codes: seq<Byte>) {
    forall i, j :: 0 <= i < j < |codes| ==> codes[i] != codes[j]
  }

  lemma DistinctAppend(codes: seq<Byte>, c: Byte)
    requires Distinct(codes)
    ensures Distinct(codes + [c]) <==> c !in codes
  {
    if c in codes {
      var i :| 0 <= i < |codes| && codes[i] == c;
      assert (codes + [c])[i] == (codes + [c])[|codes|];
    }
  }

  /** Each option once: the listed codes in their fixed order, then the others in any order. */
  ghost predicate Ordered(opts: map<Byte, seq<Byte>>, codes: seq<Byte>) {
    && (forall c :: c in codes <==> c in opts)
    && Distinct(codes)
    && Present(opts, LISTED) <= codes
  }

  function Present(opts: map<Byte, seq<Byte>>, order: seq<Byte>): (out: seq<Byte>)
    ensures forall c :: c in out <==> c in order && c in opts
  {
    if order == [] then [] else (if order[0] in opts then [order[0]] else []) + Present(opts, order[1..])
  }

  function Encode(opts: map<Byte, seq<Byte>>, codes: seq<Byte>): Option<seq<Byte>>
    requires forall c :: c in codes ==> c in opts
  {
    if codes == [] then Some([])
    else
      var c, v := codes[0], opts[codes[0]];
      var rest := Encode(opts, codes[1..]);
      if c == PAD || c == END then rest
      else if |v| > 255 || rest.None? then None
      else Some([c, |v|] + v + rest.value)
  }

  function MarshalWith(p: Packet, codes: seq<Byte>): Option<seq<Byte>>
    requires forall c :: c in codes ==> c in p.opts
  {
    var body := Encode(p.opts, codes);
    if |p.chaddr| > 16 || p.hlen > 16 || body.None? then None else Some(Header(p) + COOKIE + body.value + [END])
  }

  /** The options from index `i` on, added to those read so far; the last of a code wins. */
  function ParseOptions(b: seq<Byte>, i: nat, opts: map<Byte, seq<Byte>>): Option<map<Byte, seq<Byte>>>
    decreases |b| - i
  {
    if i >= |b| || b[i] == END then Some(opts)
    else if b[i] == PAD then ParseOptions(b, i + 1, opts)
    else if i + 1 >= |b| || i + 2 + b[i + 1] > |b| then None
    else ParseOptions(b, i + 2 + b[i + 1], opts[b[i] := b[i + 2..i + 2 + b[i + 1]]])
  }

  function ParseHeader(b: seq<Byte>, opts: map<Byte, seq<Byte>>): Packet
    requires |b| >= 236 && b[2] <= 16
  {
    Packet(b[0], b[1], b[2], b[3], Read32(b, 4), Read16(b, 8), Read16(b, 10),
           ReadIp(b, 12), ReadIp(b, 16), ReadIp(b, 20), ReadIp(b, 24),
           b[28..28 + b[2]], CString(b[40..104]), CString(b[104..236]), opts)
  }

  function Parse(b: seq<Byte>): Option<Packet> {
    if |b| < 244 || b[2] > 16 || b[236..240] != COOKIE then None
    else
      var opts := ParseOptions(b, 240, map[]);
      if opts.None? then None else Some(ParseHeader(b, opts.value))
  }

  // ---- the program's loops ----

  lemma {:induction false} PresentAppend(opts: map<Byte, seq<Byte>>, order: seq<Byte>, c: Byte)
    ensures Present(opts, order + [c]) == Present(opts, order) + if c in opts then [c] else []
  {
    if order == [] {
      assert [c][1..] == [];
    } else {
      PresentAppend(opts, order[1..], c);
      assert (order + [c])[1..] == order[1..] + [c];
    }
  }

  lemma {:induction false} PresentDistinct(opts: map<Byte, seq<Byte>>, order: seq<Byte>)
    requires Distinct(order)
    ensures Distinct(Present(opts, order))
    decreases |order|
  {
    if order != [] {
      var init, c := order[..|order| - 1], order[|order| - 1];
      assert order == init + [c];
      PresentDistinct(opts, init);
      PresentAppend(opts, init, c);
      DistinctAppend(init, c);
      DistinctAppend(Present(opts, init), c);
    }
  }

  /** The codes of `order` that are present, in its order. */
  method PresentCodes(opts: map<Byte, seq<Byte>>, order: seq<Byte>) returns (codes: seq<Byte>, seen: set<Byte>)
    ensures codes == Present(opts, order)
    ensures forall c :: c in seen <==> c in codes
  {
    codes, seen := [], {};
    for i := 0 to |order|
      invariant codes == Present(opts, order[..i])
      invariant forall c :: c in seen <==> c in codes
    {
      var c := order[i];
      assert order[..i + 1] == order[..i] + [c];
      PresentAppend(opts, order[..i], c);
      if c in opts {
        codes, seen := codes + [c], seen + {c};
      }
    }
    assert order[..|order|] == order;
  }

  /** The listed codes first; the rest in whatever order the map gives them. */
  method OptionOrder(opts: map<Byte, seq<Byte>>) returns (codes: seq<Byte>)
    ensures Ordered(opts, codes)
  {
    var seen;
    ListedOnce();
    PresentDistinct(opts, LISTED);
    codes, seen := PresentCodes(opts, LISTED);
    var rest := opts.Keys - seen;
    while rest != {}
      invariant rest <= opts.Keys && Present(opts, LISTED) <= codes
      invariant forall c :: c in codes <==> c in opts.Keys - rest
      invariant Distinct(codes)
    {
      var c :| c in rest;
      DistinctAppend(codes, c);
      codes, rest := codes + [c], rest - {c};
    }
  }

  lemma ListedOnce()
    ensures Distinct(LISTED)
  {}

  function Prefixed(buf: seq<Byte>, rest: Option<seq<Byte>>): Option<seq<Byte>> {
    if rest.None? then None else Some(buf + rest.value)
  }

  lemma PrefixedTwice(a: seq<Byte>, b: seq<Byte>, rest: Option<seq<Byte>>)
    ensures Prefixed(a, Prefixed(b, rest)) == Prefixed(a + b, rest)
  {
    if rest.Some? { assert a + (b + rest.value) == (a + b) + rest.value; }
  }

  method MarshalOptions(opts: map<Byte, seq<Byte>>, order: seq<Byte>) returns (out: Option<seq<Byte>>)
    requires forall c :: c in order ==> c in opts
    ensures out == Encode(opts, order)
  {
    var buf: seq<Byte> := [];
    assert order[0..] == order;
    if Encode(opts, order).Some? { assert [] + Encode(opts, order).value == Encode(opts, order).value; }
    for i := 0 to |order|
      invariant Prefixed(buf, Encode(opts, order[i..])) == Encode(opts, order)
    {
      var c := order[i];
      assert order[i..][0] == c && order[i..][1..] == order[i + 1..];
      var v := opts[c];
      if c == PAD || c == END {
        continue;
      }
      if |v| > 255 {
        return None;
      }
      PrefixedTwice(buf, [c, |v|] + v, Encode(opts, order[i + 1..]));
      buf := buf + ([c, |v|] + v);
    }
    assert order[|order|..] == [] && buf + [] == buf;
    out := Some(buf);
  }

  method Marshal(p: Packet) returns (out: Option<seq<Byte>>, ghost codes: seq<Byte>)
    ensures Ordered(p.opts, codes) && out == MarshalWith(p, codes)
    ensures exists order :: Ordered(p.opts, order) && out == MarshalWith(p, order)
  {
    var order := OptionOrder(p.opts);
    codes := order;
    if |p.chaddr| > 16 || p.hlen > 16 {
      return None, codes;
    }
    var body := MarshalOptions(p.opts, order);
    if body.None? {
      return None, codes;
    }
    out := Some(Header(p) + COOKIE + body.value + [END]);
  }

  method Unmarshal(b: seq<Byte>) returns (out: Option<Packet>)
    ensures out == Parse(b)
  {
    if |b| < 244 {
      return None;
    }
    if b[2] > 16 {
      return None;
    }
    if b[236] != 99 || b[237] != 130 || b[238] != 83 || b[239] != 69 {
      return None;
    }
    assert b[236..240] == COOKIE;
    var opts: map<Byte, seq<Byte>> := map[];
    var i := 240;
    while i < |b|
      invariant 240 <= i <= |b| && ParseOptions(b, i, opts) == ParseOptions(b, 240, map[])
      decreases |b| - i
    {
      var c := b[i];
      if c == END {
        break;
      }
      if c == PAD {
        i := i + 1;
        continue;
      }
      if i + 1 >= |b| {
        return None;
      }
      var l := b[i + 1];
      if i + 2 + l > |b| {
        return None;
      }
      opts := opts[c := b[i + 2..i + 2 + l]];
      i := i + 2 + l;
    }
    out := Some(ParseHeader(b, opts));
  }
}
