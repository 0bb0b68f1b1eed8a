/** Which packets survive being marshalled and parsed, and which buffers survive being parsed and printed. */
module DhcpRoundTrip {
  import opened Wrappers
  import opened DhcpPacket

  /** Hardware-address bytes 12 and on share their place with the server name. */
  predicate OverlapAgrees(chaddr: seq<Byte>, sname: seq<Byte>) {
    forall j :: 0 <= j < |chaddr| - 12 ==> ByteAgrees(chaddr, sname, j)
  }

  predicate ByteAgrees(chaddr: seq<Byte>, sname: seq<Byte>, j: nat)
    requires 12 + j < |chaddr|
  {
    (j < |sname| ==> chaddr[12 + j] == sname[j]) && (j == |sname| && j < 64 ==> chaddr[12 + j] == 0)
  }

  predicate FaithfulHeader(p: Packet) {
    && p.hlen == |p.chaddr| <= 16
    && p.ciaddr != IPv4(0, 0, 0, 0) && p.yiaddr != IPv4(0, 0, 0, 0)
    && p.siaddr != IPv4(0, 0, 0, 0) && p.giaddr != IPv4(0, 0, 0, 0)
    && 0 !in p.sname && |p.sname| <= 64 && 0 !in p.file && |p.file| <= 132
    && OverlapAgrees(p.chaddr, p.sname)
  }

  predicate FaithfulOptions(opts: map<Byte, seq<Byte>>) {
    forall c :: c in opts ==> c != PAD && c != END && |opts[c]| <= 255
  }

  /** At least three bytes of encoded options: two options, or one with a value. */
  predicate EnoughOptions(opts: map<Byte, seq<Byte>>) {
    |opts| >= 2 || exists c :: c in opts && |opts[c]| >= 1
  }

  // ---- options ----

  /** The options a parser reads back from those encoded, added to the ones it has. */
  function Put(acc: map<Byte, seq<Byte>>, opts: map<Byte, seq<Byte>>, codes: seq<Byte>): map<Byte, seq<Byte>>
    requires forall c :: c in codes ==> c in opts
    decreases |codes|
  {
    if codes == [] then acc
    else Put(if codes[0] == PAD || codes[0] == END then acc else acc[codes[0] := opts[codes[0]]], opts, codes[1..])
  }

  lemma {:induction false} PutReads(acc: map<Byte, seq<Byte>>, opts: map<Byte, seq<Byte>>, codes: seq<Byte>)
    requires forall c :: c in codes ==> c in opts
    ensures var out := Put(acc, opts, codes);
      && (forall c :: c in out <==> c in acc || (c in codes && c != PAD && c != END))
      && (forall c :: c in out ==> out[c] == if c in codes && c != PAD && c != END then opts[c] else acc[c])
    decreases |codes|
  {
    if codes != [] {
      var c := codes[0];
      PutReads(if c == PAD || c == END then acc else acc[c := opts[c]], opts, codes[1..]);
      assert forall x :: x in codes <==> x == c || x in codes[1..];
    }
  }

  lemma {:induction false} EncodeSucceeds(opts: map<Byte, seq<Byte>>, codes: seq<Byte>)
    requires forall c :: c in codes ==> c in opts
    ensures Encode(opts, codes).Some? <==> forall c :: c in codes && c != PAD && c != END ==> |opts[c]| <= 255
    decreases |codes|
  {
    if codes != [] { EncodeSucceeds(opts, codes[1..]); }
  }

  /** The option loop reads back what the encoder wrote. */
  lemma {:induction false} ParseEncoded(pre: seq<Byte>, opts: map<Byte, seq<Byte>>, codes: seq<Byte>,
                                        acc: map<Byte, seq<Byte>>)
    requires forall c :: c in codes ==> c in opts
    requires Encode(opts, codes).Some?
    ensures ParseOptions(pre + Encode(opts, codes).value + [END], |pre|, acc) == Some(Put(acc, opts, codes))
    decreases |codes|
  {
    var b := pre + Encode(opts, codes).value + [END];
    if codes == [] {
      assert b == pre + [END];
    } else {
      var c, v, rest := codes[0], opts[codes[0]], codes[1..];
      var tail := Encode(opts, rest).value;
      if c == PAD || c == END {
        ParseEncoded(pre, opts, rest, acc);
      } else {
        var pre' := pre + ([c, |v|] + v);
        ParseEncoded(pre', opts, rest, acc[c := v]);
        assert b == pre' + tail + [END];
        assert b[|pre|] == c && b[|pre| + 1] == |v|;
        assert b[|pre| + 2..|pre| + 2 + |v|] == v;
      }
    }
  }

  lemma {:induction false} EncodedSize(opts: map<Byte, seq<Byte>>, codes: seq<Byte>)
    requires (forall c :: c in codes ==> c in opts && c != PAD && c != END) && Encode(opts, codes).Some?
    ensures |Encode(opts, codes).value| >= 2 * |codes|
    ensures |codes| == 0 ==> |Encode(opts, codes).value| == 0
    ensures |codes| == 1 ==> |Encode(opts, codes).value| == 2 + |opts[codes[0]]|
    decreases |codes|
  {
    if codes != [] {
      var c, rest := codes[0], codes[1..];
      assert c in codes && forall x :: x in rest ==> x in codes;
      assert Encode(opts, rest).Some?;
      EncodedSize(opts, rest);
    }
  }

  lemma {:induction false} CodesCount(opts: map<Byte, seq<Byte>>, codes: seq<Byte>)
    requires (forall c :: c in codes <==> c in opts) && forall i, j :: 0 <= i < j < |codes| ==> codes[i] != codes[j]
    ensures |codes| == |opts|
    decreases |codes|
  {
    if codes == [] {
      assert opts == map[];
    } else {
      var c := codes[0];
      assert forall x :: x in codes <==> x == c || x in codes[1..];
      var rest := map x | x in opts && x != c :: opts[x];
      assert forall i, j :: 0 <= i < j < |codes[1..]| ==> codes[1..][i] != codes[1..][j];
      CodesCount(rest, codes[1..]);
      assert opts.Keys == rest.Keys + {c};
      assert |opts| == |opts.Keys| && |rest| == |rest.Keys|;
    }
  }

  /** Enough option bytes for the parser's minimum length, whatever their order. */
  lemma EnoughMeans(opts: map<Byte, seq<Byte>>, codes: seq<Byte>)
    requires Ordered(opts, codes) && FaithfulOptions(opts)
    ensures Encode(opts, codes).Some? && (|Encode(opts, codes).value| >= 3 <==> EnoughOptions(opts))
  {
    EncodeSucceeds(opts, codes);
    EncodedSize(opts, codes);
    CodesCount(opts, codes);
    if |codes| == 1 { assert codes[0] in codes; }
  }

  // ---- the fixed part ----

  lemma FixedPart(p: Packet)
    ensures Header(p)[..28] == Fixed(p)
  {}

  lemma TailByte(p: Packet, k: nat)
    requires 28 <= k < 236
    ensures Header(p)[k] == if 104 <= k < 104 + |p.file| then p.file[k - 104]
                            else if 40 <= k < 40 + |p.sname| then p.sname[k - 40]
                            else if k < 28 + |p.chaddr| then p.chaddr[k - 28] else 0
  {}

  lemma Digits32(x: Word32)
    ensures x / 0x100_0000 * 0x100_0000 + x / 0x1_0000 % 0x100 * 0x1_0000 + x / 0x100 % 0x100 * 0x100 + x % 0x100 == x
  {
    assert x / 0x100 / 0x100 == x / 0x1_0000 && x / 0x1_0000 / 0x100 == x / 0x100_0000;
  }

  lemma Digits16(x: Word)
    ensures x / 0x100 * 0x100 + x % 0x100 == x
  {}

  lemma WordsRead(p: Packet, h: seq<Byte>)
    requires |h| >= 28 && h[..28] == Fixed(p)
    ensures h[0] == p.op && h[1] == p.htype && h[2] == p.hlen && h[3] == p.hops
    ensures Read32(h, 4) == p.xid && Read16(h, 8) == p.secs && Read16(h, 10) == p.flags
  {
    var f := h[..28];
    assert f[4] == p.xid / 0x100_0000 && f[5] == p.xid / 0x1_0000 % 0x100 && f[6] == p.xid / 0x100 % 0x100
        && f[7] == p.xid % 0x100;
    assert f[8] == p.secs / 0x100 && f[9] == p.secs % 0x100 && f[10] == p.flags / 0x100 && f[11] == p.flags % 0x100;
    Digits32(p.xid);
    Digits16(p.secs);
    Digits16(p.flags);
  }

  lemma IpBack(h: seq<Byte>, i: nat, ip: IP)
    requires i + 4 <= |h| && h[i] == Ip4(ip)[0] && h[i + 1] == Ip4(ip)[1] && h[i + 2] == Ip4(ip)[2]
    requires h[i + 3] == Ip4(ip)[3]
    ensures ReadIp(h, i) == ip <==> ip != IPv4(0, 0, 0, 0)
  {}

  /** Where the fixed part holds the addresses. */
  lemma IpBytes(p: Packet, f: seq<Byte>, i: nat)
    requires i < 4 && f == Fixed(p)
    ensures f[12 + i] == Ip4(p.ciaddr)[i] && f[16 + i] == Ip4(p.yiaddr)[i] && f[20 + i] == Ip4(p.siaddr)[i]
    ensures f[24 + i] == Ip4(p.giaddr)[i]
  {}

  lemma IpsRead(p: Packet, h: seq<Byte>)
    requires |h| >= 28 && h[..28] == Fixed(p)
    ensures ReadIp(h, 12) == p.ciaddr <==> p.ciaddr != IPv4(0, 0, 0, 0)
    ensures ReadIp(h, 16) == p.yiaddr <==> p.yiaddr != IPv4(0, 0, 0, 0)
    ensures ReadIp(h, 20) == p.siaddr <==> p.siaddr != IPv4(0, 0, 0, 0)
    ensures ReadIp(h, 24) == p.giaddr <==> p.giaddr != IPv4(0, 0, 0, 0)
  {
    IpBytes(p, h[..28], 0);
    IpBytes(p, h[..28], 1);
    IpBytes(p, h[..28], 2);
    IpBytes(p, h[..28], 3);
    IpBack(h, 12, p.ciaddr);
    IpBack(h, 16, p.yiaddr);
    IpBack(h, 20, p.siaddr);
    IpBack(h, 24, p.giaddr);
  }

  /** A buffer reads as a given string exactly when the string is there, NUL-free and terminated or filling it. */
  lemma CStringIs(b: seq<Byte>, s: seq<Byte>)
    ensures CString(b) == s <==> |s| <= |b| && s == b[..|s|] && 0 !in s && (|s| < |b| ==> b[|s|] == 0)
  {
    var t := CString(b);
    forall k | 0 <= k < |t| ensures b[k] != 0 { assert t[k] == b[k] && t[k] in t; }
    if |s| <= |b| && s == b[..|s|] && 0 !in s {
      forall k | 0 <= k < |s| ensures b[k] != 0 { assert s[k] == b[k] && s[k] in s; }
    }
  }

  lemma TailBytes(p: Packet, h: seq<Byte>)
    requires h == Header(p) && |p.chaddr| <= 16
    ensures forall k :: 28 <= k < 104 ==>
      h[k] == if 40 <= k < 40 + |p.sname| then p.sname[k - 40] else if k < 28 + |p.chaddr| then p.chaddr[k - 28] else 0
    ensures forall k :: 104 <= k < 236 ==>
      h[k] == if k < 104 + |p.file| then p.file[k - 104] else if k < 40 + |p.sname| then p.sname[k - 40] else 0
  {
    forall k | 28 <= k < 236
      ensures h[k] == if 104 <= k < 104 + |p.file| then p.file[k - 104]
                      else if 40 <= k < 40 + |p.sname| then p.sname[k - 40]
                      else if k < 28 + |p.chaddr| then p.chaddr[k - 28] else 0
    {
      TailByte(p, k);
    }
  }

  lemma StringsRead(p: Packet, h: seq<Byte>)
    requires |h| == 236 && |p.sname| <= 64 && |p.file| <= 132
    requires forall k :: 28 <= k < 104 ==>
      h[k] == if 40 <= k < 40 + |p.sname| then p.sname[k - 40] else if k < 28 + |p.chaddr| then p.chaddr[k - 28] else 0
    requires forall k :: 104 <= k < 236 ==>
      h[k] == if k < 104 + |p.file| then p.file[k - 104] else if k < 40 + |p.sname| then p.sname[k - 40] else 0
    ensures CString(h[40..104]) == p.sname <==> 0 !in p.sname && (|p.sname| < 64 ==> h[40 + |p.sname|] == 0)
    ensures CString(h[104..236]) == p.file <==> 0 !in p.file
  {
    CStringIs(h[40..104], p.sname);
    CStringIs(h[104..236], p.file);
    forall k | 0 <= k < |p.sname| ensures h[40..104][k] == p.sname[k] { assert h[40..104][k] == h[40 + k]; }
    assert p.sname == h[40..104][..|p.sname|];
    forall k | 0 <= k < |p.file| ensures h[104..236][k] == p.file[k] { assert h[104..236][k] == h[104 + k]; }
    assert p.file == h[104..236][..|p.file|];
  }

  /** The overlapping fields read back exactly when they fit and agree. */
  lemma TailRead(p: Packet, h: seq<Byte>)
    requires h == Header(p) && p.hlen == |p.chaddr| <= 16
    ensures (h[28..28 + p.hlen] == p.chaddr && CString(h[40..104]) == p.sname && CString(h[104..236]) == p.file) <==>
      0 !in p.sname && |p.sname| <= 64 && 0 !in p.file && |p.file| <= 132 && OverlapAgrees(p.chaddr, p.sname)
  {
    TailBytes(p, h);
    if |p.sname| <= 64 && |p.file| <= 132 {
      StringsRead(p, h);
      ChaddrRead(p, h);
    }
  }

  lemma ChaddrRead(p: Packet, h: seq<Byte>)
    requires |h| == 236 && p.hlen == |p.chaddr| <= 16 && |p.sname| <= 64
    requires forall k :: 28 <= k < 104 ==>
      h[k] == if 40 <= k < 40 + |p.sname| then p.sname[k - 40] else if k < 28 + |p.chaddr| then p.chaddr[k - 28] else 0
    ensures (h[28..28 + p.hlen] == p.chaddr && (|p.sname| < 64 ==> h[40 + |p.sname|] == 0)) <==>
      OverlapAgrees(p.chaddr, p.sname)
  {
    var ch := h[28..28 + p.hlen];
    if OverlapAgrees(p.chaddr, p.sname) {
      forall i | 0 <= i < p.hlen ensures ch[i] == p.chaddr[i] {
        if i >= 12 { assert ByteAgrees(p.chaddr, p.sname, i - 12); }
      }
      if |p.sname| < 64 && |p.sname| < |p.chaddr| - 12 { assert ByteAgrees(p.chaddr, p.sname, |p.sname|); }
    }
    if ch == p.chaddr && (|p.sname| < 64 ==> h[40 + |p.sname|] == 0) {
      forall j | 0 <= j < |p.chaddr| - 12
        ensures ByteAgrees(p.chaddr, p.sname, j)
      {
        assert ch[12 + j] == h[40 + j];
      }
    }
  }

  lemma HeaderReads(p: Packet, opts: map<Byte, seq<Byte>>, b: seq<Byte>)
    requires |b| >= 236 && b[..236] == Header(p) && p.hlen == |p.chaddr| <= 16
    ensures b[2] == p.hlen && (ParseHeader(b, opts) == p.(opts := opts) <==> FaithfulHeader(p))
  {
    var h := Header(p);
    FixedPart(p);
    assert b[..28] == h[..28];
    TailRead(p, h);
    FieldsRead(p, opts, b, h);
  }

  lemma FieldsRead(p: Packet, opts: map<Byte, seq<Byte>>, b: seq<Byte>, h: seq<Byte>)
    requires |b| >= 236 && |h| == 236 && b[..236] == h && b[..28] == Fixed(p) && p.hlen == |p.chaddr| <= 16
    requires (h[28..28 + p.hlen] == p.chaddr && CString(h[40..104]) == p.sname && CString(h[104..236]) == p.file) <==>
      0 !in p.sname && |p.sname| <= 64 && 0 !in p.file && |p.file| <= 132 && OverlapAgrees(p.chaddr, p.sname)
    ensures b[2] == p.hlen && (ParseHeader(b, opts) == p.(opts := opts) <==> FaithfulHeader(p))
  {
    WordsRead(p, b);
    IpsRead(p, b);
    assert b[28..28 + p.hlen] == h[28..28 + p.hlen] && b[40..104] == h[40..104] && b[104..236] == h[104..236];
  }

  // ---- round trips ----

  /**
    Marshalling then parsing gives the packet back, for whatever order the unlisted options are
    emitted in, exactly for the faithful packets with enough options.
   */
  lemma RoundTrip(p: Packet, codes: seq<Byte>)
    requires Ordered(p.opts, codes)
    ensures var w := MarshalWith(p, codes);
      (w.Some? && Parse(w.value) == Some(p)) <==> FaithfulHeader(p) && FaithfulOptions(p.opts) && EnoughOptions(p.opts)
  {
    var w := MarshalWith(p, codes);
    EncodeSucceeds(p.opts, codes);
    if w.Some? {
      WireReads(p, codes);
      if FaithfulOptions(p.opts) { EnoughMeans(p.opts, codes); }
    }
  }

  /** What the parser makes of a marshalled packet. */
  lemma WireReads(p: Packet, codes: seq<Byte>)
    requires Ordered(p.opts, codes) && MarshalWith(p, codes).Some?
    ensures var b := MarshalWith(p, codes).value;
      && (Parse(b).Some? <==> |Encode(p.opts, codes).value| >= 3)
      && (Parse(b).Some? ==> (Parse(b).value == p <==>
           FaithfulHeader(p) && forall c :: c in p.opts ==> c != PAD && c != END))
  {
    var b, got := MarshalWith(p, codes).value, Put(map[], p.opts, codes);
    WireParts(p, codes);
    if |b| >= 244 {
      assert Parse(b) == Some(ParseHeader(b, got));
      if |p.chaddr| == p.hlen {
        HeaderReads(p, got, b);
      } else {
        assert |ParseHeader(b, got).chaddr| == p.hlen;
      }
    }
  }

  lemma WireParts(p: Packet, codes: seq<Byte>)
    requires Ordered(p.opts, codes) && MarshalWith(p, codes).Some?
    ensures var b := MarshalWith(p, codes).value; var got := Put(map[], p.opts, codes);
      && |b| == 241 + |Encode(p.opts, codes).value|
      && b[..236] == Header(p) && b[236..240] == COOKIE && b[2] == p.hlen
      && ParseOptions(b, 240, map[]) == Some(got)
      && (got == p.opts <==> forall c :: c in p.opts ==> c != PAD && c != END)
  {
    var b := MarshalWith(p, codes).value;
    WireHeader(Header(p), COOKIE, Encode(p.opts, codes).value, [END]);
    FixedPart(p);
    assert b[2] == Header(p)[2] == Header(p)[..28][2];
    WordsRead(p, Header(p));
    ParseEncoded(Header(p) + COOKIE, p.opts, codes, map[]);
    PutReads(map[], p.opts, codes);
  }

  lemma WireHeader(h: seq<Byte>, cookie: seq<Byte>, body: seq<Byte>, end: seq<Byte>)
    requires |h| == 236 && |cookie| == 4
    ensures var b := h + cookie + body + end; b[..236] == h && b[236..240] == cookie && b[2] == h[2]
  {}

  // ---- parse, print, parse ----

  /** Everything the option loop reads has a code other than pad and end and at most 255 bytes. */
  lemma {:induction false} ParsedOptionsFaithful(b: seq<Byte>, i: nat, opts: map<Byte, seq<Byte>>)
    requires FaithfulOptions(opts)
    ensures ParseOptions(b, i, opts).Some? ==> FaithfulOptions(ParseOptions(b, i, opts).value)
    decreases |b| - i
  {
    if i < |b| && b[i] != END {
      if b[i] == PAD {
        ParsedOptionsFaithful(b, i + 1, opts);
      } else if i + 1 < |b| && i + 2 + b[i + 1] as int <= |b| {
        ParsedOptionsFaithful(b, i + 2 + b[i + 1], opts[b[i] := b[i + 2..i + 2 + b[i + 1]]]);
      }
    }
  }

  /** Whatever the parser accepts is faithful, even where hardware address and server name overlap. */
  lemma ParsedIsFaithful(b: seq<Byte>)
    requires Parse(b).Some?
    ensures FaithfulHeader(Parse(b).value) && FaithfulOptions(Parse(b).value.opts)
  {
    var p := Parse(b).value;
    ParsedOptionsFaithful(b, 240, map[]);
    forall j | 0 <= j < |p.chaddr| - 12
      ensures ByteAgrees(p.chaddr, p.sname, j)
    {
      assert p.chaddr[12 + j] == b[40 + j] == b[40..104][j];
    }
  }

  /**
    Parse, print, parse is stable: re-marshalling an accepted buffer always succeeds, and parses to the
    same packet exactly when its options take three bytes or more.
   */
  lemma ReprintStable(b: seq<Byte>, codes: seq<Byte>)
    requires Parse(b).Some? && Ordered(Parse(b).value.opts, codes)
    ensures var p := Parse(b).value; var w := MarshalWith(p, codes);
      w.Some? && (Parse(w.value) == Some(p) <==> EnoughOptions(p.opts))
  {
    ParsedIsFaithful(b);
    RoundTrip(Parse(b).value, codes);
    EncodeSucceeds(Parse(b).value.opts, codes);
  }
}
