/**
  Where the codec puts each field and option on the wire, and where it reads them
  (router/internal/dhcp4/packet.go:142-222).
 */
module DhcpWire {
  import opened Wrappers
  import opened DhcpPacket
  import opened DhcpRoundTrip

  /** The address at this offset, or zeros for none. */
  predicate AddressAt(w: seq<Byte>, i: nat, ip: IP)
    requires i + 4 <= |w|
  {
    w[i..i + 4] == if ip.NoIP? then [0, 0, 0, 0] else [ip.a, ip.b, ip.c, ip.d]
  }

  /** The 28 bytes of numbers and addresses. */
  lemma NumbersOnWire(p: Packet, codes: seq<Byte>)
    requires Ordered(p.opts, codes) && MarshalWith(p, codes).Some?
    ensures var w := MarshalWith(p, codes).value;
      && |w| >= 241
      && w[0] == p.op && w[1] == p.htype && w[2] == p.hlen && w[3] == p.hops
      && w[4] as int * 16777216 + w[5] as int * 65536 + w[6] as int * 256 + w[7] as int == p.xid
      && w[8] as int * 256 + w[9] as int == p.secs && w[10] as int * 256 + w[11] as int == p.flags
  {
    var w, h := MarshalWith(p, codes).value, Header(p);
    assert w[..236] == h;
    FixedPart(p);
    WordsRead(p, h);
    assert forall i :: 0 <= i < 28 ==> w[i] == h[i];
  }

  lemma AddressesOnWire(p: Packet, codes: seq<Byte>)
    requires Ordered(p.opts, codes) && MarshalWith(p, codes).Some?
    ensures var w := MarshalWith(p, codes).value;
      && |w| >= 241
      && AddressAt(w, 12, p.ciaddr) && AddressAt(w, 16, p.yiaddr)
      && AddressAt(w, 20, p.siaddr) && AddressAt(w, 24, p.giaddr)
  {
    var w := MarshalWith(p, codes).value;
    FixedPart(p);
    assert w[..236] == Header(p) && w[..28] == Header(p)[..28];
    AddressesFixed(p, w);
  }

  lemma AddressesFixed(p: Packet, w: seq<Byte>)
    requires |w| >= 28 && w[..28] == Fixed(p)
    ensures AddressAt(w, 12, p.ciaddr) && AddressAt(w, 16, p.yiaddr)
    ensures AddressAt(w, 20, p.siaddr) && AddressAt(w, 24, p.giaddr)
  {
    var f := w[..28];
    IpBytes(p, f, 0);
    IpBytes(p, f, 1);
    IpBytes(p, f, 2);
    IpBytes(p, f, 3);
    assert forall i :: 0 <= i < 28 ==> w[i] == f[i];
  }

  /** Hardware address, server name and file from 28, 40 and 104 on, the later over the earlier, and zeros between. */
  lemma TextsOnWire(p: Packet, codes: seq<Byte>, k: nat)
    requires Ordered(p.opts, codes) && MarshalWith(p, codes).Some? && 28 <= k < 236
    ensures var w := MarshalWith(p, codes).value;
      && |w| >= 241
      && w[k] == (if k >= 104 && k - 104 < |p.file| then p.file[k - 104]
                  else if k >= 40 && k - 40 < |p.sname| then p.sname[k - 40]
                  else if k - 28 < |p.chaddr| then p.chaddr[k - 28] else 0)
  {
    TailByte(p, k);
    assert MarshalWith(p, codes).value[..236] == Header(p);
    assert MarshalWith(p, codes).value[k] == Header(p)[k];
  }

  /** The cookie after the header, 255 at the end. */
  lemma MarksOnWire(p: Packet, codes: seq<Byte>)
    requires Ordered(p.opts, codes) && MarshalWith(p, codes).Some?
    ensures var w := MarshalWith(p, codes).value;
      && |w| >= 241 && w[236] == 99 && w[237] == 130 && w[238] == 83 && w[239] == 69 && w[|w| - 1] == 255
  {
    Marks(Header(p), COOKIE, Encode(p.opts, codes).value, END);
  }

  lemma Marks(h: seq<Byte>, cookie: seq<Byte>, body: seq<Byte>, end: Byte)
    requires |h| == 236 && |cookie| == 4
    ensures var w := h + cookie + body + [end];
      && |w| >= 241 && w[|w| - 1] == end
      && w[236] == cookie[0] && w[237] == cookie[1] && w[238] == cookie[2] && w[239] == cookie[3]
  {}

  /** Somewhere from this index on the buffer holds the code, the length and the value. */
  predicate HoldsOption(b: seq<Byte>, from: nat, c: Byte, v: seq<Byte>) {
    exists i ::
      from <= i < |b| && i + 2 + |v| <= |b| && b[i] == c && b[i + 1] as int == |v| && b[i + 2..i + 2 + |v|] == v
  }

  lemma HoldsLater(a: seq<Byte>, b: seq<Byte>, from: nat, c: Byte, v: seq<Byte>)
    requires HoldsOption(b, from, c, v)
    ensures HoldsOption(a + b, |a| + from, c, v)
  {
    var i :| from <= i < |b| && i + 2 + |v| <= |b| && b[i] == c && b[i + 1] as int == |v| && b[i + 2..i + 2 + |v|] == v;
    var k := |a| + i;
    assert (a + b)[k] == c && (a + b)[k + 1] as int == |v| && (a + b)[k + 2..k + 2 + |v|] == v;
  }

  lemma HoldsStill(b: seq<Byte>, e: seq<Byte>, from: nat, c: Byte, v: seq<Byte>)
    requires HoldsOption(b, from, c, v)
    ensures HoldsOption(b + e, from, c, v)
  {
    var i :| from <= i < |b| && i + 2 + |v| <= |b| && b[i] == c && b[i + 1] as int == |v| && b[i + 2..i + 2 + |v|] == v;
    assert (b + e)[i] == c && (b + e)[i + 1] as int == |v| && (b + e)[i + 2..i + 2 + |v|] == v;
  }

  lemma HoldsSooner(b: seq<Byte>, from: nat, c: Byte, v: seq<Byte>)
    requires HoldsOption(b, from, c, v)
    ensures HoldsOption(b, 0, c, v)
  {}

  lemma HoldsFirst(c: Byte, v: seq<Byte>, rest: seq<Byte>)
    requires |v| <= 255
    ensures HoldsOption([c, |v|] + v + rest, 0, c, v)
  {
    var b := [c, |v|] + v + rest;
    assert b[0] == c && b[1] as int == |v| && b[2..2 + |v|] == v;
  }

  lemma {:induction false} EncodedHolds(opts: map<Byte, seq<Byte>>, codes: seq<Byte>, c: Byte)
    requires (forall x :: x in codes ==> x in opts) && c in codes && c != 0 && c != 255 && Encode(opts, codes).Some?
    ensures HoldsOption(Encode(opts, codes).value, 0, c, opts[c])
  {
    var first, v := codes[0], opts[codes[0]];
    if first == 0 || first == 255 {
      EncodedHolds(opts, codes[1..], c);
    } else if first == c {
      HoldsFirst(c, v, Encode(opts, codes[1..]).value);
    } else {
      var rest := Encode(opts, codes[1..]).value;
      EncodedHolds(opts, codes[1..], c);
      HoldsLater([first, |v|] + v, rest, 0, c, opts[c]);
      HoldsSooner([first, |v|] + v + rest, |[first, |v|] + v|, c, opts[c]);
    }
  }

  /** Every option but padding and end is on the wire after the cookie. */
  lemma OptionOnWire(p: Packet, codes: seq<Byte>, c: Byte)
    requires Ordered(p.opts, codes) && MarshalWith(p, codes).Some? && c in p.opts && c != 0 && c != 255
    ensures HoldsOption(MarshalWith(p, codes).value, 240, c, p.opts[c])
  {
    var body := Encode(p.opts, codes).value;
    EncodedHolds(p.opts, codes, c);
    HoldsLater(Header(p) + COOKIE, body, 0, c, p.opts[c]);
    HoldsStill(Header(p) + COOKIE + body, [END], 240, c, p.opts[c]);
  }

  /** Message type, requested address, server, client and so on come first, as far as they are there. */
  lemma ListedOrder(opts: map<Byte, seq<Byte>>, codes: seq<Byte>)
    requires Ordered(opts, codes)
    ensures Present(opts, [53, 50, 54, 61, 60, 12, 55, 51, 58, 59, 1, 3, 6, 15, 121]) <= codes
    ensures 53 in opts ==> codes != [] && codes[0] == 53
  {
    assert LISTED[0] == 53 && LISTED == [53] + LISTED[1..];
    assert Present(opts, LISTED) == (if 53 in opts then [53] else []) + Present(opts, LISTED[1..]);
  }

  // ---- reading ----

  /** The fields of an accepted buffer, and the four ways a buffer is refused before its options are read. */
  lemma FieldsRead(b: seq<Byte>)
    ensures |b| < 244 || b[2] > 16 || b[236..240] != [99, 130, 83, 69] ==> Parse(b).None?
    ensures Parse(b).Some? ==>
      var p := Parse(b).value;
      && |b| >= 244
      && p.op == b[0] && p.htype == b[1] && p.hlen == b[2] && p.hops == b[3]
      && p.xid == b[4] as int * 16777216 + b[5] as int * 65536 + b[6] as int * 256 + b[7] as int
      && p.secs == b[8] as int * 256 + b[9] as int && p.flags == b[10] as int * 256 + b[11] as int
      && AddressAt(b, 12, p.ciaddr) && AddressAt(b, 16, p.yiaddr)
      && AddressAt(b, 20, p.siaddr) && AddressAt(b, 24, p.giaddr)
      && |p.chaddr| == b[2] as int && p.chaddr == b[28..28 + |p.chaddr|]
  {}

  /** Names end at the first zero byte, at the latest after 64 and 132 bytes. */
  lemma NamesRead(b: seq<Byte>)
    requires Parse(b).Some?
    ensures var p := Parse(b).value;
      && |b| >= 244 && |p.sname| <= 64 && |p.file| <= 132
      && p.sname == b[40..40 + |p.sname|] && 0 !in p.sname && (|p.sname| < 64 ==> b[40 + |p.sname|] == 0)
      && p.file == b[104..104 + |p.file|] && 0 !in p.file && (|p.file| < 132 ==> b[104 + |p.file|] == 0)
  {
    var s, f := b[40..104], b[104..236];
    assert CString(s) == s[..|CString(s)|] && CString(f) == f[..|CString(f)|];
    if |CString(s)| < 64 { assert s[|CString(s)|] == b[40 + |CString(s)|]; }
    if |CString(f)| < 132 { assert f[|CString(f)|] == b[104 + |CString(f)|]; }
  }

  lemma HoldsAt(b: seq<Byte>, from: nat, i: nat)
    requires from <= i && i + 1 < |b| && i + 2 + b[i + 1] <= |b|
    ensures HoldsOption(b, from, b[i], b[i + 2..i + 2 + b[i + 1]])
  {
    var v := b[i + 2..i + 2 + b[i + 1]];
    assert b[i + 1] as int == |v| && b[i + 2..i + 2 + |v|] == v;
  }

  lemma {:induction false} OptionsHeld(b: seq<Byte>, i: nat, opts: map<Byte, seq<Byte>>, c: Byte)
    requires 240 <= i && ParseOptions(b, i, opts).Some? && c in ParseOptions(b, i, opts).value
    requires c in opts ==> c != 0 && c != 255 && HoldsOption(b, 240, c, opts[c])
    ensures c != 0 && c != 255 && HoldsOption(b, 240, c, ParseOptions(b, i, opts).value[c])
    decreases |b| - i
  {
    if i < |b| && b[i] != END {
      if b[i] == PAD {
        OptionsHeld(b, i + 1, opts, c);
      } else {
        var next := i + 2 + b[i + 1];
        HoldsAt(b, 240, i);
        OptionsHeld(b, next, opts[b[i] := b[i + 2..next]], c);
      }
    }
  }

  /** Every option read is in the buffer after the cookie, under its code and length. */
  lemma OptionRead(b: seq<Byte>, c: Byte)
    requires Parse(b).Some? && c in Parse(b).value.opts
    ensures c != 0 && c != 255 && HoldsOption(b, 240, c, Parse(b).value.opts[c])
  {
    OptionsHeld(b, 240, map[], c);
  }
}
