/**
  A leased address as text (router/internal/dhcp4/manager.go:31): the length if the mask is one,
  else the mask in hexadecimal, as Go's net.IPNet prints it. The engine wants it on the uplink.
 */
module LeaseText {
  import opened Sequences
  import opened Text
  import opened AddressText
  import opened DhcpPacket
  import opened DhcpLease
  import Models
  import Prefixes

  // ---- the mask ----

  /** The leading ones of a byte whose other bits are zero, or nothing. */
  function OnesOf(b: Byte): int {
    match b
    case 0 => 0 case 128 => 1 case 192 => 2 case 224 => 3 case 240 => 4
    case 248 => 5 case 252 => 6 case 254 => 7
    case _ => -1
  }

  /** The length of a mask of ones followed by zeros, or -1. */
  function Ones(mask: seq<Byte>): (n: int)
    ensures -1 <= n <= 8 * |mask|
  {
    if mask == [] then 0
    else if mask[0] == 255 then (if Ones(mask[1..]) == -1 then -1 else 8 + Ones(mask[1..]))
    else if OnesOf(mask[0]) == -1 || exists i :: 1 <= i < |mask| && mask[i] != 0 then -1
    else OnesOf(mask[0])
  }

  function HexDigit(n: nat): char
    requires n < 16
  {
    if n < 10 then '0' + n as char else 'a' + (n - 10) as char
  }

  function Hex(mask: seq<Byte>): (s: string)
    ensures |s| == 2 * |mask|
    ensures forall i :: 0 <= i < |mask| ==> s[2 * i] == HexDigit(mask[i] / 16) && s[2 * i + 1] == HexDigit(mask[i] % 16)
  {
    if mask == [] then "" else Hex(Init(mask)) + [HexDigit(Last(mask) / 16), HexDigit(Last(mask) % 16)]
  }

  function Show(l: Lease): string
    requires l.addr.IPv4?
  {
    Dots(l.addr) + "/" + if Ones(l.mask) >= 0 then Decimal(Ones(l.mask)) else Hex(l.mask)
  }

  function Dots(a: IP): string
    requires a.IPv4?
  {
    Decimal(a.a) + "." + Decimal(a.b) + "." + Decimal(a.c) + "." + Decimal(a.d)
  }

  // ---- when the kernel shows it as it was given ----

  /** The mask's hexadecimal digits happen to be a decimal numeral. */
  predicate Numeral(mask: seq<Byte>) {
    mask != [] && mask[0] / 16 != 0 && forall i :: 0 <= i < |mask| ==> mask[i] / 16 < 10 && mask[i] % 16 < 10
  }

  lemma DotsClean(a: IP)
    requires a.IPv4?
    ensures Dots(a) != "" && '/' !in Dots(a)
  {}

  lemma {:induction false} LeadingZero(n: nat)
    ensures Natural(n)[0] == '0' ==> n == 0
  {
    if n >= 10 { LeadingZero(n / 10); }
  }

  lemma HexDigits(mask: seq<Byte>)
    requires mask != []
    ensures (forall c :: c in Hex(mask) ==> IsDigit(c)) && Hex(mask)[0] != '0' <==> Numeral(mask)
    ensures Hex(mask)[0] != '-'
  {
    var s := Hex(mask);
    assert s[2 * 0] == HexDigit(mask[0] / 16);
    if forall c :: c in s ==> IsDigit(c) {
      forall i | 0 <= i < |mask| ensures mask[i] / 16 < 10 && mask[i] % 16 < 10 {
        assert s[2 * i] in s && s[2 * i + 1] in s;
      }
    }
    if Numeral(mask) {
      forall k | 0 <= k < |s| ensures IsDigit(s[k]) {
        assert s[2 * (k / 2)] == HexDigit(mask[k / 2] / 16) && s[2 * (k / 2) + 1] == HexDigit(mask[k / 2] % 16);
      }
    }
  }

  function Pow10(n: nat): (p: nat)
    ensures p >= 1
  {
    if n == 0 then 1 else 10 * Pow10(n - 1)
  }

  lemma {:induction false} ReadDigits(s: string)
    requires (forall c :: c in s ==> IsDigit(c)) && Pow10(|s|) <= HALF64
    ensures Read(s).Value? && Read(s).n < Pow10(|s|)
  {
    if s != "" {
      forall c | c in Init(s) ensures IsDigit(c) { assert c in s; }
      ReadDigits(Init(s));
      assert Last(s) in s;
    }
  }

  /** Digits read back as they are exactly if no zero leads. */
  lemma DigitsReadBack(s: string)
    requires |s| == 8 && s[0] != '-'
    ensures Decimal(Atoi(s)) == s <==> (forall c :: c in s ==> IsDigit(c)) && s[0] != '0'
  {
    if Decimal(Atoi(s)) == s {
      assert Atoi(s) >= 0;
      LeadingZero(Atoi(s));
      assert Natural(0) == "0";
    }
    if (forall c :: c in s ==> IsDigit(c)) && s[0] != '0' {
      assert Pow10(8) == 100_000_000;
      assert s[0] in s;
      ReadDigits(s);
      NaturalRead(s);
    }
  }

  /**
    A lease's address is an address, a slash and a plain length exactly if its mask is a prefix
    length, or its hexadecimal digits happen to be a decimal numeral.
   */
  lemma LeasePlain(l: Lease)
    requires l.addr.IPv4? && |l.mask| == 4
    ensures Plain(Show(l)) <==> Ones(l.mask) >= 0 || Numeral(l.mask)
  {
    DotsClean(l.addr);
    if Ones(l.mask) >= 0 {
      PlainLength(Dots(l.addr), Decimal(Ones(l.mask)));
      AtoiDecimal(Ones(l.mask));
    } else {
      PlainLength(Dots(l.addr), Hex(l.mask));
      HexDigits(l.mask);
      DigitsReadBack(Hex(l.mask));
    }
  }

  lemma DefaultMask()
    ensures Ones([255, 255, 255, 0]) == 24
  {
    var m: seq<Byte> := [255, 255, 255, 0];
    assert m[1..] == [255, 255, 0] && m[1..][1..] == [255, 0] && m[1..][1..][1..] == [0];
  }

  /** The mask an ACK grants, and that of an ACK without one. */
  lemma GrantedPlain(p: Packet, xid: Word32, fallback: Word32, now: int)
    requires Grants(p, xid)
    ensures var l := LeaseFrom(p, fallback, now);
      && l.addr.IPv4? && |l.mask| == 4
      && (Plain(Show(l)) <==> Ones(l.mask) >= 0 || Numeral(l.mask))
      && (OptIp(p, SUBNET).NoIP? ==> Plain(Show(l)))
  {
    var l := LeaseFrom(p, fallback, now);
    assert l.addr.IPv4? && |l.mask| == 4;
    LeasePlain(l);
    DefaultMask();
  }

  /** A mask of 255.0.255.0 is written ff00ff00, which the kernel takes for length 0. */
  lemma OddMask(l: Lease)
    requires l.addr.IPv4? && l.mask == [255, 0, 255, 0]
    ensures !Plain(Show(l))
  {
    LeasePlain(l);
    assert l.mask[1..] == [0, 255, 0] && l.mask[1..][1] != 0 && l.mask[0] / 16 == 15;
  }

  // ---- the text, and the bits of the mask ----

  /** A lease whose mask is a prefix length is written as that prefix of that address. */
  lemma ShowIsPrefix(l: Lease)
    requires l.addr.IPv4? && 0 <= Ones(l.mask) <= 32
    ensures var v: Models.Word32 := 16777216 * l.addr.a + 65536 * l.addr.b + 256 * l.addr.c + l.addr.d;
      Show(l) == Prefixes.Show(Models.V4(v, Ones(l.mask)))
  {
    Prefixes.DottedIs(l.addr.a, l.addr.b, l.addr.c, l.addr.d);
  }

  /** The value of a byte whose first bits, so many of them, are ones. */
  function Leading(n: int): int {
    if n <= 0 then 0 else if n >= 8 then 255 else 256 - Prefixes.Pow2(8 - n)
  }

  lemma LeadingBytes()
    ensures Leading(1) == 128 && Leading(2) == 192 && Leading(3) == 224 && Leading(4) == 240
    ensures Leading(5) == 248 && Leading(6) == 252 && Leading(7) == 254
  {
    assert Prefixes.Pow2(3) == 8 && Prefixes.Pow2(7) == 128;
  }

  /** The mask's length is n exactly if its first n bits, and no others, are ones. */
  lemma {:induction false} OnesAre(mask: seq<Byte>, n: nat)
    requires n <= 8 * |mask|
    ensures Ones(mask) == n <==> forall i :: 0 <= i < |mask| ==> mask[i] as int == Leading(n - 8 * i)
  {
    if mask != [] {
      LeadingBytes();
      if n >= 8 {
        OnesAre(mask[1..], n - 8);
        assert forall i :: 0 < i < |mask| ==> mask[i] == mask[1..][i - 1];
        assert Leading(n) == 255;
      }
    }
  }
}
