/**
  Address prefixes as sets of addresses: containment and overlap, as Go's netip decides them
  (used in router/pkg/models/validate.go:126-139, 320-347 and router/internal/config/config.go:129-169).
 */
module Prefixes {
  import opened Wrappers
  import opened Models
  import opened Text
  import opened AddressText

  function Pow2(n: nat): (p: nat)
    ensures p >= 1
  {
    if n == 0 then 1 else 2 * Pow2(n - 1)
  }

  /** Two addresses agree on all but their last `low` bits. */
  predicate Agree(a: nat, b: nat, low: nat) { a / Pow2(low) == b / Pow2(low) }

  /** The address with its host bits cleared. */
  function Masked(a: nat, low: nat): nat { if a < Pow2(low) then 0 else a - a % Pow2(low) }

  predicate Parsed(p: Cidr) { p.V4? || p.V6? }

  function HostBits(p: Cidr): nat
    requires Parsed(p)
  {
    if p.V4? then 32 - p.bits else 128 - p.bits6
  }

  function Base(p: Cidr): nat
    requires Parsed(p)
  {
    if p.V4? then p.addr else p.addr6
  }

  /** The prefix contains this IPv4 address. */
  predicate Contains(p: Cidr, v: Word32) { p.V4? && Agree(p.addr, v, 32 - p.bits) }

  predicate Contains6(p: Cidr, v: Word128) { p.V6? && Agree(p.addr6, v, 128 - p.bits6) }

  /** Same family, and the two agree on the bits of the shorter prefix. */
  predicate Overlaps(p: Cidr, q: Cidr)
    requires Parsed(p) && Parsed(q)
  {
    p.V4? == q.V4? && Agree(Base(p), Base(q), if HostBits(p) > HostBits(q) then HostBits(p) else HostBits(q))
  }

  /** The text of a prefix. */
  function Show(p: Cidr): string {
    match p
    case NoCidr => ""
    case V4(a, bits) => Dotted(a) + "/" + Decimal(bits)
    case V6(_, bits, ip) => ip + "/" + Decimal(bits)
    case Malformed(text) => text
  }

  function Dotted(v: Word32): string {
    Decimal(v / 0x100_0000) + "." + Decimal(v / 0x1_0000 % 0x100) + "." + Decimal(v / 0x100 % 0x100) + "."
      + Decimal(v % 0x100)
  }

  /** The four bytes of an address, the highest first, with dots between them. */
  lemma DottedIs(a: nat, b: nat, c: nat, d: nat)
    requires a < 256 && b < 256 && c < 256 && d < 256
    ensures var v: Word32 := 16777216 * a + 65536 * b + 256 * c + d;
      Dotted(v) == Decimal(a) + "." + Decimal(b) + "." + Decimal(c) + "." + Decimal(d)
  {
    var v: Word32 := 16777216 * a + 65536 * b + 256 * c + d;
    DottedBytes(v, a, b, c, d);
  }

  lemma DottedBytes(v: Word32, a: nat, b: nat, c: nat, d: nat)
    requires a < 256 && b < 256 && c < 256 && d < 256 && v == 16777216 * a + 65536 * b + 256 * c + d
    ensures v / 16777216 == a && v / 65536 % 256 == b && v / 256 % 256 == c && v % 256 == d
  {
    Quotient(v, 16777216, a, 65536 * b + 256 * c + d);
    Quotient(v, 65536, 256 * a + b, 256 * c + d);
    Quotient(v, 256, 65536 * a + 256 * b + c, d);
  }

  lemma DottedClean(v: Word32)
    ensures Dotted(v) != "" && '/' !in Dotted(v)
  {}

  /** A prefix that parses is an address, a slash and a plain decimal length. */
  lemma ShowPlain(p: Cidr)
    requires Parsed(p)
    ensures Plain(Show(p))
  {
    match p
    case V4(a, bits) =>
      DottedClean(a);
      assert Show(p) == WithLength(Dotted(a), bits);
    case V6(_, bits, ip) => assert Show(p) == WithLength(ip, bits);
  }

  // ---- division by powers of two ----

  lemma Distribute(a: int, x: int, y: int)
    ensures a * (x + y) == a * x + a * y
  {}

  lemma Associate(a: int, b: int, c: int)
    ensures a * (b * c) == (a * b) * c
  {}

  lemma Remainders(b: int, c: int, q2: int, r2: int, r: int)
    requires 0 <= r < b && 0 <= r2 < c
    ensures b * (c * q2 + r2) + r == (b * c) * q2 + (b * r2 + r)
    ensures 0 <= b * r2 + r < b * c
  {
    Distribute(b, c * q2, r2);
    Associate(b, c, q2);
    MultipleAtLeast(b, c - r2);
    MultipleAtLeast(b, r2);
    Distribute(b, c - r2, r2);
  }

  lemma QuotientOfQuotient(a: nat, b: nat, c: nat, q: nat, r: nat, q2: nat, r2: nat)
    requires a == b * q + r && q == c * q2 + r2 && r < b && r2 < c
    ensures b * c > 0 && a / (b * c) == q2
  {
    MultipleAtLeast(b, c);
    Remainders(b, c, q2, r2, r);
    Quotient(a, b * c, q2, b * r2 + r);
  }

  lemma DivDiv(a: nat, b: nat, c: nat)
    requires b > 0 && c > 0
    ensures b * c > 0 && a / (b * c) == a / b / c
  {
    var q, r := a / b, a % b;
    var q2, r2 := q / c, q % c;
    QuotientOfQuotient(a, b, c, q, r, q2, r2);
  }

  lemma Quotient(a: nat, d: nat, q: nat, r: nat)
    requires d > 0 && a == d * q + r && r < d
    ensures a / d == q
  {
    var k, m := a / d, a % d;
    assert a == d * k + m;
    MultipleAtLeast(d, k - q);
    assert d * (k - q) == d * k - d * q;
  }

  lemma MultipleAtLeast(d: int, x: int)
    requires d > 0
    ensures x >= 1 ==> d * x >= d
    ensures x <= -1 ==> d * x <= -d
    ensures x >= 0 ==> d * x >= 0
  {
    if x >= 1 { assert d * x == d + d * (x - 1); }
    if x <= -1 { assert d * x == -d + d * (x + 1); }
  }

  lemma {:induction false} Pow2Add(m: nat, n: nat)
    ensures Pow2(m + n) == Pow2(m) * Pow2(n)
  {
    if m > 0 { Pow2Add(m - 1, n); }
  }

  /** Addresses that agree on more bits agree on fewer. */
  lemma AgreeCoarser(a: nat, b: nat, low: nat, high: nat)
    requires low <= high && Agree(a, b, low)
    ensures Agree(a, b, high)
  {
    Pow2Add(low, high - low);
    DivDiv(a, Pow2(low), Pow2(high - low));
    DivDiv(b, Pow2(low), Pow2(high - low));
  }

  // ---- overlap ----

  lemma MeetAgree(a: nat, b: nat, v: nat, s: nat, t: nat)
    requires Agree(a, v, s) && Agree(b, v, t)
    ensures Agree(a, b, if s > t then s else t)
  {
    var u := if s > t then s else t;
    AgreeCoarser(a, v, s, u);
    AgreeCoarser(b, v, t, u);
  }

  /** The overlap test is exact for IPv4: two prefixes overlap when some address is in both. */
  lemma OverlapIsIntersection(p: Cidr, q: Cidr)
    requires p.V4? && q.V4?
    ensures Overlaps(p, q) <==> exists v: Word32 :: Contains(p, v) && Contains(q, v)
  {
    var s, t := HostBits(p), HostBits(q);
    if Overlaps(p, q) {
      var v := if s > t then q.addr else p.addr;
      assert Contains(p, v) && Contains(q, v);
    }
    if v: Word32 :| Contains(p, v) && Contains(q, v) { MeetAgree(p.addr, q.addr, v, s, t); }
  }

  lemma OverlapIsIntersection6(p: Cidr, q: Cidr)
    requires p.V6? && q.V6?
    ensures Overlaps(p, q) <==> exists v: Word128 :: Contains6(p, v) && Contains6(q, v)
  {
    var s, t := HostBits(p), HostBits(q);
    if Overlaps(p, q) {
      var v := if s > t then q.addr6 else p.addr6;
      assert Contains6(p, v) && Contains6(q, v);
    }
    if v: Word128 :| Contains6(p, v) && Contains6(q, v) { MeetAgree(p.addr6, q.addr6, v, s, t); }
  }

  // ---- the addresses of a prefix ----

  lemma MaskedIs(a: nat, low: nat)
    ensures Masked(a, low) == Pow2(low) * (a / Pow2(low)) && Masked(a, low) <= a < Masked(a, low) + Pow2(low)
  {
    var d := Pow2(low);
    assert a == d * (a / d) + a % d;
    if a < d { Quotient(a, d, 0, a); }
  }

  /** A prefix is the block of addresses from its masked address to its broadcast address. */
  lemma BlockOf(a: nat, v: nat, low: nat)
    ensures Agree(a, v, low) <==> Masked(a, low) <= v < Masked(a, low) + Pow2(low)
  {
    MaskedIs(a, low);
    MaskedIs(v, low);
    if Masked(a, low) <= v < Masked(a, low) + Pow2(low) {
      Quotient(v, Pow2(low), a / Pow2(low), v - Masked(a, low));
    }
  }
}
