/**
  Decimal numerals, as the program formats revision numbers, VLAN ids and addresses, and as it reads
  prefix lengths.
 */
module Text {

  function Digit(d: nat): char requires d < 10 { '0' + d as char }

  function Natural(n: nat): (s: string)
    ensures s != "" && forall c :: c in s ==> '0' <= c <= '9'
  {
    if n < 10 then [Digit(n)] else Natural(n / 10) + [Digit(n % 10)]
  }

  function Decimal(n: int): string { if n < 0 then "-" + Natural(-n) else Natural(n) }

  lemma {:induction false} NaturalInjective(m: nat, n: nat)
    requires Natural(m) == Natural(n)
    ensures m == n
  {
    var s, t := Natural(m), Natural(n);
    if m >= 10 { assert s[..|s| - 1] == Natural(m / 10); }
    if n >= 10 { assert t[..|t| - 1] == Natural(n / 10); }
    assert s[|s| - 1] == Digit(m % 10) && t[|t| - 1] == Digit(n % 10);
    if m >= 10 && n >= 10 {
      NaturalInjective(m / 10, n / 10);
    }
  }

  lemma NoSign(n: nat)
    ensures Natural(n)[0] != '-'
  {
    assert Natural(n)[0] in Natural(n);
  }

  /** Different numbers have different numerals. */
  lemma DecimalInjective(m: int, n: int)
    requires Decimal(m) == Decimal(n)
    ensures m == n
  {
    if m < 0 { assert Decimal(m)[1..] == Natural(-m); } else { NoSign(m); }
    if n < 0 { assert Decimal(n)[1..] == Natural(-n); } else { NoSign(n); }
    if m < 0 && n < 0 { NaturalInjective(-m, -n); }
    if m >= 0 && n >= 0 { NaturalInjective(m, n); }
  }

  // ---- reading numerals, as strconv.Atoi does ----

  // The digits read so far.
  datatype Reading = Value(n: nat) | NotANumber | TooBig

  const WORD64 := 0x1_0000_0000_0000_0000
  const HALF64 := 0x8000_0000_0000_0000

  predicate IsDigit(c: char) { '0' <= c <= '9' }

  function Read(s: string): Reading {
    if s == "" then Value(0)
    else
      var c := s[|s| - 1];
      match Read(s[..|s| - 1])
      case Value(n) =>
        if !IsDigit(c) then NotANumber
        else if 10 * n + (c as int - '0' as int) >= WORD64 then TooBig
        else Value(10 * n + (c as int - '0' as int))
      case r => r
  }

  function Clamp(n: int): (r: int)
    ensures -HALF64 <= r < HALF64
  {
    if n < -HALF64 then -HALF64 else if n >= HALF64 then HALF64 - 1 else n
  }

  /** The number a text spells: 0 if it spells none, the nearest that fits 64 bits if it is too big. */
  function Atoi(s: string): (r: int)
    ensures -HALF64 <= r < HALF64
  {
    var signed := s != "" && (s[0] == '-' || s[0] == '+');
    var sign := if signed && s[0] == '-' then -1 else 1;
    var digits := if signed then s[1..] else s;
    if digits == "" then 0
    else
      match Read(digits)
      case Value(n) => Clamp(sign * n)
      case NotANumber => 0
      case TooBig => Clamp(sign * WORD64)
  }

  lemma {:induction false} ReadNatural(n: nat)
    requires n < WORD64
    ensures Read(Natural(n)) == Value(n)
  {
    var s := Natural(n);
    if n < 10 {
      assert s[..|s| - 1] == "";
    } else {
      ReadNatural(n / 10);
      assert s[..|s| - 1] == Natural(n / 10);
    }
  }

  /** A numeral the program writes reads back as its number. */
  lemma AtoiDecimal(n: int)
    requires -HALF64 <= n < HALF64
    ensures Atoi(Decimal(n)) == n
  {
    if n < 0 {
      ReadNatural(-n);
      assert Decimal(n)[1..] == Natural(-n);
    } else {
      ReadNatural(n);
      assert Natural(n)[0] in Natural(n);
    }
  }

  /** Digits without a leading zero are the numeral of what they spell. */
  lemma {:induction false} NaturalRead(s: string)
    requires s != "" && (forall c :: c in s ==> IsDigit(c)) && (|s| == 1 || s[0] != '0') && Read(s).Value?
    ensures Natural(Read(s).n) == s && (s[0] != '0' ==> Read(s).n > 0)
  {
    var init, c := s[..|s| - 1], s[|s| - 1];
    assert s == init + [c];
    if init != "" {
      NaturalRead(init);
    }
  }
}
