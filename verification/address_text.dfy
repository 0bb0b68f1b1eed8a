/**
  Interface addresses as the kernel takes and shows them: it wants a slash
  (router/internal/platform/fake.go:350-378), and shows what comes before the first one and the
  number after it (fake.go:327-346), which the parser joins again (router/internal/state/state.go:217-237).
 */
module AddressText {
  import opened Wrappers
  import opened Sequences
  import opened Text

  /** What comes before the first slash, and what comes after it. */
  function Cut(s: string): (string, string) {
    if s == "" then ("", "")
    else if s[0] == '/' then ("", s[1..])
    else ([s[0]] + Cut(s[1..]).0, Cut(s[1..]).1)
  }

  function WithLength(ip: string, length: int): string { ip + "/" + Decimal(length) }

  /** How an address reads back; one without anything before the slash does not show. */
  function ReadBack(a: string): Option<string> {
    var (ip, length) := Cut(a);
    if ip == "" then None else Some(WithLength(ip, Atoi(length)))
  }

  /** How the addresses of a link read back. */
  function Reports(addrs: seq<string>): seq<string> {
    if addrs == [] then []
    else Reports(Init(addrs)) + if ReadBack(Last(addrs)).Some? then [ReadBack(Last(addrs)).value] else []
  }

  /** An address, a slash and a plain decimal length. */
  ghost predicate Plain(a: string) {
    exists ip, n :: ip != "" && '/' !in ip && -HALF64 <= n < HALF64 && a == WithLength(ip, n)
  }

  lemma {:induction false} CutJoined(ip: string, t: string)
    requires '/' !in ip
    ensures Cut(ip + "/" + t) == (ip, t)
  {
    var s := ip + "/" + t;
    if ip == "" {
      assert s[1..] == t;
    } else {
      assert s[0] == ip[0] && s[1..] == ip[1..] + "/" + t && ip == [ip[0]] + ip[1..];
      CutJoined(ip[1..], t);
    }
  }

  lemma {:induction false} CutClean(s: string)
    ensures '/' !in Cut(s).0
  {
    if s != "" { CutClean(s[1..]); }
  }

  /** What is shown is plain. */
  lemma ReadBackPlain(a: string)
    ensures ReadBack(a).Some? ==> Plain(ReadBack(a).value)
  {
    CutClean(a);
  }

  /** Exactly the plain addresses read back as they were written. */
  lemma PlainReadsBack(a: string)
    ensures Plain(a) <==> ReadBack(a) == Some(a)
    ensures Plain(a) ==> '/' in a
  {
    if Plain(a) {
      var ip, n :| ip != "" && '/' !in ip && -HALF64 <= n < HALF64 && a == WithLength(ip, n);
      CutJoined(ip, Decimal(n));
      AtoiDecimal(n);
      assert a[|ip|] == '/';
    }
    ReadBackPlain(a);
  }

  lemma PlainLength(ip: string, t: string)
    requires ip != "" && '/' !in ip
    ensures Plain(ip + "/" + t) <==> Decimal(Atoi(t)) == t
  {
    var a, b := ip + "/" + t, WithLength(ip, Atoi(t));
    CutJoined(ip, t);
    PlainReadsBack(a);
    assert a[|ip| + 1..] == t && b[|ip| + 1..] == Decimal(Atoi(t));
  }

  lemma {:induction false} ReportsHas(addrs: seq<string>, x: string)
    ensures x in Reports(addrs) <==> exists a :: a in addrs && ReadBack(a) == Some(x)
  {
    if addrs != [] {
      assert addrs == Init(addrs) + [Last(addrs)];
      ReportsHas(Init(addrs), x);
    }
  }

  lemma ReportedIsPlain(addrs: seq<string>, x: string)
    requires x in Reports(addrs)
    ensures Plain(x) && '/' in x
  {
    ReportsHas(addrs, x);
    var a :| a in addrs && ReadBack(a) == Some(x);
    ReadBackPlain(a);
    PlainReadsBack(x);
  }

  method ReadAddrs(addrs: seq<string>) returns (out: seq<string>)
    ensures out == Reports(addrs)
  {
    out := [];
    for i := 0 to |addrs|
      invariant out == Reports(addrs[..i])
    {
      Grow(addrs, i);
      var (ip, length) := Cut(addrs[i]);
      if ip != "" { out := out + [WithLength(ip, Atoi(length))]; }
    }
    assert addrs[..|addrs|] == addrs;
  }
}
