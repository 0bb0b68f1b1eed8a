/**
  The DHCPv4 client's lease maintenance (router/internal/dhcp4/client.go:31-239, packet.go:225-252).
  Times are milliseconds of an ideal clock; what the network delivers, and when, is an input.
 */
module DhcpLease {
  import opened Wrappers
  import opened DhcpPacket

  const REQ_TO := 4000
  const DISCOVER_TO := 4000
  const MAX_BACKOFF := 64000

  const OFFER: Byte := 2
  const ACK: Byte := 5
  const NAK: Byte := 6

  datatype Lease = Lease(addr: IP, mask: seq<Byte>, gateway: IP, dns: seq<IP>, serverID: IP,
                         acquired: int, expire: int, t1: int, t2: int)

  // A packet that parses, or a receive error, and when the socket delivers it.
  datatype Arrival = Reply(at: int, packet: Packet) | Broken(at: int)

  // ---- reading an ACK ----

  function Type(p: Packet): Byte {
    if MSG_TYPE in p.opts && |p.opts[MSG_TYPE]| == 1 then p.opts[MSG_TYPE][0] else 0
  }

  function OptIp(p: Packet, code: Byte): IP {
    if code in p.opts && |p.opts[code]| == 4 then
      var v := p.opts[code]; IPv4(v[0], v[1], v[2], v[3])
    else NoIP
  }

  function IpList(v: seq<Byte>): seq<IP> {
    if |v| < 4 then [] else [IPv4(v[0], v[1], v[2], v[3])] + IpList(v[4..])
  }

  function OptWord(p: Packet, code: Byte, fallback: Word32): Word32 {
    if code in p.opts && |p.opts[code]| == 4 then Read32(p.opts[code], 0) else fallback
  }

  function OptBytes(p: Packet, code: Byte): seq<Byte> { if code in p.opts then p.opts[code] else [] }

  function DefaultT1(leaseSec: Word32): Word32 { leaseSec / 2 }

  /** Seven eighths of the lease, in 32-bit arithmetic. */
  function DefaultT2(leaseSec: Word32): Word32 { leaseSec * 7 % 0x1_0000_0000 / 8 }

  /** The default rebinding time never exceeds the lease, even where the multiplication wraps. */
  lemma DefaultT2WithinLease(leaseSec: Word32)
    ensures DefaultT2(leaseSec) <= leaseSec
  {
    assert leaseSec * 7 % 0x1_0000_0000 <= leaseSec * 7;
  }

  /** The default renewal comes before the default rebinding exactly when nothing wraps. */
  lemma DefaultTimersOrdered(leaseSec: Word32)
    ensures DefaultT1(leaseSec) <= DefaultT2(leaseSec) <==> 7 * leaseSec < 0x1_0000_0000
  {
    var k := leaseSec * 7 / 0x1_0000_0000;
    assert leaseSec * 7 % 0x1_0000_0000 == leaseSec * 7 - k * 0x1_0000_0000;
    assert 0 <= k <= 6;
  }

  function LeaseFrom(p: Packet, fallback: Word32, now: int): Lease {
    var sid := OptIp(p, SERVER_ID);
    var m := OptIp(p, SUBNET);
    var routers := IpList(OptBytes(p, ROUTER));
    var leaseSec := OptWord(p, DhcpPacket.LEASE, fallback);
    var t1 := OptWord(p, RENEW_T1, DefaultT1(leaseSec));
    var t2 := OptWord(p, REBIND_T2, DefaultT2(leaseSec));
    Lease(p.yiaddr, if m.NoIP? then [255, 255, 255, 0] else Ip4(m), if routers == [] then NoIP else routers[0],
          IpList(OptBytes(p, DNS)), if sid.NoIP? then p.siaddr else sid,
          now, now + leaseSec * 1000, t1 * 1000, t2 * 1000)
  }

  // ---- waiting for replies ----

  datatype Answer = Acked(packet: Packet) | Refused | Silent

  datatype Waited = Waited(answer: Answer, now: int, inbox: seq<Arrival>)

  function Later(a: int, b: int): int { if a < b then b else a }

  /** An ACK or NAK of this transaction within the deadline; other packets are skipped. */
  function Await(now: int, inbox: seq<Arrival>, deadline: int, xid: Word32): Waited
    decreases |inbox|
  {
    if now >= deadline then Waited(Silent, now, inbox)
    else if inbox == [] || inbox[0].at >= deadline then Waited(Silent, deadline, inbox)
    else
      var t, rest := Later(now, inbox[0].at), inbox[1..];
      if inbox[0].Broken? then Waited(Silent, t, rest)
      else
        var p := inbox[0].packet;
        if p.xid == xid && Type(p) == ACK && p.yiaddr != NoIP then Waited(Acked(p), t, rest)
        else if p.xid == xid && Type(p) == NAK then Waited(Refused, t, rest)
        else Await(t, rest, deadline, xid)
  }

  datatype Renewal = Renewal(ack: Option<Packet>, now: int, inbox: seq<Arrival>)

  /** Up to `attempts` requests of one renewal; a NAK or a transport that is down ends it. */
  function Attempts(now: int, inbox: seq<Arrival>, xid: Word32, up: int -> bool, attempts: nat): Renewal
    decreases attempts
  {
    if attempts == 0 || !up(now) then Renewal(None, now, inbox)
    else
      var w := Await(now, inbox, now + REQ_TO, xid);
      match w.answer
      case Acked(p) => Renewal(Some(p), w.now, w.inbox)
      case Refused => Renewal(None, w.now, w.inbox)
      case Silent => Attempts(w.now, w.inbox, xid, up, attempts - 1)
  }

  /** What was delivered while no socket was open is lost. */
  function Fresh(inbox: seq<Arrival>, now: int): seq<Arrival> {
    if inbox != [] && inbox[0].at < now then Fresh(inbox[1..], now) else inbox
  }

  function Renew(now: int, inbox: seq<Arrival>, xid: Word32, up: int -> bool): Renewal {
    if !up(now) then Renewal(None, now, inbox) else Attempts(now, Fresh(inbox, now), xid, up, 3)
  }

  // ---- one round of the bound phase ----

  datatype Round = Renewed(lease: Lease, inbox: seq<Arrival>) | GaveUp(now: int)

  function Wake(l: Lease, now: int): int {
    var t2 := if l.acquired + l.t2 > l.expire then l.expire else l.acquired + l.t2;
    var t1 := if l.acquired + l.t1 > t2 then t2 else l.acquired + l.t1;
    if t1 - now <= 0 then now + 1 else t1
  }

  datatype Try = Try(lease: Option<Lease>, now: int, inbox: seq<Arrival>)

  function TryRenew(now: int, inbox: seq<Arrival>, xid: Word32, up: int -> bool, fallback: Word32): Try {
    var r := Renew(now, inbox, xid, up);
    Try(if r.ack.Some? then Some(LeaseFrom(r.ack.value, fallback, r.now)) else None, r.now, r.inbox)
  }

  /** Before T2: renew, and failing that wait for T2. */
  function FirstTry(l: Lease, now: int, inbox: seq<Arrival>, xid: Word32, up: int -> bool, fallback: Word32): Try {
    if now >= l.acquired + l.t2 then Try(None, now, inbox)
    else
      var t := TryRenew(now, inbox, xid, up, fallback);
      if t.lease.Some? then t else t.(now := Later(t.now, l.acquired + l.t2))
  }

  /** Rebind, unless the lease has expired. */
  function SecondTry(l: Lease, now: int, inbox: seq<Arrival>, xid: Word32, up: int -> bool, fallback: Word32): Try {
    if now >= l.expire then Try(None, now, inbox) else TryRenew(now, inbox, xid, up, fallback)
  }

  /** Sleep until T1, renew; failing that sleep until T2 and rebind; failing that give up. */
  function OneRound(l: Lease, now: int, inbox: seq<Arrival>, xid: Word32, up: int -> bool, fallback: Word32): Round {
    var wake := Wake(l, now);
    if wake >= l.expire then GaveUp(wake)
    else
      var first := FirstTry(l, wake, inbox, xid, up, fallback);
      if first.lease.Some? then Renewed(first.lease.value, first.inbox)
      else
        var second := SecondTry(l, first.now, first.inbox, xid, up, fallback);
        if second.lease.Some? then Renewed(second.lease.value, second.inbox) else GaveUp(second.now)
  }

  // ---- time and progress ----

  /** The message type option holds just this type. */
  predicate Says(p: Packet, kind: Byte) { 53 in p.opts && p.opts[53] == [kind] }

  /** An ACK of this transaction that carries an address. */
  ghost predicate Grants(p: Packet, xid: Word32) { p.xid == xid && Says(p, 5) && p.yiaddr != NoIP }

  /** The packet is among the arrivals, by that time. */
  ghost predicate Delivered(p: Packet, inbox: seq<Arrival>, until: int) {
    exists i :: 0 <= i < |inbox| && inbox[i] == Reply(inbox[i].at, p) && inbox[i].at <= until
  }

  /** What is left of the arrivals when some of the first have been taken. */
  predicate Suffix(rest: seq<Arrival>, all: seq<Arrival>) { |rest| <= |all| && rest == all[|all| - |rest|..] }

  lemma SuffixTransitive(a: seq<Arrival>, b: seq<Arrival>, c: seq<Arrival>)
    requires Suffix(a, b) && Suffix(b, c)
    ensures Suffix(a, c)
  {}

  lemma DeliveredEarlier(p: Packet, rest: seq<Arrival>, all: seq<Arrival>, until: int, later: int)
    requires Delivered(p, rest, until) && Suffix(rest, all) && until <= later
    ensures Delivered(p, all, later)
  {
    var i :| 0 <= i < |rest| && rest[i] == Reply(rest[i].at, p) && rest[i].at <= until;
    assert all[|all| - |rest| + i] == rest[i];
  }

  /** What ends a wait: a receive error, an ACK of the transaction with an address, or its NAK. */
  predicate Ends(a: Arrival, xid: Word32) {
    a.Broken? || (a.packet.xid == xid && ((Says(a.packet, 5) && a.packet.yiaddr != NoIP) || Says(a.packet, 6)))
  }

  /** An arrival in time that ends the wait decides it; any other is skipped. */
  lemma AwaitFirst(now: int, inbox: seq<Arrival>, deadline: int, xid: Word32)
    requires now < deadline && inbox != [] && inbox[0].at < deadline
    ensures Await(now, inbox, deadline, xid) ==
      if !Ends(inbox[0], xid) then Await(Later(now, inbox[0].at), inbox[1..], deadline, xid)
      else
        Waited(if inbox[0].Broken? then Silent
               else if Says(inbox[0].packet, 5) then Acked(inbox[0].packet) else Refused,
               Later(now, inbox[0].at), inbox[1..])
  {}

  lemma DeliveredFirst(p: Packet, inbox: seq<Arrival>, until: int)
    requires inbox != [] && inbox[0] == Reply(inbox[0].at, p) && inbox[0].at <= until
    ensures Delivered(p, inbox, until)
  {}

  /** Waiting takes arrivals from the front, in bounded time, and answers with one of them. */
  lemma {:induction false} AwaitTime(now: int, inbox: seq<Arrival>, deadline: int, xid: Word32)
    ensures var w := Await(now, inbox, deadline, xid);
      && now <= w.now <= Later(now, deadline) && Suffix(w.inbox, inbox)
      && (w.answer.Acked? ==>
            |w.inbox| < |inbox| && Grants(w.answer.packet, xid) && Delivered(w.answer.packet, inbox, w.now))
    decreases |inbox|
  {
    if now < deadline && inbox != [] && inbox[0].at < deadline {
      AwaitFirst(now, inbox, deadline, xid);
      if Ends(inbox[0], xid) {
        if inbox[0].Reply? { DeliveredFirst(inbox[0].packet, inbox, Later(now, inbox[0].at)); }
      } else {
        var t, rest := Later(now, inbox[0].at), inbox[1..];
        AwaitTime(t, rest, deadline, xid);
        var w := Await(t, rest, deadline, xid);
        SuffixTransitive(w.inbox, rest, inbox);
        if w.answer.Acked? { DeliveredEarlier(w.answer.packet, rest, inbox, w.now, w.now); }
      }
    }
  }

  /** The i-th arrival is the first to end the wait in time. */
  ghost predicate EndsAt(inbox: seq<Arrival>, deadline: int, xid: Word32, i: nat) {
    && i < |inbox| && Ends(inbox[i], xid)
    && (forall j :: 0 <= j <= i ==> inbox[j].at < deadline)
    && (forall j :: 0 <= j < i ==> !Ends(inbox[j], xid))
  }

  /** The first arrival that ends the wait decides its answer; without one it lasts to the deadline. */
  lemma {:induction false} AwaitIs(now: int, inbox: seq<Arrival>, deadline: int, xid: Word32, i: nat)
    requires now < deadline
    ensures var w := Await(now, inbox, deadline, xid);
      EndsAt(inbox, deadline, xid, i) ==>
        && w.inbox == inbox[i + 1..]
        && w.answer ==
          if inbox[i].Broken? then Silent
          else if Says(inbox[i].packet, 5) then Acked(inbox[i].packet) else Refused
    ensures (forall k :: !EndsAt(inbox, deadline, xid, k)) ==> Await(now, inbox, deadline, xid).answer == Silent
    ensures (forall k :: !EndsAt(inbox, deadline, xid, k)) ==> Await(now, inbox, deadline, xid).now == deadline
    decreases |inbox|
  {
    if inbox != [] && inbox[0].at < deadline {
      var t, rest := Later(now, inbox[0].at), inbox[1..];
      AwaitFirst(now, inbox, deadline, xid);
      if Ends(inbox[0], xid) {
        assert EndsAt(inbox, deadline, xid, 0);
      } else {
        AwaitIs(t, rest, deadline, xid, if i == 0 then 0 else i - 1);
        if i > 0 && EndsAt(inbox, deadline, xid, i) { EndsLater(inbox, deadline, xid, i - 1); }
        if k :| EndsAt(rest, deadline, xid, k) { EndsLater(inbox, deadline, xid, k); }
      }
    }
  }

  lemma EndsLater(inbox: seq<Arrival>, deadline: int, xid: Word32, i: nat)
    requires inbox != [] && inbox[0].at < deadline && !Ends(inbox[0], xid)
    ensures EndsAt(inbox, deadline, xid, i + 1) <==> EndsAt(inbox[1..], deadline, xid, i)
  {
    if EndsAt(inbox[1..], deadline, xid, i) {
      forall j | 0 <= j <= i + 1 ensures inbox[j].at < deadline { if j > 0 { assert inbox[j] == inbox[1..][j - 1]; } }
      forall j | 0 <= j < i + 1 ensures !Ends(inbox[j], xid) { if j > 0 { assert inbox[j] == inbox[1..][j - 1]; } }
    }
    if EndsAt(inbox, deadline, xid, i + 1) {
      forall j | 0 <= j <= i ensures inbox[1..][j].at < deadline { assert inbox[j + 1] == inbox[1..][j]; }
      forall j | 0 <= j < i ensures !Ends(inbox[1..][j], xid) { assert inbox[j + 1] == inbox[1..][j]; }
    }
  }

  /** A renewal is answered by an ACK of this transaction with an address, delivered by then. */
  ghost predicate Answered(r: Renewal, inbox: seq<Arrival>, xid: Word32) {
    && Suffix(r.inbox, inbox)
    && (r.ack.Some? ==> |r.inbox| < |inbox| && Grants(r.ack.value, xid) && Delivered(r.ack.value, inbox, r.now))
  }

  lemma AnsweredEarlier(r: Renewal, rest: seq<Arrival>, all: seq<Arrival>, xid: Word32)
    requires Answered(r, rest, xid) && Suffix(rest, all)
    ensures Answered(r, all, xid)
  {
    SuffixTransitive(r.inbox, rest, all);
    if r.ack.Some? { DeliveredEarlier(r.ack.value, rest, all, r.now, r.now); }
  }

  lemma {:induction false} AttemptsTime(now: int, inbox: seq<Arrival>, xid: Word32, up: int -> bool, attempts: nat)
    ensures var r := Attempts(now, inbox, xid, up, attempts);
      now <= r.now <= now + attempts * REQ_TO && Answered(r, inbox, xid)
    decreases attempts
  {
    if attempts > 0 && up(now) {
      AwaitTime(now, inbox, now + REQ_TO, xid);
      var w := Await(now, inbox, now + REQ_TO, xid);
      if w.answer.Silent? {
        AttemptsTime(w.now, w.inbox, xid, up, attempts - 1);
        AnsweredEarlier(Attempts(w.now, w.inbox, xid, up, attempts - 1), w.inbox, inbox, xid);
      }
    }
  }

  lemma {:induction false} FreshShrinks(inbox: seq<Arrival>, now: int)
    ensures Suffix(Fresh(inbox, now), inbox)
  {
    if inbox != [] && inbox[0].at < now {
      FreshShrinks(inbox[1..], now);
      SuffixTransitive(Fresh(inbox, now), inbox[1..], inbox);
    }
  }

  lemma RenewTime(now: int, inbox: seq<Arrival>, xid: Word32, up: int -> bool)
    ensures var r := Renew(now, inbox, xid, up); now <= r.now <= now + 3 * REQ_TO && Answered(r, inbox, xid)
  {
    FreshShrinks(inbox, now);
    AttemptsTime(now, Fresh(inbox, now), xid, up, 3);
    AnsweredEarlier(Attempts(now, Fresh(inbox, now), xid, up, 3), Fresh(inbox, now), inbox, xid);
  }

  /** A lease as an ACK grants it: whole seconds, running forward, and an address. */
  ghost predicate Sane(l: Lease) {
    && (l.expire == l.acquired || l.expire >= l.acquired + 1000)
    && l.t1 >= 0 && l.t2 >= 0 && l.addr != NoIP
  }

  /** A try takes bounded time and its lease is sane, acquired as it ends. */
  lemma TryTime(now: int, inbox: seq<Arrival>, xid: Word32, up: int -> bool, fallback: Word32)
    ensures var t := TryRenew(now, inbox, xid, up, fallback);
      && now <= t.now <= now + 3 * REQ_TO && |t.inbox| <= |inbox|
      && (t.lease.Some? ==> |t.inbox| < |inbox| && Sane(t.lease.value) && t.lease.value.acquired == t.now)
  {
    RenewTime(now, inbox, xid, up);
  }

  /**
    A round renews with a sane lease from a fresh ACK, or gives up no later than three request
    timeouts after the lease expires, or at T2 if that is later still.
   */
  lemma RoundTime(l: Lease, inbox: seq<Arrival>, xid: Word32, up: int -> bool, fallback: Word32)
    requires Sane(l)
    ensures var r := OneRound(l, l.acquired, inbox, xid, up, fallback);
      match r
      case Renewed(l', rest) => Sane(l') && |rest| < |inbox| && l'.acquired > l.acquired
      case GaveUp(t) => l.acquired < t <= Later(l.expire + 3 * REQ_TO, l.acquired + l.t2)
  {
    var wake := Wake(l, l.acquired);
    TryTime(wake, inbox, xid, up, fallback);
    var first := FirstTry(l, wake, inbox, xid, up, fallback);
    TryTime(first.now, first.inbox, xid, up, fallback);
  }

  // ---- the exact bound ----

  lemma {:induction false} SilentAttempts(now: int, xid: Word32, attempts: nat)
    ensures Attempts(now, [], xid, _ => true, attempts) == Renewal(None, now + attempts * REQ_TO, [])
    decreases attempts
  {
    if attempts > 0 { SilentAttempts(now + REQ_TO, xid, attempts - 1); }
  }

  /** When a client that hears nothing more gives up its lease. */
  function SilentGiveUp(l: Lease): int {
    var wake := Wake(l, l.acquired);
    var t2 := l.acquired + l.t2;
    if wake >= l.expire then wake
    else
      var at := if wake < t2 then Later(wake + 3 * REQ_TO, t2) else wake;
      if at >= l.expire then at else at + 3 * REQ_TO
  }

  lemma SilentRound(l: Lease, xid: Word32, fallback: Word32)
    ensures OneRound(l, l.acquired, [], xid, _ => true, fallback) == GaveUp(SilentGiveUp(l))
  {
    var up := (_: int) => true;
    forall t: int ensures TryRenew(t, [], xid, up, fallback) == Try(None, t + 3 * REQ_TO, []) {
      SilentAttempts(t, xid, 3);
      assert Fresh([], t) == [];
    }
  }

  /** Exactly which leases every network lets go within three request timeouts of their expiry. */
  lemma HoldingBounded(l: Lease, xid: Word32, fallback: Word32)
    requires Sane(l)
    ensures (forall inbox, up :: var r := OneRound(l, l.acquired, inbox, xid, up, fallback);
               r.GaveUp? ==> r.now <= l.expire + 3 * REQ_TO)
            <==> l.acquired + l.t1 >= l.expire || l.acquired + l.t2 <= l.expire + 3 * REQ_TO
  {
    if l.acquired + l.t1 >= l.expire || l.acquired + l.t2 <= l.expire + 3 * REQ_TO {
      forall inbox, up
        ensures var r := OneRound(l, l.acquired, inbox, xid, up, fallback); r.GaveUp? ==> r.now <= l.expire + 3 * REQ_TO
      {
        RoundTime(l, inbox, xid, up, fallback);
      }
    } else {
      SilentRound(l, xid, fallback);
      var r := OneRound(l, l.acquired, [], xid, _ => true, fallback);
      assert r.now > l.expire + 3 * REQ_TO;
    }
  }

  /** A lease whose server leaves T2 to the client is let go in time on every network. */
  lemma DefaultedLeaseBounded(p: Packet, fallback: Word32, now: int, xid: Word32, inbox: seq<Arrival>, up: int -> bool)
    requires Grants(p, xid) && (REBIND_T2 in p.opts ==> |p.opts[REBIND_T2]| != 4)
    ensures var l := LeaseFrom(p, fallback, now); var r := OneRound(l, l.acquired, inbox, xid, up, fallback);
      r.GaveUp? ==> r.now <= l.expire + 3 * REQ_TO
  {
    var l := LeaseFrom(p, fallback, now);
    DefaultT2WithinLease(OptWord(p, DhcpPacket.LEASE, fallback));
    HoldingBounded(l, xid, fallback);
  }

  // ---- the bound phase ----

  /** Rounds until one gives up; every renewal uses up a delivered packet. */
  function Bound(l: Lease, inbox: seq<Arrival>, xid: Word32, up: int -> bool, fallback: Word32): (int, Lease)
    requires Sane(l)
    decreases |inbox|
  {
    RoundTime(l, inbox, xid, up, fallback);
    match OneRound(l, l.acquired, inbox, xid, up, fallback)
    case GaveUp(t) => (t, l)
    case Renewed(l', rest) => Bound(l', rest, xid, up, fallback)
  }

  /** Given up after it was acquired, and within three request timeouts of its expiry or at its T2. */
  ghost predicate Timely(held: (int, Lease)) {
    && Sane(held.1)
    && held.1.acquired < held.0 <= Later(held.1.expire + 3 * REQ_TO, held.1.acquired + held.1.t2)
  }

  lemma RoundEnds(l: Lease, inbox: seq<Arrival>, xid: Word32, up: int -> bool, fallback: Word32)
    requires Sane(l)
    ensures var r := OneRound(l, l.acquired, inbox, xid, up, fallback);
      if r.GaveUp? then Timely((r.now, l)) else Sane(r.lease) && |r.inbox| < |inbox|
  {
    RoundTime(l, inbox, xid, up, fallback);
  }

  /** The bound phase ends in time for the last lease it held. */
  lemma {:induction false} BoundTime(l: Lease, inbox: seq<Arrival>, xid: Word32, up: int -> bool, fallback: Word32)
    requires Sane(l)
    ensures Timely(Bound(l, inbox, xid, up, fallback))
    decreases |inbox|
  {
    RoundEnds(l, inbox, xid, up, fallback);
    var r := OneRound(l, l.acquired, inbox, xid, up, fallback);
    if r.Renewed? { BoundTime(r.lease, r.inbox, xid, up, fallback); }
  }
}
