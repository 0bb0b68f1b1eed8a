/**
  What a client makes of the packets it reads, byte by byte, and when it asks for a renewal
  (router/internal/dhcp4/packet.go:225-253, client.go:80-214).
 */
module LeaseGrant {
  import opened Wrappers
  import opened DhcpPacket
  import opened DhcpLease
  import opened DhcpClient

  // ---- what an ACK grants ----

  /** The option holds four bytes. */
  predicate Word4(p: Packet, code: Byte) { code in p.opts && |p.opts[code]| == 4 }

  /** The number four bytes make, the first the highest. */
  function Number(b: seq<Byte>): nat
    requires |b| == 4
  {
    b[0] as int * 16777216 + b[1] as int * 65536 + b[2] as int * 256 + b[3] as int
  }

  /** The seconds granted: option 51, or what the client falls back to. */
  function Seconds(p: Packet, fallback: Word32): nat { if Word4(p, 51) then Number(p.opts[51]) else fallback }

  /** Lease time from option 51, T1 from 58 or half of it, T2 from 59 or seven eighths of it in 32 bits. */
  lemma GrantedTimes(p: Packet, fallback: Word32, now: int)
    ensures var l := LeaseFrom(p, fallback, now); var secs := Seconds(p, fallback);
      && l.acquired == now && l.expire == now + 1000 * secs
      && l.t1 == 1000 * (if Word4(p, 58) then Number(p.opts[58]) else secs / 2)
      && l.t2 == 1000 * (if Word4(p, 59) then Number(p.opts[59]) else (7 * secs) % 4294967296 / 8)
  {}

  lemma {:induction false} IpListAt(v: seq<Byte>, i: nat)
    ensures |IpList(v)| == |v| / 4
    ensures i < |v| / 4 ==> IpList(v)[i] == IPv4(v[4 * i], v[4 * i + 1], v[4 * i + 2], v[4 * i + 3])
  {
    if |v| >= 4 { IpListAt(v[4..], if i == 0 then 0 else i - 1); }
  }

  /**
    The address is the packet's, the mask option 1 or 255.255.255.0, the gateway the first of option
    3, the servers for names the groups of four bytes of option 6, the server option 54 or the packet's.
   */
  lemma GrantedAddresses(p: Packet, fallback: Word32, now: int, i: nat)
    ensures var l := LeaseFrom(p, fallback, now);
      && l.addr == p.yiaddr
      && l.mask == (if Word4(p, 1) then p.opts[1] else [255, 255, 255, 0])
      && l.gateway == (if 3 in p.opts && |p.opts[3]| >= 4
                       then IPv4(p.opts[3][0], p.opts[3][1], p.opts[3][2], p.opts[3][3]) else NoIP)
      && l.serverID == (if Word4(p, 54)
                        then IPv4(p.opts[54][0], p.opts[54][1], p.opts[54][2], p.opts[54][3]) else p.siaddr)
      && (6 !in p.opts ==> l.dns == [])
      && (6 in p.opts ==>
            var v := p.opts[6];
            && |l.dns| == |v| / 4
            && (i < |v| / 4 ==> l.dns[i] == IPv4(v[4 * i], v[4 * i + 1], v[4 * i + 2], v[4 * i + 3])))
  {
    IpListAt(OptBytes(p, ROUTER), 0);
    IpListAt(OptBytes(p, DNS), i);
  }

  // ---- when a bound client hears an answer ----

  /** T2, or the expiry if that is earlier. */
  function Rebinding(l: Lease): int { if l.acquired + l.t2 > l.expire then l.expire else l.acquired + l.t2 }

  /** When the client first asks: at T1, but not after that, and not before a millisecond has passed. */
  function FirstAsk(l: Lease): int {
    var t1 := if l.acquired + l.t1 > Rebinding(l) then Rebinding(l) else l.acquired + l.t1;
    if t1 <= l.acquired then l.acquired + 1 else t1
  }

  /** When it asks for the last time: at T2 or when it is through with asking at T1. */
  function LastAsk(l: Lease): int {
    if FirstAsk(l) >= l.acquired + l.t2 then FirstAsk(l)
    else if FirstAsk(l) + 12000 < l.acquired + l.t2 then l.acquired + l.t2
    else FirstAsk(l) + 12000
  }

  /** An answer at this time finds the client asking: within twelve seconds of either, before the expiry. */
  predicate Asking(l: Lease, at: int) {
    || (FirstAsk(l) < l.expire && FirstAsk(l) < l.acquired + l.t2 && FirstAsk(l) <= at < FirstAsk(l) + 12000)
    || (FirstAsk(l) < l.expire && LastAsk(l) < l.expire && LastAsk(l) <= at < LastAsk(l) + 12000)
  }

  lemma {:induction false} LoneAttempts(now: int, at: int, p: Packet, xid: Word32, attempts: nat)
    requires Grants(p, xid) && at >= now
    ensures Attempts(now, [Reply(at, p)], xid, _ => true, attempts) ==
      if at < now + attempts * 4000 then Renewal(Some(p), at, [])
      else Renewal(None, now + attempts * 4000, [Reply(at, p)])
    decreases attempts
  {
    if attempts > 0 && at >= now + 4000 { LoneAttempts(now + 4000, at, p, xid, attempts - 1); }
  }

  lemma LoneTry(now: int, at: int, p: Packet, xid: Word32, fallback: Word32)
    requires Grants(p, xid)
    ensures TryRenew(now, [Reply(at, p)], xid, _ => true, fallback) ==
      if at < now then Try(None, now + 12000, [])
      else if at < now + 12000 then Try(Some(LeaseFrom(p, fallback, at)), at, [])
      else Try(None, now + 12000, [Reply(at, p)])
  {
    var inbox := [Reply(at, p)];
    assert inbox[1..] == [];
    if at < now {
      assert Fresh(inbox, now) == [];
      SilentAttempts(now, xid, 3);
    } else {
      LoneAttempts(now, at, p, xid, 3);
    }
  }

  lemma EmptyTry(now: int, xid: Word32, fallback: Word32)
    ensures TryRenew(now, [], xid, _ => true, fallback) == Try(None, now + 12000, [])
  {
    SilentAttempts(now, xid, 3);
    assert Fresh([], now) == [];
  }

  lemma LoneFirst(l: Lease, at: int, p: Packet, xid: Word32, fallback: Word32)
    requires Grants(p, xid) && FirstAsk(l) < l.acquired + l.t2
    ensures FirstTry(l, FirstAsk(l), [Reply(at, p)], xid, _ => true, fallback) ==
      if FirstAsk(l) <= at < FirstAsk(l) + 12000 then Try(Some(LeaseFrom(p, fallback, at)), at, [])
      else Try(None, LastAsk(l), if at < FirstAsk(l) then [] else [Reply(at, p)])
  {
    LoneTry(FirstAsk(l), at, p, xid, fallback);
  }

  lemma LoneSecond(l: Lease, at: int, p: Packet, xid: Word32, fallback: Word32)
    requires Grants(p, xid) && LastAsk(l) < l.expire
    ensures var t := SecondTry(l, LastAsk(l), [Reply(at, p)], xid, _ => true, fallback);
      if LastAsk(l) <= at < LastAsk(l) + 12000 then t == Try(Some(LeaseFrom(p, fallback, at)), at, [])
      else t.lease.None?
    ensures SecondTry(l, LastAsk(l), [], xid, _ => true, fallback).lease.None?
  {
    LoneTry(LastAsk(l), at, p, xid, fallback);
    EmptyTry(LastAsk(l), xid, fallback);
  }

  /** A round in terms of its two tries. */
  lemma RoundIs(l: Lease, inbox: seq<Arrival>, xid: Word32, up: int -> bool, fallback: Word32, first: Try)
    requires FirstAsk(l) < l.expire && first == FirstTry(l, FirstAsk(l), inbox, xid, up, fallback)
    ensures OneRound(l, l.acquired, inbox, xid, up, fallback) ==
      if first.lease.Some? then Renewed(first.lease.value, first.inbox)
      else
        var second := SecondTry(l, first.now, first.inbox, xid, up, fallback);
        if second.lease.Some? then Renewed(second.lease.value, second.inbox) else GaveUp(second.now)
  {
    assert Wake(l, l.acquired) == FirstAsk(l);
  }

  /** A lone answer renews the lease exactly if it comes while the client is asking, and then from that moment. */
  lemma RenewsExactlyWhenAsking(l: Lease, at: int, p: Packet, xid: Word32, fallback: Word32)
    requires Sane(l) && Grants(p, xid)
    ensures var r := OneRound(l, l.acquired, [Reply(at, p)], xid, _ => true, fallback);
      if Asking(l, at) then r == Renewed(LeaseFrom(p, fallback, at), []) else r.GaveUp?
  {
    var up, inbox := (_: int) => true, [Reply(at, p)];
    if FirstAsk(l) >= l.expire {
      assert Wake(l, l.acquired) == FirstAsk(l);
    } else {
      RoundIs(l, inbox, xid, up, fallback, FirstTry(l, FirstAsk(l), inbox, xid, up, fallback));
      if FirstAsk(l) < l.acquired + l.t2 { LoneFirst(l, at, p, xid, fallback); }
      if LastAsk(l) < l.expire { LoneSecond(l, at, p, xid, fallback); }
    }
  }

  // ---- from DISCOVER to ACK ----

  /** An offer within four seconds and an ACK within four seconds of it make a lease; types are 2 and 5. */
  lemma Bargain(now: int, a: int, offer: Packet, b: int, ack: Packet, xid: Word32)
    requires now <= a <= b && offer.xid == xid && Says(offer, 2) && offer.yiaddr != NoIP && Grants(ack, xid)
    ensures Discover(now, [Reply(a, offer), Reply(b, ack)], xid, _ => true).ack ==
      if a < now + 4000 && b < a + 4000 then Some(ack) else None
  {
    var inbox := [Reply(a, offer), Reply(b, ack)];
    assert inbox[1..] == [Reply(b, ack)] && inbox[1..][1..] == [];
    assert Type(offer) == 2;
  }

  /** Without an offer of the transaction with an address there is no ACK to wait for. */
  lemma {:induction false} NoOffer(now: int, inbox: seq<Arrival>, deadline: int, xid: Word32)
    requires forall i :: 0 <= i < |inbox| && inbox[i].Reply? ==>
      !(inbox[i].packet.xid == xid && Says(inbox[i].packet, 2) && inbox[i].packet.yiaddr != NoIP)
    ensures AwaitOffer(now, inbox, deadline, xid).offer.None?
    decreases |inbox|
  {
    if now < deadline && inbox != [] && inbox[0].at < deadline {
      forall i | 0 <= i < |inbox[1..]| && inbox[1..][i].Reply?
        ensures var p := inbox[1..][i].packet; !(p.xid == xid && Says(p, 2) && p.yiaddr != NoIP)
      {
        assert inbox[1..][i] == inbox[i + 1];
      }
      NoOffer(Later(now, inbox[0].at), inbox[1..], deadline, xid);
      assert inbox[0].Reply? ==> !(inbox[0].packet.xid == xid && Type(inbox[0].packet) == 2
                                   && inbox[0].packet.yiaddr != NoIP);
    }
  }
}
