/**
  The client that runs the lease state machine, the registry it reports to and the manager that
  starts clients (router/internal/dhcp4/client.go:31-239, manager.go:36-76, 174-198).
 */
module DhcpClient {
  import opened Wrappers
  import opened DhcpPacket
  import opened DhcpLease

  /** Current leases by interface, and how often the reconciler was nudged. */
  class Registry {
    var leases: map<string, Lease>
    var nudges: nat

    constructor ()
      ensures leases == map[] && nudges == 0
    {
      leases, nudges := map[], 0;
    }

    method Set(iface: string, lease: Lease)
      modifies this
      ensures leases == old(leases)[iface := lease] && nudges == old(nudges) + 1
    {
      leases, nudges := leases[iface := lease], nudges + 1;
    }

    /** Forgets a lease; forgetting one that is not there nudges nobody. */
    method Remove(iface: string)
      modifies this
      ensures leases == old(leases) - {iface}
      ensures nudges == old(nudges) + if iface in old(leases) then 1 else 0
    {
      if iface in leases { nudges := nudges + 1; }
      leases := leases - {iface};
    }
  }

  // ---- acquiring ----

  datatype Offered = Offered(offer: Option<Packet>, now: int, inbox: seq<Arrival>)

  function AwaitOffer(now: int, inbox: seq<Arrival>, deadline: int, xid: Word32): Offered
    decreases |inbox|
  {
    if now >= deadline then Offered(None, now, inbox)
    else if inbox == [] || inbox[0].at >= deadline then Offered(None, deadline, inbox)
    else
      var t, rest := Later(now, inbox[0].at), inbox[1..];
      if inbox[0].Broken? then Offered(None, t, rest)
      else
        var p := inbox[0].packet;
        if p.xid == xid && Type(p) == OFFER && p.yiaddr != NoIP then Offered(Some(p), t, rest)
        else AwaitOffer(t, rest, deadline, xid)
  }

  /** The wait for the answer to one REQUEST. */
  function RequestOnce(now: int, inbox: seq<Arrival>, xid: Word32): Renewal {
    var w := Await(now, inbox, now + REQ_TO, xid);
    Renewal(if w.answer.Acked? then Some(w.answer.packet) else None, w.now, w.inbox)
  }

  /** On an open socket: if the DISCOVER is offered an address, one REQUEST for it. */
  function Handshake(now: int, inbox: seq<Arrival>, xid: Word32, up: int -> bool): Renewal {
    var o := AwaitOffer(now, inbox, now + DISCOVER_TO, xid);
    if o.offer.None? || !up(o.now) then Renewal(None, o.now, o.inbox) else RequestOnce(o.now, o.inbox, xid)
  }

  /** One DISCOVER and, if it is offered an address, one REQUEST for it. */
  function Discover(now: int, inbox: seq<Arrival>, xid: Word32, up: int -> bool): Renewal {
    if !up(now) then Renewal(None, now, inbox) else Handshake(now, Fresh(inbox, now), xid, up)
  }

  lemma {:induction false} AwaitOfferTime(now: int, inbox: seq<Arrival>, deadline: int, xid: Word32)
    ensures var o := AwaitOffer(now, inbox, deadline, xid);
      now <= o.now <= Later(now, deadline) && Suffix(o.inbox, inbox)
    decreases |inbox|
  {
    if now < deadline && inbox != [] && inbox[0].at < deadline {
      AwaitOfferTime(Later(now, inbox[0].at), inbox[1..], deadline, xid);
      SuffixTransitive(AwaitOffer(Later(now, inbox[0].at), inbox[1..], deadline, xid).inbox, inbox[1..], inbox);
    }
  }

  lemma RequestTime(now: int, inbox: seq<Arrival>, xid: Word32)
    ensures var r := RequestOnce(now, inbox, xid); now <= r.now <= now + REQ_TO && Answered(r, inbox, xid)
  {
    AwaitTime(now, inbox, now + REQ_TO, xid);
  }

  lemma HandshakeTime(now: int, inbox: seq<Arrival>, xid: Word32, up: int -> bool)
    ensures var r := Handshake(now, inbox, xid, up);
      now <= r.now <= now + DISCOVER_TO + REQ_TO && Answered(r, inbox, xid)
  {
    var o := AwaitOffer(now, inbox, now + DISCOVER_TO, xid);
    AwaitOfferTime(now, inbox, now + DISCOVER_TO, xid);
    RequestTime(o.now, o.inbox, xid);
    AnsweredEarlier(RequestOnce(o.now, o.inbox, xid), o.inbox, inbox, xid);
  }

  /** Acquiring takes at most the two timeouts; its ACK was delivered and is of its own transaction. */
  lemma DiscoverTime(now: int, inbox: seq<Arrival>, xid: Word32, up: int -> bool)
    ensures var r := Discover(now, inbox, xid, up);
      now <= r.now <= now + DISCOVER_TO + REQ_TO && Answered(r, inbox, xid)
  {
    FreshShrinks(inbox, now);
    HandshakeTime(now, Fresh(inbox, now), xid, up);
    AnsweredEarlier(Handshake(now, Fresh(inbox, now), xid, up), Fresh(inbox, now), inbox, xid);
  }

  // ---- what was received, and what the registry showed ----

  // A packet the client read, and its transaction number at that time.
  datatype Receipt = Receipt(packet: Packet, xid: Word32, at: int)

  // What the registry showed for the client's interface from some instant on.
  datatype Moment = Moment(at: int, holding: bool, entry: Option<Lease>, xid: Word32)

  /** The receipt is an ACK of the transaction with an address, and the lease is what it grants as it is read. */
  ghost predicate Gives(h: Receipt, l: Lease, xid: Word32, fallback: Word32) {
    h.xid == xid && Grants(h.packet, xid) && l == LeaseFrom(h.packet, fallback, h.at)
  }

  /** Some receipt no later than that gives the lease. */
  ghost predicate Given(heard: seq<Receipt>, l: Lease, xid: Word32, fallback: Word32, until: int) {
    exists i :: 0 <= i < |heard| && Gives(heard[i], l, xid, fallback) && heard[i].at <= until
  }

  /** The registry had an entry exactly while a lease was held: one that an earlier receipt of the transaction gives. */
  ghost predicate Told(m: Moment, heard: seq<Receipt>, fallback: Word32) {
    && (m.holding <==> m.entry.Some?)
    && (m.entry.Some? ==> Given(heard, m.entry.value, m.xid, fallback, m.at))
  }

  /** Everything read had arrived by then, what is unread is yet to be, and every moment told the truth. */
  ghost predicate Honest(trail: seq<Moment>, heard: seq<Receipt>, wire: seq<Arrival>, inbox: seq<Arrival>,
                         fallback: Word32) {
    && Suffix(inbox, wire)
    && (forall h :: h in heard ==> Delivered(h.packet, wire, h.at))
    && (forall m :: m in trail ==> Told(m, heard, fallback))
  }

  /**
    The moments leave out no time from `born` to `now`: they start at `born`, never go back, and what
    the last one shows, or what shows now if there is none, shows until `now`.
   */
  ghost predicate Covers(trail: seq<Moment>, born: int, now: int) {
    && (forall i, j :: 0 <= i < j < |trail| ==> trail[i].at <= trail[j].at)
    && (if trail == [] then now == born else trail[0].at == born && trail[|trail| - 1].at <= now)
  }

  lemma GivenLater(heard: seq<Receipt>, l: Lease, xid: Word32, fallback: Word32, until: int, later: int)
    requires Given(heard, l, xid, fallback, until) && until <= later
    ensures Given(heard, l, xid, fallback, later)
  {}

  lemma GivenStill(heard: seq<Receipt>, h: Receipt, l: Lease, xid: Word32, fallback: Word32, until: int)
    requires Given(heard, l, xid, fallback, until)
    ensures Given(heard + [h], l, xid, fallback, until)
  {
    var i :| 0 <= i < |heard| && Gives(heard[i], l, xid, fallback) && heard[i].at <= until;
    assert (heard + [h])[i] == heard[i];
  }

  lemma GivenNow(heard: seq<Receipt>, h: Receipt, fallback: Word32)
    requires Grants(h.packet, h.xid)
    ensures Given(heard + [h], LeaseFrom(h.packet, fallback, h.at), h.xid, fallback, h.at)
    ensures Sane(LeaseFrom(h.packet, fallback, h.at))
  {
    assert (heard + [h])[|heard|] == h;
  }

  lemma HonestTrail(trail: seq<Moment>, m: Moment, heard: seq<Receipt>, wire: seq<Arrival>, inbox: seq<Arrival>,
                    fallback: Word32)
    requires Honest(trail, heard, wire, inbox, fallback) && Told(m, heard, fallback)
    ensures Honest(trail + [m], heard, wire, inbox, fallback)
  {}

  lemma HonestTake(trail: seq<Moment>, heard: seq<Receipt>, wire: seq<Arrival>, inbox: seq<Arrival>,
                   rest: seq<Arrival>, fallback: Word32)
    requires Honest(trail, heard, wire, inbox, fallback) && Suffix(rest, inbox)
    ensures Honest(trail, heard, wire, rest, fallback)
  {
    SuffixTransitive(rest, inbox, wire);
  }

  lemma HonestReceipt(trail: seq<Moment>, heard: seq<Receipt>, h: Receipt, wire: seq<Arrival>, inbox: seq<Arrival>,
                      fallback: Word32)
    requires Honest(trail, heard, wire, inbox, fallback)
    requires inbox != [] && inbox[0] == Reply(inbox[0].at, h.packet) && inbox[0].at <= h.at
    ensures Honest(trail, heard + [h], wire, inbox[1..], fallback)
  {
    DeliveredEarlier(h.packet, inbox, wire, h.at, h.at);
    HonestTake(trail, heard, wire, inbox, inbox[1..], fallback);
    forall m | m in trail ensures Told(m, heard + [h], fallback) {
      if m.entry.Some? { GivenStill(heard, h, m.entry.value, m.xid, fallback, m.at); }
    }
  }

  /** One interface's client. */
  class Client {
    const iface: string
    const reg: Registry
    const up: int -> bool
    const fallback: Word32
    // Everything the network ever delivers.
    ghost const wire: seq<Arrival>
    ghost const born: int

    var now: int
    var inbox: seq<Arrival>
    var xid: Word32
    var lease: Option<Lease>
    var backoff: int
    ghost var holding: bool
    ghost var heard: seq<Receipt>
    ghost var trail: seq<Moment>

    constructor (iface: string, reg: Registry, up: int -> bool, fallback: Word32, now: int, inbox: seq<Arrival>,
                 xid: Word32)
      requires iface !in reg.leases
      ensures this.iface == iface && this.reg == reg && this.up == up && this.fallback == fallback
      ensures wire == inbox && born == now
      ensures this.now == now && this.inbox == inbox && this.xid == xid && !holding && heard == [] && trail == []
      ensures Agrees() && backoff == 4000
    {
      this.iface, this.reg, this.up, this.fallback, wire, born := iface, reg, up, fallback, inbox, now;
      this.now, this.inbox, this.xid, lease, backoff, holding := now, inbox, xid, None, 4000, false;
      heard, trail := [], [];
    }

    /**
      The registry has an entry exactly while the client holds a lease; the entry is the client's
      current lease, and a packet read in the current transaction gives it. So it was at every
      instant recorded, and those leave out no time since the client began.
     */
    ghost predicate Agrees()
      reads this, reg
    {
      && (holding <==> iface in reg.leases)
      && (holding ==>
            && lease == Some(reg.leases[iface]) && Sane(lease.value) && lease.value.acquired <= now
            && Given(heard, lease.value, xid, fallback, now))
      && Honest(trail, heard, wire, inbox, fallback) && Covers(trail, born, now)
    }

    ghost function Showing(): Moment
      reads this, reg
    {
      Moment(now, holding, if iface in reg.leases then Some(reg.leases[iface]) else None, xid)
    }

    /** The only two ways time passes: both demand that the registry agrees, and record what it shows. */
    method Sleep(until: int)
      requires Agrees() && until >= now
      modifies this`now, this`trail
      ensures now == until && Agrees() && trail == old(trail) + [old(Showing())]
    {
      HonestTrail(trail, Showing(), heard, wire, inbox, fallback);
      if holding { GivenLater(heard, lease.value, xid, fallback, now, until); }
      trail := trail + [Showing()];
      now := until;
    }

    method Receive(deadline: int) returns (packet: Option<Packet>)
      requires Agrees() && now < deadline
      modifies this`now, this`inbox, this`heard, this`trail
      ensures Agrees() && trail == old(trail) + [old(Showing())]
      ensures heard == old(heard) + if packet.Some? then [Receipt(packet.value, xid, now)] else []
      ensures
        if old(inbox) == [] || old(inbox)[0].at >= deadline then
          packet == None && now == deadline && inbox == old(inbox)
        else
          && now == Later(old(now), old(inbox)[0].at) && inbox == old(inbox)[1..]
          && packet == if old(inbox)[0].Broken? then None else Some(old(inbox)[0].packet)
    {
      if inbox == [] || inbox[0].at >= deadline {
        Sleep(deadline);
        return None;
      }
      var first := inbox[0];
      Sleep(Later(now, first.at));
      if first.Broken? {
        HonestTake(trail, heard, wire, inbox, inbox[1..], fallback);
        packet := None;
      } else {
        packet := Some(first.packet);
        ghost var h := Receipt(first.packet, xid, now);
        HonestReceipt(trail, heard, h, wire, inbox, fallback);
        if holding { GivenStill(heard, h, lease.value, xid, fallback, now); }
        heard := heard + [h];
      }
      inbox := inbox[1..];
    }

    /** The last packet read is this one, in this transaction. */
    ghost predicate JustRead(p: Packet)
      reads this
    {
      heard != [] && heard[|heard| - 1] == Receipt(p, xid, now)
    }

    method AwaitAck(deadline: int) returns (answer: Answer)
      requires Agrees()
      modifies this`now, this`inbox, this`heard, this`trail
      ensures Agrees() && Waited(answer, now, inbox) == Await(old(now), old(inbox), deadline, xid)
      ensures answer.Acked? ==> JustRead(answer.packet) && Grants(answer.packet, xid)
    {
      while now < deadline
        invariant Agrees() && Await(now, inbox, deadline, xid) == Await(old(now), old(inbox), deadline, xid)
        decreases |inbox|, deadline - now
      {
        var p := Receive(deadline);
        if p.None? { return Silent; }
        if p.value.xid != xid { continue; }
        if Type(p.value) == ACK {
          if p.value.yiaddr == NoIP { continue; }
          return Acked(p.value);
        }
        if Type(p.value) == NAK { return Refused; }
      }
      answer := Silent;
    }

    method Open() returns (ok: bool)
      requires Agrees()
      modifies this`inbox
      ensures ok == up(now) && Agrees()
      ensures inbox == if ok then Fresh(old(inbox), now) else old(inbox)
    {
      ok := up(now);
      if ok {
        FreshShrinks(inbox, now);
        HonestTake(trail, heard, wire, inbox, Fresh(inbox, now), fallback);
        inbox := Fresh(inbox, now);
      }
    }

    /** Takes the lease an ACK just read grants, here and in the registry. */
    method Adopt(ack: Packet)
      requires Agrees() && JustRead(ack) && Grants(ack, xid)
      modifies this`lease, this`holding, reg
      ensures Agrees() && holding && lease == Some(LeaseFrom(ack, fallback, now))
      ensures reg.leases == old(reg.leases)[iface := lease.value]
    {
      GivenNow(heard[..|heard| - 1], heard[|heard| - 1], fallback);
      assert heard == heard[..|heard| - 1] + [heard[|heard| - 1]];
      var l := LeaseFrom(ack, fallback, now);
      lease := Some(l);
      reg.Set(iface, l);
      holding := true;
    }

    /** Up to `attempts` requests on an open socket. */
    method Request(attempts: nat) returns (ack: Option<Packet>)
      requires Agrees()
      modifies this`now, this`inbox, this`heard, this`trail
      ensures Agrees() && Renewal(ack, now, inbox) == Attempts(old(now), old(inbox), xid, up, attempts)
      ensures ack.Some? ==> JustRead(ack.value) && Grants(ack.value, xid)
    {
      var attempt := 0;
      while attempt < attempts
        invariant 0 <= attempt <= attempts && Agrees()
        invariant Attempts(now, inbox, xid, up, attempts - attempt) == Attempts(old(now), old(inbox), xid, up, attempts)
      {
        if !up(now) { return None; }
        var answer := AwaitAck(now + REQ_TO);
        if answer.Acked? { return Some(answer.packet); }
        if answer.Refused? { return None; }
        attempt := attempt + 1;
      }
      ack := None;
    }

    /** The outcome of one try, with the lease replaced if there is a new one. */
    ghost predicate Tried(t: Try, was: Lease, renewed: bool)
      reads this
    {
      && renewed == t.lease.Some? && now == t.now && inbox == t.inbox
      && lease == Some(if renewed then t.lease.value else was)
      && (renewed ==> lease.value.acquired == now)
    }

    /** Three requests at most; an ACK replaces the lease here and in the registry. */
    method Renew() returns (ok: bool)
      requires Agrees() && holding
      modifies this`now, this`inbox, this`lease, this`holding, this`heard, this`trail, reg
      ensures Agrees() && holding && reg.leases - {iface} == old(reg.leases) - {iface}
      ensures Tried(TryRenew(old(now), old(inbox), xid, up, fallback), old(lease).value, ok)
    {
      var ack := Ask();
      ok := ack.Some?;
      AdoptIf(ack);
    }

    method AdoptIf(ack: Option<Packet>)
      requires Agrees() && holding && (ack.Some? ==> JustRead(ack.value) && Grants(ack.value, xid))
      modifies this`lease, this`holding, reg
      ensures Agrees() && holding && reg.leases - {iface} == old(reg.leases) - {iface}
      ensures lease == if ack.Some? then Some(LeaseFrom(ack.value, fallback, now)) else old(lease)
    {
      if ack.Some? { Adopt(ack.value); }
    }

    /** A socket, and up to three requests on it. */
    method Ask() returns (ack: Option<Packet>)
      requires Agrees()
      modifies this`now, this`inbox, this`heard, this`trail
      ensures Agrees() && Renewal(ack, now, inbox) == DhcpLease.Renew(old(now), old(inbox), xid, up)
      ensures ack.Some? ==> JustRead(ack.value) && Grants(ack.value, xid)
    {
      var ready := Open();
      if !ready { return None; }
      ack := Request(3);
    }

    /** The bound phase: renew and rebind until the lease can be held no longer. */
    method Hold()
      requires Agrees() && holding && lease.value.acquired == now
      modifies this`now, this`inbox, this`lease, this`holding, this`heard, this`trail, reg
      ensures Agrees() && holding && reg.leases - {iface} == old(reg.leases) - {iface}
      ensures (now, lease.value) == Bound(old(lease).value, old(inbox), xid, up, fallback)
      ensures now <= Later(lease.value.expire + 3 * REQ_TO, lease.value.acquired + lease.value.t2)
      ensures now >= old(now)
    {
      BoundTime(lease.value, inbox, xid, up, fallback);
      while true
        invariant Agrees() && holding && lease.value.acquired == now && now >= old(now)
        invariant reg.leases - {iface} == old(reg.leases) - {iface}
        invariant Bound(lease.value, inbox, xid, up, fallback) == Bound(old(lease).value, old(inbox), xid, up, fallback)
        decreases |inbox|
      {
        var renewed := HoldRound();
        if !renewed { return; }
      }
    }

    /** One pass of that loop, and what is left of the bound phase after it. */
    method HoldRound() returns (renewed: bool)
      requires Agrees() && holding && lease.value.acquired == now
      modifies this`now, this`inbox, this`lease, this`holding, this`heard, this`trail, reg
      ensures Agrees() && holding && reg.leases - {iface} == old(reg.leases) - {iface} && now >= old(now)
      ensures var b := Bound(old(lease).value, old(inbox), xid, up, fallback);
        if renewed then
          lease.value.acquired == now && |inbox| < |old(inbox)| && Bound(lease.value, inbox, xid, up, fallback) == b
        else (now, lease.value) == b
    {
      RoundTime(lease.value, inbox, xid, up, fallback);
      renewed := HoldOnce();
    }

    /** One pass of that loop. */
    method HoldOnce() returns (renewed: bool)
      requires Agrees() && holding && lease.value.acquired == now
      modifies this`now, this`inbox, this`lease, this`holding, this`heard, this`trail, reg
      ensures Agrees() && holding && reg.leases - {iface} == old(reg.leases) - {iface}
      ensures match OneRound(old(lease).value, old(now), old(inbox), xid, up, fallback)
        case Renewed(l, rest) => renewed && lease == Some(l) && inbox == rest && now == l.acquired
        case GaveUp(t) => !renewed && lease == old(lease) && now == t
    {
      var l := lease.value;
      Sleep(Wake(l, now));
      if now >= l.expire { return false; }
      renewed := RenewThenWait(l);
      if !renewed { renewed := Rebind(l); }
    }

    /** The renewal at T1, and if it fails the wait for T2. */
    method RenewThenWait(l: Lease) returns (renewed: bool)
      requires Agrees() && holding && lease == Some(l)
      modifies this`now, this`inbox, this`lease, this`holding, this`heard, this`trail, reg
      ensures Agrees() && holding && reg.leases - {iface} == old(reg.leases) - {iface}
      ensures Tried(FirstTry(l, old(now), old(inbox), xid, up, fallback), l, renewed)
    {
      if now >= l.acquired + l.t2 { return false; }
      renewed := Renew();
      if !renewed && now < l.acquired + l.t2 { Sleep(l.acquired + l.t2); }
    }

    /** The last attempt, unless the lease has expired. */
    method Rebind(l: Lease) returns (renewed: bool)
      requires Agrees() && holding && lease == Some(l)
      modifies this`now, this`inbox, this`lease, this`holding, this`heard, this`trail, reg
      ensures Agrees() && holding && reg.leases - {iface} == old(reg.leases) - {iface}
      ensures Tried(SecondTry(l, old(now), old(inbox), xid, up, fallback), l, renewed)
    {
      if now >= l.expire { return false; }
      renewed := Renew();
    }

    /** The first offer of an address in this transaction. */
    method CollectOffer(deadline: int) returns (offer: Option<Packet>)
      requires Agrees()
      modifies this`now, this`inbox, this`heard, this`trail
      ensures Agrees() && Offered(offer, now, inbox) == AwaitOffer(old(now), old(inbox), deadline, xid)
    {
      while now < deadline
        invariant Agrees() && AwaitOffer(now, inbox, deadline, xid) == AwaitOffer(old(now), old(inbox), deadline, xid)
        decreases |inbox|, deadline - now
      {
        var p := Receive(deadline);
        if p.None? { return None; }
        if p.value.xid != xid || Type(p.value) != OFFER || p.value.yiaddr == NoIP { continue; }
        return p;
      }
      offer := None;
    }

    /** On an open socket: if the DISCOVER is offered an address, one REQUEST for it. */
    method Negotiate() returns (ack: Option<Packet>)
      requires Agrees()
      modifies this`now, this`inbox, this`heard, this`trail
      ensures Agrees() && Renewal(ack, now, inbox) == Handshake(old(now), old(inbox), xid, up)
      ensures ack.Some? ==> JustRead(ack.value) && Grants(ack.value, xid)
    {
      var offer := CollectOffer(now + DISCOVER_TO);
      if offer.None? || !up(now) { return None; }
      var answer := AwaitAck(now + REQ_TO);
      ack := if answer.Acked? then Some(answer.packet) else None;
    }

    /** A new transaction, if a socket can be opened for it. */
    method Acquire() returns (ack: Option<Packet>)
      requires Agrees() && !holding
      modifies this`now, this`inbox, this`xid, this`heard, this`trail
      ensures Agrees() && Renewal(ack, now, inbox) == Discover(old(now), old(inbox), xid, up)
      ensures xid == if up(old(now)) then (old(xid) + 1) % 0x1_0000_0000 else old(xid)
      ensures ack.Some? ==> JustRead(ack.value) && Grants(ack.value, xid)
    {
      var ready := Open();
      if !ready { return None; }
      xid := (xid + 1) % 0x1_0000_0000;
      ack := Negotiate();
    }

    /** The lease is held to its end and forgotten. */
    method HoldThenForget()
      requires Agrees() && holding && lease.value.acquired == now
      modifies this`now, this`inbox, this`lease, this`holding, this`heard, this`trail, reg
      ensures Agrees() && !holding && reg.leases == old(reg.leases) - {iface} && now >= old(now)
      ensures (now, lease) == Ended(Bound(old(lease).value, old(inbox), xid, up, fallback))
    {
      Hold();
      reg.Remove(iface);
      holding := false;
    }

    /** A lease just acquired is registered, held and forgotten. */
    method Serve(ack: Packet)
      requires Agrees() && !holding && JustRead(ack) && Grants(ack, xid)
      modifies this`now, this`inbox, this`lease, this`holding, this`heard, this`trail, reg
      ensures Agrees() && !holding && reg.leases == old(reg.leases) && now >= old(now)
      ensures Sane(LeaseFrom(ack, fallback, old(now)))
      ensures (now, lease) == Ended(Bound(LeaseFrom(ack, fallback, old(now)), old(inbox), xid, up, fallback))
    {
      Adopt(ack);
      HoldThenForget();
    }

    /** One turn of the client's main loop: a lease acquired and held to its end, or a doubled pause. */
    method Turn()
      requires Agrees() && !holding && 4000 <= backoff <= MAX_BACKOFF
      modifies this, reg
      ensures Agrees() && !holding && reg.leases == old(reg.leases)
      ensures now >= old(now) && 4000 <= backoff <= MAX_BACKOFF
      ensures var r := Discover(old(now), old(inbox), xid, up);
        if r.ack.Some? then
          && Grants(r.ack.value, xid) && backoff == 4000
          && (now, lease) == Ended(Bound(LeaseFrom(r.ack.value, fallback, r.now), r.inbox, xid, up, fallback))
        else
          && lease == old(lease) && inbox == r.inbox && now == r.now + old(backoff)
          && backoff == if old(backoff) * 2 > 64000 then 64000 else old(backoff) * 2
    {
      var ack := Acquire();
      DiscoverTime(old(now), old(inbox), xid, up);
      if ack.None? {
        Sleep(now + backoff);
        backoff := if backoff * 2 > MAX_BACKOFF then MAX_BACKOFF else backoff * 2;
      } else {
        backoff := 4000;
        Serve(ack.value);
      }
    }

    /**
      Any number of turns. Between them nothing is held or registered, and other interfaces' entries
      stay as they were; at every instant since the client began, the registry had an entry exactly
      while a lease was held, and a packet delivered and read in that transaction gave it.
     */
    method Run(turns: nat)
      requires Agrees() && !holding && 4000 <= backoff <= MAX_BACKOFF
      modifies this, reg
      ensures Agrees() && !holding && iface !in reg.leases && reg.leases == old(reg.leases)
      ensures now >= old(now) && 4000 <= backoff <= MAX_BACKOFF
      ensures Covers(trail, born, now) && forall m :: m in trail ==> Told(m, heard, fallback)
      ensures forall h :: h in heard ==> Delivered(h.packet, wire, h.at)
    {
      for turn := 0 to turns
        invariant Agrees() && !holding && reg.leases == old(reg.leases)
        invariant now >= old(now) && 4000 <= backoff <= MAX_BACKOFF
      {
        Turn();
      }
    }
  }

  function Ended(held: (int, Lease)): (int, Option<Lease>) { (held.0, Some(held.1)) }

  // ---- the manager ----

  class Handle {
    var cancelled: bool
    constructor () ensures !cancelled { cancelled := false; }
  }

  datatype Uplink = Uplink(iface: string, dhcp: bool, enabled: bool)

  function Wanted(wans: seq<Uplink>): (names: set<string>) {
    set i | 0 <= i < |wans| && wans[i].dhcp && wans[i].enabled :: wans[i].iface
  }

  class Manager {
    var run: map<string, Handle>

    constructor () ensures run == map[] { run := map[]; }

    /** No two interfaces share a client, and no client that runs was cancelled. */
    ghost predicate Valid()
      reads this, run.Values
    {
      && (forall a, b :: a in run && b in run && run[a] == run[b] ==> a == b)
      && (forall a :: a in run ==> !run[a].cancelled)
    }

    /**
      Afterwards exactly the enabled DHCP uplinks have a client: kept ones untouched, the rest
      cancelled, new ones new.
     */
    method Sync(wans: seq<Uplink>)
      requires Valid()
      modifies this, run.Values
      ensures Valid()
      ensures forall n :: n in run <==>
        exists i :: 0 <= i < |wans| && wans[i].dhcp && wans[i].enabled && wans[i].iface == n
      ensures forall a :: a in old(run) && a in run ==> run[a] == old(run)[a]
      ensures forall a :: a in old(run) && a !in run ==> old(run)[a].cancelled
      ensures forall a :: a in run && a !in old(run) ==> fresh(run[a])
    {
      var want: set<string> := {};
      for i := 0 to |wans|
        invariant want == Wanted(wans[..i]) && unchanged(this) && unchanged(run.Values)
      {
        assert wans[..i + 1] == wans[..i] + [wans[i]];
        WantedAppend(wans[..i], wans[i]);
        if wans[i].dhcp && wans[i].enabled { want := want + {wans[i].iface}; }
      }
      assert wans[..|wans|] == wans;
      Stop(want);
      Start(want);
    }

    method Stop(want: set<string>)
      requires Valid()
      modifies this, run.Values
      ensures Valid() && run == map a | a in old(run) && a in want :: old(run)[a]
      ensures forall a :: a in old(run) && a !in want ==> old(run)[a].cancelled
    {
      var left := run.Keys - want;
      while left != {}
        invariant left <= run.Keys <= old(run).Keys && left !! want
        invariant forall a :: a in run ==> run[a] == old(run)[a] && !run[a].cancelled
        invariant forall a :: a in old(run) && (a in want || a in left) ==> a in run
        invariant forall a :: a in run ==> a in want || a in left
        invariant forall a :: a in old(run) && a !in run ==> old(run)[a].cancelled
        decreases left
      {
        var iface :| iface in left;
        run[iface].cancelled := true;
        run := run - {iface};
        left := left - {iface};
      }
    }

    method Start(want: set<string>)
      requires Valid() && run.Keys <= want
      modifies this
      ensures Valid() && run.Keys == want
      ensures forall a :: a in old(run) ==> run[a] == old(run)[a]
      ensures forall a :: a in run && a !in old(run) ==> fresh(run[a])
    {
      var left := want;
      while left != {}
        invariant left <= want && run.Keys == old(run).Keys + (want - left)
        invariant Valid()
        invariant forall a :: a in old(run) ==> run[a] == old(run)[a]
        invariant forall a :: a in run && a !in old(run) ==> fresh(run[a])
        decreases left
      {
        var iface :| iface in left;
        left := left - {iface};
        if iface !in run {
          var h := new Handle();
          run := run[iface := h];
        }
      }
    }
  }

  lemma WantedAppend(wans: seq<Uplink>, w: Uplink)
    ensures Wanted(wans + [w]) == Wanted(wans) + if w.dhcp && w.enabled then {w.iface} else {}
  {
    forall name
      ensures name in Wanted(wans + [w]) <==> name in Wanted(wans) + if w.dhcp && w.enabled then {w.iface} else {}
    {
      if name in Wanted(wans) {
        var i :| 0 <= i < |wans| && wans[i].dhcp && wans[i].enabled && wans[i].iface == name;
        assert (wans + [w])[i] == wans[i];
      }
      if w.dhcp && w.enabled && w.iface == name { assert (wans + [w])[|wans|] == w; }
    }
  }
}
