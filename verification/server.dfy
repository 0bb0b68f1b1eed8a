/**
  The management server's handlers (router/internal/api/server.go:494-503, 592-741, 1216-1323,
  1410-1423): each changes the window, the timers, the store and the transactions as the step
  function says, and leaves a timer armed exactly while a window is open.
 */
module Server {
  import opened Wrappers
  import opened Store
  import opened Commits

  class Timer {
    var armed: bool
    constructor () ensures armed { armed := true; }
    method Stop() modifies this ensures !armed { armed := false; }
  }

  class Transaction<C> {
    var draft: C
    var base: Option<C>
    constructor (draft: C) ensures this.draft == draft && base == None { this.draft, base := draft, None; }
  }

  datatype PendingCommit<C> = PendingCommit(cfg: C, token: string, txnID: string, timer: Timer)

  ghost function DraftsOf<C>(txns: map<string, Transaction<C>>): map<string, Draft<C>>
    reads txns.Values
  {
    map id | id in txns :: Draft(txns[id].draft, txns[id].base)
  }

  class Server<C(==)> {
    const rules: Rules<C>
    const st: Store<C>
    var pend: Option<PendingCommit<C>>
    var txns: map<string, Transaction<C>>
    // The engine and the kernel behind it.
    var live: Live<C>
    // Every timer ever started.
    ghost var timers: set<Timer>

    constructor (rules: Rules<C>, initial: C)
      ensures Valid() && fresh(st) && this.rules == rules && timers == {}
      ensures Current() == Core([Entry(initial, "system", "initial configuration")], None, Dirty) && txns == map[]
    {
      this.rules := rules;
      st := new Store<C>(initial);
      pend, txns, live, timers := None, map[], Dirty, {};
    }

    /** A timer is armed exactly if it belongs to the open window; transactions are separate objects. */
    ghost predicate Valid()
      reads this, st, timers, txns.Values
    {
      && st.Valid()
      && (pend.Some? ==> pend.value.timer in timers)
      && (forall t :: t in timers ==> (t.armed <==> pend.Some? && pend.value.timer == t))
      && (forall a, b :: a in txns && b in txns && txns[a] == txns[b] ==> a == b)
    }

    ghost function Current(): Core<C>
      reads this, st
    {
      Core(st.log, if pend.Some? then Some(Window(pend.value.cfg, pend.value.token, pend.value.txnID)) else None, live)
    }

    ghost function Drafts(): map<string, Draft<C>>
      reads this, txns.Values
    {
      DraftsOf(txns)
    }

    ghost function Snapshot(): State<C>
      reads this, st, txns.Values
    {
      State(Current(), Drafts())
    }

    method EffectiveConfig() returns (c: C)
      requires Valid()
      ensures c == Effective(Current())
    {
      c := if pend.Some? then pend.value.cfg else st.active;
    }

    /** Runs the engine; a failed run leaves the live system in pieces. */
    method EngineApply(c: C, works: bool)
      modifies this`live
      ensures live == if works then Running(c) else Dirty
    {
      live := if works then Running(c) else Dirty;
    }

    /** Replaces the window by a new one with its own timer. */
    method OpenWindow(cfg: C, token: string, txnID: string)
      requires Valid()
      modifies this`pend, this`timers, timers
      ensures Valid() && old(timers) <= timers && fresh(timers - old(timers))
      ensures pend.Some? && pend.value.cfg == cfg && pend.value.token == token && pend.value.txnID == txnID
    {
      if pend.Some? { pend.value.timer.Stop(); }
      var timer := new Timer();
      pend := Some(PendingCommit(cfg, token, txnID, timer));
      timers := timers + {timer};
    }

    method CloseWindow()
      requires Valid()
      modifies this`pend, timers
      ensures Valid() && pend.None?
    {
      if pend.Some? { pend.value.timer.Stop(); }
      pend := None;
    }

    method ApplyNewConfig(o: Order<C>, txnID: string, io: Io) returns (reply: Reply)
      requires Valid()
      modifies this`pend, this`live, this`timers, timers, st
      ensures Valid() && old(timers) <= timers && fresh(timers - old(timers))
      ensures (Current(), reply) == ApplyNew(rules, old(Current()), o, txnID, io)
    {
      var next := rules.defaults(o.cfg);
      if !rules.valid(next) { return Invalid; }
      var base := EffectiveConfig();
      if pend.Some? && pend.value.txnID != txnID { return Conflict; }
      if !rules.builds(next) { return Unbuildable; }
      EngineApply(next, io.engine);
      if !io.engine {
        if rules.builds(base) { EngineApply(base, io.recovery); }
        return ApplyFailed;
      }
      if o.confirm {
        OpenWindow(next, o.token, txnID);
        return Pending;
      }
      reply := CommitNew(Entry(next, o.author, o.message), io);
    }

    /** An immediate commit supersedes the window, but only once it is saved. */
    method CommitNew(e: Entry<C>, io: Io) returns (reply: Reply)
      requires Valid()
      modifies this`pend, timers, st
      ensures Valid()
      ensures st.log == Saved(old(st.log), e, io.revWritten)
      ensures reply == if SaveOk(old(st.log), e.config, io) then Committed else SaveFailed
      ensures pend == if reply == Committed then None else old(pend)
    {
      var saved := st.Save(e.config, e.author, e.message, io.revWritten, io.activeWritten);
      if !saved { return SaveFailed; }
      CloseWindow();
      reply := Committed;
    }

    method CommitPendingConfig(token: string, author: string, io: Io) returns (reply: Reply)
      requires Valid()
      modifies this`pend, timers, st
      ensures Valid()
      ensures (Current(), reply) == CommitPending(old(Current()), token, author, io)
    {
      if pend.None? { return NoPending; }
      if token != "" && pend.value.token != token { return BadToken; }
      var cfg := pend.value.cfg;
      CloseWindow();
      var saved := st.Save(cfg, author, "confirmed commit", io.revWritten, io.activeWritten);
      reply := if saved then Committed else SaveFailed;
    }

    method RollbackPendingConfig(io: Io) returns (reply: Reply)
      requires Valid()
      modifies this`pend, this`live, timers
      ensures Valid()
      ensures (Current(), reply) == RollbackPending(rules, old(Current()), io)
    {
      var hadWindow := pend.Some?;
      CloseWindow();
      if !rules.builds(st.active) { return Unbuildable; }
      EngineApply(st.active, io.engine);
      if !io.engine { return RollbackFailed; }
      reply := if hadWindow then RolledBack else Crashed;
    }

    /** A timer fires once, and only while armed. */
    method AutoRollbackConfig(timer: Timer, io: Io)
      requires Valid() && timer in timers && timer.armed
      modifies this`pend, this`live, timers
      ensures Valid()
      ensures Current() == AutoRollback(rules, old(Current()), io)
    {
      timer.Stop();
      pend := None;
      if rules.builds(st.active) { EngineApply(st.active, io.engine); }
    }

    method ReconcileLive(io: Io)
      requires Valid()
      modifies this`live
      ensures Valid()
      ensures Current() == ReconcileNow(rules, old(Current()), io)
    {
      var c := EffectiveConfig();
      if rules.builds(c) { EngineApply(c, io.engine); }
    }

    method RevisionRestore(rev: int, confirm: bool, token: string, author: string, io: Io) returns (reply: Reply)
      requires Valid()
      modifies this`pend, this`live, this`timers, timers, st
      ensures Valid()
      ensures (Snapshot(), reply) == Step(rules, old(Snapshot()), RestoreRevision(rev, confirm, token, author), io)
    {
      var found := st.Revision(rev);
      if found.None? { return Unknown; }
      var order := Order(found.value.0, confirm, token, author, RestoredFrom(rev, found.value.1.message));
      reply := ApplyNewConfig(order, "", io);
      assert Drafts() == old(Drafts());
    }

    method Begin(id: string) returns (reply: Reply)
      requires Valid()
      modifies this`txns
      ensures Valid()
      ensures (Snapshot(), reply) == Step(rules, old(Snapshot()), TxnBegin(id), Io(true, true, true, true))
    {
      var c := EffectiveConfig();
      var t := new Transaction<C>(c);
      txns := txns[id := t];
      reply := Fine;
      assert Drafts() == Transactions(rules, old(Snapshot()), TxnBegin(id));
    }

    method Configure(id: string, c: C) returns (reply: Reply)
      requires Valid()
      modifies txns.Values
      ensures Valid()
      ensures (Snapshot(), reply) == Step(rules, old(Snapshot()), TxnConfig(id, c), Io(true, true, true, true))
    {
      if id !in txns { return Unknown; }
      var full := rules.defaults(c);
      if !rules.valid(full) { return Invalid; }
      txns[id].draft := full;
      reply := Fine;
      assert Drafts() == Transactions(rules, old(Snapshot()), TxnConfig(id, c));
    }

    /** The configuration to return to, recorded before the apply is accepted. */
    method RecordBase(id: string)
      requires Valid() && id in txns
      modifies txns[id]
      ensures Valid()
      ensures Drafts() == old(Drafts())[id := Draft(old(txns[id].draft), Some(Effective(old(Current()))))]
    {
      var base := EffectiveConfig();
      txns[id].base := Some(base);
    }

    method ApplyTransaction(id: string, confirm: bool, token: string, author: string, io: Io) returns (reply: Reply)
      requires Valid()
      modifies this`pend, this`live, this`timers, timers, st, txns.Values
      ensures Valid()
      ensures (Snapshot(), reply) == Step(rules, old(Snapshot()), TxnApply(id, confirm, token, author), io)
    {
      if id !in txns { return Unknown; }
      var draft := txns[id].draft;
      RecordBase(id);
      reply := Carry(Order(draft, confirm, token, author, "transaction " + id), id, io);
    }

    method Carry(o: Order<C>, txnID: string, io: Io) returns (reply: Reply)
      requires Valid()
      modifies this`pend, this`live, this`timers, timers, st
      ensures Valid()
      ensures (Current(), reply) == Act(rules, old(Current()), Apply(o, txnID), io)
      ensures Drafts() == old(Drafts())
    {
      reply := ApplyNewConfig(o, txnID, io);
      assert Drafts() == old(Drafts());
    }

    method Forget(id: string)
      requires Valid()
      modifies this`txns
      ensures Valid() && Drafts() == old(Drafts()) - {id} && txns.Keys <= old(txns).Keys
    {
      txns := txns - {id};
      assert Drafts() == old(Drafts()) - {id};
    }

    method CommitTransaction(id: string, author: string, io: Io) returns (reply: Reply)
      requires Valid()
      modifies this`pend, this`txns, timers, st
      ensures Valid()
      ensures (Snapshot(), reply) == Step(rules, old(Snapshot()), TxnCommit(id, author), io)
    {
      if id !in txns { return Unknown; }
      if pend.None? || pend.value.txnID != id { return Conflict; }
      ghost var before := Drafts();
      reply := CommitPendingConfig(pend.value.token, author, io);
      assert Drafts() == before;
      Forget(id);
    }

    method RollbackTransaction(id: string, author: string, io: Io) returns (reply: Reply)
      requires Valid()
      modifies this`pend, this`live, this`timers, this`txns, timers, st
      ensures Valid()
      ensures (Snapshot(), reply) == Step(rules, old(Snapshot()), TxnRollback(id, author), io)
    {
      if id !in txns { return Unknown; }
      var base := txns[id].base;
      Forget(id);
      ghost var after := Drafts();
      reply := Undo(id, base, author, io);
      assert Drafts() == after;
    }

    /** Closes the transaction's window, or restores the base of one applied immediately. */
    method Undo(id: string, base: Option<C>, author: string, io: Io) returns (reply: Reply)
      requires Valid()
      modifies this`pend, this`live, this`timers, timers, st
      ensures Valid()
      ensures (Current(), reply) == Act(rules, old(Current()), UndoAction(rules, old(Current()), id, base, author), io)
    {
      if pend.Some? && pend.value.txnID == id {
        reply := RollbackPendingConfig(io);
      } else if base.Some? && rules.hasWans(base.value) {
        reply := ApplyNewConfig(Order(base.value, false, "", author, "transaction " + id + " rolled back"), "", io);
      } else {
        reply := Discarded;
      }
    }
  }
}
