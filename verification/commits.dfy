/**
  Confirmed commits and transactions (router/internal/api/server.go:494-503, 592-741, 1216-1323,
  1410-1423) as steps on the revision log, the open window, the live system and the transactions.
  Whether the engine and the file writes succeed is an input of each step.
 */
module Commits {
  import opened Wrappers
  import opened Store

  // What the configuration package decides: defaults, validity, whether a desired state can be
  // built, and whether there is any uplink.
  datatype Rules<!C> = Rules(defaults: C -> C, valid: C -> bool, builds: C -> bool, hasWans: C -> bool)

  datatype Window<C> = Window(cfg: C, token: string, txnID: string)

  // The live system: the last configuration applied in full, or the remains of a failed one.
  datatype Live<C> = Running(cfg: C) | Dirty

  datatype Core<C> = Core(log: seq<Entry<C>>, pend: Option<Window<C>>, live: Live<C>)

  datatype Draft<C> = Draft(draft: C, base: Option<C>)

  datatype State<C> = State(core: Core<C>, txns: map<string, Draft<C>>)

  datatype Io = Io(engine: bool, recovery: bool, revWritten: bool, activeWritten: bool)

  datatype Order<C> = Order(cfg: C, confirm: bool, token: string, author: string, message: string)

  datatype Action<C> =
    | Apply(order: Order<C>, txnID: string)
    | Commit(token: string, author: string)
    | Rollback
    | Timeout
    | Reconcile
    | Nothing(reason: Reply)

  datatype Reply =
    | Committed
    | Pending
    | Invalid
    | Conflict
    | Unbuildable
    | ApplyFailed
    | SaveFailed
    | NoPending
    | BadToken
    | RolledBack | RollbackFailed | Crashed | Unknown | Discarded | Fine | Done

  datatype Event<C> =
    | Put(order: Order<C>)
    | RestoreRevision(rev: int, confirm: bool, token: string, author: string)
    | CommitNow(token: string, author: string)
    | RollbackNow
    | WindowExpires
    | Tick
    | TxnBegin(id: string)
    | TxnConfig(id: string, cfg: C)
    | TxnApply(id: string, confirm: bool, token: string, author: string)
    | TxnCommit(id: string, author: string)
    | TxnRollback(id: string, author: string)

  // ---- steps ----

  function Effective<C>(s: Core<C>): C
    requires s.log != []
  {
    if s.pend.Some? then s.pend.value.cfg else Head(s.log)
  }

  predicate SaveOk<C(==)>(log: seq<Entry<C>>, c: C, io: Io)
    requires log != []
  {
    c == Head(log) || (io.revWritten && io.activeWritten)
  }

  /** Validate, refuse to disturb another window, apply, then open a window or commit. */
  function ApplyNew<C(==)>(k: Rules<C>, s: Core<C>, o: Order<C>, txnID: string, io: Io): (Core<C>, Reply)
    requires s.log != []
  {
    var next := k.defaults(o.cfg);
    if !k.valid(next) then (s, Invalid)
    else if s.pend.Some? && s.pend.value.txnID != txnID then (s, Conflict)
    else if !k.builds(next) then (s, Unbuildable)
    else if !io.engine then
      (s.(live := if k.builds(Effective(s)) && io.recovery then Running(Effective(s)) else Dirty), ApplyFailed)
    else if o.confirm then (Core(s.log, Some(Window(next, o.token, txnID)), Running(next)), Pending)
    else
      var log := Saved(s.log, Entry(next, o.author, o.message), io.revWritten);
      if SaveOk(s.log, next, io) then (Core(log, None, Running(next)), Committed)
      else (Core(log, s.pend, Running(next)), SaveFailed)
  }

  function CommitPending<C(==)>(s: Core<C>, token: string, author: string, io: Io): (Core<C>, Reply)
    requires s.log != []
  {
    if s.pend.None? then (s, NoPending)
    else if token != "" && s.pend.value.token != token then (s, BadToken)
    else
      var c := s.pend.value.cfg;
      (Core(Saved(s.log, Entry(c, author, "confirmed commit"), io.revWritten), None, s.live),
       if SaveOk(s.log, c, io) then Committed else SaveFailed)
  }

  /** The window closes whatever happens; reporting a rollback when none was open crashes the handler. */
  function RollbackPending<C>(k: Rules<C>, s: Core<C>, io: Io): (Core<C>, Reply)
    requires s.log != []
  {
    var closed := s.(pend := None);
    if !k.builds(Head(s.log)) then (closed, Unbuildable)
    else if !io.engine then (closed.(live := Dirty), RollbackFailed)
    else (closed.(live := Running(Head(s.log))), if s.pend.None? then Crashed else RolledBack)
  }

  function AutoRollback<C>(k: Rules<C>, s: Core<C>, io: Io): Core<C>
    requires s.log != []
  {
    if s.pend.None? then s
    else if !k.builds(Head(s.log)) then s.(pend := None)
    else Core(s.log, None, if io.engine then Running(Head(s.log)) else Dirty)
  }

  function ReconcileNow<C>(k: Rules<C>, s: Core<C>, io: Io): Core<C>
    requires s.log != []
  {
    if !k.builds(Effective(s)) then s else s.(live := if io.engine then Running(Effective(s)) else Dirty)
  }

  function Act<C(==)>(k: Rules<C>, s: Core<C>, a: Action<C>, io: Io): (Core<C>, Reply)
    requires s.log != []
  {
    match a
    case Apply(o, txnID) => ApplyNew(k, s, o, txnID, io)
    case Commit(token, author) => CommitPending(s, token, author, io)
    case Rollback => RollbackPending(k, s, io)
    case Timeout => (AutoRollback(k, s, io), Done)
    case Reconcile => (ReconcileNow(k, s, io), Done)
    case Nothing(reason) => (s, reason)
  }

  /** Rolling back a transaction closes its window, or restores its base if it was applied immediately. */
  function UndoAction<C>(k: Rules<C>, s: Core<C>, id: string, base: Option<C>, author: string): Action<C> {
    if s.pend.Some? && s.pend.value.txnID == id then Rollback
    else if base.Some? && k.hasWans(base.value) then
      Apply(Order(base.value, false, "", author, "transaction " + id + " rolled back"), "")
    else Nothing(Discarded)
  }

  /** What a request amounts to. */
  function Meaning<C>(k: Rules<C>, s: State<C>, e: Event<C>): Action<C>
    requires s.core.log != []
  {
    var log := s.core.log;
    match e
    case Put(o) => Apply(o, "")
    case RestoreRevision(rev, confirm, token, author) =>
      if Retained(log, rev) then
        Apply(Order(log[rev - 1].config, confirm, token, author, RestoredFrom(rev, log[rev - 1].message)), "")
      else Nothing(Unknown)
    case CommitNow(token, author) => Commit(token, author)
    case RollbackNow => Rollback
    case WindowExpires => Timeout
    case Tick => Reconcile
    case TxnBegin(id) => Nothing(Fine)
    case TxnConfig(id, c) =>
      Nothing(if id !in s.txns then Unknown else if k.valid(k.defaults(c)) then Fine else Invalid)
    case TxnApply(id, confirm, token, author) =>
      if id !in s.txns then Nothing(Unknown)
      else Apply(Order(s.txns[id].draft, confirm, token, author, "transaction " + id), id)
    case TxnCommit(id, author) =>
      if id !in s.txns then Nothing(Unknown)
      else if s.core.pend.None? || s.core.pend.value.txnID != id then Nothing(Conflict)
      else Commit(s.core.pend.value.token, author)
    case TxnRollback(id, author) =>
      if id !in s.txns then Nothing(Unknown)
      else UndoAction(k, s.core, id, s.txns[id].base, author)
  }

  function Transactions<C>(k: Rules<C>, s: State<C>, e: Event<C>): map<string, Draft<C>>
    requires s.core.log != []
  {
    match e
    case TxnBegin(id) => s.txns[id := Draft(Effective(s.core), None)]
    case TxnConfig(id, c) =>
      if id in s.txns && k.valid(k.defaults(c)) then s.txns[id := Draft(k.defaults(c), s.txns[id].base)] else s.txns
    case TxnApply(id, confirm, token, author) =>
      if id in s.txns then s.txns[id := Draft(s.txns[id].draft, Some(Effective(s.core)))] else s.txns
    case TxnCommit(id, author) =>
      if id in s.txns && s.core.pend.Some? && s.core.pend.value.txnID == id then s.txns - {id} else s.txns
    case TxnRollback(id, author) => if id in s.txns then s.txns - {id} else s.txns
    case _ => s.txns
  }

  function Step<C(==)>(k: Rules<C>, s: State<C>, e: Event<C>, io: Io): (State<C>, Reply)
    requires s.core.log != []
  {
    var (core, reply) := Act(k, s.core, Meaning(k, s, e), io);
    (State(core, Transactions(k, s, e)), reply)
  }

  lemma LogGrows<C>(k: Rules<C>, s: Core<C>, a: Action<C>, io: Io)
    requires s.log != []
    ensures s.log <= Act(k, s, a, io).0.log
  {}
}
