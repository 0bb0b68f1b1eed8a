/**
  What single requests do to the log, the window, the live system and the drafts
  (router/internal/api/server.go:592-741, 1202-1323).
 */
module Requests {
  import opened Wrappers
  import opened Text
  import opened Store
  import opened Commits
  import opened CommitRuns

  /** No transaction but this one has a window open; a plain request counts as transaction "". */
  predicate Clear<C>(s: State<C>, txn: string) { s.core.pend.Some? ==> s.core.pend.value.txnID == txn }

  /** The window that is open, or else the head of the log, is what the system should run. */
  function InForce<C>(s: State<C>): C
    requires s.core.log != []
  {
    if s.core.pend.Some? then s.core.pend.value.cfg else s.core.log[|s.core.log| - 1].config
  }

  /** Afterwards this configuration runs in a window with this token, and nothing is committed. */
  predicate Opened<C(==)>(s: State<C>, t: State<C>, c: C, token: string, txn: string) {
    t.core.log == s.core.log && t.core.pend == Some(Window(c, token, txn)) && t.core.live == Running(c)
  }

  /** Afterwards it runs and is committed, once, without a window. */
  predicate Immediate<C(==)>(s: State<C>, t: State<C>, c: C, author: string, message: string)
    requires s.core.log != []
  {
    && t.core.pend.None? && t.core.live == Running(c)
    && t.core.log == if s.core.log[|s.core.log| - 1].config == c then s.core.log
                     else s.core.log + [Entry(c, author, message)]
  }

  // ---- a configuration put ----

  lemma PutOpens<C>(k: Rules<C>, s: State<C>, o: Order<C>, io: Io)
    requires s.core.log != [] && k.valid(k.defaults(o.cfg)) && k.builds(k.defaults(o.cfg)) && Clear(s, "") && io.engine
    requires o.confirm
    ensures var (t, reply) := Step(k, s, Put(o), io);
      reply == Pending && Opened(s, t, k.defaults(o.cfg), o.token, "") && t.txns == s.txns
  {}

  lemma PutCommits<C>(k: Rules<C>, s: State<C>, o: Order<C>, io: Io)
    requires s.core.log != [] && k.valid(k.defaults(o.cfg)) && k.builds(k.defaults(o.cfg)) && Clear(s, "") && io.engine
    requires !o.confirm && io.revWritten && io.activeWritten
    ensures var (t, reply) := Step(k, s, Put(o), io);
      reply == Committed && Immediate(s, t, k.defaults(o.cfg), o.author, o.message) && t.txns == s.txns
  {}

  /** Exactly when a configuration put is refused, and why; a refusal leaves log, window and drafts alone. */
  lemma PutRefused<C>(k: Rules<C>, s: State<C>, o: Order<C>, io: Io)
    requires s.core.log != []
    ensures var c := k.defaults(o.cfg); var (t, reply) := Step(k, s, Put(o), io);
      && (reply == Invalid <==> !k.valid(c))
      && (reply == Conflict <==> k.valid(c) && !Clear(s, ""))
      && (reply == Unbuildable <==> k.valid(c) && Clear(s, "") && !k.builds(c))
      && (reply == ApplyFailed <==> k.valid(c) && Clear(s, "") && k.builds(c) && !io.engine)
      && (reply in {Invalid, Conflict, Unbuildable} ==> t == s)
      && (reply == ApplyFailed ==>
            && t.core.log == s.core.log && t.core.pend == s.core.pend && t.txns == s.txns
            && (io.recovery && k.builds(InForce(s)) ==> t.core.live == Running(InForce(s))))
  {}

  // ---- a revision restored ----

  /** The revision is one of the newest 64. */
  predicate StillKept<C>(s: State<C>, rev: int) { 1 <= rev <= |s.core.log| && rev > |s.core.log| - 64 }

  lemma KeptIsRetained<C>(s: State<C>, rev: int)
    ensures Retained(s.core.log, rev) <==> StillKept(s, rev)
  {}

  lemma KeptIsFit<C(!new)>(k: Rules<C>, s: State<C>, rev: int)
    requires Lawful(k) && Inv(k, s) && StillKept(s, rev)
    ensures var c := k.defaults(s.core.log[rev - 1].config); k.valid(c) && k.builds(c)
  {
    assert s.core.log[rev - 1] in s.core.log;
  }

  /** Asked to be confirmed, a restored revision runs in a window with the given token; nothing is committed. */
  lemma RestoreOpens<C(!new)>(k: Rules<C>, s: State<C>, rev: int, token: string, author: string, io: Io)
    requires Lawful(k) && Inv(k, s) && StillKept(s, rev) && Clear(s, "") && io.engine
    ensures var (t, reply) := Step(k, s, RestoreRevision(rev, true, token, author), io);
      reply == Pending && Opened(s, t, k.defaults(s.core.log[rev - 1].config), token, "") && t.txns == s.txns
  {
    KeptIsRetained(s, rev);
    KeptIsFit(k, s, rev);
  }

  /** ... and if the window then runs out, what was committed before runs again. */
  lemma RestoreExpires<C(!new)>(k: Rules<C>, s: State<C>, rev: int, token: string, author: string, io: Io, later: Io)
    requires Lawful(k) && Inv(k, s) && StillKept(s, rev) && Clear(s, "") && io.engine && later.engine
    ensures var t := Step(k, s, RestoreRevision(rev, true, token, author), io).0;
      && t.core.log != []
      && (var u := Step(k, t, WindowExpires, later).0;
          && u.core.log == s.core.log && u.core.pend.None?
          && u.core.live == Running(s.core.log[|s.core.log| - 1].config))
  {
    RestoreOpens(k, s, rev, token, author, io);
    var e := RestoreRevision(rev, true, token, author);
    StepKeepsInv(k, s, e, io);
    AbandonReturns(k, Step(k, s, e, io).0, Move(WindowExpires, later));
  }

  /** Not asked to be confirmed it is committed at once, under a message that says where it comes from. */
  lemma RestoreCommits<C(!new)>(k: Rules<C>, s: State<C>, rev: int, token: string, author: string, io: Io)
    requires Lawful(k) && Inv(k, s) && StillKept(s, rev) && Clear(s, "")
    requires io.engine && io.revWritten && io.activeWritten
    ensures var (t, reply) := Step(k, s, RestoreRevision(rev, false, token, author), io);
      var from := s.core.log[rev - 1];
      && reply == Committed && t.txns == s.txns
      && Immediate(s, t, k.defaults(from.config), author,
                   "restored from revision " + Decimal(rev) + " (" + from.message + ")")
  {
    KeptIsRetained(s, rev);
    KeptIsFit(k, s, rev);
  }

  /** A revision that is not kept, or that another transaction's window stands against, changes nothing. */
  lemma RestoreRefused<C(!new)>(k: Rules<C>, s: State<C>, rev: int, confirm: bool, token: string, author: string,
                                io: Io)
    requires Lawful(k) && Inv(k, s)
    ensures var (t, reply) := Step(k, s, RestoreRevision(rev, confirm, token, author), io);
      && (reply == Unknown <==> !StillKept(s, rev))
      && (reply == Conflict <==> StillKept(s, rev) && !Clear(s, ""))
      && (reply in {Unknown, Conflict} ==> t == s)
  {
    KeptIsRetained(s, rev);
    if StillKept(s, rev) { KeptIsFit(k, s, rev); }
  }

  // ---- a window confirmed ----

  /** The window is committed by its own token or none, once; without a window or with another token nothing happens. */
  lemma ConfirmAnswers<C>(k: Rules<C>, s: State<C>, token: string, author: string, io: Io)
    requires s.core.log != []
    ensures var (t, reply) := Step(k, s, CommitNow(token, author), io);
      && (reply == NoPending <==> s.core.pend.None?)
      && (reply == BadToken <==> s.core.pend.Some? && token != "" && token != s.core.pend.value.token)
      && (reply in {NoPending, BadToken} ==> t == s)
      && (s.core.pend.Some? && (token == "" || token == s.core.pend.value.token) ==>
            && t.core.pend.None? && t.core.live == s.core.live && t.txns == s.txns
            && (io.revWritten && io.activeWritten ==>
                  reply == Committed
                  && t.core.log == if s.core.log[|s.core.log| - 1].config == s.core.pend.value.cfg then s.core.log
                                   else s.core.log + [Entry(s.core.pend.value.cfg, author, "confirmed commit")]))
  {}

  // ---- drafts ----

  /** Beginning, editing and applying touch no other draft; only the transaction's own requests touch a draft at all. */
  lemma DraftsOfOthers<C(!new)>(k: Rules<C>, s: State<C>, e: Event<C>, io: Io, id: string)
    requires s.core.log != [] && !Concerns(e, id) && !(e.TxnConfig? && e.id == id)
    ensures var t := Step(k, s, e, io).0;
      (id in t.txns <==> id in s.txns) && (id in s.txns ==> t.txns[id] == s.txns[id])
  {}

  /** A draft begins as what is in force, is replaced by valid configurations only, and is applied in its own window. */
  lemma DraftAnswers<C>(k: Rules<C>, s: State<C>, id: string, c: C, token: string, author: string, io: Io)
    requires s.core.log != []
    ensures var t := Step(k, s, TxnBegin(id), io).0;
      t.core == s.core && id in t.txns && t.txns[id].draft == InForce(s) && t.txns[id].base.None?
    ensures id in s.txns ==>
      var (t, reply) := Step(k, s, TxnConfig(id, c), io);
      && t.core == s.core && id in t.txns && t.txns[id].base == s.txns[id].base
      && t.txns[id].draft == (if k.valid(k.defaults(c)) then k.defaults(c) else s.txns[id].draft)
      && (reply == Invalid <==> !k.valid(k.defaults(c)))
    ensures var c := k.defaults(if id in s.txns then s.txns[id].draft else c);
      id in s.txns && k.valid(c) && k.builds(c) && Clear(s, id) && io.engine ==>
      var (t, reply) := Step(k, s, TxnApply(id, true, token, author), io);
      reply == Pending && Opened(s, t, c, token, id) && id in t.txns && t.txns[id].base == Some(InForce(s))
  {}

  /** The transaction's own window, and no other, is committed by it, and the draft is gone. */
  lemma DraftCommitted<C>(k: Rules<C>, s: State<C>, id: string, author: string, io: Io)
    requires s.core.log != [] && id in s.txns
    ensures var (t, reply) := Step(k, s, TxnCommit(id, author), io);
      if s.core.pend.Some? && s.core.pend.value.txnID == id then
        && id !in t.txns && t.core.pend.None? && t.core.live == s.core.live
        && (io.revWritten && io.activeWritten ==>
              reply == Committed
              && t.core.log == if s.core.log[|s.core.log| - 1].config == s.core.pend.value.cfg then s.core.log
                               else s.core.log + [Entry(s.core.pend.value.cfg, author, "confirmed commit")])
      else reply == Conflict && t == s
  {}

  /** Without a window a draft is committed at once, and undone by its base, each under its own message. */
  lemma DraftImmediate<C>(k: Rules<C>, s: State<C>, id: string, token: string, author: string, io: Io)
    requires s.core.log != [] && id in s.txns && io.engine && io.revWritten && io.activeWritten
    ensures var c := k.defaults(s.txns[id].draft);
      k.valid(c) && k.builds(c) && Clear(s, id) ==>
      var (t, reply) := Step(k, s, TxnApply(id, false, token, author), io);
      reply == Committed && Immediate(s, t, c, author, "transaction " + id)
    ensures s.txns[id].base.Some? && k.hasWans(s.txns[id].base.value) && s.core.pend.None? ==>
      var c := k.defaults(s.txns[id].base.value);
      k.valid(c) && k.builds(c) ==>
      var (t, reply) := Step(k, s, TxnRollback(id, author), io);
      reply == Committed && Immediate(s, t, c, author, "transaction " + id + " rolled back") && id !in t.txns
  {}
}
