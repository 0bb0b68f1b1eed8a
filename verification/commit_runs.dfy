/**
  What holds over every run of commits, rollbacks, timeouts and transactions.
 */
module CommitRuns {
  import opened Wrappers
  import opened Store
  import opened Commits

  /** Defaults are idempotent and spoil nothing, and a valid configuration has an uplink. */
  ghost predicate Lawful<C(!new)>(k: Rules<C>) {
    && (forall c: C :: k.defaults(k.defaults(c)) == k.defaults(c))
    && (forall c: C :: k.valid(c) ==> k.valid(k.defaults(c)) && k.hasWans(c))
    && (forall c: C :: k.valid(c) && k.builds(c) ==> k.builds(k.defaults(c)))
  }

  /** A configuration that can be applied. It need not be complete: the one a store is seeded with is not. */
  predicate Fit<C>(k: Rules<C>, c: C) { k.valid(c) && k.builds(c) }

  predicate Complete<C(==)>(k: Rules<C>, c: C) { k.defaults(c) == c }

  /** What every step keeps: what is committed, pending or a base is fit, and drafts are valid. */
  ghost predicate Inv<C>(k: Rules<C>, s: State<C>) {
    && CoreInv(k, s.core)
    && (forall id :: id in s.txns ==> k.valid(s.txns[id].draft))
    && (forall id :: id in s.txns && s.txns[id].base.Some? ==> Fit(k, s.txns[id].base.value))
  }

  ghost predicate CoreInv<C>(k: Rules<C>, s: Core<C>) {
    && s.log != []
    && (forall e :: e in s.log ==> Fit(k, e.config))
    && (s.pend.Some? ==> Fit(k, s.pend.value.cfg))
  }

  /** The live system runs the effective configuration, unless a failed apply was not recovered. */
  predicate Synced<C(==)>(s: Core<C>)
    requires s.log != []
  {
    s.live.Dirty? || s.live.cfg == Effective(s)
  }

  lemma EffectiveFit<C>(k: Rules<C>, s: Core<C>)
    requires CoreInv(k, s)
    ensures Fit(k, Effective(s))
  {
    assert s.log[|s.log| - 1] in s.log;
  }

  lemma ActKeepsInv<C(!new)>(k: Rules<C>, s: Core<C>, a: Action<C>, io: Io)
    requires Lawful(k) && CoreInv(k, s)
    ensures CoreInv(k, Act(k, s, a, io).0)
  {}

  lemma StepKeepsInv<C(!new)>(k: Rules<C>, s: State<C>, e: Event<C>, io: Io)
    requires Lawful(k) && Inv(k, s)
    ensures Inv(k, Step(k, s, e, io).0)
  {
    ActKeepsInv(k, s.core, Meaning(k, s, e), io);
    EffectiveFit(k, s.core);
  }

  // ---- live equals effective ----

  /**
    The one way to part live from effective: a commit whose files cannot be written. The engine has
    already applied the new configuration when the revision file fails; and when the active file
    fails, an open window still hides the configuration just committed.
   */
  predicate Diverges<C(==)>(k: Rules<C>, s: Core<C>, a: Action<C>, io: Io)
    requires s.log != []
  {
    match a
    case Apply(o, txnID) =>
      var next := k.defaults(o.cfg);
      && k.valid(next) && k.builds(next) && io.engine && !o.confirm
      && (s.pend.Some? ==> s.pend.value.txnID == txnID)
      && next != Head(s.log)
      && ((!io.revWritten && next != Effective(s))
          || (io.revWritten && !io.activeWritten && s.pend.Some? && next != s.pend.value.cfg))
    case Commit(token, author) =>
      && s.pend.Some? && (token == "" || token == s.pend.value.token)
      && !io.revWritten && s.pend.value.cfg != Head(s.log) && !s.live.Dirty?
    case _ => false
  }

  lemma ActSynced<C>(k: Rules<C>, s: Core<C>, a: Action<C>, io: Io)
    requires CoreInv(k, s) && Synced(s)
    ensures Act(k, s, a, io).0.log != []
    ensures Synced(Act(k, s, a, io).0) <==> !Diverges(k, s, a, io)
  {
    EffectiveFit(k, s);
    assert s.log[|s.log| - 1] in s.log;
  }

  // ---- runs ----

  datatype Move<C> = Move(event: Event<C>, io: Io)

  function Run<C(==)>(k: Rules<C>, s: State<C>, moves: seq<Move<C>>): (t: State<C>)
    requires s.core.log != []
    ensures s.core.log <= t.core.log
    decreases |moves|
  {
    if moves == [] then s
    else
      LogGrows(k, s.core, Meaning(k, s, moves[0].event), moves[0].io);
      Run(k, Step(k, s, moves[0].event, moves[0].io).0, moves[1..])
  }

  /** Nothing in the run loses a file write that parts live from effective. */
  ghost predicate NeverDiverges<C>(k: Rules<C>, s: State<C>, moves: seq<Move<C>>)
    requires s.core.log != []
    decreases |moves|
  {
    moves == [] ||
    (LogGrows(k, s.core, Meaning(k, s, moves[0].event), moves[0].io);
     && !Diverges(k, s.core, Meaning(k, s, moves[0].event), moves[0].io)
     && NeverDiverges(k, Step(k, s, moves[0].event, moves[0].io).0, moves[1..]))
  }

  /** The action has the engine apply something. */
  predicate Attempts<C>(k: Rules<C>, s: Core<C>, a: Action<C>)
    requires s.log != []
  {
    match a
    case Apply(o, txnID) =>
      var next := k.defaults(o.cfg);
      k.valid(next) && k.builds(next) && (s.pend.Some? ==> s.pend.value.txnID == txnID)
    case Rollback => true
    case Timeout => s.pend.Some?
    case Reconcile => true
    case _ => false
  }

  /** It does so in full, or a failed apply is recovered. */
  predicate Works<C>(a: Action<C>, io: Io) { io.engine || (a.Apply? && io.recovery) }

  /** After a step the live system is broken exactly if its last attempt failed, and else effective. */
  lemma StepLive<C>(k: Rules<C>, s: Core<C>, a: Action<C>, io: Io)
    requires CoreInv(k, s) && Synced(s) && !Diverges(k, s, a, io)
    ensures var t := Act(k, s, a, io).0;
      && t.log != []
      && t.live == if (if Attempts(k, s, a) then !Works(a, io) else s.live.Dirty?) then Dirty else Running(Effective(t))
  {
    ActSynced(k, s, a, io);
    EffectiveFit(k, s);
    assert s.log[|s.log| - 1] in s.log;
  }

  /** The last attempt of the run failed; without any, what was so before still is. */
  ghost predicate Broken<C>(k: Rules<C>, s: State<C>, moves: seq<Move<C>>, before: bool)
    requires s.core.log != []
    decreases |moves|
  {
    if moves == [] then before
    else
      var m := moves[0];
      var a := Meaning(k, s, m.event);
      LogGrows(k, s.core, a, m.io);
      Broken(k, Step(k, s, m.event, m.io).0, moves[1..], if Attempts(k, s.core, a) then !Works(a, m.io) else before)
  }

  /**
    Over every run live is the open window's configuration if there is one and the committed one
    otherwise, except exactly while the last attempt of the engine is one that failed unrecovered.
   */
  lemma {:induction false} LiveIsEffective<C(!new)>(k: Rules<C>, s: State<C>, moves: seq<Move<C>>)
    requires Lawful(k) && Inv(k, s) && Synced(s.core) && NeverDiverges(k, s, moves)
    ensures var t := Run(k, s, moves);
      Inv(k, t) && t.core.live == if Broken(k, s, moves, s.core.live.Dirty?) then Dirty else Running(Effective(t.core))
    decreases |moves|
  {
    if moves != [] {
      var m := moves[0];
      StepKeepsInv(k, s, m.event, m.io);
      StepLive(k, s.core, Meaning(k, s, m.event), m.io);
      LiveIsEffective(k, Step(k, s, m.event, m.io).0, moves[1..]);
    }
  }

  /** Every attempt of the run works. */
  ghost predicate AllWork<C>(k: Rules<C>, s: State<C>, moves: seq<Move<C>>)
    requires s.core.log != []
    decreases |moves|
  {
    moves == [] ||
    (LogGrows(k, s.core, Meaning(k, s, moves[0].event), moves[0].io);
     && (Attempts(k, s.core, Meaning(k, s, moves[0].event)) ==> Works(Meaning(k, s, moves[0].event), moves[0].io))
     && AllWork(k, Step(k, s, moves[0].event, moves[0].io).0, moves[1..]))
  }

  lemma {:induction false} NeverBroken<C>(k: Rules<C>, s: State<C>, moves: seq<Move<C>>)
    requires s.core.log != [] && AllWork(k, s, moves)
    ensures !Broken(k, s, moves, false)
    decreases |moves|
  {
    if moves != [] {
      LogGrows(k, s.core, Meaning(k, s, moves[0].event), moves[0].io);
      NeverBroken(k, Step(k, s, moves[0].event, moves[0].io).0, moves[1..]);
    }
  }

  /** So while the engine works and failed applies recover, live never leaves effective. */
  lemma LiveStaysEffective<C(!new)>(k: Rules<C>, s: State<C>, moves: seq<Move<C>>)
    requires Lawful(k) && Inv(k, s) && s.core.live == Running(Effective(s.core))
    requires NeverDiverges(k, s, moves) && AllWork(k, s, moves)
    ensures Run(k, s, moves).core.live == Running(Effective(Run(k, s, moves).core))
  {
    LiveIsEffective(k, s, moves);
    NeverBroken(k, s, moves);
  }

  /** Whatever happened before, one reconciliation the engine completes brings live back. */
  lemma {:induction false} ReconcileRecovers<C(!new)>(k: Rules<C>, s: State<C>, moves: seq<Move<C>>, io: Io)
    requires Lawful(k) && Inv(k, s) && io.engine
    ensures var t := Run(k, s, moves);
      Step(k, t, Tick, io).0 == t.(core := t.core.(live := Running(Effective(t.core))))
    decreases |moves|
  {
    if moves != [] {
      StepKeepsInv(k, s, moves[0].event, moves[0].io);
      ReconcileRecovers(k, Step(k, s, moves[0].event, moves[0].io).0, moves[1..], io);
    } else {
      EffectiveFit(k, s.core);
    }
  }

  /** A reconciliation completes, and then every attempt works and no file write parts live from effective. */
  ghost predicate WorksFrom<C>(k: Rules<C>, s: State<C>, io: Io, rest: seq<Move<C>>) {
    io.engine && s.core.log != [] &&
    (LogGrows(k, s.core, Reconcile, io);
     var t := Step(k, s, Tick, io).0;
     NeverDiverges(k, t, rest) && AllWork(k, t, rest))
  }

  ghost predicate EffectiveAfter<C>(k: Rules<C>, s: State<C>, moves: seq<Move<C>>)
    requires s.core.log != []
  {
    var t := Run(k, s, moves).core;
    t.live == Running(Effective(t))
  }

  /** Whatever state it starts in, such a run ends with live effective. */
  lemma EffectiveOnceReconciled<C(!new)>(k: Rules<C>, s: State<C>, io: Io, rest: seq<Move<C>>)
    requires Lawful(k) && Inv(k, s) && WorksFrom(k, s, io, rest)
    ensures EffectiveAfter(k, s, [Move(Tick, io)] + rest)
  {
    ReconcileRecovers(k, s, [], io);
    StepKeepsInv(k, s, Tick, io);
    LiveStaysEffective(k, Step(k, s, Tick, io).0, rest);
    assert ([Move(Tick, io)] + rest)[1..] == rest;
  }

  // ---- windows ----

  predicate Written(io: Io) { io.revWritten && io.activeWritten }

  /** An immediate apply of the window's own transaction whose revision is written and whose active file is not. */
  predicate CommitsOpen<C(==)>(k: Rules<C>, s: Core<C>, a: Action<C>, io: Io)
    requires s.log != []
  {
    && s.pend.Some? && a.Apply? && a.txnID == s.pend.value.txnID && !a.order.confirm
    && io.engine && io.revWritten && !io.activeWritten
    && k.valid(k.defaults(a.order.cfg)) && k.builds(k.defaults(a.order.cfg)) && k.defaults(a.order.cfg) != Head(s.log)
  }

  /** A step that leaves a window open commits exactly then. */
  lemma OpenCommits<C>(k: Rules<C>, s: Core<C>, a: Action<C>, io: Io)
    requires s.log != [] && Act(k, s, a, io).0.pend.Some?
    ensures Act(k, s, a, io).0.log != s.log <==> CommitsOpen(k, s, a, io)
    ensures s.log <= Act(k, s, a, io).0.log
  {}

  /** A window is replaced only by an apply in the same transaction; a plain request counts as transaction "". */
  lemma OnlyOwnTransactionSupersedes<C>(k: Rules<C>, s: Core<C>, a: Action<C>, io: Io)
    requires s.log != [] && s.pend.Some? && Act(k, s, a, io).0.pend.Some? && Act(k, s, a, io).0.pend != s.pend
    ensures a.Apply? && a.txnID == s.pend.value.txnID && a.order.confirm && io.engine
    ensures Act(k, s, a, io).0.pend.value == Window(k.defaults(a.order.cfg), a.order.token, s.pend.value.txnID)
  {}

  /** A window is open after each move. */
  ghost predicate StaysOpen<C>(k: Rules<C>, s: State<C>, moves: seq<Move<C>>)
    requires s.core.log != []
    decreases |moves|
  {
    moves == [] ||
    (LogGrows(k, s.core, Meaning(k, s, moves[0].event), moves[0].io);
     var t := Step(k, s, moves[0].event, moves[0].io).0;
     t.core.pend.Some? && StaysOpen(k, t, moves[1..]))
  }

  /** Some move commits although its window stays open. */
  ghost predicate LeaksCommit<C>(k: Rules<C>, s: State<C>, moves: seq<Move<C>>)
    requires s.core.log != []
    decreases |moves|
  {
    moves != [] &&
    (LogGrows(k, s.core, Meaning(k, s, moves[0].event), moves[0].io);
     || CommitsOpen(k, s.core, Meaning(k, s, moves[0].event), moves[0].io)
     || LeaksCommit(k, Step(k, s, moves[0].event, moves[0].io).0, moves[1..]))
  }

  /** However often a window is superseded, it keeps its transaction, and commits nothing but by such a leak. */
  lemma {:induction false} WindowHoldsStill<C(!new)>(k: Rules<C>, s: State<C>, moves: seq<Move<C>>)
    requires Lawful(k) && Inv(k, s) && StaysOpen(k, s, moves)
    ensures Inv(k, Run(k, s, moves)) && (Run(k, s, moves).core.log == s.core.log <==> !LeaksCommit(k, s, moves))
    ensures s.core.pend.Some? ==>
      Run(k, s, moves).core.pend.Some? && Run(k, s, moves).core.pend.value.txnID == s.core.pend.value.txnID
    decreases |moves|
  {
    if moves != [] {
      var m := moves[0];
      StepKeepsInv(k, s, m.event, m.io);
      var a := Meaning(k, s, m.event);
      OpenCommits(k, s.core, a, m.io);
      if s.core.pend.Some? && Act(k, s.core, a, m.io).0.pend != s.core.pend {
        OnlyOwnTransactionSupersedes(k, s.core, a, m.io);
      }
      var t := Step(k, s, m.event, m.io).0;
      WindowHoldsStill(k, t, moves[1..]);
      assert s.core.log <= t.core.log <= Run(k, t, moves[1..]).core.log;
    }
  }

  /** The events that abandon an open window. */
  predicate Abandons<C>(s: State<C>, e: Event<C>) {
    || e.WindowExpires?
    || e.RollbackNow?
    || (e.TxnRollback? && e.id in s.txns && s.core.pend.Some? && s.core.pend.value.txnID == e.id)
  }

  /**
    An unconfirmed window leaves no trace: abandoning it returns live to what was committed before
    it opened, exactly if no commit leaked out of it.
   */
  lemma WindowLeavesNoTrace<C(!new)>(k: Rules<C>, s: State<C>, moves: seq<Move<C>>, last: Move<C>)
    requires Lawful(k) && Inv(k, s) && s.core.pend.None? && moves != [] && StaysOpen(k, s, moves)
    requires Abandons(Run(k, s, moves), last.event) && last.io.engine
    ensures var u := Step(k, Run(k, s, moves), last.event, last.io).0.core;
      && u.log != [] && u == Core(u.log, None, Running(Head(u.log)))
      && (u.log == s.core.log <==> !LeaksCommit(k, s, moves))
  {
    WindowHoldsStill(k, s, moves);
    LastOpen(k, s, moves);
    AbandonReturns(k, Run(k, s, moves), last);
  }

  /** Abandoning a window returns live to what is committed. */
  lemma AbandonReturns<C(!new)>(k: Rules<C>, s: State<C>, last: Move<C>)
    requires Inv(k, s) && s.core.pend.Some? && Abandons(s, last.event) && last.io.engine
    ensures Step(k, s, last.event, last.io).0.core == Core(s.core.log, None, Running(Head(s.core.log)))
  {
    assert s.core.log[|s.core.log| - 1] in s.core.log;
  }

  lemma {:induction false} LastOpen<C>(k: Rules<C>, s: State<C>, moves: seq<Move<C>>)
    requires s.core.log != [] && moves != [] && StaysOpen(k, s, moves)
    ensures Run(k, s, moves).core.pend.Some?
    decreases |moves|
  {
    var m := moves[0];
    LogGrows(k, s.core, Meaning(k, s, m.event), m.io);
    var t := Step(k, s, m.event, m.io).0;
    if moves[1..] == [] {
      assert Run(k, t, moves[1..]) == t;
    } else {
      LastOpen(k, t, moves[1..]);
    }
  }

  // ---- what gets committed ----

  /** The engine applied this configuration in full during the move. */
  ghost predicate AppliesInFull<C>(k: Rules<C>, s: State<C>, m: Move<C>, c: C)
    requires s.core.log != []
  {
    var a := Meaning(k, s, m.event);
    && a.Apply? && m.io.engine && c == k.defaults(a.order.cfg) && k.valid(c) && k.builds(c)
    && (s.core.pend.Some? ==> s.core.pend.value.txnID == a.txnID)
  }

  /** Some move of the run did. */
  ghost predicate AppliedDuring<C>(k: Rules<C>, s: State<C>, moves: seq<Move<C>>, c: C)
    requires s.core.log != []
    decreases |moves|
  {
    moves != [] &&
    (LogGrows(k, s.core, Meaning(k, s, moves[0].event), moves[0].io);
     AppliesInFull(k, s, moves[0], c) || AppliedDuring(k, Step(k, s, moves[0].event, moves[0].io).0, moves[1..], c))
  }

  lemma StepCommits<C>(k: Rules<C>, s: State<C>, m: Move<C>)
    requires s.core.log != []
    ensures var t := Step(k, s, m.event, m.io).0;
      && |t.core.log| <= |s.core.log| + 1
      && (|t.core.log| > |s.core.log| ==>
            AppliesInFull(k, s, m, Head(t.core.log))
              || (s.core.pend.Some? && Head(t.core.log) == s.core.pend.value.cfg))
      && (t.core.pend.Some? && t.core.pend != s.core.pend ==> AppliesInFull(k, s, m, t.core.pend.value.cfg))
  {}

  /** Every configuration a run commits was applied in full earlier in that run, or was in the first window. */
  lemma {:induction false} OnlyAppliedCommits<C>(k: Rules<C>, s: State<C>, moves: seq<Move<C>>, i: nat)
    requires s.core.log != [] && |s.core.log| <= i < |Run(k, s, moves).core.log|
    ensures AppliedDuring(k, s, moves, Run(k, s, moves).core.log[i].config)
      || (s.core.pend.Some? && Run(k, s, moves).core.log[i].config == s.core.pend.value.cfg)
    decreases |moves|
  {
    var m := moves[0];
    StepCommits(k, s, m);
    LogGrows(k, s.core, Meaning(k, s, m.event), m.io);
    var t := Step(k, s, m.event, m.io).0;
    if i >= |t.core.log| { OnlyAppliedCommits(k, t, moves[1..], i); }
  }

  // ---- who may end a window ----

  /** The event confirms the open window: by its token or none, or as its own transaction's commit. */
  predicate Confirms<C>(s: State<C>, e: Event<C>) {
    s.core.pend.Some? &&
    (|| (e.CommitNow? && (e.token == "" || e.token == s.core.pend.value.token))
     || (e.TxnCommit? && e.id in s.txns && s.core.pend.value.txnID == e.id))
  }

  /** The event applies in the window's own transaction. */
  predicate AppliesInOwn<C>(k: Rules<C>, s: State<C>, e: Event<C>)
    requires s.core.log != []
  {
    var a := Meaning(k, s, e);
    s.core.pend.Some? && a.Apply? && a.txnID == s.core.pend.value.txnID
  }

  /** No move of the run confirms, abandons or applies in the window's own transaction. */
  ghost predicate Foreign<C>(k: Rules<C>, s: State<C>, moves: seq<Move<C>>)
    requires s.core.log != []
    decreases |moves|
  {
    moves == [] ||
    (LogGrows(k, s.core, Meaning(k, s, moves[0].event), moves[0].io);
     var e := moves[0].event;
     !Confirms(s, e) && !Abandons(s, e) && !AppliesInOwn(k, s, e)
     && Foreign(k, Step(k, s, e, moves[0].io).0, moves[1..]))
  }

  /** Nothing others do, wrong tokens included, touches an open window or commits anything beside it. */
  lemma {:induction false} WindowUntouched<C>(k: Rules<C>, s: State<C>, moves: seq<Move<C>>)
    requires s.core.log != [] && s.core.pend.Some? && Foreign(k, s, moves)
    ensures Run(k, s, moves).core.pend == s.core.pend && Run(k, s, moves).core.log == s.core.log
    decreases |moves|
  {
    if moves != [] {
      LogGrows(k, s.core, Meaning(k, s, moves[0].event), moves[0].io);
      WindowUntouched(k, Step(k, s, moves[0].event, moves[0].io).0, moves[1..]);
    }
  }

  /** What this move would commit: the window it confirms, or what it applies immediately and in full. */
  function Candidate<C>(k: Rules<C>, s: State<C>, m: Move<C>): Option<C>
    requires s.core.log != []
  {
    var a := Meaning(k, s, m.event);
    if Confirms(s, m.event) then Some(s.core.pend.value.cfg)
    else if a.Apply? && !a.order.confirm && m.io.engine && k.valid(k.defaults(a.order.cfg))
      && k.builds(k.defaults(a.order.cfg))
      && (s.core.pend.Some? ==> AppliesInOwn(k, s, m.event)) then Some(k.defaults(a.order.cfg))
    else None
  }

  /** Exactly when a move commits, and what. */
  lemma StepCandidate<C>(k: Rules<C>, s: State<C>, m: Move<C>)
    requires s.core.log != []
    ensures var t, c := Step(k, s, m.event, m.io).0.core.log, Candidate(k, s, m);
      && s.core.log <= t && |t| <= |s.core.log| + 1
      && (|t| > |s.core.log| <==> c.Some? && m.io.revWritten && c.value != Head(s.core.log))
      && (|t| > |s.core.log| ==> Head(t) == c.value)
  {
    LogGrows(k, s.core, Meaning(k, s, m.event), m.io);
  }

  /** The move of the run that committed entry `i`, found by the run. */
  ghost predicate CommittedBy<C>(k: Rules<C>, s: State<C>, moves: seq<Move<C>>, j: nat, i: nat, c: C)
    requires s.core.log != [] && j < |moves|
  {
    var t := Run(k, s, moves[..j]);
    |t.core.log| == i && Candidate(k, t, moves[j]) == Some(c) && moves[j].io.revWritten
  }

  lemma RunOneFirst<C>(k: Rules<C>, s: State<C>, moves: seq<Move<C>>, j: nat)
    requires s.core.log != [] && 0 < j <= |moves|
    ensures Step(k, s, moves[0].event, moves[0].io).0.core.log != []
    ensures Run(k, s, moves[..j]) == Run(k, Step(k, s, moves[0].event, moves[0].io).0, moves[1..][..j - 1])
  {
    LogGrows(k, s.core, Meaning(k, s, moves[0].event), moves[0].io);
    assert moves[..j][1..] == moves[1..][..j - 1];
  }

  /**
    Every revision of a run was committed by one of its moves: a confirmation of the window then
    open, or an immediate apply that no other transaction's window stood in the way of.
   */
  lemma {:induction false} EveryCommitHasItsMove<C>(k: Rules<C>, s: State<C>, moves: seq<Move<C>>, i: nat)
    returns (j: nat)
    requires s.core.log != [] && |s.core.log| <= i < |Run(k, s, moves).core.log|
    ensures j < |moves| && CommittedBy(k, s, moves, j, i, Run(k, s, moves).core.log[i].config)
    decreases |moves|
  {
    var m := moves[0];
    StepCandidate(k, s, m);
    var t := Step(k, s, m.event, m.io).0;
    if i >= |t.core.log| {
      var h := EveryCommitHasItsMove(k, t, moves[1..], i);
      j := h + 1;
      RunOneFirst(k, s, moves, j);
    } else {
      j := 0;
      assert moves[..0] == [];
    }
  }

  // ---- transactions ----

  /** A stored draft or base is never refused as invalid. */
  lemma DraftsAreAccepted<C(!new)>(k: Rules<C>, s: State<C>, id: string, confirm: bool, author: string, token: string,
                            io: Io)
    requires Lawful(k) && Inv(k, s)
    ensures Step(k, s, TxnApply(id, confirm, token, author), io).1 != Invalid
    ensures Step(k, s, TxnRollback(id, author), io).1 != Invalid
  {}

  /** Another transaction's window is open. */
  predicate Blocked<C>(s: Core<C>, id: string) { s.pend.Some? && s.pend.value.txnID != id }

  /**
    Applying a transaction as it was begun commits its completed configuration, so it commits
    nothing new exactly when that is the head already, or another transaction's window is open.
   */
  lemma UntouchedTransaction<C(!new)>(k: Rules<C>, s: State<C>, id: string, author: string, token: string, io: Io)
    requires Lawful(k) && Inv(k, s) && io.engine && Written(io)
    ensures var c := Effective(s.core);
      var t := Step(k, s, TxnBegin(id), io).0;
      var u := Step(k, t, TxnApply(id, false, token, author), io);
      && (u.0.core.log == s.core.log <==> Blocked(s.core, id) || k.defaults(c) == Head(s.core.log))
      && (!Blocked(s.core, id) ==>
        u.1 == Committed && Head(u.0.core.log) == k.defaults(c) && u.0.core.live == Running(k.defaults(c)))
  {
    EffectiveFit(k, s.core);
  }

  /** The server over a store that was just created. */
  function Seeded<C>(seed: C): State<C> {
    State(Core([Entry(seed, "system", "initial configuration")], None, Dirty), map[])
  }

  /** Beginning a transaction and applying it unedited commits a second revision. */
  ghost predicate CommitsUnedited<C>(k: Rules<C>, seed: C, id: string, author: string, token: string, io: Io) {
    var t := Step(k, Seeded(seed), TxnBegin(id), io).0;
    t.core.log != [] &&
    (var u := Step(k, t, TxnApply(id, false, token, author), io);
     u.1 == Committed && |u.0.core.log| == 2 && Head(u.0.core.log) == k.defaults(seed))
  }

  /** On a fresh store it does so exactly if the seed is not complete. */
  lemma SeedCommitsUnedited<C(!new)>(k: Rules<C>, seed: C, id: string, author: string, token: string, io: Io)
    requires Lawful(k) && Fit(k, seed) && io.engine && Written(io)
    ensures CommitsUnedited(k, seed, id, author, token, io) <==> !Complete(k, seed)
  {
    UntouchedTransaction(k, Seeded(seed), id, author, token, io);
  }

  /** A transaction begun, edited, applied in a window and committed makes its draft the committed configuration. */
  lemma TransactionCommits<C(!new)>(k: Rules<C>, s: State<C>, id: string, c: C, author: string, token: string, io: Io)
    requires Lawful(k) && Inv(k, s) && s.core.pend.None? && Written(io) && io.engine
    requires k.valid(k.defaults(c)) && k.builds(k.defaults(c))
    ensures var t := Run(k, s, TransactionMoves(id, c, author, token, io));
      && t.core.log == Saved(s.core.log, Entry(k.defaults(c), author, "confirmed commit"), true)
      && t.core.pend.None? && t.core.live == Running(k.defaults(c))
      && Head(t.core.log) == k.defaults(c) && id !in t.txns
  {
    var ms := TransactionMoves(id, c, author, token, io);
    var s2 := AfterDraft(k, s, id, c, io);
    RunCons(k, s, ms[0], [ms[1], ms[2], ms[3]]);
    var s1 := Step(k, s, ms[0].event, io).0;
    RunCons(k, s1, ms[1], [ms[2], ms[3]]);
    CommitDraft(k, s2, id, c, author, token, io);
    assert ms == [ms[0]] + [ms[1], ms[2], ms[3]] && [ms[1], ms[2], ms[3]] == [ms[1]] + [ms[2], ms[3]];
  }

  lemma RunCons<C>(k: Rules<C>, s: State<C>, m: Move<C>, rest: seq<Move<C>>)
    requires s.core.log != []
    ensures Step(k, s, m.event, m.io).0.core.log != []
    ensures Run(k, s, [m] + rest) == Run(k, Step(k, s, m.event, m.io).0, rest)
  {
    LogGrows(k, s.core, Meaning(k, s, m.event), m.io);
    assert ([m] + rest)[1..] == rest;
  }

  /** Beginning and editing touch nothing but the draft. */
  lemma AfterDraft<C>(k: Rules<C>, s: State<C>, id: string, c: C, io: Io) returns (t: State<C>)
    requires s.core.log != [] && k.valid(k.defaults(c))
    ensures t == Step(k, Step(k, s, TxnBegin(id), io).0, TxnConfig(id, c), io).0
    ensures t.core == s.core && id in t.txns && t.txns[id].draft == k.defaults(c)
  {
    t := Step(k, Step(k, s, TxnBegin(id), io).0, TxnConfig(id, c), io).0;
  }

  lemma CommitDraft<C(!new)>(k: Rules<C>, s: State<C>, id: string, c: C, author: string, token: string, io: Io)
    requires Lawful(k) && s.core.log != [] && s.core.pend.None? && Written(io) && io.engine
    requires id in s.txns && s.txns[id].draft == k.defaults(c) && k.valid(k.defaults(c)) && k.builds(k.defaults(c))
    ensures var t := Run(k, s, [Move(TxnApply(id, true, token, author), io), Move(TxnCommit(id, author), io)]);
      && t.core == Core(Saved(s.core.log, Entry(k.defaults(c), author, "confirmed commit"), true), None,
        Running(k.defaults(c)))
      && id !in t.txns
  {
    var m, n := Move(TxnApply(id, true, token, author), io), Move(TxnCommit(id, author), io);
    var t := Step(k, s, m.event, io).0;
    assert t.core == Core(s.core.log, Some(Window(k.defaults(c), token, id)), Running(k.defaults(c)));
    RunCons(k, s, m, [n]);
    RunCons(k, t, n, []);
    assert [m, n] == [m] + [n] && [n] == [n] + [];
  }

  function TransactionMoves<C>(id: string, c: C, author: string, token: string, io: Io): (ms: seq<Move<C>>)
    ensures |ms| == 4
  {
    [Move(TxnBegin(id), io), Move(TxnConfig(id, c), io), Move(TxnApply(id, true, token, author), io),
      Move(TxnCommit(id, author), io)]
  }

  // ---- rolling a transaction back ----

  /** Rolling back commits the transaction's completed base over a different head. */
  predicate Overwrites<C(==)>(k: Rules<C>, s: State<C>, id: string, io: Io)
    requires s.core.log != []
  {
    && id in s.txns && s.txns[id].base.Some?
    && (s.core.pend.Some? ==> s.core.pend.value.txnID == "" != id)
    && io.engine && io.revWritten
    && k.defaults(s.txns[id].base.value) != Head(s.core.log)
  }

  /** Exactly when rolling a transaction back changes the committed configuration; it is then the completed base. */
  lemma RollbackOverwritesExactlyWhen<C(!new)>(k: Rules<C>, s: State<C>, id: string, author: string, io: Io)
    requires Lawful(k) && Inv(k, s)
    ensures var t := Step(k, s, TxnRollback(id, author), io).0;
      && t.core.log != []
      && (Head(t.core.log) != Head(s.core.log) <==> Overwrites(k, s, id, io))
      && (Overwrites(k, s, id, io) ==> Head(t.core.log) == k.defaults(s.txns[id].base.value))
  {
    StepKeepsInv(k, s, TxnRollback(id, author), io);
  }

  /** The event applies, begins or ends the transaction; editing its draft does not count. */
  predicate Concerns<C>(e: Event<C>, id: string) {
    match e
    case TxnBegin(x) => x == id
    case TxnApply(x, _, _, _) => x == id
    case TxnCommit(x, _) => x == id
    case TxnRollback(x, _) => x == id
    case _ => false
  }

  /** The base recorded by an apply, accepted or not, outlasts everything others do. */
  lemma {:induction false} BaseIsRemembered<C(!new)>(k: Rules<C>, s: State<C>, moves: seq<Move<C>>, id: string, base: C)
    requires Lawful(k) && Inv(k, s) && id in s.txns && s.txns[id].base == Some(base)
    requires forall i :: 0 <= i < |moves| ==> !Concerns(moves[i].event, id)
    ensures var t := Run(k, s, moves); Inv(k, t) && id in t.txns && t.txns[id].base == Some(base)
    decreases |moves|
  {
    if moves != [] {
      StepKeepsInv(k, s, moves[0].event, moves[0].io);
      assert !Concerns(moves[0].event, id);
      var rest := moves[1..];
      forall i | 0 <= i < |rest| ensures !Concerns(rest[i].event, id) { assert rest[i] == moves[i + 1]; }
      BaseIsRemembered(k, Step(k, s, moves[0].event, moves[0].io).0, rest, id, base);
    }
  }

  /**
    A transaction applied once, whatever the reply, and rolled back after any number of other steps:
    the head changes exactly when no foreign window stands in the way, engine and store work, and
    the head is not the configuration, completed, that was effective before the apply. So whatever
    was committed in between is overwritten unless it is that.
   */
  lemma TransactionRollback<C(!new)>(k: Rules<C>, s: State<C>, first: Move<C>, moves: seq<Move<C>>, author: string,
                              io: Io)
    requires Lawful(k) && Inv(k, s) && first.event.TxnApply? && first.event.id in s.txns
    requires forall i :: 0 <= i < |moves| ==> !Concerns(moves[i].event, first.event.id)
    ensures var id := first.event.id;
      var t := Run(k, s, [first] + moves);
      var u := Step(k, t, TxnRollback(id, author), io).0;
      && u.core.log != []
      && (Head(u.core.log) != Head(t.core.log) <==>
            (t.core.pend.Some? ==> t.core.pend.value.txnID == "" != id) && io.engine && io.revWritten
            && k.defaults(Effective(s.core)) != Head(t.core.log))
      && (Head(u.core.log) != Head(t.core.log) ==> Head(u.core.log) == k.defaults(Effective(s.core)))
  {
    var id := first.event.id;
    StepKeepsInv(k, s, first.event, first.io);
    EffectiveFit(k, s.core);
    assert ([first] + moves)[1..] == moves;
    BaseIsRemembered(k, Step(k, s, first.event, first.io).0, moves, id, Effective(s.core));
    RollbackOverwritesExactlyWhen(k, Run(k, s, [first] + moves), id, author, io);
  }

  /** Rolled back at once, an immediate apply gives back what was effective before exactly if that was complete. */
  lemma TransactionUndone<C(!new)>(k: Rules<C>, s: State<C>, id: string, author: string, token: string, io: Io,
                            again: Io)
    requires Lawful(k) && Inv(k, s) && id in s.txns && Written(again) && again.engine
    requires Step(k, s, TxnApply(id, false, token, author), io).1 == Committed
    ensures var c := Effective(s.core);
      var t := Step(k, s, TxnApply(id, false, token, author), io).0;
      var u := Step(k, t, TxnRollback(id, author), again).0;
      && u.core.pend.None? && u.core.live == Running(k.defaults(c)) && Head(u.core.log) == k.defaults(c)
        && id !in u.txns
      && (Head(u.core.log) == c <==> Complete(k, c))
  {
    EffectiveFit(k, s.core);
    StepKeepsInv(k, s, TxnApply(id, false, token, author), io);
  }

  /**
    A transaction the engine refused still arms its rollback: another's commit made since is
    overwritten exactly if it differs from what was effective at the refused apply, completed.
   */
  lemma RefusedTransactionUndoesOthers<C(!new)>(k: Rules<C>, s: State<C>, id: string, other: Order<C>, author: string,
                                                refused: Io, io: Io)
    requires Lawful(k) && Inv(k, s) && s.core.pend.None? && !refused.engine && Written(io) && io.engine
    requires !other.confirm && Fit(k, k.defaults(other.cfg))
    ensures var s0 := Step(k, s, TxnBegin(id), io).0;
      var t := Step(k, s0, TxnApply(id, false, "", author), refused);
      var u := Step(k, t.0, Put(other), io);
      var v := Step(k, u.0, TxnRollback(id, author), io);
      && t.1 == ApplyFailed && t.0.core.log == s.core.log
      && u.1 == Committed && Head(u.0.core.log) == k.defaults(other.cfg)
      && v.1 == Committed && Head(v.0.core.log) == k.defaults(Effective(s.core))
      && (Head(v.0.core.log) != Head(u.0.core.log) <==> k.defaults(other.cfg) != k.defaults(Effective(s.core)))
  {
    EffectiveFit(k, s.core);
  }

  /** A refused transaction, another's commit, and the rollback that brings back the completed seed. */
  ghost predicate LosesCommit<C>(k: Rules<C>, seed: C, other: C, id: string, author: string, refused: Io, io: Io) {
    var s := Step(k, Seeded(seed), TxnBegin(id), io).0;
    s.core.log != [] &&
    (var t := Step(k, s, TxnApply(id, false, "", author), refused);
     t.0.core.log != [] &&
     (var u := Step(k, t.0, Put(Order(other, false, "", author, "")), io);
      u.0.core.log != [] &&
      (var v := Step(k, u.0, TxnRollback(id, author), io);
       && t.1 == ApplyFailed && u.1 == Committed && v.1 == Committed && v.0.core.log != []
       && Head(u.0.core.log) == k.defaults(other) && Head(v.0.core.log) == k.defaults(seed) != k.defaults(other))))
  }

  lemma SeedLosesCommit<C(!new)>(k: Rules<C>, seed: C, other: C, id: string, author: string, refused: Io, io: Io)
    requires Lawful(k) && Fit(k, seed) && Fit(k, k.defaults(other)) && !refused.engine && io.engine && Written(io)
    ensures LosesCommit(k, seed, other, id, author, refused, io) <==> k.defaults(other) != k.defaults(seed)
  {
    RefusedTransactionUndoesOthers(k, Seeded(seed), id, Order(other, false, "", author, ""), author, refused, io);
  }

  /** Asking for a rollback with no window open does roll back, and then crashes the handler. */
  lemma RollbackWithoutWindow<C>(k: Rules<C>, s: State<C>, io: Io)
    requires Inv(k, s)
    ensures Step(k, s, RollbackNow, io).1 == Crashed <==> s.core.pend.None? && io.engine
  {
    assert s.core.log[|s.core.log| - 1] in s.core.log;
  }
}
