/**
 What holds in every interleaved run of a session, and the runs that break
 what does not.
 */
module SessionSafety {
  import opened Options
  import opened SessionState
  import opened SessionHandlers
  import opened SessionInterleaving
  import opened SessionLog

  // ------------------------------------------- the record, over every run

  // The handlers a step brings into play.
  ghost predicate StepBrings(s: Step, allowed: Handler -> bool) {
    match s
    case OpenRequest(_, h) => allowed(h)
    case OpenTurn(_, h) => allowed(h)
    case _ => true
  }

  ghost predicate OnlyHandlers(w: World, allowed: Handler -> bool) {
    && (forall id | id in w.requests :: allowed(w.requests[id].handler))
    && (forall p | p in w.turns && w.turns[p].txn.Some? :: allowed(w.turns[p].txn.value.handler))
    && (forall c | c in w.history :: allowed(c.handler))
  }

  lemma SettleKeepsHandlers(w: World, t: Txn, allowed: Handler -> bool)
    requires OnlyHandlers(w, allowed) && allowed(t.handler)
    ensures OnlyHandlers(Settle(w, t), allowed)
    ensures Settle(w, t).requests == w.requests && Settle(w, t).turns == w.turns
  {
  }

  lemma NextKeepsHandlers(w: World, s: Step, allowed: Handler -> bool)
    requires OnlyHandlers(w, allowed) && StepBrings(s, allowed)
    ensures OnlyHandlers(Next(w, s), allowed)
  {
    hide Settle, Verdicts, IsRequest, ReadsArchived, BelongsTo;
    match s
    case CloseRequest(id) =>
      if id in w.requests { SettleKeepsHandlers(w, w.requests[id], allowed); }
    case CloseTurn(p) =>
      if p in w.turns && w.turns[p].txn.Some? { SettleKeepsHandlers(w, w.turns[p].txn.value, allowed); }
    case _ =>
  }

  lemma {:induction false} RunKeepsHandlers(steps: seq<Step>, allowed: Handler -> bool)
    requires forall s | s in steps :: StepBrings(s, allowed)
    ensures OnlyHandlers(Run(steps), allowed)
  {
    if steps != [] {
      RunKeepsHandlers(steps[..|steps| - 1], allowed);
      NextKeepsHandlers(Run(steps[..|steps| - 1]), steps[|steps| - 1], allowed);
    }
  }

  lemma {:induction false} SerialIsRecorded(history: seq<Commit>)
    requires forall c | c in history :: FollowsProtocol(c.handler)
    ensures Recorded(Serial(history)) && WaitsIdle(Serial(history))
  {
    if history == [] {
      CreatedIsRecorded();
    } else {
      var before, last := history[..|history| - 1], history[|history| - 1];
      assert last in history;
      SerialIsRecorded(before);
      if Apply(Serial(before), last.handler).Done? {
        ApplyKeepsRecorded(Serial(before), last.handler);
        ApplyKeepsWaitsIdle(Serial(before), last.handler);
      }
    }
  }

  // With clients and executor that keep to their event types, in every run of
  // any number of processes: the stored status and retry counter are what a
  // replay of the log gives, and two status_running events are separated by
  // an event that names another status.
  lemma EveryRunIsRecorded(steps: seq<Step>)
    requires forall s | s in steps :: StepBrings(s, (h: Handler) => FollowsProtocol(h))
    ensures var db := Run(steps).db;
      && db.status == StatusAfter(Idle, Types(db.log))
      && db.attempt == FailuresAfter(0, Types(db.log))
      && forall i, j | 0 <= i < j < |db.log| && db.log[i].typ == db.log[j].typ == SessionStatus(Running, InProgress) ::
           exists k | i < k < j :: Named(db.log[k].typ).Some? && Named(db.log[k].typ) != Some(Running)
  {
    var w := Run(steps);
    RunKeepsHandlers(steps, (h: Handler) => FollowsProtocol(h));
    EveryRunIsSerial(steps);
    SerialIsRecorded(w.history);
    forall i, j | 0 <= i < j < |w.db.log| && w.db.log[i].typ == w.db.log[j].typ == SessionStatus(Running, InProgress)
      ensures exists k | i < k < j :: Named(w.db.log[k].typ).Some? && Named(w.db.log[k].typ) != Some(Running)
    {
      RunningEventsAreSeparated(w.db, i, j);
    }
  }

  lemma {:induction false} SerialAnswersOnce(history: seq<Commit>)
    requires forall c | c in history :: FollowsExecutorProtocol(c.handler)
    ensures WellNumbered(Serial(history)) && AnsweredOnce(Serial(history))
  {
    if history == [] {
      assert Types(Created().log) == [SessionStatus(Idle, EndTurn)];
    } else {
      var before, last := history[..|history| - 1], history[|history| - 1];
      assert last in history;
      SerialAnswersOnce(before);
      if Apply(Serial(before), last.handler).Done? {
        WritesAppend(Serial(before), last.handler);
        ApplyKeepsAnsweredOnce(Serial(before), last.handler);
      }
    }
  }

  // In every run, whatever clients send: each action result answers an earlier
  // event that it fits, and no two in the first HISTORY_LIMIT events the same.
  lemma EveryRunAnswersOnce(steps: seq<Step>)
    requires forall s | s in steps :: StepBrings(s, (h: Handler) => FollowsExecutorProtocol(h))
    ensures AnsweredOnce(Run(steps).db)
  {
    RunKeepsHandlers(steps, (h: Handler) => FollowsExecutorProtocol(h));
    EveryRunIsSerial(steps);
    SerialAnswersOnce(Run(steps).history);
  }

  // -------------------------------------------- output and its running event

  const RUNNING := SessionStatus(Running, InProgress)

  ghost predicate OnlyReportsFrom(log: seq<Event>, n: nat) {
    forall i | n <= i < |log| :: log[i].typ == SessionError(false)
  }

  ghost predicate NoRunningFrom(log: seq<Event>, n: nat) {
    forall i | n <= i < |log| :: log[i].typ != RUNNING
  }

  ghost predicate RunsFrom(log: seq<Event>, n: nat) {
    1 <= n <= |log| && log[n - 1].typ == RUNNING && OnlyReportsFrom(log, n)
  }

  // A running session's log ends in a running event with nothing behind it but
  // reports of missing credentials.
  ghost predicate EndsInRun(s: Session) {
    s.status == Running ==> exists n :: RunsFrom(s.log, n)
  }

  lemma ApplyKeepsEndsInRun(s: Session, h: Handler)
    requires EndsInRun(s) && Apply(s, h).Done?
    ensures EndsInRun(Apply(s, h).session)
  {
    hide SendEffect;
    var s' := Apply(s, h).session;
    if IsRequest(h) {
      RequestsStopOrKeep(s, h);
    } else if h.Start? {
      assert RunsFrom(s'.log, |s.log| + 1);
    } else if h.Context? && s.status == Running {
      var n :| RunsFrom(s.log, n);
      assert forall i | |s.log| <= i < |s'.log| ::
          s'.log[i].typ == MissingCredentialEvents(h.missingCredentials)[i - |s.log|];
      assert RunsFrom(s'.log, n);
    }
  }

  lemma {:induction false} SerialEndsInRun(history: seq<Commit>)
    ensures EndsInRun(Serial(history))
  {
    hide Apply, EndsInRun;
    if history == [] {
      NewSessionEndsInRun();
    } else {
      var before, last := history[..|history| - 1], history[|history| - 1];
      SerialEndsInRun(before);
      if Apply(Serial(before), last.handler).Done? {
        ApplyKeepsEndsInRun(Serial(before), last.handler);
      }
    }
  }

  lemma NewSessionEndsInRun()
    ensures EndsInRun(Created())
  {
  }

  // Every turn past its first transaction has its own running event in the log.
  ghost predicate HasStart(w: World, p: nat)
    requires p in w.turns
  {
    !w.turns[p].stage.Starting? ==>
      1 <= w.turns[p].start <= |w.db.log| && w.db.log[w.turns[p].start - 1].typ == RUNNING
  }

  ghost predicate HaveStarts(w: World) {
    forall p | p in w.turns :: HasStart(w, p)
  }

  lemma CloseTurnKeepsStart(w: World, p: nat)
    requires Valid(w) && p in w.turns && w.turns[p].txn.Some? && HasStart(w, p)
    ensures p in Next(w, CloseTurn(p)).turns ==> HasStart(Next(w, CloseTurn(p)), p)
  {
    hide Flush, Settle, Verdicts, Valid;
    var t := w.turns[p].txn.value;
    NextKeepsValid(w, CloseTurn(p));
    ValidTxn(w, p);
    SettleIsAtomic(w, t);
  }

  // A turn that a step leaves as it is keeps its start, as the log only grows.
  lemma SameTurnKeepsStart(w: World, w': World, p: nat)
    requires p in w.turns && HasStart(w, p) && w.db.log <= w'.db.log
    requires p in w'.turns && w'.turns[p].stage.Starting? == w.turns[p].stage.Starting?
    requires w'.turns[p].start == w.turns[p].start
    ensures HasStart(w', p)
  {
  }

  // What a step does to the turns, but for the closing of one.
  lemma OtherStepsKeepTurns(w: World, s: Step, p: nat)
    requires p in Next(w, s).turns && (s.CloseTurn? ==> s.process != p)
    ensures if p in w.turns then
        var turn, turn' := w.turns[p], Next(w, s).turns[p];
        turn'.start == turn.start && turn'.stage.Starting? == turn.stage.Starting?
      else Next(w, s).turns[p].stage.Starting?
  {
    hide Flush, Apply, Verdicts;
  }

  lemma NextKeepsStarts(w: World, s: Step)
    requires Valid(w) && HaveStarts(w)
    ensures HaveStarts(Next(w, s))
  {
    hide Next, Valid, HasStart;
    NextKeepsValid(w, s);
    var w' := Next(w, s);
    forall p | p in w'.turns
      ensures HasStart(w', p)
    {
      StepKeepsStart(w, s, p);
    }
  }

  lemma StepKeepsStart(w: World, s: Step, p: nat)
    requires Valid(w) && HaveStarts(w) && p in Next(w, s).turns && w.db.log <= Next(w, s).db.log
    ensures HasStart(Next(w, s), p)
  {
    hide Valid, Settle, Verdicts, Apply;
    if p in w.turns {
      assert HasStart(w, p);
    }
    if s.CloseTurn? && s.process == p && p in w.turns && w.turns[p].txn.Some? {
      CloseTurnKeepsStart(w, p);
    } else if s.CloseTurn? && s.process == p {
      assert Next(w, s) == w;
    } else {
      OtherStepsKeepTurns(w, s, p);
      hide Next;
      if p in w.turns {
        SameTurnKeepsStart(w, Next(w, s), p);
      }
    }
  }

  lemma {:induction false} EveryTurnHasItsStart(steps: seq<Step>)
    ensures Valid(Run(steps)) && HaveStarts(Run(steps))
  {
    hide Next, Valid, HaveStarts;
    EveryRunIsSerial(steps);
    if steps == [] {
      NoTurnsNoStarts();
    } else {
      EveryTurnHasItsStart(steps[..|steps| - 1]);
      NextKeepsStarts(Run(steps[..|steps| - 1]), steps[|steps| - 1]);
    }
  }

  lemma NoTurnsNoStarts()
    ensures HaveStarts(Initial)
  {
  }

  // In any run of any number of processes a turn writes its output only into a
  // running session, and directly behind its own running event, reports of
  // missing credentials aside, exactly when no other running event has come since.
  lemma OutputFollowsOwnStartIff(steps: seq<Step>, p: nat)
    requires var w := Run(steps);
      && p in w.turns && w.turns[p].stage.Executing?
      && Next(w, CloseTurn(p)).db != w.db
    ensures var w, start := Run(steps), Run(steps).turns[p].start;
      && w.db.status == Running
      && 1 <= start <= |w.db.log|
      && w.db.log[start - 1].typ == RUNNING
      && (OnlyReportsFrom(w.db.log, start) <==> NoRunningFrom(w.db.log, start))
  {
    hide Run, Next, Serial;
    var w := Run(steps);
    EveryTurnHasItsStart(steps);
    assert HasStart(w, p);
    SerialEndsInRun(w.history);
    OutputNeedsRunning(w, p);
    var n :| RunsFrom(w.db.log, n);
  }

  lemma OutputNeedsRunning(w: World, p: nat)
    requires Valid(w) && p in w.turns && w.turns[p].stage.Executing?
    requires Next(w, CloseTurn(p)).db != w.db
    ensures w.db.status == Running
  {
    hide Flush, Settle, Verdicts, Serial;
    assert w.turns[p].txn.Some?;
    SettleIsAtomic(w, w.turns[p].txn.value);
  }

  // --------------------------------------------------- one process, one turn

  ghost predicate ByProcessZero(s: Step) {
    match s
    case Acquire(p) => p == 0
    case OpenTurn(p, _) => p == 0
    case CloseTurn(p) => p == 0
    case Raise(p, _) => p == 0
    case Crash(p) => p == 0
    case _ => true
  }

  predicate InFlight(w: World) {
    0 in w.turns && !w.turns[0].stage.Starting?
  }

  // While the session runs, a turn of process 0 past its first transaction owns
  // the last running event.
  ghost predicate OwnStart(w: World) {
    InFlight(w) && w.db.status == Running ==> NoRunningFrom(w.db.log, w.turns[0].start)
  }

  // Three failures end the session, and nothing is then in flight.
  ghost predicate RetriesBounded(w: World) {
    || w.db.attempt < MAX_TRANSIENT_RETRY_ATTEMPTS
    || (w.db.attempt == MAX_TRANSIENT_RETRY_ATTEMPTS && w.db.status == Terminated && !InFlight(w))
  }

  ghost predicate OneProcess(w: World) {
    && (forall p | p in w.turns :: p == 0)
    && OwnStart(w)
    && RetriesBounded(w)
  }

  // No request sets a session running, revives it or touches its retry counter.
  lemma RequestsStopOrKeep(s: Session, h: Handler)
    requires IsRequest(h) && Apply(s, h).Done?
    ensures var s' := Apply(s, h).session;
      && (s'.status == Running ==> s' == s)
      && (s.status == Terminated ==> s'.status == Terminated)
      && s'.attempt == s.attempt
  {
    if h.Send? && s.status == Running {
      assert h.batch == [UserInterrupt];
    }
  }

  lemma RequestKeepsOneProcess(w: World, id: nat)
    requires Valid(w) && OneProcess(w) && id in w.requests
    ensures OneProcess(Settle(w, w.requests[id]))
  {
    hide Flush, Settle, Verdicts, Apply, Serial;
    var t := w.requests[id];
    SettleIsAtomic(w, t);
    if Settle(w, t).db != w.db {
      RequestsStopOrKeep(w.db, t.handler);
      WritesAppend(w.db, t.handler);
    }
  }

  lemma StartKeepsOneProcess(w: World)
    requires Valid(w) && OneProcess(w)
    requires 0 in w.turns && w.turns[0].txn.Some? && w.turns[0].stage.Starting?
    ensures OneProcess(Next(w, CloseTurn(0)))
  {
    hide Flush;
    SettleIsAtomic(w, w.turns[0].txn.value);
    WritesAppend(w.db, Start);
  }

  lemma ContextKeepsOneProcess(w: World)
    requires Valid(w) && OneProcess(w)
    requires 0 in w.turns && w.turns[0].txn.Some? && w.turns[0].stage.Preparing?
    ensures OneProcess(Next(w, CloseTurn(0)))
  {
    hide Flush;
    var t := w.turns[0].txn.value;
    SettleIsAtomic(w, t);
    var w' := Next(w, CloseTurn(0));
    if w'.db != w.db {
      var missing := t.handler.missingCredentials;
      assert w'.db == Append(w.db, MissingCredentialEvents(missing));
      assert forall i | |w.db.log| <= i < |w'.db.log| ::
          w'.db.log[i].typ == MissingCredentialEvents(missing)[i - |w.db.log|];
    }
  }

  lemma EndKeepsOneProcess(w: World)
    requires Valid(w) && OneProcess(w)
    requires 0 in w.turns && w.turns[0].txn.Some?
    requires w.turns[0].stage.Executing? || w.turns[0].stage.Failing?
    ensures OneProcess(Next(w, CloseTurn(0)))
  {
    hide Flush;
    SettleIsAtomic(w, w.turns[0].txn.value);
  }

  lemma NextKeepsOneProcess(w: World, s: Step)
    requires Valid(w) && OneProcess(w) && ByProcessZero(s)
    ensures OneProcess(Next(w, s))
  {
    hide Valid, Flush, Apply, Verdicts;
    match s
    case CloseRequest(id) =>
      if id in w.requests {
        RequestKeepsOneProcess(w, id);
      }
    case CloseTurn(_) =>
      if 0 in w.turns && w.turns[0].txn.Some? {
        match w.turns[0].stage
        case Starting => StartKeepsOneProcess(w);
        case Preparing => ContextKeepsOneProcess(w);
        case _ => EndKeepsOneProcess(w);
      }
    case _ =>
  }

  lemma {:induction false} OneProcessRun(steps: seq<Step>)
    requires forall s | s in steps :: ByProcessZero(s)
    ensures Valid(Run(steps)) && OneProcess(Run(steps))
  {
    EveryRunIsSerial(steps);
    if steps != [] {
      OneProcessRun(steps[..|steps| - 1]);
      NextKeepsOneProcess(Run(steps[..|steps| - 1]), steps[|steps| - 1]);
    }
  }

  // A turn of the only process writes its output directly behind its own
  // running event, its reports of missing credentials aside: no interrupt, no
  // cancel and no other turn has come between.
  lemma OutputFollowsOwnStart(steps: seq<Step>)
    requires forall s | s in steps :: ByProcessZero(s)
    requires var w := Run(steps);
      && 0 in w.turns && w.turns[0].stage.Executing?
      && Next(w, CloseTurn(0)).db != w.db
    ensures var w, start := Run(steps), Run(steps).turns[0].start;
      && w.db.status == Running
      && 1 <= start <= |w.db.log|
      && w.db.log[start - 1].typ == RUNNING
      && OnlyReportsFrom(w.db.log, start)
  {
    hide Run, Next, Valid, OnlyReportsFrom, NoRunningFrom;
    OneProcessRun(steps);
    OutputFollowsOwnStartIff(steps, 0);
  }

  predicate EndedByFailures(s: Session) {
    s.attempt >= MAX_TRANSIENT_RETRY_ATTEMPTS ==> s.status == Terminated
  }

  lemma ApplyKeepsEndedByFailures(s: Session, h: Handler)
    requires EndedByFailures(s) && Apply(s, h).Done?
    ensures EndedByFailures(Apply(s, h).session)
  {
    hide BatchError, Releases, OutputTypes, FinishStop;
    if IsRequest(h) {
      RequestsStopOrKeep(s, h);
    }
  }

  lemma {:induction false} SerialEndedByFailures(history: seq<Commit>)
    ensures EndedByFailures(Serial(history))
  {
    hide Apply;
    if history != [] {
      var before, last := history[..|history| - 1], history[|history| - 1];
      SerialEndedByFailures(before);
      if Apply(Serial(before), last.handler).Done? {
        ApplyKeepsEndedByFailures(Serial(before), last.handler);
      }
    }
  }

  // In any number of processes the third transient failure since the last turn
  // that ended by itself terminates the session, and it stays so while the
  // counter stands.
  lemma ThirdFailureTerminates(steps: seq<Step>)
    ensures Run(steps).db.attempt >= 3 ==> Run(steps).db.status == Terminated
  {
    hide Run, Serial;
    EveryRunIsSerial(steps);
    SerialEndedByFailures(Run(steps).history);
  }

  // In one process there are never more than three of them.
  lemma RetriesAreBounded(steps: seq<Step>)
    requires forall s | s in steps :: ByProcessZero(s)
    ensures Run(steps).db.attempt <= 3
  {
    OneProcessRun(steps);
  }

  // -------------------------------------------------------------- termination

  ghost predicate NothingInFlight(w: World) {
    forall p | p in w.turns :: w.turns[p].stage.Starting?
  }

  lemma NextKeepsTerminated(w: World, s: Step)
    requires Valid(w) && w.db.status == Terminated && NothingInFlight(w)
    ensures Next(w, s).db.status == Terminated && NothingInFlight(Next(w, s))
  {
    match Closing(w, s)
    case Some(t) =>
      SettleIsAtomic(w, t);
      if IsRequest(t.handler) && Settle(w, t).db != w.db {
        RequestsStopOrKeep(w.db, t.handler);
      }
    case None =>
  }

  // A terminated session with no turn in flight stays terminated, whatever
  // follows in however many processes.
  lemma {:induction false} TerminatedForEver(w: World, steps: seq<Step>)
    requires Valid(w) && w.db.status == Terminated && NothingInFlight(w)
    ensures RunFrom(w, steps).db.status == Terminated
    ensures Valid(RunFrom(w, steps)) && NothingInFlight(RunFrom(w, steps))
  {
    if steps != [] {
      TerminatedForEver(w, steps[..|steps| - 1]);
      NextKeepsValid(RunFrom(w, steps[..|steps| - 1]), steps[|steps| - 1]);
      NextKeepsTerminated(RunFrom(w, steps[..|steps| - 1]), steps[|steps| - 1]);
    }
  }

  // The one step that revives a terminated session: the failure handler of a
  // turn still in flight, which does not look at the status, records a
  // transient failure short of the limit.
  ghost predicate Revives(w: World, s: Step) {
    && s.CloseTurn?
    && s.process in w.turns
    && w.turns[s.process].txn.Some?
    && w.turns[s.process].txn.value.handler == Fail(true)
    && w.turns[s.process].txn.value.snap.lastSeq == w.db.lastSeq
    && w.db.attempt + 1 < MAX_TRANSIENT_RETRY_ATTEMPTS
  }

  lemma TerminatedIsRevivedIff(w: World, s: Step)
    requires Valid(w) && w.db.status == Terminated
    ensures Next(w, s).db.status != Terminated <==> Revives(w, s)
  {
    hide Valid, Settle, Verdicts, Flush, Apply;
    match s
    case CloseRequest(id) =>
      if id in w.requests {
        RequestIsValid(w, id);
        RequestLeavesTerminated(w, w.requests[id]);
      }
    case CloseTurn(p) =>
      if p in w.turns && w.turns[p].txn.Some? {
        ValidTxn(w, p);
        TurnRevivesIff(w, w.turns[p].txn.value);
      }
    case _ =>
  }

  lemma RequestIsValid(w: World, id: nat)
    requires Valid(w) && id in w.requests
    ensures WellNumbered(w.db) && TxnValid(w.db, w.requests[id]) && IsRequest(w.requests[id].handler)
  {
  }

  lemma RequestLeavesTerminated(w: World, t: Txn)
    requires WellNumbered(w.db) && TxnValid(w.db, t) && IsRequest(t.handler) && w.db.status == Terminated
    ensures Settle(w, t).db.status == Terminated
  {
    hide Flush, Settle, Verdicts;
    SettleIsAtomic(w, t);
    if Settle(w, t).db != w.db {
      RequestsStopOrKeep(w.db, t.handler);
    }
  }

  lemma TurnRevivesIff(w: World, t: Txn)
    requires WellNumbered(w.db) && TxnValid(w.db, t) && w.db.status == Terminated
    requires t.handler.Start? || t.handler.Context? || t.handler.Finish? || t.handler.Fail?
    ensures Settle(w, t).db.status != Terminated <==>
      t.handler == Fail(true) && t.snap.lastSeq == w.db.lastSeq && w.db.attempt + 1 < MAX_TRANSIENT_RETRY_ATTEMPTS
  {
    hide Flush, Settle, Verdicts;
    SettleIsAtomic(w, t);
    WritesAppend(t.snap, t.handler);
  }

  // A turn whose last transaction is open goes on to the failure handler exactly
  // when it read a running session and something has been appended since.
  lemma FinishLosesIff(w: World, p: nat)
    requires Valid(w) && p in w.turns && w.turns[p].txn.Some? && w.turns[p].stage.Executing?
    ensures var t := w.turns[p].txn.value;
      p in Next(w, CloseTurn(p)).turns <==>
        t.snap.status == Running && !IsWaitingForAction(t.snap.stop) && t.snap.lastSeq != w.db.lastSeq
  {
    hide Flush, Settle, Verdicts, Valid;
    ValidTxn(w, p);
    SettleIsAtomic(w, w.turns[p].txn.value);
    WritesAppend(w.turns[p].txn.value.snap, w.turns[p].txn.value.handler);
  }

  // A turn that loses the race for its last transaction fails for good: the
  // integrity error is not a transient one, so the session is terminated
  // unless somebody wins the next race as well.
  lemma LostRaceIsFatal(w: World, p: nat)
    requires Valid(w) && p in w.turns && w.turns[p].txn.Some?
    requires w.turns[p].stage.Executing?
    requires w.turns[p].txn.value.snap.status == Running && !IsWaitingForAction(w.turns[p].txn.value.snap.stop)
    requires w.turns[p].txn.value.snap.lastSeq < w.db.lastSeq
    ensures var w' := RunFrom(w, [CloseTurn(p), OpenTurn(p, Fail(false)), CloseTurn(p)]);
      && RunFrom(w, [CloseTurn(p)]).db == w.db
      && w'.db.status == Terminated && w'.db.stop == FatalError
      && p !in w'.turns
  {
    hide Next, Valid, RunFrom;
    LoserGoesToFailing(w, p);
    var w1 := Next(w, CloseTurn(p));
    FailFatally(w1, p);
    RunOne(w, CloseTurn(p));
    RunTwo(w1, OpenTurn(p, Fail(false)), CloseTurn(p));
    RunFromBoth(w, [CloseTurn(p)], [OpenTurn(p, Fail(false)), CloseTurn(p)]);
    assert [CloseTurn(p), OpenTurn(p, Fail(false)), CloseTurn(p)]
        == [CloseTurn(p)] + [OpenTurn(p, Fail(false)), CloseTurn(p)];
  }

  lemma LoserGoesToFailing(w: World, p: nat)
    requires Valid(w) && p in w.turns && w.turns[p].txn.Some? && w.turns[p].stage.Executing?
    requires w.turns[p].txn.value.snap.status == Running && !IsWaitingForAction(w.turns[p].txn.value.snap.stop)
    requires w.turns[p].txn.value.snap.lastSeq < w.db.lastSeq
    ensures Valid(Next(w, CloseTurn(p)))
    ensures Next(w, CloseTurn(p)) == w.(turns := w.turns[p := Turn(Failing(false), w.turns[p].start, None)])
  {
    hide Flush, Settle, Verdicts, Valid;
    NextKeepsValid(w, CloseTurn(p));
    ValidTxn(w, p);
    SettleOfLoser(w, w.turns[p].txn.value);
  }

  lemma FailFatally(w: World, p: nat)
    requires Valid(w) && p in w.turns && w.turns[p].txn.None? && w.turns[p].stage == Failing(false)
    ensures var w' := Next(Next(w, OpenTurn(p, Fail(false))), CloseTurn(p));
      w'.db.status == Terminated && w'.db.stop == FatalError && p !in w'.turns
  {
    hide Next, Valid;
    TurnTxn(w, p, Fail(false));
  }

  lemma ValidTxn(w: World, p: nat)
    requires Valid(w) && p in w.turns && w.turns[p].txn.Some?
    ensures WellNumbered(w.db) && TxnValid(w.db, w.turns[p].txn.value)
    ensures BelongsTo(w.turns[p].stage, w.turns[p].txn.value.handler)
  {
  }

  lemma SettleOfLoser(w: World, t: Txn)
    requires WellNumbered(w.db) && TxnValid(w.db, t) && t.snap.lastSeq < w.db.lastSeq
    requires t.handler.Finish? && FinishEffect(t.snap, t.handler.result).Done?
    ensures Settle(w, t) == w && Verdicts(w.db, t) == LostRace
  {
    hide Flush;
    SettleIsAtomic(w, t);
    WritesAppend(t.snap, t.handler);
  }

  // ------------------------------------------------------------------ bad runs

  // A step that runs a whole transaction of a turn.
  lemma TurnTxn(w: World, p: nat, h: Handler)
    requires Valid(w) && p in w.turns && w.turns[p].txn.None? && BelongsTo(w.turns[p].stage, h)
    ensures var w' := Next(Next(w, OpenTurn(p, h)), CloseTurn(p));
      && Valid(w')
      && match Apply(w.db, h)
         case Refused(_) => w'.db == w.db && w'.turns == w.turns - {p}
         case Done(s, _) =>
           && w'.db == s
           && w'.turns == AfterTxn(w, p, w.turns[p], Won(s)).turns
  {
    hide Flush, Settle, Verdicts, Apply, Valid;
    NextKeepsValid(w, OpenTurn(p, h));
    var w1 := Next(w, OpenTurn(p, h));
    assert w1 == w.(turns := w.turns[p := w.turns[p].(txn := Some(Txn(h, w.db)))]);
    NextKeepsValid(w1, CloseTurn(p));
    ValidTxn(w1, p);
    WritesAppend(w.db, h);
    SettleIsAtomic(w1, Txn(h, w.db));
    assert w1.turns - {p} == w.turns - {p};
  }

  lemma RequestTxn(w: World, id: nat, h: Handler)
    requires Valid(w) && id !in w.requests && IsRequest(h) && ReadsArchived(w, h) && !h.Archive?
    requires Apply(w.db, h).Done?
    ensures var w' := Next(Next(w, OpenRequest(id, h)), CloseRequest(id));
      && Valid(w') && w'.db == Apply(w.db, h).session && w'.turns == w.turns
      && w'.requests == w.requests && w'.archived == w.archived
  {
    hide Flush;
    NextKeepsValid(w, OpenRequest(id, h));
    var w1 := Next(w, OpenRequest(id, h));
    NextKeepsValid(w1, CloseRequest(id));
    WritesAppend(w.db, h);
    SettleIsAtomic(w1, Txn(h, w.db));
    assert w1.requests - {id} == w.requests;
  }

  lemma {:induction false} RunFromBoth(w: World, first: seq<Step>, second: seq<Step>)
    ensures RunFrom(w, first + second) == RunFrom(RunFrom(w, first), second)
  {
    if second == [] {
      assert first + second == first;
    } else {
      assert (first + second)[..|first + second| - 1] == first + second[..|second| - 1];
      RunFromBoth(w, first, second[..|second| - 1]);
    }
  }

  lemma RunTwo(w: World, a: Step, b: Step)
    ensures RunFrom(w, [a, b]) == Next(Next(w, a), b)
  {
    assert [a, b][..1] == [a];
    RunOne(w, a);
  }

  lemma RunOne(w: World, a: Step)
    ensures RunFrom(w, [a]) == Next(w, a)
  {
    assert [a][..0] == [];
  }

  const StartedSession := Append(Created(), [SessionStatus(Running, InProgress)]).(status := Running, stop := InProgress)

  // A turn of process 0 past its first transaction, on a new session.
  ghost predicate JustStarted(w: World) {
    && Valid(w)
    && w.db == StartedSession
    && w.turns == map[0 := Turn(Preparing, 2, None)]
    && w.requests == map[]
    && !w.archived
  }

  const StartSteps := [Acquire(0), OpenTurn(0, Start), CloseTurn(0)]

  lemma StartOnNewSession()
    ensures JustStarted(Run(StartSteps))
  {
    hide Flush, Settle, Verdicts, RunFrom;
    EveryRunIsSerial([]);
    var w := Next(Initial, Acquire(0));
    NextKeepsValid(Initial, Acquire(0));
    TurnTxn(w, 0, Start);
    RunOne(Initial, Acquire(0));
    RunTwo(w, OpenTurn(0, Start), CloseTurn(0));
    RunFromBoth(Initial, [Acquire(0)], [OpenTurn(0, Start), CloseTurn(0)]);
    assert StartSteps == [Acquire(0)] + [OpenTurn(0, Start), CloseTurn(0)];
    assert w.turns == map[0 := Turn(Starting, 0, None)];
    TurnStepsKeepRest(w, 0, Start);
  }

  lemma TurnStepsKeepRest(w: World, p: nat, h: Handler)
    requires p in w.turns && w.turns[p].txn.None? && BelongsTo(w.turns[p].stage, h)
    ensures var w' := Next(Next(w, OpenTurn(p, h)), CloseTurn(p));
      w'.requests == w.requests && w'.archived == w.archived
  {
    hide Apply, Flush;
  }

  const CancelSteps := [OpenRequest(0, Cancel), CloseRequest(0)]
  const FailSteps := [Raise(0, true), OpenTurn(0, Fail(true)), CloseTurn(0)]

  // A session cancelled under a running turn is rescheduled when that turn
  // fails transiently; one process is enough.
  lemma CancelledSessionComesBack()
    ensures Run(StartSteps + CancelSteps).db.status == Terminated
    ensures Run(StartSteps + CancelSteps).db.stop == Cancelled
    ensures Run(StartSteps + CancelSteps + FailSteps).db.status == Rescheduling
  {
    StartOnNewSession();
    CancelAndFail(Run(StartSteps));
    RunFromBoth(Initial, StartSteps, CancelSteps);
    RunFromBoth(Initial, StartSteps + CancelSteps, FailSteps);
  }

  lemma CancelAndFail(w: World)
    requires JustStarted(w)
    ensures RunFrom(w, CancelSteps).db.status == Terminated && RunFrom(w, CancelSteps).db.stop == Cancelled
    ensures RunFrom(RunFrom(w, CancelSteps), FailSteps).db.status == Rescheduling
  {
    hide Flush, Settle, Verdicts, Valid, RunFrom;
    RequestTxn(w, 0, Cancel);
    RunTwo(w, OpenRequest(0, Cancel), CloseRequest(0));
    var w2 := RunFrom(w, CancelSteps);
    var w3 := Next(w2, Raise(0, true));
    NextKeepsValid(w2, Raise(0, true));
    TurnTxn(w3, 0, Fail(true));
    RunOne(w2, Raise(0, true));
    RunTwo(w3, OpenTurn(0, Fail(true)), CloseTurn(0));
    RunFromBoth(w2, [Raise(0, true)], [OpenTurn(0, Fail(true)), CloseTurn(0)]);
    assert FailSteps == [Raise(0, true)] + [OpenTurn(0, Fail(true)), CloseTurn(0)];
  }

  const LoseSteps := [
    OpenTurn(0, Context(0)), CloseTurn(0), OpenTurn(0, Finish(Answer)),
    OpenRequest(0, Send([UserInterrupt], false, true)), CloseRequest(0)]
  const LostSteps := [CloseTurn(0), OpenTurn(0, Fail(false)), CloseTurn(0)]

  // A user's interrupt that commits while a turn writes its answer ends the
  // session for good, with one process and no failure anywhere.
  lemma AnInterruptEndsASession()
    ensures Run(StartSteps + LoseSteps).db.status == Idle && Run(StartSteps + LoseSteps).db.stop == Interrupted
    ensures Run(StartSteps + LoseSteps + LostSteps).db.status == Terminated
    ensures Run(StartSteps + LoseSteps + LostSteps).db.stop == FatalError
  {
    hide Valid, RunFrom, Next;
    StartOnNewSession();
    var w := Run(StartSteps);
    InterruptDuringFinish(w);
    LostRaceIsFatal(RunFrom(w, LoseSteps), 0);
    RunFromBoth(Initial, StartSteps, LoseSteps);
    RunFromBoth(Initial, StartSteps + LoseSteps, LostSteps);
  }

  lemma InterruptDuringFinish(w: World)
    requires JustStarted(w)
    ensures var w' := RunFrom(w, LoseSteps);
      && Valid(w')
      && w'.db.status == Idle && w'.db.stop == Interrupted && w.db.lastSeq < w'.db.lastSeq
      && w'.turns == map[0 := Turn(Executing, 2, Some(Txn(Finish(Answer), w.db)))]
  {
    hide Flush, Settle, Verdicts, Valid, RunFrom;
    var interrupt := Send([UserInterrupt], false, true);
    TurnTxn(w, 0, Context(0));
    TurnStepsKeepRest(w, 0, Context(0));
    RunTwo(w, OpenTurn(0, Context(0)), CloseTurn(0));
    var w2 := RunFrom(w, [OpenTurn(0, Context(0)), CloseTurn(0)]);
    AppendNothing(w.db);
    assert MissingCredentialEvents(0) == [];
    assert w2.db == w.db;
    var w3 := Next(w2, OpenTurn(0, Finish(Answer)));
    NextKeepsValid(w2, OpenTurn(0, Finish(Answer)));
    assert w3.turns == map[0 := Turn(Executing, 2, Some(Txn(Finish(Answer), w.db)))];
    RequestTxn(w3, 0, interrupt);
    RunTwo(w3, OpenRequest(0, interrupt), CloseRequest(0));
    RunOne(w2, OpenTurn(0, Finish(Answer)));
    RunFromBoth(w2, [OpenTurn(0, Finish(Answer))], [OpenRequest(0, interrupt), CloseRequest(0)]);
    RunFromBoth(w, [OpenTurn(0, Context(0)), CloseTurn(0)],
      [OpenTurn(0, Finish(Answer))] + [OpenRequest(0, interrupt), CloseRequest(0)]);
    assert LoseSteps == [OpenTurn(0, Context(0)), CloseTurn(0)]
      + ([OpenTurn(0, Finish(Answer))] + [OpenRequest(0, interrupt), CloseRequest(0)]);
  }

  const Answer := RunResult([], false, true, false)
  const InterruptSteps := [
    OpenTurn(0, Context(0)), CloseTurn(0),
    OpenRequest(0, Send([UserInterrupt], false, true)), CloseRequest(0)]
  const SecondStartSteps := [Acquire(1), OpenTurn(1, Start), CloseTurn(1)]
  const AnswerSteps := [OpenTurn(0, Finish(Answer)), CloseTurn(0)]

  // With a second process, an interrupted turn still delivers its output, into
  // the turn that the other process has started since.
  lemma TwoProcessesMixTurns()
    ensures Types(Run(StartSteps + InterruptSteps + SecondStartSteps + AnswerSteps).db.log) == [
              SessionStatus(Idle, EndTurn), SessionStatus(Running, InProgress),
              UserInterrupt, SessionStatus(Idle, Interrupted),
              SessionStatus(Running, InProgress),
              AgentMessage, SessionStatus(Idle, EndTurn)]
  {
    hide Valid, RunFrom, Next;
    StartOnNewSession();
    var w3 := Run(StartSteps);
    InterruptTurn(w3);
    var w7 := RunFrom(w3, InterruptSteps);
    StartInSecondProcess(w7);
    AnswerAnyway(RunFrom(w7, SecondStartSteps));
    RunFromBoth(Initial, StartSteps, InterruptSteps);
    RunFromBoth(Initial, StartSteps + InterruptSteps, SecondStartSteps);
    RunFromBoth(Initial, StartSteps + InterruptSteps + SecondStartSteps, AnswerSteps);
    TypesOfAppend(Created(), [SessionStatus(Running, InProgress)]);
    assert Types(Created().log) == [SessionStatus(Idle, EndTurn)];
  }

  lemma InterruptTurn(w: World)
    requires JustStarted(w)
    ensures var w' := RunFrom(w, InterruptSteps);
      && Valid(w')
      && Types(w'.db.log) == Types(w.db.log) + [UserInterrupt, SessionStatus(Idle, Interrupted)]
      && w'.db.status == Idle && w'.db.stop == Interrupted && !w'.db.deleted
      && w'.turns == map[0 := Turn(Executing, 2, None)]
  {
    hide Flush, Settle, Verdicts, Valid, RunFrom;
    var interrupt := Send([UserInterrupt], false, true);
    TurnTxn(w, 0, Context(0));
    TurnStepsKeepRest(w, 0, Context(0));
    RunTwo(w, OpenTurn(0, Context(0)), CloseTurn(0));
    var w2 := RunFrom(w, [OpenTurn(0, Context(0)), CloseTurn(0)]);
    AppendNothing(w.db);
    assert MissingCredentialEvents(0) == [];
    assert w2.db == w.db;
    RequestTxn(w2, 0, interrupt);
    RunTwo(w2, OpenRequest(0, interrupt), CloseRequest(0));
    AppendTwice(w.db, [UserInterrupt], [SessionStatus(Idle, Interrupted)]);
    TypesOfAppend(w.db, [UserInterrupt, SessionStatus(Idle, Interrupted)]);
    RunFromBoth(w, [OpenTurn(0, Context(0)), CloseTurn(0)], [OpenRequest(0, interrupt), CloseRequest(0)]);
    assert InterruptSteps == [OpenTurn(0, Context(0)), CloseTurn(0)] + [OpenRequest(0, interrupt), CloseRequest(0)];
  }

  lemma StartInSecondProcess(w: World)
    requires Valid(w) && w.db.status == Idle && w.db.stop == Interrupted && !w.db.deleted
    requires w.turns == map[0 := Turn(Executing, 2, None)]
    ensures var w' := RunFrom(w, SecondStartSteps);
      && Valid(w')
      && Types(w'.db.log) == Types(w.db.log) + [SessionStatus(Running, InProgress)]
      && w'.db.status == Running && w'.db.stop == InProgress
      && 0 in w'.turns && w'.turns[0] == Turn(Executing, 2, None)
  {
    hide Flush, Settle, Verdicts, Valid, RunFrom;
    var w1 := Next(w, Acquire(1));
    NextKeepsValid(w, Acquire(1));
    TurnTxn(w1, 1, Start);
    TypesOfAppend(w.db, [SessionStatus(Running, InProgress)]);
    RunOne(w, Acquire(1));
    RunTwo(w1, OpenTurn(1, Start), CloseTurn(1));
    RunFromBoth(w, [Acquire(1)], [OpenTurn(1, Start), CloseTurn(1)]);
    assert SecondStartSteps == [Acquire(1)] + [OpenTurn(1, Start), CloseTurn(1)];
  }

  lemma AnswerAnyway(w: World)
    requires Valid(w) && w.db.status == Running && w.db.stop == InProgress
    requires 0 in w.turns && w.turns[0] == Turn(Executing, 2, None)
    ensures Types(RunFrom(w, AnswerSteps).db.log) == Types(w.db.log) + [AgentMessage, SessionStatus(Idle, EndTurn)]
  {
    hide Next, Valid, RunFrom, FinishEffect, Append;
    AnswerEffect(w.db);
    TurnTxn(w, 0, Finish(Answer));
    TypesOfAppend(w.db, [AgentMessage, SessionStatus(Idle, EndTurn)]);
    RunTwo(w, OpenTurn(0, Finish(Answer)), CloseTurn(0));
  }

  lemma AnswerEffect(s: Session)
    requires s.status == Running && s.stop == InProgress
    ensures FinishEffect(s, Answer).Done?
    ensures FinishEffect(s, Answer).session.log == Append(s, [AgentMessage, SessionStatus(Idle, EndTurn)]).log
  {
    assert ToolTypes(Answer.tools) == [];
    assert OutputTypes(Answer) == [AgentMessage];
    assert OutputTypes(Answer) + [SessionStatus(Idle, EndTurn)] == [AgentMessage, SessionStatus(Idle, EndTurn)];
  }

  // ------------------------------------------------- when a failure is recorded

  // A further failure is recorded by exactly one kind of step: the closing of a
  // transient failure handler that read the latest log.
  lemma FailureIsRecordedIff(w: World, s: Step)
    requires Valid(w)
    ensures Next(w, s).db.attempt > w.db.attempt <==>
      && s.CloseTurn? && s.process in w.turns && w.turns[s.process].txn.Some?
      && w.turns[s.process].txn.value.handler == Fail(true)
      && w.turns[s.process].txn.value.snap.lastSeq == w.db.lastSeq
  {
    hide Valid, Settle, Verdicts, Flush, Apply;
    match s
    case CloseRequest(id) =>
      if id in w.requests {
        RequestIsValid(w, id);
        RequestKeepsAttempt(w, w.requests[id]);
      }
    case CloseTurn(p) =>
      if p in w.turns && w.turns[p].txn.Some? {
        ValidTxn(w, p);
        TurnCountsIff(w, w.turns[p].txn.value);
      }
    case _ =>
  }

  lemma RequestKeepsAttempt(w: World, t: Txn)
    requires WellNumbered(w.db) && TxnValid(w.db, t) && IsRequest(t.handler)
    ensures Settle(w, t).db.attempt == w.db.attempt
  {
    hide Flush, Settle, Verdicts, Apply;
    SettleIsAtomic(w, t);
    if Settle(w, t).db != w.db {
      RequestsStopOrKeep(w.db, t.handler);
    }
  }

  lemma TurnCountsIff(w: World, t: Txn)
    requires WellNumbered(w.db) && TxnValid(w.db, t)
    requires t.handler.Start? || t.handler.Context? || t.handler.Finish? || t.handler.Fail?
    ensures Settle(w, t).db.attempt > w.db.attempt <==> t.handler == Fail(true) && t.snap.lastSeq == w.db.lastSeq
  {
    hide Flush, Settle, Verdicts;
    SettleIsAtomic(w, t);
    WritesAppend(t.snap, t.handler);
  }

  // A turn that may still record a transient failure.
  predicate CanFail(w: World, p: nat) {
    && p in w.turns
    && (w.turns[p].stage.Preparing? || w.turns[p].stage.Executing?
        || (w.turns[p].stage == Failing(true)
            && (w.turns[p].txn.Some? ==> w.turns[p].txn.value.snap.lastSeq == w.db.lastSeq)))
  }

  // A session that three failures have ended.
  predicate Spent(s: Session) {
    s.status == Terminated && s.attempt >= MAX_TRANSIENT_RETRY_ATTEMPTS
  }

  ghost predicate NoneCanFail(w: World) {
    forall p | p in w.turns :: !CanFail(w, p)
  }

  // With no turn that can fail, no step makes one, and nothing is recorded.
  lemma StepKeepsNoneCanFail(w: World, s: Step, p: nat)
    requires Valid(w) && Spent(w.db) && NoneCanFail(w)
    ensures !CanFail(Next(w, s), p)
  {
    hide Valid, Settle, Verdicts, Flush, Apply;
    NextKeepsValid(w, s);
    LogLength(w);
    LogLength(Next(w, s));
    if p in w.turns {
      assert !CanFail(w, p);
      if s.CloseTurn? && s.process == p && w.turns[p].txn.Some? {
        ValidTxn(w, p);
        ClosingMakesNone(w, p);
      } else if s.CloseTurn? && s.process in w.turns && w.turns[s.process].txn.Some? {
        ClosingKeepsOthers(w, s.process, p);
      } else if s.CloseRequest? && s.id in w.requests {
        SettleKeepsTurns(w, w.requests[s.id]);
      }
    } else if s.CloseTurn? && s.process in w.turns && w.turns[s.process].txn.Some? {
      ClosingKeepsOthers(w, s.process, p);
    } else if s.CloseRequest? && s.id in w.requests {
      SettleKeepsTurns(w, w.requests[s.id]);
    }
  }

  lemma LogLength(w: World)
    requires Valid(w)
    ensures w.db.lastSeq == |w.db.log|
    ensures forall p | p in w.turns && w.turns[p].txn.Some? :: w.turns[p].txn.value.snap.lastSeq <= w.db.lastSeq
  {
  }

  lemma SettleKeepsTurns(w: World, t: Txn)
    ensures Settle(w, t).turns == w.turns
  {
  }

  lemma ClosingKeepsOthers(w: World, closing: nat, p: nat)
    requires closing in w.turns && w.turns[closing].txn.Some? && p != closing
    ensures var w' := Next(w, CloseTurn(closing));
      (p in w'.turns <==> p in w.turns) && (p in w.turns ==> w'.turns[p] == w.turns[p])
  {
    hide Settle, Verdicts;
    SettleKeepsTurns(w, w.turns[closing].txn.value);
  }

  lemma ClosingMakesNone(w: World, p: nat)
    requires Valid(w) && Spent(w.db) && p in w.turns && w.turns[p].txn.Some? && !CanFail(w, p)
    ensures p !in Next(w, CloseTurn(p)).turns
  {
    hide Flush, Settle, Verdicts, Valid;
    var t := w.turns[p].txn.value;
    ValidTxn(w, p);
    SettleIsAtomic(w, t);
    WritesAppend(t.snap, t.handler);
  }

  lemma StepKeepsSpent(w: World, s: Step)
    requires Valid(w) && Spent(w.db) && NoneCanFail(w)
    ensures Next(w, s).db.attempt == w.db.attempt && Spent(Next(w, s).db)
  {
    hide Valid, Settle, Verdicts, Flush, Apply;
    TerminatedIsRevivedIff(w, s);
    FailureIsRecordedIff(w, s);
    if s.CloseTurn? && s.process in w.turns && w.turns[s.process].txn.Some? {
      assert !CanFail(w, s.process);
      ValidTxn(w, s.process);
      ClosingKeepsAttempt(w, s.process);
    } else if s.CloseRequest? && s.id in w.requests {
      RequestIsValid(w, s.id);
      RequestKeepsAttempt(w, w.requests[s.id]);
    }
  }

  lemma ClosingKeepsAttempt(w: World, p: nat)
    requires Valid(w) && Spent(w.db) && p in w.turns && w.turns[p].txn.Some? && !CanFail(w, p)
    ensures Next(w, CloseTurn(p)).db.attempt == w.db.attempt
  {
    hide Flush, Settle, Verdicts, Valid;
    var t := w.turns[p].txn.value;
    ValidTxn(w, p);
    SettleIsAtomic(w, t);
    WritesAppend(t.snap, t.handler);
  }

  lemma {:induction false} NothingMoreIsRecorded(w: World, steps: seq<Step>)
    requires Valid(w) && Spent(w.db) && NoneCanFail(w)
    ensures RunFrom(w, steps).db.attempt == w.db.attempt
    ensures Valid(RunFrom(w, steps)) && Spent(RunFrom(w, steps).db) && NoneCanFail(RunFrom(w, steps))
  {
    hide Valid, Next, CanFail;
    if steps != [] {
      var before, s := RunFrom(w, steps[..|steps| - 1]), steps[|steps| - 1];
      NothingMoreIsRecorded(w, steps[..|steps| - 1]);
      NextKeepsValid(before, s);
      StepKeepsSpent(before, s);
      forall p | p in Next(before, s).turns
        ensures !CanFail(Next(before, s), p)
      {
        StepKeepsNoneCanFail(before, s, p);
      }
    }
  }

  // The steps by which a turn that can fail does.
  function FailingSteps(w: World, p: nat): seq<Step>
    requires CanFail(w, p)
  {
    if !w.turns[p].stage.Failing? then [Raise(p, true), OpenTurn(p, Fail(true)), CloseTurn(p)]
    else if w.turns[p].txn.None? then [OpenTurn(p, Fail(true)), CloseTurn(p)]
    else [CloseTurn(p)]
  }

  lemma OneThatCanFailDoes(w: World, p: nat)
    requires Valid(w) && CanFail(w, p)
    ensures RunFrom(w, FailingSteps(w, p)).db.attempt == w.db.attempt + 1
  {
    hide Valid, RunFrom, Next;
    if !w.turns[p].stage.Failing? {
      RaiseThenFail(w, p);
    } else if w.turns[p].txn.None? {
      TurnTxn(w, p, Fail(true));
      RunTwo(w, OpenTurn(p, Fail(true)), CloseTurn(p));
    } else {
      CloseFailure(w, p);
      RunOne(w, CloseTurn(p));
    }
  }

  lemma RaiseThenFail(w: World, p: nat)
    requires Valid(w) && p in w.turns && (w.turns[p].stage.Preparing? || w.turns[p].stage.Executing?)
    ensures RunFrom(w, [Raise(p, true), OpenTurn(p, Fail(true)), CloseTurn(p)]).db == FailEffect(w.db, true).session
  {
    hide Valid, RunFrom;
    NextKeepsValid(w, Raise(p, true));
    var w1 := Next(w, Raise(p, true));
    assert w1 == w.(turns := w.turns[p := Turn(Failing(true), w.turns[p].start, None)]);
    hide Next;
    TurnTxn(w1, p, Fail(true));
    RunOne(w, Raise(p, true));
    RunTwo(w1, OpenTurn(p, Fail(true)), CloseTurn(p));
    RunFromBoth(w, [Raise(p, true)], [OpenTurn(p, Fail(true)), CloseTurn(p)]);
    assert [Raise(p, true), OpenTurn(p, Fail(true)), CloseTurn(p)]
        == [Raise(p, true)] + [OpenTurn(p, Fail(true)), CloseTurn(p)];
  }

  lemma CloseFailure(w: World, p: nat)
    requires Valid(w) && p in w.turns && w.turns[p].stage == Failing(true) && w.turns[p].txn.Some?
    requires w.turns[p].txn.value.snap.lastSeq == w.db.lastSeq
    ensures Next(w, CloseTurn(p)).db.attempt == w.db.attempt + 1
  {
    hide Flush, Settle, Verdicts, Valid;
    ValidTxn(w, p);
    SettleIsAtomic(w, w.turns[p].txn.value);
  }

  // Once three failures have ended a session, a further one can be recorded
  // exactly when some turn still in flight, in whatever process, can fail.
  lemma FurtherFailureIff(w: World)
    requires Valid(w) && Spent(w.db)
    ensures (exists steps :: RunFrom(w, steps).db.attempt > w.db.attempt) <==> (exists p :: CanFail(w, p))
  {
    hide Valid, RunFrom, Spent;
    if exists p :: CanFail(w, p) {
      var p :| CanFail(w, p);
      OneThatCanFailDoes(w, p);
    } else {
      forall steps
        ensures RunFrom(w, steps).db.attempt == w.db.attempt
      {
        NothingMoreIsRecorded(w, steps);
      }
    }
  }

  // Two processes start a turn each, the first one's interrupted, and both fail.
  const BothStart := [
    Acquire(0), OpenTurn(0, Start), CloseTurn(0),
    OpenRequest(0, Send([UserInterrupt], false, true)), CloseRequest(0),
    Acquire(1), OpenTurn(1, Start), CloseTurn(1)]
  const BothFail := [
    Raise(0, true), OpenTurn(0, Fail(true)), CloseTurn(0),
    Raise(1, true), OpenTurn(1, Fail(true)), CloseTurn(1)]

  // With two processes a session can record a fourth failure in a row.
  lemma FourFailuresInARow()
    ensures Run(BothStart + BothFail + BothStart + BothFail).db.attempt == 4
    ensures Run(BothStart + BothFail + BothStart + BothFail).db.status == Terminated
  {
    hide Valid, RunFrom, Next, CanStartWork;
    EveryRunIsSerial([]);
    assert Run([]) == Initial by {
      NoSteps(Initial);
    }
    NewSessionCanStart();
    TwoFailures(Initial);
    var w := RunFrom(RunFrom(Initial, BothStart), BothFail);
    TwoFailures(w);
    RunFromBoth(Initial, BothStart, BothFail);
    RunFromBoth(Initial, BothStart + BothFail, BothStart);
    RunFromBoth(Initial, BothStart + BothFail + BothStart, BothFail);
  }

  lemma NoSteps(w: World)
    ensures RunFrom(w, []) == w
  {
  }

  lemma NewSessionCanStart()
    ensures Quiet(Initial) && Initial.db.attempt == 0
  {
  }

  // A world in which a turn can start and nothing is under way.
  ghost predicate Quiet(w: World) {
    && w.turns == map[] && w.requests == map[] && !w.archived
    && CanStartWork(w.db.status, w.db.stop) && !w.db.deleted
  }

  lemma TwoFailures(w: World)
    requires Valid(w) && Quiet(w)
    ensures var w' := RunFrom(RunFrom(w, BothStart), BothFail);
      && Valid(w')
      && w'.db.attempt == w.db.attempt + 2
      && (w.db.attempt == 0 ==> Quiet(w'))
      && (w.db.attempt == 2 ==> w'.db.status == Terminated)
  {
    hide Valid, RunFrom, Next;
    StartBoth(w);
    FailBoth(RunFrom(w, BothStart));
  }

  lemma StartBoth(w: World)
    requires Valid(w) && Quiet(w)
    ensures var w' := RunFrom(w, BothStart);
      && Valid(w')
      && w'.requests == map[] && !w'.archived && !w'.db.deleted
      && 0 in w'.turns && 1 in w'.turns && w'.turns.Keys == {0, 1}
      && w'.turns[0].stage == Preparing && w'.turns[0].txn.None?
      && w'.turns[1].stage == Preparing && w'.turns[1].txn.None?
      && w'.db.attempt == w.db.attempt
  {
    hide Flush, Settle, Verdicts, Valid, RunFrom;
    var interrupt := Send([UserInterrupt], false, true);
    var first := [Acquire(0), OpenTurn(0, Start), CloseTurn(0)];
    var second := [OpenRequest(0, interrupt), CloseRequest(0)];
    var third := [Acquire(1), OpenTurn(1, Start), CloseTurn(1)];
    StartIn(w, 0);
    var w1 := RunFrom(w, first);
    InterruptNow(w1);
    var w2 := RunFrom(w1, second);
    StartIn(w2, 1);
    RunFromBoth(w, first, second);
    RunFromBoth(w, first + second, third);
    assert BothStart == first + second + third;
  }

  lemma StartIn(w: World, p: nat)
    requires Valid(w) && p !in w.turns && CanStartWork(w.db.status, w.db.stop) && !w.db.deleted
    ensures var w' := RunFrom(w, [Acquire(p), OpenTurn(p, Start), CloseTurn(p)]);
      && Valid(w')
      && w'.db == StartEffect(w.db).session
      && w'.turns == w.turns[p := Turn(Preparing, w'.db.lastSeq, None)]
      && w'.requests == w.requests && w'.archived == w.archived
  {
    hide Flush, Settle, Verdicts, Valid, RunFrom, CanStartWork;
    var w1 := Next(w, Acquire(p));
    NextKeepsValid(w, Acquire(p));
    TurnTxn(w1, p, Start);
    TurnStepsKeepRest(w1, p, Start);
    RunOne(w, Acquire(p));
    RunTwo(w1, OpenTurn(p, Start), CloseTurn(p));
    RunFromBoth(w, [Acquire(p)], [OpenTurn(p, Start), CloseTurn(p)]);
    assert [Acquire(p), OpenTurn(p, Start), CloseTurn(p)] == [Acquire(p)] + [OpenTurn(p, Start), CloseTurn(p)];
  }

  lemma InterruptNow(w: World)
    requires Valid(w) && w.db.status == Running && !w.db.deleted && !w.archived && w.requests == map[]
    ensures var w' := RunFrom(w, [OpenRequest(0, Send([UserInterrupt], false, true)), CloseRequest(0)]);
      && Valid(w')
      && w'.db.status == Idle && w'.db.stop == Interrupted && !w'.db.deleted && w'.db.attempt == w.db.attempt
      && w'.turns == w.turns && w'.requests == map[] && !w'.archived
  {
    hide Flush, Settle, Verdicts, Valid, RunFrom;
    var interrupt := Send([UserInterrupt], false, true);
    assert BatchError(w.db, [UserInterrupt]).None?;
    assert UserInterrupt in [UserInterrupt];
    RequestTxn(w, 0, interrupt);
    RunTwo(w, OpenRequest(0, interrupt), CloseRequest(0));
  }

  lemma FailBoth(w: World)
    requires Valid(w) && w.requests == map[] && !w.archived && !w.db.deleted && w.turns.Keys == {0, 1}
    requires w.turns[0].stage == Preparing && w.turns[0].txn.None?
    requires w.turns[1].stage == Preparing && w.turns[1].txn.None?
    ensures var w' := RunFrom(w, BothFail);
      && Valid(w')
      && w'.turns == map[] && w'.requests == map[] && !w'.archived
      && w'.db == FailEffect(FailEffect(w.db, true).session, true).session
  {
    hide Flush, Settle, Verdicts, Valid, RunFrom, FailEffect;
    FailIn(w, 0);
    var w1 := RunFrom(w, [Raise(0, true), OpenTurn(0, Fail(true)), CloseTurn(0)]);
    FailIn(w1, 1);
    RunFromBoth(w, [Raise(0, true), OpenTurn(0, Fail(true)), CloseTurn(0)],
      [Raise(1, true), OpenTurn(1, Fail(true)), CloseTurn(1)]);
    assert BothFail == [Raise(0, true), OpenTurn(0, Fail(true)), CloseTurn(0)]
      + [Raise(1, true), OpenTurn(1, Fail(true)), CloseTurn(1)];
    assert w.turns - {0} - {1} == map[];
  }

  lemma FailIn(w: World, p: nat)
    requires Valid(w) && p in w.turns && w.turns[p].stage == Preparing && w.turns[p].txn.None?
    ensures var w' := RunFrom(w, [Raise(p, true), OpenTurn(p, Fail(true)), CloseTurn(p)]);
      && Valid(w')
      && w'.db == FailEffect(w.db, true).session
      && w'.turns == w.turns - {p}
      && w'.requests == w.requests && w'.archived == w.archived
  {
    hide Flush, Settle, Verdicts, Valid, RunFrom;
    var w1 := Next(w, Raise(p, true));
    NextKeepsValid(w, Raise(p, true));
    TurnTxn(w1, p, Fail(true));
    TurnStepsKeepRest(w1, p, Fail(true));
    RunOne(w, Raise(p, true));
    RunTwo(w1, OpenTurn(p, Fail(true)), CloseTurn(p));
    RunFromBoth(w, [Raise(p, true)], [OpenTurn(p, Fail(true)), CloseTurn(p)]);
    assert [Raise(p, true), OpenTurn(p, Fail(true)), CloseTurn(p)]
        == [Raise(p, true)] + [OpenTurn(p, Fail(true)), CloseTurn(p)];
    assert w1.turns - {p} == w.turns - {p};
  }
}
