/**
 Every interleaving of the transactions on one session. A transaction reads the
 row and the log when it opens and writes when it closes; there is no row lock,
 and an object-relational flush writes only the columns that changed. What
 keeps concurrent transactions apart is the uniqueness of (session, seq)
 (app/db/models/domain.py, class SessionEvent).

 A turn of the runner is three transactions, and a process keeps at most one
 turn of the session in flight (`_running_sessions` of app/runtime/runner.py).
 */
module SessionInterleaving {
  import opened Options
  import opened SessionState
  import opened SessionHandlers

  // A handler with the row and log its transaction read.
  datatype Txn = Txn(handler: Handler, snap: Session)

  datatype Stage = Starting | Preparing | Executing | Failing(transient: bool)

  // A turn in flight; `start` is the number of its own status_running event, 0 before it is committed.
  datatype Turn = Turn(stage: Stage, start: nat, txn: Option<Txn>)

  // A committed transaction that appended, with the last sequence number it read.
  datatype Commit = Commit(handler: Handler, read: nat)

  datatype World = World(
    db: Session,
    archived: bool,
    work: nat,
    requests: map<nat, Txn>,
    turns: map<nat, Turn>,
    history: seq<Commit>)

  datatype Step =
    | OpenRequest(id: nat, handler: Handler)
    | CloseRequest(id: nat)
    | DropRequest(id: nat)
    | Acquire(process: nat)
    | OpenTurn(process: nat, handler: Handler)
    | CloseTurn(process: nat)
    | Raise(process: nat, transient: bool)
    | Crash(process: nat)

  // ------------------------------------------------------------- the database

  function Pick<T(==)>(read: T, written: T, current: T): T {
    if written == read then current else written
  }

  function Added(snap: Session, mine: Session): seq<Event> {
    if |snap.log| <= |mine.log| then mine.log[|snap.log|..] else []
  }

  // The write of a transaction that read `snap` and leaves `mine`, on a
  // database that has become `current`; None is an integrity error.
  function Flush(current: Session, snap: Session, mine: Session): Option<Session> {
    var added := Added(snap, mine);
    if exists e, f | e in current.log && f in added :: e.seqNo == f.seqNo then None
    else Some(Session(
                Pick(snap.status, mine.status, current.status),
                Pick(snap.stop, mine.stop, current.stop),
                Pick(snap.attempt, mine.attempt, current.attempt),
                Pick(snap.deleted, mine.deleted, current.deleted),
                Pick(snap.lastSeq, mine.lastSeq, current.lastSeq),
                current.log + added))
  }

  // The unique constraint makes an appending write a compare-and-swap on the log.
  lemma FlushIsCompareAndSwap(current: Session, snap: Session, mine: Session)
    requires WellNumbered(current) && WellNumbered(snap) && WellNumbered(mine)
    requires snap.log <= mine.log && |snap.log| < |mine.log|
    requires snap.log <= current.log
    requires snap.lastSeq == current.lastSeq ==> snap == current
    ensures Flush(current, snap, mine) == if snap.lastSeq == current.lastSeq then Some(mine) else None
  {
    var added := Added(snap, mine);
    assert added[0].seqNo == |snap.log| + 1;
    if snap.lastSeq == current.lastSeq {
      forall e, f | e in current.log && f in added
        ensures e.seqNo != f.seqNo
      {
        var i :| 0 <= i < |current.log| && current.log[i] == e;
        var j :| 0 <= j < |added| && added[j] == f;
        assert mine.log[|snap.log| + j] == f;
      }
      assert current.log + added == mine.log;
    } else {
      assert current.log[|snap.log|].seqNo == added[0].seqNo;
      assert current.log[|snap.log|] in current.log && added[0] in added;
    }
  }

  lemma FlushOfReadOnly(current: Session, snap: Session)
    ensures Flush(current, snap, snap) == Some(current)
  {
    assert current.log + Added(snap, snap) == current.log;
  }

  // ---------------------------------------------------------------- the steps

  datatype Verdict = Declined | LostRace | Won(session: Session)

  function Verdicts(db: Session, t: Txn): Verdict {
    match Apply(t.snap, t.handler)
    case Refused(_) => Declined
    case Done(mine, _) =>
      match Flush(db, t.snap, mine)
      case None => LostRace
      case Some(_) => Won(mine)
  }

  // The world once transaction `t` has written, or failed to.
  function Settle(w: World, t: Txn): World {
    match Apply(t.snap, t.handler)
    case Refused(_) => w
    case Done(mine, enqueued) =>
      match Flush(w.db, t.snap, mine)
      case None => w
      case Some(db) =>
        w.(db := db,
           work := w.work + enqueued,
           archived := w.archived || t.handler.Archive?,
           history := if |mine.log| == |t.snap.log| then w.history
                      else w.history + [Commit(t.handler, t.snap.lastSeq)])
  }

  predicate IsRequest(h: Handler) {
    h.Send? || h.Cancel? || h.Delete? || h.Update? || h.Resume? || h.Archive?
  }

  // A send reads the archived flag, a column outside the log's protection, as it opens.
  predicate ReadsArchived(w: World, h: Handler) {
    h.Send? ==> h.archived == w.archived
  }

  predicate BelongsTo(stage: Stage, h: Handler) {
    match stage
    case Starting => h.Start?
    case Preparing => h.Context?
    case Executing => h.Finish?
    case Failing(transient) => h == Fail(transient)
  }

  function Unregister(w: World, p: nat): World {
    w.(turns := w.turns - {p})
  }

  // Where a turn goes after its transaction. A lost race in the second or third
  // transaction is an exception like any other, and not a transient one.
  function AfterTxn(w: World, p: nat, turn: Turn, verdict: Verdict): World {
    match verdict
    case Declined => Unregister(w, p)
    case LostRace =>
      if turn.stage.Preparing? || turn.stage.Executing? then
        w.(turns := w.turns[p := Turn(Failing(false), turn.start, None)])
      else Unregister(w, p)
    case Won(session) =>
      if turn.stage.Starting? then w.(turns := w.turns[p := Turn(Preparing, session.lastSeq, None)])
      else if turn.stage.Preparing? then w.(turns := w.turns[p := Turn(Executing, turn.start, None)])
      else Unregister(w, p)
  }

  // A step that is not enabled leaves the world as it is.
  function Next(w: World, s: Step): World {
    match s
    case OpenRequest(id, h) =>
      if id !in w.requests && IsRequest(h) && ReadsArchived(w, h)
      then w.(requests := w.requests[id := Txn(h, w.db)]) else w
    case CloseRequest(id) =>
      if id in w.requests then Settle(w, w.requests[id]).(requests := w.requests - {id}) else w
    case DropRequest(id) => w.(requests := w.requests - {id})
    case Acquire(p) =>
      if p !in w.turns then w.(turns := w.turns[p := Turn(Starting, 0, None)]) else w
    case OpenTurn(p, h) =>
      if p in w.turns && w.turns[p].txn.None? && BelongsTo(w.turns[p].stage, h)
      then w.(turns := w.turns[p := w.turns[p].(txn := Some(Txn(h, w.db)))]) else w
    case CloseTurn(p) =>
      if p in w.turns && w.turns[p].txn.Some? then
        var t := w.turns[p].txn.value;
        AfterTxn(Settle(w, t), p, w.turns[p], Verdicts(w.db, t))
      else w
    case Raise(p, transient) =>
      if p in w.turns && (w.turns[p].stage.Preparing? || w.turns[p].stage.Executing?)
      then w.(turns := w.turns[p := Turn(Failing(transient), w.turns[p].start, None)]) else w
    case Crash(p) => Unregister(w, p)
  }

  const Initial := World(Created(), false, 0, map[], map[], [])

  function RunFrom(w: World, steps: seq<Step>): World {
    if steps == [] then w else Next(RunFrom(w, steps[..|steps| - 1]), steps[|steps| - 1])
  }

  function Run(steps: seq<Step>): World {
    RunFrom(Initial, steps)
  }

  // The transaction a step tries to commit.
  function Closing(w: World, s: Step): Option<Txn> {
    match s
    case CloseRequest(id) => if id in w.requests then Some(w.requests[id]) else None
    case CloseTurn(p) => if p in w.turns then w.turns[p].txn else None
    case _ => None
  }

  // ------------------------------------------------------- serial equivalence

  // The session after the handlers of `history`, each run by itself to its end.
  function Serial(history: seq<Commit>): Session {
    if history == [] then Created()
    else
      var before := Serial(history[..|history| - 1]);
      match Apply(before, history[|history| - 1].handler)
      case Done(s, _) => s
      case Refused(_) => before
  }

  ghost predicate TxnValid(db: Session, t: Txn) {
    && WellNumbered(t.snap)
    && t.snap.log <= db.log
    && (t.snap.lastSeq == db.lastSeq ==> t.snap == db)
  }

  ghost predicate Valid(w: World) {
    && WellNumbered(w.db)
    && (forall id | id in w.requests :: TxnValid(w.db, w.requests[id]) && IsRequest(w.requests[id].handler))
    && (forall p | p in w.turns && w.turns[p].txn.Some? ::
          TxnValid(w.db, w.turns[p].txn.value) && BelongsTo(w.turns[p].stage, w.turns[p].txn.value.handler))
    && w.db == Serial(w.history)
    && (forall i | 0 <= i < |w.history| :: w.history[i].read < w.db.lastSeq)
    && (forall i, j | 0 <= i < j < |w.history| :: w.history[i].read < w.history[j].read)
  }

  // What closing a transaction does to the session: nothing, or exactly what
  // its handler does to the session as it is now.
  lemma SettleIsAtomic(w: World, t: Txn)
    requires WellNumbered(w.db) && TxnValid(w.db, t)
    ensures match Apply(t.snap, t.handler)
      case Refused(_) => Settle(w, t) == w && Verdicts(w.db, t) == Declined
      case Done(mine, enqueued) =>
        if |mine.log| == |t.snap.log| then
          && Verdicts(w.db, t) == Won(t.snap)
          && Settle(w, t) == w.(work := w.work + enqueued, archived := w.archived || t.handler.Archive?)
        else if t.snap.lastSeq == w.db.lastSeq then
          && Verdicts(w.db, t) == Won(mine)
          && t.snap == w.db
          && Settle(w, t) == w.(db := mine, work := w.work + enqueued, archived := w.archived || t.handler.Archive?,
                                history := w.history + [Commit(t.handler, w.db.lastSeq)])
        else Settle(w, t) == w && Verdicts(w.db, t) == LostRace
  {
    WritesAppend(t.snap, t.handler);
    match Apply(t.snap, t.handler)
    case Refused(_) =>
    case Done(mine, _) =>
      if |mine.log| == |t.snap.log| {
        FlushOfReadOnly(w.db, t.snap);
      } else {
        FlushIsCompareAndSwap(w.db, t.snap, mine);
      }
  }

  lemma SettleKeepsValid(w: World, t: Txn)
    requires Valid(w) && TxnValid(w.db, t)
    ensures Valid(Settle(w, t))
    ensures w.db.log <= Settle(w, t).db.log
    ensures |w.db.log| == |Settle(w, t).db.log| ==> Settle(w, t).db == w.db
  {
    SettleIsAtomic(w, t);
    WritesAppend(w.db, t.handler);
    var w' := Settle(w, t);
    if w'.history != w.history {
      assert w'.history[..|w'.history| - 1] == w.history;
    }
  }

  lemma AfterTxnKeepsValid(w: World, p: nat, turn: Turn, verdict: Verdict)
    requires Valid(w)
    ensures Valid(AfterTxn(w, p, turn, verdict))
    ensures AfterTxn(w, p, turn, verdict).db == w.db
  {
    hide WellNumbered, Serial, TxnValid;
  }

  lemma NextKeepsValid(w: World, s: Step)
    requires Valid(w)
    ensures Valid(Next(w, s))
    ensures w.db.log <= Next(w, s).db.log
  {
    match s
    case CloseRequest(id) =>
      if id in w.requests {
        SettleKeepsValid(w, w.requests[id]);
        CloseKeepsValid(Settle(w, w.requests[id]), id);
      }
    case CloseTurn(p) =>
      if p in w.turns && w.turns[p].txn.Some? {
        var t := w.turns[p].txn.value;
        SettleKeepsValid(w, t);
        AfterTxnKeepsValid(Settle(w, t), p, w.turns[p], Verdicts(w.db, t));
      }
    case _ =>
  }

  lemma CloseKeepsValid(w: World, id: nat)
    requires Valid(w)
    ensures Valid(w.(requests := w.requests - {id}))
  {
  }

  // Every interleaving leaves the session as its appending transactions would,
  // run one after the other in the order of their commits; and no two of them
  // read the same last sequence number.
  lemma {:induction false} EveryRunIsSerial(steps: seq<Step>)
    ensures Valid(Run(steps))
    ensures Run(steps).db == Serial(Run(steps).history)
    ensures forall i, j | 0 <= i < j < |Run(steps).history| ::
              Run(steps).history[i].read < Run(steps).history[j].read
  {
    if steps != [] {
      EveryRunIsSerial(steps[..|steps| - 1]);
      NextKeepsValid(Run(steps[..|steps| - 1]), steps[|steps| - 1]);
    }
  }

  // Each commit of a history read the session its predecessors left, and took effect on it.
  ghost predicate CommitsChain(history: seq<Commit>) {
    forall i | 0 <= i < |history| ::
      && Serial(history[..i]).lastSeq == history[i].read
      && Apply(Serial(history[..i]), history[i].handler).Done?
  }

  lemma SettleKeepsChain(w: World, t: Txn)
    requires Valid(w) && TxnValid(w.db, t) && CommitsChain(w.history)
    ensures CommitsChain(Settle(w, t).history)
  {
    hide Flush, Settle, Apply;
    SettleIsAtomic(w, t);
    var history, history' := w.history, Settle(w, t).history;
    if history' != history {
      forall i | 0 <= i < |history'|
        ensures Serial(history'[..i]).lastSeq == history'[i].read
        ensures Apply(Serial(history'[..i]), history'[i].handler).Done?
      {
        if i < |history| {
          assert history'[..i] == history[..i];
        } else {
          assert history'[..i] == history;
        }
      }
    }
  }

  lemma NextKeepsChain(w: World, s: Step)
    requires Valid(w) && CommitsChain(w.history)
    ensures CommitsChain(Next(w, s).history)
  {
    hide Flush, Settle, Apply, Serial, CommitsChain;
    match s
    case CloseRequest(id) =>
      if id in w.requests {
        SettleKeepsChain(w, w.requests[id]);
      }
    case CloseTurn(p) =>
      if p in w.turns && w.turns[p].txn.Some? {
        SettleKeepsChain(w, w.turns[p].txn.value);
      }
    case _ =>
  }

  lemma {:induction false} EveryCommitSeesItsPredecessors(steps: seq<Step>)
    ensures CommitsChain(Run(steps).history)
  {
    hide Next, Apply, Serial;
    if steps != [] {
      EveryCommitSeesItsPredecessors(steps[..|steps| - 1]);
      EveryRunIsSerial(steps[..|steps| - 1]);
      NextKeepsChain(Run(steps[..|steps| - 1]), steps[|steps| - 1]);
    }
  }

  // The status that the first `n` commits of a history leave.
  function StatusAt(history: seq<Commit>, n: nat): Status
    requires n <= |history|
  {
    Serial(history[..n]).status
  }

  lemma StartFindsNotRunning(history: seq<Commit>, i: nat)
    requires CommitsChain(history) && i < |history| && history[i].handler.Start?
    ensures StatusAt(history, i) != Running && StatusAt(history, i + 1) == Running
  {
    assert history[..i + 1][..i] == history[..i];
    assert Apply(Serial(history[..i]), history[i].handler).Done?;
  }

  // Two turns never start from one idle state, in however many processes and
  // whatever clients send: between two committed starts another commit has
  // taken the session out of running.
  lemma StartsAreSeparated(steps: seq<Step>, i: nat, j: nat)
    requires i < j < |Run(steps).history|
    requires Run(steps).history[i].handler.Start? && Run(steps).history[j].handler.Start?
    ensures i + 1 < j
    ensures StatusAt(Run(steps).history, i + 1) == Running && StatusAt(Run(steps).history, j) != Running
  {
    hide Run, StatusAt, CommitsChain;
    EveryCommitSeesItsPredecessors(steps);
    StartFindsNotRunning(Run(steps).history, i);
    StartFindsNotRunning(Run(steps).history, j);
  }
}
