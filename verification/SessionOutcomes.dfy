/**
 What each transaction on a session comes to, said without the functions that
 compute it: which requests are accepted, what they record, which status and
 stop reason follow, and when work is put in the queue.
 */
module SessionOutcomes {
  import opened Options
  import opened SessionState
  import opened SessionHandlers
  import opened SessionTransaction
  import opened SessionLog

  // ------------------------------------------------------------- action results

  predicate IsResult(t: EventType) {
    t.UserCustomToolResult? || t.UserToolConfirmation? || t.UserToolResult?
  }

  function Target(t: EventType): Option<EventId> {
    if t.UserCustomToolResult? || t.UserToolConfirmation? || t.UserToolResult? then t.target else None
  }

  // A custom tool's result answers its use, a tool's result a tool use, and a
  // confirmation either kind of tool use; only a denial carries a message.
  predicate Fits(result: EventType, used: EventType) {
    match result
    case UserCustomToolResult(_) => used == AgentCustomToolUse
    case UserToolResult(_) => used == AgentToolUse
    case UserToolConfirmation(_, decision, hasDenyMessage) =>
      used in {AgentToolUse, AgentMcpToolUse} && (decision == Deny || (decision == Allow && !hasDenyMessage))
    case _ => false
  }

  ghost predicate AnsweredBy(log: seq<Event>, upTo: nat, id: EventId) {
    exists i | 0 <= i < upTo && i < |log| :: Target(log[i].typ) == Some(id)
  }

  // The k-th event of a batch answers a pending event that nothing among the first
  // thousand events, and nothing earlier in the batch, has answered.
  ghost predicate Answers(s: Session, batch: seq<EventType>, k: nat)
    requires s.stop.RequiresAction? && k < |batch|
  {
    && Target(batch[k]).Some?
    && var id := Target(batch[k]).value;
       && id in s.stop.eventIds
       && 1 <= id <= |s.log| && id <= 1000
       && Fits(batch[k], s.log[id - 1].typ)
       && !AnsweredBy(s.log, 1000, id)
       && forall j | 0 <= j < k :: Target(batch[j]) != Some(id)
  }

  lemma HistoryAnswers(s: Session, id: EventId)
    ensures id in ResolvedActionIds(History(s)) <==> AnsweredBy(s.log, 1000, id)
  {
    if id in ResolvedActionIds(History(s)) {
      var e :| e in History(s) && ActionResultTarget(e.typ) == Some(id);
      var i :| 0 <= i < |History(s)| && History(s)[i] == e;
      assert Target(s.log[i].typ) == Some(id);
    }
    if AnsweredBy(s.log, 1000, id) {
      var i :| 0 <= i < 1000 && i < |s.log| && Target(s.log[i].typ) == Some(id);
      assert History(s)[i] == s.log[i] && s.log[i] in History(s);
    }
  }

  lemma TargetsBefore(results: seq<EventType>, k: nat, id: EventId)
    requires k <= |results|
    ensures id in Targets(results[..k]) <==> exists j | 0 <= j < k :: Target(results[j]) == Some(id)
  {
    if id in Targets(results[..k]) {
      var r :| r in results[..k] && ActionResultTarget(r) == Some(id);
      var j :| 0 <= j < k && results[..k][j] == r;
      assert Target(results[j]) == Some(id);
    }
    if j :| 0 <= j < k && Target(results[j]) == Some(id) {
      assert results[j] in results[..k];
    }
  }

  lemma ResultAcceptedIff(s: Session, results: seq<EventType>, k: nat)
    requires WellNumbered(s) && s.stop.RequiresAction? && k < |results|
    ensures ActionResultError(s, results[k], Targets(results[..k])).None? <==> Answers(s, results, k)
  {
    hide History, ResolvedActionIds, EventsById, Targets, AnsweredBy;
    assert |History(s)| <= |s.log| && |History(s)| <= 1000 && (|s.log| <= 1000 ==> |History(s)| == |s.log|);
    HistoryLength(s);
    EventsByIdOfNumbered(History(s));
    if Target(results[k]).Some? {
      var id := Target(results[k]).value;
      HistoryAnswers(s, id);
      TargetsBefore(results, k, id);
    }
  }

  lemma HistoryLength(s: Session)
    ensures |History(s)| == if |s.log| <= 1000 then |s.log| else 1000
    ensures History(s) == s.log[..|History(s)|]
    ensures WellNumbered(s) ==> forall i | 0 <= i < |History(s)| :: History(s)[i].seqNo == i + 1
  {
  }

  lemma {:induction false} AllAcceptedIff(s: Session, results: seq<EventType>)
    ensures ActionResultsError(s, results).None? <==>
      forall k | 0 <= k < |results| :: ActionResultError(s, results[k], Targets(results[..k])).None?
  {
    hide ActionResultError, Targets;
    if results != [] {
      var before := results[..|results| - 1];
      AllAcceptedIff(s, before);
      assert forall k | 0 <= k < |before| :: before[k] == results[k] && before[..k] == results[..k];
    }
  }

  // ------------------------------------------------------------------ send_events

  // A system message stands alone at the end, behind an event it may follow.
  predicate SystemMessageLast(batch: seq<EventType>) {
    forall i | 0 <= i < |batch| && batch[i] == SystemMessage ::
      && i == |batch| - 1 && i > 0
      && (batch[i - 1].UserMessage? || batch[i - 1].UserCustomToolResult? || batch[i - 1].UserToolResult?)
  }

  // What the session's state admits: only an interrupt while it is active; an
  // interrupt or fitting answers while it waits; anything but answers otherwise.
  ghost predicate StateAdmits(s: Session, batch: seq<EventType>) {
    if s.status in {Running, Rescheduling} then batch == [UserInterrupt]
    else if s.stop.RequiresAction? then
      || batch == [UserInterrupt]
      || forall k | 0 <= k < |batch| :: batch[k] == SystemMessage || Answers(s, batch, k)
    else forall k | 0 <= k < |batch| :: !IsResult(batch[k])
  }

  lemma ResultsAcceptedIff(s: Session, results: seq<EventType>)
    requires WellNumbered(s) && s.stop.RequiresAction?
    ensures ActionResultsError(s, results).None? <==> forall k | 0 <= k < |results| :: Answers(s, results, k)
  {
    hide ActionResultsError, ActionResultError, Answers, Targets, WellNumbered;
    AllAcceptedIff(s, results);
    forall k | 0 <= k < |results|
      ensures ActionResultError(s, results[k], Targets(results[..k])).None? <==> Answers(s, results, k)
    {
      ResultAcceptedIff(s, results, k);
    }
  }

  lemma AnswersInPrefix(s: Session, batch: seq<EventType>, n: nat, k: nat)
    requires s.stop.RequiresAction? && k < n <= |batch|
    ensures Answers(s, batch[..n], k) <==> Answers(s, batch, k)
    ensures Answers(s, batch, k) ==> IsActionResult(batch[k])
  {
    hide AnsweredBy, Fits;
  }

  lemma WaitingAdmitsIff(s: Session, batch: seq<EventType>)
    requires WellNumbered(s) && s.stop.RequiresAction? && batch != [] && SystemMessagePlaced(batch)
    ensures var results := WithoutSystem(batch);
      (results != [] && (forall r | r in results :: IsActionResult(r)) && ActionResultsError(s, results).None?)
      <==> forall k | 0 <= k < |batch| :: batch[k] == SystemMessage || Answers(s, batch, k)
  {
    hide ActionResultsError, WithoutSystem, Answers, WellNumbered;
    var results := WithoutSystem(batch);
    SystemMessageIsLast(batch);
    assert results == batch[..|results|] && |batch| - 1 <= |results| <= |batch|;
    assert |results| < |batch| ==> batch[|results|] == SystemMessage && |results| > 0;
    WithoutSystemKeeps(batch);
    ResultsAcceptedIff(s, results);
    forall k | 0 <= k < |results|
      ensures batch[k] != SystemMessage && batch[k] in results
      ensures Answers(s, results, k) <==> Answers(s, batch, k)
      ensures Answers(s, batch, k) ==> IsActionResult(batch[k])
    {
      assert results[k] == batch[k];
      AnswersInPrefix(s, batch, |results|, k);
    }
    hide SystemMessagePlaced;
    assert forall r | r in results :: exists k | 0 <= k < |results| :: batch[k] == r by {
      forall r | r in results
        ensures exists k | 0 <= k < |results| :: batch[k] == r
      {
        var k :| 0 <= k < |results| && results[k] == r;
        assert batch[k] == r;
      }
    }
  }

  lemma SomeResultIff(batch: seq<EventType>)
    ensures (exists t | t in batch :: IsActionResult(t)) <==> exists k | 0 <= k < |batch| :: IsResult(batch[k])
  {
    if t :| t in batch && IsActionResult(t) {
      var k :| 0 <= k < |batch| && batch[k] == t;
      assert IsResult(batch[k]);
    }
    if k :| 0 <= k < |batch| && IsResult(batch[k]) {
      assert batch[k] in batch && IsActionResult(batch[k]);
    }
  }

  // Exactly the accepted requests.
  lemma SendIsAcceptedIff(s: Session, batch: seq<EventType>, archived: bool, environmentFound: bool)
    requires WellNumbered(s)
    ensures SendEffect(s, batch, archived, environmentFound).Done? <==>
      && batch != [] && !s.deleted && !archived && s.status != Terminated && environmentFound
      && SystemMessageLast(batch)
      && UserDefineOutcome(false) !in batch
      && StateAdmits(s, batch)
  {
    hide ActionResultsError, WithoutSystem, Answers, Releases;
    assert SystemMessageLast(batch) <==> SystemMessagePlaced(batch);
    if batch != [] && SystemMessagePlaced(batch) && s.stop.RequiresAction? {
      WaitingAdmitsIff(s, batch);
    }
    SomeResultIff(batch);
  }

  // The answer to a request whose events do not fit the session's state, and to
  // those that fail before it is looked at, in their order.
  lemma SendIsRefusedWith(s: Session, batch: seq<EventType>, archived: bool, environmentFound: bool)
    ensures var e := SendEffect(s, batch, archived, environmentFound);
      if batch == [] then e == Refused(Unprocessable)
      else if s.deleted then e == Refused(NotFound)
      else if archived || s.status == Terminated then e == Refused(Conflict)
      else if !environmentFound then e == Refused(NotFound)
      else if !SystemMessageLast(batch) || UserDefineOutcome(false) in batch then e == Refused(Unprocessable)
      else if s.status in {Running, Rescheduling} then batch != [UserInterrupt] ==> e == Refused(Conflict)
      else if !s.stop.RequiresAction? then (exists k | 0 <= k < |batch| :: IsResult(batch[k])) ==> e == Refused(Conflict)
      else
        batch != [UserInterrupt] && (exists k | 0 <= k < |batch| :: !IsResult(batch[k]) && batch[k] != SystemMessage)
        ==> e == Refused(Conflict)
  {
    hide ActionResultsError, Releases, WithoutSystem;
    assert SystemMessageLast(batch) <==> SystemMessagePlaced(batch);
    SomeResultIff(batch);
    WithoutSystemKeeps(batch);
    if k :| 0 <= k < |batch| && !IsResult(batch[k]) && batch[k] != SystemMessage {
      assert batch[k] in WithoutSystem(batch);
    }
  }

  // The answer to a result that is no fitting answer: 422 where it names nothing or
  // its decision is malformed, 404 where the event is not in the history, and 409
  // where it is not pending, has been answered or is of another kind.
  lemma ResultIsRefusedWith(s: Session, results: seq<EventType>, k: nat)
    requires WellNumbered(s) && s.stop.RequiresAction? && k < |results|
    requires forall j | 0 <= j < k :: Answers(s, results, j)
    requires !Answers(s, results, k)
    ensures ActionResultsError(s, results) == Some(
      if Target(results[k]).None? then Unprocessable
      else
        var id := Target(results[k]).value;
        if id !in s.stop.eventIds || AnsweredBy(s.log, 1000, id)
           || (exists j | 0 <= j < k :: Target(results[j]) == Some(id)) then Conflict
        else if !(1 <= id <= |s.log| && id <= 1000) then NotFound
        else if results[k].UserToolConfirmation? && s.log[id - 1].typ in {AgentToolUse, AgentMcpToolUse} then Unprocessable
        else Conflict)
  {
    hide ActionResultsError, History, ResolvedActionIds, EventsById, Targets, AnsweredBy;
    forall j | 0 <= j < k
      ensures ActionResultError(s, results[..k][j], Targets(results[..k][..j])).None?
    {
      assert results[..k][..j] == results[..j];
      ResultAcceptedIff(s, results, j);
    }
    AllAcceptedIff(s, results[..k]);
    ResultAcceptedIff(s, results, k);
    HistoryLength(s);
    EventsByIdOfNumbered(History(s));
    if Target(results[k]).Some? {
      HistoryAnswers(s, Target(results[k]).value);
      TargetsBefore(results, k, Target(results[k]).value);
    }
    OneMoreError(s, results, k);
  }

  lemma OneMoreError(s: Session, results: seq<EventType>, k: nat)
    requires k < |results| && ActionResultsError(s, results[..k]).None?
    requires ActionResultError(s, results[k], Targets(results[..k])).Some?
    ensures ActionResultsError(s, results) == ActionResultError(s, results[k], Targets(results[..k]))
  {
    hide ActionResultError, Targets;
    assert results[..k + 1][..k] == results[..k];
    ErrorOfPrefix(s, results, k + 1);
  }

  // An accepted batch is logged as it was sent, with the next numbers, and an
  // interrupt adds its idle event.
  lemma SendIsLogged(s: Session, batch: seq<EventType>, archived: bool, environmentFound: bool)
    requires WellNumbered(s) && SendEffect(s, batch, archived, environmentFound).Done?
    ensures var s' := SendEffect(s, batch, archived, environmentFound).session;
      && WellNumbered(s') && s.log <= s'.log
      && |s'.log| == |s.log| + |batch| + (if UserInterrupt in batch then 1 else 0)
      && (forall k | 0 <= k < |batch| :: s'.log[|s.log| + k].typ == batch[k])
      && (UserInterrupt in batch ==> s'.log[|s'.log| - 1].typ == SessionStatus(Idle, Interrupted))
      && s'.attempt == s.attempt && s'.deleted == s.deleted
  {
    hide BatchError, Releases;
    SendAppends(s, batch, archived, environmentFound);
  }

  // Every pending event has its answer among the first thousand events.
  ghost predicate AllAnswered(pending: seq<EventId>, log: seq<Event>) {
    forall id | id in pending :: AnsweredBy(log, 1000, id)
  }

  lemma AllAnsweredIff(s: Session, log: seq<Event>, t: Session)
    requires s.stop.RequiresAction? && t.log == log
    ensures PendingActionIds(s.stop) <= ResolvedActionIds(History(t)) <==> AllAnswered(s.stop.eventIds, log)
  {
    hide ResolvedActionIds, History, AnsweredBy;
    forall id
      ensures id in ResolvedActionIds(History(t)) <==> AnsweredBy(log, 1000, id)
    {
      HistoryAnswers(t, id);
    }
    assert forall id :: id in PendingActionIds(s.stop) <==> id in s.stop.eventIds;
  }

  // What an accepted batch does to the session, and whether it puts work in the
  // queue: an interrupt stops it, the last answer releases it with one work item,
  // and otherwise a message or an outcome to define adds one.
  lemma AcceptedSendDoes(s: Session, batch: seq<EventType>, archived: bool, environmentFound: bool)
    requires SendEffect(s, batch, archived, environmentFound).Done?
    ensures var Done(s', enqueued) := SendEffect(s, batch, archived, environmentFound);
      if UserInterrupt in batch then s'.status == Idle && s'.stop == Interrupted && enqueued == 0
      else if s.stop.RequiresAction? then
        if AllAnswered(s.stop.eventIds, s'.log)
        then s'.status == Idle && s'.stop == ActionSubmitted && enqueued == 1
        else s'.status == s.status && s'.stop == s.stop && enqueued == 0
      else
        && s'.status == s.status && s'.stop == s.stop
        && enqueued == if exists t | t in batch :: t.UserMessage? || t.UserDefineOutcome? then 1 else 0
  {
    if UserInterrupt !in batch {
      assert BatchError(s, batch).None?;
      if s.stop.RequiresAction? {
        assert s.status == Idle && batch != [UserInterrupt];
        ReleasedIff(s, batch, archived, environmentFound);
        var s' := SendEffect(s, batch, archived, environmentFound).session;
        AllAnsweredIff(s, s'.log, s');
      } else {
        NoResultsNoRelease(s, batch);
      }
    }
  }

  lemma NoResultsNoRelease(s: Session, batch: seq<EventType>)
    requires !s.stop.RequiresAction? && BatchError(s, batch).None?
    ensures !Releases(s, batch)
  {
    hide AllPendingActionsResolved, ActionResultsError;
    if exists t | t in batch :: IsActionResult(t) {
      AcceptedResultBatch(s, batch);
    }
  }

  // ------------------------------------------------------------- the end of a turn

  predicate IsToolUse(t: EventType) {
    t in {AgentCustomToolUse, AgentToolUse, AgentMcpToolUse}
  }

  lemma {:induction false} BlockingIdsAre(last: nat, r: RunResult, tools: seq<ToolEvent>, id: EventId)
    requires r.requiresAction
    ensures id in BlockingIds(last, r, tools) <==>
      && last < id <= last + |tools|
      && IsToolUse(tools[id - last - 1].typ)
      && ((exists t | t in r.tools :: t.requiresConfirmation) ==> tools[id - last - 1].requiresConfirmation)
  {
    if tools != [] {
      BlockingIdsAre(last, r, tools[..|tools| - 1], id);
    }
  }

  // A turn that requires action waits for exactly its own tool-use events, those
  // that ask for confirmation if any does.
  lemma WaitsForIff(s: Session, r: RunResult, id: EventId)
    requires WellNumbered(s) && r.requiresAction && FinishEffect(s, r).Done?
    ensures var s' := FinishEffect(s, r).session;
      && s'.stop.RequiresAction?
      && (id in s'.stop.eventIds <==>
            && |s.log| < id <= |s.log| + |r.tools|
            && s'.log[id - 1].typ == r.tools[id - |s.log| - 1].typ
            && r.tools[id - |s.log| - 1].typ in {AgentCustomToolUse, AgentToolUse, AgentMcpToolUse}
            && ((exists t | t in r.tools :: t.requiresConfirmation) ==> r.tools[id - |s.log| - 1].requiresConfirmation))
  {
    hide BlockingIds;
    BlockingIdsAre(s.lastSeq, r, r.tools, id);
    FinishIsLogged(s, r);
  }

  function TextEvents(r: RunResult): nat {
    if !r.requiresAction && r.hasText && (forall t | t in r.tools :: t.typ != AgentMessage) then 1 else 0
  }

  function OutcomeEvents(r: RunResult): nat {
    if !r.requiresAction && r.hasOutcome then 1 else 0
  }

  // The events a turn ends with: its tool events in order, its text unless the
  // executor has sent one, the evaluation of an outcome, and the idle event.
  lemma FinishIsLogged(s: Session, r: RunResult)
    requires WellNumbered(s) && FinishEffect(s, r).Done?
    ensures var s' := FinishEffect(s, r).session;
      var n := |s.log| + |r.tools|;
      && WellNumbered(s') && s.log <= s'.log
      && |s'.log| == n + TextEvents(r) + OutcomeEvents(r) + 1
      && (forall k | 0 <= k < |r.tools| :: s'.log[|s.log| + k].typ == r.tools[k].typ)
      && (TextEvents(r) == 1 ==> s'.log[n].typ == AgentMessage)
      && (OutcomeEvents(r) == 1 ==> s'.log[n + TextEvents(r)].typ == OutcomeEvaluation)
      && s'.log[|s'.log| - 1].typ == SessionStatus(Idle, s'.stop)
  {
    hide BlockingIds;
    assert AgentMessage in ToolTypes(r.tools) <==> exists t | t in r.tools :: t.typ == AgentMessage by {
      if AgentMessage in ToolTypes(r.tools) {
        var i :| 0 <= i < |r.tools| && ToolTypes(r.tools)[i] == AgentMessage;
        assert r.tools[i] in r.tools;
      }
      if t :| t in r.tools && t.typ == AgentMessage {
        var i :| 0 <= i < |r.tools| && r.tools[i] == t;
        assert ToolTypes(r.tools)[i] == AgentMessage;
      }
    }
  }

  // ---------------------------------------------------------------- all handlers

  // Which requests and transactions but a batch are accepted.
  lemma AcceptedIff(s: Session, h: Handler)
    ensures match h
      case Send(_, _, _) => true
      case Cancel => Apply(s, h).Done? <==> !s.deleted
      case Delete => Apply(s, h).Done? <==> !s.deleted && s.status in {Idle, Terminated}
      case Archive => Apply(s, h).Done? <==> !s.deleted && s.status in {Idle, Terminated}
      case Update(withVaults, withOverlay, overlayValid) =>
        Apply(s, h).Done? <==>
          && !s.deleted && s.status in {Idle, Terminated} && !withVaults
          && (withOverlay ==> s.status == Idle && !s.stop.RequiresAction? && overlayValid)
      case Resume(environmentFound) =>
        Apply(s, h).Done? <==>
          !s.deleted && s.status in {Idle, Rescheduling} && !s.stop.RequiresAction? && environmentFound
      case Start => Apply(s, h).Done? <==> !s.deleted && s.status in {Idle, Rescheduling} && !s.stop.RequiresAction?
      case Context(_) => Apply(s, h).Done?
      case Finish(_) => Apply(s, h).Done? <==> s.status == Running && !s.stop.RequiresAction?
      case Fail(_) => Apply(s, h).Done?
  {
  }

  // The status each transaction leaves: running after a start, terminated after a
  // cancel, a deletion, a fatal failure or a third transient one, rescheduling
  // after an earlier transient failure, idle after the others that change it.
  lemma StatusAfterHandler(s: Session, h: Handler)
    requires Apply(s, h).Done?
    ensures var status := Apply(s, h).session.status;
      && (status == Running <==> h.Start? || (s.status == Running && h.Context?))
      && (status == Terminated <==>
            || h == Cancel || h == Delete || h == Fail(false) || (h == Fail(true) && s.attempt >= 2)
            || (s.status == Terminated && (h.Context? || h.Update? || h.Archive?)))
      && (status == Rescheduling <==>
            || (h == Fail(true) && s.attempt < 2)
            || (s.status == Rescheduling && (h.Context? || h.Resume?)))
  {
    hide AllPendingActionsResolved, ActionResultsError;
    if h.Send? {
      AcceptedSendDoes(s, h.batch, h.archived, h.environmentFound);
    }
  }

  lemma StopAfterHandler(s: Session, h: Handler)
    requires Apply(s, h).Done? && !h.Send?
    ensures var s' := Apply(s, h).session;
      && s'.stop == (match h
                     case Cancel => Cancelled
                     case Start => InProgress
                     case Fail(transient) => if transient && s.attempt < 2 then TransientError else FatalError
                     case Finish(r) => if r.requiresAction then s'.stop else EndTurn
                     case _ => s.stop)
      && s'.attempt == (match h
                        case Finish(_) => 0
                        case Fail(true) => s.attempt + 1
                        case _ => s.attempt)
      && s'.deleted == (s.deleted || h.Delete?)
  {
  }

  // The events of the other handlers.
  lemma HandlerIsLogged(s: Session, h: Handler)
    requires WellNumbered(s) && Apply(s, h).Done? && !h.Send? && !h.Finish?
    ensures var s' := Apply(s, h).session;
      Types(s'.log) == Types(s.log) +
        match h
        case Cancel => [SessionStatus(Terminated, Cancelled)]
        case Delete => [SessionDeleted]
        case Update(_, _, _) => [SessionUpdated]
        case Start => [SessionStatus(Running, InProgress)]
        case Context(missing) => seq(missing, i => SessionError(false))
        case Fail(transient) => [SessionError(transient), SessionStatus(s'.status, s'.stop)]
        case _ => []
  {
    hide WellNumbered;
    match h
    case Context(missing) => TypesOfAppend(s, MissingCredentialEvents(missing));
    case Fail(transient) =>
      var s' := Apply(s, h).session;
      TypesOfAppend(s, [SessionError(transient), SessionStatus(s'.status, s'.stop)]);
    case Cancel => TypesOfAppend(s, [SessionStatus(Terminated, Cancelled)]);
    case Delete => TypesOfAppend(s, [SessionDeleted]);
    case Update(_, _, _) => TypesOfAppend(s, [SessionUpdated]);
    case Start => TypesOfAppend(s, [SessionStatus(Running, InProgress)]);
    case _ =>
  }

  // Work is put in the queue, one item, by exactly two requests: an accepted
  // resume, and an accepted batch that does not interrupt and either completes
  // the answers or, with none awaited, asks for work.
  lemma WorkIsEnqueuedIff(s: Session, h: Handler)
    requires Apply(s, h).Done?
    ensures var Done(s', enqueued) := Apply(s, h);
      && 0 <= enqueued <= 1
      && (enqueued == 1 <==>
            || h.Resume?
            || (h.Send? && UserInterrupt !in h.batch
                && if s.stop.RequiresAction? then AllAnswered(s.stop.eventIds, s'.log)
                   else exists t | t in h.batch :: t.UserMessage? || t.UserDefineOutcome?))
  {
    hide SendEffect;
    if h.Send? {
      AcceptedSendDoes(s, h.batch, h.archived, h.environmentFound);
    }
  }

  // ---------------------------------------------------------------- the retry delay

  // Without a hint the delay is 5 seconds, then doubles up to 300; a positive hint,
  // the exception's own before the header's, is taken up to 300.
  lemma RetryDelayIs(direct: Option<int>, header: Option<int>, attempt: nat)
    ensures RetryAfterSeconds(None, None, 0) == RetryAfterSeconds(None, None, 1) == 5
    ensures attempt >= 1 ==>
      var d := RetryAfterSeconds(None, None, attempt);
      RetryAfterSeconds(None, None, attempt + 1) == if 2 * d < 300 then 2 * d else 300
    ensures direct.Some? && direct.value > 0 ==>
      RetryAfterSeconds(direct, header, attempt) == if direct.value < 300 then direct.value else 300
    ensures (direct.Some? ==> direct.value <= 0) && header.Some? && header.value > 0 ==>
      RetryAfterSeconds(direct, header, attempt) == if header.value < 300 then header.value else 300
    ensures (direct.Some? ==> direct.value <= 0) && (header.Some? ==> header.value <= 0) ==>
      RetryAfterSeconds(direct, header, attempt) == RetryAfterSeconds(None, None, attempt)
  {
    if attempt >= 1 {
      Pow2Grows(0, attempt - 1);
      assert Pow2(attempt) == 2 * Pow2(attempt - 1);
    }
  }
}
