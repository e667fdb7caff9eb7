/**
 What one database transaction does to a session: the request handlers of
 app/routers/sessions.py, the three transactions of a turn and its failure
 handler of app/runtime/runner.py, as functions from the session a transaction
 reads to the session it wants to write.
 */
module SessionHandlers {
  import opened Options
  import opened SessionState

  datatype Event = Event(seqNo: nat, typ: EventType)

  // A session row with its event log. `attempt` is the retry counter kept in
  // `status_details`; 0 stands for its absence.
  datatype Session = Session(
    status: Status, stop: StopReason, attempt: nat, deleted: bool, lastSeq: nat, log: seq<Event>)

  datatype Refusal = NotFound | Conflict | Unprocessable | NothingToDo

  datatype Effect = Refused(why: Refusal) | Done(session: Session, enqueued: nat)

  datatype ToolEvent = ToolEvent(typ: EventType, requiresConfirmation: bool)

  // What the executor returns. `hasOutcome` says whether the history held a
  // `user.define_outcome` event to evaluate.
  datatype RunResult = RunResult(tools: seq<ToolEvent>, requiresAction: bool, hasText: bool, hasOutcome: bool)

  // One transaction with everything it depends on besides the session row and
  // log: the request body, rows of other tables, the executor's result.
  datatype Handler =
    | Send(batch: seq<EventType>, archived: bool, environmentFound: bool)
    | Cancel
    | Delete
    | Update(withVaults: bool, withOverlay: bool, overlayValid: bool)
    | Resume(environmentFound: bool)
    | Archive
    | Start
    | Context(missingCredentials: nat)
    | Finish(result: RunResult)
    | Fail(transient: bool)

  const HISTORY_LIMIT: nat := 1000
  const MAX_TRANSIENT_RETRY_ATTEMPTS: nat := 3

  // ---------------------------------------------------------------- the log

  ghost predicate WellNumbered(s: Session) {
    && s.lastSeq == |s.log|
    && forall i | 0 <= i < |s.log| :: s.log[i].seqNo == i + 1
  }

  function Numbered(last: nat, types: seq<EventType>): (events: seq<Event>)
    ensures |events| == |types|
  {
    seq(|types|, i requires 0 <= i < |types| => Event(last + 1 + i, types[i]))
  }

  function Append(s: Session, types: seq<EventType>): Session {
    s.(lastSeq := s.lastSeq + |types|, log := s.log + Numbered(s.lastSeq, types))
  }

  lemma AppendTwice(s: Session, first: seq<EventType>, second: seq<EventType>)
    ensures Append(Append(s, first), second) == Append(s, first + second)
  {
    assert Numbered(s.lastSeq, first) + Numbered(s.lastSeq + |first|, second) == Numbered(s.lastSeq, first + second);
    assert s.log + (Numbered(s.lastSeq, first) + Numbered(s.lastSeq + |first|, second))
        == (s.log + Numbered(s.lastSeq, first)) + Numbered(s.lastSeq + |first|, second);
  }

  lemma AppendNothing(s: Session)
    ensures Append(s, []) == s
  {
    assert s.log + Numbered(s.lastSeq, []) == s.log;
  }

  // The events a history query returns: the oldest HISTORY_LIMIT of them.
  function History(s: Session): (h: seq<Event>)
    ensures |h| <= HISTORY_LIMIT
    ensures |h| <= |s.log| && h == s.log[..|h|]
    ensures |s.log| <= HISTORY_LIMIT ==> h == s.log
  {
    if |s.log| <= HISTORY_LIMIT then s.log else s.log[..HISTORY_LIMIT]
  }

  // --------------------------------------------------------- action results

  function ActionResultTarget(t: EventType): Option<EventId> {
    match t
    case UserCustomToolResult(target) => target
    case UserToolConfirmation(target, _, _) => target
    case UserToolResult(target) => target
    case _ => None
  }

  function ResolvedActionIds(events: seq<Event>): set<EventId> {
    set e | e in events && ActionResultTarget(e.typ).Some? :: ActionResultTarget(e.typ).value
  }

  function AllPendingActionsResolved(s: Session): bool {
    PendingActionIds(s.stop) != {} && PendingActionIds(s.stop) <= ResolvedActionIds(History(s))
  }

  function EventsById(events: seq<Event>): map<EventId, EventType> {
    if events == [] then map[]
    else
      var last := events[|events| - 1];
      EventsById(events[..|events| - 1])[last.seqNo := last.typ]
  }

  // The refusal, if any, of a result of type `result` for an event of type `blocker`.
  function MismatchError(result: EventType, blocker: EventType): Option<Refusal> {
    match result
    case UserCustomToolResult(_) =>
      if !blocker.AgentCustomToolUse? then Some(Conflict) else None
    case UserToolResult(_) =>
      if !blocker.AgentToolUse? then Some(Conflict) else None
    case UserToolConfirmation(_, decision, hasDenyMessage) =>
      if !blocker.AgentToolUse? && !blocker.AgentMcpToolUse? then Some(Conflict)
      else if decision.OtherDecision? then Some(Unprocessable)
      else if decision != Deny && hasDenyMessage then Some(Unprocessable)
      else None
    case _ => None
  }

  // The refusal, if any, of one action result, `taken` being the targets of
  // the results before it in the batch.
  function ActionResultError(s: Session, result: EventType, taken: set<EventId>): Option<Refusal> {
    match ActionResultTarget(result)
    case None => Some(Unprocessable)
    case Some(id) =>
      if id !in PendingActionIds(s.stop) then Some(Conflict)
      else if id in ResolvedActionIds(History(s)) || id in taken then Some(Conflict)
      else if id !in EventsById(History(s)) then Some(NotFound)
      else MismatchError(result, EventsById(History(s))[id])
  }

  function Targets(results: seq<EventType>): set<EventId> {
    set r | r in results && ActionResultTarget(r).Some? :: ActionResultTarget(r).value
  }

  // The refusal of the first result that is refused, in batch order.
  function ActionResultsError(s: Session, results: seq<EventType>): Option<Refusal> {
    if results == [] then None
    else
      var before := results[..|results| - 1];
      var earlier := ActionResultsError(s, before);
      if earlier.Some? then earlier
      else ActionResultError(s, results[|results| - 1], Targets(before))
  }

  // ------------------------------------------------------------ send_events

  function WithoutSystem(batch: seq<EventType>): seq<EventType> {
    if batch == [] then []
    else
      WithoutSystem(batch[..|batch| - 1])
      + (if batch[|batch| - 1].SystemMessage? then [] else [batch[|batch| - 1]])
  }

  // At most one system.message, at the end, right after an event it may follow.
  predicate SystemMessagePlaced(batch: seq<EventType>) {
    forall i | 0 <= i < |batch| && batch[i].SystemMessage? ::
      && i == |batch| - 1
      && 0 < i
      && (batch[i - 1].UserCustomToolResult? || batch[i - 1].UserMessage? || batch[i - 1].UserToolResult?)
  }

  function BatchError(s: Session, batch: seq<EventType>): Option<Refusal> {
    if !SystemMessagePlaced(batch) then Some(Unprocessable)
    else if UserDefineOutcome(false) in batch then Some(Unprocessable)
    else if BlocksMutation(s.status) then
      if batch == [UserInterrupt] then None else Some(Conflict)
    else if IsWaitingForAction(s.stop) then
      if batch == [UserInterrupt] then None
      else
        var results := WithoutSystem(batch);
        if results == [] || exists r | r in results :: !IsActionResult(r) then Some(Conflict)
        else ActionResultsError(s, results)
    else if exists t | t in batch :: IsActionResult(t) then Some(Conflict)
    else None
  }

  function SendError(s: Session, batch: seq<EventType>, archived: bool, environmentFound: bool): Option<Refusal> {
    if batch == [] then Some(Unprocessable)
    else if s.deleted then Some(NotFound)
    else if archived then Some(Conflict)
    else if s.status == Terminated then Some(Conflict)
    else if !environmentFound then Some(NotFound)
    else BatchError(s, batch)
  }

  // Whether an accepted batch answers the last pending action.
  predicate Releases(s: Session, batch: seq<EventType>) {
    (exists t | t in batch :: IsActionResult(t)) && AllPendingActionsResolved(Append(s, batch))
  }

  function SendEffect(s: Session, batch: seq<EventType>, archived: bool, environmentFound: bool): Effect {
    var error := SendError(s, batch, archived, environmentFound);
    if error.Some? then Refused(error.value)
    else
      var sent := Append(s, batch);
      if UserInterrupt in batch then
        Done(Append(sent, [SessionStatus(Idle, Interrupted)]).(status := Idle, stop := Interrupted), 0)
      else if Releases(s, batch) then
        Done(sent.(status := Idle, stop := ActionSubmitted), 1)
      else
        Done(sent, if exists t | t in batch :: StartsWork(t) then 1 else 0)
  }

  // --------------------------------------------------------- other requests

  function CancelEffect(s: Session): Effect {
    if s.deleted then Refused(NotFound)
    else Done(Append(s, [SessionStatus(Terminated, Cancelled)]).(status := Terminated, stop := Cancelled), 0)
  }

  function DeleteEffect(s: Session): Effect {
    if s.deleted then Refused(NotFound)
    else if BlocksMutation(s.status) then Refused(Conflict)
    else Done(Append(s, [SessionDeleted]).(status := Terminated, deleted := true), 0)
  }

  function UpdateEffect(s: Session, withVaults: bool, withOverlay: bool, overlayValid: bool): Effect {
    if s.deleted then Refused(NotFound)
    else if BlocksMutation(s.status) then Refused(Conflict)
    else if withVaults then Refused(Unprocessable)
    else if withOverlay && (s.status != Idle || IsWaitingForAction(s.stop)) then Refused(Conflict)
    else if withOverlay && !overlayValid then Refused(Unprocessable)
    else Done(Append(s, [SessionUpdated]), 0)
  }

  function ResumeEffect(s: Session, environmentFound: bool): Effect {
    if s.deleted then Refused(NotFound)
    else if !CanStartWork(s.status, s.stop) then Refused(Conflict)
    else if !environmentFound then Refused(NotFound)
    else Done(s, 1)
  }

  function ArchiveEffect(s: Session): Effect {
    if s.deleted then Refused(NotFound)
    else if BlocksMutation(s.status) then Refused(Conflict)
    else Done(s, 0)
  }

  // --------------------------------------------------------------- the turn

  function StartEffect(s: Session): Effect {
    if s.deleted || !CanStartWork(s.status, s.stop) then Refused(NothingToDo)
    else Done(Append(s, [SessionStatus(Running, InProgress)]).(status := Running, stop := InProgress), 0)
  }

  function MissingCredentialEvents(missing: nat): seq<EventType> {
    seq(missing, i => SessionError(false))
  }

  function ContextEffect(s: Session, missing: nat): Effect {
    Done(Append(s, MissingCredentialEvents(missing)), 0)
  }

  function ToolTypes(tools: seq<ToolEvent>): (types: seq<EventType>)
    ensures |types| == |tools|
  {
    seq(|tools|, i requires 0 <= i < |tools| => tools[i].typ)
  }

  predicate IsRequiredActionEvent(r: RunResult, tool: ToolEvent) {
    && r.requiresAction
    && (tool.typ.AgentCustomToolUse? || tool.typ.AgentToolUse? || tool.typ.AgentMcpToolUse?)
    && ((exists t | t in r.tools :: t.requiresConfirmation) ==> tool.requiresConfirmation)
  }

  // The identifiers given to the blocking events among `tools`, appended after event `last`.
  function BlockingIds(last: nat, r: RunResult, tools: seq<ToolEvent>): seq<EventId> {
    if tools == [] then []
    else
      BlockingIds(last, r, tools[..|tools| - 1])
      + (if IsRequiredActionEvent(r, tools[|tools| - 1]) then [last + |tools|] else [])
  }

  // What a turn appends before its closing status event.
  function OutputTypes(r: RunResult): seq<EventType> {
    ToolTypes(r.tools)
    + if r.requiresAction then []
      else
        (if r.hasText && AgentMessage !in ToolTypes(r.tools) then [AgentMessage] else [])
        + (if r.hasOutcome then [OutcomeEvaluation] else [])
  }

  function FinishStop(s: Session, r: RunResult): StopReason {
    if r.requiresAction then RequiresAction(BlockingIds(s.lastSeq, r, r.tools)) else EndTurn
  }

  function FinishEffect(s: Session, r: RunResult): Effect {
    if s.status != Running || IsWaitingForAction(s.stop) then Refused(NothingToDo)
    else
      var stop := FinishStop(s, r);
      Done(Append(s, OutputTypes(r) + [SessionStatus(Idle, stop)]).(status := Idle, stop := stop, attempt := 0), 0)
  }

  function FailEffect(s: Session, transient: bool): Effect {
    if !transient then
      Done(Append(s, [SessionError(false), SessionStatus(Terminated, FatalError)])
             .(status := Terminated, stop := FatalError), 0)
    else if s.attempt + 1 >= MAX_TRANSIENT_RETRY_ATTEMPTS then
      Done(Append(s, [SessionError(true), SessionStatus(Terminated, FatalError)])
             .(status := Terminated, stop := FatalError, attempt := s.attempt + 1), 0)
    else
      Done(Append(s, [SessionError(true), SessionStatus(Rescheduling, TransientError)])
             .(status := Rescheduling, stop := TransientError, attempt := s.attempt + 1), 0)
  }

  function Apply(s: Session, h: Handler): Effect {
    match h
    case Send(batch, archived, environmentFound) => SendEffect(s, batch, archived, environmentFound)
    case Cancel => CancelEffect(s)
    case Delete => DeleteEffect(s)
    case Update(withVaults, withOverlay, overlayValid) => UpdateEffect(s, withVaults, withOverlay, overlayValid)
    case Resume(environmentFound) => ResumeEffect(s, environmentFound)
    case Archive => ArchiveEffect(s)
    case Start => StartEffect(s)
    case Context(missing) => ContextEffect(s, missing)
    case Finish(r) => FinishEffect(s, r)
    case Fail(transient) => FailEffect(s, transient)
  }

  // A new session: its row and the first status event.
  function Created(): Session {
    Append(Session(Idle, NoStopReason, 0, false, 0, []), [SessionStatus(Idle, EndTurn)])
  }

  // Every write of a column comes with an append, and appends keep the numbering.
  lemma WritesAppend(s: Session, h: Handler)
    requires WellNumbered(s)
    ensures match Apply(s, h)
      case Refused(_) => true
      case Done(s', _) =>
        && WellNumbered(s')
        && s.log <= s'.log
        && (|s'.log| == |s.log| ==> s' == s)
  {
    hide SendEffect, FinishEffect, FailEffect, CanStartWork, WellNumbered, Numbered;
    AppendKeepsNumbers(s);
    match h
    case Send(batch, archived, environmentFound) =>
      if SendEffect(s, batch, archived, environmentFound).Done? {
        SendAppends(s, batch, archived, environmentFound);
      }
    case Context(missing) =>
      if missing == 0 { AppendNothing(s); }
    case Finish(_) =>
      if Apply(s, h).Done? { TurnEndAppends(s, h); }
    case Fail(_) => TurnEndAppends(s, h);
    case _ =>
  }

  // Appending keeps the numbering, whatever becomes of the other columns.
  lemma AppendKeepsNumbers(s: Session)
    requires WellNumbered(s)
    ensures forall types :: WellNumbered(Append(s, types)) && s.log <= Append(s, types).log
    ensures forall types, status, stop, attempt, deleted ::
              WellNumbered(Append(s, types).(status := status, stop := stop, attempt := attempt, deleted := deleted))
  {
  }

  lemma SendAppends(s: Session, batch: seq<EventType>, archived: bool, environmentFound: bool)
    requires WellNumbered(s) && SendEffect(s, batch, archived, environmentFound).Done?
    ensures var s' := SendEffect(s, batch, archived, environmentFound).session;
      WellNumbered(s') && s.log < s'.log
  {
    hide BatchError, Releases;
  }

  lemma TurnEndAppends(s: Session, h: Handler)
    requires WellNumbered(s)
    requires (h.Finish? && Apply(s, h).Done?) || h.Fail?
    ensures WellNumbered(Apply(s, h).session) && s.log < Apply(s, h).session.log
  {
    hide OutputTypes, FinishStop;
  }
}
