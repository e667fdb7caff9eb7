/**
 The handlers as the service runs them: a row object whose fields are assigned
 one after the other, and events appended one at a time. Each method is proved
 to do what its function in SessionHandlers says.
 */
module SessionTransaction {
  import opened Options
  import opened SessionState
  import opened SessionHandlers

  function AsEffect(error: Option<Refusal>, s: Session, enqueued: nat): Effect {
    if error.Some? then Refused(error.value) else Done(s, enqueued)
  }

  // -------------------------------------------- facts about accepted batches

  lemma {:induction false} WithoutSystemKeeps(batch: seq<EventType>)
    ensures forall t :: t in WithoutSystem(batch) <==> t in batch && !t.SystemMessage?
  {
    if batch != [] {
      WithoutSystemKeeps(batch[..|batch| - 1]);
      assert batch == batch[..|batch| - 1] + [batch[|batch| - 1]];
    }
  }

  // A batch with an action result is accepted only while results are awaited,
  // and then holds nothing else but a system message.
  lemma AcceptedResultBatch(s: Session, batch: seq<EventType>)
    requires BatchError(s, batch).None?
    requires exists t | t in batch :: IsActionResult(t)
    ensures IsWaitingForAction(s.stop)
    ensures ActionResultsError(s, WithoutSystem(batch)).None?
    ensures forall t | t in batch :: IsActionResult(t) || t.SystemMessage?
  {
    hide ActionResultsError, SystemMessagePlaced, WithoutSystem;
    WithoutSystemKeeps(batch);
    forall t | t in batch && !t.SystemMessage?
      ensures IsActionResult(t)
    {
      assert t in WithoutSystem(batch);
    }
  }

  lemma SystemMessageResolvesNothing(s: Session)
    ensures AllPendingActionsResolved(Append(s, [SystemMessage])) == AllPendingActionsResolved(s)
  {
    var grown := Append(s, [SystemMessage]);
    var last := Event(s.lastSeq + 1, SystemMessage);
    assert grown.log == s.log + [last];
    assert History(grown) == History(s) || History(grown) == History(s) + [last];
    assert forall e | e in History(grown) :: e in History(s) || e == last;
    assert forall e | e in History(s) :: e in History(grown);
    assert ResolvedActionIds(History(grown)) == ResolvedActionIds(History(s));
  }

  // Action results do not mix with other events, but for a system message.
  predicate Unmixed(batch: seq<EventType>) {
    || (forall t | t in batch :: !IsActionResult(t))
    || (forall t | t in batch :: IsActionResult(t) || t.SystemMessage?)
  }

  predicate SomeStartsWork(batch: seq<EventType>) {
    exists t | t in batch :: StartsWork(t)
  }

  lemma AcceptedIsUnmixed(s: Session, batch: seq<EventType>)
    requires BatchError(s, batch).None?
    ensures Unmixed(batch)
  {
    if exists t | t in batch :: IsActionResult(t) {
      AcceptedResultBatch(s, batch);
    }
  }

  // Only an action result changes what the batch so far releases.
  lemma ReleasesStep(s: Session, batch: seq<EventType>, t: EventType)
    requires Unmixed(batch + [t])
    ensures IsActionResult(t) ==>
              && Releases(s, batch + [t]) == AllPendingActionsResolved(Append(s, batch + [t]))
              && !SomeStartsWork(batch + [t])
    ensures !IsActionResult(t) ==> Releases(s, batch + [t]) == Releases(s, batch)
    ensures !IsActionResult(t) ==> SomeStartsWork(batch + [t]) == (SomeStartsWork(batch) || StartsWork(t))
  {
    assert t in batch + [t];
    assert forall u | u in batch :: u in batch + [t];
    if !IsActionResult(t) && exists u | u in batch :: IsActionResult(u) {
      AppendTwice(s, batch, [t]);
      SystemMessageResolvesNothing(Append(s, batch));
    }
  }

  datatype BatchFlags = BatchFlags(interrupt: bool, shouldRun: bool, resolved: bool)

  // The three flags of the send_events loop after a batch.
  function FlagsAfter(s: Session, batch: seq<EventType>): BatchFlags {
    if batch == [] then BatchFlags(false, false, false)
    else
      var before := FlagsAfter(s, batch[..|batch| - 1]);
      var t := batch[|batch| - 1];
      if t.UserInterrupt? then before.(interrupt := true)
      else if StartsWork(t) then before.(shouldRun := true)
      else if IsActionResult(t) then
        var all := AllPendingActionsResolved(Append(s, batch));
        before.(shouldRun := all, resolved := all)
      else before
  }

  // On an unmixed batch the check made inside the loop, after the last action
  // result, gives the answer it would give at the end of the batch.
  lemma {:induction false} FlagsOfUnmixedBatch(s: Session, batch: seq<EventType>)
    requires Unmixed(batch)
    ensures FlagsAfter(s, batch) ==
      BatchFlags(UserInterrupt in batch, Releases(s, batch) || SomeStartsWork(batch), Releases(s, batch))
  {
    if batch != [] {
      var before, t := batch[..|batch| - 1], batch[|batch| - 1];
      assert batch == before + [t];
      assert forall u | u in before :: u in batch;
      FlagsOfUnmixedBatch(s, before);
      ReleasesStep(s, before, t);
    }
  }

  lemma {:induction false} ErrorOfPrefix(s: Session, results: seq<EventType>, k: nat)
    requires k <= |results|
    requires ActionResultsError(s, results[..k]).Some?
    ensures ActionResultsError(s, results) == ActionResultsError(s, results[..k])
  {
    if k < |results| {
      assert results[..|results| - 1][..k] == results[..k];
      ErrorOfPrefix(s, results[..|results| - 1], k);
    } else {
      assert results[..k] == results;
    }
  }

  lemma TargetsStep(results: seq<EventType>, i: nat)
    requires i < |results|
    ensures Targets(results[..i + 1]) == Targets(results[..i])
      + (if ActionResultTarget(results[i]).Some? then {ActionResultTarget(results[i]).value} else {})
  {
    assert results[..i + 1] == results[..i] + [results[i]];
  }

  // ------------------------------------------------------------ loop helpers

  method IndexEvents(events: seq<Event>) returns (byId: map<EventId, EventType>)
    ensures byId == EventsById(events)
  {
    byId := map[];
    for i := 0 to |events|
      invariant byId == EventsById(events[..i])
    {
      assert events[..i + 1][..i] == events[..i];
      byId := byId[events[i].seqNo := events[i].typ];
    }
    assert events[..|events|] == events;
  }

  method CollectResolved(events: seq<Event>) returns (resolved: set<EventId>)
    ensures resolved == ResolvedActionIds(events)
  {
    resolved := {};
    for i := 0 to |events|
      invariant resolved == ResolvedActionIds(events[..i])
    {
      assert events[..i + 1] == events[..i] + [events[i]];
      var target := ActionResultTarget(events[i].typ);
      if target.Some? {
        resolved := resolved + {target.value};
      }
    }
    assert events[..|events|] == events;
  }

  method ValidateActionResults(s: Session, results: seq<EventType>) returns (error: Option<Refusal>)
    ensures error == ActionResultsError(s, results)
  {
    var pending := PendingActionIds(s.stop);
    var byId := IndexEvents(History(s));
    var resolved := CollectResolved(History(s));
    var taken: set<EventId> := {};
    for i := 0 to |results|
      invariant taken == Targets(results[..i])
      invariant ActionResultsError(s, results[..i]).None?
    {
      assert results[..i + 1][..i] == results[..i];
      var target := ActionResultTarget(results[i]);
      error := None;
      if target.None? {
        error := Some(Unprocessable);
      } else if target.value !in pending {
        error := Some(Conflict);
      } else if target.value in resolved || target.value in taken {
        error := Some(Conflict);
      } else if target.value !in byId {
        error := Some(NotFound);
      } else {
        error := MismatchError(results[i], byId[target.value]);
      }
      if error.Some? {
        ErrorOfPrefix(s, results, i + 1);
        return;
      }
      TargetsStep(results, i);
      taken := taken + {target.value};
    }
    assert results[..|results|] == results;
    error := None;
  }

  method ValidateSystemMessageBatch(batch: seq<EventType>) returns (error: Option<Refusal>)
    ensures error == if SystemMessagePlaced(batch) then None else Some(Unprocessable)
  {
    var indexes: seq<nat> := [];
    for i := 0 to |batch|
      invariant forall k | 0 <= k < |indexes| :: indexes[k] < i && batch[indexes[k]].SystemMessage?
      invariant forall j | 0 <= j < i && batch[j].SystemMessage? :: j in indexes
      invariant forall k | 0 < k < |indexes| :: indexes[k - 1] < indexes[k]
    {
      if batch[i].SystemMessage? {
        indexes := indexes + [i];
      }
    }
    if indexes == [] {
      return None;
    }
    if |indexes| > 1 {
      assert batch[indexes[0]].SystemMessage? && indexes[0] < indexes[1];
      return Some(Unprocessable);
    }
    var index := indexes[0];
    if index != |batch| - 1 {
      return Some(Unprocessable);
    }
    if index == 0
      || !(batch[index - 1].UserCustomToolResult? || batch[index - 1].UserMessage? || batch[index - 1].UserToolResult?)
    {
      return Some(Unprocessable);
    }
    error := None;
  }

  method ValidateEventBatch(s: Session, batch: seq<EventType>) returns (error: Option<Refusal>)
    ensures error == BatchError(s, batch)
  {
    error := ValidateSystemMessageBatch(batch);
    if error.Some? {
      return;
    }
    for i := 0 to |batch|
      invariant UserDefineOutcome(false) !in batch[..i]
    {
      if batch[i] == UserDefineOutcome(false) {
        return Some(Unprocessable);
      }
    }
    if BlocksMutation(s.status) {
      return if batch == [UserInterrupt] then None else Some(Conflict);
    }
    if IsWaitingForAction(s.stop) {
      if batch == [UserInterrupt] {
        return None;
      }
      var results := WithoutSystem(batch);
      if results == [] || exists r | r in results :: !IsActionResult(r) {
        return Some(Conflict);
      }
      error := ValidateActionResults(s, results);
      return;
    }
    if exists t | t in batch :: IsActionResult(t) {
      return Some(Conflict);
    }
    error := None;
  }

  // ------------------------------------------------------------ the row object

  class SessionRow {
    var status: Status
    var stop: StopReason
    var attempt: nat
    var deleted: bool
    var lastSeq: nat
    var log: seq<Event>
    var enqueued: nat

    function View(): Session
      reads this
    {
      Session(status, stop, attempt, deleted, lastSeq, log)
    }

    constructor (s: Session)
      ensures View() == s && enqueued == 0
    {
      status, stop, attempt := s.status, s.stop, s.attempt;
      deleted, lastSeq, log := s.deleted, s.lastSeq, s.log;
      enqueued := 0;
    }

    method AppendEvent(t: EventType) returns (id: EventId)
      modifies this`lastSeq, this`log
      ensures View() == Append(old(View()), [t])
      ensures id == old(lastSeq) + 1
    {
      lastSeq := lastSeq + 1;
      log := log + [Event(lastSeq, t)];
      id := lastSeq;
      assert Numbered(old(lastSeq), [t]) == [Event(lastSeq, t)];
    }

    // Only the columns that are given are written.
    method UpdateSession(newStatus: Option<Status>, newStop: Option<StopReason>, newAttempt: Option<nat>)
      modifies this`status, this`stop, this`attempt
      ensures View() == old(View()).(
                status := if newStatus.Some? then newStatus.value else old(status),
                stop := if newStop.Some? then newStop.value else old(stop),
                attempt := if newAttempt.Some? then newAttempt.value else old(attempt))
    {
      if newStatus.Some? {
        status := newStatus.value;
      }
      if newAttempt.Some? {
        attempt := newAttempt.value;
      }
      if newStop.Some? {
        stop := newStop.value;
      }
    }

    method CheckAllPendingActionsResolved() returns (all: bool)
      ensures all == AllPendingActionsResolved(View())
    {
      var pending := PendingActionIds(stop);
      if pending == {} {
        return false;
      }
      var resolved := CollectResolved(History(View()));
      all := pending <= resolved;
    }

    // The loop of send_events: it appends the events one by one and decides on
    // the way whether work starts.
    method AppendBatch(batch: seq<EventType>) returns (flags: BatchFlags)
      modifies this`lastSeq, this`log
      ensures View() == Append(old(View()), batch)
      ensures flags == FlagsAfter(old(View()), batch)
    {
      ghost var s := View();
      var interrupt, shouldRun, resolved := false, false, false;
      AppendNothing(s);
      for i := 0 to |batch|
        invariant View() == Append(s, batch[..i])
        invariant BatchFlags(interrupt, shouldRun, resolved) == FlagsAfter(s, batch[..i])
      {
        var _ := AppendEvent(batch[i]);
        AppendTwice(s, batch[..i], [batch[i]]);
        assert batch[..i + 1] == batch[..i] + [batch[i]];
        assert batch[..i + 1][..i] == batch[..i];
        if batch[i].UserInterrupt? {
          interrupt := true;
        } else if StartsWork(batch[i]) {
          shouldRun := true;
        } else if IsActionResult(batch[i]) {
          resolved := CheckAllPendingActionsResolved();
          shouldRun := resolved;
        }
      }
      assert batch[..|batch|] == batch;
      flags := BatchFlags(interrupt, shouldRun, resolved);
    }

    method SendEvents(batch: seq<EventType>, archived: bool, environmentFound: bool)
      returns (error: Option<Refusal>)
      modifies this
      ensures enqueued >= old(enqueued)
      ensures AsEffect(error, View(), enqueued - old(enqueued))
           == SendEffect(old(View()), batch, archived, environmentFound)
      ensures error.Some? ==> unchanged(this)
    {
      if batch == [] {
        return Some(Unprocessable);
      }
      if deleted {
        return Some(NotFound);
      }
      if archived || status == Terminated {
        return Some(Conflict);
      }
      if !environmentFound {
        return Some(NotFound);
      }
      error := ValidateEventBatch(View(), batch);
      if error.Some? {
        return;
      }
      var flags := AppendBatch(batch);
      AcceptedIsUnmixed(old(View()), batch);
      FlagsOfUnmixedBatch(old(View()), batch);
      if flags.interrupt {
        UpdateSession(Some(Idle), Some(Interrupted), None);
        var _ := AppendEvent(SessionStatus(Idle, Interrupted));
      } else if flags.shouldRun {
        if flags.resolved {
          UpdateSession(Some(Idle), Some(ActionSubmitted), None);
        }
        enqueued := enqueued + 1;
      }
    }

    method CancelSession() returns (error: Option<Refusal>)
      modifies this
      ensures enqueued == old(enqueued)
      ensures AsEffect(error, View(), 0) == CancelEffect(old(View()))
      ensures error.Some? ==> unchanged(this)
    {
      if deleted {
        return Some(NotFound);
      }
      UpdateSession(Some(Terminated), Some(Cancelled), None);
      var _ := AppendEvent(SessionStatus(Terminated, Cancelled));
      error := None;
    }

    method DeleteSession() returns (error: Option<Refusal>)
      modifies this
      ensures enqueued == old(enqueued)
      ensures AsEffect(error, View(), 0) == DeleteEffect(old(View()))
      ensures error.Some? ==> unchanged(this)
    {
      if deleted {
        return Some(NotFound);
      }
      if BlocksMutation(status) {
        return Some(Conflict);
      }
      deleted := true;
      status := Terminated;
      var _ := AppendEvent(SessionDeleted);
      error := None;
    }

    method ResumeSession(environmentFound: bool) returns (error: Option<Refusal>)
      modifies this`enqueued
      ensures enqueued >= old(enqueued)
      ensures AsEffect(error, View(), enqueued - old(enqueued)) == ResumeEffect(old(View()), environmentFound)
      ensures error.Some? ==> unchanged(this)
    {
      if deleted {
        return Some(NotFound);
      }
      if status == Terminated || IsWaitingForAction(stop) || !CanStartWork(status, stop) {
        return Some(Conflict);
      }
      if !environmentFound {
        return Some(NotFound);
      }
      enqueued := enqueued + 1;
      error := None;
    }

    // The first transaction of a turn.
    method StartTurn() returns (error: Option<Refusal>)
      modifies this
      ensures enqueued == old(enqueued)
      ensures AsEffect(error, View(), 0) == StartEffect(old(View()))
      ensures error.Some? ==> unchanged(this)
    {
      if deleted {
        return Some(NothingToDo);
      }
      if !CanStartWork(status, stop) {
        return Some(NothingToDo);
      }
      UpdateSession(Some(Running), Some(InProgress), None);
      var _ := AppendEvent(SessionStatus(Running, InProgress));
      error := None;
    }

    method AppendRuntimeContextEvents(missing: nat)
      modifies this`lastSeq, this`log
      ensures Done(View(), 0) == ContextEffect(old(View()), missing)
    {
      ghost var s := View();
      AppendNothing(s);
      for i := 0 to missing
        invariant View() == Append(s, MissingCredentialEvents(i))
      {
        var _ := AppendEvent(SessionError(false));
        AppendTwice(s, MissingCredentialEvents(i), [SessionError(false)]);
        assert MissingCredentialEvents(i + 1) == MissingCredentialEvents(i) + [SessionError(false)];
      }
    }

    method AppendToolEvents(r: RunResult) returns (blocking: seq<EventId>)
      modifies this`lastSeq, this`log
      ensures View() == Append(old(View()), ToolTypes(r.tools))
      ensures blocking == BlockingIds(old(lastSeq), r, r.tools)
    {
      ghost var s := View();
      blocking := [];
      AppendNothing(s);
      for i := 0 to |r.tools|
        invariant View() == Append(s, ToolTypes(r.tools[..i]))
        invariant blocking == BlockingIds(s.lastSeq, r, r.tools[..i])
      {
        var id := AppendEvent(r.tools[i].typ);
        AppendTwice(s, ToolTypes(r.tools[..i]), [r.tools[i].typ]);
        assert ToolTypes(r.tools[..i + 1]) == ToolTypes(r.tools[..i]) + [r.tools[i].typ];
        assert r.tools[..i + 1][..i] == r.tools[..i];
        if IsRequiredActionEvent(r, r.tools[i]) {
          blocking := blocking + [id];
        }
      }
      assert r.tools[..|r.tools|] == r.tools;
    }

    // The last transaction of a turn that ran without an exception.
    method FinishTurn(r: RunResult) returns (error: Option<Refusal>)
      modifies this
      ensures enqueued == old(enqueued)
      ensures AsEffect(error, View(), 0) == FinishEffect(old(View()), r)
      ensures error.Some? ==> unchanged(this)
    {
      ghost var s := View();
      if status != Running || IsWaitingForAction(stop) {
        return Some(NothingToDo);
      }
      ghost var appended := ToolTypes(r.tools);
      var blocking := AppendToolEvents(r);
      error := None;
      if r.requiresAction {
        var waiting := RequiresAction(blocking);
        UpdateSession(Some(Idle), Some(waiting), Some(0));
        var _ := AppendEvent(SessionStatus(Idle, waiting));
        AppendTwice(s, appended, [SessionStatus(Idle, waiting)]);
        assert OutputTypes(r) == appended;
        return;
      }
      if r.hasText && AgentMessage !in ToolTypes(r.tools) {
        var _ := AppendEvent(AgentMessage);
        AppendTwice(s, appended, [AgentMessage]);
        appended := appended + [AgentMessage];
      }
      if r.hasOutcome {
        var _ := AppendEvent(OutcomeEvaluation);
        AppendTwice(s, appended, [OutcomeEvaluation]);
        appended := appended + [OutcomeEvaluation];
      }
      assert appended == OutputTypes(r);
      UpdateSession(Some(Idle), Some(EndTurn), Some(0));
      var _ := AppendEvent(SessionStatus(Idle, EndTurn));
      AppendTwice(s, appended, [SessionStatus(Idle, EndTurn)]);
    }

    method MarkTransientRuntimeFailure()
      modifies this
      ensures enqueued == old(enqueued)
      ensures Done(View(), 0) == FailEffect(old(View()), true)
    {
      ghost var s := View();
      var next := attempt + 1;
      if next >= MAX_TRANSIENT_RETRY_ATTEMPTS {
        UpdateSession(Some(Terminated), Some(FatalError), Some(next));
        var _ := AppendEvent(SessionError(true));
        var _ := AppendEvent(SessionStatus(Terminated, FatalError));
        AppendTwice(s, [SessionError(true)], [SessionStatus(Terminated, FatalError)]);
        return;
      }
      UpdateSession(Some(Rescheduling), Some(TransientError), Some(next));
      var _ := AppendEvent(SessionError(true));
      var _ := AppendEvent(SessionStatus(Rescheduling, TransientError));
      AppendTwice(s, [SessionError(true)], [SessionStatus(Rescheduling, TransientError)]);
    }

    // The failure handler of a turn. It does not look at the session's status.
    method FailTurn(transient: bool)
      modifies this
      ensures enqueued == old(enqueued)
      ensures Done(View(), 0) == FailEffect(old(View()), transient)
    {
      ghost var s := View();
      if transient {
        MarkTransientRuntimeFailure();
        return;
      }
      UpdateSession(Some(Terminated), Some(FatalError), None);
      var _ := AppendEvent(SessionError(false));
      var _ := AppendEvent(SessionStatus(Terminated, FatalError));
      AppendTwice(s, [SessionError(false)], [SessionStatus(Terminated, FatalError)]);
    }
  }
}
