/**
 The log as the record of the session: what can be read back from it, and what
 the action results in it answer.
 */
module SessionLog {
  import opened Options
  import opened SessionState
  import opened SessionHandlers
  import opened SessionTransaction

  // ------------------------------------------------------- replaying the log

  // The status an event names, if it names one.
  function Named(t: EventType): Option<Status> {
    match t
    case SessionStatus(status, _) => Some(status)
    case SessionDeleted => Some(Terminated)
    case _ => None
  }

  // The status of a session that starts at `status` and sees events of `types`.
  function StatusAfter(status: Status, types: seq<EventType>): Status {
    if types == [] then status
    else
      var named := Named(types[|types| - 1]);
      if named.Some? then named.value else StatusAfter(status, types[..|types| - 1])
  }

  // The number of transient failures since the last turn that ended by itself.
  function FailuresAfter(count: nat, types: seq<EventType>): nat {
    if types == [] then count
    else
      match types[|types| - 1]
      case SessionError(true) => FailuresAfter(count, types[..|types| - 1]) + 1
      case SessionStatus(Idle, EndTurn) => 0
      case SessionStatus(Idle, RequiresAction(_)) => 0
      case _ => FailuresAfter(count, types[..|types| - 1])
  }

  function Types(log: seq<Event>): (types: seq<EventType>)
    ensures |types| == |log|
  {
    seq(|log|, i requires 0 <= i < |log| => log[i].typ)
  }

  lemma TypesOfAppend(s: Session, types: seq<EventType>)
    ensures Types(Append(s, types).log) == Types(s.log) + types
  {
  }

  lemma {:induction false} StatusAfterBoth(status: Status, first: seq<EventType>, second: seq<EventType>)
    ensures StatusAfter(status, first + second) == StatusAfter(StatusAfter(status, first), second)
  {
    if second == [] {
      assert first + second == first;
    } else {
      assert (first + second)[..|first + second| - 1] == first + second[..|second| - 1];
      StatusAfterBoth(status, first, second[..|second| - 1]);
    }
  }

  lemma {:induction false} FailuresAfterBoth(count: nat, first: seq<EventType>, second: seq<EventType>)
    ensures FailuresAfter(count, first + second) == FailuresAfter(FailuresAfter(count, first), second)
  {
    if second == [] {
      assert first + second == first;
    } else {
      assert (first + second)[..|first + second| - 1] == first + second[..|second| - 1];
      FailuresAfterBoth(count, first, second[..|second| - 1]);
    }
  }

  // An event type that neither names a status nor counts as a transient failure.
  predicate IsSilent(t: EventType) {
    Named(t).None? && t != SessionError(true)
  }

  lemma {:induction false} SilentTypes(status: Status, count: nat, types: seq<EventType>)
    requires forall t | t in types :: IsSilent(t)
    ensures StatusAfter(status, types) == status
    ensures FailuresAfter(count, types) == count
  {
    if types != [] {
      assert types[|types| - 1] in types;
      assert forall t | t in types[..|types| - 1] :: t in types;
      SilentTypes(status, count, types[..|types| - 1]);
    }
  }

  // Clients send client events and the executor emits agent events.
  ghost predicate FollowsProtocol(h: Handler) {
    match h
    case Send(batch, _, _) => forall t | t in batch :: IsClientType(t)
    case Finish(r) => forall tool | tool in r.tools :: IsAgentType(tool.typ)
    case _ => true
  }

  // A status_running event comes only where the status, or what the events so far
  // have named, is another one.
  ghost predicate RunningAlternatesFrom(status: Status, types: seq<EventType>) {
    forall j | 0 <= j < |types| && types[j] == SessionStatus(Running, InProgress) ::
      StatusAfter(status, types[..j]) != Running
  }

  ghost predicate RunningAlternates(types: seq<EventType>) {
    RunningAlternatesFrom(Idle, types)
  }

  // The row is what a replay of the log gives.
  ghost predicate Recorded(s: Session) {
    && s.status == StatusAfter(Idle, Types(s.log))
    && s.attempt == FailuresAfter(0, Types(s.log))
    && RunningAlternates(Types(s.log))
  }

  // A session waits for action results only while idle, or once deleted.
  ghost predicate WaitsIdle(s: Session) {
    IsWaitingForAction(s.stop) ==> s.status == Idle || s.deleted
  }

  lemma AlternatesAfter(first: seq<EventType>, second: seq<EventType>)
    requires RunningAlternates(first)
    requires RunningAlternatesFrom(StatusAfter(Idle, first), second)
    ensures RunningAlternates(first + second)
  {
    hide StatusAfter;
    var all := first + second;
    forall j | 0 <= j < |all| && all[j] == SessionStatus(Running, InProgress)
      ensures StatusAfter(Idle, all[..j]) != Running
    {
      if j < |first| {
        assert all[..j] == first[..j];
        assert first[j] == SessionStatus(Running, InProgress);
      } else {
        assert all[..j] == first + second[..j - |first|];
        StatusAfterBoth(Idle, first, second[..j - |first|]);
        assert second[j - |first|] == SessionStatus(Running, InProgress);
      }
    }
  }

  lemma RecordedAfter(s: Session, s': Session, types: seq<EventType>)
    requires Recorded(s)
    requires Types(s'.log) == Types(s.log) + types
    requires s'.status == StatusAfter(s.status, types)
    requires s'.attempt == FailuresAfter(s.attempt, types)
    requires RunningAlternatesFrom(s.status, types)
    ensures Recorded(s')
  {
    hide StatusAfter, FailuresAfter, RunningAlternates, Types;
    StatusAfterBoth(Idle, Types(s.log), types);
    FailuresAfterBoth(0, Types(s.log), types);
    AlternatesAfter(Types(s.log), types);
  }

  // What follows silent events decides.
  lemma SilentThen(status: Status, count: nat, silent: seq<EventType>, t: EventType)
    requires forall u | u in silent :: IsSilent(u)
    ensures StatusAfter(status, silent + [t]) == StatusAfter(status, [t])
    ensures FailuresAfter(count, silent + [t]) == FailuresAfter(count, [t])
  {
    SilentTypes(status, count, silent);
    StatusAfterBoth(status, silent, [t]);
    FailuresAfterBoth(count, silent, [t]);
    assert (silent + [t])[..|silent|] == silent;
  }

  lemma SendKeepsRecorded(s: Session, batch: seq<EventType>, archived: bool, environmentFound: bool)
    requires Recorded(s) && WaitsIdle(s)
    requires FollowsProtocol(Send(batch, archived, environmentFound))
    requires SendEffect(s, batch, archived, environmentFound).Done?
    ensures Recorded(SendEffect(s, batch, archived, environmentFound).session)
  {
    var s' := SendEffect(s, batch, archived, environmentFound).session;
    SilentTypes(s.status, s.attempt, batch);
    TypesOfAppend(s, batch);
    forall j | 0 <= j < |batch|
      ensures batch[j] != SessionStatus(Running, InProgress)
    {
      assert batch[j] in batch;
    }
    if UserInterrupt in batch {
      AppendTwice(s, batch, [SessionStatus(Idle, Interrupted)]);
      TypesOfAppend(s, batch + [SessionStatus(Idle, Interrupted)]);
      SilentThen(s.status, s.attempt, batch, SessionStatus(Idle, Interrupted));
      RecordedAfter(s, s', batch + [SessionStatus(Idle, Interrupted)]);
    } else {
      if Releases(s, batch) {
        AcceptedResultBatch(s, batch);
      }
      RecordedAfter(s, s', batch);
    }
  }

  lemma FinishKeepsRecorded(s: Session, r: RunResult)
    requires Recorded(s) && FollowsProtocol(Finish(r)) && FinishEffect(s, r).Done?
    ensures Recorded(FinishEffect(s, r).session)
  {
    var closing := SessionStatus(Idle, FinishStop(s, r));
    TypesOfAppend(s, OutputTypes(r) + [closing]);
    forall t | t in OutputTypes(r)
      ensures IsSilent(t)
    {
      if t in ToolTypes(r.tools) {
        var i :| 0 <= i < |r.tools| && r.tools[i].typ == t;
        assert r.tools[i] in r.tools;
      }
    }
    SilentThen(s.status, s.attempt, OutputTypes(r), closing);
    RecordedAfter(s, FinishEffect(s, r).session, OutputTypes(r) + [closing]);
  }

  // Every handler that follows the protocol leaves a row that its log records.
  lemma ApplyKeepsRecorded(s: Session, h: Handler)
    requires Recorded(s) && WaitsIdle(s) && FollowsProtocol(h)
    requires Apply(s, h).Done?
    ensures Recorded(Apply(s, h).session)
  {
    hide Recorded, SendEffect, FinishEffect;
    var s' := Apply(s, h).session;
    match h
    case Send(batch, archived, environmentFound) => SendKeepsRecorded(s, batch, archived, environmentFound);
    case Finish(r) => FinishKeepsRecorded(s, r);
    case Cancel => OneEventKeepsRecorded(s, s', SessionStatus(Terminated, Cancelled));
    case Delete => OneEventKeepsRecorded(s, s', SessionDeleted);
    case Update(_, _, _) => OneEventKeepsRecorded(s, s', SessionUpdated);
    case Start => OneEventKeepsRecorded(s, s', SessionStatus(Running, InProgress));
    case Context(missing) =>
      TypesOfAppend(s, MissingCredentialEvents(missing));
      SilentTypes(s.status, s.attempt, MissingCredentialEvents(missing));
      RecordedAfter(s, s', MissingCredentialEvents(missing));
    case Fail(transient) => FailKeepsRecorded(s, transient);
    case _ =>
  }

  lemma FailKeepsRecorded(s: Session, transient: bool)
    requires Recorded(s)
    ensures Recorded(FailEffect(s, transient).session)
  {
    hide Recorded;
    var s' := FailEffect(s, transient).session;
    var closing := SessionStatus(s'.status, s'.stop);
    TypesOfAppend(s, [SessionError(transient), closing]);
    assert s'.log == Append(s, [SessionError(transient), closing]).log;
    assert [SessionError(transient), closing][..1] == [SessionError(transient)];
    assert FailuresAfter(s.attempt, [SessionError(transient)]) == if transient then s.attempt + 1 else s.attempt;
    RecordedAfter(s, s', [SessionError(transient), closing]);
  }

  lemma OneEventKeepsRecorded(s: Session, s': Session, t: EventType)
    requires Recorded(s) && s'.log == Append(s, [t]).log
    requires s'.status == StatusAfter(s.status, [t]) && s'.attempt == FailuresAfter(s.attempt, [t])
    requires t == SessionStatus(Running, InProgress) ==> s.status != Running
    ensures Recorded(s')
  {
    hide Recorded;
    TypesOfAppend(s, [t]);
    RecordedAfter(s, s', [t]);
  }

  lemma ApplyKeepsWaitsIdle(s: Session, h: Handler)
    requires WaitsIdle(s) && Apply(s, h).Done?
    ensures WaitsIdle(Apply(s, h).session)
  {
  }

  lemma CreatedIsRecorded()
    ensures Recorded(Created()) && WaitsIdle(Created())
  {
    assert Types(Created().log) == [SessionStatus(Idle, EndTurn)];
  }

  // Between two status_running events the log names another status.
  lemma RunningEventsAreSeparated(s: Session, i: nat, j: nat)
    requires Recorded(s)
    requires i < j < |s.log|
    requires s.log[i].typ == s.log[j].typ == SessionStatus(Running, InProgress)
    ensures exists k | i < k < j :: Named(s.log[k].typ).Some? && Named(s.log[k].typ) != Some(Running)
  {
    var types := Types(s.log);
    if forall k | i < k < j :: Named(types[k]) in {None, Some(Running)} {
      StaysRunning(types, i, j);
      assert false;
    }
    var k :| i < k < j && Named(types[k]) !in {None, Some(Running)};
    assert Named(s.log[k].typ) == Named(types[k]);
  }

  lemma {:induction false} StaysRunning(types: seq<EventType>, i: nat, j: nat)
    requires i < j <= |types| && Named(types[i]) == Some(Running)
    requires forall k | i < k < j :: Named(types[k]) in {None, Some(Running)}
    ensures StatusAfter(Idle, types[..j]) == Running
  {
    assert types[..j][..j - 1] == types[..j - 1];
    if i + 1 < j {
      StaysRunning(types, i, j - 1);
    }
  }

  // ------------------------------------- clients that send other event types

  // The last status a batch names.
  function LastNamed(types: seq<EventType>): Option<Status> {
    if types == [] then None
    else
      var named := Named(types[|types| - 1]);
      if named.Some? then named else LastNamed(types[..|types| - 1])
  }

  lemma {:induction false} StatusAfterIsLastNamed(status: Status, types: seq<EventType>)
    ensures StatusAfter(status, types) == if LastNamed(types).Some? then LastNamed(types).value else status
  {
    if types != [] {
      StatusAfterIsLastNamed(status, types[..|types| - 1]);
    }
  }

  // The events an accepted batch adds: itself, and what an interrupt brings.
  function Sent(batch: seq<EventType>): seq<EventType> {
    batch + if UserInterrupt in batch then [SessionStatus(Idle, Interrupted)] else []
  }

  lemma SendAddsSent(s: Session, batch: seq<EventType>, archived: bool, environmentFound: bool)
    requires SendEffect(s, batch, archived, environmentFound).Done?
    ensures var s' := SendEffect(s, batch, archived, environmentFound).session;
      && Types(s'.log) == Types(s.log) + Sent(batch)
      && s'.attempt == s.attempt
      && s'.status == if UserInterrupt in batch || Releases(s, batch) then Idle else s.status
  {
    hide BatchError, Releases;
    TypesOfAppend(s, batch);
    if UserInterrupt in batch {
      AppendTwice(s, batch, [SessionStatus(Idle, Interrupted)]);
      TypesOfAppend(s, batch + [SessionStatus(Idle, Interrupted)]);
    }
  }

  // A batch that releases a session finds it idle.
  lemma ReleasedFromIdle(s: Session, batch: seq<EventType>, archived: bool, environmentFound: bool)
    requires WaitsIdle(s) && SendEffect(s, batch, archived, environmentFound).Done? && Releases(s, batch)
    ensures s.status == Idle
  {
    hide AllPendingActionsResolved, ActionResultsError;
    assert BatchError(s, batch).None?;
    hide BatchError;
    AcceptedResultBatch(s, batch);
  }

  // Nothing stops a client from sending a `session.status_*` event. The log
  // still records the status after a batch exactly when the batch interrupts,
  // names no status, or names the current one last.
  lemma SendIsRecordedIff(s: Session, batch: seq<EventType>, archived: bool, environmentFound: bool)
    requires s.status == StatusAfter(Idle, Types(s.log)) && WaitsIdle(s)
    requires SendEffect(s, batch, archived, environmentFound).Done?
    ensures var s' := SendEffect(s, batch, archived, environmentFound).session;
      s'.status == StatusAfter(Idle, Types(s'.log))
      <==> UserInterrupt in batch || LastNamed(batch) in {None, Some(s.status)}
  {
    hide SendEffect, Releases, StatusAfter, Types, LastNamed;
    SendAddsSent(s, batch, archived, environmentFound);
    if Releases(s, batch) {
      ReleasedFromIdle(s, batch, archived, environmentFound);
    }
    StatusAfterBoth(Idle, Types(s.log), Sent(batch));
    StatusAfterIsLastNamed(s.status, Sent(batch));
    InterruptIsLastNamed(batch);
  }

  lemma InterruptIsLastNamed(batch: seq<EventType>)
    ensures LastNamed(Sent(batch)) == if UserInterrupt in batch then Some(Idle) else LastNamed(batch)
  {
    if UserInterrupt !in batch {
      assert Sent(batch) == batch;
    }
  }

  predicate EndsCount(t: EventType) {
    t == SessionStatus(Idle, EndTurn) || (t.SessionStatus? && t.status == Idle && t.stopReason.RequiresAction?)
  }

  // The transient errors of a batch behind the last event that ends the count.
  function ErrorsBehind(types: seq<EventType>): nat {
    if types == [] || EndsCount(types[|types| - 1]) then 0
    else ErrorsBehind(types[..|types| - 1]) + (if types[|types| - 1] == SessionError(true) then 1 else 0)
  }

  lemma {:induction false} FailuresAfterIsErrorsBehind(count: nat, types: seq<EventType>)
    ensures FailuresAfter(count, types) ==
      ErrorsBehind(types) + (if exists t | t in types :: EndsCount(t) then 0 else count)
  {
    if types != [] {
      var before, last := types[..|types| - 1], types[|types| - 1];
      assert types == before + [last];
      FailuresAfterIsErrorsBehind(count, before);
    }
  }

  // The log still records the retry counter exactly when the batch forges no
  // transient error and no end of a turn, or as many errors behind its last
  // forged end as the counter says.
  lemma SendKeepsCountIff(s: Session, batch: seq<EventType>, archived: bool, environmentFound: bool)
    requires s.attempt == FailuresAfter(0, Types(s.log))
    requires SendEffect(s, batch, archived, environmentFound).Done?
    ensures var s' := SendEffect(s, batch, archived, environmentFound).session;
      s'.attempt == FailuresAfter(0, Types(s'.log))
      <==> ErrorsBehind(batch) == if exists t | t in batch :: EndsCount(t) then s.attempt else 0
  {
    hide SendEffect, Types, FailuresAfter, ErrorsBehind;
    SendAddsSent(s, batch, archived, environmentFound);
    FailuresAfterBoth(0, Types(s.log), Sent(batch));
    SentCountsLikeBatch(s.attempt, batch);
    FailuresAfterIsErrorsBehind(s.attempt, batch);
  }

  lemma SentCountsLikeBatch(count: nat, batch: seq<EventType>)
    ensures FailuresAfter(count, Sent(batch)) == FailuresAfter(count, batch)
  {
    if UserInterrupt in batch {
      assert Sent(batch)[..|batch|] == batch;
    } else {
      assert Sent(batch) == batch;
    }
  }

  // Running events stay separated in the log exactly when those the batch
  // forges are, from the session's status on.
  lemma SendKeepsSeparationIff(s: Session, batch: seq<EventType>, archived: bool, environmentFound: bool)
    requires s.status == StatusAfter(Idle, Types(s.log)) && RunningAlternates(Types(s.log))
    requires SendEffect(s, batch, archived, environmentFound).Done?
    ensures RunningAlternates(Types(SendEffect(s, batch, archived, environmentFound).session.log))
       <==> RunningAlternatesFrom(s.status, batch)
  {
    hide SendEffect, Types, StatusAfter;
    SendAddsSent(s, batch, archived, environmentFound);
    var first, second := Types(s.log), Sent(batch);
    if RunningAlternatesFrom(s.status, batch) {
      forall j | 0 <= j < |second| && second[j] == SessionStatus(Running, InProgress)
        ensures StatusAfter(StatusAfter(Idle, first), second[..j]) != Running
      {
        assert second[..j] == batch[..j] && batch[j] == second[j];
      }
      AlternatesAfter(first, second);
    }
    if RunningAlternates(first + second) {
      forall j | 0 <= j < |batch| && batch[j] == SessionStatus(Running, InProgress)
        ensures StatusAfter(s.status, batch[..j]) != Running
      {
        assert (first + second)[|first| + j] == batch[j];
        assert (first + second)[..|first| + j] == first + batch[..j];
        StatusAfterBoth(Idle, first, batch[..j]);
      }
    }
  }

  lemma AClientCanForgeAStatus()
    ensures var s := Created();
      var effect := SendEffect(s, [SessionStatus(Terminated, Cancelled)], false, true);
      && effect.Done?
      && effect.session.status == Idle
      && StatusAfter(Idle, Types(effect.session.log)) == Terminated
  {
    var s := Created();
    var forged := SessionStatus(Terminated, Cancelled);
    assert forall t | t in [forged] :: t == forged;
    assert BatchError(s, [forged]).None?;
    TypesOfAppend(s, [forged]);
    StatusAfterBoth(Idle, Types(s.log), [forged]);
  }

  // --------------------------------------------------------- action results

  lemma {:induction false} EventsByIdOfNumbered(events: seq<Event>)
    requires forall i | 0 <= i < |events| :: events[i].seqNo == i + 1
    ensures forall id :: id in EventsById(events) <==> 1 <= id <= |events|
    ensures forall id | id in EventsById(events) :: EventsById(events)[id] == events[id - 1].typ
  {
    if events != [] {
      EventsByIdOfNumbered(events[..|events| - 1]);
    }
  }

  lemma {:induction false} EachResultIsAccepted(s: Session, results: seq<EventType>, k: nat)
    requires k < |results| && ActionResultsError(s, results).None?
    ensures ActionResultError(s, results[k], Targets(results[..k])).None?
  {
    if k < |results| - 1 {
      assert results[..|results| - 1][..k] == results[..k];
      EachResultIsAccepted(s, results[..|results| - 1], k);
    }
  }

  lemma {:induction false} SystemMessageIsLast(batch: seq<EventType>)
    requires SystemMessagePlaced(batch)
    ensures WithoutSystem(batch) == batch
         || (batch != [] && WithoutSystem(batch) == batch[..|batch| - 1] && batch[|batch| - 1].SystemMessage?)
  {
    if batch != [] {
      var before := batch[..|batch| - 1];
      NoSystemMessage(before);
      assert batch == before + [batch[|batch| - 1]];
    }
  }

  lemma {:induction false} NoSystemMessage(batch: seq<EventType>)
    requires forall i | 0 <= i < |batch| :: !batch[i].SystemMessage?
    ensures WithoutSystem(batch) == batch
  {
    if batch != [] {
      NoSystemMessage(batch[..|batch| - 1]);
    }
  }

  // The conditions under which a result at position `k` of an accepted batch was taken.
  lemma AcceptedAnswer(s: Session, batch: seq<EventType>, k: nat)
    requires WellNumbered(s) && BatchError(s, batch).None?
    requires k < |batch| && ActionResultTarget(batch[k]).Some?
    ensures var id := ActionResultTarget(batch[k]).value;
      && id in PendingActionIds(s.stop)
      && id !in ResolvedActionIds(History(s))
      && 1 <= id <= |History(s)|
      && MismatchError(batch[k], s.log[id - 1].typ).None?
      && (forall j | 0 <= j < k :: ActionResultTarget(batch[j]) != Some(id))
  {
    hide MismatchError, PendingActionIds, ResolvedActionIds;
    assert batch[k] in batch;
    AcceptedResultBatch(s, batch);
    SystemMessageIsLast(batch);
    var results := WithoutSystem(batch);
    assert results[k] == batch[k];
    EachResultIsAccepted(s, results, k);
    EventsByIdOfNumbered(History(s));
    forall j | 0 <= j < k
      ensures ActionResultTarget(batch[j]) != ActionResultTarget(batch[k])
    {
      assert results[j] in results[..k] && results[j] == batch[j];
    }
  }

  // Each result in the log answers an earlier event it fits, and two results
  // answer the same event only if the earlier lies beyond the first
  // HISTORY_LIMIT events.
  ghost predicate AnsweredOnce(s: Session) {
    AnswersFit(s.log) && AnswersDistinct(s.log)
  }

  ghost predicate AnswersFit(log: seq<Event>) {
    forall j | 0 <= j < |log| && ActionResultTarget(log[j].typ).Some? ::
      var id := ActionResultTarget(log[j].typ).value;
      1 <= id <= HISTORY_LIMIT && id <= j && MismatchError(log[j].typ, log[id - 1].typ).None?
  }

  ghost predicate AnswersDistinct(log: seq<Event>) {
    forall i, j | 0 <= i < j < |log| && ActionResultTarget(log[i].typ).Some? ::
      ActionResultTarget(log[i].typ) == ActionResultTarget(log[j].typ) ==> HISTORY_LIMIT <= i
  }

  lemma AnsweredOnceAfterOthers(s: Session, s': Session, types: seq<EventType>)
    requires AnsweredOnce(s) && s'.log == Append(s, types).log
    requires forall t | t in types :: ActionResultTarget(t).None?
    ensures AnsweredOnce(s')
  {
    forall j | |s.log| <= j < |s'.log|
      ensures ActionResultTarget(s'.log[j].typ).None?
    {
      assert s'.log[j].typ == types[j - |s.log|] && types[j - |s.log|] in types;
    }
  }

  lemma ResolvedInHistory(s: Session, i: nat)
    requires i < |s.log| && i < HISTORY_LIMIT
    requires ActionResultTarget(s.log[i].typ).Some?
    ensures ActionResultTarget(s.log[i].typ).value in ResolvedActionIds(History(s))
  {
    assert History(s)[i] == s.log[i];
    assert s.log[i] in History(s);
  }

  // The answer that the k-th event of an accepted batch gives.
  lemma NewAnswer(s: Session, batch: seq<EventType>, k: nat, i: nat)
    requires WellNumbered(s) && BatchError(s, batch).None?
    requires k < |batch| && ActionResultTarget(batch[k]).Some?
    requires i < |s.log| + k
    requires ActionResultTarget(Append(s, batch).log[i].typ) == ActionResultTarget(batch[k])
    ensures HISTORY_LIMIT <= i
  {
    AcceptedAnswer(s, batch, k);
    if i < |s.log| {
      if i < HISTORY_LIMIT {
        ResolvedInHistory(s, i);
        assert false;
      }
    }
  }

  lemma AnsweredOnceAfterBatch(s: Session, batch: seq<EventType>)
    requires WellNumbered(s) && AnsweredOnce(s) && BatchError(s, batch).None?
    ensures AnsweredOnce(Append(s, batch))
  {
    hide AnswersFit, AnswersDistinct, BatchError, Append;
    NewAnswersFit(s, batch);
    NewAnswersDistinct(s, batch);
  }

  lemma NewAnswersFit(s: Session, batch: seq<EventType>)
    requires WellNumbered(s) && AnswersFit(s.log) && BatchError(s, batch).None?
    ensures AnswersFit(Append(s, batch).log)
  {
    hide BatchError, MismatchError, ActionResultTarget, PendingActionIds, ResolvedActionIds;
    var log, n := Append(s, batch).log, |s.log|;
    forall j | 0 <= j < |log| && ActionResultTarget(log[j].typ).Some?
      ensures var id := ActionResultTarget(log[j].typ).value;
        1 <= id <= HISTORY_LIMIT && id <= j && MismatchError(log[j].typ, log[id - 1].typ).None?
    {
      if n <= j {
        assert log[j].typ == batch[j - n];
        AcceptedAnswer(s, batch, j - n);
        assert log[ActionResultTarget(log[j].typ).value - 1] == s.log[ActionResultTarget(log[j].typ).value - 1];
      } else {
        assert log[j] == s.log[j];
      }
    }
  }

  lemma NewAnswersDistinct(s: Session, batch: seq<EventType>)
    requires WellNumbered(s) && AnswersDistinct(s.log) && BatchError(s, batch).None?
    ensures AnswersDistinct(Append(s, batch).log)
  {
    hide BatchError, MismatchError, ActionResultTarget, PendingActionIds, ResolvedActionIds;
    var log, n := Append(s, batch).log, |s.log|;
    forall i, j | 0 <= i < j < |log| && ActionResultTarget(log[i].typ).Some?
                  && ActionResultTarget(log[i].typ) == ActionResultTarget(log[j].typ)
      ensures HISTORY_LIMIT <= i
    {
      if n <= j {
        assert log[j].typ == batch[j - n];
        NewAnswer(s, batch, j - n, i);
      } else {
        assert log[i] == s.log[i] && log[j] == s.log[j];
      }
    }
  }

  lemma OutputAnswersNothing(r: RunResult)
    requires FollowsExecutorProtocol(Finish(r))
    ensures forall t | t in OutputTypes(r) :: ActionResultTarget(t).None?
  {
    forall t | t in OutputTypes(r)
      ensures ActionResultTarget(t).None?
    {
      if t in ToolTypes(r.tools) {
        var i :| 0 <= i < |r.tools| && r.tools[i].typ == t;
        assert r.tools[i] in r.tools;
      }
    }
  }

  // Every handler keeps it, given an executor that emits no action results.
  lemma ApplyKeepsAnsweredOnce(s: Session, h: Handler)
    requires WellNumbered(s) && AnsweredOnce(s) && FollowsExecutorProtocol(h)
    requires Apply(s, h).Done?
    ensures AnsweredOnce(Apply(s, h).session)
  {
    hide AnsweredOnce, SendEffect, OutputTypes;
    var s' := Apply(s, h).session;
    match h
    case Send(batch, archived, environmentFound) => SendKeepsAnsweredOnce(s, batch, archived, environmentFound);
    case Finish(r) =>
      OutputAnswersNothing(r);
      AnsweredOnceAfterOthers(s, s', OutputTypes(r) + [SessionStatus(Idle, FinishStop(s, r))]);
    case Cancel => AnsweredOnceAfterOthers(s, s', [SessionStatus(Terminated, Cancelled)]);
    case Delete => AnsweredOnceAfterOthers(s, s', [SessionDeleted]);
    case Update(_, _, _) => AnsweredOnceAfterOthers(s, s', [SessionUpdated]);
    case Start => AnsweredOnceAfterOthers(s, s', [SessionStatus(Running, InProgress)]);
    case Context(missing) => AnsweredOnceAfterOthers(s, s', MissingCredentialEvents(missing));
    case Fail(transient) => FailAnswersNothing(s, transient);
    case _ =>
  }

  lemma SendKeepsAnsweredOnce(s: Session, batch: seq<EventType>, archived: bool, environmentFound: bool)
    requires WellNumbered(s) && AnsweredOnce(s)
    requires SendEffect(s, batch, archived, environmentFound).Done?
    ensures AnsweredOnce(SendEffect(s, batch, archived, environmentFound).session)
  {
    hide BatchError, Releases, WellNumbered;
    var s' := SendEffect(s, batch, archived, environmentFound).session;
    AnsweredOnceAfterBatch(s, batch);
    if UserInterrupt in batch {
      AnsweredOnceAfterOthers(Append(s, batch), s', [SessionStatus(Idle, Interrupted)]);
    } else {
      AppendNothing(Append(s, batch));
      AnsweredOnceAfterOthers(Append(s, batch), s', []);
    }
  }

  lemma FailAnswersNothing(s: Session, transient: bool)
    requires AnsweredOnce(s)
    ensures AnsweredOnce(FailEffect(s, transient).session)
  {
    var s' := FailEffect(s, transient).session;
    AnsweredOnceAfterOthers(s, s', [SessionError(transient), SessionStatus(s'.status, s'.stop)]);
  }

  // The executor emits no action results; clients may send anything.
  ghost predicate FollowsExecutorProtocol(h: Handler) {
    h.Finish? ==> forall tool | tool in h.result.tools :: IsAgentType(tool.typ)
  }

  // What a waiting session takes, an interrupt aside: results for pending events.
  lemma WaitingTakesResults(s: Session, batch: seq<EventType>)
    requires IsWaitingForAction(s.stop) && s.status == Idle
    requires batch != [UserInterrupt] && BatchError(s, batch).None?
    ensures exists t | t in batch :: IsActionResult(t)
    ensures PendingActionIds(s.stop) != {}
    ensures forall t | t in batch :: t != UserInterrupt && !StartsWork(t)
  {
    hide SystemMessagePlaced, WithoutSystem, ResolvedActionIds, EventsById, History, MismatchError;
    var results := WithoutSystem(batch);
    WithoutSystemKeeps(batch);
    assert results != [] && results[0] in results;
    assert results[0] in batch && IsActionResult(results[0]);
    AcceptedResultBatch(s, batch);
    EachResultIsAccepted(s, results, 0);
    assert ActionResultTarget(results[0]).value in PendingActionIds(s.stop);
  }

  // A waiting session that takes a batch of results is released, with one new
  // work item, exactly when nothing pending is left unresolved.
  lemma ReleasedIff(s: Session, batch: seq<EventType>, archived: bool, environmentFound: bool)
    requires IsWaitingForAction(s.stop) && s.status == Idle
    requires batch != [UserInterrupt]
    requires SendEffect(s, batch, archived, environmentFound).Done?
    ensures var Done(s', enqueued) := SendEffect(s, batch, archived, environmentFound);
      if PendingActionIds(s.stop) <= ResolvedActionIds(History(s'))
      then s'.stop == ActionSubmitted && s'.status == Idle && enqueued == 1
      else s'.stop == s.stop && s'.status == Idle && enqueued == 0
  {
    hide BatchError, ResolvedActionIds, PendingActionIds;
    WaitingTakesResults(s, batch);
  }

  // While the log fits a history query, that is: when the batch completes the answers.
  lemma ReleasedWithinHistory(s: Session, batch: seq<EventType>)
    requires |s.log| + |batch| <= HISTORY_LIMIT
    ensures ResolvedActionIds(History(Append(s, batch))) == ResolvedActionIds(s.log) + Targets(batch)
  {
    var s' := Append(s, batch);
    var added := Numbered(s.lastSeq, batch);
    assert History(s') == s.log + added;
    forall e | e in added
      ensures e.typ in batch
    {
      var i :| 0 <= i < |added| && added[i] == e;
      assert e.typ == batch[i];
    }
    forall t | t in batch
      ensures exists e | e in added :: e.typ == t
    {
      var i :| 0 <= i < |batch| && batch[i] == t;
      assert added[i].typ == t && added[i] in added;
    }
    assert ResolvedActionIds(s.log + added) == ResolvedActionIds(s.log) + Targets(batch);
  }

  // ------------------------------------------------------------- retry delay

  const DEFAULT_RETRY_AFTER_SECONDS: nat := 5
  const MAX_RETRY_AFTER_SECONDS: nat := 300

  function Pow2(n: nat): nat {
    if n == 0 then 1 else 2 * Pow2(n - 1)
  }

  function Min(a: int, b: int): int {
    if a <= b then a else b
  }

  // `direct` is the exception's own hint and `header` the response header, as
  // truncated integers where they parse as numbers.
  function RetryAfterSeconds(direct: Option<int>, header: Option<int>, attempt: nat): int {
    if direct.Some? && direct.value > 0 then Min(direct.value, MAX_RETRY_AFTER_SECONDS)
    else if header.Some? && header.value > 0 then Min(header.value, MAX_RETRY_AFTER_SECONDS)
    else Min(DEFAULT_RETRY_AFTER_SECONDS * Pow2(if attempt > 0 then attempt - 1 else 0), MAX_RETRY_AFTER_SECONDS)
  }

  lemma {:induction false} Pow2Grows(m: nat, n: nat)
    requires m <= n
    ensures 1 <= Pow2(m) <= Pow2(n)
    decreases n
  {
    if m < n {
      Pow2Grows(m, n - 1);
    } else if n > 0 {
      Pow2Grows(m - 1, n - 1);
    }
  }

  lemma RetryDelayIsBoundedAndGrows(direct: Option<int>, header: Option<int>, attempt: nat, later: nat)
    requires attempt <= later
    ensures 1 <= RetryAfterSeconds(direct, header, attempt) <= MAX_RETRY_AFTER_SECONDS
    ensures RetryAfterSeconds(None, None, attempt) <= RetryAfterSeconds(None, None, later)
  {
    Pow2Grows(0, if attempt > 0 then attempt - 1 else 0);
    Pow2Grows(if attempt > 0 then attempt - 1 else 0, if later > 0 then later - 1 else 0);
  }
}
