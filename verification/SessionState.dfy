/**
 Session statuses, stop reasons and event types (app/session_state.py), with
 the parts of an event payload that some decision of the service reads.
 */
module SessionState {
  import opened Options

  datatype Status = Idle | Running | Rescheduling | Terminated

  // An event identifier. The service draws a fresh random identifier for each
  // event; within one session it stands for the event as uniquely as the
  // event's sequence number, which is used in its place.
  type EventId = nat

  datatype StopReason =
    | NoStopReason
    | InProgress
    | EndTurn
    | RequiresAction(eventIds: seq<EventId>)
    | Cancelled
    | Interrupted
    | ActionSubmitted
    | TransientError
    | FatalError

  datatype Decision = Allow | Deny | OtherDecision

  datatype EventType =
    | UserMessage
    | UserInterrupt
    | UserDefineOutcome(wellFormed: bool)
    | UserCustomToolResult(target: Option<EventId>)
    | UserToolConfirmation(target: Option<EventId>, decision: Decision, hasDenyMessage: bool)
    | UserToolResult(target: Option<EventId>)
    | SystemMessage
    | AgentMessage
    | AgentCustomToolUse
    | AgentToolUse
    | AgentMcpToolUse
    | SessionStatus(status: Status, stopReason: StopReason)
    | SessionDeleted
    | SessionUpdated
    | SessionError(transient: bool)
    | OutcomeEvaluation
    | OtherEvent(name: string)

  predicate IsWaitingForAction(stop: StopReason) {
    stop.RequiresAction?
  }

  function PendingActionIds(stop: StopReason): set<EventId> {
    if IsWaitingForAction(stop) then set id | id in stop.eventIds else {}
  }

  predicate BlocksMutation(status: Status) {
    status == Running || status == Rescheduling
  }

  predicate CanStartWork(status: Status, stop: StopReason) {
    (status == Idle || status == Rescheduling) && !IsWaitingForAction(stop)
  }

  predicate StartsWork(t: EventType) {
    t.UserMessage? || t.UserDefineOutcome?
  }

  predicate IsActionResult(t: EventType) {
    t.UserCustomToolResult? || t.UserToolConfirmation? || t.UserToolResult?
  }

  // The event types a well-behaved client sends: `user.*` and `system.message`.
  // A type that no decision reads is an `OtherEvent`.
  predicate IsClientType(t: EventType) {
    t.UserMessage? || t.UserInterrupt? || t.UserDefineOutcome? || IsActionResult(t) || t.SystemMessage? || t.OtherEvent?
  }

  // The event types a well-behaved executor emits: `agent.*`. Those that no
  // decision reads (`agent.thinking`, `agent.tool_result`,
  // `agent.mcp_tool_result`) are `OtherEvent`s.
  predicate IsAgentType(t: EventType) {
    t.AgentMessage? || t.AgentCustomToolUse? || t.AgentToolUse? || t.AgentMcpToolUse? || t.OtherEvent?
  }
}
