/**
 Scheduled deployments and the scheduler tick (app/routers/generic_resources.py).
 Instants are integers; `scan` is the list of next runs of a schedule at a clock.
 */
module Scheduler {
  import opened Options

  type AgentId = nat

  datatype Trigger = Manual | Scheduled | OtherTrigger

  datatype RunRow = RunRow(trigger: Trigger, scheduledFor: Option<int>)

  // `cron` is the expression with its time zone.
  datatype Schedule = Schedule(cron: string, enabled: bool, upcoming: seq<int>)

  // Runs are oldest first.
  datatype Deployment = Deployment(
    agent: AgentId, paused: bool, archived: bool, schedule: Option<Schedule>, runs: seq<RunRow>)

  type Scan = (string, int) -> seq<int>

  const LIST_LIMIT: nat := 1000

  // ------------------------------------------------------------------ one deployment

  predicate IsRunFor(run: RunRow, t: int) {
    run.trigger.Scheduled? && run.scheduledFor == Some(t)
  }

  // Only the newest thousand runs are looked at.
  predicate RunExists(runs: seq<RunRow>, t: int) {
    exists k | 0 <= k < |runs| && |runs| - LIST_LIMIT <= k :: IsRunFor(runs[k], t)
  }

  predicate IsEarliest(s: seq<int>, t: int) {
    t in s && forall u | u in s :: t <= u
  }

  function Earliest(s: seq<int>): (r: Option<int>)
    ensures r.None? <==> s == []
    ensures r.Some? ==> IsEarliest(s, r.value)
  {
    if s == [] then None
    else
      var rest := Earliest(s[1..]);
      assert forall u | u in s :: u == s[0] || u in s[1..];
      if rest.Some? && rest.value < s[0] then rest else Some(s[0])
  }

  function DueAt(d: Deployment, now: int): Option<int> {
    if d.paused || d.schedule.None? || !d.schedule.value.enabled then None
    else
      match Earliest(d.schedule.value.upcoming)
      case None => None
      case Some(t) => if t <= now && !RunExists(d.runs, t) then Some(t) else None
  }

  datatype Outcome = Refused | AgentGone | Created

  function Refresh(scan: Scan, schedule: Option<Schedule>, clock: int): Option<Schedule> {
    if schedule.None? then None
    else Some(schedule.value.(upcoming := scan(schedule.value.cron, clock)))
  }

  function RunEffect(
    scan: Scan, d: Deployment, trigger: Trigger, scheduledFor: Option<int>, clock: int, usable: set<AgentId>)
    : (Deployment, Outcome)
  {
    if d.archived || (d.paused && !trigger.Manual?) then (d, Refused)
    else if d.agent !in usable then (d.(archived := true), AgentGone)
    else (d.(schedule := if trigger.Scheduled? then Refresh(scan, d.schedule, clock) else d.schedule,
             runs := d.runs + [RunRow(trigger, scheduledFor)]),
          Created)
  }

  // ------------------------------------------------------------------------ the tick

  datatype TickState = TickState(deployments: seq<Deployment>, created: seq<(nat, int)>, raised: bool)

  predicate Ids(ids: seq<nat>, deployments: seq<Deployment>) {
    forall k | 0 <= k < |ids| :: ids[k] < |deployments|
  }

  // The newest live deployments, newest first.
  function LiveIds(deployments: seq<Deployment>): (ids: seq<nat>)
    ensures Ids(ids, deployments)
  {
    if deployments == [] then []
    else
      var last := |deployments| - 1;
      (if deployments[last].archived then [] else [last]) + LiveIds(deployments[..last])
  }

  function Listed(deployments: seq<Deployment>): (ids: seq<nat>)
    ensures Ids(ids, deployments)
  {
    var ids := LiveIds(deployments);
    if |ids| <= LIST_LIMIT then ids else ids[..LIST_LIMIT]
  }

  // An unusable agent archives the deployment, commits and raises, which ends the tick.
  function TickOne(scan: Scan, st: TickState, id: nat, now: int, clock: int, limit: int, usable: set<AgentId>): TickState
    requires id < |st.deployments|
  {
    if st.raised || |st.created| >= limit then st
    else
      var d := st.deployments[id];
      var due := DueAt(d, now);
      if due.None? then st
      else
        var (d', outcome) := RunEffect(scan, d, Scheduled, due, clock, usable);
        TickState(st.deployments[id := d'],
                  if outcome.Created? then st.created + [(id, due.value)] else st.created,
                  !outcome.Created?)
  }

  function TickOver(
    scan: Scan, deployments: seq<Deployment>, ids: seq<nat>, now: int, clock: int, limit: int, usable: set<AgentId>)
    : (st: TickState)
    requires Ids(ids, deployments)
    ensures |st.deployments| == |deployments|
  {
    if ids == [] then TickState(deployments, [], false)
    else
      var front := ids[..|ids| - 1];
      TickOne(scan, TickOver(scan, deployments, front, now, clock, limit, usable),
              ids[|ids| - 1], now, clock, limit, usable)
  }

  function TickEffect(scan: Scan, deployments: seq<Deployment>, now: int, clock: int, limit: int, usable: set<AgentId>): TickState {
    TickOver(scan, deployments, Listed(deployments), now, clock, limit, usable)
  }

  // Once the tick has stopped, the remaining deployments are not touched.
  lemma {:induction false} StoppedTick(
    scan: Scan, deployments: seq<Deployment>, ids: seq<nat>, n: nat, now: int, clock: int, limit: int, usable: set<AgentId>)
    requires n <= |ids| && Ids(ids, deployments)
    requires var st := TickOver(scan, deployments, ids[..n], now, clock, limit, usable);
      st.raised || |st.created| >= limit
    ensures TickOver(scan, deployments, ids, now, clock, limit, usable) ==
            TickOver(scan, deployments, ids[..n], now, clock, limit, usable)
  {
    if n == |ids| {
      assert ids[..n] == ids;
    } else {
      var front := ids[..|ids| - 1];
      assert front[..n] == ids[..n];
      StoppedTick(scan, deployments, front, n, now, clock, limit, usable);
    }
  }

  // `min` over the listed instants that are not after `now`.
  method ScheduledDeploymentDueAt(d: Deployment, now: int) returns (due: Option<int>)
    ensures due == DueAt(d, now)
  {
    if d.paused || d.schedule.None? || !d.schedule.value.enabled {
      return None;
    }
    var upcoming := d.schedule.value.upcoming;
    var earliest: Option<int> := None;
    for i := 0 to |upcoming|
      invariant earliest.None? ==> forall t | t in upcoming[..i] :: t > now
      invariant earliest.Some? ==> earliest.value <= now && IsEarliest(upcoming[..i], earliest.value)
    {
      assert upcoming[..i + 1] == upcoming[..i] + [upcoming[i]];
      if upcoming[i] <= now && (earliest.None? || upcoming[i] < earliest.value) {
        earliest := Some(upcoming[i]);
      }
    }
    assert upcoming[..|upcoming|] == upcoming;
    if earliest.None? {
      return None;
    }
    var exists_ := ScheduledDeploymentRunExists(d.runs, earliest.value);
    due := if exists_ then None else earliest;
  }

  method ScheduledDeploymentRunExists(runs: seq<RunRow>, t: int) returns (found: bool)
    ensures found == RunExists(runs, t)
  {
    var oldest := if |runs| <= LIST_LIMIT then 0 else |runs| - LIST_LIMIT;
    var k := |runs|;
    while k > oldest
      invariant oldest <= k <= |runs|
      invariant forall j | k <= j < |runs| :: !IsRunFor(runs[j], t)
    {
      k := k - 1;
      if IsRunFor(runs[k], t) {
        return true;
      }
    }
    found := false;
  }

  class DeploymentRows {
    var deployments: seq<Deployment>

    constructor ()
      ensures deployments == []
    {
      deployments := [];
    }

    method RunDeployment(
      scan: Scan, id: nat, trigger: Trigger, scheduledFor: Option<int>, clock: int, usable: set<AgentId>)
      returns (outcome: Outcome)
      requires id < |deployments|
      modifies this
      ensures var (d, o) := RunEffect(scan, old(deployments)[id], trigger, scheduledFor, clock, usable);
        deployments == old(deployments)[id := d] && outcome == o
    {
      var d := deployments[id];
      if d.archived {
        return Refused;
      }
      if d.paused && !trigger.Manual? {
        return Refused;
      }
      if d.agent !in usable {
        deployments := deployments[id := d.(archived := true)];
        return AgentGone;
      }
      if trigger.Scheduled? && d.schedule.Some? {
        var schedule := d.schedule.value;
        schedule := schedule.(upcoming := scan(schedule.cron, clock));
        d := d.(schedule := Some(schedule));
        deployments := deployments[id := d];
      }
      d := d.(runs := d.runs + [RunRow(trigger, scheduledFor)]);
      deployments := deployments[id := d];
      outcome := Created;
    }

    method RunDueScheduledDeployments(scan: Scan, now: int, clock: int, limit: int, usable: set<AgentId>)
      returns (created: seq<(nat, int)>, raised: bool)
      modifies this
      ensures TickState(deployments, created, raised) == TickEffect(scan, old(deployments), now, clock, limit, usable)
    {
      var ids := Listed(deployments);
      ghost var before := deployments;
      created := [];
      for i := 0 to |ids|
        invariant |deployments| == |before|
        invariant TickState(deployments, created, false) == TickOver(scan, before, ids[..i], now, clock, limit, usable)
      {
        if |created| >= limit {
          StoppedTick(scan, before, ids, i, now, clock, limit, usable);
          return created, false;
        }
        assert ids[i] in ids;
        assert ids[..i + 1][..i] == ids[..i];
        var due := ScheduledDeploymentDueAt(deployments[ids[i]], now);
        if due.Some? {
          var outcome := RunDeployment(scan, ids[i], Scheduled, due, clock, usable);
          if !outcome.Created? {
            assert TickState(deployments, created, true) == TickOver(scan, before, ids[..i + 1], now, clock, limit, usable);
            StoppedTick(scan, before, ids, i + 1, now, clock, limit, usable);
            return created, true;
          }
          created := created + [(ids[i], due.value)];
        }
      }
      assert ids[..|ids|] == ids;
      raised := false;
    }
  }

  // ----------------------------------------------------------------- requests and runs

  datatype Action =
    | Tick(now: int, limit: int, usable: set<AgentId>)
    | RunNow(id: nat, trigger: Trigger, scheduledFor: Option<int>, usableNow: set<AgentId>)
    | Create(agent: AgentId, paused: bool, cron: Option<(string, bool)>)
    | Update(id: nat, newAgent: AgentId, newPaused: bool, newCron: Option<(string, bool)>)
    | SetPaused(id: nat, pause: bool)
    | Archive(id: nat)

  // `clock` is the wall clock at the step.
  datatype Step = Step(clock: int, action: Action)

  function NewSchedule(scan: Scan, cron: Option<(string, bool)>, clock: int): Option<Schedule> {
    if cron.None? then None else Some(Schedule(cron.value.0, cron.value.1, scan(cron.value.0, clock)))
  }

  function Next(scan: Scan, ds: seq<Deployment>, step: Step): seq<Deployment> {
    match step.action
    case Tick(now, limit, usable) => TickEffect(scan, ds, now, step.clock, limit, usable).deployments
    case Create(agent, paused, cron) =>
      ds + [Deployment(agent, paused, false, NewSchedule(scan, cron, step.clock), [])]
    case RunNow(id, trigger, scheduledFor, usable) =>
      if id >= |ds| then ds else ds[id := RunEffect(scan, ds[id], trigger, scheduledFor, step.clock, usable).0]
    case Update(id, agent, paused, cron) =>
      if id >= |ds| || ds[id].archived then ds
      else ds[id := Deployment(agent, paused, false, NewSchedule(scan, cron, step.clock), ds[id].runs)]
    case SetPaused(id, pause) =>
      if id >= |ds| || ds[id].archived then ds else ds[id := ds[id].(paused := pause)]
    case Archive(id) =>
      if id >= |ds| then ds else ds[id := ds[id].(archived := true)]
  }

  function Run(scan: Scan, steps: seq<Step>): seq<Deployment> {
    if steps == [] then []
    else Next(scan, Run(scan, steps[..|steps| - 1]), steps[|steps| - 1])
  }

  // Clients start only manual runs; the schedule trigger is the scheduler's.
  predicate ClientsRunManually(steps: seq<Step>) {
    forall s | s in steps :: s.action.RunNow? ==> !s.action.trigger.Scheduled?
  }

  // ---------------------------------------------------- an instant is never run twice

  // Two runs for one instant are more than a thousand runs apart.
  ghost predicate FarApart(runs: seq<RunRow>) {
    forall i, j, t | 0 <= i < j < |runs| && IsRunFor(runs[i], t) && IsRunFor(runs[j], t) :: j - i > LIST_LIMIT
  }

  ghost predicate AllFarApart(ds: seq<Deployment>) {
    forall id | 0 <= id < |ds| :: FarApart(ds[id].runs)
  }

  predicate RunsAgain(runs: seq<RunRow>, run: RunRow) {
    run.trigger.Scheduled? && run.scheduledFor.Some? && RunExists(runs, run.scheduledFor.value)
  }

  // One more run keeps the runs far apart exactly when its instant is not among
  // the newest thousand.
  lemma AppendFarApartIff(runs: seq<RunRow>, run: RunRow)
    requires FarApart(runs)
    ensures FarApart(runs + [run]) <==> !RunsAgain(runs, run)
  {
    var all := runs + [run];
    assert forall k | 0 <= k < |runs| :: all[k] == runs[k];
    assert all[|runs|] == run;
    if RunsAgain(runs, run) {
      var t := run.scheduledFor.value;
      var k :| 0 <= k < |runs| && |runs| - LIST_LIMIT <= k && IsRunFor(runs[k], t);
      assert IsRunFor(all[k], t) && IsRunFor(all[|runs|], t);
    }
  }

  lemma RunFarApartIff(
    scan: Scan, d: Deployment, trigger: Trigger, scheduledFor: Option<int>, clock: int, usable: set<AgentId>)
    requires FarApart(d.runs)
    ensures var (d', outcome) := RunEffect(scan, d, trigger, scheduledFor, clock, usable);
      FarApart(d'.runs) <==> !(outcome.Created? && RunsAgain(d.runs, RunRow(trigger, scheduledFor)))
  {
    hide FarApart, RunExists;
    AppendFarApartIff(d.runs, RunRow(trigger, scheduledFor));
  }

  lemma {:induction false} TickKeepsFarApart(
    scan: Scan, ds: seq<Deployment>, ids: seq<nat>, now: int, clock: int, limit: int, usable: set<AgentId>)
    requires AllFarApart(ds) && Ids(ids, ds)
    ensures AllFarApart(TickOver(scan, ds, ids, now, clock, limit, usable).deployments)
  {
    hide FarApart, RunExists, RunEffect;
    if ids != [] {
      var front, id := ids[..|ids| - 1], ids[|ids| - 1];
      TickKeepsFarApart(scan, ds, front, now, clock, limit, usable);
      var st := TickOver(scan, ds, front, now, clock, limit, usable);
      var due := DueAt(st.deployments[id], now);
      assert FarApart(st.deployments[id].runs);
      RunFarApartIff(scan, st.deployments[id], Scheduled, due, clock, usable);
    }
  }

  // A run that a client starts for an instant among the newest thousand.
  predicate ClientRunsAgain(scan: Scan, ds: seq<Deployment>, step: Step) {
    && step.action.RunNow? && step.action.id < |ds|
    && var a := step.action;
       && RunEffect(scan, ds[a.id], a.trigger, a.scheduledFor, step.clock, a.usableNow).1.Created?
       && RunsAgain(ds[a.id].runs, RunRow(a.trigger, a.scheduledFor))
  }

  lemma StepFarApartIff(scan: Scan, ds: seq<Deployment>, step: Step)
    requires AllFarApart(ds)
    ensures AllFarApart(Next(scan, ds, step)) <==> !ClientRunsAgain(scan, ds, step)
  {
    hide FarApart, TickEffect, RunsAgain, RunEffect;
    NoRuns();
    var ds' := Next(scan, ds, step);
    match step.action
    case Tick(now, limit, usable) => TickEffectKeepsFarApart(scan, ds, now, step.clock, limit, usable);
    case RunNow(id, trigger, scheduledFor, usable) =>
      if id < |ds| {
        assert FarApart(ds[id].runs);
        RunFarApartIff(scan, ds[id], trigger, scheduledFor, step.clock, usable);
        assert AllFarApart(ds') <==> FarApart(ds'[id].runs);
      }
    case _ =>
      forall id | 0 <= id < |ds'|
        ensures FarApart(ds'[id].runs)
      {
        if id < |ds| {
          assert FarApart(ds[id].runs);
        }
      }
  }

  lemma TickEffectKeepsFarApart(scan: Scan, ds: seq<Deployment>, now: int, clock: int, limit: int, usable: set<AgentId>)
    requires AllFarApart(ds)
    ensures AllFarApart(TickEffect(scan, ds, now, clock, limit, usable).deployments)
  {
    TickKeepsFarApart(scan, ds, Listed(ds), now, clock, limit, usable);
  }

  ghost predicate FarApartAfter(scan: Scan, steps: seq<Step>, n: nat)
    requires n <= |steps|
  {
    AllFarApart(Run(scan, steps[..n]))
  }

  lemma OneMoreFarApart(scan: Scan, steps: seq<Step>, n: nat)
    requires n < |steps| && FarApartAfter(scan, steps, n)
    ensures FarApartAfter(scan, steps, n + 1) <==> !ClientRunsAgain(scan, Run(scan, steps[..n]), steps[n])
  {
    hide AllFarApart, Next, ClientRunsAgain;
    assert steps[..n + 1][..n] == steps[..n];
    StepFarApartIff(scan, Run(scan, steps[..n]), steps[n]);
  }

  lemma {:induction false} FarApartUpTo(scan: Scan, steps: seq<Step>, n: nat)
    requires n <= |steps|
    requires forall k | 0 <= k < |steps| :: !ClientRunsAgain(scan, Run(scan, steps[..k]), steps[k])
    ensures FarApartAfter(scan, steps, n)
  {
    hide Run, ClientRunsAgain;
    if n == 0 {
      NoSteps(scan);
      assert steps[..0] == [];
    } else {
      FarApartUpTo(scan, steps, n - 1);
      OneMoreFarApart(scan, steps, n - 1);
    }
  }

  // Whatever instants the ticks are given: two runs of a deployment for one
  // instant are always more than a thousand runs apart exactly when no client
  // starts a run for an instant among the newest thousand.
  lemma InstantsRunOnceIff(scan: Scan, steps: seq<Step>)
    ensures (forall n | 0 <= n <= |steps| :: FarApartAfter(scan, steps, n))
       <==> (forall n | 0 <= n < |steps| :: !ClientRunsAgain(scan, Run(scan, steps[..n]), steps[n]))
  {
    hide FarApartAfter, Run, ClientRunsAgain;
    if forall n | 0 <= n < |steps| :: !ClientRunsAgain(scan, Run(scan, steps[..n]), steps[n]) {
      forall n | 0 <= n <= |steps|
        ensures FarApartAfter(scan, steps, n)
      {
        FarApartUpTo(scan, steps, n);
      }
    }
    if forall n | 0 <= n <= |steps| :: FarApartAfter(scan, steps, n) {
      forall n | 0 <= n < |steps|
        ensures !ClientRunsAgain(scan, Run(scan, steps[..n]), steps[n])
      {
        assert FarApartAfter(scan, steps, n) && FarApartAfter(scan, steps, n + 1);
        OneMoreFarApart(scan, steps, n);
      }
    }
  }

  // In particular ticks alone never run an instant twice.
  lemma InstantsRunOnce(scan: Scan, steps: seq<Step>)
    requires ClientsRunManually(steps)
    ensures AllFarApart(Run(scan, steps))
  {
    hide Run, AllFarApart;
    forall n | 0 <= n < |steps|
      ensures !ClientRunsAgain(scan, Run(scan, steps[..n]), steps[n])
    {
      assert steps[n] in steps;
    }
    FarApartUpTo(scan, steps, |steps|);
    assert steps[..|steps|] == steps;
  }

  lemma NoRuns()
    ensures FarApart([])
  {
  }

  lemma NoSteps(scan: Scan)
    ensures Run(scan, []) == []
  {
  }

  // ------------------------------------------------------------ a second tick is idle

  ghost predicate StrictlyFuture(scan: Scan) {
    forall cron, clock, t | t in scan(cron, clock) :: t > clock
  }

  lemma NotDueBefore(d: Deployment, now: int, earlier: int)
    requires DueAt(d, now).None? && earlier <= now
    ensures DueAt(d, earlier).None?
  {
  }

  lemma NotDueAfterRun(scan: Scan, d: Deployment, now: int, clock: int, usable: set<AgentId>, later: int)
    requires StrictlyFuture(scan) && DueAt(d, now).Some? && later <= clock
    requires RunEffect(scan, d, Scheduled, DueAt(d, now), clock, usable).1.Created?
    ensures DueAt(RunEffect(scan, d, Scheduled, DueAt(d, now), clock, usable).0, later).None?
  {
    hide RunExists;
  }

  lemma RunKeepsArchivedIfCreated(scan: Scan, d: Deployment, due: Option<int>, clock: int, usable: set<AgentId>)
    ensures var (d', outcome) := RunEffect(scan, d, Scheduled, due, clock, usable);
      outcome.Created? ==> d'.archived == d.archived
  {
  }

  lemma {:induction false} TickLeavesNoneDue(
    scan: Scan, ds: seq<Deployment>, ids: seq<nat>, now: int, clock: int, limit: int, usable: set<AgentId>, later: int)
    requires StrictlyFuture(scan) && Ids(ids, ds)
    requires later <= now && later <= clock
    requires var st := TickOver(scan, ds, ids, now, clock, limit, usable); !st.raised && |st.created| < limit
    ensures var after := TickOver(scan, ds, ids, now, clock, limit, usable).deployments;
      && (forall id | id in ids :: DueAt(after[id], later).None?)
      && forall id | 0 <= id < |ds| :: after[id].archived == ds[id].archived
  {
    hide RunExists;
    if ids != [] {
      var front, id := ids[..|ids| - 1], ids[|ids| - 1];
      assert id in ids && ids == front + [id];
      TickLeavesNoneDue(scan, ds, front, now, clock, limit, usable, later);
      var st := TickOver(scan, ds, front, now, clock, limit, usable);
      var d := st.deployments[id];
      if DueAt(d, now).None? {
        NotDueBefore(d, now, later);
      } else {
        NotDueAfterRun(scan, d, now, clock, usable, later);
      }
      RunKeepsArchivedIfCreated(scan, d, DueAt(d, now), clock, usable);
      hide DueAt, RunEffect, StrictlyFuture;
    }
  }

  lemma {:induction false} SameListing(ds: seq<Deployment>, ds': seq<Deployment>)
    requires |ds| == |ds'| && forall id | 0 <= id < |ds| :: ds[id].archived == ds'[id].archived
    ensures LiveIds(ds) == LiveIds(ds')
  {
    if ds != [] {
      SameListing(ds[..|ds| - 1], ds'[..|ds| - 1]);
    }
  }

  lemma {:induction false} NoneDueNothingDone(
    scan: Scan, ds: seq<Deployment>, ids: seq<nat>, now: int, clock: int, limit: int, usable: set<AgentId>)
    requires Ids(ids, ds) && forall id | id in ids :: DueAt(ds[id], now).None?
    ensures TickOver(scan, ds, ids, now, clock, limit, usable) == TickState(ds, [], false)
  {
    if ids != [] {
      var front := ids[..|ids| - 1];
      assert ids[|ids| - 1] in ids;
      NoneDueNothingDone(scan, ds, front, now, clock, limit, usable);
    }
  }

  // A tick that was not cut short, by its limit or an archived agent, leaves
  // nothing to do for a tick at an instant not after it and not after its clock.
  lemma SecondTickIsIdle(
    scan: Scan, ds: seq<Deployment>, now: int, clock: int, limit: int, usable: set<AgentId>,
    now': int, clock': int, limit': int, usable': set<AgentId>)
    requires StrictlyFuture(scan) && now' <= now && now' <= clock
    requires var st := TickEffect(scan, ds, now, clock, limit, usable); !st.raised && |st.created| < limit
    ensures var after := TickEffect(scan, ds, now, clock, limit, usable).deployments;
      TickEffect(scan, after, now', clock', limit', usable') == TickState(after, [], false)
  {
    hide DueAt;
    var after := TickEffect(scan, ds, now, clock, limit, usable).deployments;
    TickLeavesNoneDue(scan, ds, Listed(ds), now, clock, limit, usable, now');
    SameListing(ds, after);
    assert Listed(after) == Listed(ds);
    NoneDueNothingDone(scan, after, Listed(after), now', clock', limit', usable');
  }

  // ------------------------------------------------------- ticks not ahead of the clock

  predicate Prompt(steps: seq<Step>) {
    && (forall i, j | 0 <= i < j < |steps| :: steps[i].clock <= steps[j].clock)
    && (forall i | 0 <= i < |steps| && steps[i].action.Tick? :: steps[i].action.now <= steps[i].clock)
    && (forall i | 0 <= i < |steps| && steps[i].action.RunNow? :: !steps[i].action.trigger.Scheduled?)
  }

  // No instant has been run twice, none after the clock has been run, and none
  // still listed has been run.
  ghost predicate Current(d: Deployment, clock: int) {
    && (forall i, j, t | 0 <= i < j < |d.runs| && IsRunFor(d.runs[i], t) :: !IsRunFor(d.runs[j], t))
    && (forall i, t | 0 <= i < |d.runs| && IsRunFor(d.runs[i], t) :: t <= clock)
    && (d.schedule.Some? ==>
          forall i, t | 0 <= i < |d.runs| && IsRunFor(d.runs[i], t) :: t !in d.schedule.value.upcoming)
  }

  ghost predicate AllCurrent(ds: seq<Deployment>, clock: int) {
    forall id | 0 <= id < |ds| :: Current(ds[id], clock)
  }

  lemma LaterIsCurrent(ds: seq<Deployment>, clock: int, clock': int)
    requires AllCurrent(ds, clock) && clock <= clock'
    ensures AllCurrent(ds, clock')
  {
    forall id | 0 <= id < |ds|
      ensures Current(ds[id], clock')
    {
      assert Current(ds[id], clock);
    }
  }

  lemma ScheduledRunKeepsCurrent(scan: Scan, d: Deployment, now: int, clock: int, usable: set<AgentId>)
    requires StrictlyFuture(scan) && Current(d, clock) && now <= clock && DueAt(d, now).Some?
    ensures Current(RunEffect(scan, d, Scheduled, DueAt(d, now), clock, usable).0, clock)
  {
    hide RunExists;
    var due := DueAt(d, now).value;
    assert due in d.schedule.value.upcoming;
  }

  lemma {:induction false} TickKeepsCurrent(
    scan: Scan, ds: seq<Deployment>, ids: seq<nat>, now: int, clock: int, limit: int, usable: set<AgentId>)
    requires StrictlyFuture(scan) && AllCurrent(ds, clock) && now <= clock && Ids(ids, ds)
    ensures AllCurrent(TickOver(scan, ds, ids, now, clock, limit, usable).deployments, clock)
  {
    hide Current, DueAt, RunEffect, StrictlyFuture;
    if ids != [] {
      var front, id := ids[..|ids| - 1], ids[|ids| - 1];
      TickKeepsCurrent(scan, ds, front, now, clock, limit, usable);
      var st := TickOver(scan, ds, front, now, clock, limit, usable);
      assert Current(st.deployments[id], clock);
      if DueAt(st.deployments[id], now).Some? {
        ScheduledRunKeepsCurrent(scan, st.deployments[id], now, clock, usable);
      }
    }
  }

  lemma NewDeploymentIsCurrent(d: Deployment, clock: int)
    requires d.runs == []
    ensures Current(d, clock)
  {
  }

  lemma OneUpdateKeepsCurrent(scan: Scan, ds: seq<Deployment>, step: Step, id: nat)
    requires StrictlyFuture(scan) && id < |ds| && Current(ds[id], step.clock)
    requires !step.action.Tick? && (step.action.RunNow? ==> !step.action.trigger.Scheduled?)
    ensures Current(Next(scan, ds, step)[id], step.clock)
  {
    hide TickEffect;
  }

  lemma UpdateKeepsCurrent(scan: Scan, ds: seq<Deployment>, step: Step)
    requires StrictlyFuture(scan) && AllCurrent(ds, step.clock)
    requires !step.action.Tick? && (step.action.RunNow? ==> !step.action.trigger.Scheduled?)
    ensures AllCurrent(Next(scan, ds, step), step.clock)
  {
    hide TickEffect, Current;
    var ds' := Next(scan, ds, step);
    forall id | 0 <= id < |ds'|
      ensures Current(ds'[id], step.clock)
    {
      if id < |ds| {
        assert Current(ds[id], step.clock);
        OneUpdateKeepsCurrent(scan, ds, step, id);
      } else {
        NewDeploymentIsCurrent(ds'[id], step.clock);
      }
    }
  }

  lemma {:induction false} PromptRunsAreCurrent(scan: Scan, steps: seq<Step>)
    requires StrictlyFuture(scan) && Prompt(steps) && steps != []
    ensures AllCurrent(Run(scan, steps), steps[|steps| - 1].clock)
  {
    hide StrictlyFuture, Current;
    var before, step := steps[..|steps| - 1], steps[|steps| - 1];
    var ds := Run(scan, before);
    if before != [] {
      PromptRunsAreCurrent(scan, before);
      LaterIsCurrent(ds, before[|before| - 1].clock, step.clock);
    }
    if step.action.Tick? {
      TickKeepsCurrent(scan, ds, Listed(ds), step.action.now, step.clock, step.action.limit, step.action.usable);
    } else {
      UpdateKeepsCurrent(scan, ds, step);
    }
  }

  // If no tick is given an instant ahead of the clock, every instant is run at
  // most once however many runs there are, and a deployment is due exactly when
  // it is active and one of its listed instants has come.
  lemma PromptTicksRunOnce(scan: Scan, steps: seq<Step>, id: nat, now: int)
    requires StrictlyFuture(scan) && Prompt(steps) && id < |Run(scan, steps)|
    ensures var d := Run(scan, steps)[id];
      && (forall i, j, t | 0 <= i < j < |d.runs| && IsRunFor(d.runs[i], t) :: !IsRunFor(d.runs[j], t))
      && (DueAt(d, now).Some? <==>
            && !d.paused && d.schedule.Some? && d.schedule.value.enabled
            && exists t :: t in d.schedule.value.upcoming && t <= now)
  {
    hide Run, StrictlyFuture, Prompt;
    NoSteps(scan);
    PromptRunsAreCurrent(scan, steps);
    assert Current(Run(scan, steps)[id], steps[|steps| - 1].clock);
  }

  // ------------------------------------------------------------------ what goes wrong

  // The earliest listed instant has been run already.
  predicate Blocked(d: Deployment) {
    && d.schedule.Some?
    && Earliest(d.schedule.value.upcoming).Some?
    && RunExists(d.runs, Earliest(d.schedule.value.upcoming).value)
  }

  predicate OnlyTicks(steps: seq<Step>) {
    forall i | 0 <= i < |steps| :: steps[i].action.Tick?
  }

  lemma {:induction false} TickSkipsBlocked(
    scan: Scan, ds: seq<Deployment>, ids: seq<nat>, now: int, clock: int, limit: int, usable: set<AgentId>, id: nat)
    requires id < |ds| && Blocked(ds[id]) && Ids(ids, ds)
    ensures TickOver(scan, ds, ids, now, clock, limit, usable).deployments[id] == ds[id]
  {
    hide RunExists, RunEffect;
    if ids != [] {
      TickSkipsBlocked(scan, ds, ids[..|ids| - 1], now, clock, limit, usable, id);
    }
  }

  // No tick, at whatever instant, runs a blocked deployment again.
  lemma {:induction false} BlockedForEver(scan: Scan, steps: seq<Step>, ticks: seq<Step>, id: nat)
    requires OnlyTicks(ticks) && id < |Run(scan, steps)| && Blocked(Run(scan, steps)[id])
    ensures id < |Run(scan, steps + ticks)| && Run(scan, steps + ticks)[id] == Run(scan, steps)[id]
  {
    hide Blocked;
    if ticks == [] {
      assert steps + ticks == steps;
    } else {
      var front, tick := ticks[..|ticks| - 1], ticks[|ticks| - 1];
      assert (steps + ticks)[..|steps + ticks| - 1] == steps + front;
      BlockedForEver(scan, steps, front, id);
      var ds := Run(scan, steps + front);
      TickSkipsBlocked(scan, ds, Listed(ds), tick.action.now, tick.clock, tick.action.limit, tick.action.usable, id);
    }
  }

  // A tick that runs a deployment whose earlier runs lie before the due instant,
  // and whose refreshed list does not, blocks it exactly when the list still
  // holds the instant just run.
  lemma BlockedAfterRunIff(scan: Scan, d: Deployment, now: int, clock: int, usable: set<AgentId>)
    requires DueAt(d, now).Some?
    requires RunEffect(scan, d, Scheduled, DueAt(d, now), clock, usable).1.Created?
    requires forall k, t | 0 <= k < |d.runs| && IsRunFor(d.runs[k], t) :: t < DueAt(d, now).value
    requires forall t | t in scan(d.schedule.value.cron, clock) :: DueAt(d, now).value <= t
    ensures Blocked(RunEffect(scan, d, Scheduled, DueAt(d, now), clock, usable).0)
       <==> DueAt(d, now).value in scan(d.schedule.value.cron, clock)
  {
    var t := DueAt(d, now).value;
    var d' := RunEffect(scan, d, Scheduled, Some(t), clock, usable).0;
    assert d'.runs == d.runs + [RunRow(Scheduled, Some(t))];
    assert IsRunFor(d'.runs[|d.runs|], t);
    var upcoming := d'.schedule.value.upcoming;
    if t in upcoming {
      assert Earliest(upcoming) == Some(t);
    } else if Earliest(upcoming).Some? {
      var e := Earliest(upcoming).value;
      assert t < e;
      forall k | 0 <= k < |d'.runs|
        ensures !IsRunFor(d'.runs[k], e)
      {
        assert k < |d.runs| ==> d'.runs[k] == d.runs[k];
      }
    }
  }

  // A tick given an instant ahead of the clock can stop a schedule for good: the
  // refreshed list still starts with the instant just run, and no later tick,
  // however many and whenever, runs the deployment again.
  lemma EarlyTickStopsASchedule(scan: Scan, cron: string, made: int, clock: int, t: int, ticks: seq<Step>)
    requires Earliest(scan(cron, made)) == Some(t) && Earliest(scan(cron, clock)) == Some(t) && OnlyTicks(ticks)
    ensures Run(scan, CreateAndTick(cron, made, clock, t) + ticks) == [AfterEarlyTick(scan, cron, clock, t)]
    ensures AfterEarlyTick(scan, cron, clock, t).runs == [RunRow(Scheduled, Some(t))]
  {
    var steps := CreateAndTick(cron, made, clock, t);
    CreateAndTickEffect(scan, cron, made, clock, t);
    var d := AfterEarlyTick(scan, cron, clock, t);
    assert IsRunFor(d.runs[0], t);
    BlockedForEver(scan, steps, ticks, 0);
    TicksAddNone(scan, steps, ticks);
  }

  function CreateAndTick(cron: string, made: int, clock: int, t: int): seq<Step> {
    [Step(made, Create(0, false, Some((cron, true)))), Step(clock, Tick(t, 100, {0}))]
  }

  function AfterEarlyTick(scan: Scan, cron: string, clock: int, t: int): Deployment {
    Deployment(0, false, false, Some(Schedule(cron, true, scan(cron, clock))), [RunRow(Scheduled, Some(t))])
  }

  lemma RunTwo(scan: Scan, a: Step, b: Step)
    ensures Run(scan, [a, b]) == Next(scan, Next(scan, [], a), b)
  {
    hide Next;
    assert [a, b][..1] == [a] && [a][..0] == [];
    assert Run(scan, []) == [];
    assert Run(scan, [a]) == Next(scan, [], a);
  }

  lemma ListedAlone(d: Deployment)
    requires !d.archived
    ensures Listed([d]) == [0]
  {
    assert [d][..0] == [];
    assert LiveIds([d]) == [0] + LiveIds([d][..0]);
  }

  lemma TickAlone(scan: Scan, d: Deployment, now: int, clock: int, usable: set<AgentId>)
    requires !d.archived && DueAt(d, now).Some?
    ensures TickEffect(scan, [d], now, clock, 100, usable).deployments
         == [RunEffect(scan, d, Scheduled, DueAt(d, now), clock, usable).0]
  {
    hide DueAt, RunEffect, Listed;
    ListedAlone(d);
    assert [0][..0] == [];
    assert TickOver(scan, [d], [], now, clock, 100, usable) == TickState([d], [], false);
    assert TickOver(scan, [d], [0], now, clock, 100, usable)
        == TickOne(scan, TickState([d], [], false), 0, now, clock, 100, usable);
  }

  lemma CreateAndTickEffect(scan: Scan, cron: string, made: int, clock: int, t: int)
    requires Earliest(scan(cron, made)) == Some(t)
    ensures Run(scan, CreateAndTick(cron, made, clock, t)) == [AfterEarlyTick(scan, cron, clock, t)]
  {
    hide Run, TickEffect, Earliest;
    var d := Deployment(0, false, false, NewSchedule(scan, Some((cron, true)), made), []);
    var steps := CreateAndTick(cron, made, clock, t);
    RunTwo(scan, steps[0], steps[1]);
    assert steps == [steps[0], steps[1]];
    assert Next(scan, [], steps[0]) == [d];
    assert DueAt(d, t) == Some(t);
    TickAlone(scan, d, t, clock, {0});
    assert RunEffect(scan, d, Scheduled, Some(t), clock, {0}).0 == AfterEarlyTick(scan, cron, clock, t);
  }

  lemma {:induction false} TicksAddNone(scan: Scan, steps: seq<Step>, ticks: seq<Step>)
    requires OnlyTicks(ticks)
    ensures |Run(scan, steps + ticks)| == |Run(scan, steps)|
  {
    if ticks == [] {
      assert steps + ticks == steps;
    } else {
      assert (steps + ticks)[..|steps + ticks| - 1] == steps + ticks[..|ticks| - 1];
      TicksAddNone(scan, steps, ticks[..|ticks| - 1]);
    }
  }

  // A client may start a run with the schedule trigger and any instant, also one that has been run.
  lemma AClientCanRunAnInstantTwice(scan: Scan, cron: string, made: int, clock: int, t: int)
    requires Earliest(scan(cron, made)) == Some(t)
    ensures var steps := CreateAndTick(cron, made, clock, t) + [Step(clock, RunNow(0, Scheduled, Some(t), {0}))];
      !AllFarApart(Run(scan, steps))
  {
    CreateAndTickEffect(scan, cron, made, clock, t);
    var tick := CreateAndTick(cron, made, clock, t);
    var steps := tick + [Step(clock, RunNow(0, Scheduled, Some(t), {0}))];
    assert steps[..|steps| - 1] == tick;
    var ds := Run(scan, steps);
    assert IsRunFor(ds[0].runs[0], t) && IsRunFor(ds[0].runs[1], t);
    assert !FarApart(ds[0].runs);
  }
}
