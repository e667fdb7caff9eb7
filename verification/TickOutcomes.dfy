/**
 What a scheduler tick comes to: which deployments it runs, in which order, and
 what it leaves when it is cut short.
 */
module TickOutcomes {
  import opened Options
  import opened Scheduler

  // An instant is due exactly when the deployment is active, the instant is the
  // earliest listed and has come, and none of the newest thousand runs is for it.
  lemma DueAtIff(d: Deployment, now: int, t: int)
    ensures DueAt(d, now) == Some(t) <==>
      && !d.paused && d.schedule.Some? && d.schedule.value.enabled
      && t in d.schedule.value.upcoming && t <= now
      && (forall u | u in d.schedule.value.upcoming :: t <= u)
      && (forall k | 0 <= k < |d.runs| && |d.runs| - 1000 <= k ::
            !(d.runs[k].trigger == Scheduled && d.runs[k].scheduledFor == Some(t)))
  {
  }

  // A run is made exactly of an unarchived deployment, unpaused unless the run is
  // manual, with a usable agent: its row is added, and a scheduled run renews the
  // list of next runs. A deployment whose agent is gone is archived.
  lemma RunMakes(
    scan: Scan, d: Deployment, trigger: Trigger, scheduledFor: Option<int>, clock: int, usable: set<AgentId>)
    ensures var (d', outcome) := RunEffect(scan, d, trigger, scheduledFor, clock, usable);
      var admitted := !d.archived && (!d.paused || trigger == Manual);
      && (outcome == Created <==> admitted && d.agent in usable)
      && (outcome == AgentGone <==> admitted && d.agent !in usable)
      && (outcome == Refused ==> d' == d)
      && (outcome == AgentGone ==> d' == d.(archived := true))
      && (outcome == Created ==>
            && d'.runs == d.runs + [RunRow(trigger, scheduledFor)]
            && d' == d.(runs := d'.runs, schedule := d'.schedule)
            && (trigger != Scheduled || d.schedule.None? ==> d'.schedule == d.schedule)
            && (trigger == Scheduled && d.schedule.Some? ==>
                  d'.schedule == Some(Schedule(d.schedule.value.cron, d.schedule.value.enabled,
                                               scan(d.schedule.value.cron, clock)))))
  {
  }

  // What a request leaves due: a new or updated deployment has the list made at the
  // clock of the request and is due unless paused, disabled or already run; a pause
  // ends that, and pausing and resuming change nothing else.
  lemma RequestsLeaveDue(scan: Scan, ds: seq<Deployment>, id: nat, clock: int, agent: AgentId, paused: bool, cron: (string, bool), now: int, t: int)
    requires IsEarliest(scan(cron.0, clock), t)
    ensures var made := Next(scan, ds, Step(clock, Create(agent, paused, Some(cron))));
      && |made| == |ds| + 1 && made[..|ds|] == ds
      && (DueAt(made[|ds|], now) == Some(t) <==> !paused && cron.1 && t <= now)
    ensures id < |ds| && !ds[id].archived ==>
      var made := Next(scan, ds, Step(clock, Update(id, agent, paused, Some(cron))));
      && made == ds[id := made[id]] && made[id].runs == ds[id].runs && made[id].agent == agent && !made[id].archived
      && (DueAt(made[id], now) == Some(t) <==> !paused && cron.1 && t <= now && !RunExists(ds[id].runs, t))
    ensures id < |ds| && !ds[id].archived ==>
      var held := Next(scan, ds, Step(clock, SetPaused(id, true)));
      && DueAt(held[id], now).None?
      && Next(scan, held, Step(clock, SetPaused(id, false))) == ds[id := ds[id].(paused := false)]
  {
    hide RunExists;
    assert !RunExists([], t) by { NothingRun(t); }
  }

  lemma NothingRun(t: int)
    ensures !RunExists([], t)
  {
  }

  // --------------------------------------------------------------------- the listing

  ghost predicate Newest(ids: seq<nat>) {
    forall i, j | 0 <= i < j < |ids| :: ids[i] > ids[j]
  }

  predicate LiveAt(ds: seq<Deployment>, id: nat) {
    id < |ds| && !ds[id].archived
  }

  lemma LiveIdsStep(ds: seq<Deployment>)
    requires ds != []
    ensures var last := |ds| - 1;
      LiveIds(ds) == (if ds[last].archived then [] else [last]) + LiveIds(ds[..last])
  {
  }

  lemma NewestInFront(id: nat, ids: seq<nat>)
    requires Newest(ids) && forall other | other in ids :: other < id
    ensures Newest([id] + ids)
  {
    forall i, j | 0 <= i < j < |[id] + ids|
      ensures ([id] + ids)[i] > ([id] + ids)[j]
    {
      assert ([id] + ids)[j] == ids[j - 1] && ids[j - 1] in ids;
    }
  }

  lemma {:induction false} LiveIdsAre(ds: seq<Deployment>)
    ensures Newest(LiveIds(ds))
    ensures forall id: nat :: id in LiveIds(ds) <==> LiveAt(ds, id)
  {
    if ds != [] {
      var last := |ds| - 1;
      var before := LiveIds(ds[..last]);
      LiveIdsAre(ds[..last]);
      LiveIdsStep(ds);
      hide LiveIds, Newest;
      assert forall id: nat :: LiveAt(ds, id) <==> LiveAt(ds[..last], id) || (id == last && LiveAt(ds, last));
      if ds[last].archived {
        assert LiveIds(ds) == before;
      } else {
        NewestInFront(last, before);
      }
    }
  }

  lemma {:induction false} NewestFit(ids: seq<nat>, all: set<nat>)
    requires Newest(ids) && forall id: nat :: id in ids <==> id in all
    ensures |ids| == |all|
  {
    if ids == [] {
      assert all == {};
    } else {
      var front, last := ids[..|ids| - 1], ids[|ids| - 1];
      assert ids == front + [last];
      assert last !in front;
      NewestFit(front, all - {last});
    }
  }

  // The live deployments newer than one.
  ghost function Newer(ds: seq<Deployment>, id: nat): set<nat> {
    set other | id < other < |ds| && !ds[other].archived
  }

  // A deployment is in reach of a tick: live, with fewer than a thousand newer live ones.
  ghost predicate InReach(ds: seq<Deployment>, id: nat) {
    LiveAt(ds, id) && |Newer(ds, id)| < 1000
  }

  // A live deployment stands in the listing behind the newer ones.
  lemma PlaceOf(ds: seq<Deployment>, k: nat)
    requires k < |LiveIds(ds)|
    ensures |Newer(ds, LiveIds(ds)[k])| == k
  {
    LiveIdsAre(ds);
    hide LiveIds, LiveAt;
    var all := LiveIds(ds);
    var id := all[k];
    forall other: nat
      ensures other in all[..k] <==> other in Newer(ds, id)
    {
      if other in all[..k] {
        var j :| 0 <= j < k && all[..k][j] == other;
        assert all[j] == other && other in all && LiveAt(ds, other);
        LiveAtIff(ds, other);
      }
      if other in Newer(ds, id) {
        LiveAtIff(ds, other);
        var j :| 0 <= j < |all| && all[j] == other;
        assert j < k;
        assert all[..k][j] == other;
      }
    }
    NewestFit(all[..k], Newer(ds, id));
  }

  lemma LiveAtIff(ds: seq<Deployment>, id: nat)
    ensures LiveAt(ds, id) <==> id < |ds| && !ds[id].archived
  {
  }

  // The listing is newest first and holds exactly what is in reach, so every live
  // deployment where there are no more than a thousand.
  lemma ListingIs(ds: seq<Deployment>)
    ensures Newest(Listed(ds))
    ensures forall id: nat :: id in Listed(ds) <==> InReach(ds, id)
  {
    LiveIdsAre(ds);
    hide LiveIds, LiveAt, Newer;
    var all := LiveIds(ds);
    var n := |Listed(ds)|;
    assert Listed(ds) == all[..n] && (n == |all| || n == 1000) && n <= 1000;
    hide Listed;
    forall id: nat
      ensures id in Listed(ds) <==> InReach(ds, id)
    {
      if id in all[..n] {
        var k :| 0 <= k < n && all[..n][k] == id;
        assert all[k] == id && id in all;
        PlaceOf(ds, k);
      }
      if InReach(ds, id) {
        var k :| 0 <= k < |all| && all[k] == id;
        PlaceOf(ds, k);
        assert all[..n][k] == id;
      }
    }
  }

  // ------------------------------------------------------------------------ the tick

  // What a tick over `ids` has done to `ds`.
  ghost predicate HasRun(
    scan: Scan, ds: seq<Deployment>, ids: seq<nat>, now: int, clock: int, limit: int, usable: set<AgentId>, st: TickState)
    requires |st.deployments| == |ds|
  {
    // what was created was due, of a listed deployment with a usable agent, newest first
    && (forall i | 0 <= i < |st.created| ::
          && st.created[i].0 in ids && st.created[i].0 < |ds|
          && DueAt(ds[st.created[i].0], now) == Some(st.created[i].1)
          && st.deployments[st.created[i].0]
             == RunEffect(scan, ds[st.created[i].0], Scheduled, Some(st.created[i].1), clock, usable).0
          && ds[st.created[i].0].agent in usable)
    && (forall i, j | 0 <= i < j < |st.created| :: st.created[i].0 > st.created[j].0)
    && (|st.created| <= limit || st.created == [])
    // nothing due was passed over, but at the end of a tick cut short
    && (forall id | id in ids && id < |ds| && DueAt(ds[id], now).Some? ::
          Ran(st, id) || st.raised || |st.created| >= limit)
    && (forall id, i | id in ids && id < |ds| && DueAt(ds[id], now).Some? && 0 <= i < |st.created| && id > st.created[i].0 ::
          Ran(st, id))
    // the others are untouched, but for the one whose agent is gone
    && (forall id | 0 <= id < |ds| && !Ran(st, id) ::
          st.deployments[id] == ds[id] || (st.raised && AgentGoneAt(ds, ids, now, usable, st, id)))
    && (st.raised ==> |st.created| < limit && exists id | id in ids :: AgentGoneAt(ds, ids, now, usable, st, id))
  }

  predicate Ran(st: TickState, id: nat) {
    exists i | 0 <= i < |st.created| :: st.created[i].0 == id
  }

  // The tick ended at this deployment: it was due, every newer one due had been run.
  ghost predicate AgentGoneAt(ds: seq<Deployment>, ids: seq<nat>, now: int, usable: set<AgentId>, st: TickState, id: nat)
    requires |st.deployments| == |ds|
  {
    && id < |ds| && id in ids && DueAt(ds[id], now).Some? && ds[id].agent !in usable
    && st.deployments[id] == ds[id].(archived := true)
    && !Ran(st, id)
    && forall other | other in ids && id < other < |ds| && DueAt(ds[other], now).Some? :: Ran(st, other)
  }

  lemma NothingHasRun(scan: Scan, ds: seq<Deployment>, now: int, clock: int, limit: int, usable: set<AgentId>)
    ensures HasRun(scan, ds, [], now, clock, limit, usable, TickState(ds, [], false))
  {
  }

  // A stopped tick goes on doing nothing.
  lemma StoppedHasRun(
    scan: Scan, ds: seq<Deployment>, front: seq<nat>, id: nat, now: int, clock: int, limit: int, usable: set<AgentId>, st: TickState)
    requires Ids(front + [id], ds) && Newest(front + [id]) && |st.deployments| == |ds|
    requires HasRun(scan, ds, front, now, clock, limit, usable, st)
    requires st.raised || |st.created| >= limit
    ensures HasRun(scan, ds, front + [id], now, clock, limit, usable, st)
  {
    hide RunEffect, DueAt;
    Older(front, id);
    assert forall other | other in front + [id] :: other in front || other == id;
    if st.raised {
      var g :| g in front && AgentGoneAt(ds, front, now, usable, st, g);
      assert g > id && AgentGoneAt(ds, front + [id], now, usable, st, g);
      forall g' | 0 <= g' < |ds| && AgentGoneAt(ds, front, now, usable, st, g')
        ensures AgentGoneAt(ds, front + [id], now, usable, st, g')
      {
        assert g' > id;
      }
    }
  }

  // The listed deployments that come before one are newer.
  lemma Older(front: seq<nat>, id: nat)
    requires Newest(front + [id])
    ensures forall other | other in front :: other > id
  {
    forall other | other in front
      ensures other > id
    {
      var i :| 0 <= i < |front| && front[i] == other;
      assert (front + [id])[i] == other && (front + [id])[|front|] == id;
    }
  }

  lemma OneMoreHasRun(
    scan: Scan, ds: seq<Deployment>, front: seq<nat>, id: nat, now: int, clock: int, limit: int, usable: set<AgentId>, st: TickState)
    requires Ids(front + [id], ds) && Newest(front + [id]) && |st.deployments| == |ds|
    requires id < |ds| && !ds[id].archived
    requires HasRun(scan, ds, front, now, clock, limit, usable, st)
    requires !st.raised && |st.created| < limit
    ensures HasRun(scan, ds, front + [id], now, clock, limit, usable, TickOne(scan, st, id, now, clock, limit, usable))
  {
    Older(front, id);
    var ids := front + [id];
    assert forall other | other in ids :: other in front || other == id;
    assert forall i | 0 <= i < |st.created| :: st.created[i].0 in front && st.created[i].0 > id;
    assert !Ran(st, id) && st.deployments[id] == ds[id];
    var due := DueAt(ds[id], now);
    var st' := TickOne(scan, st, id, now, clock, limit, usable);
    hide DueAt;
    if due.None? {
    } else if ds[id].agent in usable {
      DueIsActive(ds[id], now);
      CreatedHasRun(scan, ds, front, id, now, clock, limit, usable, st, st');
    } else {
      DueIsActive(ds[id], now);
      RaisedHasRun(scan, ds, front, id, now, clock, limit, usable, st, st');
    }
  }

  lemma DueIsActive(d: Deployment, now: int)
    requires DueAt(d, now).Some?
    ensures !d.paused
  {
  }

  lemma CreatedHasRun(
    scan: Scan, ds: seq<Deployment>, front: seq<nat>, id: nat, now: int, clock: int, limit: int, usable: set<AgentId>,
    st: TickState, st': TickState)
    requires Ids(front + [id], ds) && |st.deployments| == |ds| == |st'.deployments| && id < |ds|
    requires HasRun(scan, ds, front, now, clock, limit, usable, st)
    requires !st.raised && |st.created| < limit && DueAt(ds[id], now).Some? && ds[id].agent in usable
    requires forall other | other in front :: other > id
    requires st' == TickState(
      st.deployments[id := RunEffect(scan, ds[id], Scheduled, DueAt(ds[id], now), clock, usable).0],
      st.created + [(id, DueAt(ds[id], now).value)], false)
    ensures HasRun(scan, ds, front + [id], now, clock, limit, usable, st')
  {
    hide RunEffect, DueAt, AgentGoneAt;
    OneMoreRan(st, st', id);
    hide Ran;
    assert forall other | other in front + [id] :: other in front || other == id;
    assert forall i | 0 <= i < |st'.created| ::
        (i < |st.created| && st'.created[i] == st.created[i]) || (i == |st.created| && st'.created[i].0 == id);
  }

  lemma OneMoreRan(st: TickState, st': TickState, id: nat)
    requires |st'.created| == |st.created| + 1 && st'.created[..|st.created|] == st.created
    requires st'.created[|st.created|].0 == id
    ensures forall other :: Ran(st', other) <==> Ran(st, other) || other == id
  {
    forall other | Ran(st, other)
      ensures Ran(st', other)
    {
      var i :| 0 <= i < |st.created| && st.created[i].0 == other;
      assert st'.created[i].0 == other;
    }
    forall other | Ran(st', other) && other != id
      ensures Ran(st, other)
    {
      var i :| 0 <= i < |st'.created| && st'.created[i].0 == other;
      assert st.created[i].0 == other;
    }
  }

  lemma RaisedHasRun(
    scan: Scan, ds: seq<Deployment>, front: seq<nat>, id: nat, now: int, clock: int, limit: int, usable: set<AgentId>,
    st: TickState, st': TickState)
    requires Ids(front + [id], ds) && |st.deployments| == |ds| == |st'.deployments| && id < |ds|
    requires HasRun(scan, ds, front, now, clock, limit, usable, st)
    requires !st.raised && |st.created| < limit && DueAt(ds[id], now).Some? && ds[id].agent !in usable && !Ran(st, id)
    requires forall other | other in front :: other > id
    requires st' == TickState(st.deployments[id := ds[id].(archived := true)], st.created, true)
    ensures HasRun(scan, ds, front + [id], now, clock, limit, usable, st')
  {
    hide RunEffect, DueAt;
    assert forall other | other in front + [id] :: other in front || other == id;
    assert forall other :: Ran(st, other) <==> Ran(st', other);
    assert id in front + [id];
    assert AgentGoneAt(ds, front + [id], now, usable, st', id);
  }

  lemma {:induction false} TickHasRun(
    scan: Scan, ds: seq<Deployment>, ids: seq<nat>, now: int, clock: int, limit: int, usable: set<AgentId>)
    requires Ids(ids, ds) && Newest(ids) && forall id | id in ids :: id < |ds| && !ds[id].archived
    ensures HasRun(scan, ds, ids, now, clock, limit, usable, TickOver(scan, ds, ids, now, clock, limit, usable))
  {
    hide HasRun, TickOne;
    if ids == [] {
      NothingHasRun(scan, ds, now, clock, limit, usable);
    } else {
      var front, id := ids[..|ids| - 1], ids[|ids| - 1];
      assert ids == front + [id];
      assert id in ids && forall other | other in front :: other in ids;
      TickHasRun(scan, ds, front, now, clock, limit, usable);
      var st := TickOver(scan, ds, front, now, clock, limit, usable);
      if st.raised || |st.created| >= limit {
        StoppedHasRun(scan, ds, front, id, now, clock, limit, usable, st);
        assert TickOne(scan, st, id, now, clock, limit, usable) == st by { StoppedOne(scan, st, id, now, clock, limit, usable); }
      } else {
        OneMoreHasRun(scan, ds, front, id, now, clock, limit, usable, st);
      }
    }
  }

  lemma StoppedOne(scan: Scan, st: TickState, id: nat, now: int, clock: int, limit: int, usable: set<AgentId>)
    requires id < |st.deployments| && (st.raised || |st.created| >= limit)
    ensures TickOne(scan, st, id, now, clock, limit, usable) == st
  {
  }

  // ---------------------------------------------------------------------- the results

  lemma TickDoes(scan: Scan, ds: seq<Deployment>, now: int, clock: int, limit: int, usable: set<AgentId>)
    ensures |TickEffect(scan, ds, now, clock, limit, usable).deployments| == |ds|
    ensures HasRun(scan, ds, Listed(ds), now, clock, limit, usable, TickEffect(scan, ds, now, clock, limit, usable))
    ensures forall id: nat :: id in Listed(ds) <==> InReach(ds, id)
    ensures forall id: nat :: InReach(ds, id) ==> id < |ds| && !ds[id].archived
  {
    hide Listed, TickOver, HasRun, Newer;
    ListingIs(ds);
    assert forall id | id in Listed(ds) :: InReach(ds, id);
    TickHasRun(scan, ds, Listed(ds), now, clock, limit, usable);
  }

  // A tick that is not cut short runs exactly the deployments in reach that are
  // due, each for its due instant.
  lemma TickRunsWhatIsDue(
    scan: Scan, ds: seq<Deployment>, now: int, clock: int, limit: int, usable: set<AgentId>, id: nat, t: int)
    requires var st := TickEffect(scan, ds, now, clock, limit, usable); !st.raised && |st.created| < limit
    ensures (id, t) in TickEffect(scan, ds, now, clock, limit, usable).created
       <==> id < |ds| && !ds[id].archived && |Newer(ds, id)| < 1000 && DueAt(ds[id], now) == Some(t)
  {
    hide DueAt, RunEffect, Newer, Listed, TickEffect;
    TickDoes(scan, ds, now, clock, limit, usable);
    var st := TickEffect(scan, ds, now, clock, limit, usable);
    if InReach(ds, id) && DueAt(ds[id], now) == Some(t) {
      assert Ran(st, id);
      var i :| 0 <= i < |st.created| && st.created[i].0 == id;
      assert st.created[i] == (id, t);
    }
    if (id, t) in st.created {
      var i :| 0 <= i < |st.created| && st.created[i] == (id, t);
      assert st.created[i].0 in Listed(ds);
    }
  }

  // However it ends, a tick runs due deployments in reach only, newest first and
  // none twice, no more than its limit, and passes over no newer one that is due.
  lemma TickRunsTheNewestDue(scan: Scan, ds: seq<Deployment>, now: int, clock: int, limit: int, usable: set<AgentId>)
    ensures var st := TickEffect(scan, ds, now, clock, limit, usable);
      && (forall i, j | 0 <= i < j < |st.created| :: st.created[i].0 > st.created[j].0)
      && (|st.created| <= limit || st.created == [])
      && (forall i | 0 <= i < |st.created| ::
            var (id, t) := st.created[i];
            InReach(ds, id) && DueAt(ds[id], now) == Some(t)
            && st.deployments[id] == RunEffect(scan, ds[id], Scheduled, Some(t), clock, usable).0)
      && (forall id: nat, i | InReach(ds, id) && DueAt(ds[id], now).Some? && 0 <= i < |st.created|
                         && id > st.created[i].0 :: Ran(st, id))
  {
    hide DueAt, RunEffect, Newer, Listed, TickEffect;
    TickDoes(scan, ds, now, clock, limit, usable);
  }

  // What it has not run stays as it was, but for the due deployment without a
  // usable agent at which it ended, which is archived.
  lemma TickLeavesTheRest(scan: Scan, ds: seq<Deployment>, now: int, clock: int, limit: int, usable: set<AgentId>)
    ensures var st := TickEffect(scan, ds, now, clock, limit, usable);
      forall id | 0 <= id < |ds| && !Ran(st, id) && st.deployments[id] != ds[id] ::
        && st.raised && st.deployments[id] == ds[id].(archived := true)
        && InReach(ds, id) && DueAt(ds[id], now).Some? && ds[id].agent !in usable
        && forall other: nat | InReach(ds, other) && other > id && DueAt(ds[other], now).Some? :: Ran(st, other)
  {
    hide DueAt, RunEffect, Newer, Listed, TickEffect;
    TickDoes(scan, ds, now, clock, limit, usable);
  }

  // The deployments in reach that are due and newer than one.
  ghost function DueBefore(ds: seq<Deployment>, id: nat, now: int): set<nat> {
    set other: nat | id < other < |ds| && InReach(ds, other) && DueAt(ds[other], now).Some?
  }

  // A tick raises exactly when some due deployment in reach has no usable agent and
  // fewer than the limit come before it.
  lemma TickRaisesIff(scan: Scan, ds: seq<Deployment>, now: int, clock: int, limit: int, usable: set<AgentId>)
    ensures TickEffect(scan, ds, now, clock, limit, usable).raised
       <==> exists id: nat :: && InReach(ds, id) && DueAt(ds[id], now).Some? && ds[id].agent !in usable
                              && |DueBefore(ds, id, now)| < limit
  {
    hide DueAt, RunEffect, InReach, Listed, TickEffect;
    TickDoes(scan, ds, now, clock, limit, usable);
    var st := TickEffect(scan, ds, now, clock, limit, usable);
    var ids := RunIds(st);
    if st.raised {
      var id :| id in Listed(ds) && AgentGoneAt(ds, Listed(ds), now, usable, st, id);
      RunBefore(st, DueBefore(ds, id, now));
      assert InReach(ds, id) && |DueBefore(ds, id, now)| < limit;
    } else {
      forall id: nat | InReach(ds, id) && DueAt(ds[id], now).Some? && ds[id].agent !in usable
        ensures |DueBefore(ds, id, now)| >= limit
      {
        assert !Ran(st, id);
        assert forall i | 0 <= i < |st.created| :: st.created[i].0 > id;
        SubsetSize(ids, DueBefore(ds, id, now));
        RunBefore(st, ids);
      }
    }
  }

  ghost function RunIds(st: TickState): set<nat> {
    set i | 0 <= i < |st.created| :: st.created[i].0
  }

  lemma RunBefore(st: TickState, ids: set<nat>)
    requires forall i, j | 0 <= i < j < |st.created| :: st.created[i].0 > st.created[j].0
    requires forall id | id in ids :: Ran(st, id)
    ensures |RunIds(st)| == |st.created| && |ids| <= |st.created|
  {
    var order := seq(|st.created|, i requires 0 <= i < |st.created| => st.created[i].0);
    forall id: nat
      ensures id in order <==> id in RunIds(st)
    {
      if id in RunIds(st) {
        var i :| 0 <= i < |st.created| && st.created[i].0 == id;
        assert order[i] == id;
      }
    }
    NewestFit(order, RunIds(st));
    SubsetSize(ids, RunIds(st));
  }

  lemma SubsetSize(a: set<nat>, b: set<nat>)
    requires a <= b
    ensures |a| <= |b|
  {
    if a != b {
      assert b == a + (b - a);
    }
  }
}
