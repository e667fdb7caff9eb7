/**
 The scheduler with the scan it really uses: clocks in seconds, a time zone at a
 fixed distance from UTC, and the cron scan on wall-clock minutes.
 */
module CronScheduler {
  import Calendar
  import opened CronField
  import CronScan
  import opened Options
  import opened Scheduler
  import TickOutcomes

  // How texts are read and split, and the zone's distance from UTC in seconds.
  datatype Zone = Zone(rd: Reader, split: string -> seq<string>, offset: int)

  // The next runs of an expression at a clock, as instants in UTC.
  ghost function Upcoming(z: Zone, cron: string, clock: int): seq<int> {
    var parts, wall := z.split(cron), clock + z.offset;
    if |parts| != 5 || wall < 0 then []
    else
      var runs := CronScan.NextRuns(z.rd, parts, wall / 60);
      seq(|runs|, i requires 0 <= i < |runs| => 60 * runs[i] - z.offset)
  }

  ghost function ScanIn(z: Zone): Scan {
    (cron, clock) => Upcoming(z, cron, clock)
  }

  // Every instant of the list is a minute the expression names, after the clock.
  lemma UpcomingNamed(z: Zone, cron: string, clock: int, t: int) returns (minute: nat)
    requires t in Upcoming(z, cron, clock)
    ensures t == 60 * minute - z.offset && t > clock
    ensures |z.split(cron)| == 5 && clock + z.offset >= 0
    ensures minute in CronScan.NextRuns(z.rd, z.split(cron), (clock + z.offset) / 60)
  {
    hide CronScan.NextRuns;
    var parts, wall := z.split(cron), clock + z.offset;
    var runs := CronScan.NextRuns(z.rd, parts, wall / 60);
    var list := Upcoming(z, cron, clock);
    var i :| 0 <= i < |list| && list[i] == t;
    minute := runs[i];
    CronScan.NextRunsAreFirst(z.rd, parts, wall / 60);
    assert minute in runs;
  }

  lemma UpcomingLists(z: Zone, cron: string, clock: int, minute: nat)
    requires |z.split(cron)| == 5 && clock + z.offset >= 0
    requires minute in CronScan.NextRuns(z.rd, z.split(cron), (clock + z.offset) / 60)
    ensures 60 * minute - z.offset in Upcoming(z, cron, clock)
  {
    hide CronScan.NextRuns;
    var runs := CronScan.NextRuns(z.rd, z.split(cron), (clock + z.offset) / 60);
    var i :| 0 <= i < |runs| && runs[i] == minute;
    assert Upcoming(z, cron, clock)[i] == 60 * minute - z.offset;
  }

  lemma ScanIsStrictlyFuture(z: Zone)
    ensures StrictlyFuture(ScanIn(z))
  {
    hide Upcoming;
    forall cron, clock, t | t in ScanIn(z)(cron, clock)
      ensures t > clock
    {
      var minute := UpcomingNamed(z, cron, clock, t);
    }
  }

  // A tick that was not cut short leaves nothing to do for a tick at an instant
  // not after it and not after its clock.
  lemma SecondCronTickIsIdle(
    z: Zone, ds: seq<Deployment>, now: int, clock: int, limit: int, usable: set<AgentId>,
    now': int, clock': int, limit': int, usable': set<AgentId>)
    requires now' <= now && now' <= clock
    requires var st := TickEffect(ScanIn(z), ds, now, clock, limit, usable); !st.raised && |st.created| < limit
    ensures var after := TickEffect(ScanIn(z), ds, now, clock, limit, usable).deployments;
      TickEffect(ScanIn(z), after, now', clock', limit', usable') == TickState(after, [], false)
  {
    hide TickEffect, ScanIn;
    ScanIsStrictlyFuture(z);
    SecondTickIsIdle(ScanIn(z), ds, now, clock, limit, usable, now', clock', limit', usable');
  }

  // If no tick is given an instant ahead of the clock, every instant is run at
  // most once however many runs there are, and a deployment is due exactly when
  // it is active and one of its listed instants has come.
  lemma PromptCronTicksRunOnce(z: Zone, steps: seq<Step>, id: nat, now: int)
    requires Prompt(steps) && id < |Run(ScanIn(z), steps)|
    ensures var d := Run(ScanIn(z), steps)[id];
      && (forall i, j, t | 0 <= i < j < |d.runs| && IsRunFor(d.runs[i], t) :: !IsRunFor(d.runs[j], t))
      && (DueAt(d, now).Some? <==>
            && !d.paused && d.schedule.Some? && d.schedule.value.enabled
            && exists t :: t in d.schedule.value.upcoming && t <= now)
  {
    hide Run, ScanIn, Prompt;
    ScanIsStrictlyFuture(z);
    PromptTicksRunOnce(ScanIn(z), steps, id, now);
  }

  // Nor is any missed: a tick that is not cut short runs exactly the active
  // deployments in reach one of whose listed instants has come.
  lemma PromptCronTickMissesNothing(
    z: Zone, steps: seq<Step>, now: int, clock: int, limit: int, usable: set<AgentId>, id: nat)
    requires Prompt(steps)
    requires var st := TickEffect(ScanIn(z), Run(ScanIn(z), steps), now, clock, limit, usable);
      !st.raised && |st.created| < limit
    ensures var ds := Run(ScanIn(z), steps);
      var st := TickEffect(ScanIn(z), ds, now, clock, limit, usable);
      (exists i | 0 <= i < |st.created| :: st.created[i].0 == id)
      <==> TickOutcomes.InReach(ds, id) && !ds[id].paused
           && ds[id].schedule.Some? && ds[id].schedule.value.enabled
           && exists t :: t in ds[id].schedule.value.upcoming && t <= now
  {
    hide Run, ScanIn, Prompt, TickEffect, TickOutcomes.Newer, DueAt;
    var ds := Run(ScanIn(z), steps);
    var st := TickEffect(ScanIn(z), ds, now, clock, limit, usable);
    if id < |ds| {
      PromptCronTicksRunOnce(z, steps, id, now);
      if DueAt(ds[id], now).Some? {
        TickOutcomes.TickRunsWhatIsDue(ScanIn(z), ds, now, clock, limit, usable, id, DueAt(ds[id], now).value);
      }
    }
    forall i | 0 <= i < |st.created| && st.created[i].0 == id
      ensures TickOutcomes.InReach(ds, id) && DueAt(ds[id], now).Some?
    {
      assert (id, st.created[i].1) in st.created;
      TickOutcomes.TickRunsWhatIsDue(ScanIn(z), ds, now, clock, limit, usable, id, st.created[i].1);
    }
  }

  // ----------------------------------------------------- ticks ahead of the clock

  // The first listed run stays the first until its minute has come, and no
  // later list goes back before it.
  lemma FirstRunStays(z: Zone, cron: string, made: int, clock: int, t: int)
    requires Earliest(Upcoming(z, cron, made)) == Some(t) && made <= clock
    ensures t in Upcoming(z, cron, clock) <==> clock < t
    ensures forall u | u in Upcoming(z, cron, clock) :: t <= u
  {
    hide Upcoming, CronScan.NextRuns, CronScan.Fires;
    var minute := UpcomingNamed(z, cron, made, t);
    var parts, m, k := z.split(cron), (made + z.offset) / 60, (clock + z.offset) / 60;
    CronScan.NextRunsAreFirst(z.rd, parts, m);
    CronScan.NextRunsAreFirst(z.rd, parts, k);
    forall v: nat | m < v <= m + CronScan.WINDOW && CronScan.Fires(z.rd, parts, v)
      ensures minute <= v
    {
      FirstIsFirst(z, cron, made, t, minute, v);
    }
    forall u | u in Upcoming(z, cron, clock)
      ensures t <= u
    {
      var v := UpcomingNamed(z, cron, clock, u);
      assert v in CronScan.NextRuns(z.rd, parts, k) && k < v;
      assert v <= m + CronScan.WINDOW ==> minute <= v;
      assert minute <= m + CronScan.WINDOW;
    }
    if t in Upcoming(z, cron, clock) {
      var v := UpcomingNamed(z, cron, clock, t);
    }
    if clock < t {
      assert k < minute <= k + CronScan.WINDOW;
      EarlierIsListed(z, parts, k, minute);
      UpcomingLists(z, cron, clock, minute);
    }
  }

  lemma FirstIsFirst(z: Zone, cron: string, made: int, t: int, minute: nat, v: nat)
    requires Earliest(Upcoming(z, cron, made)) == Some(t) && t == 60 * minute - z.offset
    requires |z.split(cron)| == 5 && made + z.offset >= 0
    requires minute in CronScan.NextRuns(z.rd, z.split(cron), (made + z.offset) / 60)
    requires var m := (made + z.offset) / 60;
      m < v <= m + CronScan.WINDOW && CronScan.Fires(z.rd, z.split(cron), v)
    ensures minute <= v
  {
    hide Upcoming, CronScan.NextRuns, CronScan.Fires;
    var parts, m := z.split(cron), (made + z.offset) / 60;
    var runs := CronScan.NextRuns(z.rd, parts, m);
    CronScan.NextRunsAreFirst(z.rd, parts, m);
    if v in runs {
      UpcomingLists(z, cron, made, v);
    } else {
      var i :| 0 <= i < |runs| && runs[i] == minute;
      assert minute <= runs[CronScan.COUNT - 1] < v;
    }
  }

  // A match before which there is none in the window is listed.
  lemma EarlierIsListed(z: Zone, parts: seq<string>, k: nat, minute: nat)
    requires |parts| == 5 && k < minute <= k + CronScan.WINDOW && CronScan.Fires(z.rd, parts, minute)
    requires forall v: nat | k < v < minute :: !CronScan.Fires(z.rd, parts, v)
    ensures minute in CronScan.NextRuns(z.rd, parts, k)
  {
    hide CronScan.NextRuns, CronScan.Fires;
    var runs := CronScan.NextRuns(z.rd, parts, k);
    CronScan.NextRunsAreFirst(z.rd, parts, k);
    assert |runs| == CronScan.COUNT ==> runs[CronScan.COUNT - 1] in runs;
  }

  // A tick that runs a deployment blocks it for good exactly when the clock had
  // not reached the due instant.
  lemma CronTickBlocksIff(z: Zone, d: Deployment, made: int, now: int, clock: int, usable: set<AgentId>)
    requires DueAt(d, now).Some? && made <= clock
    requires d.schedule.value.upcoming == Upcoming(z, d.schedule.value.cron, made)
    requires RunEffect(ScanIn(z), d, Scheduled, DueAt(d, now), clock, usable).1.Created?
    requires forall k, t | 0 <= k < |d.runs| && IsRunFor(d.runs[k], t) :: t < DueAt(d, now).value
    ensures Blocked(RunEffect(ScanIn(z), d, Scheduled, DueAt(d, now), clock, usable).0) <==> clock < DueAt(d, now).value
  {
    hide Upcoming, Blocked, RunEffect;
    FirstRunStays(z, d.schedule.value.cron, made, clock, DueAt(d, now).value);
    BlockedAfterRunIff(ScanIn(z), d, now, clock, usable);
  }

  const EVERY_MINUTE := "* * * * *"

  lemma EveryMinuteFires(z: Zone)
    requires z.split(EVERY_MINUTE) == ["*", "*", "*", "*", "*"] && !z.rd.isSpace('*') && z.offset == 0
    ensures Earliest(Upcoming(z, EVERY_MINUTE, 0)) == Some(60)
    ensures Upcoming(z, EVERY_MINUTE, 30) == Upcoming(z, EVERY_MINUTE, 0)
  {
    hide CronScan.NextRuns, CronScan.Fires;
    var parts := ["*", "*", "*", "*", "*"];
    StarsFire(z.rd, 1);
    EarlierIsListed(z, parts, 0, 1);
    UpcomingLists(z, EVERY_MINUTE, 0, 1);
    hide Upcoming;
    var first := Earliest(Upcoming(z, EVERY_MINUTE, 0)).value;
    var minute := UpcomingNamed(z, EVERY_MINUTE, 0, first);
  }

  lemma StarsFire(rd: Reader, t: nat)
    requires !rd.isSpace('*')
    ensures CronScan.Fires(rd, ["*", "*", "*", "*", "*"], t)
  {
    hide FieldNames, Calendar.DateOf;
    CronScan.StarNames(rd, 0, 59, CronScan.Minute(t));
    CronScan.StarNames(rd, 0, 23, CronScan.Hour(t));
    Calendar.DateIsValid(CronScan.Day(t));
    CronScan.StarNames(rd, 1, 31, Calendar.DateOf(CronScan.Day(t)).day);
    CronScan.StarNames(rd, 1, 12, Calendar.DateOf(CronScan.Day(t)).month);
    CronScan.StarNames(rd, 0, 7, CronScan.CronWeekday(t));
  }

  // A schedule for every minute, made at second 0: a tick for second 60 at
  // second 30 runs it once, and it is never run again.
  lemma EarlyTickStopsEveryMinute(z: Zone, ticks: seq<Step>)
    requires z.split(EVERY_MINUTE) == ["*", "*", "*", "*", "*"] && !z.rd.isSpace('*') && z.offset == 0
    requires OnlyTicks(ticks)
    ensures var ds := Run(ScanIn(z), CreateAndTick(EVERY_MINUTE, 0, 30, 60) + ticks);
      |ds| == 1 && ds[0].runs == [RunRow(Scheduled, Some(60))]
  {
    hide Upcoming, Run;
    EveryMinuteFires(z);
    EarlyTickStopsASchedule(ScanIn(z), EVERY_MINUTE, 0, 30, 60, ticks);
  }
}
