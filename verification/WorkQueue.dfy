/**
 Work items and their leases (app/runtime/work_queue.py), with the reclaiming
 poll of app/routers/environments.py. Times are milliseconds.
 */
module WorkQueue {
  import opened Options

  type WorkerId = nat

  datatype WorkStatus = Queued | Leased | Running | Rescheduling | Completed | Errored | Stopped

  datatype Lease = Lease(worker: Option<WorkerId>, leasedAt: Option<int>, expiresAt: Option<int>)

  datatype Work = Work(
    status: WorkStatus, attempt: nat, lease: Option<Lease>, retryAt: Option<int>, lastHeartbeat: Option<int>)

  // What the end of an execution reads from the session.
  datatype SessionOutcome =
    | SessionMissing
    | SessionRescheduling(retryAt: Option<int>)
    | SessionTerminatedByError
    | SessionOther

  datatype Begun = BegunNow(work: Work) | LeaseError | NotReady

  // ----------------------------------------------------------------- predicates

  predicate IsLeased(w: Work) {
    w.status == Leased || w.status == Running
  }

  predicate ReadyForExecution(w: Work, now: int) {
    w.status == Queued || (w.status == Rescheduling && (w.retryAt.Some? ==> w.retryAt.value <= now))
  }

  // A leased or running item without an expiry counts as expired.
  predicate LeaseExpired(w: Work, now: int) {
    IsLeased(w) && (w.lease.Some? && w.lease.value.expiresAt.Some? ==> w.lease.value.expiresAt.value <= now)
  }

  predicate AvailableForLease(w: Work, now: int) {
    ReadyForExecution(w, now) || LeaseExpired(w, now)
  }

  predicate PassesOwnerCheck(w: Work, worker: Option<WorkerId>) {
    IsLeased(w) && (w.lease.Some? && w.lease.value.worker.Some? ==> worker == w.lease.value.worker)
  }

  function Holder(w: Work): Option<WorkerId> {
    if w.lease.Some? then w.lease.value.worker else None
  }

  // Whom the ack and heartbeat endpoints take the caller for: the worker it
  // names, or the lease's own holder if it names none.
  function Caller(w: Work, named: Option<WorkerId>): Option<WorkerId> {
    if named.Some? then named else Holder(w)
  }

  // ------------------------------------------------------------------ operations

  function LeaseTo(w: Work, worker: WorkerId, now: int, ms: int): Work {
    w.(status := Leased, attempt := w.attempt + 1, lease := Some(Lease(Some(worker), Some(now), Some(now + ms))))
  }

  function Acknowledge(w: Work, worker: Option<WorkerId>): Option<Work> {
    if PassesOwnerCheck(w, worker) then Some(w.(status := Running)) else None
  }

  function Heartbeat(w: Work, worker: Option<WorkerId>, now: int, ms: int): Option<Work> {
    if !PassesOwnerCheck(w, worker) then None
    else
      var lease := if w.lease.Some? then w.lease.value else Lease(None, None, None);
      Some(w.(status := Running,
              lastHeartbeat := Some(now),
              lease := Some(lease.(worker := if worker.Some? then worker else lease.worker,
                                   expiresAt := Some(now + ms)))))
  }

  function Stop(w: Work): Work {
    w.(status := Stopped)
  }

  function BeginExecution(w: Work, worker: Option<WorkerId>, now: int): Begun {
    if IsLeased(w) then
      if PassesOwnerCheck(w, worker) then BegunNow(w.(status := Running)) else LeaseError
    else if ReadyForExecution(w, now) then BegunNow(w.(status := Running, attempt := w.attempt + 1))
    else NotReady
  }

  // The end of an execution asks neither who holds the lease nor until when.
  function EndExecution(w: Work, outcome: SessionOutcome): Work {
    var ended :=
      match outcome
      case SessionRescheduling(retryAt) => w.(status := Rescheduling, retryAt := retryAt)
      case SessionTerminatedByError => w.(status := Errored)
      case _ => w.(status := Completed);
    if w.status == Stopped then ended.(status := Stopped) else ended
  }

  function FailExecution(w: Work): Work {
    w.(status := Errored)
  }

  function HeartbeatReference(w: Work): Option<int> {
    if w.lastHeartbeat.Some? then w.lastHeartbeat
    else if w.lease.Some? then w.lease.value.leasedAt else None
  }

  predicate Reclaimable(w: Work, now: int, olderThan: int) {
    IsLeased(w) && HeartbeatReference(w).Some? && HeartbeatReference(w).value <= now - olderThan
  }

  function Reclaim(w: Work, now: int, olderThan: int): Work {
    if !Reclaimable(w, now, olderThan) then w
    else
      var lease := if w.lease.Some? then w.lease.value else Lease(None, None, None);
      w.(lease := Some(lease.(expiresAt := Some(now - 1000))))
  }

  // ------------------------------------------------------------------ the rows

  class WorkItem {
    var status: WorkStatus
    var attempt: nat
    var lease: Option<Lease>
    var retryAt: Option<int>
    var lastHeartbeat: Option<int>

    function View(): Work
      reads this
    {
      Work(status, attempt, lease, retryAt, lastHeartbeat)
    }

    constructor ()
      ensures View() == Work(Queued, 0, None, None, None)
    {
      status, attempt, lease, retryAt, lastHeartbeat := Queued, 0, None, None, None;
    }

    method LeaseWork(worker: WorkerId, now: int, ms: int)
      modifies this
      ensures View() == LeaseTo(old(View()), worker, now, ms)
    {
      attempt := attempt + 1;
      lease := Some(Lease(Some(worker), Some(now), Some(now + ms)));
      status := Leased;
    }

    method RequireLeaseOwner(worker: Option<WorkerId>) returns (ok: bool)
      ensures ok == PassesOwnerCheck(View(), worker)
    {
      if status != Leased && status != Running {
        return false;
      }
      var holder := if lease.Some? then lease.value.worker else None;
      if holder.None? {
        return true;
      }
      if worker.None? {
        return false;
      }
      ok := holder.value == worker.value;
    }

    method AckWork(worker: Option<WorkerId>) returns (ok: bool)
      modifies this
      ensures ok == Acknowledge(old(View()), worker).Some?
      ensures View() == if ok then Acknowledge(old(View()), worker).value else old(View())
    {
      ok := RequireLeaseOwner(worker);
      if ok {
        status := Running;
      }
    }

    method HeartbeatWork(worker: Option<WorkerId>, now: int, ms: int) returns (ok: bool)
      modifies this
      ensures ok == Heartbeat(old(View()), worker, now, ms).Some?
      ensures View() == if ok then Heartbeat(old(View()), worker, now, ms).value else old(View())
    {
      ok := RequireLeaseOwner(worker);
      if !ok {
        return;
      }
      lastHeartbeat := Some(now);
      var updated := if lease.Some? then lease.value else Lease(None, None, None);
      if worker.Some? {
        updated := updated.(worker := worker);
      }
      updated := updated.(expiresAt := Some(now + ms));
      lease := Some(updated);
      status := Running;
    }

    method WorkerIdForWork(named: Option<WorkerId>) returns (worker: Option<WorkerId>)
      ensures worker == Caller(View(), named)
    {
      if named.Some? {
        return named;
      }
      worker := if lease.Some? then lease.value.worker else None;
    }

    method AckEnvironmentWork(named: Option<WorkerId>) returns (ok: bool)
      modifies this
      ensures ok == Acknowledge(old(View()), Caller(old(View()), named)).Some?
      ensures View() == if ok then Acknowledge(old(View()), Caller(old(View()), named)).value else old(View())
    {
      var worker := WorkerIdForWork(named);
      ok := AckWork(worker);
    }

    method HeartbeatEnvironmentWork(named: Option<WorkerId>, now: int, ms: int) returns (ok: bool)
      modifies this
      ensures ok == Heartbeat(old(View()), Caller(old(View()), named), now, ms).Some?
      ensures View() == if ok then Heartbeat(old(View()), Caller(old(View()), named), now, ms).value else old(View())
    {
      var worker := WorkerIdForWork(named);
      ok := HeartbeatWork(worker, now, ms);
    }

    method StartExecution(worker: Option<WorkerId>, now: int) returns (result: Begun)
      modifies this
      ensures result == BeginExecution(old(View()), worker, now)
      ensures View() == if result.BegunNow? then result.work else old(View())
    {
      if status == Leased || status == Running {
        var ok := RequireLeaseOwner(worker);
        if !ok {
          return LeaseError;
        }
      } else if ReadyForExecution(View(), now) {
        attempt := attempt + 1;
      } else {
        return NotReady;
      }
      status := Running;
      result := BegunNow(View());
    }

    method FinishExecution(outcome: SessionOutcome)
      modifies this
      ensures View() == EndExecution(old(View()), outcome)
    {
      var next := Completed;
      if outcome.SessionRescheduling? {
        next := Rescheduling;
        retryAt := outcome.retryAt;
      }
      if outcome.SessionTerminatedByError? {
        next := Errored;
      }
      if status == Stopped {
        next := Stopped;
      }
      status := next;
    }

    // The exception path of an execution overwrites the status whatever it is.
    method RecordError()
      modifies this`status
      ensures View() == FailExecution(old(View()))
    {
      status := Errored;
    }

    method StopWork()
      modifies this`status
      ensures View() == Stop(old(View()))
    {
      status := Stopped;
    }

    method ExpireIfReclaimable(now: int, olderThan: int)
      modifies this
      ensures View() == Reclaim(old(View()), now, olderThan)
    {
      if status != Leased && status != Running {
        return;
      }
      var updated := if lease.Some? then lease.value else Lease(None, None, None);
      var reference := if lastHeartbeat.Some? then lastHeartbeat else updated.leasedAt;
      if reference.None? || reference.value > now - olderThan {
        return;
      }
      lease := Some(updated.(expiresAt := Some(now - 1000)));
    }
  }

  // Candidates come newest first; the oldest available one is leased, and
  // nothing else changes.
  method LeaseNextWork(candidates: seq<WorkItem>, worker: WorkerId, now: int, ms: int) returns (found: Option<nat>)
    requires forall i, j | 0 <= i < j < |candidates| :: candidates[i] != candidates[j]
    modifies candidates
    ensures found.Some? ==>
              && found.value < |candidates|
              && old(AvailableForLease(candidates[found.value].View(), now))
              && candidates[found.value].View() == LeaseTo(old(candidates[found.value].View()), worker, now, ms)
    ensures forall i | 0 <= i < |candidates| && found != Some(i) :: candidates[i].View() == old(candidates[i].View())
    ensures forall i | (if found.Some? then found.value else -1) < i < |candidates| ::
              old(!AvailableForLease(candidates[i].View(), now))
  {
    var i := |candidates|;
    while i > 0
      invariant 0 <= i <= |candidates|
      invariant forall k | 0 <= k < |candidates| :: candidates[k].View() == old(candidates[k].View())
      invariant forall k | i <= k < |candidates| :: !AvailableForLease(candidates[k].View(), now)
    {
      i := i - 1;
      if AvailableForLease(candidates[i].View(), now) {
        candidates[i].LeaseWork(worker, now, ms);
        return Some(i);
      }
    }
    found := None;
  }

  method ExpireReclaimableWork(items: seq<WorkItem>, now: int, olderThan: int)
    requires forall i, j | 0 <= i < j < |items| :: items[i] != items[j]
    modifies items
    ensures forall i | 0 <= i < |items| :: items[i].View() == Reclaim(old(items[i].View()), now, olderThan)
  {
    for k := 0 to |items|
      invariant forall i | 0 <= i < k :: items[i].View() == Reclaim(old(items[i].View()), now, olderThan)
      invariant forall i | k <= i < |items| :: items[i].View() == old(items[i].View())
    {
      items[k].ExpireIfReclaimable(now, olderThan);
    }
  }

  // A new lease keeps the heartbeat of the one before it, so it outlives a
  // reclaiming poll at the same instant only if that heartbeat is recent, or
  // there has been none.
  lemma FreshLeaseSurvivesReclaimIff(w: Work, worker: WorkerId, now: int, ms: int, olderThan: int)
    requires ms > 0 && olderThan > 0
    ensures !AvailableForLease(Reclaim(LeaseTo(w, worker, now, ms), now, olderThan), now)
       <==> (w.lastHeartbeat.Some? ==> w.lastHeartbeat.value > now - olderThan)
  {
  }

  // ------------------------------------------------------------- runs of one item

  // An execution under way: its worker, if it named itself, and the expiry of its lease.
  datatype Execution = Execution(worker: Option<WorkerId>, deadline: int)

  // One item, the clock, the unused grants of workers with their expiry, and
  // the executions under way.
  datatype Queue = Queue(
    now: int,
    work: Work,
    permits: map<WorkerId, int>,
    active: map<nat, Execution>,
    grants: nat,
    inlineStarts: nat)

  datatype QueueStep =
    | Tick(to: int)
    | Poll(worker: WorkerId, ms: int)
    | Ack(named: Option<WorkerId>)
    | Beat(named: Option<WorkerId>, ms: int)
    | Begin(id: nat, who: Option<WorkerId>)
    | End(id: nat, outcome: SessionOutcome)
    | Fail(id: nat)
    | Vanish(id: nat)
    | StopItem
    | ReclaimPoll(olderThan: int)

  function Extend(active: map<nat, Execution>, worker: WorkerId, deadline: int): map<nat, Execution> {
    map id | id in active ::
      if active[id].worker == Some(worker) then active[id].(deadline := deadline) else active[id]
  }

  function QueueNext(q: Queue, s: QueueStep): Queue {
    match s
    case Tick(to) => if q.now <= to then q.(now := to) else q
    case Poll(worker, ms) =>
      if AvailableForLease(q.work, q.now) && ms > 0 then
        q.(work := LeaseTo(q.work, worker, q.now, ms), permits := q.permits[worker := q.now + ms], grants := q.grants + 1)
      else q
    case Ack(named) =>
      (match Acknowledge(q.work, Caller(q.work, named))
       case Some(work) => q.(work := work)
       case None => q)
    case Beat(named, ms) =>
      var who := Caller(q.work, named);
      (match Heartbeat(q.work, who, q.now, ms)
       case Some(work) =>
         if ms <= 0 then q
         else if who.None? then q.(work := work)
         else q.(work := work,
                 permits := if who.value in q.permits then q.permits[who.value := q.now + ms] else q.permits,
                 active := Extend(q.active, who.value, q.now + ms))
       case None => q)
    case Begin(id, who) =>
      if id in q.active then q
      else
        (match BeginExecution(q.work, who, q.now)
         case BegunNow(work) =>
           q.(work := work,
              permits := if who.Some? then q.permits - {who.value} else q.permits,
              active := q.active[id := Execution(who, if who.Some? && who.value in q.permits
                                                      then q.permits[who.value] else q.now)],
              inlineStarts := q.inlineStarts + (if IsLeased(q.work) then 0 else 1))
         case _ => q)
    case End(id, outcome) =>
      if id in q.active then q.(work := EndExecution(q.work, outcome), active := q.active - {id}) else q
    case Fail(id) =>
      if id in q.active then q.(work := FailExecution(q.work), active := q.active - {id}) else q
    case Vanish(id) => q.(active := q.active - {id})
    case StopItem => q.(work := Stop(q.work))
    case ReclaimPoll(olderThan) => q.(work := Reclaim(q.work, q.now, olderThan))
  }

  function QueueRun(q: Queue, steps: seq<QueueStep>): Queue {
    if steps == [] then q else QueueNext(QueueRun(q, steps[..|steps| - 1]), steps[|steps| - 1])
  }

  function Enqueued(now: int): Queue {
    Queue(now, Work(Queued, 0, None, None, None), map[], map[], 0, 0)
  }

  // Whatever happens to an item, its attempt counter is the number of leases
  // granted plus the number of executions started without one.
  lemma {:induction false} AttemptCountsStarts(now: int, steps: seq<QueueStep>)
    ensures var q := QueueRun(Enqueued(now), steps); q.work.attempt == q.grants + q.inlineStarts
  {
    if steps != [] {
      AttemptCountsStarts(now, steps[..|steps| - 1]);
    }
  }

  // -------------------------------------------------------------- lease protection

  predicate Held(w: Work, worker: WorkerId, now: int) {
    && IsLeased(w)
    && w.lease.Some?
    && w.lease.value.worker == Some(worker)
    && w.lease.value.expiresAt.Some?
    && now < w.lease.value.expiresAt.value
  }

  // The ways out of a lease that has not expired: time, a stop, the end of an
  // execution by anyone, a reclaiming poll.
  predicate Releases(q: Queue, s: QueueStep, worker: WorkerId)
    requires Held(q.work, worker, q.now)
  {
    match s
    case Tick(to) => q.work.lease.value.expiresAt.value <= to
    case End(id, _) => id in q.active
    case Fail(id) => id in q.active
    case StopItem => true
    case ReclaimPoll(olderThan) => Reclaimable(q.work, q.now, olderThan)
    case _ => false
  }

  // Asking for the item, acting on it in another worker's name, or starting it
  // in any name but the holder's.
  predicate ByOthers(s: QueueStep, worker: WorkerId) {
    match s
    case Poll(_, _) => true
    case Ack(named) => named.Some? && named != Some(worker)
    case Beat(named, _) => named.Some? && named != Some(worker)
    case Begin(_, who) => who != Some(worker)
    case _ => false
  }

  // One step loses an unexpired lease in exactly those ways, and none that names
  // another worker is granted the item or passes the owner check.
  lemma LeaseIsLostIff(q: Queue, s: QueueStep, worker: WorkerId)
    requires Held(q.work, worker, q.now)
    ensures !Held(QueueNext(q, s).work, worker, QueueNext(q, s).now) <==> Releases(q, s, worker)
    ensures ByOthers(s, worker) ==> QueueNext(q, s) == q
    ensures !Releases(q, s, worker) ==> QueueNext(q, s).grants == q.grants
  {
  }

  // The owner check of acks and heartbeats lets through the holder and whoever
  // names no worker at all.
  lemma OwnerCheckPassesIff(w: Work, named: Option<WorkerId>, now: int, ms: int)
    requires IsLeased(w) && Holder(w).Some?
    ensures Acknowledge(w, Caller(w, named)).Some? <==> named.None? || named == Holder(w)
    ensures Heartbeat(w, Caller(w, named), now, ms).Some? <==> named.None? || named == Holder(w)
  {
  }

  // A heartbeat, the holder's or an unnamed one, sets the lease's end anew: from
  // `to` on another worker is granted the item exactly when the heartbeat's own
  // time is up, however long the lease was to last.
  lemma HeartbeatSetsTheEnd(q: Queue, worker: WorkerId, named: Option<WorkerId>, ms: int, to: int, other: WorkerId, grant: int)
    requires Held(q.work, worker, q.now) && (named.None? || named == Some(worker))
    requires ms > 0 && grant > 0 && q.now <= to && other != worker
    ensures var q' := QueueNext(QueueNext(QueueNext(q, Beat(named, ms)), Tick(to)), Poll(other, grant));
      q'.grants == q.grants + 1 <==> q.now + ms <= to
  {
  }

  // Somebody who names no worker takes a minute's lease away after a second.
  lemma AStrangerCutsALease(now: int)
    ensures var q := QueueRun(Enqueued(now), [Poll(1, 60000), Beat(None, 1000), Tick(now + 1000), Poll(2, 60000)]);
      q.now < now + 60000 && q.grants == 2 && Held(q.work, 2, q.now)
  {
    hide QueueRun;
    QueueRunPrefixes(Enqueued(now), [Poll(1, 60000), Beat(None, 1000), Tick(now + 1000), Poll(2, 60000)]);
    var r := [Poll(1, 60000), Beat(None, 1000), Tick(now + 1000), Poll(2, 60000)];
    assert QueueRun(Enqueued(now), r[..1]) == QueueNext(QueueRun(Enqueued(now), r[..0]), r[0]);
    assert QueueRun(Enqueued(now), r[..2]) == QueueNext(QueueRun(Enqueued(now), r[..1]), r[1]);
    assert QueueRun(Enqueued(now), r[..3]) == QueueNext(QueueRun(Enqueued(now), r[..2]), r[2]);
    assert QueueRun(Enqueued(now), r[..4]) == QueueNext(QueueRun(Enqueued(now), r[..3]), r[3]);
    assert r[..4] == r;
  }

  predicate HeldAfter(q: Queue, steps: seq<QueueStep>, n: nat, worker: WorkerId)
    requires n <= |steps|
  {
    var r := QueueRun(q, steps[..n]);
    Held(r.work, worker, r.now)
  }

  // No step of a run that finds the lease held releases it.
  ghost predicate NeverReleased(q: Queue, steps: seq<QueueStep>, worker: WorkerId) {
    forall n | 0 <= n < |steps| && HeldAfter(q, steps, n, worker) ::
      !Releases(QueueRun(q, steps[..n]), steps[n], worker)
  }

  lemma {:induction false} HeldThroughout(q: Queue, steps: seq<QueueStep>, worker: WorkerId, n: nat)
    requires Held(q.work, worker, q.now) && NeverReleased(q, steps, worker) && n <= |steps|
    ensures HeldAfter(q, steps, n, worker) && QueueRun(q, steps[..n]).grants == q.grants
  {
    hide QueueNext, Held, Releases;
    if n == 0 {
      assert steps[..0] == [];
    } else {
      HeldThroughout(q, steps, worker, n - 1);
      QueueRunPrefixes(q, steps);
      LeaseIsLostIff(QueueRun(q, steps[..n - 1]), steps[n - 1], worker);
    }
  }

  // Over every run: a lease is held all along exactly when no step releases it,
  // and then no new grant is made and no step in another worker's name has any effect.
  lemma LeaseIsKeptIff(q: Queue, steps: seq<QueueStep>, worker: WorkerId)
    requires Held(q.work, worker, q.now)
    ensures (forall n | 0 <= n <= |steps| :: HeldAfter(q, steps, n, worker)) <==> NeverReleased(q, steps, worker)
    ensures NeverReleased(q, steps, worker) ==>
              && QueueRun(q, steps).grants == q.grants
              && forall n | 0 <= n < |steps| && ByOthers(steps[n], worker) ::
                   QueueRun(q, steps[..n + 1]) == QueueRun(q, steps[..n])
  {
    hide QueueNext, QueueRun, Held, Releases;
    QueueRunPrefixes(q, steps);
    if forall n | 0 <= n <= |steps| :: HeldAfter(q, steps, n, worker) {
      forall n | 0 <= n < |steps| && HeldAfter(q, steps, n, worker)
        ensures !Releases(QueueRun(q, steps[..n]), steps[n], worker)
      {
        assert HeldAfter(q, steps, n + 1, worker);
        HeldStep(q, steps, n, worker);
      }
    }
    if NeverReleased(q, steps, worker) {
      forall n | 0 <= n <= |steps|
        ensures HeldAfter(q, steps, n, worker)
      {
        HeldThroughout(q, steps, worker, n);
      }
      HeldThroughout(q, steps, worker, |steps|);
      forall n | 0 <= n < |steps| && ByOthers(steps[n], worker)
        ensures QueueRun(q, steps[..n + 1]) == QueueRun(q, steps[..n])
      {
        HeldStep(q, steps, n, worker);
      }
    }
  }

  lemma HeldStep(q: Queue, steps: seq<QueueStep>, n: nat, worker: WorkerId)
    requires n < |steps| && HeldAfter(q, steps, n, worker)
    ensures HeldAfter(q, steps, n + 1, worker) <==> !Releases(QueueRun(q, steps[..n]), steps[n], worker)
    ensures ByOthers(steps[n], worker) ==> QueueRun(q, steps[..n + 1]) == QueueRun(q, steps[..n])
  {
    hide QueueNext, QueueRun, Held, Releases;
    QueueRunPrefixes(q, steps);
    LeaseIsLostIff(QueueRun(q, steps[..n]), steps[n], worker);
  }

  // A stopped item stays stopped under every step but the end of an execution
  // by an exception.
  lemma StopIsOverwrittenIff(q: Queue, s: QueueStep)
    requires q.work.status == Stopped
    ensures QueueNext(q, s).work.status != Stopped <==> s.Fail? && s.id in q.active
  {
  }

  // ------------------------------------------------------- disciplined executions

  // Workers execute only on an unexpired grant of their own, every execution
  // ends before its lease, as the last heartbeat left it, expires, and nobody
  // stops or reclaims the item.
  predicate Disciplined(q: Queue, s: QueueStep) {
    match s
    case Tick(to) => forall id | id in q.active :: to < q.active[id].deadline
    case Begin(_, who) => who.Some? && who.value in q.permits && q.now < q.permits[who.value]
    case StopItem => false
    case ReclaimPoll(_) => false
    case _ => true
  }

  predicate DisciplinedRun(q: Queue, steps: seq<QueueStep>) {
    steps != [] ==>
      && DisciplinedRun(q, steps[..|steps| - 1])
      && Disciplined(QueueRun(q, steps[..|steps| - 1]), steps[|steps| - 1])
  }

  predicate Finished(w: Work) {
    w.status == Completed || w.status == Errored
  }

  // An unexpired grant and a running execution each hold the item's lease, and
  // only one of them exists.
  ghost predicate Exclusive(q: Queue) {
    && (forall x | x in q.permits && q.now < q.permits[x] ::
          && q.active == map[]
          && Held(q.work, x, q.now)
          && q.work.lease.value.expiresAt == Some(q.permits[x]))
    && (forall id | id in q.active ::
          && q.active[id].worker.Some?
          && Held(q.work, q.active[id].worker.value, q.now)
          && q.active[id].worker.value !in q.permits
          && q.work.lease.value.expiresAt == Some(q.active[id].deadline))
    && (forall a, b | a in q.active && b in q.active :: a == b)
    && (IsLeased(q.work) ==> q.work.lease.Some? && q.work.lease.value.worker.Some?)
  }

  lemma BeatKeepsExclusive(q: Queue, named: Option<WorkerId>, ms: int)
    requires Exclusive(q)
    ensures Exclusive(QueueNext(q, Beat(named, ms)))
  {
    var who := Caller(q.work, named);
    if PassesOwnerCheck(q.work, who) && ms > 0 {
      assert forall id | id in q.active :: q.active[id].worker == who;
      assert forall x | x in q.permits && q.now < q.permits[x] :: Some(x) == who;
      if q.active == map[] {
        assert Extend(q.active, who.value, q.now + ms) == map[];
      }
    }
  }

  lemma PollKeepsExclusive(q: Queue, worker: WorkerId, ms: int)
    requires Exclusive(q)
    ensures Exclusive(QueueNext(q, Poll(worker, ms)))
  {
    if AvailableForLease(q.work, q.now) && ms > 0 {
      assert forall id :: id !in q.active;
      assert q.active == map[];
    }
  }

  lemma BeginKeepsExclusive(q: Queue, id: nat, who: Option<WorkerId>)
    requires Exclusive(q) && Disciplined(q, Begin(id, who))
    ensures Exclusive(QueueNext(q, Begin(id, who)))
  {
  }

  lemma EndKeepsExclusive(q: Queue, s: QueueStep)
    requires Exclusive(q) && (s.End? || s.Fail? || s.Vanish?)
    ensures Exclusive(QueueNext(q, s))
  {
    var q' := QueueNext(q, s);
    if s.id in q.active {
      assert q'.active == map[];
    } else {
      assert q.active - {s.id} == q.active;
    }
  }

  lemma StepKeepsExclusive(q: Queue, s: QueueStep)
    requires Exclusive(q) && Disciplined(q, s)
    ensures Exclusive(QueueNext(q, s))
  {
    match s
    case Beat(named, ms) => BeatKeepsExclusive(q, named, ms);
    case Poll(worker, ms) => PollKeepsExclusive(q, worker, ms);
    case Begin(id, who) => BeginKeepsExclusive(q, id, who);
    case End(_, _) => EndKeepsExclusive(q, s);
    case Fail(_) => EndKeepsExclusive(q, s);
    case Vanish(_) => EndKeepsExclusive(q, s);
    case _ =>
  }

  // A finished item has no execution under way, and no disciplined step changes it.
  lemma StepKeepsFinished(q: Queue, s: QueueStep)
    requires Exclusive(q) && Disciplined(q, s) && Finished(q.work)
    ensures QueueNext(q, s).work == q.work
  {
    assert forall id :: id !in q.active;
  }

  // Executions of an item never overlap, and a finished item is never granted,
  // acknowledged or executed again.
  lemma {:induction false} DisciplinedExecutionsNeverOverlap(now: int, steps: seq<QueueStep>)
    requires DisciplinedRun(Enqueued(now), steps)
    ensures Exclusive(QueueRun(Enqueued(now), steps))
    ensures var q := QueueRun(Enqueued(now), steps);
      forall a, b | a in q.active && b in q.active :: a == b
  {
    if steps != [] {
      var before := steps[..|steps| - 1];
      DisciplinedExecutionsNeverOverlap(now, before);
      StepKeepsExclusive(QueueRun(Enqueued(now), before), steps[|steps| - 1]);
    }
  }

  lemma {:induction false} FinishedForEver(now: int, steps: seq<QueueStep>, n: nat)
    requires DisciplinedRun(Enqueued(now), steps) && n <= |steps|
    requires Finished(QueueRun(Enqueued(now), steps[..n]).work)
    ensures QueueRun(Enqueued(now), steps).work == QueueRun(Enqueued(now), steps[..n]).work
  {
    if n == |steps| {
      assert steps[..n] == steps;
    } else {
      var before := steps[..|steps| - 1];
      assert before[..n] == steps[..n];
      FinishedForEver(now, before, n);
      DisciplinedExecutionsNeverOverlap(now, before);
      StepKeepsFinished(QueueRun(Enqueued(now), before), steps[|steps| - 1]);
    }
  }

  // Without that discipline: a finished item changes exactly when it is stopped,
  // or when an execution still under way ends with another result.
  lemma FinishedChangesIff(q: Queue, s: QueueStep)
    requires Finished(q.work)
    ensures QueueNext(q, s).work != q.work <==>
      match s
      case StopItem => true
      case Fail(id) => id in q.active && q.work.status == Completed
      case End(id, outcome) =>
        id in q.active && (match outcome
                           case SessionRescheduling(_) => true
                           case SessionTerminatedByError => q.work.status == Completed
                           case _ => q.work.status == Errored)
      case _ => false
  {
  }

  // A worker that polls and starts does so beside an execution under way, however
  // that one was started, exactly when the item is available or it passes the
  // owner check anyway.
  lemma OverlapIff(q: Queue, id: nat, other: WorkerId, ms: int, otherId: nat)
    requires id in q.active && otherId !in q.active && ms > 0
    ensures var q' := QueueNext(QueueNext(q, Poll(other, ms)), Begin(otherId, Some(other)));
      id in q'.active && otherId in q'.active
      <==> AvailableForLease(q.work, q.now) || PassesOwnerCheck(q.work, Some(other))
  {
  }

  // Beside an execution that holds the item's lease: when the lease has run out.
  lemma OverlapOnLeaseIff(q: Queue, id: nat, other: WorkerId, ms: int, otherId: nat)
    requires id in q.active && q.active[id].worker.Some? && IsLeased(q.work)
    requires Holder(q.work) == q.active[id].worker && q.work.lease.value.expiresAt == Some(q.active[id].deadline)
    requires q.active[id].worker != Some(other) && ms > 0 && otherId !in q.active
    ensures var q' := QueueNext(QueueNext(q, Poll(other, ms)), Begin(otherId, Some(other)));
      id in q'.active && otherId in q'.active <==> q.active[id].deadline <= q.now
  {
    OverlapIff(q, id, other, ms, otherId);
  }

  // Beside an execution just started without a lease: at once, unless an earlier
  // worker's lease is still in the row and has not run out.
  lemma OverlapWithoutLeaseIff(q: Queue, id: nat, other: WorkerId, ms: int, otherId: nat)
    requires !IsLeased(q.work) && ReadyForExecution(q.work, q.now)
    requires id !in q.active && otherId !in q.active && otherId != id && ms > 0
    ensures var q' := QueueNext(QueueNext(QueueNext(q, Begin(id, None)), Poll(other, ms)), Begin(otherId, Some(other)));
      id in q'.active && otherId in q'.active
      <==> Holder(q.work) in {None, Some(other)}
           || (q.work.lease.value.expiresAt.Some? ==> q.work.lease.value.expiresAt.value <= q.now)
  {
    OverlapIff(QueueNext(q, Begin(id, None)), id, other, ms, otherId);
  }

  predicate HasOverlap(q: Queue) {
    exists a, b | a in q.active && b in q.active :: a != b
  }

  // The bound that discipline puts on time is the weakest one: from any point of
  // a disciplined run at which an execution is under way, letting time pass
  // allows a second worker to start beside it exactly when its lease runs out.
  lemma OverlapAfterTickIff(
    now: int, steps: seq<QueueStep>, to: int, id: nat, other: WorkerId, ms: int, otherId: nat)
    requires DisciplinedRun(Enqueued(now), steps)
    requires var q := QueueRun(Enqueued(now), steps);
      && id in q.active && q.active[id].worker != Some(other) && otherId != id && ms > 0 && q.now <= to
    ensures var q := QueueRun(Enqueued(now), steps);
      HasOverlap(QueueRun(q, [Tick(to), Poll(other, ms), Begin(otherId, Some(other))]))
      <==> q.active[id].deadline <= to
  {
    hide QueueRun, QueueNext, Exclusive, DisciplinedRun;
    var q := QueueRun(Enqueued(now), steps);
    DisciplinedExecutionsNeverOverlap(now, steps);
    var r := [Tick(to), Poll(other, ms), Begin(otherId, Some(other))];
    QueueRunPrefixes(q, r);
    assert r[..1] == r[..0 + 1] && r[..2] == r[..1 + 1] && r[..3] == r;
    TickThenStart(q, to, id, other, ms, otherId);
  }

  // Starting without a grant of one's own overlaps exactly when it is done in the
  // name of the worker whose execution is under way.
  lemma OverlapAfterBeginIff(now: int, steps: seq<QueueStep>, id: nat, who: Option<WorkerId>, otherId: nat)
    requires DisciplinedRun(Enqueued(now), steps)
    requires var q := QueueRun(Enqueued(now), steps); id in q.active && otherId !in q.active
    ensures var q := QueueRun(Enqueued(now), steps);
      HasOverlap(QueueNext(q, Begin(otherId, who))) <==> who == q.active[id].worker
  {
    hide QueueRun, DisciplinedRun;
    var q := QueueRun(Enqueued(now), steps);
    DisciplinedExecutionsNeverOverlap(now, steps);
    var q' := QueueNext(q, Begin(otherId, who));
    if who == q.active[id].worker {
      assert id in q'.active && otherId in q'.active;
    } else {
      assert q' == q;
    }
  }

  // A reclaiming poll allows it exactly when it finds the item reclaimable.
  lemma OverlapAfterReclaimIff(
    now: int, steps: seq<QueueStep>, olderThan: int, id: nat, other: WorkerId, ms: int, otherId: nat)
    requires DisciplinedRun(Enqueued(now), steps)
    requires var q := QueueRun(Enqueued(now), steps);
      id in q.active && q.active[id].worker != Some(other) && otherId != id && ms > 0
    ensures var q := QueueRun(Enqueued(now), steps);
      HasOverlap(QueueRun(q, [ReclaimPoll(olderThan), Poll(other, ms), Begin(otherId, Some(other))]))
      <==> Reclaimable(q.work, q.now, olderThan)
  {
    hide QueueRun, QueueNext, Exclusive, DisciplinedRun, Reclaimable;
    var q := QueueRun(Enqueued(now), steps);
    DisciplinedExecutionsNeverOverlap(now, steps);
    var r := [ReclaimPoll(olderThan), Poll(other, ms), Begin(otherId, Some(other))];
    QueueRunPrefixes(q, r);
    assert r[..1] == r[..0 + 1] && r[..2] == r[..1 + 1] && r[..3] == r;
    ReclaimThenStart(q, olderThan, id, other, ms, otherId);
  }

  lemma ReclaimThenStart(q: Queue, olderThan: int, id: nat, other: WorkerId, ms: int, otherId: nat)
    requires Exclusive(q)
    requires id in q.active && q.active[id].worker != Some(other) && otherId != id && ms > 0
    ensures HasOverlap(QueueNext(QueueNext(QueueNext(q, ReclaimPoll(olderThan)), Poll(other, ms)), Begin(otherId, Some(other))))
      <==> Reclaimable(q.work, q.now, olderThan)
  {
    var q1 := QueueNext(q, ReclaimPoll(olderThan));
    var q2 := QueueNext(q1, Poll(other, ms));
    var q3 := QueueNext(q2, Begin(otherId, Some(other)));
    assert forall a | a in q1.active :: a == id;
    if Reclaimable(q.work, q.now, olderThan) {
      assert id in q3.active && otherId in q3.active;
    } else {
      assert q3.active == q.active;
    }
  }

  lemma TickThenStart(q: Queue, to: int, id: nat, other: WorkerId, ms: int, otherId: nat)
    requires Exclusive(q)
    requires id in q.active && q.active[id].worker != Some(other) && otherId != id && ms > 0 && q.now <= to
    ensures HasOverlap(QueueNext(QueueNext(QueueNext(q, Tick(to)), Poll(other, ms)), Begin(otherId, Some(other))))
      <==> q.active[id].deadline <= to
  {
    var q1 := QueueNext(q, Tick(to));
    var q2 := QueueNext(q1, Poll(other, ms));
    var q3 := QueueNext(q2, Begin(otherId, Some(other)));
    assert forall a | a in q1.active :: a == id;
    if q.active[id].deadline <= to {
      assert id in q3.active && otherId in q3.active;
    } else {
      assert q3.active == q.active;
    }
  }

  // Two executions under way: worker 1's, past its lease, and worker 2's.
  function Overlapping(now: int): Queue {
    Queue(now + 60000,
          Work(Running, 2, Some(Lease(Some(2), Some(now + 60000), Some(now + 120000))), None, None),
          map[],
          map[0 := Execution(Some(1), now + 60000), 1 := Execution(Some(2), now + 120000)],
          2, 0)
  }

  lemma OverlapArises(now: int)
    ensures var r := LateRun(now);
      QueueNext(QueueNext(QueueNext(QueueNext(QueueNext(Enqueued(now), r[0]), r[1]), r[2]), r[3]), r[4])
      == Overlapping(now)
  {
    var q1 := QueueNext(Enqueued(now), Poll(1, 60000));
    assert q1.permits == map[1 := now + 60000];
    var q2 := QueueNext(q1, Begin(0, Some(1)));
    assert q2.permits == map[] && q2.active == map[0 := Execution(Some(1), now + 60000)];
    var q4 := QueueNext(QueueNext(q2, Tick(now + 60000)), Poll(2, 60000));
    assert q4.permits == map[2 := now + 120000];
    assert q4.permits - {2} == map[];
  }

  lemma OverlapRevives(now: int)
    ensures var q := QueueNext(Overlapping(now), End(0, SessionOther));
      var q' := QueueNext(QueueNext(q, End(1, SessionRescheduling(None))), Poll(3, 60000));
      q.work.status == Completed && q'.work.status == Leased && q'.grants == 3
  {
  }

  // An execution that outlives its lease overlaps the next holder's, whose end
  // then takes a completed item back into the queue, where it is granted again.
  lemma LateExecutionOverlaps(now: int)
    ensures QueueRun(Enqueued(now), LateRun(now)[..5]) == Overlapping(now)
    ensures QueueRun(Enqueued(now), LateRun(now)[..6]).work.status == Completed
    ensures QueueRun(Enqueued(now), LateRun(now)).work.status == Leased
    ensures QueueRun(Enqueued(now), LateRun(now)).grants == 3
  {
    hide QueueRun, QueueNext;
    var r := LateRun(now);
    QueueRunPrefixes(Enqueued(now), r);
    assert r[..8] == r && r[7] == Poll(3, 60000) && r[6] == End(1, SessionRescheduling(None));
    OverlapArises(now);
    OverlapRevives(now);
  }

  function LateRun(now: int): seq<QueueStep> {
    [Poll(1, 60000), Begin(0, Some(1)), Tick(now + 60000),
     Poll(2, 60000), Begin(1, Some(2)),
     End(0, SessionOther), End(1, SessionRescheduling(None)), Poll(3, 60000)]
  }

  lemma QueueRunPrefixes(q: Queue, r: seq<QueueStep>)
    ensures QueueRun(q, r[..0]) == q
    ensures forall n | 0 <= n < |r| :: QueueRun(q, r[..n + 1]) == QueueNext(QueueRun(q, r[..n]), r[n])
    ensures r[..|r|] == r
  {
    forall n | 0 <= n < |r|
      ensures QueueRun(q, r[..n + 1]) == QueueNext(QueueRun(q, r[..n]), r[n])
    {
      assert r[..n + 1][..n] == r[..n];
    }
  }
}
