/**
 What each step on a work item comes to, said by the fields of the row alone.
 */
module WorkOutcomes {
  import opened Options
  import opened WorkQueue

  // The item is open: queued, rescheduled with its retry time come, or leased or
  // running on a lease that has run out or has no end.
  predicate IsOpen(w: Work, now: int) {
    match w.status
    case Queued => true
    case Rescheduling => w.retryAt.None? || w.retryAt.value <= now
    case Leased => w.lease.None? || w.lease.value.expiresAt.None? || w.lease.value.expiresAt.value <= now
    case Running => w.lease.None? || w.lease.value.expiresAt.None? || w.lease.value.expiresAt.value <= now
    case _ => false
  }

  // A poll is granted the item exactly when it is open, and then the row names the
  // worker until the end of its time.
  lemma PollIsGrantedIff(q: Queue, worker: WorkerId, ms: int)
    requires ms > 0
    ensures var q' := QueueNext(q, Poll(worker, ms));
      if IsOpen(q.work, q.now) then
        && q'.grants == q.grants + 1
        && q'.work == Work(Leased, q.work.attempt + 1, Some(Lease(Some(worker), Some(q.now), Some(q.now + ms))),
                           q.work.retryAt, q.work.lastHeartbeat)
      else q' == q
  {
  }

  // A rescheduled item is granted to nobody before its retry time and to the first
  // who asks from then on.
  lemma RetryIsWaitedFor(q: Queue, id: nat, retryAt: int, to: int, worker: WorkerId, ms: int)
    requires id in q.active && q.work.status != Stopped && q.now <= to && ms > 0
    ensures var q' := QueueNext(QueueNext(QueueNext(q, End(id, SessionRescheduling(Some(retryAt)))), Tick(to)), Poll(worker, ms));
      q'.grants == q.grants + 1 <==> retryAt <= to
  {
  }

  // An execution starts on a lease for its holder, or for anybody if it names none,
  // and without one where the item is queued or its retry time has come; only then
  // does the start count as an attempt.
  lemma StartIsMadeIff(q: Queue, id: nat, who: Option<WorkerId>)
    requires id !in q.active
    ensures var w, q' := q.work, QueueNext(q, Begin(id, who));
      var onLease := w.status in {Leased, Running};
      if (if onLease then w.lease.None? || w.lease.value.worker in {None, who}
          else w.status == Queued || (w.status == Rescheduling && (w.retryAt.None? || w.retryAt.value <= q.now)))
      then
        && id in q'.active
        && q'.work == w.(status := Running, attempt := if onLease then w.attempt else w.attempt + 1)
      else q' == q
  {
  }

  // What the end of an execution makes of the item, whoever holds its lease.
  lemma EndMakes(q: Queue, id: nat, outcome: SessionOutcome)
    requires id in q.active
    ensures var w' := QueueNext(q, End(id, outcome)).work;
      && (w'.status == Stopped <==> q.work.status == Stopped)
      && (q.work.status != Stopped ==>
            w'.status == match outcome
                         case SessionMissing => Completed
                         case SessionRescheduling(_) => Rescheduling
                         case SessionTerminatedByError => Errored
                         case SessionOther => Completed)
      && w'.retryAt == (if outcome.SessionRescheduling? then outcome.retryAt else q.work.retryAt)
      && w'.attempt == q.work.attempt && w'.lease == q.work.lease && w'.lastHeartbeat == q.work.lastHeartbeat
    ensures QueueNext(q, Fail(id)).work == q.work.(status := Errored)
  {
  }

  // An ack makes a leased item run; a heartbeat also renews its end. Both leave the
  // rest of the row alone.
  lemma AckAndBeatMake(q: Queue, named: Option<WorkerId>, ms: int)
    requires q.work.status in {Leased, Running} && q.work.lease.Some? && q.work.lease.value.worker.Some?
    requires named.None? || named == q.work.lease.value.worker
    requires ms > 0
    ensures QueueNext(q, Ack(named)).work == q.work.(status := Running)
    ensures QueueNext(q, Beat(named, ms)).work == q.work.(
              status := Running,
              lastHeartbeat := Some(q.now),
              lease := Some(Lease(q.work.lease.value.worker, q.work.lease.value.leasedAt, Some(q.now + ms))))
  {
  }

  // After a reclaiming poll for items silent for `olderThan`, another worker is
  // granted a leased item exactly when it was open before or has not been heard of
  // since, by its last heartbeat or, with none, by its lease.
  lemma ReclaimOpensIff(q: Queue, olderThan: int, worker: WorkerId, ms: int)
    requires q.work.status in {Leased, Running} && q.work.lease.Some? && ms > 0
    ensures var q' := QueueNext(QueueNext(q, ReclaimPoll(olderThan)), Poll(worker, ms));
      var heard := if q.work.lastHeartbeat.Some? then q.work.lastHeartbeat else q.work.lease.value.leasedAt;
      q'.grants == q.grants + 1 <==> IsOpen(q.work, q.now) || (heard.Some? && heard.value + olderThan <= q.now)
  {
  }
}
