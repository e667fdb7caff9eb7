/**
 The event stream of a session (app/routers/sessions.py, _stream_response): a
 cursor that polls the log 100 events at a time while the log keeps growing.
 */
module EventStream {
  import opened SessionState
  import opened SessionHandlers

  const POLL_LIMIT: nat := 100

  // Rows with a sequence number above `after`, in order (list_events).
  function Above(log: seq<Event>, after: int): seq<Event> {
    if log == [] then []
    else
      Above(log[..|log| - 1], after)
      + (if log[|log| - 1].seqNo > after then [log[|log| - 1]] else [])
  }

  function Take<T>(s: seq<T>, n: nat): seq<T> {
    if |s| <= n then s else s[..n]
  }

  function ListEvents(log: seq<Event>, after: int, limit: nat): seq<Event> {
    Take(Above(log, after), limit)
  }

  // The events that pass the thread filter.
  function Keep(events: seq<Event>, belongs: Event -> bool): seq<Event> {
    if events == [] then []
    else
      Keep(events[..|events| - 1], belongs)
      + (if belongs(events[|events| - 1]) then [events[|events| - 1]] else [])
  }

  datatype Cursor = Cursor(at: int, delivered: seq<Event>, open: bool)

  function PollEffect(c: Cursor, s: Session, belongs: Event -> bool): Cursor {
    if !c.open then c
    else if s.deleted then c.(open := false)
    else
      var kept := Keep(ListEvents(s.log, c.at, POLL_LIMIT), belongs);
      if kept == [] then c
      else c.(at := kept[|kept| - 1].seqNo, delivered := c.delivered + kept)
  }

  class Streamer {
    var currentSeq: int
    var sent: seq<Event>
    var open: bool

    function View(): Cursor
      reads this
    {
      Cursor(currentSeq, sent, open)
    }

    constructor (afterSeq: int)
      ensures View() == Cursor(afterSeq, [], true)
    {
      currentSeq, sent, open := afterSeq, [], true;
    }

    // One round of the generator: a query, and an event sent at a time.
    method Poll(s: Session, belongs: Event -> bool)
      modifies this
      ensures View() == PollEffect(old(View()), s, belongs)
    {
      if !open {
        return;
      }
      if s.deleted {
        open := false;
        return;
      }
      var events := ListEvents(s.log, currentSeq, POLL_LIMIT);
      for i := 0 to |events|
        invariant open == old(open)
        invariant sent == old(sent) + Keep(events[..i], belongs)
        invariant currentSeq == if Keep(events[..i], belongs) == [] then old(currentSeq)
                                else Keep(events[..i], belongs)[|Keep(events[..i], belongs)| - 1].seqNo
      {
        assert events[..i + 1][..i] == events[..i];
        if belongs(events[i]) {
          currentSeq := events[i].seqNo;
          sent := sent + [events[i]];
        }
      }
      assert events[..|events|] == events;
    }
  }

  // ------------------------------------------------------------ queries, closed

  function Floor(after: int): nat {
    if after < 0 then 0 else after
  }

  function From(log: seq<Event>, after: int): seq<Event> {
    if Floor(after) <= |log| then log[Floor(after)..] else []
  }

  lemma {:induction false} AboveOfNumbered(log: seq<Event>, after: int)
    requires forall i | 0 <= i < |log| :: log[i].seqNo == i + 1
    ensures Above(log, after) == From(log, after)
  {
    if log != [] {
      AboveOfNumbered(log[..|log| - 1], after);
      if Floor(after) < |log| {
        assert log[Floor(after)..] == log[..|log| - 1][Floor(after)..] + [log[|log| - 1]];
      }
    }
  }

  lemma {:induction false} KeepBoth(first: seq<Event>, second: seq<Event>, belongs: Event -> bool)
    ensures Keep(first + second, belongs) == Keep(first, belongs) + Keep(second, belongs)
  {
    if second == [] {
      assert first + second == first;
    } else {
      assert (first + second)[..|first + second| - 1] == first + second[..|second| - 1];
      KeepBoth(first, second[..|second| - 1], belongs);
    }
  }

  // What is kept ends with the last event that belongs.
  lemma {:induction false} KeepEnd(events: seq<Event>, belongs: Event -> bool) returns (n: nat)
    ensures n <= |events|
    ensures Keep(events[..n], belongs) == Keep(events, belongs)
    ensures n == 0 <==> Keep(events, belongs) == []
    ensures 0 < n ==> Keep(events, belongs)[|Keep(events, belongs)| - 1] == events[n - 1]
  {
    if events == [] {
      n := 0;
    } else if belongs(events[|events| - 1]) {
      n := |events|;
      assert events[..n] == events;
    } else {
      n := KeepEnd(events[..|events| - 1], belongs);
      assert events[..|events| - 1][..n] == events[..n];
    }
  }

  lemma {:induction false} KeepNothing(events: seq<Event>, belongs: Event -> bool)
    ensures Keep(events, belongs) == [] <==> forall e | e in events :: !belongs(e)
  {
    if events != [] {
      KeepNothing(events[..|events| - 1], belongs);
      assert events == events[..|events| - 1] + [events[|events| - 1]];
    }
  }

  lemma {:induction false} KeepEverything(events: seq<Event>)
    ensures Keep(events, e => true) == events
  {
    if events != [] {
      KeepEverything(events[..|events| - 1]);
    }
  }

  // ------------------------------------------- streams over a growing log

  // The session may be deleted, with its event, while the stream runs.
  datatype StreamStep = Grow(types: seq<EventType>) | DeleteSession | PollOnce

  datatype StreamWorld = StreamWorld(session: Session, cursor: Cursor)

  function StreamNext(w: StreamWorld, step: StreamStep, belongs: Event -> bool): StreamWorld {
    match step
    case Grow(types) => w.(session := Append(w.session, types))
    case DeleteSession =>
      (match DeleteEffect(w.session)
       case Done(s, _) => w.(session := s)
       case Refused(_) => w)
    case PollOnce => w.(cursor := PollEffect(w.cursor, w.session, belongs))
  }

  function StreamRun(w: StreamWorld, steps: seq<StreamStep>, belongs: Event -> bool): StreamWorld {
    if steps == [] then w
    else StreamNext(StreamRun(w, steps[..|steps| - 1], belongs), steps[|steps| - 1], belongs)
  }

  // The cursor has sent exactly the belonging events between its start and
  // where it stands, each once and in order.
  ghost predicate Delivers(w: StreamWorld, after: int, belongs: Event -> bool) {
    && WellNumbered(w.session)
    && (w.cursor.at == after || Floor(after) < w.cursor.at <= |w.session.log|)
    && w.cursor.delivered == Keep(Passed(w.session.log, after, w.cursor.at), belongs)
  }

  // The events between the start of a cursor and where it stands.
  function Passed(log: seq<Event>, after: int, at: int): seq<Event> {
    if Floor(after) < at <= |log| then log[Floor(after)..at] else []
  }

  // A poll passes the first `n` events of its page, up to the last that belongs.
  lemma PassedByPoll(log: seq<Event>, after: int, at: int, n: nat)
    requires at == after || Floor(after) < at <= |log|
    requires 0 < n && Floor(at) + n <= |log|
    ensures Passed(log, after, Floor(at) + n) == Passed(log, after, at) + From(log, at)[..n]
  {
  }

  lemma PollDelivers(w: StreamWorld, after: int, belongs: Event -> bool)
    requires Delivers(w, after, belongs)
    ensures Delivers(w.(cursor := PollEffect(w.cursor, w.session, belongs)), after, belongs)
    ensures var page := Take(From(w.session.log, w.cursor.at), POLL_LIMIT);
      PollEffect(w.cursor, w.session, belongs).at != w.cursor.at
      <==> w.cursor.open && !w.session.deleted && exists e | e in page :: belongs(e)
  {
    hide Keep, Above;
    var log, at := w.session.log, w.cursor.at;
    AboveOfNumbered(log, at);
    var page := Take(From(log, at), POLL_LIMIT);
    KeepNothing(page, belongs);
    var n := KeepEnd(page, belongs);
    if n > 0 {
      assert page[n - 1] == log[Floor(at) + n - 1];
      assert page[..n] == From(log, at)[..n];
      PassedByPoll(log, after, at, n);
      KeepBoth(Passed(log, after, at), page[..n], belongs);
    }
  }

  lemma GrowDelivers(w: StreamWorld, after: int, s: Session, belongs: Event -> bool)
    requires Delivers(w, after, belongs)
    requires WellNumbered(s) && w.session.log <= s.log
    ensures Delivers(w.(session := s), after, belongs)
  {
    assert Passed(s.log, after, w.cursor.at) == Passed(w.session.log, after, w.cursor.at) by {
      if w.cursor.at == after {
        assert !(Floor(after) < after);
      }
    }
  }

  lemma StepDelivers(w: StreamWorld, after: int, step: StreamStep, belongs: Event -> bool)
    requires Delivers(w, after, belongs)
    ensures Delivers(StreamNext(w, step, belongs), after, belongs)
  {
    hide Delivers, PollEffect;
    assert WellNumbered(w.session) by { DeliversNumbered(w, after, belongs); }
    match step
    case Grow(types) => GrowDelivers(w, after, Append(w.session, types), belongs);
    case DeleteSession => GrowDelivers(w, after, StreamNext(w, step, belongs).session, belongs);
    case PollOnce => PollDelivers(w, after, belongs);
  }

  lemma DeliversNumbered(w: StreamWorld, after: int, belongs: Event -> bool)
    requires Delivers(w, after, belongs)
    ensures WellNumbered(w.session)
  {
  }

  // Under every interleaving of appends, polls and a deletion the stream,
  // filtered or not, has sent each event it owes up to where it stands exactly
  // once and in order.
  lemma {:induction false} EveryStreamDelivers(w: StreamWorld, after: int, steps: seq<StreamStep>, belongs: Event -> bool)
    requires WellNumbered(w.session) && w.cursor == Cursor(after, [], true)
    ensures Delivers(StreamRun(w, steps, belongs), after, belongs)
  {
    hide StreamNext;
    if steps != [] {
      EveryStreamDelivers(w, after, steps[..|steps| - 1], belongs);
      StepDelivers(StreamRun(w, steps[..|steps| - 1], belongs), after, steps[|steps| - 1], belongs);
    }
  }

  // Nothing is sent once the session is deleted.
  lemma {:induction false} DeletedStreamIsSilent(w: StreamWorld, steps: seq<StreamStep>, belongs: Event -> bool)
    requires w.session.deleted
    ensures var w' := StreamRun(w, steps, belongs);
      w'.session.deleted && w'.cursor.at == w.cursor.at && w'.cursor.delivered == w.cursor.delivered
  {
    if steps != [] {
      DeletedStreamIsSilent(w, steps[..|steps| - 1], belongs);
    }
  }

  // A deletion cuts the stream off where it stands: in all that follows it has
  // sent exactly the belonging events up to its last poll, and every event
  // behind that is lost, the deletion's own always among them.
  lemma DeletionCutsTheStream(
    w: StreamWorld, after: int, before: seq<StreamStep>, later: seq<StreamStep>, belongs: Event -> bool)
    requires WellNumbered(w.session) && w.cursor == Cursor(after, [], true)
    requires var v := StreamRun(w, before, belongs); v.session.deleted == false && DeleteEffect(v.session).Done?
    ensures var v := StreamRun(w, before, belongs);
      var v' := StreamRun(StreamNext(v, DeleteSession, belongs), later, belongs);
      && v'.cursor.delivered == Keep(Passed(v.session.log, after, v.cursor.at), belongs)
      && v.session.log < v'.session.log
      && v'.session.log[|v.session.log|].typ == SessionDeleted
  {
    hide StreamRun, StreamNext, Keep, Passed;
    var v := StreamRun(w, before, belongs);
    EveryStreamDelivers(w, after, before, belongs);
    var d := StreamNext(v, DeleteSession, belongs);
    DeletionStep(v, belongs);
    DeletedStreamIsSilent(d, later, belongs);
    LogOnlyGrows(d, later, belongs);
  }

  lemma DeletionStep(v: StreamWorld, belongs: Event -> bool)
    requires DeleteEffect(v.session).Done?
    ensures var d := StreamNext(v, DeleteSession, belongs);
      && d.session.deleted && d.cursor == v.cursor && v.session.log < d.session.log
      && d.session.log[|v.session.log|].typ == SessionDeleted
  {
  }

  lemma {:induction false} LogOnlyGrows(w: StreamWorld, steps: seq<StreamStep>, belongs: Event -> bool)
    ensures w.session.log <= StreamRun(w, steps, belongs).session.log
  {
    if steps != [] {
      LogOnlyGrows(w, steps[..|steps| - 1], belongs);
    }
  }

  // The events the cursor has not passed yet.
  function Undelivered(w: StreamWorld): nat {
    |From(w.session.log, w.cursor.at)|
  }

  function Smaller(a: nat, b: nat): nat {
    if a <= b then a else b
  }

  // Without a filter the stream has sent everything up to the cursor, and each
  // poll sends the next 100 events or all that are left.
  lemma UnfilteredStreamAdvances(w: StreamWorld, after: int)
    requires Delivers(w, after, e => true) && w.cursor.open && !w.session.deleted
    ensures w.cursor.delivered == Passed(w.session.log, after, w.cursor.at)
    ensures var w' := w.(cursor := PollEffect(w.cursor, w.session, e => true));
      Undelivered(w') == Undelivered(w) - Smaller(Undelivered(w), 100)
  {
    hide Keep, Passed;
    var log, at := w.session.log, w.cursor.at;
    KeepEverything(Passed(log, after, at));
    AboveOfNumbered(log, at);
    var page := ListEvents(log, at, POLL_LIMIT);
    KeepEverything(page);
    if page != [] {
      assert page[|page| - 1] == log[Floor(at) + |page| - 1];
    }
  }

  // A filtered stream behind 100 foreign events never sends anything again.
  lemma {:induction false} FilteredStreamStaysStuck(w: StreamWorld, after: int, steps: seq<StreamStep>, belongs: Event -> bool)
    requires Delivers(w, after, belongs)
    requires Undelivered(w) >= 100
    requires forall e | e in From(w.session.log, w.cursor.at)[..100] :: !belongs(e)
    ensures var w' := StreamRun(w, steps, belongs);
      w'.cursor.at == w.cursor.at && w'.cursor.delivered == w.cursor.delivered
    ensures var w' := StreamRun(w, steps, belongs);
      && Delivers(w', after, belongs)
      && Undelivered(w') >= 100
      && From(w'.session.log, w.cursor.at)[..100] == From(w.session.log, w.cursor.at)[..100]
  {
    hide StreamNext, Keep, Passed, PollEffect, From;
    if steps != [] {
      var before := steps[..|steps| - 1];
      FilteredStreamStaysStuck(w, after, before, belongs);
      StuckStep(StreamRun(w, before, belongs), after, steps[|steps| - 1], belongs);
    }
  }

  lemma StuckStep(v: StreamWorld, after: int, step: StreamStep, belongs: Event -> bool)
    requires Delivers(v, after, belongs) && Undelivered(v) >= POLL_LIMIT
    requires forall e | e in From(v.session.log, v.cursor.at)[..POLL_LIMIT] :: !belongs(e)
    ensures var v' := StreamNext(v, step, belongs);
      && Delivers(v', after, belongs)
      && v'.cursor.at == v.cursor.at && v'.cursor.delivered == v.cursor.delivered
      && Undelivered(v') >= POLL_LIMIT
      && From(v'.session.log, v.cursor.at)[..POLL_LIMIT] == From(v.session.log, v.cursor.at)[..POLL_LIMIT]
  {
    hide Keep, Passed, Above;
    StepDelivers(v, after, step, belongs);
    PollDelivers(v, after, belongs);
    var at, log' := Floor(v.cursor.at), StreamNext(v, step, belongs).session.log;
    assert v.session.log <= log';
    assert log'[at..][..POLL_LIMIT] == v.session.log[at..][..POLL_LIMIT];
    if step.PollOnce? {
      PollSendsNothing(v, belongs);
    }
  }

  lemma PollSendsNothing(v: StreamWorld, belongs: Event -> bool)
    requires WellNumbered(v.session)
    requires forall e | e in Take(From(v.session.log, v.cursor.at), POLL_LIMIT) :: !belongs(e)
    ensures var c := PollEffect(v.cursor, v.session, belongs); c.at == v.cursor.at && c.delivered == v.cursor.delivered
  {
    AboveOfNumbered(v.session.log, v.cursor.at);
    KeepNothing(Take(From(v.session.log, v.cursor.at), POLL_LIMIT), belongs);
  }
}
