/**
 When a cron expression, weekdays and all, has a next run at every moment: a
 condition on the days of one 400-year period.
 */
module CronCoverage {
  import opened Calendar
  import opened CronField
  import opened CronScan
  import opened Options

  // The expression's date and weekday fields name a day.
  ghost predicate NamesDay(rd: Reader, parts: seq<string>, n: nat)
    requires |parts| == 5
  {
    var weekday := (Weekday(n) + 1) % 7;
    && Names(rd, parts, 2, DateOf(n).day)
    && Names(rd, parts, 3, DateOf(n).month)
    && (Names(rd, parts, 4, weekday) || (weekday == 0 && Names(rd, parts, 4, 7)))
  }

  // Its time fields name a minute of the day.
  ghost predicate NamesTime(rd: Reader, parts: seq<string>, hour: nat, minute: nat)
    requires |parts| == 5
  {
    Names(rd, parts, 0, minute) && Names(rd, parts, 1, hour)
  }

  // One of the 365 days after a day is named; or the 366th is, and the day itself
  // too or midnight among the times.
  ghost predicate Covered(rd: Reader, parts: seq<string>, n: nat)
    requires |parts| == 5
  {
    || (exists m: nat | n < m <= n + 365 :: NamesDay(rd, parts, m))
    || (NamesDay(rd, parts, n + 366) && (NamesDay(rd, parts, n) || NamesTime(rd, parts, 0, 0)))
  }

  lemma FiresIff(rd: Reader, parts: seq<string>, t: nat)
    requires |parts| == 5
    ensures Fires(rd, parts, t) <==> NamesDay(rd, parts, Day(t)) && NamesTime(rd, parts, Hour(t), Minute(t))
  {
    hide Names, DateOf, Minute, Hour, Day;
  }

  lemma FiresAt(rd: Reader, parts: seq<string>, day: nat, hour: nat, minute: nat)
    requires |parts| == 5 && hour <= 23 && minute <= 59
    requires NamesDay(rd, parts, day) && NamesTime(rd, parts, hour, minute)
    ensures Fires(rd, parts, At(day, hour, minute))
  {
    hide NamesDay, NamesTime, Fires;
    FiresIff(rd, parts, At(day, hour, minute));
    AtFields(day, hour, minute);
  }

  lemma CoveredDayIsFound(rd: Reader, parts: seq<string>, now: nat, runs: seq<nat>)
    requires ValidExpression(rd, parts) && Covered(rd, parts, Day(now)) && FirstMatches(rd, parts, now, runs)
    ensures runs != []
  {
    hide NamesDay, Fires, FieldAccepted, FieldNames;
    var n := Day(now);
    var minute := AcceptedFieldNames(rd, parts[0], 0, 59);
    var hour := AcceptedFieldNames(rd, parts[1], 0, 23);
    if m: nat :| n < m <= n + 365 && NamesDay(rd, parts, m) {
      FiresAt(rd, parts, m, hour, minute);
      assert At(m, hour, minute) in runs || |runs| == COUNT;
    } else if NamesTime(rd, parts, 0, 0) {
      FiresAt(rd, parts, n + 366, 0, 0);
      assert At(n + 366, 0, 0) in runs || |runs| == COUNT;
    } else {
      FiresAt(rd, parts, n, hour, minute);
      FiresAt(rd, parts, n + 366, hour, minute);
      assert At(n + 366, hour, minute) == At(n, hour, minute) + WINDOW;
      assert At(n, hour, minute) in runs || At(n + 366, hour, minute) in runs || |runs| == COUNT;
    }
  }

  // The worst moment of a day that is not covered: its end, or its start if the
  // 366th day after it is named.
  function WorstMoment(n: nat, last: bool): nat {
    if last then At(n, 23, 59) else At(n, 0, 0)
  }

  // The days that lie ahead of the worst moment.
  lemma DaysAhead(n: nat, last: bool, t: nat)
    requires WorstMoment(n, last) < t <= WorstMoment(n, last) + WINDOW
    ensures n <= Day(t) <= n + 366
    ensures Day(t) == n ==> !last
    ensures Day(t) == n + 366 && !last ==> Hour(t) == 0 && Minute(t) == 0
  {
    AtFields(n, 23, 59);
    AtFields(n, 0, 0);
    AtFields(n + 366, 0, 0);
  }

  lemma NothingAhead(rd: Reader, parts: seq<string>, n: nat, t: nat)
    requires |parts| == 5 && !Covered(rd, parts, n)
    requires var now := WorstMoment(n, !NamesDay(rd, parts, n + 366)); now < t <= now + WINDOW
    ensures !Fires(rd, parts, t)
  {
    hide NamesDay, NamesTime, Fires, WorstMoment, Day, Hour, Minute;
    FiresIff(rd, parts, t);
    DaysAhead(n, !NamesDay(rd, parts, n + 366), t);
  }

  lemma UncoveredDayIsNot(rd: Reader, parts: seq<string>, n: nat)
    requires |parts| == 5 && !Covered(rd, parts, n)
    ensures FirstMatches(rd, parts, WorstMoment(n, !NamesDay(rd, parts, n + 366)), [])
  {
    hide NamesDay, Fires, Covered, WorstMoment;
    var now := WorstMoment(n, !NamesDay(rd, parts, n + 366));
    forall t | now < t <= now + WINDOW
      ensures !Fires(rd, parts, t)
    {
      NothingAhead(rd, parts, n, t);
    }
  }

  // Found at every moment, by the days.
  lemma FoundIffCovered(rd: Reader, parts: seq<string>)
    requires ValidExpression(rd, parts)
    ensures (forall now, runs | FirstMatches(rd, parts, now, runs) :: runs != [])
       <==> (forall n: nat :: Covered(rd, parts, n))
  {
    assert |parts| == 5;
    hide ValidExpression, FirstMatches, Covered;
    if forall n: nat :: Covered(rd, parts, n) {
      forall now, runs | FirstMatches(rd, parts, now, runs)
        ensures runs != []
      {
        CoveredDayIsFound(rd, parts, now, runs);
      }
    }
    if forall now, runs | FirstMatches(rd, parts, now, runs) :: runs != [] {
      forall n: nat
        ensures Covered(rd, parts, n)
      {
        if !Covered(rd, parts, n) {
          UncoveredDayIsNot(rd, parts, n);
        }
      }
    }
  }

  lemma NamesDayIsPeriodic(rd: Reader, parts: seq<string>, n: nat)
    requires |parts| == 5
    ensures NamesDay(rd, parts, n + PERIOD) == NamesDay(rd, parts, n)
  {
    hide DateOf, Weekday, Names;
    CalendarIsPeriodic(n);
  }

  lemma CoveredIsPeriodic(rd: Reader, parts: seq<string>, n: nat)
    requires |parts| == 5
    ensures Covered(rd, parts, n + PERIOD) == Covered(rd, parts, n)
  {
    hide NamesDay, NamesTime;
    NamesDayIsPeriodic(rd, parts, n);
    NamesDayIsPeriodic(rd, parts, n + 366);
    forall m: nat | n < m <= n + 365
      ensures NamesDay(rd, parts, m + PERIOD) == NamesDay(rd, parts, m)
    {
      NamesDayIsPeriodic(rd, parts, m);
    }
    if m: nat :| n + PERIOD < m <= n + PERIOD + 365 && NamesDay(rd, parts, m) {
      NamesDayIsPeriodic(rd, parts, m - PERIOD);
      assert NamesDay(rd, parts, m - PERIOD);
    }
    if m: nat :| n < m <= n + 365 && NamesDay(rd, parts, m) {
      assert NamesDay(rd, parts, m + PERIOD);
    }
  }

  lemma {:induction false} CoveredByOnePeriod(rd: Reader, parts: seq<string>, n: nat)
    requires |parts| == 5 && forall m: nat | m < PERIOD :: Covered(rd, parts, m)
    ensures Covered(rd, parts, n)
  {
    hide Covered;
    if n >= PERIOD {
      CoveredByOnePeriod(rd, parts, n - PERIOD);
      CoveredIsPeriodic(rd, parts, n - PERIOD);
    }
  }

  // A valid expression has a next run at every moment exactly when it covers each
  // day of 400 years.
  lemma FoundAtEveryMomentIff(rd: Reader, parts: seq<string>)
    requires ValidExpression(rd, parts)
    ensures (forall now, runs | FirstMatches(rd, parts, now, runs) :: runs != [])
       <==> (forall n: nat | n < PERIOD :: Covered(rd, parts, n))
  {
    assert |parts| == 5;
    hide ValidExpression, FirstMatches, Covered;
    FoundIffCovered(rd, parts);
    if forall n: nat | n < PERIOD :: Covered(rd, parts, n) {
      forall n: nat
        ensures Covered(rd, parts, n)
      {
        CoveredByOnePeriod(rd, parts, n);
      }
    }
  }
}
