/**
 The minute scan for the next runs of a cron expression
 (app/routers/generic_resources.py, `_valid_cron_expression`, `_upcoming_cron_runs`),
 on wall-clock minutes counted from the start of year 1.
 */
module CronScan {
  import opened Calendar
  import opened CronField
  import opened Options
  import opened Strings

  const COUNT: nat := 5
  const WINDOW: nat := 366 * 24 * 60

  function Minute(t: nat): nat { t % 60 }

  function Hour(t: nat): nat { t / 60 % 24 }

  function Day(t: nat): nat { t / 1440 }

  // Sunday is 0 here.
  function CronWeekday(t: nat): nat {
    (Weekday(Day(t)) + 1) % 7
  }

  // -------------------------------------------------------------- the expression

  function LowBound(i: nat): int {
    if i == 2 || i == 3 then 1 else 0
  }

  function HighBound(i: nat): int {
    match i
    case 0 => 59
    case 1 => 23
    case 2 => 31
    case 3 => 12
    case _ => 7
  }

  // `parts` is the expression split at white space.
  ghost predicate ValidExpression(rd: Reader, parts: seq<string>) {
    |parts| == 5 && forall i | 0 <= i < 5 :: FieldAccepted(rd, parts[i], LowBound(i), HighBound(i))
  }

  ghost predicate Names(rd: Reader, parts: seq<string>, i: nat, v: int)
    requires |parts| == 5 && i < 5
  {
    FieldNames(rd, parts[i], LowBound(i), HighBound(i), v)
  }

  // The expression names a minute: every field does, day of the month and
  // weekday both, and Sunday is 0 or 7.
  ghost predicate Fires(rd: Reader, parts: seq<string>, t: nat)
    requires |parts| == 5
  {
    && Names(rd, parts, 0, Minute(t))
    && Names(rd, parts, 1, Hour(t))
    && Names(rd, parts, 2, DateOf(Day(t)).day)
    && Names(rd, parts, 3, DateOf(Day(t)).month)
    && (Names(rd, parts, 4, CronWeekday(t)) || (CronWeekday(t) == 0 && Names(rd, parts, 4, 7)))
  }

  // ------------------------------------------------------- what the scan returns

  predicate Increasing(s: seq<nat>) {
    forall i, j | 0 <= i < j < |s| :: s[i] < s[j]
  }

  // `runs` are the first matches after `now`: in order, none skipped, at most five.
  ghost predicate FirstMatches(rd: Reader, parts: seq<string>, now: nat, runs: seq<nat>)
    requires |parts| == 5
  {
    && Increasing(runs)
    && |runs| <= COUNT
    && (forall t | t in runs :: now < t <= now + WINDOW && Fires(rd, parts, t))
    && (forall t | now < t <= now + WINDOW && Fires(rd, parts, t) ::
          t in runs || (|runs| == COUNT && runs[COUNT - 1] < t))
  }

  // --------------------------------------------------------- what that determines

  ghost function MatchesInWindow(rd: Reader, parts: seq<string>, now: nat): set<nat>
    requires |parts| == 5
  {
    set t: nat | now < t <= now + WINDOW && Fires(rd, parts, t)
  }

  lemma {:induction false} IncreasingFits(s: seq<nat>, all: set<nat>)
    requires Increasing(s) && forall t | t in s :: t in all
    ensures |s| <= |all|
    ensures (forall t | t in all :: t in s) ==> |s| == |all|
  {
    if s == [] {
      assert (forall t | t in all :: t in s) ==> all == {};
    } else {
      var front, last := s[..|s| - 1], s[|s| - 1];
      assert s == front + [last];
      assert last in all && |all - {last}| == |all| - 1;
      assert last !in front;
      IncreasingFits(front, all - {last});
    }
  }

  // There are as many runs as matches in the window, but at most five.
  lemma RunCount(rd: Reader, parts: seq<string>, now: nat, runs: seq<nat>)
    requires |parts| == 5 && FirstMatches(rd, parts, now, runs)
    ensures var n := |MatchesInWindow(rd, parts, now)|;
      |runs| == if n < COUNT then n else COUNT
  {
    hide Fires;
    IncreasingFits(runs, MatchesInWindow(rd, parts, now));
  }

  // What the scan promises leaves it no choice.
  lemma RunsAreDetermined(rd: Reader, parts: seq<string>, now: nat, a: seq<nat>, b: seq<nat>)
    requires |parts| == 5 && FirstMatches(rd, parts, now, a) && FirstMatches(rd, parts, now, b)
    ensures a == b
  {
    hide Fires;
    RunCount(rd, parts, now, a);
    RunCount(rd, parts, now, b);
    SamePrefix(rd, parts, now, a, b, |a|);
    assert a[..|a|] == a && b[..|b|] == b;
  }

  lemma {:induction false} SamePrefix(rd: Reader, parts: seq<string>, now: nat, a: seq<nat>, b: seq<nat>, n: nat)
    requires |parts| == 5 && FirstMatches(rd, parts, now, a) && FirstMatches(rd, parts, now, b)
    requires n <= |a| == |b|
    ensures a[..n] == b[..n]
  {
    hide Fires;
    if n > 0 {
      SamePrefix(rd, parts, now, a, b, n - 1);
      EarlierOrEqual(rd, parts, now, a, b, n - 1);
      EarlierOrEqual(rd, parts, now, b, a, n - 1);
      assert a[..n] == a[..n - 1] + [a[n - 1]] && b[..n] == b[..n - 1] + [b[n - 1]];
    }
  }

  lemma EarlierOrEqual(rd: Reader, parts: seq<string>, now: nat, a: seq<nat>, b: seq<nat>, n: nat)
    requires |parts| == 5 && FirstMatches(rd, parts, now, a) && FirstMatches(rd, parts, now, b)
    requires n < |a| == |b| && a[..n] == b[..n]
    ensures a[n] <= b[n]
  {
    hide Fires;
    var t := b[n];
    assert t in b;
    if t in a {
      var k :| 0 <= k < |a| && a[k] == t;
      assert forall i | 0 <= i < n :: a[i] == a[..n][i] == b[..n][i] == b[i] < t;
      assert k >= n;
    }
  }

  // The first `room` minutes from `t` to `end` that the expression names.
  ghost function FirstFrom(rd: Reader, parts: seq<string>, t: nat, end: nat, room: nat): seq<nat>
    requires |parts| == 5
    decreases end + 1 - t
  {
    if t > end || room == 0 then []
    else if Fires(rd, parts, t) then [t] + FirstFrom(rd, parts, t + 1, end, room - 1)
    else FirstFrom(rd, parts, t + 1, end, room)
  }

  lemma {:induction false} FirstFromHolds(rd: Reader, parts: seq<string>, t: nat, end: nat, room: nat)
    requires |parts| == 5
    ensures var runs := FirstFrom(rd, parts, t, end, room);
      && Increasing(runs)
      && |runs| <= room
      && (forall u | u in runs :: t <= u <= end && Fires(rd, parts, u))
      && (forall u | t <= u <= end && Fires(rd, parts, u) :: u in runs || (|runs| == room && forall v | v in runs :: v < u))
    decreases end + 1 - t
  {
    hide Fires;
    if t <= end && room > 0 {
      if Fires(rd, parts, t) {
        FirstFromHolds(rd, parts, t + 1, end, room - 1);
        var rest := FirstFrom(rd, parts, t + 1, end, room - 1);
        assert forall k | 0 <= k < |rest| :: rest[k] in rest;
      } else {
        FirstFromHolds(rd, parts, t + 1, end, room);
      }
    }
  }

  ghost function NextRuns(rd: Reader, parts: seq<string>, now: nat): seq<nat>
    requires |parts| == 5
  {
    FirstFrom(rd, parts, now + 1, now + WINDOW, COUNT)
  }

  lemma NextRunsAreFirst(rd: Reader, parts: seq<string>, now: nat)
    requires |parts| == 5
    ensures FirstMatches(rd, parts, now, NextRuns(rd, parts, now))
  {
    hide Fires, FirstFrom;
    FirstFromHolds(rd, parts, now + 1, now + WINDOW, COUNT);
    var runs := NextRuns(rd, parts, now);
    assert |runs| == COUNT ==> runs[COUNT - 1] in runs;
  }

  // The list that is first after `now` is that one and no other.
  lemma FirstIsNextRuns(rd: Reader, parts: seq<string>, now: nat, runs: seq<nat>)
    requires |parts| == 5
    ensures FirstMatches(rd, parts, now, runs) <==> runs == NextRuns(rd, parts, now)
  {
    hide FirstMatches, NextRuns;
    NextRunsAreFirst(rd, parts, now);
    if FirstMatches(rd, parts, now, runs) {
      RunsAreDetermined(rd, parts, now, runs, NextRuns(rd, parts, now));
    }
  }

  // ------------------------------------------------------------------- the scan

  method ValidCronExpression(rd: Reader, parts: seq<string>) returns (ok: bool)
    ensures ok <==> ValidExpression(rd, parts)
  {
    hide FieldAccepted, FieldNames;
    if |parts| != 5 {
      return false;
    }
    for i := 0 to 5
      invariant forall k | 0 <= k < i :: FieldAccepted(rd, parts[k], LowBound(k), HighBound(k))
    {
      var values := CronFieldValues(rd, parts[i], LowBound(i), HighBound(i));
      if values.None? {
        return false;
      }
    }
    ok := true;
  }

  // None is the ValueError of a field that is not accepted.
  method UpcomingCronRuns(rd: Reader, parts: seq<string>, now: nat) returns (result: Option<seq<nat>>)
    ensures |parts| != 5 ==> result == Some([])
    ensures |parts| == 5 ==> (result.Some? <==> ValidExpression(rd, parts))
    ensures |parts| == 5 && result.Some? ==> FirstMatches(rd, parts, now, result.value)
    ensures |parts| == 5 && result.Some? ==> result.value == NextRuns(rd, parts, now)
  {
    hide FieldAccepted, FieldNames, DateOf, Minute, Hour, Day, CronWeekday, NextRuns;
    if |parts| != 5 {
      return Some([]);
    }
    var minutes := CronFieldValues(rd, parts[0], 0, 59);
    var hours := CronFieldValues(rd, parts[1], 0, 23);
    var days := CronFieldValues(rd, parts[2], 1, 31);
    var months := CronFieldValues(rd, parts[3], 1, 12);
    var weekdays := CronFieldValues(rd, parts[4], 0, 7);
    if minutes.None? || hours.None? || days.None? || months.None? || weekdays.None? {
      return None;
    }
    var current := now + 1;
    var matches: seq<nat> := [];
    for i := 0 to WINDOW
      invariant current == now + 1 + i
      invariant |matches| < COUNT && Increasing(matches)
      invariant forall t | t in matches :: now < t < current && Fires(rd, parts, t)
      invariant forall t | now < t < current && Fires(rd, parts, t) :: t in matches
    {
      var weekday := CronWeekday(current);
      var date := DateOf(Day(current));
      if Minute(current) in minutes.value && Hour(current) in hours.value
         && date.day in days.value && date.month in months.value
         && (weekday in weekdays.value || (weekday == 0 && 7 in weekdays.value))
      {
        assert Fires(rd, parts, current);
        assert forall k | 0 <= k < |matches| :: matches[k] in matches;
        matches := matches + [current];
        if |matches| >= COUNT {
          FirstIsNextRuns(rd, parts, now, matches);
          return Some(matches);
        }
      } else {
        assert !Fires(rd, parts, current);
      }
      current := current + 1;
    }
    FirstIsNextRuns(rd, parts, now, matches);
    result := Some(matches);
  }

  // --------------------------------------------------------------- how many runs

  lemma OneItem(rd: Reader, part: string)
    requires ',' !in part && part != "" && !rd.isSpace(part[0]) && !rd.isSpace(part[|part| - 1])
    ensures Split(part, ',') == [part] && Strip(part, rd.isSpace) == part
  {
    SplitOfPlain(part, ',');
    StripOfStripped(part, rd.isSpace);
  }

  lemma StarNames(rd: Reader, lo: int, hi: int, v: int)
    requires lo <= v <= hi && !rd.isSpace('*')
    ensures FieldNames(rd, "*", lo, hi, v)
  {
    OneItem(rd, "*");
    var span := Span(lo, hi, 1);
    assert Reads(rd, "*", lo, hi, span);
    assert ItemNames(rd, "*", lo, hi, v) by {
      assert SpanNames(span, v);
    }
    assert "*" in Split("*", ',');
  }

  lemma AcceptedFieldNames(rd: Reader, part: string, lo: int, hi: int) returns (v: int)
    requires FieldAccepted(rd, part, lo, hi)
    ensures lo <= v <= hi && FieldNames(rd, part, lo, hi, v)
  {
    hide Reads;
    var item := Split(part, ',')[0];
    assert item in Split(part, ',');
    var text := Strip(item, rd.isSpace);
    assert ItemAccepted(rd, text, lo, hi);
    var span: Span :| Reads(rd, text, lo, hi, span) && InRange(span, lo, hi);
    v := span.start;
    assert SpanNames(span, v);
    assert ItemNames(rd, text, lo, hi, v);
  }

  function At(day: nat, hour: nat, minute: nat): nat {
    1440 * day + 60 * hour + minute
  }

  lemma AtFields(day: nat, hour: nat, minute: nat)
    requires hour <= 23 && minute <= 59
    ensures Minute(At(day, hour, minute)) == minute
    ensures Hour(At(day, hour, minute)) == hour
    ensures Day(At(day, hour, minute)) == day
  {
  }

  // Every weekday is named, as by `*`, `0-6` or `1-7`.
  ghost predicate NamesEveryWeekday(rd: Reader, parts: seq<string>)
    requires |parts| == 5
  {
    forall d | 0 <= d <= 6 :: Names(rd, parts, 4, d) || (d == 0 && Names(rd, parts, 4, 7))
  }

  lemma StarNamesEveryWeekday(rd: Reader, parts: seq<string>)
    requires |parts| == 5 && parts[4] == "*" && !rd.isSpace('*')
    ensures NamesEveryWeekday(rd, parts)
  {
    forall d | 0 <= d <= 6
      ensures Names(rd, parts, 4, d)
    {
      StarNames(rd, 0, 7, d);
    }
  }

  lemma AnyWeekdayFires(rd: Reader, parts: seq<string>, day: nat, hour: nat, minute: nat)
    requires |parts| == 5 && NamesEveryWeekday(rd, parts) && hour <= 23 && minute <= 59
    requires Names(rd, parts, 0, minute) && Names(rd, parts, 1, hour)
    requires Names(rd, parts, 2, DateOf(day).day) && Names(rd, parts, 3, DateOf(day).month)
    ensures Fires(rd, parts, At(day, hour, minute))
  {
    hide FieldNames, Minute, Hour, Day, At;
    AtFields(day, hour, minute);
    assert 0 <= CronWeekday(At(day, hour, minute)) <= 6;
  }

  // With `*` for day, month and weekday the list is always full.
  lemma DailySchedulesFillUp(rd: Reader, parts: seq<string>, now: nat, runs: seq<nat>)
    requires !rd.isSpace('*') && ValidExpression(rd, parts)
    requires parts[2] == parts[3] == parts[4] == "*"
    requires FirstMatches(rd, parts, now, runs)
    ensures |runs| == COUNT
  {
    hide FieldAccepted, FieldNames, Fires;
    var minute := AcceptedFieldNames(rd, parts[0], 0, 59);
    var hour := AcceptedFieldNames(rd, parts[1], 0, 23);
    var today := Day(now);
    StarNamesEveryWeekday(rd, parts);
    var five := [At(today + 1, hour, minute), At(today + 2, hour, minute), At(today + 3, hour, minute),
                 At(today + 4, hour, minute), At(today + 5, hour, minute)];
    forall i | 0 <= i < 5
      ensures now < five[i] <= now + WINDOW && Fires(rd, parts, five[i])
    {
      DateIsValid(today + i + 1);
      StarNames(rd, 1, 31, DateOf(today + i + 1).day);
      StarNames(rd, 1, 12, DateOf(today + i + 1).month);
      AnyWeekdayFires(rd, parts, today + i + 1, hour, minute);
    }
    IncreasingFits(five, MatchesInWindow(rd, parts, now));
    RunCount(rd, parts, now, runs);
  }

  // A schedule on a date that every year has, on any weekday, always has a next run.
  lemma YearlySchedulesAreFound(rd: Reader, parts: seq<string>, now: nat, runs: seq<nat>, month: int, day: int)
    requires ValidExpression(rd, parts) && NamesEveryWeekday(rd, parts)
    requires 1 <= day <= CommonDays(month) && Names(rd, parts, 2, day)
    requires 1 <= month <= 12 && Names(rd, parts, 3, month)
    requires FirstMatches(rd, parts, now, runs)
    ensures runs != []
  {
    hide FieldAccepted, FieldNames, Fires;
    var minute := AcceptedFieldNames(rd, parts[0], 0, 59);
    var hour := AcceptedFieldNames(rd, parts[1], 0, 23);
    var today := Day(now);
    var k := EveryDateComesRound(today, month, day);
    AnyWeekdayFires(rd, parts, today + k, hour, minute);
    if k == 366 {
      AnyWeekdayFires(rd, parts, today, hour, minute);
      assert At(today, hour, minute) + WINDOW == At(today + k, hour, minute);
    }
    assert At(today + k, hour, minute) in runs || At(today, hour, minute) in runs || |runs| == COUNT;
  }

  // The expression names a date that every year has.
  ghost predicate NamesYearlyDate(rd: Reader, parts: seq<string>)
    requires |parts| == 5
  {
    exists month, day | 1 <= month <= 12 && 1 <= day <= CommonDays(month) ::
      Names(rd, parts, 3, month) && Names(rd, parts, 2, day)
  }

  // With any weekday, a next run is found at every moment exactly when the
  // expression names a date that every year has.
  lemma AlwaysFoundIff(rd: Reader, parts: seq<string>)
    requires ValidExpression(rd, parts) && NamesEveryWeekday(rd, parts)
    ensures (forall now, runs | FirstMatches(rd, parts, now, runs) :: runs != []) <==> NamesYearlyDate(rd, parts)
  {
    hide FieldAccepted, FieldNames, Fires;
    if NamesYearlyDate(rd, parts) {
      var month, day :| 1 <= month <= 12 && 1 <= day <= CommonDays(month)
                        && Names(rd, parts, 3, month) && Names(rd, parts, 2, day);
      forall now, runs | FirstMatches(rd, parts, now, runs)
        ensures runs != []
      {
        YearlySchedulesAreFound(rd, parts, now, runs, month, day);
      }
    } else {
      NoneFromMarchOfYearOne(rd, parts);
    }
  }

  lemma NoneFromMarchOfYearOne(rd: Reader, parts: seq<string>)
    requires |parts| == 5 && !NamesYearlyDate(rd, parts)
    ensures FirstMatches(rd, parts, At(59, 0, 0), [])
  {
    hide FieldNames, DateOf, Minute, Hour, CronWeekday, CommonDays, Leap;
    MarchOfYearOne();
    forall t | At(59, 0, 0) < t <= At(59, 0, 0) + WINDOW
      ensures !Fires(rd, parts, t)
    {
      if Fires(rd, parts, t) {
        DateIsValid(Day(t));
        OnlyLeapDayIsRare(DateOf(Day(t)));
        LeapDayIsAway(59, Day(t) - 59);
      }
    }
  }

  lemma OnlyLeapDayIsRare(d: Date)
    requires 1 <= d.month <= 12 && 1 <= d.day <= DaysIn(d.year, d.month)
    ensures d.day <= CommonDays(d.month) || (d.month == 2 && d.day == 29)
  {
  }

  // So a valid schedule for 29 February can have none: the scan gives up after 366 days.
  lemma LeapDayIsMissed(rd: Reader, parts: seq<string>, now: nat, runs: seq<nat>)
    requires ValidExpression(rd, parts) && FirstMatches(rd, parts, now, runs)
    requires parts[2] == "29" && rd.toInt("29") == Some(29) && !rd.isSpace('2') && !rd.isSpace('9')
    requires parts[3] == "2" && rd.toInt("2") == Some(2)
    requires var today := DateOf(Day(now)); today.month == 3 && today.day == 1 && !Leap(today.year + 1)
    ensures runs == []
  {
    hide FieldAccepted, FieldNames, DateOf, Minute, Hour, CronWeekday;
    if runs != [] {
      var t := runs[0];
      assert t in runs && Fires(rd, parts, t);
      NumberNames(rd, "29", 1, 31, 29, DateOf(Day(t)).day);
      NumberNames(rd, "2", 1, 12, 2, DateOf(Day(t)).month);
      LeapDayIsAway(Day(now), Day(t) - Day(now));
    }
  }

  lemma NumberNames(rd: Reader, part: string, lo: int, hi: int, n: int, v: int)
    requires part != "" && part != "*" && ',' !in part && '/' !in part && '-' !in part
    requires !rd.isSpace(part[0]) && !rd.isSpace(part[|part| - 1]) && rd.toInt(part) == Some(n)
    requires FieldNames(rd, part, lo, hi, v)
    ensures v == n
  {
    OneItem(rd, part);
    var item :| item in Split(part, ',') && ItemNames(rd, Strip(item, rd.isSpace), lo, hi, v);
    assert item == part;
    var span: Span :| Reads(rd, part, lo, hi, span) && InRange(span, lo, hi) && SpanNames(span, v);
    forall base, step
      ensures part != base + ['/'] + step
    {
      assert (base + ['/'] + step)[|base|] == '/';
    }
  }

  // ------------------------------------------------------------- plain numbers

  lemma NumberNamesIff(rd: Reader, part: string, lo: int, hi: int, n: int, v: int)
    requires part != "" && part != "*" && ',' !in part && '/' !in part && '-' !in part
    requires !rd.isSpace(part[0]) && !rd.isSpace(part[|part| - 1]) && rd.toInt(part) == Some(n)
    requires lo <= n <= hi
    ensures FieldNames(rd, part, lo, hi, v) <==> v == n
  {
    OneItem(rd, part);
    if FieldNames(rd, part, lo, hi, v) {
      NumberNames(rd, part, lo, hi, n, v);
    }
    var span := Span(n, n, 1);
    assert Reads(rd, part, lo, hi, span);
    assert SpanNames(span, n);
    assert ItemNames(rd, part, lo, hi, n);
    assert part in Split(part, ',');
  }

  // A text that reads as one number and as nothing else.
  predicate IsNumber(rd: Reader, part: string, n: int) {
    && part != "" && part != "*" && ',' !in part && '/' !in part && '-' !in part
    && !rd.isSpace(part[0]) && !rd.isSpace(part[|part| - 1]) && rd.toInt(part) == Some(n)
  }

  // An expression of five numbers names exactly that minute of that hour on that
  // day of that month, where it falls on that weekday, Sunday being 0 or 7.
  lemma NumbersFireIff(
    rd: Reader, parts: seq<string>, minute: int, hour: int, day: int, month: int, weekday: int, t: nat)
    requires |parts| == 5
    requires IsNumber(rd, parts[0], minute) && 0 <= minute <= 59
    requires IsNumber(rd, parts[1], hour) && 0 <= hour <= 23
    requires IsNumber(rd, parts[2], day) && 1 <= day <= 31
    requires IsNumber(rd, parts[3], month) && 1 <= month <= 12
    requires IsNumber(rd, parts[4], weekday) && 0 <= weekday <= 7
    ensures Fires(rd, parts, t) <==>
      && t % 60 == minute && t / 60 % 24 == hour
      && DateOf(t / 1440).day == day && DateOf(t / 1440).month == month
      && (t / 1440 + 1) % 7 == weekday % 7
  {
    hide FieldNames, DateOf;
    NumberNamesIff(rd, parts[0], 0, 59, minute, Minute(t));
    NumberNamesIff(rd, parts[1], 0, 23, hour, Hour(t));
    NumberNamesIff(rd, parts[2], 1, 31, day, DateOf(Day(t)).day);
    NumberNamesIff(rd, parts[3], 1, 12, month, DateOf(Day(t)).month);
    NumberNamesIff(rd, parts[4], 0, 7, weekday, CronWeekday(t));
    NumberNamesIff(rd, parts[4], 0, 7, weekday, 7);
    WeekdayOf(t / 1440);
  }

  // Such an expression is valid exactly when each number may occur in its place.
  lemma NumbersAreValidIff(
    rd: Reader, parts: seq<string>, minute: int, hour: int, day: int, month: int, weekday: int)
    requires |parts| == 5
    requires IsNumber(rd, parts[0], minute) && IsNumber(rd, parts[1], hour) && IsNumber(rd, parts[2], day)
    requires IsNumber(rd, parts[3], month) && IsNumber(rd, parts[4], weekday)
    ensures ValidExpression(rd, parts) <==>
      0 <= minute <= 59 && 0 <= hour <= 23 && 1 <= day <= 31 && 1 <= month <= 12 && 0 <= weekday <= 7
  {
    hide FieldAccepted, IsNumber;
    NumberIsAcceptedIff(rd, parts[0], 0, 59, minute);
    NumberIsAcceptedIff(rd, parts[1], 0, 23, hour);
    NumberIsAcceptedIff(rd, parts[2], 1, 31, day);
    NumberIsAcceptedIff(rd, parts[3], 1, 12, month);
    NumberIsAcceptedIff(rd, parts[4], 0, 7, weekday);
    if 0 <= minute <= 59 && 0 <= hour <= 23 && 1 <= day <= 31 && 1 <= month <= 12 && 0 <= weekday <= 7 {
      forall i | 0 <= i < 5
        ensures FieldAccepted(rd, parts[i], LowBound(i), HighBound(i))
      {
        assert i == 0 || i == 1 || i == 2 || i == 3 || i == 4;
      }
    }
  }

  lemma NumberIsAcceptedIff(rd: Reader, part: string, lo: int, hi: int, n: int)
    requires IsNumber(rd, part, n)
    ensures FieldAccepted(rd, part, lo, hi) <==> lo <= n <= hi
  {
    OneItem(rd, part);
    ItemIff(rd, part, lo, hi);
    assert ReadItem(rd, part, lo, hi) == Some(Span(n, n, 1));
  }

  lemma WeekdayOf(n: nat)
    ensures (Weekday(n) + 1) % 7 == (n + 1) % 7
  {
  }

  // The limits of the scan.
  lemma FirstMatchesIff(rd: Reader, parts: seq<string>, now: nat, runs: seq<nat>)
    requires |parts| == 5
    ensures FirstMatches(rd, parts, now, runs) <==>
      && (forall i, j | 0 <= i < j < |runs| :: runs[i] < runs[j])
      && |runs| <= 5
      && (forall t | t in runs :: now < t <= now + 527040 && Fires(rd, parts, t))
      && (forall t | now < t <= now + 527040 && Fires(rd, parts, t) :: t in runs || (|runs| == 5 && runs[4] < t))
  {
    hide Fires;
  }
}
