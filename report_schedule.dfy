/** When the scheduled report is due and which period it covers.

    Clock values: an instant is UTC seconds; a local wall-clock time is UTC seconds plus the
    settings' time-zone offset, and a local day number is a local time divided by 86400. The
    calendar facts PHP reads off "now" (ISO weekday, day of month, days in month) come with
    it, since the time-zone database is not part of this model. The offset is taken as fixed
    between "now" and the scheduled time. */
module ReportSchedule {
  import opened Wrappers
  import opened Strings
  import opened ReportSettingsDomain

  const SecondsPerDay := 86400

  /** "now" seen in the settings' time zone. */
  datatype LocalNow = LocalNow(utc: int, offset: int, weekday: int, dayOfMonth: int, daysInMonth: int)

  predicate ValidNow(now: LocalNow) {
    && 1 <= now.weekday <= 7
    && 28 <= now.daysInMonth <= 31
    && 1 <= now.dayOfMonth <= now.daysInMonth
  }

  function LocalSeconds(now: LocalNow): int { now.utc + now.offset }

  function LocalDay(now: LocalNow): int { LocalSeconds(now) / SecondsPerDay }

  function DayOfLocal(t: int): int { t / SecondsPerDay }

  // ---------------------------------------------------------------------------------------
  // Time of day

  datatype TimeOfDay = TimeOfDay(hour: int, minute: int, second: int)

  /** setTime's offset from midnight; out-of-range parts carry over as PHP does. */
  function SecondsOf(t: TimeOfDay): int { t.hour * 3600 + t.minute * 60 + t.second }

  /** time_of_day split on ':' with each part cast to int; a missing part is 0. */
  function ParseTimeOfDay(s: string): TimeOfDay
  {
    var parts := Split(s, ':');
    TimeOfDay(
      StringToInt(parts[0]),
      if |parts| > 1 then StringToInt(parts[1]) else 0,
      if |parts| > 2 then StringToInt(parts[2]) else 0)
  }

  /** 'HH:MM:SS' reads back as its three numbers. */
  lemma ParseTimeOfDayRoundTrip(h: nat, m: nat, sec: nat)
    requires h < 100 && m < 100 && sec < 100
    ensures ParseTimeOfDay(Pad2(h) + ":" + Pad2(m) + ":" + Pad2(sec)) == TimeOfDay(h, m, sec)
  {
    var a, b, c := Pad2(h), Pad2(m), Pad2(sec);
    assert ':' !in a && ':' !in b && ':' !in c;
    assert a + ":" + b + ":" + c == a + [':'] + (b + [':'] + c);
    SplitHead(a, ':', b + [':'] + c);
    SplitHead(b, ':', c);
    SplitNoSep(c, ':');
    ThreeParts(a + ":" + b + ":" + c, a, b, c);
    Pad2RoundTrip(h);
    Pad2RoundTrip(m);
    Pad2RoundTrip(sec);
  }

  /** A text that splits into three parts reads as their three numbers. */
  lemma ThreeParts(s: string, a: string, b: string, c: string)
    requires Split(s, ':') == [a, b, c]
    ensures ParseTimeOfDay(s) == TimeOfDay(StringToInt(a), StringToInt(b), StringToInt(c))
  {
  }

  /** 'HH:MM' has no seconds part: they read as 0. */
  lemma ParseTimeOfDayNoSeconds(h: nat, m: nat)
    requires h < 100 && m < 100
    ensures ParseTimeOfDay(Pad2(h) + ":" + Pad2(m)) == TimeOfDay(h, m, 0)
  {
    var a, b := Pad2(h), Pad2(m);
    assert ':' !in a && ':' !in b;
    assert a + ":" + b == a + [':'] + b;
    SplitHead(a, ':', b);
    SplitNoSep(b, ':');
    Pad2RoundTrip(h);
    Pad2RoundTrip(m);
  }

  /** Without any ':' the whole text is the hour; minute and second are 0. */
  lemma ParseTimeOfDayHourOnly(s: string)
    requires ':' !in s
    ensures ParseTimeOfDay(s) == TimeOfDay(StringToInt(s), 0, 0)
  {
    SplitNoSep(s, ':');
  }

  // ---------------------------------------------------------------------------------------
  // The scheduled time

  function Clamp(d: int, lo: int, hi: int): (r: int)
    requires lo <= hi
    ensures lo <= r <= hi
    ensures lo <= d <= hi ==> r == d
    ensures d < lo ==> r == lo
    ensures d > hi ==> r == hi
  {
    if d < lo then lo else if d > hi then hi else d
  }

  /** First day (Monday) of the ISO week and first day of the month that contain "now". */
  function WeekStart(now: LocalNow): int { LocalDay(now) - (now.weekday - 1) }
  function MonthStart(now: LocalNow): int { LocalDay(now) - (now.dayOfMonth - 1) }

  /** The local day the report is scheduled on this week or this month, when the settings
      name a day for their schedule type (anything but 'weekly' is read as monthly). */
  function ScheduledDay(s: ReportSettings, now: LocalNow): Option<int>
    requires ValidNow(now)
  {
    if s.scheduleType == "weekly" then
      match s.dayOfWeek
      case None => None
      case Some(dow) => Some(LocalDay(now) + (dow - now.weekday))
    else
      match s.dayOfMonth
      case None => None
      case Some(dom) => Some(MonthStart(now) + (Clamp(dom, 1, now.daysInMonth) - 1))
  }

  /** The scheduled local wall-clock time: that day at the parsed time of day. */
  function ScheduledAt(s: ReportSettings, now: LocalNow): Option<int>
    requires ValidNow(now)
  {
    match ScheduledDay(s, now)
    case None => None
    case Some(d) => Some(d * SecondsPerDay + SecondsOf(ParseTimeOfDay(s.timeOfDay)))
  }

  /** A weekly schedule falls on the day of the current ISO week whose number (Monday 1 to
      Sunday 7) is day_of_week; no day_of_week, no schedule. */
  lemma WeeklySchedule(s: ReportSettings, now: LocalNow)
    requires ValidNow(now) && s.scheduleType == "weekly"
    ensures s.dayOfWeek.None? <==> ScheduledAt(s, now).None?
    ensures s.dayOfWeek.Some? && 1 <= s.dayOfWeek.value <= 7 ==>
      var d := ScheduledDay(s, now).value;
      WeekStart(now) <= d < WeekStart(now) + 7 && d - WeekStart(now) + 1 == s.dayOfWeek.value
  {
  }

  /** A monthly schedule falls on day min(max(day_of_month, 1), days in month) of the
      current month, so always inside it; no day_of_month, no schedule. */
  lemma MonthlySchedule(s: ReportSettings, now: LocalNow)
    requires ValidNow(now) && s.scheduleType != "weekly"
    ensures s.dayOfMonth.None? <==> ScheduledAt(s, now).None?
    ensures s.dayOfMonth.Some? ==>
      var d := ScheduledDay(s, now).value;
      && MonthStart(now) <= d < MonthStart(now) + now.daysInMonth
      && d - MonthStart(now) + 1 == Clamp(s.dayOfMonth.value, 1, now.daysInMonth)
      && (1 <= s.dayOfMonth.value <= now.daysInMonth ==> d - MonthStart(now) + 1 == s.dayOfMonth.value)
  {
  }

  /** With a time of day inside one day, the scheduled time lies on the scheduled day. */
  lemma ScheduledOnItsDay(s: ReportSettings, now: LocalNow)
    requires ValidNow(now) && ScheduledDay(s, now).Some?
    ensures 0 <= SecondsOf(ParseTimeOfDay(s.timeOfDay)) < SecondsPerDay ==>
      DayOfLocal(ScheduledAt(s, now).value) == ScheduledDay(s, now).value
  {
    var d := ScheduledDay(s, now).value;
    var t := SecondsOf(ParseTimeOfDay(s.timeOfDay));
    if 0 <= t < SecondsPerDay {
      assert (d * SecondsPerDay + t) / SecondsPerDay == d;
    }
  }

  // ---------------------------------------------------------------------------------------
  // The period a report covers

  datatype Range = Range(start: int, end: int)

  /** The period ends at midnight of the scheduled day and starts 7 days earlier (weekly) or
      one month earlier (monthly). PHP's '-1 month' moves a date back by the length of the
      month before the end's month, `prevMonthDays`. */
  function ReportRange(s: ReportSettings, scheduledAt: int, prevMonthDays: int): Range
  {
    var end := DayOfLocal(scheduledAt) * SecondsPerDay;
    if s.scheduleType == "weekly" then Range(end - 7 * SecondsPerDay, end)
    else Range(end - prevMonthDays * SecondsPerDay, end)
  }

  /** The end is the midnight that starts the scheduled day; a weekly period is exactly 7 days
      and a monthly one 28 to 31 days, so the start is strictly before the end. */
  lemma ReportRangeProperties(s: ReportSettings, scheduledAt: int, prevMonthDays: int)
    requires 28 <= prevMonthDays <= 31
    ensures var r := ReportRange(s, scheduledAt, prevMonthDays);
      && r.end <= scheduledAt < r.end + SecondsPerDay
      && r.end % SecondsPerDay == 0
      && r.start < r.end
      && (s.scheduleType == "weekly" ==> r.end - r.start == 7 * SecondsPerDay)
      && (s.scheduleType != "weekly" ==> r.end - r.start == prevMonthDays * SecondsPerDay)
  {
    var end := DayOfLocal(scheduledAt) * SecondsPerDay;
    assert end % SecondsPerDay == 0;
  }

  // ---------------------------------------------------------------------------------------
  // Is a report due?

  datatype Decision =
    | NoActiveSettings
    | NoSchedule
    | WaitingForSchedule
    | AlreadyRan
    | Due(scheduledAt: int, range: Range)

  /** The checks runDueReports makes before sending anything, in order. */
  function Decide(settings: Option<ReportSettings>, now: LocalNow, prevMonthDays: int): Decision
    requires ValidNow(now)
  {
    if settings.None? || !settings.value.active then NoActiveSettings
    else
      var s := settings.value;
      match ScheduledAt(s, now)
      case None => NoSchedule
      case Some(at) =>
        if LocalSeconds(now) < at then WaitingForSchedule
        else if s.lastRunAt.Some? && s.lastRunAt.value + now.offset >= at then AlreadyRan
        else Due(at, ReportRange(s, at, prevMonthDays))
  }

  /** A report is due exactly when there are active settings with a schedule, "now" is at or
      after the scheduled time, and the last run (if any) was before it. */
  lemma DueExactly(settings: Option<ReportSettings>, now: LocalNow, prevMonthDays: int)
    requires ValidNow(now)
    ensures Decide(settings, now, prevMonthDays).Due? <==>
      && settings.Some? && settings.value.active
      && ScheduledAt(settings.value, now).Some?
      && ScheduledAt(settings.value, now).value <= LocalSeconds(now)
      && (settings.value.lastRunAt.None?
          || settings.value.lastRunAt.value + now.offset < ScheduledAt(settings.value, now).value)
    ensures Decide(settings, now, prevMonthDays).Due? ==>
      Decide(settings, now, prevMonthDays).scheduledAt == ScheduledAt(settings.value, now).value
  {
    if settings.Some? && settings.value.active {
      var s := settings.value;
      var sa := ScheduledAt(s, now);
      if sa.Some? {
        var at := sa.value;
        var late := s.lastRunAt.Some? && s.lastRunAt.value + now.offset >= at;
        assert Decide(settings, now, prevMonthDays) ==
          if LocalSeconds(now) < at then WaitingForSchedule
          else if late then AlreadyRan
          else Due(at, ReportRange(s, at, prevMonthDays));
      }
    }
  }

  /** Once a due run has recorded "now" as its last run, the same scheduled time never makes
      the report due again: a report runs at most once per period. */
  lemma AtMostOncePerPeriod(s: ReportSettings, now: LocalNow, later: LocalNow, p1: int, p2: int)
    requires ValidNow(now) && ValidNow(later) && later.offset == now.offset
    requires Decide(Some(s), now, p1).Due?
    requires ScheduledAt(s, later) == Some(Decide(Some(s), now, p1).scheduledAt)
    ensures !Decide(Some(s.(lastRunAt := Some(now.utc))), later, p2).Due?
  {
    var s2 := s.(lastRunAt := Some(now.utc));
    ScheduleIgnoresLastRun(s, later, Some(now.utc));
    assert Decide(Some(s2), later, p2) != Due(ScheduledAt(s, later).value, ReportRange(s2, ScheduledAt(s, later).value, p2));
  }

  /** The scheduled time does not depend on when the report last ran. */
  lemma ScheduleIgnoresLastRun(s: ReportSettings, now: LocalNow, last: Option<int>)
    requires ValidNow(now)
    ensures ScheduledAt(s.(lastRunAt := last), now) == ScheduledAt(s, now)
  {
    var s2 := s.(lastRunAt := last);
    assert s2.timeOfDay == s.timeOfDay;
    assert ScheduledDay(s2, now) == ScheduledDay(s, now);
  }

  /** The mail subject: 'Reporte Semanal' for weekly settings, 'Reporte Mensual' otherwise,
      followed by the period's two dates. */
  function BuildSubject(scheduleType: string, startLabel: string, endLabel: string): (r: string)
    ensures |r| == 24 + |startLabel| + 3 + |endLabel| + 1
    ensures scheduleType == "weekly" ==> r[..15] == "Reporte Semanal"
    ensures scheduleType != "weekly" ==> r[..15] == "Reporte Mensual"
    ensures r[24..24 + |startLabel|] == startLabel
    ensures r[24 + |startLabel| + 3..|r| - 1] == endLabel
  {
    var kind := if scheduleType == "weekly" then "Semanal" else "Mensual";
    "Reporte " + kind + " de QRs (" + startLabel + " - " + endLabel + ")"
  }
}
