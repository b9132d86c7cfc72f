/** Validation and merge of a report-settings request: the request body (fields given) is laid
    over the stored record (fields kept), and the result must name a day that fits its
    schedule type. */
module ReportSettingsAction {
  import opened Wrappers
  import opened Php
  import opened ReportSettingsDomain
  import ReportSchedule

  /** The request body as an array: arrays as they are, an object's properties as an array,
      anything else as the empty array. */
  function NormalizeInput(input: Value): (r: Value)
    ensures IsArray(r)
    ensures IsArray(input) ==> r == input
    ensures input.Obj? ==> r == Dict(input.props)
    ensures !IsArray(input) && !input.Obj? ==> r == Dict(map[])
  {
    match input
    case List(_) => input
    case Dict(_) => input
    case Obj(props) => Dict(props)
    case _ => Dict(map[])
  }

  /** Normalising twice is normalising once. */
  lemma NormalizeInputIdempotent(input: Value)
    ensures NormalizeInput(NormalizeInput(input)) == NormalizeInput(input)
  {
  }

  /** The schedule invariant: monthly with a day of month in 1..31 and no weekday, or weekly
      with a weekday in 1..7 and no day of month. */
  predicate ValidSchedule(s: ReportSettings) {
    || (s.scheduleType == "monthly" && s.dayOfWeek.None?
        && s.dayOfMonth.Some? && 1 <= s.dayOfMonth.value <= 31)
    || (s.scheduleType == "weekly" && s.dayOfMonth.None?
        && s.dayOfWeek.Some? && 1 <= s.dayOfWeek.value <= 7)
  }

  /** `$data[$key] ?? <fallback>` when the fallback is a stored string. */
  function StrOr(data: Value, key: string, fallback: string): string
  {
    match Coalesce(data, key)
    case Some(v) => ToStr(v)
    case None => fallback
  }

  /** `$data[$key] ?? <stored day>`, cast to int when present. */
  function DayOr(data: Value, key: string, fallback: Option<int>): Option<int>
  {
    match Coalesce(data, key)
    case Some(v) => Some(ToInt(v))
    case None => fallback
  }

  /** The schedule type: the request's value, else the stored one, else 'monthly'. */
  function ScheduleTypeOf(data: Value, existing: Option<ReportSettings>): Value
  {
    match Coalesce(data, "schedule_type")
    case Some(v) => v
    case None => if existing.Some? then Str(existing.value.scheduleType) else Str("monthly")
  }

  function BuildSettings(data: Value, existing: Option<ReportSettings>): Result<ReportSettings>
  {
    var scheduleType := ScheduleTypeOf(data, existing);
    if scheduleType != Str("monthly") && scheduleType != Str("weekly") then
      Failure("schedule_type must be monthly or weekly")
    else
      var timeOfDay := StrOr(data, "time_of_day", if existing.Some? then existing.value.timeOfDay else "08:00:00");
      var timezone := StrOr(data, "timezone", if existing.Some? then existing.value.timezone else "UTC");
      var lookerUrl :=
        if HasKey(data, "looker_url") then
          (var v := Entry(data, "looker_url").value; if Falsy(v) then None else Some(ToStr(v)))
        else if existing.Some? then existing.value.lookerUrl
        else None;
      var active :=
        if HasKey(data, "active") then ToBool(Entry(data, "active").value)
        else existing.Some? && existing.value.active;
      var dayOfMonth := DayOr(data, "day_of_month", if existing.Some? then existing.value.dayOfMonth else None);
      var dayOfWeek := DayOr(data, "day_of_week", if existing.Some? then existing.value.dayOfWeek else None);
      if scheduleType == Str("monthly") && (dayOfMonth.None? || dayOfMonth.value < 1 || dayOfMonth.value > 31) then
        Failure("day_of_month is required for monthly schedule")
      else if scheduleType == Str("weekly") && (dayOfWeek.None? || dayOfWeek.value < 1 || dayOfWeek.value > 7) then
        Failure("day_of_week is required for weekly schedule")
      else
        Ok(ReportSettings(
          if existing.Some? then existing.value.id else None,
          scheduleType.s,
          if scheduleType == Str("monthly") then dayOfMonth else None,
          if scheduleType == Str("monthly") then None else dayOfWeek,
          timeOfDay,
          timezone,
          lookerUrl,
          active,
          if existing.Some? then existing.value.lastRunAt else None,
          if existing.Some? then existing.value.createdAt else None,
          if existing.Some? then existing.value.updatedAt else None))
  }

  /** Every record buildSettings produces keeps the schedule invariant, so the scheduler
      always finds a scheduled time for it. */
  lemma BuildSettingsValid(data: Value, existing: Option<ReportSettings>, now: ReportSchedule.LocalNow)
    requires ReportSchedule.ValidNow(now)
    ensures BuildSettings(data, existing).Ok? ==> ValidSchedule(BuildSettings(data, existing).value)
    ensures BuildSettings(data, existing).Ok? ==>
      ReportSchedule.ScheduledAt(BuildSettings(data, existing).value, now).Some?
  {
  }

  /** buildSettings fails exactly when the schedule type is neither 'monthly' nor 'weekly', or
      the day its schedule needs is missing or out of range. */
  lemma BuildSettingsFailsExactly(data: Value, existing: Option<ReportSettings>)
    ensures var t := ScheduleTypeOf(data, existing);
      var dom := DayOr(data, "day_of_month", if existing.Some? then existing.value.dayOfMonth else None);
      var dow := DayOr(data, "day_of_week", if existing.Some? then existing.value.dayOfWeek else None);
      BuildSettings(data, existing).Failure? <==>
        || (t != Str("monthly") && t != Str("weekly"))
        || (t == Str("monthly") && (dom.None? || !(1 <= dom.value <= 31)))
        || (t == Str("weekly") && (dow.None? || !(1 <= dow.value <= 7)))
  {
  }

  /** Fields the request leaves out (or sets to null) keep their stored values; with no stored
      record the defaults are '08:00:00', 'UTC', inactive and no dashboard URL. The identity,
      last run and timestamps always come from the stored record. */
  lemma BuildSettingsFallbacks(data: Value, existing: Option<ReportSettings>)
    requires BuildSettings(data, existing).Ok?
    ensures var r := BuildSettings(data, existing).value;
      && (!IsSet(data, "time_of_day") ==> r.timeOfDay == (if existing.Some? then existing.value.timeOfDay else "08:00:00"))
      && (!IsSet(data, "timezone") ==> r.timezone == (if existing.Some? then existing.value.timezone else "UTC"))
      && (!HasKey(data, "looker_url") ==> r.lookerUrl == (if existing.Some? then existing.value.lookerUrl else None))
      && (!HasKey(data, "active") ==> r.active == (existing.Some? && existing.value.active))
      && (!IsSet(data, "schedule_type") ==> r.scheduleType == (if existing.Some? then existing.value.scheduleType else "monthly"))
      && (existing.None? ==> r.id.None? && r.lastRunAt.None? && r.createdAt.None? && r.updatedAt.None?)
      && (existing.Some? ==>
            (r.id == existing.value.id && r.lastRunAt == existing.value.lastRunAt
             && r.createdAt == existing.value.createdAt && r.updatedAt == existing.value.updatedAt))
  {
  }

  /** Given fields win: a set value is cast and used; a looker_url that is present but empty
      clears the stored URL. */
  lemma BuildSettingsGivenFields(data: Value, existing: Option<ReportSettings>)
    requires BuildSettings(data, existing).Ok?
    ensures var r := BuildSettings(data, existing).value;
      && (IsSet(data, "time_of_day") ==> r.timeOfDay == ToStr(Entry(data, "time_of_day").value))
      && (IsSet(data, "timezone") ==> r.timezone == ToStr(Entry(data, "timezone").value))
      && (HasKey(data, "looker_url") && Falsy(Entry(data, "looker_url").value) ==> r.lookerUrl.None?)
      && (HasKey(data, "looker_url") && !Falsy(Entry(data, "looker_url").value) ==>
            r.lookerUrl == Some(ToStr(Entry(data, "looker_url").value)))
      && (HasKey(data, "active") ==> r.active == !Falsy(Entry(data, "active").value))
      && (r.scheduleType == "monthly" && IsSet(data, "day_of_month") ==>
            r.dayOfMonth == Some(ToInt(Entry(data, "day_of_month").value)))
      && (r.scheduleType == "weekly" && IsSet(data, "day_of_week") ==>
            r.dayOfWeek == Some(ToInt(Entry(data, "day_of_week").value)))
  {
  }

  /** Merging an empty request over a valid stored record gives that record back. */
  lemma BuildSettingsStable(s: ReportSettings)
    requires ValidSchedule(s)
    ensures BuildSettings(Dict(map[]), Some(s)) == Ok(s)
  {
  }
}
