/** The report-settings record: when and how the scheduled scan report is sent. Instants are
    UTC seconds. */
module ReportSettingsDomain {
  import opened Wrappers

  datatype ReportSettings = ReportSettings(
    id: Option<int>,
    scheduleType: string,
    dayOfMonth: Option<int>,
    dayOfWeek: Option<int>,
    timeOfDay: string,
    timezone: string,
    lookerUrl: Option<string>,
    active: bool,
    lastRunAt: Option<int>,
    createdAt: Option<int>,
    updatedAt: Option<int>)

  /** The constructor's defaults: active, never run, no timestamps. */
  function NewReportSettings(id: Option<int>, scheduleType: string, dayOfMonth: Option<int>,
                             dayOfWeek: Option<int>, timeOfDay: string, timezone: string,
                             lookerUrl: Option<string>): (r: ReportSettings)
    ensures r.active && r.lastRunAt.None? && r.createdAt.None? && r.updatedAt.None?
    ensures r.id == id && r.scheduleType == scheduleType && r.timeOfDay == timeOfDay
  {
    ReportSettings(id, scheduleType, dayOfMonth, dayOfWeek, timeOfDay, timezone, lookerUrl,
                   true, None, None, None)
  }
}
