/** The `report_settings` table: rows in ascending id order with an auto-increment counter.
    A row stores `active` as 1 or 0 and times as UTC seconds. */
module ReportSettingsRepository {
  import opened Wrappers
  import opened ReportSettingsDomain

  datatype SettingsRow = SettingsRow(
    id: int,
    scheduleType: string,
    dayOfMonth: Option<int>,
    dayOfWeek: Option<int>,
    timeOfDay: string,
    timezone: string,
    lookerUrl: Option<string>,
    active: int,
    lastRunAt: Option<int>,
    createdAt: Option<int>,
    updatedAt: Option<int>)

  ghost predicate WellFormed(rows: seq<SettingsRow>, nextId: int) {
    && (forall i :: 0 <= i < |rows| ==> rows[i].id < nextId && (rows[i].active == 0 || rows[i].active == 1))
    && (forall i, j :: 0 <= i < j < |rows| ==> rows[i].id < rows[j].id)
  }

  /** mapRow: the row as a record; active is true for a non-zero column. */
  function MapRow(row: SettingsRow): (r: ReportSettings)
    ensures r.id == Some(row.id)
    ensures r.active <==> row.active != 0
    ensures r.dayOfMonth == row.dayOfMonth && r.dayOfWeek == row.dayOfWeek
    ensures r.lastRunAt == row.lastRunAt && r.createdAt == row.createdAt && r.updatedAt == row.updatedAt
  {
    ReportSettings(Some(row.id), row.scheduleType, row.dayOfMonth, row.dayOfWeek, row.timeOfDay,
                   row.timezone, row.lookerUrl, row.active != 0, row.lastRunAt, row.createdAt,
                   row.updatedAt)
  }

  /** The columns save writes, taken from a record (1 or 0 for active). */
  function WriteColumns(row: SettingsRow, s: ReportSettings): SettingsRow
  {
    row.(scheduleType := s.scheduleType, dayOfMonth := s.dayOfMonth, dayOfWeek := s.dayOfWeek,
         timeOfDay := s.timeOfDay, timezone := s.timezone, lookerUrl := s.lookerUrl,
         active := if s.active then 1 else 0, lastRunAt := s.lastRunAt)
  }

  /** The row an INSERT of a record writes: the given id, the record's columns, and `now` for
      created_at and updated_at. */
  function InsertedRow(id: int, s: ReportSettings, now: int): SettingsRow
  {
    SettingsRow(id, s.scheduleType, s.dayOfMonth, s.dayOfWeek, s.timeOfDay, s.timezone,
                s.lookerUrl, if s.active then 1 else 0, s.lastRunAt, Some(now), Some(now))
  }

  /** The first (lowest id) active row. */
  function FirstActive(rows: seq<SettingsRow>): Option<SettingsRow>
  {
    if |rows| == 0 then None
    else if rows[0].active == 1 then Some(rows[0])
    else FirstActive(rows[1..])
  }

  /** The row with the given id. */
  function RowOfId(rows: seq<SettingsRow>, id: int): Option<SettingsRow>
  {
    if |rows| == 0 then None
    else if rows[0].id == id then Some(rows[0])
    else RowOfId(rows[1..], id)
  }

  /** save's UPDATE ... WHERE id = :id: the rows with that id get the record's columns. */
  function UpdateSave(rows: seq<SettingsRow>, s: ReportSettings, id: int): (r: seq<SettingsRow>)
    ensures |r| == |rows|
  {
    if |rows| == 0 then []
    else [if rows[0].id == id then WriteColumns(rows[0], s) else rows[0]] + UpdateSave(rows[1..], s, id)
  }

  function UpdateLastRun(rows: seq<SettingsRow>, id: int, t: int): (r: seq<SettingsRow>)
    ensures |r| == |rows|
  {
    if |rows| == 0 then []
    else [if rows[0].id == id then rows[0].(lastRunAt := Some(t)) else rows[0]] + UpdateLastRun(rows[1..], id, t)
  }

  /** getActive: none when no row is active; otherwise an active row with no active row of a
      smaller id before it. */
  lemma {:induction false} FirstActiveIsLowest(rows: seq<SettingsRow>, nextId: int)
    requires WellFormed(rows, nextId)
    ensures FirstActive(rows).None? <==> forall i :: 0 <= i < |rows| ==> rows[i].active != 1
    ensures FirstActive(rows).Some? ==>
      && FirstActive(rows).value in rows
      && FirstActive(rows).value.active == 1
      && forall i :: 0 <= i < |rows| && rows[i].active == 1 ==> FirstActive(rows).value.id <= rows[i].id
  {
    if |rows| > 0 {
      var tail := rows[1..];
      assert forall i :: 0 <= i < |tail| ==> tail[i] == rows[i + 1];
      FirstActiveIsLowest(tail, nextId);
    }
  }

  /** findById: none exactly when no row has that id; otherwise that row. */
  lemma {:induction false} RowOfIdFinds(rows: seq<SettingsRow>, id: int)
    ensures RowOfId(rows, id).None? <==> forall i :: 0 <= i < |rows| ==> rows[i].id != id
    ensures RowOfId(rows, id).Some? ==> RowOfId(rows, id).value in rows && RowOfId(rows, id).value.id == id
  {
    if |rows| > 0 {
      var tail := rows[1..];
      assert forall i :: 0 <= i < |tail| ==> tail[i] == rows[i + 1];
      RowOfIdFinds(tail, id);
    }
  }

  /** An update by id rewrites the written columns of the rows with that id and leaves every
      other row, and every row's id, created_at and updated_at, as they were. */
  lemma {:induction false} UpdateSaveChanges(rows: seq<SettingsRow>, s: ReportSettings, id: int)
    ensures forall i :: 0 <= i < |rows| ==>
      && (rows[i].id != id ==> UpdateSave(rows, s, id)[i] == rows[i])
      && (rows[i].id == id ==> UpdateSave(rows, s, id)[i] == WriteColumns(rows[i], s))
  {
    if |rows| > 0 {
      UpdateSaveChanges(rows[1..], s, id);
    }
  }

  lemma {:induction false} UpdateLastRunChanges(rows: seq<SettingsRow>, id: int, t: int)
    ensures forall i :: 0 <= i < |rows| ==>
      && (rows[i].id != id ==> UpdateLastRun(rows, id, t)[i] == rows[i])
      && (rows[i].id == id ==> UpdateLastRun(rows, id, t)[i] == rows[i].(lastRunAt := Some(t)))
  {
    if |rows| > 0 {
      UpdateLastRunChanges(rows[1..], id, t);
    }
  }

  class ReportSettingsTable {
    var rows: seq<SettingsRow>
    var nextId: int

    ghost predicate Valid()
      reads this
    {
      WellFormed(rows, nextId) && nextId >= 1
    }

    constructor ()
      ensures Valid() && rows == [] && nextId == 1
    {
      rows := [];
      nextId := 1;
    }

    /** getActive: the active row with the smallest id, as a record. */
    function GetActive(): (r: Option<ReportSettings>)
      reads this
      requires Valid()
      ensures r.None? <==> forall i :: 0 <= i < |rows| ==> rows[i].active == 0
      ensures r.Some? ==> r.value.active && exists i :: 0 <= i < |rows| && r.value == MapRow(rows[i])
      ensures r.Some? ==> forall i :: 0 <= i < |rows| && rows[i].active != 0 ==> r.value.id.value <= rows[i].id
    {
      FirstActiveIsLowest(rows, nextId);
      match FirstActive(rows)
      case None => None
      case Some(row) => Some(MapRow(row))
    }

    /** findById: the record of that id, none when there is no such row. */
    function FindById(id: int): (r: Option<ReportSettings>)
      reads this
      ensures r.None? <==> forall i :: 0 <= i < |rows| ==> rows[i].id != id
      ensures r.Some? ==> r.value.id == Some(id) && exists i :: 0 <= i < |rows| && r.value == MapRow(rows[i])
    {
      RowOfIdFinds(rows, id);
      match RowOfId(rows, id)
      case None => None
      case Some(row) => Some(MapRow(row))
    }

    /** save. Without an id: INSERT a row with the next id (created_at and updated_at are
        `now`) and return the record with that id and those times. With an id: UPDATE that
        row's columns and return the record as given. */
    method Save(s: ReportSettings, now: int) returns (saved: ReportSettings)
      requires Valid()
      modifies this
      ensures Valid()
      ensures s.id.None? ==>
        && saved == s.(id := Some(old(nextId)), createdAt := Some(now), updatedAt := Some(now))
        && rows == old(rows) + [InsertedRow(old(nextId), s, now)]
        && nextId == old(nextId) + 1
      ensures s.id.Some? ==> saved == s && rows == UpdateSave(old(rows), s, s.id.value) && nextId == old(nextId)
    {
      if s.id.None? {
        var row := InsertedRow(nextId, s, now);
        rows := rows + [row];
        nextId := nextId + 1;
        saved := s.(id := Some(nextId - 1), createdAt := Some(now), updatedAt := Some(now));
      } else {
        UpdateSaveChanges(rows, s, s.id.value);
        assert forall i :: 0 <= i < |rows| ==> UpdateSave(rows, s, s.id.value)[i].id == rows[i].id;
        rows := UpdateSave(rows, s, s.id.value);
        saved := s;
      }
    }

    /** updateLastRunAt: only last_run_at of the row with that id changes. */
    method UpdateLastRunAt(id: int, t: int)
      requires Valid()
      modifies this
      ensures Valid()
      ensures rows == UpdateLastRun(old(rows), id, t) && nextId == old(nextId)
    {
      UpdateLastRunChanges(rows, id, t);
      rows := UpdateLastRun(rows, id, t);
    }
  }

  /** A record saved without an id reads back, by its new id, as the returned record. */
  lemma InsertedReadsBack(rows: seq<SettingsRow>, nextId: int, s: ReportSettings, now: int)
    requires WellFormed(rows, nextId)
    ensures var row := InsertedRow(nextId, s, now);
      RowOfId(rows + [row], nextId) == Some(row)
      && MapRow(row) == s.(id := Some(nextId), createdAt := Some(now), updatedAt := Some(now))
  {
    var row := InsertedRow(nextId, s, now);
    RowOfIdAppend(rows, row, nextId);
  }

  lemma {:induction false} RowOfIdAppend(rows: seq<SettingsRow>, row: SettingsRow, id: int)
    requires forall i :: 0 <= i < |rows| ==> rows[i].id != id
    requires row.id == id
    ensures RowOfId(rows + [row], id) == Some(row)
  {
    if |rows| > 0 {
      assert (rows + [row])[1..] == rows[1..] + [row];
      RowOfIdAppend(rows[1..], row, id);
    } else {
      assert rows + [row] == [row];
    }
  }
}
