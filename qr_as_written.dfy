/** The QR-code record and two QR endpoints as the repository's code has them. The rest of the
    model uses the record the repository and the actions evidently mean: one that carries
    its colours and its owner's columns.

    The domain QrCode class has six fields: id, token, owner, target, name and creation time.
    The repository passes it ten constructor arguments and the edit action eleven; extra
    arguments are dropped. The repository and the edit action call accessors the class does not define: getForeground,
    getBackground, getUpdatedAt, getOwnerName and getOwnerEmail. */
module QrAsWritten {
  import opened Wrappers
  import opened Php
  import Strings
  import QrCodes
  import QrCreator
  import QrActions
  import QrSubscriptionActions

  /** The domain class: its six fields, with `createdAt ?? now`. */
  datatype QrEntity = QrEntity(id: Option<int>, token: string, ownerUserId: int, targetUrl: string,
                               name: Option<string>, createdAt: int)

  /** The repository's row mapping as written. The sixth constructor parameter,
      `?DateTimeImmutable $createdAt`, receives `$row['foreground'] ?? null`; the background,
      the row's created_at and the owner columns are dropped. A null foreground gives the
      creation time "now"; a text foreground cannot be a DateTimeImmutable, so the mapping
      throws a TypeError (None). */
  function EntityOfRow(row: QrCodes.QrRow, now: int): (r: Option<QrEntity>)
    ensures r.None? <==> row.foreground.Some?
    ensures r.Some? ==>
      && r.value.id == Some(row.id) && r.value.token == row.token && r.value.ownerUserId == row.ownerUserId
      && r.value.targetUrl == row.targetUrl && r.value.name == row.name
      && r.value.createdAt == now
  {
    if row.foreground.Some? then None
    else Some(QrEntity(Some(row.id), row.token, row.ownerUserId, row.targetUrl, row.name, now))
  }

  /** Two concrete rows show it. A row stored at time 100 without colours reads back created
      at "now", 5. The same row with a '#ff0000' foreground cannot be read at all. */
  lemma EntityOfRowDropsColumns()
    ensures var row := QrCodes.QrRow(1, "t", 2, "https://example.com", None, None, None, Some(100));
      && EntityOfRow(row, 5) == Some(QrEntity(Some(1), "t", 2, "https://example.com", None, 5))
      && EntityOfRow(row.(foreground := Some("#ff0000")), 5).None?
  {
  }

  /** What an endpoint answers as written: a refusal with its status, or an uncaught Error or
      TypeError, which the framework turns into a server error. */
  datatype Outcome = Refused(status: int, error: string) | Uncaught

  /** POST as written. After the 400 and 401 checks, createFromData builds the entity and calls
      the repository's create, whose first statement calls the undefined getForeground(). The
      Error comes before the INSERT, the folder creation and the image writes, and the action
      catches only InvalidArgumentException. So nothing is stored or written, and no request
      is answered with a created QR code. */
  function CreateActionAsWritten(data: Value, jwt: Value): (r: Outcome)
    ensures QrCreator.RequiredTarget(data).None? <==> r == Refused(400, "target_url is required")
    ensures (QrCreator.RequiredTarget(data).Some? && QrSubscriptionActions.GetAuthContext(jwt).userId.None?)
            <==> r == Refused(401, "unauthenticated")
    ensures (QrCreator.RequiredTarget(data).Some? && QrSubscriptionActions.GetAuthContext(jwt).userId.Some?)
            <==> r.Uncaught?
  {
    if Falsy(Coalesce(data, "target_url").GetOr(Null)) then Refused(400, "target_url is required")
    else if QrSubscriptionActions.GetAuthContext(jwt).userId.None? then Refused(401, "unauthenticated")
    else Uncaught
  }

  /** The documented request, a target URL from an authenticated user, fails as written, where
      the corrected endpoint answers 201 with the created record. */
  lemma CreateAsWrittenFails()
    ensures CreateActionAsWritten(Dict(map["target_url" := Str("https://example.com")]),
                                  Obj(map["sub" := Int(1)])).Uncaught?
  {
    var data := Dict(map["target_url" := Str("https://example.com")]);
    assert Coalesce(data, "target_url") == Some(Str("https://example.com"));
  }

  /** The edit endpoint as written: the 400 for no fields; the 404 where findOfId throws, which is a
      missing row or a row with a foreground (the TypeError above, caught as Throwable); the
      403 gate; and then the Error of the undefined accessors (getUpdatedAt, and
      getForeground for an absent colour) while the new record is built. That is before the
      try around update, so past the gate no row is updated, no image unlinked or redrawn. */
  function EditActionAsWritten(idArg: string, data: Value, jwt: Value, rows: seq<QrCodes.QrRow>,
                               now: int): (r: Outcome)
    ensures QrActions.NoFields(QrActions.FieldsOf(data)) <==> r == Refused(400, "No fields to update")
    ensures r == Refused(404, "QR not found") <==>
      && !QrActions.NoFields(QrActions.FieldsOf(data))
      && (QrCodes.RowOfId(rows, IntArg(idArg)).None? || QrCodes.RowOfId(rows, IntArg(idArg)).value.foreground.Some?)
    ensures r.Uncaught? <==>
      && !QrActions.NoFields(QrActions.FieldsOf(data))
      && QrCodes.RowOfId(rows, IntArg(idArg)).Some?
      && QrCodes.RowOfId(rows, IntArg(idArg)).value.foreground.None?
      && QrActions.MayEdit(jwt, QrCodes.RowOfId(rows, IntArg(idArg)).value.ownerUserId)
    ensures r.Refused? ==> r.status in {400, 403, 404}
  {
    if QrActions.NoFields(QrActions.FieldsOf(data)) then Refused(400, "No fields to update")
    else
      match QrCodes.RowOfId(rows, IntArg(idArg))
      case None => Refused(404, "QR not found")
      case Some(row) =>
        match EntityOfRow(row, now)
        case None => Refused(404, "QR not found")
        case Some(qr) =>
          if !QrActions.MayEdit(jwt, qr.ownerUserId) then Refused(403, "forbidden") else Uncaught
  }

  /** A concrete table shows both effects. The owner's edit of a QR code without colours
      fails, and a QR code with a stored foreground is "not found" although its row exists. */
  lemma EditAsWrittenFails()
    ensures var row := QrCodes.QrRow(1, "t", 2, "https://example.com", None, None, None, Some(100));
      var data := Dict(map["name" := Str("new")]);
      var jwt := Obj(map["sub" := Int(2)]);
      && EditActionAsWritten("1", data, jwt, [row], 5).Uncaught?
      && EditActionAsWritten("1", data, jwt, [row.(foreground := Some("#ff0000"))], 5) == Refused(404, "QR not found")
  {
    var row := QrCodes.QrRow(1, "t", 2, "https://example.com", None, None, None, Some(100));
    var coloured := row.(foreground := Some("#ff0000"));
    IntArgOne();
    RenameHasFields();
    OwnerMayEdit();
    assert QrCodes.RowOfId([row], 1) == Some(row);
    assert QrCodes.RowOfId([coloured], 1) == Some(coloured);
  }

  lemma RenameHasFields()
    ensures !QrActions.NoFields(QrActions.FieldsOf(Dict(map["name" := Str("new")])))
  {
    var data := Dict(map["name" := Str("new")]);
    assert IsSet(data, "name");
    assert QrActions.FieldsOf(data).name.Some?;
  }

  lemma OwnerMayEdit()
    ensures QrActions.MayEdit(Obj(map["sub" := Int(2)]), 2)
  {
    var jwt := Obj(map["sub" := Int(2)]);
    assert Entry(jwt, "sub") == Some(Int(2)) && IsSet(jwt, "sub");
  }

  lemma IntArgOne()
    ensures IntArg("1") == 1
  {
    Strings.IntToDecimalRoundTrip(1);
  }
}
