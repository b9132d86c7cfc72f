/** The `qrcodes` table and the repository over it: paginated listing with an optional owner
    restriction and text search, lookup by id or token, insertion and update. Rows are kept in
    ascending id order with an auto-increment counter. The joined `users` columns (owner name
    and e-mail) come from a map from user id to those two columns. */
module QrCodes {
  import opened Wrappers
  import opened Strings

  datatype QrRow = QrRow(
    id: int,
    token: string,
    ownerUserId: int,
    targetUrl: string,
    name: Option<string>,
    foreground: Option<string>,
    background: Option<string>,
    createdAt: Option<int>)

  /** The QR record the repository hands out; a missing creation time becomes "now". */
  datatype QrCode = QrCode(
    id: Option<int>,
    token: string,
    ownerUserId: int,
    targetUrl: string,
    name: Option<string>,
    foreground: Option<string>,
    background: Option<string>,
    createdAt: int,
    ownerName: Option<string>,
    ownerEmail: Option<string>)

  /** The `users` columns the queries join in. */
  datatype Owner = Owner(name: Option<string>, email: Option<string>)

  predicate Ascending(rows: seq<QrRow>) {
    forall i, j :: 0 <= i < j < |rows| ==> rows[i].id < rows[j].id
  }

  predicate Descending(rows: seq<QrRow>) {
    forall i, j :: 0 <= i < j < |rows| ==> rows[i].id > rows[j].id
  }

  ghost predicate WellFormed(rows: seq<QrRow>, nextId: int) {
    Ascending(rows) && forall i :: 0 <= i < |rows| ==> rows[i].id < nextId
  }

  // ---------------------------------------------------------------------------------------
  // Listing: OFFSET, the WHERE clause and its parameters

  /** `max(0, ($page - 1) * $perPage)`. */
  function Offset(page: int, perPage: int): (o: nat)
    ensures (page - 1) * perPage >= 0 ==> o == (page - 1) * perPage
    ensures (page - 1) * perPage < 0 ==> o == 0
  {
    if (page - 1) * perPage > 0 then (page - 1) * perPage else 0
  }

  /** On the pages the listing action asks for (page and perPage at least 1), page p starts
      after the first p - 1 pages. */
  lemma OffsetOfPage(page: int, perPage: int)
    requires page >= 1 && perPage >= 1
    ensures Offset(page, perPage) == (page - 1) * perPage
    ensures Offset(page + 1, perPage) == Offset(page, perPage) + perPage
  {
  }

  datatype SqlParam = IntParam(i: int) | StrParam(s: string)

  const OwnerCondition := "q.owner_user_id = :owner"
  const SearchCondition := "(q.token LIKE :q_token OR q.name LIKE :q_name OR q.target_url LIKE :q_target OR u.name LIKE :q_uname OR u.email LIKE :q_uemail)"
  const SearchKeys := ["q_token", "q_name", "q_target", "q_uname", "q_uemail"]

  /** A search is made for a given, non-empty query. */
  predicate HasSearch(query: Option<string>) { query.Some? && query.value != "" }

  /** `'%' . $query . '%'`. */
  function LikePattern(q: string): string { "%" + q + "%" }

  /** list's assembly of the WHERE text and the named parameters, in the order they are
      added. */
  method BuildWhere(query: Option<string>, owner: Option<int>)
    returns (whereSql: string, params: seq<(string, SqlParam)>)
    ensures whereSql == "" <==> owner.None? && !HasSearch(query)
    ensures owner.Some? && !HasSearch(query) ==> whereSql == " WHERE " + OwnerCondition
    ensures owner.None? && HasSearch(query) ==> whereSql == " WHERE " + SearchCondition
    ensures owner.Some? && HasSearch(query) ==>
      whereSql == " WHERE " + OwnerCondition + " AND " + SearchCondition
    ensures |params| == (if owner.Some? then 1 else 0) + (if HasSearch(query) then 5 else 0)
    ensures owner.Some? ==> params[0] == ("owner", IntParam(owner.value))
    ensures HasSearch(query) ==> forall k :: 0 <= k < 5 ==>
      params[|params| - 5 + k] == (SearchKeys[k], StrParam(LikePattern(query.value)))
  {
    var conds: seq<string> := [];
    params := [];
    if owner.Some? {
      conds := conds + [OwnerCondition];
      params := params + [("owner", IntParam(owner.value))];
    }
    ghost var before := params;
    if query.Some? && query.value != "" {
      conds := conds + [SearchCondition];
      var like := LikePattern(query.value);
      params := params + [("q_token", StrParam(like))];
      params := params + [("q_name", StrParam(like))];
      params := params + [("q_target", StrParam(like))];
      params := params + [("q_uname", StrParam(like))];
      params := params + [("q_uemail", StrParam(like))];
      SearchParams(before, params, like);
    }
    if |conds| == 1 {
      JoinOne(conds[0]);
    } else if |conds| == 2 {
      assert conds == [OwnerCondition, SearchCondition];
      JoinTwo(OwnerCondition, SearchCondition);
    }
    whereSql := "";
    if |conds| > 0 {
      whereSql := " WHERE " + Join(conds, " AND ");
    }
  }

  lemma JoinOne(c: string)
    ensures Join([c], " AND ") == c
  {
  }

  lemma JoinTwo(a: string, b: string)
    ensures Join([a, b], " AND ") == a + " AND " + b
  {
    assert [a, b][1..] == [b];
  }

  /** The five LIKE parameters, in the order they are added. */
  lemma SearchParams(before: seq<(string, SqlParam)>, params: seq<(string, SqlParam)>, like: string)
    requires params == before + [("q_token", StrParam(like))] + [("q_name", StrParam(like))]
                              + [("q_target", StrParam(like))] + [("q_uname", StrParam(like))]
                              + [("q_uemail", StrParam(like))]
    ensures |params| == |before| + 5 && params[..|before|] == before
    ensures forall k :: 0 <= k < 5 ==> params[|params| - 5 + k] == (SearchKeys[k], StrParam(like))
  {
  }

  /** `column LIKE '%q%'`; a NULL column never matches. */
  predicate LikeOpt(col: Option<string>, q: string) { col.Some? && IsInfix(q, col.value) }

  /** The row condition the WHERE clause expresses, over the left-joined owner. */
  predicate Matches(row: QrRow, query: Option<string>, owner: Option<int>, owners: map<int, Owner>) {
    && (owner.Some? ==> row.ownerUserId == owner.value)
    && (HasSearch(query) ==>
          var q := query.value;
          || IsInfix(q, row.token) || LikeOpt(row.name, q) || IsInfix(q, row.targetUrl)
          || (row.ownerUserId in owners
              && (LikeOpt(owners[row.ownerUserId].name, q) || LikeOpt(owners[row.ownerUserId].email, q))))
  }

  function Cond(query: Option<string>, owner: Option<int>, owners: map<int, Owner>): QrRow -> bool
  {
    (r: QrRow) => Matches(r, query, owner, owners)
  }

  /** The rows satisfying a condition, newest (highest id) first: ORDER BY q.id DESC. */
  function NewestFirst(rows: seq<QrRow>, keep: QrRow -> bool): (r: seq<QrRow>)
    ensures |r| <= |rows|
  {
    if |rows| == 0 then []
    else
      var last := rows[|rows| - 1];
      (if keep(last) then [last] else []) + NewestFirst(rows[..|rows| - 1], keep)
  }

  /** A row is listed exactly when it is in the table and satisfies the condition. */
  lemma {:induction false} NewestFirstExactly(rows: seq<QrRow>, keep: QrRow -> bool)
    ensures forall x :: x in NewestFirst(rows, keep) <==> x in rows && keep(x)
  {
    if |rows| > 0 {
      var init := rows[..|rows| - 1];
      NewestFirstExactly(init, keep);
      assert rows == init + [rows[|rows| - 1]];
    }
  }

  /** The listed rows come in strictly descending id order. */
  lemma {:induction false} NewestFirstDescending(rows: seq<QrRow>, keep: QrRow -> bool)
    requires Ascending(rows)
    ensures Descending(NewestFirst(rows, keep))
  {
    if |rows| > 0 {
      var init := rows[..|rows| - 1];
      var last := rows[|rows| - 1];
      NewestFirstDescending(init, keep);
      NewestFirstExactly(init, keep);
      var tail := NewestFirst(init, keep);
      forall k | 0 <= k < |tail|
        ensures tail[k].id < last.id
      {
        assert tail[k] in init;
      }
      var r := NewestFirst(rows, keep);
      if keep(last) {
        assert r == [last] + tail;
        forall i, j | 0 <= i < j < |r|
          ensures r[i].id > r[j].id
        {
          if i == 0 {
            assert r[j] == tail[j - 1];
          } else {
            assert r[i] == tail[i - 1] && r[j] == tail[j - 1];
          }
        }
      } else {
        assert r == tail;
      }
    }
  }

  /** `LIMIT n OFFSET offset` of a result. */
  function Page<T>(s: seq<T>, offset: nat, n: nat): (r: seq<T>)
    ensures |r| <= n
    ensures offset >= |s| ==> r == []
    ensures forall k :: 0 <= k < |r| ==> offset + k < |s| && r[k] == s[offset + k]
    ensures offset + n <= |s| ==> |r| == n
  {
    var lo := if offset < |s| then offset else |s|;
    var hi := if offset + n < |s| then offset + n else |s|;
    s[lo..hi]
  }

  // ---------------------------------------------------------------------------------------
  // Row mapping

  function OwnerName(owners: map<int, Owner>, user: int): Option<string> {
    if user in owners then owners[user].name else None
  }

  function OwnerEmail(owners: map<int, Owner>, user: int): Option<string> {
    if user in owners then owners[user].email else None
  }

  /** A fetched row as a record: the row's columns, the joined owner columns (null when the
      owner has no users row), and "now" for an empty created_at. */
  function MapQr(row: QrRow, owners: map<int, Owner>, now: int): (q: QrCode)
    ensures q.id == Some(row.id) && q.token == row.token && q.ownerUserId == row.ownerUserId
    ensures q.targetUrl == row.targetUrl && q.name == row.name
    ensures q.foreground == row.foreground && q.background == row.background
    ensures q.createdAt == (if row.createdAt.Some? then row.createdAt.value else now)
    ensures row.ownerUserId !in owners ==> q.ownerName.None? && q.ownerEmail.None?
  {
    QrCode(Some(row.id), row.token, row.ownerUserId, row.targetUrl, row.name, row.foreground,
           row.background, row.createdAt.GetOr(now), OwnerName(owners, row.ownerUserId),
           OwnerEmail(owners, row.ownerUserId))
  }

  /** The rows of the as-written example keep their columns under the intended mapping: the
      stored creation time and the stored foreground. */
  lemma MapQrKeepsColumns()
    ensures var row := QrRow(1, "t", 2, "https://example.com", None, None, None, Some(100));
      && MapQr(row, map[], 5).createdAt == 100
      && MapQr(row.(foreground := Some("#ff0000")), map[], 5).foreground == Some("#ff0000")
      && MapQr(row.(foreground := Some("#ff0000")), map[], 5).createdAt == 100
  {
  }

  function MapQrs(rows: seq<QrRow>, owners: map<int, Owner>, now: int): (r: seq<QrCode>)
    ensures |r| == |rows|
    ensures forall k :: 0 <= k < |rows| ==> r[k] == MapQr(rows[k], owners, now)
  {
    if |rows| == 0 then [] else MapQrs(rows[..|rows| - 1], owners, now) + [MapQr(rows[|rows| - 1], owners, now)]
  }

  /** The record of the row with that id, over the rows themselves. */
  function QrOfId(rows: seq<QrRow>, id: int, owners: map<int, Owner>, now: int): Option<QrCode>
  {
    match RowOfId(rows, id)
    case None => None
    case Some(row) => Some(MapQr(row, owners, now))
  }

  function RowOfId(rows: seq<QrRow>, id: int): (r: Option<QrRow>)
    ensures r.None? <==> forall i :: 0 <= i < |rows| ==> rows[i].id != id
    ensures r.Some? ==> r.value in rows && r.value.id == id
  {
    if |rows| == 0 then None
    else if rows[0].id == id then Some(rows[0])
    else (assert forall i :: 0 < i < |rows| ==> rows[1..][i - 1] == rows[i]; RowOfId(rows[1..], id))
  }

  /** The first row with that token, by table order. */
  function RowOfToken(rows: seq<QrRow>, token: string): (r: Option<QrRow>)
    ensures r.None? <==> forall i :: 0 <= i < |rows| ==> rows[i].token != token
    ensures r.Some? ==> r.value in rows && r.value.token == token
  {
    if |rows| == 0 then None
    else if rows[0].token == token then Some(rows[0])
    else (assert forall i :: 0 < i < |rows| ==> rows[1..][i - 1] == rows[i]; RowOfToken(rows[1..], token))
  }

  /** update's statement: the rows with the record's id get its target URL, name and colours;
      a record without an id matches no row (`WHERE id = NULL`). */
  function UpdateRows(rows: seq<QrRow>, qr: QrCode): (r: seq<QrRow>)
    ensures |r| == |rows|
    ensures forall i :: 0 <= i < |rows| ==>
      if qr.id.Some? && rows[i].id == qr.id.value
      then r[i] == rows[i].(targetUrl := qr.targetUrl, name := qr.name,
                            foreground := qr.foreground, background := qr.background)
      else r[i] == rows[i]
  {
    if |rows| == 0 then []
    else
      var row := rows[0];
      var row' := if qr.id.Some? && row.id == qr.id.value
        then row.(targetUrl := qr.targetUrl, name := qr.name, foreground := qr.foreground,
                  background := qr.background)
        else row;
      [row'] + UpdateRows(rows[1..], qr)
  }

  /** The database's evaluation of the listing statements: the matching rows, newest first. */
  method SelectNewestFirst(rows: seq<QrRow>, keep: QrRow -> bool) returns (matched: seq<QrRow>)
    ensures matched == NewestFirst(rows, keep)
  {
    matched := [];
    var i := |rows|;
    assert rows[..i] == rows;
    while i > 0
      invariant 0 <= i <= |rows|
      invariant matched + NewestFirst(rows[..i], keep) == NewestFirst(rows, keep)
      decreases i
    {
      NewestFirstStep(rows, i, keep);
      if keep(rows[i - 1]) {
        matched := matched + [rows[i - 1]];
      }
      i := i - 1;
    }
  }

  /** The rows up to `i`, newest first, begin with row `i - 1` when it matches. */
  lemma NewestFirstStep(rows: seq<QrRow>, i: nat, keep: QrRow -> bool)
    requires 0 < i <= |rows|
    ensures NewestFirst(rows[..i], keep) ==
            (if keep(rows[i - 1]) then [rows[i - 1]] else []) + NewestFirst(rows[..i - 1], keep)
  {
    assert rows[..i][..i - 1] == rows[..i - 1];
  }

  /** The loop that turns each fetched row into a record. */
  method MapFetched(fetched: seq<QrRow>, owners: map<int, Owner>, now: int) returns (items: seq<QrCode>)
    ensures items == MapQrs(fetched, owners, now)
  {
    items := [];
    for k := 0 to |fetched|
      invariant items == MapQrs(fetched[..k], owners, now)
    {
      assert fetched[..k + 1][..k] == fetched[..k];
      items := items + [MapQr(fetched[k], owners, now)];
    }
    assert fetched[..|fetched|] == fetched;
  }

  class QrCodeTable {
    var rows: seq<QrRow>
    var nextId: int

    ghost predicate Valid()
      reads this
    {
      WellFormed(rows, nextId)
    }

    constructor ()
      ensures Valid() && rows == [] && nextId == 1
    {
      rows := [];
      nextId := 1;
    }

    /** list: the total number of matching rows, and one page of them, newest first. */
    method List(page: int, perPage: nat, query: Option<string>, owner: Option<int>,
                owners: map<int, Owner>, now: int)
      returns (items: seq<QrCode>, total: nat)
      ensures total == |NewestFirst(rows, Cond(query, owner, owners))|
      ensures items == MapQrs(Page(NewestFirst(rows, Cond(query, owner, owners)), Offset(page, perPage), perPage), owners, now)
    {
      var offset := Offset(page, perPage);
      var whereSql, params := BuildWhere(query, owner);
      var matched := SelectNewestFirst(rows, Cond(query, owner, owners));
      total := |matched|;
      items := MapFetched(Page(matched, offset, perPage), owners, now);
    }

    /** findOfId: the record with that id; None where the source throws
        QrCodeNotFoundException. */
    function FindOfId(id: int, owners: map<int, Owner>, now: int): (r: Option<QrCode>)
      reads this
      ensures r.None? <==> forall i :: 0 <= i < |rows| ==> rows[i].id != id
      ensures r.Some? ==> r.value.id == Some(id) && exists i :: 0 <= i < |rows| && r.value == MapQr(rows[i], owners, now)
    {
      QrOfId(rows, id, owners, now)
    }

    /** findByToken: the record with that token; None where the source throws
        QrCodeNotFoundException. */
    function FindByToken(token: string, owners: map<int, Owner>, now: int): (r: Option<QrCode>)
      reads this
      ensures r.None? <==> forall i :: 0 <= i < |rows| ==> rows[i].token != token
      ensures r.Some? ==> r.value.token == token && exists i :: 0 <= i < |rows| && r.value == MapQr(rows[i], owners, now)
    {
      match RowOfToken(rows, token)
      case None => None
      case Some(row) => Some(MapQr(row, owners, now))
    }

    /** create: one new row with the next id and the record's columns; the returned record
        has that id, "now" as its creation time and its owner's columns. */
    method Create(qr: QrCode, owners: map<int, Owner>, now: int) returns (created: QrCode)
      requires Valid()
      modifies this
      ensures Valid()
      ensures rows == old(rows) + [QrRow(old(nextId), qr.token, qr.ownerUserId, qr.targetUrl, qr.name, qr.foreground, qr.background, Some(now))]
      ensures nextId == old(nextId) + 1
      ensures created == qr.(id := Some(old(nextId)), createdAt := now,
                             ownerName := OwnerName(owners, qr.ownerUserId),
                             ownerEmail := OwnerEmail(owners, qr.ownerUserId))
    {
      var id := nextId;
      rows := rows + [QrRow(id, qr.token, qr.ownerUserId, qr.targetUrl, qr.name, qr.foreground, qr.background, Some(now))];
      nextId := nextId + 1;
      created := qr.(id := Some(id), createdAt := now, ownerName := OwnerName(owners, qr.ownerUserId),
                     ownerEmail := OwnerEmail(owners, qr.ownerUserId));
    }

    /** update: rewrite the four editable columns of the record's row, then read the row back
        (None where the re-read throws). */
    method Update(qr: QrCode, owners: map<int, Owner>, now: int) returns (r: Option<QrCode>)
      requires Valid()
      modifies this
      ensures Valid()
      ensures rows == UpdateRows(old(rows), qr) && nextId == old(nextId)
      ensures r == FindOfId(if qr.id.Some? then qr.id.value else 0, owners, now)
    {
      rows := UpdateRows(rows, qr);
      r := FindOfId(if qr.id.Some? then qr.id.value else 0, owners, now);
    }
  }

  /** One page of a listing: at most perPage records, all matching the condition, newest
      first; the total does not depend on the page. */
  lemma ListProperties(rows: seq<QrRow>, nextId: int, page: int, perPage: nat, query: Option<string>,
                       owner: Option<int>, owners: map<int, Owner>, now: int)
    requires WellFormed(rows, nextId)
    ensures var all := NewestFirst(rows, Cond(query, owner, owners));
      var items := MapQrs(Page(all, Offset(page, perPage), perPage), owners, now);
      && |items| <= perPage
      && (forall k :: 0 <= k < |items| ==>
            exists i :: 0 <= i < |rows| && Matches(rows[i], query, owner, owners) && items[k] == MapQr(rows[i], owners, now))
      && (forall k, l :: 0 <= k < l < |items| ==> items[k].id.value > items[l].id.value)
      && (owner.Some? ==> forall k :: 0 <= k < |items| ==> items[k].ownerUserId == owner.value)
  {
    var keep := Cond(query, owner, owners);
    var all := NewestFirst(rows, keep);
    NewestFirstExactly(rows, keep);
    NewestFirstDescending(rows, keep);
    var pg := Page(all, Offset(page, perPage), perPage);
    var items := MapQrs(pg, owners, now);
    forall k | 0 <= k < |items|
      ensures exists i :: 0 <= i < |rows| && Matches(rows[i], query, owner, owners) && items[k] == MapQr(rows[i], owners, now)
    {
      assert pg[k] in all;
      var i :| 0 <= i < |rows| && rows[i] == pg[k];
      assert keep(rows[i]);
    }
    forall k, l | 0 <= k < l < |items|
      ensures items[k].id.value > items[l].id.value
    {
      assert pg[k] == all[Offset(page, perPage) + k];
      assert pg[l] == all[Offset(page, perPage) + l];
      assert items[k] == MapQr(pg[k], owners, now) && items[l] == MapQr(pg[l], owners, now);
    }
  }

  /** After an update of an existing row, reading it back gives the record's four editable
      fields and the stored token and owner. */
  lemma UpdateReadsBack(rows: seq<QrRow>, qr: QrCode, id: int)
    requires qr.id == Some(id)
    requires RowOfId(rows, id).Some?
    ensures var old_ := RowOfId(rows, id).value;
      RowOfId(UpdateRows(rows, qr), id) ==
        Some(old_.(targetUrl := qr.targetUrl, name := qr.name, foreground := qr.foreground, background := qr.background))
  {
    UpdateRowsFirst(rows, qr, id);
  }

  lemma {:induction false} UpdateRowsFirst(rows: seq<QrRow>, qr: QrCode, id: int)
    requires qr.id == Some(id)
    requires RowOfId(rows, id).Some?
    ensures RowOfId(UpdateRows(rows, qr), id) ==
      Some(RowOfId(rows, id).value.(targetUrl := qr.targetUrl, name := qr.name,
                                     foreground := qr.foreground, background := qr.background))
  {
    if rows[0].id != id {
      UpdateRowsFirst(rows[1..], qr, id);
    }
  }
}
