/** The `qr_subscriptions` table: which user receives the periodic report of which QR code.
    Rows are kept in ascending id order with an auto-increment counter; a created_at column
    is UTC seconds, or null. */
module QrSubscriptions {
  import opened Wrappers

  datatype SubscriptionRow = SubscriptionRow(id: int, qrCodeId: int, userId: int, createdAt: Option<int>)

  /** The QrSubscription record: its constructor turns a missing creation time into "now". */
  datatype QrSubscription = QrSubscription(id: Option<int>, qrCodeId: int, userId: int, createdAt: int)

  predicate Ascending(rows: seq<SubscriptionRow>) {
    forall i, j :: 0 <= i < j < |rows| ==> rows[i].id < rows[j].id
  }

  ghost predicate WellFormed(rows: seq<SubscriptionRow>, nextId: int) {
    && Ascending(rows)
    && (forall i :: 0 <= i < |rows| ==> rows[i].id < nextId)
  }

  // ---------------------------------------------------------------------------------------
  // Row selection (the WHERE clauses) and row mapping

  function OfQr(qr: int): SubscriptionRow -> bool { (r: SubscriptionRow) => r.qrCodeId == qr }

  function OfUser(user: int): SubscriptionRow -> bool { (r: SubscriptionRow) => r.userId == user }

  function AnyRow(): SubscriptionRow -> bool { (r: SubscriptionRow) => true }

  /** Rows that are not the (qr, user) pair: what a DELETE of that pair leaves. */
  function NotPair(qr: int, user: int): SubscriptionRow -> bool { (r: SubscriptionRow) => !(r.qrCodeId == qr && r.userId == user) }

  /** The rows a WHERE clause keeps, in table order. */
  function Where(rows: seq<SubscriptionRow>, keep: SubscriptionRow -> bool): (r: seq<SubscriptionRow>)
    ensures |r| <= |rows|
  {
    if |rows| == 0 then []
    else
      var prefix := Where(rows[..|rows| - 1], keep);
      if keep(rows[|rows| - 1]) then prefix + [rows[|rows| - 1]] else prefix
  }

  /** A row is selected exactly when it is in the table and satisfies the condition. */
  lemma {:induction false} WhereExactly(rows: seq<SubscriptionRow>, keep: SubscriptionRow -> bool)
    ensures forall x :: x in Where(rows, keep) <==> x in rows && keep(x)
  {
    if |rows| > 0 {
      var init := rows[..|rows| - 1];
      WhereExactly(init, keep);
      assert rows == init + [rows[|rows| - 1]];
    }
  }

  /** Selection keeps the ascending id order: the lists come back ORDER BY id. */
  lemma {:induction false} WhereAscending(rows: seq<SubscriptionRow>, keep: SubscriptionRow -> bool)
    requires Ascending(rows)
    ensures Ascending(Where(rows, keep))
  {
    if |rows| > 0 {
      var init := rows[..|rows| - 1];
      var last := rows[|rows| - 1];
      WhereAscending(init, keep);
      WhereExactly(init, keep);
      var p := Where(init, keep);
      forall i | 0 <= i < |p|
        ensures p[i].id < last.id
      {
        assert p[i] in init;
      }
    }
  }

  /** With a condition that holds everywhere, nothing is dropped. */
  lemma {:induction false} WhereAll(rows: seq<SubscriptionRow>)
    ensures Where(rows, AnyRow()) == rows
  {
    if |rows| > 0 {
      WhereAll(rows[..|rows| - 1]);
      assert rows == rows[..|rows| - 1] + [rows[|rows| - 1]];
    }
  }

  /** mapRows for one row: the columns as they are, an empty created_at as `now`. */
  function MapRow(row: SubscriptionRow, now: int): (s: QrSubscription)
    ensures s.id == Some(row.id) && s.qrCodeId == row.qrCodeId && s.userId == row.userId
    ensures row.createdAt.Some? ==> s.createdAt == row.createdAt.value
    ensures row.createdAt.None? ==> s.createdAt == now
  {
    QrSubscription(Some(row.id), row.qrCodeId, row.userId, row.createdAt.GetOr(now))
  }

  function MapRows(rows: seq<SubscriptionRow>, now: int): (r: seq<QrSubscription>)
    ensures |r| == |rows|
    ensures forall i :: 0 <= i < |rows| ==> r[i] == MapRow(rows[i], now)
  {
    if |rows| == 0 then [] else MapRows(rows[..|rows| - 1], now) + [MapRow(rows[|rows| - 1], now)]
  }

  /** The users subscribed to a QR code. */
  ghost function UsersOf(rows: seq<SubscriptionRow>, qr: int): set<int> {
    set r | r in rows && r.qrCodeId == qr :: r.userId
  }

  /** Deleting the (qr, user) pair unsubscribes exactly that user from exactly that QR. */
  lemma DeleteUsers(rows: seq<SubscriptionRow>, qr: int, user: int)
    ensures UsersOf(Where(rows, NotPair(qr, user)), qr) == UsersOf(rows, qr) - {user}
    ensures forall q :: q != qr ==> UsersOf(Where(rows, NotPair(qr, user)), q) == UsersOf(rows, q)
  {
    WhereExactly(rows, NotPair(qr, user));
    var after := Where(rows, NotPair(qr, user));
    forall u | u in UsersOf(rows, qr) - {user}
      ensures u in UsersOf(after, qr)
    {
      var r :| r in rows && r.qrCodeId == qr && r.userId == u;
      assert r in after;
    }
    forall q | q != qr
      ensures UsersOf(after, q) == UsersOf(rows, q)
    {
      forall u | u in UsersOf(rows, q)
        ensures u in UsersOf(after, q)
      {
        var r :| r in rows && r.qrCodeId == q && r.userId == u;
        assert r in after;
      }
    }
  }

  /** Adding a row subscribes its user to its QR and changes no other QR's subscribers. */
  lemma CreateUsers(rows: seq<SubscriptionRow>, row: SubscriptionRow)
    ensures UsersOf(rows + [row], row.qrCodeId) == UsersOf(rows, row.qrCodeId) + {row.userId}
    ensures forall q :: q != row.qrCodeId ==> UsersOf(rows + [row], q) == UsersOf(rows, q)
  {
    assert row in rows + [row];
    forall u | u in UsersOf(rows, row.qrCodeId)
      ensures u in UsersOf(rows + [row], row.qrCodeId)
    {
      var r :| r in rows && r.qrCodeId == row.qrCodeId && r.userId == u;
      assert r in rows + [row];
    }
    forall q | q != row.qrCodeId
      ensures UsersOf(rows + [row], q) == UsersOf(rows, q)
    {
      forall u | u in UsersOf(rows, q)
        ensures u in UsersOf(rows + [row], q)
      {
        var r :| r in rows && r.qrCodeId == q && r.userId == u;
        assert r in rows + [row];
      }
    }
  }

  /** The user ids of a QR's subscription rows are exactly its subscribers. */
  lemma {:induction false} UserIdsOfQr(rows: seq<SubscriptionRow>, qr: int, now: int)
    ensures forall u :: u in UserIds(MapRows(Where(rows, OfQr(qr)), now)) <==> u in UsersOf(rows, qr)
  {
    var sel := Where(rows, OfQr(qr));
    var subs := MapRows(sel, now);
    WhereExactly(rows, OfQr(qr));
    UserIdsMembers(subs);
    forall u | u in UsersOf(rows, qr)
      ensures exists i :: 0 <= i < |subs| && subs[i].userId == u
    {
      var r :| r in rows && r.qrCodeId == qr && r.userId == u;
      assert r in sel;
      var i :| 0 <= i < |sel| && sel[i] == r;
      assert subs[i].userId == u;
    }
    forall u | (exists i :: 0 <= i < |subs| && subs[i].userId == u)
      ensures u in UsersOf(rows, qr)
    {
      var i :| 0 <= i < |subs| && subs[i].userId == u;
      assert sel[i] in sel;
    }
  }

  /** The user id of each subscription, in order (the `array_map` projections). */
  function UserIds(subs: seq<QrSubscription>): (r: seq<int>)
    ensures |r| == |subs|
    ensures forall i :: 0 <= i < |subs| ==> r[i] == subs[i].userId
  {
    if |subs| == 0 then [] else UserIds(subs[..|subs| - 1]) + [subs[|subs| - 1].userId]
  }

  lemma UserIdsMembers(subs: seq<QrSubscription>)
    ensures forall u :: u in UserIds(subs) <==> exists i :: 0 <= i < |subs| && subs[i].userId == u
  {
    var r := UserIds(subs);
    forall u | u in r
      ensures exists i :: 0 <= i < |subs| && subs[i].userId == u
    {
      var i :| 0 <= i < |r| && r[i] == u;
      assert subs[i].userId == u;
    }
  }

  class SubscriptionTable {
    var rows: seq<SubscriptionRow>
    var nextId: int

    ghost predicate Valid()
      reads this
    {
      WellFormed(rows, nextId)
    }

    constructor ()
      ensures Valid() && rows == [] && nextId == 1
    {
      rows := [];
      nextId := 1;
    }

    /** create: one new row for (qr, user) with the next id, created at `now`. */
    method Create(qr: int, user: int, now: int) returns (sub: QrSubscription)
      requires Valid()
      modifies this
      ensures Valid()
      ensures rows == old(rows) + [SubscriptionRow(old(nextId), qr, user, Some(now))]
      ensures nextId == old(nextId) + 1
      ensures sub == QrSubscription(Some(old(nextId)), qr, user, now)
    {
      rows := rows + [SubscriptionRow(nextId, qr, user, Some(now))];
      sub := QrSubscription(Some(nextId), qr, user, now);
      nextId := nextId + 1;
    }

    /** delete: every row of that (qr, user) pair goes; the other rows stay, in order. */
    method Delete(qr: int, user: int)
      requires Valid()
      modifies this
      ensures Valid()
      ensures rows == Where(old(rows), NotPair(qr, user)) && nextId == old(nextId)
    {
      WhereExactly(rows, NotPair(qr, user));
      WhereAscending(rows, NotPair(qr, user));
      var kept := Where(rows, NotPair(qr, user));
      forall i | 0 <= i < |kept|
        ensures kept[i].id < nextId
      {
        assert kept[i] in rows;
      }
      rows := kept;
    }

    /** A SELECT ... WHERE ... ORDER BY id followed by mapRows' loop. */
    method Select(keep: SubscriptionRow -> bool, now: int) returns (items: seq<QrSubscription>)
      ensures items == MapRows(Where(rows, keep), now)
    {
      items := [];
      var i := 0;
      while i < |rows|
        invariant 0 <= i <= |rows|
        invariant items == MapRows(Where(rows[..i], keep), now)
      {
        assert rows[..i + 1][..i] == rows[..i];
        if keep(rows[i]) {
          items := items + [MapRow(rows[i], now)];
        }
        i := i + 1;
      }
      assert rows[..i] == rows;
    }

    /** listByQrCode: the subscriptions of that QR code, in ascending id order. */
    method ListByQrCode(qr: int, now: int) returns (items: seq<QrSubscription>)
      ensures items == MapRows(Where(rows, OfQr(qr)), now)
    {
      items := Select(OfQr(qr), now);
    }

    /** listByUser: the subscriptions of that user, in ascending id order. */
    method ListByUser(user: int, now: int) returns (items: seq<QrSubscription>)
      ensures items == MapRows(Where(rows, OfUser(user)), now)
    {
      items := Select(OfUser(user), now);
    }

    /** listAll: every row, in ascending id order. */
    method ListAll(now: int) returns (items: seq<QrSubscription>)
      ensures items == MapRows(rows, now)
      ensures |items| == |rows|
    {
      items := Select(AnyRow(), now);
      WhereAll(rows);
    }
  }

  /** What listByQrCode returns: exactly the rows of that QR code, in ascending id order. */
  lemma ListByQrCodeExactly(rows: seq<SubscriptionRow>, nextId: int, qr: int, now: int)
    requires WellFormed(rows, nextId)
    ensures var items := MapRows(Where(rows, OfQr(qr)), now);
      && (forall s :: s in items ==> s.qrCodeId == qr)
      && (forall r :: r in rows && r.qrCodeId == qr ==> MapRow(r, now) in items)
      && (forall i, j :: 0 <= i < j < |items| ==> items[i].id.value < items[j].id.value)
  {
    var sel := Where(rows, OfQr(qr));
    WhereExactly(rows, OfQr(qr));
    WhereAscending(rows, OfQr(qr));
    var items := MapRows(sel, now);
    forall s | s in items
      ensures s.qrCodeId == qr
    {
      var i :| 0 <= i < |items| && items[i] == s;
      assert sel[i] in sel;
    }
    forall r | r in rows && r.qrCodeId == qr
      ensures MapRow(r, now) in items
    {
      assert r in sel;
      var i :| 0 <= i < |sel| && sel[i] == r;
      assert items[i] == MapRow(r, now);
    }
  }

  /** What listByUser returns: exactly the rows of that user, in ascending id order. */
  lemma ListByUserExactly(rows: seq<SubscriptionRow>, nextId: int, user: int, now: int)
    requires WellFormed(rows, nextId)
    ensures var items := MapRows(Where(rows, OfUser(user)), now);
      && (forall s :: s in items ==> s.userId == user)
      && (forall r :: r in rows && r.userId == user ==> MapRow(r, now) in items)
      && (forall i, j :: 0 <= i < j < |items| ==> items[i].id.value < items[j].id.value)
  {
    var sel := Where(rows, OfUser(user));
    WhereExactly(rows, OfUser(user));
    WhereAscending(rows, OfUser(user));
    var items := MapRows(sel, now);
    forall s | s in items
      ensures s.userId == user
    {
      var i :| 0 <= i < |items| && items[i] == s;
      assert sel[i] in sel;
    }
    forall r | r in rows && r.userId == user
      ensures MapRow(r, now) in items
    {
      assert r in sel;
      var i :| 0 <= i < |sel| && sel[i] == r;
      assert items[i] == MapRow(r, now);
    }
  }
}
