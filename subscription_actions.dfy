/** The QR-subscription endpoints: who may read or replace the list of users that receive a QR
    code's periodic report, and how a replacement list is reconciled with the
    `qr_subscriptions` table. */
module QrSubscriptionActions {
  import opened Wrappers
  import opened Php
  import ReportSettingsAction
  import QrCodes
  import opened QrSubscriptions

  // ---------------------------------------------------------------------------------------
  // getAuthContext and the checks both endpoints run first

  /** getAuthContext's result. */
  datatype AuthContext = AuthContext(userId: Option<int>, isAdmin: bool)

  /** The request's 'jwt' attribute: the decoded token (an object), an array, or anything else
      (Null when the attribute is absent). A user id is read only from an object or an array
      with a non-null 'sub'; admin rights need 'rol' to be exactly the string 'admin'. */
  function GetAuthContext(jwt: Value): (a: AuthContext)
    ensures a.userId.Some? <==> (jwt.Obj? || jwt.Dict?) && IsSet(jwt, "sub")
    ensures a.userId.Some? ==> a.userId.value == ToInt(Entry(jwt, "sub").value)
    ensures a.isAdmin <==> a.userId.Some? && Entry(jwt, "rol") == Some(Str("admin"))
  {
    if (jwt.Obj? || jwt.Dict?) && IsSet(jwt, "sub") then
      AuthContext(Some(ToInt(Entry(jwt, "sub").value)), IsSet(jwt, "rol") && Entry(jwt, "rol").value == Str("admin"))
    else
      AuthContext(None, false)
  }

  /** A token whose role is spelled in any other way, or is not a string, grants no admin
      rights; a token without a subject authenticates nobody. */
  lemma AuthContextStrict(jwt: Value)
    requires Entry(jwt, "rol").Some? && Entry(jwt, "rol").value != Str("admin")
    ensures !GetAuthContext(jwt).isAdmin
    ensures !IsSet(jwt, "sub") ==> GetAuthContext(jwt) == AuthContext(None, false)
  {
  }

  /** What the endpoints answer: an error with its HTTP status, or (status 200) user ids. */
  datatype Reply = Refused(status: int, error: string) | UserIdsReply(userIds: seq<int>)

  /** The checks both endpoints run first, in this order: the QR code must exist (404), the
      caller must be authenticated (401), and a caller who is not an admin must own it (403). */
  function Gate(qr: Option<QrCodes.QrCode>, auth: AuthContext): (r: Option<Reply>)
    ensures r.Some? ==> r.value.Refused?
    ensures qr.None? <==> r == Some(Refused(404, "QR not found"))
    ensures qr.Some? && auth.userId.None? <==> r == Some(Refused(401, "unauthenticated"))
    ensures r.None? <==>
      qr.Some? && auth.userId.Some? && (auth.isAdmin || auth.userId.value == qr.value.ownerUserId)
    ensures r.Some? ==> (r.value.error == "QR not found" || r.value.error == "unauthenticated"
                         || r.value == Refused(403, "forbidden"))
  {
    if qr.None? then Some(Refused(404, "QR not found"))
    else if auth.userId.None? then Some(Refused(401, "unauthenticated"))
    else if !auth.isAdmin && auth.userId.value != qr.value.ownerUserId then Some(Refused(403, "forbidden"))
    else None
  }

  // ---------------------------------------------------------------------------------------
  // Listing a QR code's subscribers

  /** GET: after the checks, the user id of each of the QR code's subscriptions, in the order
      listByQrCode returns them. */
  method ListAction(idArg: string, qrs: QrCodes.QrCodeTable, subscriptions: SubscriptionTable, jwt: Value,
                    owners: map<int, QrCodes.Owner>, now: int)
    returns (reply: Reply)
    ensures var gate := Gate(qrs.FindOfId(IntArg(idArg), owners, now), GetAuthContext(jwt));
      && (gate.Some? ==> reply == gate.value)
      && (gate.None? ==> reply == UserIdsReply(UserIds(MapRows(Where(subscriptions.rows, OfQr(IntArg(idArg))), now))))
  {
    var qrId := IntArg(idArg);
    var qr := qrs.FindOfId(qrId, owners, now);
    var gate := Gate(qr, GetAuthContext(jwt));
    if gate.Some? {
      return gate.value;
    }
    var subs := subscriptions.ListByQrCode(qrId, now);
    reply := UserIdsReply(UserIds(subs));
  }

  /** The listed ids are exactly the QR code's subscribers, one per subscription row. */
  lemma ListedIdsAreSubscribers(rows: seq<SubscriptionRow>, qr: int, now: int)
    ensures var ids := UserIds(MapRows(Where(rows, OfQr(qr)), now));
      && |ids| == |Where(rows, OfQr(qr))|
      && forall u :: u in ids <==> u in UsersOf(rows, qr)
  {
    UserIdsOfQr(rows, qr, now);
  }

  // ---------------------------------------------------------------------------------------
  // Reading the requested ids

  /** `valuesOf` lists a string-keyed array's values once per key: as many entries as keys,
      and exactly the array's values; only their order is left open. */
  ghost predicate ListsValues(valuesOf: map<string, Value> -> seq<Value>) {
    forall m: map<string, Value> :: |valuesOf(m)| == |m| && forall v :: v in valuesOf(m) <==> v in m.Values
  }

  /** The request field, or the 400 error it draws. */
  datatype Request = BadRequest(error: string) | Items(items: seq<Value>)

  /** The body is normalised as for report settings; 'subscriber_user_ids' must be present, a
      null value means the empty list, and anything else that is not an array is refused. The
      values of a string-keyed array are walked in PHP's insertion order, which a map does
      not record: `valuesOf` supplies it. */
  function ReadRequest(input: Value, valuesOf: map<string, Value> -> seq<Value>): (r: Request)
    requires ListsValues(valuesOf)
    ensures var data := ReportSettingsAction.NormalizeInput(input);
      && (!HasKey(data, "subscriber_user_ids") <==> r == BadRequest("subscriber_user_ids is required"))
      && (HasKey(data, "subscriber_user_ids") ==>
            var raw := Entry(data, "subscriber_user_ids").value;
            && (raw.Null? ==> r == Items([]))
            && (raw.List? ==> r == Items(raw.items))
            && (raw.Dict? ==>
                  r.Items? && |r.items| == |raw.fields| && forall v :: v in r.items <==> v in raw.fields.Values)
            && (!raw.Null? && !IsArray(raw) <==> r == BadRequest("subscriber_user_ids must be an array")))
  {
    var data := ReportSettingsAction.NormalizeInput(input);
    if !HasKey(data, "subscriber_user_ids") then BadRequest("subscriber_user_ids is required")
    else
      var raw := Entry(data, "subscriber_user_ids").value;
      if raw.Null? then Items([])
      else if !IsArray(raw) then BadRequest("subscriber_user_ids must be an array")
      else if raw.List? then Items(raw.items)
      else Items(valuesOf(raw.fields))
  }

  /** The requested ids: each item cast to int, the non-positive ones dropped, repeats
      dropped, in order of first occurrence. */
  function NormalizeIds(items: seq<Value>): seq<int>
  {
    if |items| == 0 then []
    else
      var prefix := NormalizeIds(items[..|items| - 1]);
      var id := ToInt(items[|items| - 1]);
      if id > 0 && id !in prefix then prefix + [id] else prefix
  }

  /** Some item of the request casts to x. */
  predicate Named(items: seq<Value>, x: int) {
    exists k :: 0 <= k < |items| && ToInt(items[k]) == x
  }

  /** Where x first occurs among the casts of the items (|items| if nowhere). */
  function FirstCast(items: seq<Value>, x: int): (k: nat)
    ensures k <= |items|
    ensures k < |items| ==> ToInt(items[k]) == x
    ensures forall j :: 0 <= j < k ==> ToInt(items[j]) != x
    ensures k < |items| <==> Named(items, x)
  {
    if |items| == 0 then 0
    else if ToInt(items[0]) == x then 0
    else
      var k := 1 + FirstCast(items[1..], x);
      assert forall j :: 1 <= j < |items| ==> items[j] == items[1..][j - 1];
      k
  }

  /** The normalised ids are exactly the positive casts of the items. */
  lemma {:induction false} NormalizeIdsMembers(items: seq<Value>)
    ensures forall x :: x in NormalizeIds(items) <==> x > 0 && Named(items, x)
  {
    if |items| > 0 {
      var p := items[..|items| - 1];
      NormalizeIdsMembers(p);
      forall x | x > 0 && Named(items, x)
        ensures x in NormalizeIds(items)
      {
        var k :| 0 <= k < |items| && ToInt(items[k]) == x;
        if k < |p| {
          assert ToInt(p[k]) == x;
        }
      }
      forall x | x in NormalizeIds(items)
        ensures x > 0 && Named(items, x)
      {
        if x in NormalizeIds(p) {
          var k :| 0 <= k < |p| && ToInt(p[k]) == x;
          assert ToInt(items[k]) == x;
        } else {
          assert ToInt(items[|items| - 1]) == x;
        }
      }
    }
  }

  /** No id is listed twice. */
  predicate Distinct(ids: seq<int>) {
    forall i, j :: 0 <= i < j < |ids| ==> ids[i] != ids[j]
  }

  lemma {:induction false} NormalizeIdsDistinct(items: seq<Value>)
    ensures Distinct(NormalizeIds(items))
  {
    if |items| > 0 {
      var p := items[..|items| - 1];
      NormalizeIdsDistinct(p);
      var q := NormalizeIds(p);
      var id := ToInt(items[|items| - 1]);
      if id > 0 && id !in q {
        var r := q + [id];
        forall i, j | 0 <= i < j < |r|
          ensures r[i] != r[j]
        {
          if j == |q| {
            assert r[i] == q[i];
          }
        }
      }
    }
  }

  /** Casting an extra item at the end does not move an earlier first occurrence. */
  lemma FirstCastPrefix(p: seq<Value>, v: Value, x: int)
    requires Named(p, x)
    ensures FirstCast(p + [v], x) == FirstCast(p, x)
  {
    assert forall j :: 0 <= j < |p| ==> (p + [v])[j] == p[j];
  }

  /** The last item's cast, when it is named nowhere before, first occurs at the end. */
  lemma FirstCastLast(p: seq<Value>, v: Value)
    requires !Named(p, ToInt(v))
    ensures FirstCast(p + [v], ToInt(v)) == |p|
  {
    assert forall j :: 0 <= j < |p| ==> (p + [v])[j] == p[j];
    assert (p + [v])[|p|] == v;
  }

  /** The ids are listed in the order of their first occurrence in the items. */
  predicate InFirstOccurrenceOrder(items: seq<Value>, ids: seq<int>) {
    forall i, j :: 0 <= i < j < |ids| ==> FirstCast(items, ids[i]) < FirstCast(items, ids[j])
  }

  lemma {:induction false} NormalizeIdsFirstOccurrence(items: seq<Value>)
    ensures InFirstOccurrenceOrder(items, NormalizeIds(items))
  {
    if |items| > 0 {
      var p := items[..|items| - 1];
      var v := items[|items| - 1];
      assert items == p + [v];
      NormalizeIdsFirstOccurrence(p);
      NormalizeIdsMembers(p);
      var q := NormalizeIds(p);
      assert forall x :: x in q ==> Named(p, x);
      forall i | 0 <= i < |q|
        ensures FirstCast(items, q[i]) == FirstCast(p, q[i]) < |p|
      {
        FirstCastPrefix(p, v, q[i]);
      }
      OrderTransfer(p, items, q);
      var id := ToInt(v);
      if id > 0 && id !in q {
        FirstCastLast(p, v);
        OrderAppend(items, q, id, |p|);
      }
    }
  }

  /** An order by first occurrence carries over to items where every id occurs first at the
      same place. */
  lemma OrderTransfer(p: seq<Value>, items: seq<Value>, q: seq<int>)
    requires InFirstOccurrenceOrder(p, q)
    requires forall i :: 0 <= i < |q| ==> FirstCast(items, q[i]) == FirstCast(p, q[i])
    ensures InFirstOccurrenceOrder(items, q)
  {
  }

  /** An id occurring first after every listed one extends the order. */
  lemma OrderAppend(items: seq<Value>, q: seq<int>, id: int, bound: int)
    requires InFirstOccurrenceOrder(items, q)
    requires forall i :: 0 <= i < |q| ==> FirstCast(items, q[i]) < bound
    requires FirstCast(items, id) == bound
    ensures InFirstOccurrenceOrder(items, q + [id])
  {
    var r := q + [id];
    forall i, j | 0 <= i < j < |r|
      ensures FirstCast(items, r[i]) < FirstCast(items, r[j])
    {
      assert r[i] == q[i];
      if j < |q| {
        assert r[j] == q[j];
      }
    }
  }

  /** The foreach that fills `$unique` (a key per positive id, in insertion order) and the
      `array_keys` that reads it out. */
  method CollectIds(items: seq<Value>) returns (ids: seq<int>)
    ensures ids == NormalizeIds(items)
  {
    var unique: set<int> := {};
    ids := [];
    for i := 0 to |items|
      invariant ids == NormalizeIds(items[..i])
      invariant forall x :: x in unique <==> x in ids
    {
      assert items[..i + 1][..i] == items[..i];
      var id := ToInt(items[i]);
      if id > 0 {
        if id !in unique {
          ids := ids + [id];
        }
        unique := unique + {id};
      }
    }
    assert items[..|items|] == items;
  }

  // ---------------------------------------------------------------------------------------
  // The differences and their application

  /** `array_values(array_diff($a, $b))`: the entries of a that are not in b, in a's order. */
  function Diff(a: seq<int>, b: seq<int>): (r: seq<int>)
    ensures |r| <= |a|
  {
    if |a| == 0 then []
    else
      var prefix := Diff(a[..|a| - 1], b);
      if a[|a| - 1] in b then prefix else prefix + [a[|a| - 1]]
  }

  /** An id is in the difference exactly when it is in a and not in b. */
  lemma {:induction false} DiffMembers(a: seq<int>, b: seq<int>)
    ensures forall x :: x in Diff(a, b) <==> x in a && x !in b
  {
    if |a| > 0 {
      DiffMembers(a[..|a| - 1], b);
      assert a == a[..|a| - 1] + [a[|a| - 1]];
    }
  }

  /** Nothing is both added and removed. */
  lemma DiffDisjoint(a: seq<int>, b: seq<int>)
    ensures forall x :: !(x in Diff(a, b) && x in Diff(b, a))
  {
    DiffMembers(a, b);
    DiffMembers(b, a);
  }

  /** The users that a run of operations reaches without failing. */
  ghost function Done(users: seq<int>, fails: int -> bool): set<int> {
    set u | u in users && !fails(u)
  }

  /** The table after deleting, in order, the (qr, user) pair of each user whose delete does
      not fail. */
  function AfterRemovals(rows: seq<SubscriptionRow>, qr: int, users: seq<int>, fails: int -> bool): seq<SubscriptionRow>
  {
    if |users| == 0 then rows
    else
      var before := AfterRemovals(rows, qr, users[..|users| - 1], fails);
      if fails(users[|users| - 1]) then before else Where(before, NotPair(qr, users[|users| - 1]))
  }

  /** How many operations of the run succeed. */
  function Successes(users: seq<int>, fails: int -> bool): (n: nat)
    ensures n <= |users|
  {
    if |users| == 0 then 0
    else Successes(users[..|users| - 1], fails) + (if fails(users[|users| - 1]) then 0 else 1)
  }

  /** The table after creating, in order, a (qr, user) row for each user whose insert does not
      fail; each new row takes the next id. */
  function AfterAdds(rows: seq<SubscriptionRow>, nextId: int, qr: int, users: seq<int>, fails: int -> bool, now: int)
    : seq<SubscriptionRow>
  {
    if |users| == 0 then rows
    else
      var before := AfterAdds(rows, nextId, qr, users[..|users| - 1], fails, now);
      var u := users[|users| - 1];
      if fails(u) then before
      else before + [SubscriptionRow(nextId + Successes(users[..|users| - 1], fails), qr, u, Some(now))]
  }

  /** The removals unsubscribe exactly the users whose delete succeeds, and only from qr. */
  lemma {:induction false} AfterRemovalsUsers(rows: seq<SubscriptionRow>, qr: int, users: seq<int>, fails: int -> bool)
    ensures UsersOf(AfterRemovals(rows, qr, users, fails), qr) == UsersOf(rows, qr) - Done(users, fails)
    ensures forall q :: q != qr ==> UsersOf(AfterRemovals(rows, qr, users, fails), q) == UsersOf(rows, q)
  {
    if |users| > 0 {
      var p := users[..|users| - 1];
      var u := users[|users| - 1];
      AfterRemovalsUsers(rows, qr, p, fails);
      var before := AfterRemovals(rows, qr, p, fails);
      assert users == p + [u];
      if !fails(u) {
        DeleteUsers(before, qr, u);
        assert Done(users, fails) == Done(p, fails) + {u};
      } else {
        assert Done(users, fails) == Done(p, fails);
      }
    }
  }

  /** The additions subscribe exactly the users whose insert succeeds, and only to qr. */
  lemma {:induction false} AfterAddsUsers(rows: seq<SubscriptionRow>, nextId: int, qr: int, users: seq<int>,
                                          fails: int -> bool, now: int)
    ensures UsersOf(AfterAdds(rows, nextId, qr, users, fails, now), qr) == UsersOf(rows, qr) + Done(users, fails)
    ensures forall q :: q != qr ==> UsersOf(AfterAdds(rows, nextId, qr, users, fails, now), q) == UsersOf(rows, q)
  {
    if |users| > 0 {
      var p := users[..|users| - 1];
      var u := users[|users| - 1];
      AfterAddsUsers(rows, nextId, qr, p, fails, now);
      var before := AfterAdds(rows, nextId, qr, p, fails, now);
      assert users == p + [u];
      if !fails(u) {
        CreateUsers(before, SubscriptionRow(nextId + Successes(p, fails), qr, u, Some(now)));
        assert Done(users, fails) == Done(p, fails) + {u};
      } else {
        assert Done(users, fails) == Done(p, fails);
      }
    }
  }

  /** The first loop: delete each (qr, user) pair; a delete that throws is logged, leaves the
      table as it was, and the loop goes on. */
  method RemoveSubscribers(subscriptions: SubscriptionTable, qr: int, toRemove: seq<int>, fails: int -> bool)
    requires subscriptions.Valid()
    modifies subscriptions
    ensures subscriptions.Valid()
    ensures subscriptions.rows == AfterRemovals(old(subscriptions.rows), qr, toRemove, fails)
    ensures subscriptions.nextId == old(subscriptions.nextId)
  {
    ghost var rows0 := subscriptions.rows;
    for i := 0 to |toRemove|
      invariant subscriptions.Valid()
      invariant subscriptions.rows == AfterRemovals(rows0, qr, toRemove[..i], fails)
      invariant subscriptions.nextId == old(subscriptions.nextId)
    {
      assert toRemove[..i + 1][..i] == toRemove[..i];
      if !fails(toRemove[i]) {
        subscriptions.Delete(qr, toRemove[i]);
      }
    }
    assert toRemove[..|toRemove|] == toRemove;
  }

  /** The second loop: create a (qr, user) row for each user; an insert that throws is logged,
      leaves the table as it was, and the loop goes on. */
  method AddSubscribers(subscriptions: SubscriptionTable, qr: int, toAdd: seq<int>, fails: int -> bool, now: int)
    requires subscriptions.Valid()
    modifies subscriptions
    ensures subscriptions.Valid()
    ensures subscriptions.rows == AfterAdds(old(subscriptions.rows), old(subscriptions.nextId), qr, toAdd, fails, now)
    ensures subscriptions.nextId == old(subscriptions.nextId) + Successes(toAdd, fails)
  {
    ghost var rows0 := subscriptions.rows;
    ghost var next0 := subscriptions.nextId;
    for i := 0 to |toAdd|
      invariant subscriptions.Valid()
      invariant subscriptions.rows == AfterAdds(rows0, next0, qr, toAdd[..i], fails, now)
      invariant subscriptions.nextId == next0 + Successes(toAdd[..i], fails)
    {
      assert toAdd[..i + 1][..i] == toAdd[..i];
      if !fails(toAdd[i]) {
        var _ := subscriptions.Create(qr, toAdd[i], now);
      }
    }
    assert toAdd[..|toAdd|] == toAdd;
  }

  /** When every delete and insert succeeds, the QR code's subscribers afterwards are exactly
      the requested ids, and no other QR code's subscribers change. */
  lemma ReconcileExact(rows: seq<SubscriptionRow>, nextId: int, qr: int, requested: seq<int>,
                       removeFails: int -> bool, addFails: int -> bool, now: int)
    requires forall u :: !removeFails(u) && !addFails(u)
    ensures var current := UserIds(MapRows(Where(rows, OfQr(qr)), now));
      var after := AfterAdds(AfterRemovals(rows, qr, Diff(current, requested), removeFails), nextId, qr,
                             Diff(requested, current), addFails, now);
      && (forall u :: u in UsersOf(after, qr) <==> u in requested)
      && (forall q :: q != qr ==> UsersOf(after, q) == UsersOf(rows, q))
  {
    var current := UserIds(MapRows(Where(rows, OfQr(qr)), now));
    var toRemove := Diff(current, requested);
    var toAdd := Diff(requested, current);
    var mid := AfterRemovals(rows, qr, toRemove, removeFails);
    UserIdsOfQr(rows, qr, now);
    DiffMembers(current, requested);
    DiffMembers(requested, current);
    AfterRemovalsUsers(rows, qr, toRemove, removeFails);
    AfterAddsUsers(mid, nextId, qr, toAdd, addFails, now);
    assert forall u :: u in Done(toRemove, removeFails) <==> u in toRemove;
    assert forall u :: u in Done(toAdd, addFails) <==> u in toAdd;
  }

  /** PUT: after the checks and the request's validation, remove the subscribers that were
      not requested, then add the requested ones that were missing, and answer with the
      normalised ids. */
  method UpdateAction(idArg: string, qrs: QrCodes.QrCodeTable, subscriptions: SubscriptionTable, jwt: Value,
                      input: Value, valuesOf: map<string, Value> -> seq<Value>,
                      removeFails: int -> bool, addFails: int -> bool,
                      owners: map<int, QrCodes.Owner>, now: int)
    returns (reply: Reply)
    requires subscriptions.Valid()
    requires ListsValues(valuesOf)
    modifies subscriptions
    ensures subscriptions.Valid()
    ensures var qrId := IntArg(idArg);
      var gate := Gate(qrs.FindOfId(qrId, owners, now), GetAuthContext(jwt));
      var request := ReadRequest(input, valuesOf);
      && (gate.Some? ==> reply == gate.value && subscriptions.rows == old(subscriptions.rows))
      && (gate.None? && request.BadRequest? ==>
            reply == Refused(400, request.error) && subscriptions.rows == old(subscriptions.rows))
      && (gate.None? && request.Items? ==>
            var requested := NormalizeIds(request.items);
            var current := UserIds(MapRows(Where(old(subscriptions.rows), OfQr(qrId)), now));
            && reply == UserIdsReply(requested)
            && subscriptions.rows ==
                 AfterAdds(AfterRemovals(old(subscriptions.rows), qrId, Diff(current, requested), removeFails),
                           old(subscriptions.nextId), qrId, Diff(requested, current), addFails, now))
  {
    var qrId := IntArg(idArg);
    var qr := qrs.FindOfId(qrId, owners, now);
    var gate := Gate(qr, GetAuthContext(jwt));
    if gate.Some? {
      return gate.value;
    }
    var request := ReadRequest(input, valuesOf);
    if request.BadRequest? {
      return Refused(400, request.error);
    }
    var requested := CollectIds(request.items);
    var currentSubs := subscriptions.ListByQrCode(qrId, now);
    var current := UserIds(currentSubs);
    var toAdd := Diff(requested, current);
    var toRemove := Diff(current, requested);
    RemoveSubscribers(subscriptions, qrId, toRemove, removeFails);
    AddSubscribers(subscriptions, qrId, toAdd, addFails, now);
    reply := UserIdsReply(requested);
  }
}
