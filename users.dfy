/** The User entity and the `users` table behind PdoUserRepository. Dates are kept as numbers
    (a day number for fecha_expedicion, UTC seconds for created_at); their text form comes from
    formatter parameters. */
module Users {
  import opened Wrappers
  import opened Strings

  datatype User = User(
    id: Option<int>,
    name: string,
    email: string,
    rol: string,
    codigo: Option<string>,
    fechaExpedicion: Option<int>,
    createdAt: int)

  const DefaultRol := "user"

  /** The constructor: the e-mail is stored lower-cased and a missing creation time becomes
      "now", so a user always has one. */
  function NewUser(id: Option<int>, name: string, email: string, rol: string, codigo: Option<string>,
                   fechaExpedicion: Option<int>, createdAt: Option<int>, now: int): (u: User)
    ensures u.email == ToLower(email)
    ensures u.id == id && u.name == name && u.rol == rol && u.codigo == codigo
    ensures u.fechaExpedicion == fechaExpedicion
    ensures createdAt.Some? ==> u.createdAt == createdAt.value
    ensures createdAt.None? ==> u.createdAt == now
  {
    User(id, name, ToLower(email), rol, codigo, fechaExpedicion, createdAt.GetOr(now))
  }

  /** `new User($id, $name, $email)`: the optional parameters take their defaults. */
  function NewUserDefaults(id: Option<int>, name: string, email: string, now: int): (u: User)
    ensures u.rol == DefaultRol && u.codigo.None? && u.fechaExpedicion.None? && u.createdAt == now
    ensures u.email == ToLower(email) && u.name == name
  {
    NewUser(id, name, email, DefaultRol, None, None, None, now)
  }

  /** getUsername is the stored (lower-cased) e-mail. */
  function Username(u: User): string { u.email }

  /** Setting the e-mail twice through the constructor changes nothing: it is already lower
      case. */
  lemma StoredEmailIsLower(id: Option<int>, name: string, email: string, now: int)
    ensures var u := NewUserDefaults(id, name, email, now);
      NewUserDefaults(id, name, Username(u), now) == u
  {
    ToLowerIdempotent(email);
  }

  // ---------------------------------------------------------------------------------------
  // preg_split('/\s+/', $name) and the first/last name accessors

  function IndexOfSpace(s: string): (k: nat)
    ensures k <= |s|
    ensures forall i :: 0 <= i < k ==> !IsRegexSpace(s[i])
    ensures k < |s| ==> IsRegexSpace(s[k])
  {
    if |s| == 0 then 0 else if IsRegexSpace(s[0]) then 0 else 1 + IndexOfSpace(s[1..])
  }

  function SpaceRun(s: string): (k: nat)
    ensures k <= |s|
    ensures forall i :: 0 <= i < k ==> IsRegexSpace(s[i])
    ensures k < |s| ==> !IsRegexSpace(s[k])
  {
    if |s| > 0 && IsRegexSpace(s[0]) then 1 + SpaceRun(s[1..]) else 0
  }

  /** The pieces between runs of white space; a leading (trailing) run gives an empty first
      (last) piece. */
  function SplitWs(s: string): (parts: seq<string>)
    ensures |parts| >= 1
    decreases |s|
  {
    var k := IndexOfSpace(s);
    if k == |s| then [s]
    else
      var rest := s[k..];
      var r := SpaceRun(rest);
      [s[..k]] + SplitWs(rest[r..])
  }

  predicate NoSpace(s: string) { forall i :: 0 <= i < |s| ==> !IsRegexSpace(s[i]) }

  /** No piece contains white space. */
  lemma {:induction false} SplitWsPiecesNoSpace(s: string)
    ensures forall p :: p in SplitWs(s) ==> NoSpace(p)
    decreases |s|
  {
    var k := IndexOfSpace(s);
    if k < |s| {
      var rest := s[k..];
      SplitWsPiecesNoSpace(rest[SpaceRun(rest)..]);
    }
  }

  /** getFirstName: the first piece. */
  function FirstName(u: User): string { SplitWs(u.name)[0] }

  /** getLastName: the remaining pieces joined by single spaces, '' when there are none. */
  function LastName(u: User): string {
    var parts := SplitWs(u.name);
    if |parts| > 1 then Join(parts[1..], " ") else ""
  }

  /** The first name has no white space, and it is empty exactly when the name is empty or
      starts with white space. */
  lemma FirstNameShape(u: User)
    ensures NoSpace(FirstName(u))
    ensures FirstName(u) == "" <==> u.name == "" || IsRegexSpace(u.name[0])
  {
    SplitWsPiecesNoSpace(u.name);
    assert SplitWs(u.name)[0] in SplitWs(u.name);
  }

  /** A name without white space is all first name. */
  lemma SingleWordName(u: User)
    requires NoSpace(u.name)
    ensures FirstName(u) == u.name && LastName(u) == ""
  {
  }

  /** A name of words separated by single spaces: no white space but ' ', none at either end
      and no two in a row. */
  predicate SingleSpaced(s: string) {
    forall i :: 0 <= i < |s| && IsRegexSpace(s[i]) ==>
      s[i] == ' ' && 0 < i < |s| - 1 && !IsRegexSpace(s[i + 1])
  }

  /** One step of the split of a single-spaced string that has a space: the word before the
      first space is non-empty, and the rest after that one space is again single-spaced and
      starts with a word. */
  lemma SplitWsStep(s: string)
    requires SingleSpaced(s) && IndexOfSpace(s) < |s|
    ensures var k := IndexOfSpace(s);
      && 0 < k < |s| - 1
      && SplitWs(s) == [s[..k]] + SplitWs(s[k + 1..])
      && s == s[..k] + " " + s[k + 1..]
      && SingleSpaced(s[k + 1..])
      && !IsRegexSpace(s[k + 1])
  {
    var k := IndexOfSpace(s);
    SingleSpacedAt(s, k);
    SplitWsAtSingleSpace(s, k);
    SplitAround(s, k);
    SingleSpacedSuffix(s, k + 1);
  }

  /** A white space in a single-spaced string is a ' ' strictly inside it, followed by a
      non-space. */
  lemma SingleSpacedAt(s: string, k: nat)
    requires SingleSpaced(s) && k < |s| && IsRegexSpace(s[k])
    ensures s[k] == ' ' && 0 < k < |s| - 1 && !IsRegexSpace(s[k + 1])
  {
  }

  lemma SplitAround(s: string, k: nat)
    requires k < |s| && s[k] == ' '
    ensures s == s[..k] + " " + s[k + 1..]
  {
    assert s == s[..k] + s[k..];
    assert s[k..] == [s[k]] + s[k + 1..];
  }

  /** Where the first white space is a single one, the split goes on right after it. */
  lemma SplitWsAtSingleSpace(s: string, k: nat)
    requires k == IndexOfSpace(s) && k < |s| - 1 && !IsRegexSpace(s[k + 1])
    ensures SplitWs(s) == [s[..k]] + SplitWs(s[k + 1..])
  {
    var rest := s[k..];
    assert rest[0] == s[k] && rest[1] == s[k + 1];
    SingleSpaceRun(rest);
    assert rest[1..] == s[k + 1..];
  }

  /** A run that starts with one space followed by a non-space is one long. */
  lemma SingleSpaceRun(rest: string)
    requires |rest| >= 2 && IsRegexSpace(rest[0]) && !IsRegexSpace(rest[1])
    ensures SpaceRun(rest) == 1
  {
    assert rest[1..][0] == rest[1];
  }

  /** A suffix of a single-spaced string that starts with a non-space is single-spaced. */
  lemma SingleSpacedSuffix(s: string, j: nat)
    requires SingleSpaced(s) && j < |s| && !IsRegexSpace(s[j])
    ensures SingleSpaced(s[j..])
  {
    var tail := s[j..];
    forall i | 0 <= i < |tail| && IsRegexSpace(tail[i])
      ensures tail[i] == ' ' && 0 < i < |tail| - 1 && !IsRegexSpace(tail[i + 1])
    {
      assert tail[i] == s[j + i];
      assert tail[0] == s[j];
      assert j + i + 1 < |s|;
      assert tail[i + 1] == s[j + i + 1];
    }
  }

  /** For a single-spaced name, splitting into words and joining them again by spaces gives
      the name back. */
  lemma {:induction false} SplitWsJoin(s: string)
    requires SingleSpaced(s)
    ensures Join(SplitWs(s), " ") == s
    decreases |s|
  {
    var k := IndexOfSpace(s);
    if k < |s| {
      SplitWsStep(s);
      var tail := s[k + 1..];
      SplitWsJoin(tail);
      JoinCons(s[..k], SplitWs(tail), " ");
    }
  }

  /** Every piece of a single-spaced name after the first is non-empty. */
  lemma {:induction false} SplitWsTailNonEmpty(s: string)
    requires SingleSpaced(s)
    ensures forall j :: 1 <= j < |SplitWs(s)| ==> SplitWs(s)[j] != ""
    decreases |s|
  {
    var k := IndexOfSpace(s);
    if k < |s| {
      SplitWsStep(s);
      var tail := s[k + 1..];
      SplitWsTailNonEmpty(tail);
      var tp := SplitWs(tail);
      assert IndexOfSpace(tail) > 0;
      assert tp[0] == tail[..IndexOfSpace(tail)] || tp == [tail];
      assert tp[0] != "";
      forall j | 1 <= j < |SplitWs(s)|
        ensures SplitWs(s)[j] != ""
      {
        assert SplitWs(s)[j] == tp[j - 1];
      }
    }
  }

  /** First and last name put back together give a single-spaced name: the accessors lose
      nothing. */
  lemma FirstLastRoundTrip(u: User)
    requires SingleSpaced(u.name)
    ensures (if LastName(u) == "" then FirstName(u) else FirstName(u) + " " + LastName(u)) == u.name
  {
    var parts := SplitWs(u.name);
    SplitWsJoin(u.name);
    if |parts| > 1 {
      SplitWsTailNonEmpty(u.name);
      JoinNonEmpty(parts[1..]);
      JoinCons(parts[0], parts[1..], " ");
      assert parts == [parts[0]] + parts[1..];
    }
  }

  lemma JoinNonEmpty(parts: seq<string>)
    requires |parts| >= 1 && parts[0] != ""
    ensures Join(parts, " ") != ""
  {
    if |parts| > 1 {
      JoinCons(parts[0], parts[1..], " ");
      assert parts == [parts[0]] + parts[1..];
    }
  }

  // ---------------------------------------------------------------------------------------
  // toArray / jsonSerialize

  datatype UserArray = UserArray(
    id: Option<int>,
    name: string,
    email: string,
    rol: string,
    codigo: Option<string>,
    fechaExpedicion: Option<string>,
    createdAt: Option<string>)

  /** toArray: every field by name; fecha_expedicion formatted as a date (null stays null)
      and created_at as a date-time. */
  function ToArray(u: User, formatDate: int -> string, formatDateTime: int -> string): (a: UserArray)
    ensures a.id == u.id && a.name == u.name && a.email == u.email && a.rol == u.rol && a.codigo == u.codigo
    ensures u.fechaExpedicion.None? ==> a.fechaExpedicion.None?
    ensures u.fechaExpedicion.Some? ==> a.fechaExpedicion == Some(formatDate(u.fechaExpedicion.value))
    ensures a.createdAt == Some(formatDateTime(u.createdAt))
  {
    UserArray(u.id, u.name, u.email, u.rol, u.codigo,
              if u.fechaExpedicion.Some? then Some(formatDate(u.fechaExpedicion.value)) else None,
              Some(formatDateTime(u.createdAt)))
  }

  /** A user built from (id, name, email, rol) serialises to those values with the e-mail
      lower-cased and null code and issue date, as the entity's test expects. */
  lemma SerialisedNewUser(id: int, name: string, email: string, rol: string, now: int,
                          formatDate: int -> string, formatDateTime: int -> string)
    ensures ToArray(NewUser(Some(id), name, email, rol, None, None, None, now), formatDate, formatDateTime)
      == UserArray(Some(id), name, ToLower(email), rol, None, None, Some(formatDateTime(now)))
  {
  }

  // ---------------------------------------------------------------------------------------
  // The users table

  datatype UserRow = UserRow(id: int, name: Option<string>, email: Option<string>,
                             password: Option<string>, createdAt: Option<int>)

  /** The row's name split at its first space: (text before it, rest), or (name, '') when
      there is no space. */
  function SplitFirstSpace(name: string): (r: (string, string))
    ensures ' ' !in name ==> r == (name, "")
    ensures ' ' in name ==> r.0 + " " + r.1 == name && ' ' !in r.0
  {
    var k := IndexOf(name, ' ');
    if k == |name| then (name, "")
    else
      assert name == name[..k] + " " + name[k + 1..];
      (name[..k], name[k + 1..])
  }

  /** The username the mapping computes: the e-mail column, else the name column. */
  function RowUsername(row: UserRow): Option<string> {
    if row.email.Some? then row.email else row.name
  }

  /** The mapping as written: `new User((int)$row['id'], $username, $first, $last)` against
      the constructor User(id, name, email, rol), so the entity's name is the username, its
      e-mail the lower-cased first name and its role the last name. With both name and e-mail
      null the constructor's string parameter rejects the null (None). */
  function MapRowAsWritten(row: UserRow, now: int): (r: Option<User>)
    ensures RowUsername(row).None? <==> r.None?
    ensures r.Some? ==> r.value.name == RowUsername(row).value
    ensures r.Some? ==> r.value.email == ToLower(SplitFirstSpace(row.name.GetOr("")).0)
    ensures r.Some? ==> r.value.rol == SplitFirstSpace(row.name.GetOr("")).1
  {
    match RowUsername(row)
    case None => None
    case Some(username) =>
      var parts := SplitFirstSpace(row.name.GetOr(""));
      Some(NewUser(Some(row.id), username, parts.0, parts.1, None, None, None, now))
  }

  /** A concrete row shows it: "Ana Diaz" <ana@example.com> becomes a user whose e-mail is
      "ana" and whose role is "Diaz", so a mail to that user's address goes to "ana". */
  lemma MapRowAsWrittenMisplacesFields()
    ensures var row := UserRow(1, Some("Ana Diaz"), Some("ana@example.com"), None, None);
      var u := MapRowAsWritten(row, 0).value;
      u.email == "ana" && u.rol == "Diaz" && u.name == "ana@example.com"
  {
    var name := "Ana Diaz";
    assert IndexOf(name, ' ') == 3;
    assert name[..3] == "Ana" && name[4..] == "Diaz";
    assert ToLower("Ana") == [LowerChar('A')] + ToLower("na");
    assert ToLower("na") == "na";
  }

  /** The mapping evidently intended: the entity's name is the name column and its e-mail the
      username (e-mail column, else name), with the default role; the first/last name split is
      the entity's own accessors' business. */
  function MapRow(row: UserRow, now: int): (r: Option<User>)
    ensures RowUsername(row).None? <==> r.None?
    ensures r.Some? ==> r.value.id == Some(row.id) && r.value.name == row.name.GetOr("")
    ensures r.Some? ==> r.value.email == ToLower(RowUsername(row).value) && r.value.rol == DefaultRol
    ensures row.email.Some? ==> r.Some? && r.value.email == ToLower(row.email.value)
  {
    match RowUsername(row)
    case None => None
    case Some(username) => Some(NewUserDefaults(Some(row.id), row.name.GetOr(""), username, now))
  }

  /** The intended mapping keeps the e-mail column as the user's address. */
  lemma MapRowKeepsEmail()
    ensures var row := UserRow(1, Some("Ana Diaz"), Some("ana@example.com"), None, None);
      var u := MapRow(row, 0).value;
      u.email == "ana@example.com" && u.name == "Ana Diaz" && u.rol == "user"
  {
    LowerCaseUnchanged("ana@example.com");
  }

  /** Text without upper-case ASCII letters is its own lower case. */
  lemma LowerCaseUnchanged(s: string)
    requires forall i :: 0 <= i < |s| ==> !IsUpperAscii(s[i])
    ensures ToLower(s) == s
  {
    assert forall i :: 0 <= i < |s| ==> ToLower(s)[i] == s[i];
  }

  predicate Ascending(rows: seq<UserRow>) {
    forall i, j :: 0 <= i < j < |rows| ==> rows[i].id < rows[j].id
  }

  /** The first row with that id (`WHERE id = :id` then one fetch). */
  function FirstOfId(rows: seq<UserRow>, id: int): (r: Option<UserRow>)
    ensures r.None? <==> forall i :: 0 <= i < |rows| ==> rows[i].id != id
    ensures r.Some? ==> r.value in rows && r.value.id == id
    ensures forall i :: 0 <= i < |rows| && rows[i].id == id && (forall j :: 0 <= j < i ==> rows[j].id != id) ==>
      r == Some(rows[i])
  {
    if |rows| == 0 then None
    else if rows[0].id == id then Some(rows[0])
    else (assert forall i :: 0 < i < |rows| ==> rows[1..][i - 1] == rows[i]; FirstOfId(rows[1..], id))
  }

  /** The first row with that e-mail (`WHERE email = :email` then one fetch). */
  function FirstOfEmail(rows: seq<UserRow>, email: string): (r: Option<UserRow>)
    ensures r.None? <==> forall i :: 0 <= i < |rows| ==> rows[i].email != Some(email)
    ensures r.Some? ==> r.value in rows && r.value.email == Some(email)
    ensures forall i :: 0 <= i < |rows| && rows[i].email == Some(email) &&
                        (forall j :: 0 <= j < i ==> rows[j].email != Some(email)) ==>
      r == Some(rows[i])
  {
    if |rows| == 0 then None
    else if rows[0].email == Some(email) then Some(rows[0])
    else (assert forall i :: 0 < i < |rows| ==> rows[1..][i - 1] == rows[i]; FirstOfEmail(rows[1..], email))
  }

  /** The user of the row with that id, over the rows themselves: none without such a row,
      else the mapping of the first one. */
  function UserOfId(rows: seq<UserRow>, id: int, now: int): (r: Option<User>)
    ensures (forall i :: 0 <= i < |rows| ==> rows[i].id != id) ==> r.None?
    ensures forall i :: 0 <= i < |rows| && rows[i].id == id && (forall j :: 0 <= j < i ==> rows[j].id != id) ==>
      r == MapRow(rows[i], now)
    ensures r.Some? ==> r.value.id == Some(id)
  {
    match FirstOfId(rows, id)
    case None => None
    case Some(row) => MapRow(row, now)
  }

  /** The users of all rows, in row order; none at all (the constructor's TypeError ends
      findAll) as soon as one row has neither e-mail nor name. */
  function MapRows(rows: seq<UserRow>, now: int): (r: Option<seq<User>>)
    ensures r.None? <==> exists i :: 0 <= i < |rows| && RowUsername(rows[i]).None?
    ensures r.Some? ==> |r.value| == |rows|
    ensures r.Some? ==> forall i :: 0 <= i < |rows| ==> MapRow(rows[i], now) == Some(r.value[i])
  {
    if |rows| == 0 then Some([])
    else
      var init := rows[..|rows| - 1];
      assert forall i :: 0 <= i < |init| ==> init[i] == rows[i];
      match MapRows(init, now)
      case None => None
      case Some(us) =>
        match MapRow(rows[|rows| - 1], now)
        case None => None
        case Some(u) => Some(us + [u])
  }

  predicate UsersAscending(us: seq<User>) {
    forall k, l :: 0 <= k < l < |us| ==> us[k].id.Some? && us[l].id.Some? && us[k].id.value < us[l].id.value
  }

  /** findAll's users carry the rows' ids, so rows in ascending id order (ORDER BY id) give
      users in ascending id order. */
  lemma MapRowsAscending(rows: seq<UserRow>, now: int)
    requires Ascending(rows) && MapRows(rows, now).Some?
    ensures UsersAscending(MapRows(rows, now).value)
  {
    var us := MapRows(rows, now).value;
    forall k | 0 <= k < |us| ensures us[k].id == Some(rows[k].id) {
      assert MapRow(rows[k], now) == Some(us[k]);
    }
  }

  /** password = :password WHERE id = :id. */
  function SetPassword(rows: seq<UserRow>, id: int, hash: Option<string>): (r: seq<UserRow>)
    ensures |r| == |rows|
    ensures forall i :: 0 <= i < |rows| ==>
      r[i] == if rows[i].id == id then rows[i].(password := hash) else rows[i]
  {
    if |rows| == 0 then []
    else [if rows[0].id == id then rows[0].(password := hash) else rows[0]] + SetPassword(rows[1..], id, hash)
  }

  class UserTable {
    var rows: seq<UserRow>

    ghost predicate Valid()
      reads this
    {
      Ascending(rows)
    }

    constructor ()
      ensures Valid() && rows == []
    {
      rows := [];
    }

    /** findAll: every user, in ascending id order (the mapping loop); none when a row's
        username is null and the constructor throws. */
    method FindAll(now: int) returns (users: Option<seq<User>>)
      requires Valid()
      ensures users == MapRows(rows, now)
      ensures users.Some? ==> UsersAscending(users.value)
    {
      var acc: seq<User> := [];
      for i := 0 to |rows|
        invariant MapRows(rows[..i], now) == Some(acc)
      {
        var prefix := rows[..i + 1];
        assert prefix[..i] == rows[..i];
        var u := MapRow(rows[i], now);
        if u.None? {
          assert prefix[i] == rows[i];
          return None;
        }
        acc := acc + [u.value];
      }
      assert rows[..|rows|] == rows;
      users := Some(acc);
      MapRowsAscending(rows, now);
    }

    /** findUserOfId: None where the source throws UserNotFoundException (no such row) or
        the constructor rejects a row with neither name nor e-mail; otherwise the first row
        with that id, mapped. */
    function FindUserOfId(id: int, now: int): (r: Option<User>)
      reads this
      ensures (forall i :: 0 <= i < |rows| ==> rows[i].id != id) ==> r.None?
      ensures forall i :: 0 <= i < |rows| && rows[i].id == id && (forall j :: 0 <= j < i ==> rows[j].id != id) ==>
        r == MapRow(rows[i], now)
      ensures r.Some? ==> r.value.id == Some(id)
    {
      UserOfId(rows, id, now)
    }

    /** findByEmail, searching the e-mail column as given. */
    function FindByEmail(email: string, now: int): (r: Option<User>)
      reads this
      ensures r.None? <==> forall i :: 0 <= i < |rows| ==> rows[i].email != Some(email)
      ensures r.Some? ==> r.value.email == ToLower(email)
      ensures forall i :: 0 <= i < |rows| && rows[i].email == Some(email) &&
                          (forall j :: 0 <= j < i ==> rows[j].email != Some(email)) ==>
        r == MapRow(rows[i], now)
    {
      match FirstOfEmail(rows, email)
      case None => None
      case Some(row) => MapRow(row, now)
    }

    /** getPasswordHashByEmail: the password column of the first row with that e-mail; null
        for an unknown e-mail or a null column. */
    function PasswordHashByEmail(email: string): (r: Option<string>)
      reads this
      ensures (forall i :: 0 <= i < |rows| ==> rows[i].email != Some(email)) ==> r.None?
      ensures forall i :: 0 <= i < |rows| && rows[i].email == Some(email) &&
                          (forall j :: 0 <= j < i ==> rows[j].email != Some(email)) ==>
        r == rows[i].password
    {
      match FirstOfEmail(rows, email)
      case None => None
      case Some(row) => row.password
    }

    /** updatePassword: only the password of the row with that id changes (null clears it). */
    method UpdatePassword(id: int, hash: Option<string>)
      requires Valid()
      modifies this
      ensures Valid()
      ensures rows == SetPassword(old(rows), id, hash)
    {
      rows := SetPassword(rows, id, hash);
    }
  }
}
