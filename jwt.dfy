/** Authentication: the bearer-token middleware, the admin-role middleware, and the token
    service's claim set and expiry. Signing and verifying tokens are parameters of the model. */
module Auth {
  import opened Wrappers
  import opened Strings
  import opened Php
  import AppSettings
  import QrSubscriptionActions

  // ---------------------------------------------------------------------------------------
  // JwtAuthMiddleware

  const BearerPrefix := "Bearer "

  /** What a middleware does with a request: refuse it (with the exception's message; 401
      for the token middleware, 403 for the admin one), or hand it on carrying this 'jwt'
      attribute. */
  datatype Outcome = Refuse(message: string) | Pass(jwt: Value)

  /** The token of an Authorization header: what follows the seven-character prefix, trimmed. */
  function TokenOf(header: string): string
  {
    Trim(Substr(header, 7, |header|))
  }

  /** process: an empty header, or one that does not start with 'Bearer ' in any letter case,
      is refused; so is a token the decoder rejects (`decode` answers None where it throws).
      Otherwise the request goes on with the decoded payload as its 'jwt' attribute. */
  function Authenticate(header: string, decode: string -> Option<Value>): (r: Outcome)
    ensures r.Pass? <==> !Falsy(Str(header)) && StartsWithIgnoringCase(header, BearerPrefix)
                         && decode(TokenOf(header)).Some?
    ensures r.Pass? ==> r.jwt == decode(TokenOf(header)).value
    ensures !StartsWithIgnoringCase(header, BearerPrefix) ==> r == Refuse("Missing or invalid Authorization header")
  {
    if Falsy(Str(header)) || !StartsWithIgnoringCase(header, BearerPrefix) then
      Refuse("Missing or invalid Authorization header")
    else match decode(TokenOf(header))
      case None => Refuse("Invalid or expired token")
      case Some(decoded) => Pass(decoded)
  }

  /** The token handed to the decoder is exactly the text after the prefix, trimmed, whatever
      the prefix's letter case. */
  lemma TokenAfterPrefix(prefix: string, token: string)
    requires |prefix| == 7 && ToLower(prefix) == ToLower(BearerPrefix)
    ensures StartsWithIgnoringCase(prefix + token, BearerPrefix)
    ensures TokenOf(prefix + token) == Trim(token)
  {
    var h := prefix + token;
    assert h[..7] == prefix;
    assert Substr(h, 7, |h|) == token by {
      if |token| > 0 {
        assert h[7..] == token;
      }
    }
  }

  // ---------------------------------------------------------------------------------------
  // AdminRoleMiddleware

  /** `$jwt['rol']` or `$jwt->rol` when set. */
  function RoleOf(jwt: Value): Option<Value>
  {
    Coalesce(jwt, "rol")
  }

  /** process: no token, an empty one, or a value that is neither an array nor an object is
      'Access denied'; a role that is not exactly the string 'admin' is 'Admin role required';
      an admin's request goes on unchanged. */
  function AdminGate(jwt: Value): (r: Outcome)
    ensures r.Pass? <==> RoleOf(jwt) == Some(Str("admin"))
    ensures r.Pass? ==> r.jwt == jwt
    ensures Falsy(jwt) || !(IsArray(jwt) || IsObject(jwt)) ==> r == Refuse("Access denied")
  {
    if Falsy(jwt) || !(IsArray(jwt) || IsObject(jwt)) then Refuse("Access denied")
    else if RoleOf(jwt) != Some(Str("admin")) then Refuse("Admin role required")
    else Pass(jwt)
  }

  /** The admin middleware and the endpoints' own reading of the token agree: a token with a
      subject passes the middleware exactly when the endpoints count it as an admin's. */
  lemma AdminGateAgreesWithAuthContext(jwt: Value)
    requires IsSet(jwt, "sub")
    ensures AdminGate(jwt).Pass? <==> QrSubscriptionActions.GetAuthContext(jwt).isAdmin
  {
  }

  // ---------------------------------------------------------------------------------------
  // JwtService

  const DefaultSecret := "change_this_secret"
  const DefaultExpiryDays := 15
  const SecondsPerDay := 24 * 60 * 60

  /** The claims signed: the payload with 'iat' and 'exp' set (array_merge: they override a
      same-named payload entry). */
  function Claims(payload: map<string, Value>, now: int, expiryDays: int): map<string, Value>
  {
    payload["iat" := Int(now)]["exp" := Int(now + expiryDays * SecondsPerDay)]
  }

  /** iat is the issuing time and exp lies expiryDays days later, after iat whenever the token
      lives at least a day; all other payload entries are kept as given. */
  lemma ClaimsProperties(payload: map<string, Value>, now: int, expiryDays: int)
    ensures var c := Claims(payload, now, expiryDays);
      && c.Keys == payload.Keys + {"iat", "exp"}
      && c["iat"] == Int(now)
      && c["exp"] == Int(now + expiryDays * 86400)
      && (expiryDays > 0 ==> c["exp"].i > c["iat"].i)
      && forall k :: k in payload && k != "iat" && k != "exp" ==> c[k] == payload[k]
  {
  }

  class JwtService {
    const secret: string
    const expiryDays: int

    /** The 'jwt' settings: the secret and the lifetime in days, with defaults. */
    constructor (settings: AppSettings.Settings)
      ensures var jwt := AppSettings.GetOf(settings.settings, "jwt");
        && secret == (if IsSet(jwt, "secret") then ToStr(Entry(jwt, "secret").value) else DefaultSecret)
        && expiryDays == ToInt(if IsSet(jwt, "expiry_days") then Entry(jwt, "expiry_days").value else Int(DefaultExpiryDays))
    {
      var jwt := settings.Get("jwt");
      secret := match Coalesce(jwt, "secret") case Some(v) => ToStr(v) case None => DefaultSecret;
      expiryDays := ToInt(Coalesce(jwt, "expiry_days").GetOr(Int(DefaultExpiryDays)));
    }

    /** generate: the signed claims of the payload at `now` (the clock is a parameter, the
        HS256 signature is `encode`). */
    method Generate(payload: map<string, Value>, now: int, encode: (map<string, Value>, string) -> string)
      returns (token: string)
      ensures token == encode(Claims(payload, now, expiryDays), secret)
    {
      var exp := now + expiryDays * 24 * 60 * 60;
      var claims := payload["iat" := Int(now)]["exp" := Int(exp)];
      token := encode(claims, secret);
    }
  }
}
