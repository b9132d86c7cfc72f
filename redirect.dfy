/** The public redirect endpoint `/r/{code}`: look the token up, record a scan of it (client
    address by header priority, user agent, and the address's city and country when a lookup
    finds them) and answer with a redirect to the QR code's target. */
module Redirect {
  import opened Wrappers
  import opened Strings
  import opened Php
  import QrCodes
  import Scans

  /** The server parameters tried for the client address, most trusted first. */
  const Candidates: seq<string> := ["HTTP_CF_CONNECTING_IP", "HTTP_X_CLIENT_IP", "HTTP_X_FORWARDED_FOR",
                                    "HTTP_X_REAL_IP", "HTTP_CLIENT_IP", "REMOTE_ADDR"]

  const ForwardedFor := "HTTP_X_FORWARDED_FOR"

  /** `!empty($serverParams[$key])`: present and neither '' nor '0'. */
  predicate Offered(server: map<string, string>, key: string) {
    key in server && !Falsy(Str(server[key]))
  }

  /** The text one parameter offers: X-Forwarded-For gives its first comma-separated entry;
      the text is then trimmed. */
  function Cleaned(server: map<string, string>, key: string): string
    requires key in server
  {
    var raw := if key == ForwardedFor then Split(server[key], ',')[0] else server[key];
    Trim(raw)
  }

  /** A parameter yields an address when it is offered and its cleaned text is a valid IP
      (filter_var's test is the `validIp` parameter). */
  predicate Qualifies(server: map<string, string>, key: string, validIp: string -> bool) {
    Offered(server, key) && validIp(Cleaned(server, key))
  }

  /** The address of the first qualifying parameter, in the order given. */
  function FirstQualified(server: map<string, string>, keys: seq<string>, validIp: string -> bool): Option<string>
  {
    if |keys| == 0 then None
    else if Qualifies(server, keys[0], validIp) then Some(Cleaned(server, keys[0]))
    else FirstQualified(server, keys[1..], validIp)
  }

  /** The priority rule, first half: no address is found exactly when no parameter
      qualifies. */
  lemma {:induction false} FirstQualifiedNone(server: map<string, string>, keys: seq<string>, validIp: string -> bool)
    ensures FirstQualified(server, keys, validIp).None? <==>
      forall j :: 0 <= j < |keys| ==> !Qualifies(server, keys[j], validIp)
  {
    if |keys| > 0 && !Qualifies(server, keys[0], validIp) {
      FirstQualifiedNone(server, keys[1..], validIp);
      assert forall j :: 0 < j < |keys| ==> keys[1..][j - 1] == keys[j];
    }
  }

  /** The priority rule, second half: a found address is the cleaned text of a qualifying
      parameter before which none qualifies. */
  lemma {:induction false} FirstQualifiedIndex(server: map<string, string>, keys: seq<string>, validIp: string -> bool)
    returns (j: nat)
    requires FirstQualified(server, keys, validIp).Some?
    ensures j < |keys| && Qualifies(server, keys[j], validIp)
    ensures FirstQualified(server, keys, validIp).value == Cleaned(server, keys[j])
    ensures forall k :: 0 <= k < j ==> !Qualifies(server, keys[k], validIp)
  {
    if Qualifies(server, keys[0], validIp) {
      j := 0;
    } else {
      var j' := FirstQualifiedIndex(server, keys[1..], validIp);
      j := j' + 1;
      assert keys[j] == keys[1..][j'];
      forall k | 0 < k < j
        ensures !Qualifies(server, keys[k], validIp)
      {
        assert keys[k] == keys[1..][k - 1];
      }
    }
  }

  /** getClientIp: the candidates in priority order, the first valid address wins. */
  method GetClientIp(server: map<string, string>, validIp: string -> bool) returns (ip: Option<string>)
    ensures ip == FirstQualified(server, Candidates, validIp)
  {
    ip := FirstValidCandidate(server, Candidates, validIp);
  }

  /** The foreach over the candidate keys, with its early return. */
  method FirstValidCandidate(server: map<string, string>, keys: seq<string>, validIp: string -> bool)
    returns (ip: Option<string>)
    ensures ip == FirstQualified(server, keys, validIp)
  {
    for i := 0 to |keys|
      invariant FirstQualified(server, keys, validIp) == FirstQualified(server, keys[i..], validIp)
    {
      var key := keys[i];
      assert keys[i..][1..] == keys[i + 1..];
      if key in server && !Falsy(Str(server[key])) {
        var raw := server[key];
        if key == ForwardedFor {
          raw := Split(raw, ',')[0];
        }
        raw := Trim(raw);
        if validIp(raw) {
          return Some(raw);
        }
      }
    }
    assert keys[|keys|..] == [];
    ip := None;
  }

  /** From X-Forwarded-For only the first entry is taken, so the address has no comma. */
  lemma ForwardedAddressHasNoComma(server: map<string, string>)
    requires ForwardedFor in server
    ensures ',' !in Cleaned(server, ForwardedFor)
  {
    var first := Split(server[ForwardedFor], ',')[0];
    SplitPartsLackSep(server[ForwardedFor], ',');
    assert first in Split(server[ForwardedFor], ',');
    TrimKeepsCharacters(first);
  }

  lemma TrimKeepsCharacters(s: string)
    ensures forall c :: c in Trim(s) ==> c in s
  {
    var l := TrimLeft(s);
    var a := |s| - |l|;
    assert Trim(s) == l[..|Trim(s)|];
    forall c | c in Trim(s)
      ensures c in s
    {
      var k :| 0 <= k < |Trim(s)| && Trim(s)[k] == c;
      assert s[a + k] == c;
    }
  }

  /** `getHeaderLine('User-Agent') ?: null`. */
  function UserAgentOf(header: string): Option<string>
  {
    if Falsy(Str(header)) then None else Some(header)
  }

  /** City and country of an address, as the values `$geo['city'] ?? null` and
      `$geo['country'] ?? null`: looked up only for a truthy address, and read from a
      non-empty answer; a missing entry is null. */
  function GeoOf(ip: Option<string>, lookup: string -> map<string, Value>): (r: (Value, Value))
    ensures ip.None? || Falsy(Str(ip.value)) ==> r == (Null, Null)
    ensures r.0 != Null ==> ip.Some? && "city" in lookup(ip.value) && r.0 == lookup(ip.value)["city"]
    ensures r.1 != Null ==> ip.Some? && "country" in lookup(ip.value) && r.1 == lookup(ip.value)["country"]
    ensures ip.Some? && !Falsy(Str(ip.value)) && "city" in lookup(ip.value) ==> r.0 == lookup(ip.value)["city"]
    ensures ip.Some? && !Falsy(Str(ip.value)) && "country" in lookup(ip.value) ==> r.1 == lookup(ip.value)["country"]
  {
    if ip.Some? && !Falsy(Str(ip.value)) then
      var geo := lookup(ip.value);
      if |geo| == 0 then (Null, Null)
      else (if "city" in geo then geo["city"] else Null,
            if "country" in geo then geo["country"] else Null)
    else (Null, Null)
  }

  /** A value that Scan's `?string` parameters accept under strict types. */
  predicate NullableString(v: Value)
  {
    v.Null? || v.Str?
  }

  /** Such a value as the scan's optional text. */
  function TextOf(v: Value): (r: Option<string>)
    requires NullableString(v)
    ensures r.None? <==> v.Null?
    ensures r.Some? ==> v == Str(r.value)
  {
    if v.Str? then Some(v.s) else None
  }

  /** The scan recorded for a visit of a QR code (its id, or 0 for a record without one). */
  function ScanOf(qr: QrCodes.QrCode, ip: Option<string>, userAgent: Option<string>,
                  city: Value, country: Value, now: int): (r: Scans.Scan)
    requires NullableString(city) && NullableString(country)
    ensures r.id.None? && r.qrCodeId == qr.id.GetOr(0) && r.scannedAt == now
    ensures r.ip == ip && r.userAgent == userAgent
    ensures city == Null <==> r.city.None?
    ensures country == Null <==> r.country.None?
    ensures r.city.Some? ==> city == Str(r.city.value)
    ensures r.country.Some? ==> country == Str(r.country.value)
  {
    Scans.Scan(None, qr.id.GetOr(0), now, ip, userAgent, TextOf(city), TextOf(country))
  }

  /** The answer: 404 with a JSON error, 302 to a location, or the TypeError `new Scan`
      raises for a city or country that is neither null nor a string, which the action does
      not catch. */
  datatype Reply = NotFound(error: string) | Found(location: string) | Failed

  /** The action. An unknown token is a 404 and records nothing. For a known token a city or
      country of the wrong type fails the request before anything is recorded; otherwise the
      action redirects to the target, and the scan is recorded unless the insert fails, which
      does not change the answer. */
  method RedirectAction(code: string, qrs: QrCodes.QrCodeTable, scans: Scans.ScanTable,
                        server: map<string, string>, userAgentHeader: string, validIp: string -> bool,
                        lookup: string -> map<string, Value>, createFails: bool,
                        owners: map<int, QrCodes.Owner>, now: int)
    returns (reply: Reply)
    requires scans.Valid()
    modifies scans
    ensures scans.Valid()
    ensures qrs.FindByToken(code, owners, now).None? ==>
      reply == NotFound("QR Code not found") && scans.rows == old(scans.rows) && scans.nextId == old(scans.nextId)
    ensures qrs.FindByToken(code, owners, now).Some? ==>
      var geo := GeoOf(FirstQualified(server, Candidates, validIp), lookup);
      !(NullableString(geo.0) && NullableString(geo.1)) ==>
        reply == Failed && scans.rows == old(scans.rows) && scans.nextId == old(scans.nextId)
    ensures qrs.FindByToken(code, owners, now).Some? ==>
      var qr := qrs.FindByToken(code, owners, now).value;
      var ip := FirstQualified(server, Candidates, validIp);
      var geo := GeoOf(ip, lookup);
      NullableString(geo.0) && NullableString(geo.1) ==>
        var scan := ScanOf(qr, ip, UserAgentOf(userAgentHeader), geo.0, geo.1, now);
        && reply == Found(qr.targetUrl)
        && (createFails ==> scans.rows == old(scans.rows) && scans.nextId == old(scans.nextId))
        && (!createFails ==> scans.rows == old(scans.rows) + [scan.(id := Some(old(scans.nextId)))]
                             && scans.nextId == old(scans.nextId) + 1)
  {
    var found := qrs.FindByToken(code, owners, now);
    if found.None? {
      return NotFound("QR Code not found");
    }
    var qr := found.value;
    var ip := GetClientIp(server, validIp);
    var userAgent := UserAgentOf(userAgentHeader);
    var geo := GeoOf(ip, lookup);
    if !(NullableString(geo.0) && NullableString(geo.1)) {
      return Failed;
    }
    var scan := ScanOf(qr, ip, userAgent, geo.0, geo.1, now);
    if !createFails {
      var created := scans.Create(scan);
    }
    reply := Found(qr.targetUrl);
  }

  /** An answer of the documented shape, with every entry a string or null, never fails. */
  lemma DocumentedAnswerRecords(ip: Option<string>, lookup: string -> map<string, Value>)
    requires forall a: string :: forall k | k in lookup(a) :: NullableString(lookup(a)[k])
    ensures NullableString(GeoOf(ip, lookup).0) && NullableString(GeoOf(ip, lookup).1)
  {
  }
}
