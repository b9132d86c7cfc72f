/** UrlBuilder: the public redirect URL of a token, '<base>/r/<token>', where the base is the
    URL_BASE environment variable without its trailing slashes (or nothing when unset). The
    QR creator and the QR listing build the same URLs inline. */
module Urls {
  import opened Wrappers
  import opened Strings
  import Php

  /** `getenv('URL_BASE') ?: ''` then rtrim '/': `env` is None when the variable is unset. */
  function BaseUrl(env: Option<string>): (r: string)
    ensures r == [] || r[|r| - 1] != '/'
    ensures env.None? || Php.Falsy(Php.Str(env.value)) ==> r == ""
    ensures env.Some? && !Php.Falsy(Php.Str(env.value)) ==>
      |r| <= |env.value| && env.value == r + Repeat('/', |env.value| - |r|)
  {
    var raw := if env.None? || Php.Falsy(Php.Str(env.value)) then "" else env.value;
    var r := RTrim(raw, '/');
    assert raw[|r|..] == Repeat('/', |raw| - |r|);
    assert raw == raw[..|r|] + raw[|r|..];
    r
  }

  /** getUrlBaseToken: the base and '/r/'. */
  function UrlBaseToken(env: Option<string>): string
  {
    var base := BaseUrl(env);
    (if base != "" then base else "") + "/r/"
  }

  /** buildRedirectUrl. */
  function BuildRedirectUrl(env: Option<string>, token: string): string
  {
    var base := BaseUrl(env);
    (if base != "" then base else "") + "/r/" + token
  }

  /** A redirect URL is the token URL base followed by the token. */
  lemma RedirectIsBaseTokenPlusToken(env: Option<string>, token: string)
    ensures BuildRedirectUrl(env, token) == UrlBaseToken(env) + token
  {
  }

  /** Exactly one '/' joins the base and 'r/': the base contributes none. */
  lemma SingleSlashJoin(env: Option<string>, token: string)
    ensures var base := BaseUrl(env); var url := BuildRedirectUrl(env, token);
      && url[..|base|] == base
      && url[|base|..|base| + 3] == "/r/"
      && url[|base| + 3..] == token
      && (|base| == 0 || url[|base| - 1] != '/')
  {
    var base := BaseUrl(env);
    assert BuildRedirectUrl(env, token) == base + "/r/" + token;
  }

  /** Trailing slashes on URL_BASE make no difference. */
  lemma TrailingSlashesIgnored(s: string, n: nat)
    requires !Php.Falsy(Php.Str(s))
    ensures BaseUrl(Some(s + Repeat('/', n))) == BaseUrl(Some(s))
  {
    var t := s + Repeat('/', n);
    assert !Php.Falsy(Php.Str(t)) by {
      if n == 0 {
        assert t == s;
      } else {
        assert |t| >= 2;
      }
    }
    BaseUrlOfSet(t);
    BaseUrlOfSet(s);
    RTrimAppendSlashes(s, n);
  }

  lemma BaseUrlOfSet(e: string)
    requires !Php.Falsy(Php.Str(e))
    ensures BaseUrl(Some(e)) == RTrim(e, '/')
  {
  }
}
