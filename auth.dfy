/**
 * AuthenticationService.getAuthentication: the API-key decision made for
 * every request. Headers are a map from header name to value.
 */
module Auth {
  import opened Wrappers

  const AUTH_TOKEN_HEADER_NAME := "X-ADMIN-KEY"
  const AUTH_TOKEN := "ADMIN"

  /** An ApiKeyAuthentication token: its key (the principal), its authorities and its flag. */
  datatype Authentication = ApiKeyAuthentication(apiKey: string, authorities: seq<string>, authenticated: bool)

  /**
   * A request is authenticated exactly when its X-ADMIN-KEY header is present
   * and equals "ADMIN" (case-sensitively); the token then carries that key,
   * no authorities, and is marked authenticated.
   */
  function GetAuthentication(headers: map<string, string>): (auth: Option<Authentication>)
    ensures auth.Some? <==> AUTH_TOKEN_HEADER_NAME in headers && headers[AUTH_TOKEN_HEADER_NAME] == AUTH_TOKEN
    ensures auth.Some? ==> auth.value.apiKey == AUTH_TOKEN && auth.value.authorities == [] && auth.value.authenticated
  {
    if AUTH_TOKEN_HEADER_NAME !in headers || headers[AUTH_TOKEN_HEADER_NAME] != AUTH_TOKEN then None
    else Some(ApiKeyAuthentication(headers[AUTH_TOKEN_HEADER_NAME], [], true))
  }

  /** The comparison is case-sensitive: a lower-case key is refused. */
  lemma LowerCaseKeyRefused(headers: map<string, string>)
    requires headers == map[AUTH_TOKEN_HEADER_NAME := "admin"]
    ensures GetAuthentication(headers).None?
  {
    assert "admin"[0] != AUTH_TOKEN[0];
  }
}
