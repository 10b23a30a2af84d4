/** The user-service's JwtFilter: extract a bearer token from the Authorization header and
    attach an authentication when it is a valid access token. The header it parses is the one
    the group-event service's Feign interceptor builds. */
module BearerAuth {
  import opened Outcomes
  import opened Jwt

  const BearerPrefix: string := "Bearer "

  /** The header value the Feign interceptor attaches to every service-to-service call. */
  function BearerHeader(token: Token): (h: string)
    ensures |h| == |BearerPrefix| + |token|
    ensures StartsWith(h, BearerPrefix) && h[|BearerPrefix|..] == token
  {
    BearerPrefix + token
  }

  /** Java's whitespace characters in the ASCII range. */
  predicate IsWhitespace(c: char) {
    c == ' ' || c == '\t' || c == '\n' || c == '\U{000B}' || c == '\U{000C}' || c == '\r'
    || ('\U{001C}' <= c <= '\U{001F}')
  }

  /** Spring's hasText: present, and holding at least one non-whitespace character. */
  predicate HasText(s: Option<string>) {
    s.Some? && exists i :: 0 <= i < |s.value| && !IsWhitespace(s.value[i])
  }

  /** Case-sensitive prefix test. */
  predicate StartsWith(s: string, prefix: string) {
    |prefix| <= |s| && s[..|prefix|] == prefix
  }

  /** The token after "Bearer " when the first Authorization value has text and starts with
      that exact prefix; null (None) when the header is missing, blank or has another scheme. */
  function GetTokenFromRequest(authorization: Option<string>): (r: Option<Token>)
    ensures r.Some? <==> authorization.Some? && StartsWith(authorization.value, BearerPrefix)
    ensures r.Some? ==> authorization.value == BearerHeader(r.value)
    ensures !HasText(authorization) ==> r.None?
  {
    if HasText(authorization) && StartsWith(authorization.value, BearerPrefix) then
      Some(authorization.value[|BearerPrefix|..])
    else
      assert authorization.Some? && StartsWith(authorization.value, BearerPrefix) ==> !IsWhitespace(authorization.value[0]);
      None
  }

  /** Round trip with the Feign interceptor: the header built for a token yields that token. */
  lemma {:induction false} BearerRoundTrip(token: Token)
    ensures GetTokenFromRequest(Some(BearerHeader(token))) == Some(token)
  {
    var h := BearerHeader(token);
    assert h[..|BearerPrefix|] == BearerPrefix;
    assert h[|BearerPrefix|..] == token;
  }

  /** And conversely: a header yields a token only if it is exactly the header built for it. */
  lemma {:induction false} BearerHeaderDeterminedByToken(header: string, token: Token)
    requires GetTokenFromRequest(Some(header)) == Some(token)
    ensures header == BearerHeader(token)
  {
  }

  /** The authentication put into the security context, built from the token's access claims. */
  datatype JwtAuthentication = JwtAuthentication(claims: Claims, authenticated: bool)

  /** What the filter does with the request. */
  datatype FilterOutcome = PassThrough | Authenticated(auth: JwtAuthentication)

  /** Attach an authenticated authentication when the request carries a valid access token;
      otherwise pass the request on unchanged. */
  function Filter(authorization: Option<string>, jwtProvider: JwtProvider): (r: FilterOutcome)
    ensures r.Authenticated? <==> && GetTokenFromRequest(authorization).Some?
                                  && jwtProvider.validateAccessToken(GetTokenFromRequest(authorization).value)
    ensures r.Authenticated? ==> && r.auth.authenticated
                                 && r.auth.claims == jwtProvider.getAccessClaims(GetTokenFromRequest(authorization).value)
  {
    var token := GetTokenFromRequest(authorization);
    if token.Some? && jwtProvider.validateAccessToken(token.value) then
      Authenticated(JwtAuthentication(jwtProvider.getAccessClaims(token.value), true))
    else
      PassThrough
  }

  /** A service call carrying the Feign header is authenticated exactly when its token is a valid
      access token. */
  lemma ServiceCallAuthentication(token: Token, jwtProvider: JwtProvider)
    ensures Filter(Some(BearerHeader(token)), jwtProvider).Authenticated? <==> jwtProvider.validateAccessToken(token)
  {
    BearerRoundTrip(token);
  }
}
