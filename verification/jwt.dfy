/** The JWT collaborators of both AuthService classes, and the refresh-token store they keep:
    a map from login to the one refresh token currently accepted for it. */
module Jwt {
  import opened Outcomes

  type Login = string
  type Token = string

  /** The claims of a token; only its subject (the login) is read by the services. */
  datatype Claims = Claims(subject: Login)

  /** The JWT library: signature/expiry checks and claim extraction, left abstract. */
  datatype JwtProvider = JwtProvider(
    validateAccessToken: Token -> bool,
    validateRefreshToken: Token -> bool,
    getAccessClaims: Token -> Claims,
    getRefreshClaims: Token -> Claims)

  /** The password hashing library, left abstract: matches(raw, encoded) and encode(raw). */
  datatype PasswordEncoder = PasswordEncoder(matches: (string, string) -> bool, encode: string -> string)

  /** The access and refresh tokens the provider mints during one call (they embed the clock). */
  datatype IssuedTokens = IssuedTokens(accessToken: Token, refreshToken: Token)

  /** The response pair; a missing token is null in the source. */
  datatype JwtResponse = JwtResponse(accessToken: Option<Token>, refreshToken: Option<Token>)

  function Subject(jwt: JwtProvider, token: Token): Login {
    jwt.getRefreshClaims(token).subject
  }

  /** The guard of logout, getAccessToken and refresh: the token validates as a refresh token
      and is exactly the token stored under its subject. */
  predicate Presented(storage: map<Login, Token>, jwt: JwtProvider, token: Token) {
    && jwt.validateRefreshToken(token)
    && Subject(jwt, token) in storage
    && storage[Subject(jwt, token)] == token
  }

  /** The store after a logout with this token: the token's entry is dropped when the token is
      presented, and nothing else changes. */
  function AfterLogout(storage: map<Login, Token>, jwt: JwtProvider, token: Token): (r: map<Login, Token>)
    ensures !Presented(r, jwt, token)
    ensures forall login :: login in r ==> login in storage && r[login] == storage[login]
    ensures forall login :: login in storage && login != Subject(jwt, token) ==> login in r
    ensures !Presented(storage, jwt, token) ==> r == storage
  {
    if Presented(storage, jwt, token) then storage - {Subject(jwt, token)} else storage
  }

  /** Logging out twice with the same token is the same as logging out once. */
  lemma LogoutIdempotent(storage: map<Login, Token>, jwt: JwtProvider, token: Token)
    ensures AfterLogout(AfterLogout(storage, jwt, token), jwt, token) == AfterLogout(storage, jwt, token)
  {
  }

  /** Storing a token for a login (login, register, refresh) makes it the only token accepted for
      that login, provided it validates and names that login; every other login is unaffected. */
  lemma StoredTokenIsTheOnlyOneAccepted(storage: map<Login, Token>, jwt: JwtProvider, login: Login, token: Token)
    requires jwt.validateRefreshToken(token) && Subject(jwt, token) == login
    ensures Presented(storage[login := token], jwt, token)
    ensures forall other :: Subject(jwt, other) == login && other != token ==> !Presented(storage[login := token], jwt, other)
    ensures forall other :: Subject(jwt, other) != login ==>
              (Presented(storage[login := token], jwt, other) <==> Presented(storage, jwt, other))
  {
  }

  /** Refresh rotates the token: once the new token is stored, the presented one is revoked. */
  lemma RotationRevokesPresentedToken(storage: map<Login, Token>, jwt: JwtProvider, token: Token, newToken: Token)
    requires Presented(storage, jwt, token) && newToken != token
    ensures !Presented(storage[Subject(jwt, token) := newToken], jwt, token)
  {
  }
}
