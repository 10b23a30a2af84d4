/** The auth-service's AuthService: login, registration, logout and token refresh over the
    in-memory refresh-token store. */
module AuthServiceTokens {
  import opened Outcomes
  import opened Jwt
  import opened AuthUsers

  datatype Role = VIEWER | ADMIN | REDACTOR | LEAD

  type AuthUser = Account<Role>

  /** AuthException and RegisterException, with their messages. */
  datatype AuthError = AuthException(message: string) | RegisterException(message: string)

  const UserNotFoundMessage: string := "User was not found"
  const WrongPasswordMessage: string := "Password is wrong"
  const InvalidJwtMessage: string := "JWT was not valid"

  class AuthService {
    /** Login to the refresh token currently accepted for it. */
    var refreshStorage: map<Login, Token>
    const authUserService: AuthUserService<Role>
    const jwtProvider: JwtProvider
    const passwordEncoder: PasswordEncoder

    constructor (authUserService: AuthUserService<Role>, jwtProvider: JwtProvider, passwordEncoder: PasswordEncoder)
      ensures refreshStorage == map[]
      ensures this.authUserService == authUserService && this.jwtProvider == jwtProvider
      ensures this.passwordEncoder == passwordEncoder
    {
      refreshStorage := map[];
      this.authUserService := authUserService;
      this.jwtProvider := jwtProvider;
      this.passwordEncoder := passwordEncoder;
    }

    /** The user with that login, or AuthException when there is none. */
    function GetUser(login: Login): (r: Result<AuthUser, AuthError>)
      reads authUserService
      requires authUserService.Valid()
      ensures r.Err? <==> forall u :: u in authUserService.users.Values ==> u.login != login
      ensures r.Err? ==> r.error == AuthException(UserNotFoundMessage)
      ensures r.Ok? ==> r.value in authUserService.users.Values && r.value.login == login
    {
      match authUserService.GetByLogin(login)
      case Some(user) => Ok(user)
      case None => Err(AuthException(UserNotFoundMessage))
    }

    /** On a matching password, store the freshly issued refresh token under the login and
        return both tokens; otherwise raise and leave the store as it was. */
    method Login(login: Login, password: string, issued: IssuedTokens) returns (r: Result<JwtResponse, AuthError>)
      requires authUserService.Valid()
      modifies this
      ensures old(GetUser(login)).Err? ==> r == Err(old(GetUser(login)).error) && refreshStorage == old(refreshStorage)
      ensures old(GetUser(login)).Ok? && !passwordEncoder.matches(password, old(GetUser(login)).value.password) ==>
                r == Err(AuthException(WrongPasswordMessage)) && refreshStorage == old(refreshStorage)
      ensures old(GetUser(login)).Ok? && passwordEncoder.matches(password, old(GetUser(login)).value.password) ==>
                && r == Ok(JwtResponse(Some(issued.accessToken), Some(issued.refreshToken)))
                && refreshStorage == old(refreshStorage)[login := issued.refreshToken]
    {
      var user := GetUser(login);
      if user.Err? {
        return Err(user.error);
      }
      if passwordEncoder.matches(password, user.value.password) {
        refreshStorage := refreshStorage[user.value.login := issued.refreshToken];
        r := Ok(JwtResponse(Some(issued.accessToken), Some(issued.refreshToken)));
      } else {
        r := Err(AuthException(WrongPasswordMessage));
      }
    }

    /** Refuse an existing login or e-mail; otherwise save a VIEWER with the encoded password and
        store its refresh token. */
    method Register(login: Login, password: string, email: string, firstName: string, lastName: string,
                    issued: IssuedTokens)
      returns (r: Result<JwtResponse, AuthError>)
      requires authUserService.Valid()
      modifies this, authUserService
      ensures authUserService.Valid()
      ensures old(authUserService.CheckExistedUser(login, email)) ==>
                && r == Err(RegisterException("User with login: " + login + " already exists"))
                && refreshStorage == old(refreshStorage)
                && authUserService.users == old(authUserService.users)
      ensures !old(authUserService.CheckExistedUser(login, email)) ==>
                && r == Ok(JwtResponse(Some(issued.accessToken), Some(issued.refreshToken)))
                && authUserService.users == old(authUserService.users)[login :=
                     Account(login, passwordEncoder.encode(password), firstName, lastName, email, {VIEWER})]
                && refreshStorage == old(refreshStorage)[login := issued.refreshToken]
    {
      if authUserService.CheckExistedUser(login, email) {
        return Err(RegisterException("User with login: " + login + " already exists"));
      }
      var user := Account(login, passwordEncoder.encode(password), firstName, lastName, email, {VIEWER});
      authUserService.SaveNewUser(user);
      refreshStorage := refreshStorage[user.login := issued.refreshToken];
      r := Ok(JwtResponse(Some(issued.accessToken), Some(issued.refreshToken)));
    }

    /** Drop the login's entry only when the token validates and is the stored one; the answer
        is always a pair of nulls. */
    method Logout(refreshToken: Token) returns (r: JwtResponse)
      modifies this
      ensures r == JwtResponse(None, None)
      ensures refreshStorage == AfterLogout(old(refreshStorage), jwtProvider, refreshToken)
    {
      if jwtProvider.validateRefreshToken(refreshToken) {
        var login := jwtProvider.getRefreshClaims(refreshToken).subject;
        if login in refreshStorage && refreshStorage[login] == refreshToken {
          refreshStorage := refreshStorage - {login};
        }
      }
      r := JwtResponse(None, None);
    }

    /** A new access token for a presented refresh token, else a pair of nulls; the store is only read. */
    method GetAccessToken(refreshToken: Token, issuedAccessToken: Token) returns (r: Result<JwtResponse, AuthError>)
      requires authUserService.Valid()
      ensures r.Ok? ==> r.value.refreshToken.None?
      ensures (r.Ok? && r.value.accessToken.Some?) <==>
                Presented(refreshStorage, jwtProvider, refreshToken)
                && GetUser(Subject(jwtProvider, refreshToken)).Ok?
      ensures r.Ok? && r.value.accessToken.Some? ==> r.value.accessToken == Some(issuedAccessToken)
      ensures !Presented(refreshStorage, jwtProvider, refreshToken) ==> r == Ok(JwtResponse(None, None))
      ensures r.Err? ==> Presented(refreshStorage, jwtProvider, refreshToken)
                         && r == Err(GetUser(Subject(jwtProvider, refreshToken)).error)
    {
      if jwtProvider.validateRefreshToken(refreshToken) {
        var login := jwtProvider.getRefreshClaims(refreshToken).subject;
        if login in refreshStorage && refreshStorage[login] == refreshToken {
          var user := GetUser(login);
          if user.Err? {
            return Err(user.error);
          }
          return Ok(JwtResponse(Some(issuedAccessToken), None));
        }
      }
      r := Ok(JwtResponse(None, None));
    }

    /** For a presented refresh token, issue a new pair and rotate the stored token for that login
        only; otherwise raise AuthException and leave the store as it was. */
    method Refresh(refreshToken: Token, issued: IssuedTokens) returns (r: Result<JwtResponse, AuthError>)
      requires authUserService.Valid()
      modifies this
      ensures !old(Presented(refreshStorage, jwtProvider, refreshToken)) ==>
                r == Err(AuthException(InvalidJwtMessage)) && refreshStorage == old(refreshStorage)
      ensures old(Presented(refreshStorage, jwtProvider, refreshToken)) && GetUser(Subject(jwtProvider, refreshToken)).Err? ==>
                r == Err(GetUser(Subject(jwtProvider, refreshToken)).error) && refreshStorage == old(refreshStorage)
      ensures r.Ok? <==> old(Presented(refreshStorage, jwtProvider, refreshToken))
                         && GetUser(Subject(jwtProvider, refreshToken)).Ok?
      ensures r.Ok? ==> && r.value == JwtResponse(Some(issued.accessToken), Some(issued.refreshToken))
                        && refreshStorage == old(refreshStorage)[Subject(jwtProvider, refreshToken) := issued.refreshToken]
    {
      if jwtProvider.validateRefreshToken(refreshToken) {
        var login := jwtProvider.getRefreshClaims(refreshToken).subject;
        if login in refreshStorage && refreshStorage[login] == refreshToken {
          var user := GetUser(login);
          if user.Err? {
            return Err(user.error);
          }
          refreshStorage := refreshStorage[user.value.login := issued.refreshToken];
          return Ok(JwtResponse(Some(issued.accessToken), Some(issued.refreshToken)));
        }
      }
      r := Err(AuthException(InvalidJwtMessage));
    }

    /** Give the user with that login one more role; an unknown login raises AuthException. */
    method AddRoleToUser(login: Login, role: Role) returns (r: Result<Unit, AuthError>)
      requires authUserService.Valid()
      modifies authUserService
      ensures authUserService.Valid()
      ensures r == Ok(Unit) <==> old(GetUser(login)).Ok?
      ensures r.Err? ==> r == Err(old(GetUser(login)).error) && authUserService.users == old(authUserService.users)
      ensures old(GetUser(login)).Ok? ==>
                authUserService.users == old(authUserService.users)[login := WithRole(old(GetUser(login)).value, role)]
    {
      var user := GetUser(login);
      if user.Err? {
        return Err(user.error);
      }
      authUserService.AddNewRole(user.value, role);
      r := Ok(Unit);
    }
  }
}
