/** The user store behind AuthService (AuthUserService over AuthRepository), generic in the
    role type so that it serves both the auth-service and the user-service. */
module AuthUsers {
  import opened Outcomes
  import opened Jwt

  /** A user account: login, encoded password, names, e-mail and role set. */
  datatype Account<R> = Account(login: Login, password: string, firstName: string, lastName: string,
                                email: string, roles: set<R>)

  /** The account after its role set gains one role. */
  function WithRole<R>(user: Account<R>, role: R): (r: Account<R>)
    ensures r.roles == user.roles + {role}
    ensures r.(roles := user.roles) == user
  {
    user.(roles := user.roles + {role})
  }

  /** Adding a role keeps every role held before and adds exactly that one. */
  lemma {:induction false} WithRoleKeepsExistingRoles<R>(user: Account<R>, role: R)
    ensures user.roles <= WithRole(user, role).roles
    ensures role in WithRole(user, role).roles
    ensures WithRole(user, role).roles - user.roles <= {role}
  {
  }

  /** Adding a role already held changes nothing. */
  lemma WithRoleIdempotent<R>(user: Account<R>, role: R)
    requires role in user.roles
    ensures WithRole(user, role) == user
  {
    assert user.roles + {role} == user.roles;
  }

  class AuthUserService<R(==)> {
    /** The repository's rows, keyed by login. */
    var users: map<Login, Account<R>>

    ghost predicate Valid()
      reads this
    {
      forall login :: login in users ==> users[login].login == login
    }

    constructor ()
      ensures Valid() && users == map[]
    {
      users := map[];
    }

    /** The user with that login, or nothing when no stored user has it. */
    function GetByLogin(login: Login): (r: Option<Account<R>>)
      reads this
      requires Valid()
      ensures r.None? <==> forall u :: u in users.Values ==> u.login != login
      ensures r.Some? ==> r.value in users.Values && r.value.login == login
    {
      if login in users then Some(users[login]) else None
    }

    /** True exactly when some stored user has the login or some stored user has the e-mail. */
    function CheckExistedUser(login: Login, email: string): (b: bool)
      reads this
      requires Valid()
      ensures b <==> exists u :: u in users.Values && (u.login == login || u.email == email)
    {
      login in users || exists l :: l in users && users[l].email == email
    }

    /** Save a user; afterwards the lookup by its login finds it. */
    method SaveNewUser(user: Account<R>)
      requires Valid()
      modifies this
      ensures Valid()
      ensures users == old(users)[user.login := user]
      ensures GetByLogin(user.login) == Some(user)
    {
      users := users[user.login := user];
    }

    /** Add a role to the user's role set and save the user. */
    method AddNewRole(user: Account<R>, role: R)
      requires Valid()
      modifies this
      ensures Valid()
      ensures users == old(users)[user.login := WithRole(user, role)]
      ensures GetByLogin(user.login) == Some(WithRole(user, role))
    {
      users := users[user.login := WithRole(user, role)];
    }
  }
}
