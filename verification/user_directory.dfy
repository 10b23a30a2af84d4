/** The user-service's UserService: users with unique usernames, looked up by id or username,
    deleted by id, and searched by a case-insensitive substring of the username. */
module UserDirectory {
  import opened Outcomes

  type Id = nat

  datatype User = User(id: Id, username: string, name: string, surname: string)

  /** Which lookup found nothing. */
  datatype Lookup = ById(id: Id) | ByUsername(username: string)

  /** UserAlreadyExistsException and UserNotFoundException. */
  datatype UserError = UserAlreadyExists(username: string) | UserNotFound(lookup: Lookup)

  /** ASCII case folding, as the derived query's ignore-case comparison applies it to letters A-Z. */
  function LowerChar(c: char): char {
    if 'A' <= c <= 'Z' then (c as int - 'A' as int + 'a' as int) as char else c
  }

  function Lower(s: string): (r: string)
    ensures |r| == |s|
    ensures forall i :: 0 <= i < |s| ==> r[i] == LowerChar(s[i])
    decreases |s|
  {
    if s == [] then [] else [LowerChar(s[0])] + Lower(s[1..])
  }

  /** Folding twice is folding once. */
  lemma {:induction false} LowerIdempotent(s: string)
    ensures Lower(Lower(s)) == Lower(s)
  {
    var once := Lower(s);
    var twice := Lower(once);
    assert |twice| == |once|;
    forall i | 0 <= i < |s| ensures twice[i] == once[i] {
      assert once[i] == LowerChar(s[i]);
    }
  }

  /** q occurs in s starting at index k. */
  predicate OccursAt(s: string, q: string, k: nat) {
    k + |q| <= |s| && s[k..k + |q|] == q
  }

  /** q occurs as a contiguous part of s. */
  predicate Contains(s: string, q: string) {
    exists k: nat | k <= |s| :: OccursAt(s, q, k)
  }

  predicate ContainsIgnoreCase(s: string, q: string) {
    Contains(Lower(s), Lower(q))
  }

  class UserService {
    /** The repository's rows by id, and the next id the database will generate. */
    var users: map<Id, User>
    var nextId: Id

    ghost predicate Valid()
      reads this
    {
      && (forall id :: id in users ==> id < nextId && users[id].id == id)
      && (forall a, b :: a in users && b in users && users[a].username == users[b].username ==> a == b)
    }

    constructor ()
      ensures Valid() && users == map[]
    {
      users := map[];
      nextId := 1;
    }

    function ExistsByUsername(username: string): (b: bool)
      reads this
      ensures b <==> exists u :: u in users.Values && u.username == username
    {
      exists id :: id in users && users[id].username == username
    }

    /** Refuse a taken username; otherwise store exactly one new user with the given fields. */
    method AddUser(username: string, name: string, surname: string) returns (r: Result<User, UserError>)
      requires Valid()
      modifies this
      ensures Valid()
      ensures r.Err? <==> old(ExistsByUsername(username))
      ensures r.Err? ==> r.error == UserAlreadyExists(username) && users == old(users) && nextId == old(nextId)
      ensures r.Ok? ==> && r.value.id !in old(users)
                        && r.value == User(r.value.id, username, name, surname)
                        && users == old(users)[r.value.id := r.value]
                        && GetUserByUsername(username) == Ok(r.value)
    {
      if ExistsByUsername(username) {
        return Err(UserAlreadyExists(username));
      }
      var user := User(nextId, username, name, surname);
      assert forall id :: id in users ==> users[id].username != username;
      users := users[nextId := user];
      nextId := nextId + 1;
      r := Ok(user);
      assert user.id in users && users[user.id].username == username;
      var found := GetUserByUsername(username);
      var k :| k in users && users[k] == found.value;
      assert k == user.id;
    }

    /** The user with that id, or UserNotFound. */
    function GetUserById(id: Id): (r: Result<User, UserError>)
      reads this
      ensures r.Ok? <==> id in users
      ensures r.Ok? ==> r.value == users[id]
      ensures r.Err? ==> r.error == UserNotFound(ById(id))
    {
      if id in users then Ok(users[id]) else Err(UserNotFound(ById(id)))
    }

    /** The user with that username, or UserNotFound; usernames being unique, there is at most one. */
    function GetUserByUsername(username: string): (r: Result<User, UserError>)
      reads this
      requires Valid()
      ensures r.Ok? <==> ExistsByUsername(username)
      ensures r.Ok? ==> r.value in users.Values && r.value.username == username
      ensures r.Err? ==> r.error == UserNotFound(ByUsername(username))
    {
      if ExistsByUsername(username) then
        var id :| id in users && users[id].username == username;
        Ok(users[id])
      else
        Err(UserNotFound(ByUsername(username)))
    }

    /** Remove the user with that id and no other; an absent id raises UserNotFound and changes nothing. */
    method DeleteUserById(id: Id) returns (r: Result<Unit, UserError>)
      requires Valid()
      modifies this
      ensures Valid() && nextId == old(nextId)
      ensures r.Ok? <==> id in old(users)
      ensures r.Err? ==> r.error == UserNotFound(ById(id)) && users == old(users)
      ensures r.Ok? ==> users == old(users) - {id}
      ensures GetUserById(id) == Err(UserNotFound(ById(id)))
    {
      if id !in users {
        return Err(UserNotFound(ById(id)));
      }
      users := users - {id};
      r := Ok(Unit);
    }

    /** The users whose username contains the query, ignoring case. */
    function SearchByUsername(query: string): (r: set<User>)
      reads this
      ensures r <= users.Values
      ensures forall u :: u in users.Values ==> (u in r <==> ContainsIgnoreCase(u.username, query))
    {
      set u | u in users.Values && ContainsIgnoreCase(u.username, query)
    }

    /** The search ignores the case of the query. */
    lemma SearchIgnoresQueryCase(query: string)
      ensures SearchByUsername(query) == SearchByUsername(Lower(query))
    {
      LowerIdempotent(query);
    }

    /** The empty query matches every user. */
    lemma EmptyQueryFindsEveryone()
      ensures SearchByUsername("") == users.Values
    {
      forall u | u in users.Values ensures ContainsIgnoreCase(u.username, "") {
        assert Lower("") == [];
        assert OccursAt(Lower(u.username), Lower(""), 0);
      }
    }
  }
}
