/**
 * UserService over its repository.  The repository is a map from document id to user;
 * existsByEmail looks at every user, findByEmailAndIsActiveTrue only at active ones, and
 * `save` files a user under its id.  The password encoder is a function parameter.  Every
 * mutating operation is specified by a pure function of the repository before the call.
 */
module UserStore {
  import opened Wrappers
  import opened Candidates
  import opened Users
  import opened UserDtos
  import opened Principals

  type UserRepo = map<string, User>

  /** Each document carries its own id, and no two users share an email (the unique index on `email`). */
  predicate ValidUsers(users: UserRepo) {
    (forall id :: id in users ==> users[id].id == Some(id)) &&
    (forall a, b :: a in users && b in users && a != b ==> users[a].email != users[b].email)
  }

  /** `existsByEmail(email)`: active or not. */
  predicate EmailTaken(users: UserRepo, email: Option<string>) {
    exists id :: id in users && users[id].email == email
  }

  /** `findByEmailAndIsActiveTrue(email)` finds someone. */
  predicate ActiveWithEmail(users: UserRepo, email: Option<string>) {
    exists id :: id in users && users[id].email == email && users[id].isActive
  }

  const EmailAlreadyTaken := "Email is already taken!"

  function NotFoundByEmail(email: Option<string>): string {
    "User not found with email: " + JavaString(email)
  }

  function NotFoundById(id: string): string {
    "User not found with id: " + id
  }

  /**
   * createUser: refused when any user, active or not, has the email; otherwise a new user
   * with the request's email and names, the encoder's output as password, role USER, active,
   * created `now`.
   */
  function CreateUserSpec(users: UserRepo, req: RegisterRequest, newId: string, now: Time,
                          encode: Option<string> -> string): Result<User, string> {
    if EmailTaken(users, req.email) then Failure(EmailAlreadyTaken)
    else
      Success(NewUser(now).(id := Some(newId), email := req.email, password := Some(encode(req.password)),
                            firstName := req.firstName, lastName := req.lastName, role := Some(RoleUser),
                            isActive := true, createdAt := now))
  }

  /** promoteToAdmin: the user's role becomes ADMIN; an unknown id is refused. */
  function PromoteSpec(users: UserRepo, id: string): Result<User, string> {
    if id !in users then Failure(NotFoundById(id)) else Success(users[id].(role := Some(RoleAdmin)))
  }

  /** updateLastLogin: the user's last login becomes `now`; an unknown id changes nothing. */
  function LastLoginSpec(users: UserRepo, id: string, now: Time): UserRepo {
    if id !in users then users else users[id := users[id].(lastLogin := Some(now))]
  }

  /** The repository after an operation that saves on success. */
  function SaveIf(users: UserRepo, id: string, spec: Result<User, string>): UserRepo {
    if spec.Success? then users[id := spec.value] else users
  }

  /**
   * Registration fails iff the email is taken by any user; a registered user has the
   * request's email and names, the encoded password, role USER, is active and has never
   * logged in.
   */
  lemma CreateUserSpecMeaning(users: UserRepo, req: RegisterRequest, newId: string, now: Time,
                              encode: Option<string> -> string)
    ensures CreateUserSpec(users, req, newId, now, encode).Failure? <==> EmailTaken(users, req.email)
    ensures var r := CreateUserSpec(users, req, newId, now, encode);
      r.Success? ==>
        r.value.id == Some(newId) && r.value.email == req.email &&
        r.value.firstName == req.firstName && r.value.lastName == req.lastName &&
        r.value.password == Some(encode(req.password)) &&
        r.value.role == Some(RoleUser) && r.value.isActive && r.value.createdAt == now && r.value.lastLogin == None
  {
  }

  /** Registration keeps ids and emails consistent. */
  lemma CreateKeepsValid(users: UserRepo, req: RegisterRequest, newId: string, now: Time,
                         encode: Option<string> -> string)
    requires ValidUsers(users) && newId !in users
    ensures ValidUsers(SaveIf(users, newId, CreateUserSpec(users, req, newId, now, encode)))
  {
  }

  /**
   * A user just registered can log in by email: loadUserByUsername finds exactly that user,
   * enabled and with the single authority ROLE_USER.
   */
  lemma RegisteredUserCanLogIn(users: UserRepo, req: RegisterRequest, newId: string, now: Time,
                               encode: Option<string> -> string)
    requires ValidUsers(users) && newId !in users
    requires CreateUserSpec(users, req, newId, now, encode).Success?
    ensures var u := CreateUserSpec(users, req, newId, now, encode).value;
      var after := users[newId := u];
      ActiveWithEmail(after, req.email) &&
      (forall id :: id in after && after[id].email == req.email ==> id == newId) &&
      Create(u).IsEnabled() && Create(u).Authorities() == Success(["ROLE_USER"]) && Create(u).Username() == req.email
  {
    var u := CreateUserSpec(users, req, newId, now, encode).value;
    var after := users[newId := u];
    assert u.email == req.email && u.isActive;
    assert newId in after && after[newId].email == req.email && after[newId].isActive;
    assert u.role == Some(RoleUser);
    PrincipalOfUser(u);
  }

  /** Promotion refuses an unknown id and otherwise changes the role to ADMIN and nothing else. */
  lemma PromoteSpecMeaning(users: UserRepo, id: string)
    ensures PromoteSpec(users, id).Failure? <==> id !in users
    ensures PromoteSpec(users, id).Success? ==>
      var u := PromoteSpec(users, id).value;
      u.role == Some(RoleAdmin) && u.(role := users[id].role) == users[id]
  {
  }

  /** Promoting twice is promoting once. */
  lemma PromoteIdempotent(users: UserRepo, id: string)
    requires id in users
    ensures var once := SaveIf(users, id, PromoteSpec(users, id));
      SaveIf(once, id, PromoteSpec(once, id)) == once
  {
  }

  /** A promoted user's principal carries the single authority ROLE_ADMIN. */
  lemma PromotedIsAdmin(users: UserRepo, id: string)
    requires id in users
    ensures Create(PromoteSpec(users, id).value).Authorities() == Success(["ROLE_ADMIN"])
  {
    PrincipalOfUser(PromoteSpec(users, id).value);
  }

  /** So do promotion and the login stamp. */
  lemma PromoteKeepsValid(users: UserRepo, id: string)
    requires ValidUsers(users)
    ensures ValidUsers(SaveIf(users, id, PromoteSpec(users, id)))
  {
  }

  /** updateLastLogin leaves an unknown id's repository alone and otherwise changes only `lastLogin`. */
  lemma LastLoginMeaning(users: UserRepo, id: string, now: Time)
    ensures id !in users ==> LastLoginSpec(users, id, now) == users
    ensures id in users ==>
      var after := LastLoginSpec(users, id, now);
      after.Keys == users.Keys && after[id].lastLogin == Some(now) &&
      after[id].(lastLogin := users[id].lastLogin) == users[id] &&
      forall other :: other in users && other != id ==> after[other] == users[other]
  {
  }

  lemma LastLoginKeepsValid(users: UserRepo, id: string, now: Time)
    requires ValidUsers(users)
    ensures ValidUsers(LastLoginSpec(users, id, now))
  {
  }

  class UserService {
    var users: UserRepo

    predicate Valid()
      reads this
    {
      ValidUsers(users)
    }

    constructor ()
      ensures Valid() && users == map[]
    {
      users := map[];
    }

    /** findByEmail: the active user with that email, if there is one; inactive users are never returned. */
    method FindByEmail(email: Option<string>) returns (r: Option<User>)
      requires Valid()
      ensures r.Some? <==> ActiveWithEmail(users, email)
      ensures r.Some? ==> r.value.email == email && r.value.isActive && r.value in users.Values
    {
      if ActiveWithEmail(users, email) {
        var id :| id in users && users[id].email == email && users[id].isActive;
        r := Some(users[id]);
      } else {
        r := None;
      }
    }

    /** loadUserByUsername: the principal of the active user with that email, or UsernameNotFoundException. */
    method LoadUserByUsername(email: Option<string>) returns (r: Result<UserPrincipal, string>)
      requires Valid()
      ensures r.Success? <==> ActiveWithEmail(users, email)
      ensures r.Success? ==> r.value.Username() == email && r.value.IsEnabled() &&
                             exists id :: id in users && r.value == Create(users[id])
      ensures r.Failure? ==> r.error == NotFoundByEmail(email)
    {
      var found := FindByEmail(email);
      if found.None? {
        return Failure(NotFoundByEmail(email));
      }
      r := Success(Create(found.value));
    }

    /** loadUserById: the principal of the user filed under `id`, active or not. */
    method LoadUserById(id: string) returns (r: Result<UserPrincipal, string>)
      requires Valid()
      ensures r.Success? <==> id in users
      ensures r.Success? ==> r.value == Create(users[id]) && r.value.id == Some(id)
      ensures r.Failure? ==> r.error == NotFoundById(id)
    {
      if id !in users {
        return Failure(NotFoundById(id));
      }
      r := Success(Create(users[id]));
    }

    /** getUserById: the DTO of the user filed under `id`. */
    method GetUserById(id: string) returns (r: Result<UserDto, string>)
      requires Valid()
      ensures r.Success? <==> id in users
      ensures r.Success? ==> r.value == FromUser(users[id]) && r.value.id == Some(id)
      ensures r.Failure? ==> r.error == NotFoundById(id)
    {
      if id !in users {
        return Failure(NotFoundById(id));
      }
      r := Success(FromUser(users[id]));
    }

    /** createUser; `newId` is the id the repository assigns on save. */
    method CreateUser(req: RegisterRequest, newId: string, now: Time, encode: Option<string> -> string)
      returns (r: Result<UserDto, string>)
      requires Valid() && newId !in users
      modifies this
      ensures Valid()
      ensures var spec := CreateUserSpec(old(users), req, newId, now, encode);
        users == SaveIf(old(users), newId, spec) &&
        (spec.Success? ==> r == Success(FromUser(spec.value))) &&
        (spec.Failure? ==> r == Failure(spec.error))
    {
      if EmailTaken(users, req.email) {
        return Failure(EmailAlreadyTaken);
      }
      var user := NewUser(now);
      user := user.(email := req.email);
      user := user.(password := Some(encode(req.password)));
      user := user.(firstName := req.firstName, lastName := req.lastName);
      user := user.(role := Some(RoleUser), isActive := true, createdAt := now);
      user := user.(id := Some(newId));
      users := users[newId := user];
      r := Success(FromUser(user));
    }

    /** updateLastLogin. */
    method UpdateLastLogin(id: string, now: Time)
      requires Valid()
      modifies this
      ensures Valid()
      ensures users == LastLoginSpec(old(users), id, now)
    {
      if id in users {
        var user := users[id];
        user := user.(lastLogin := Some(now));
        users := users[id := user];
      }
    }

    /** promoteToAdmin. */
    method PromoteToAdmin(id: string) returns (r: Result<UserDto, string>)
      requires Valid()
      modifies this
      ensures Valid()
      ensures var spec := PromoteSpec(old(users), id);
        users == SaveIf(old(users), id, spec) &&
        (spec.Success? ==> r == Success(FromUser(spec.value))) &&
        (spec.Failure? ==> r == Failure(spec.error))
    {
      if id !in users {
        return Failure(NotFoundById(id));
      }
      var user := users[id];
      user := user.(role := Some(RoleAdmin));
      users := users[id := user];
      r := Success(FromUser(user));
    }
  }
}
