/**
 * The user document (model/User.java) and the registration body that creates one.  Fields
 * that Java can see as null are `Option`s; the two timestamps are integers like the
 * candidate's.
 */
module Users {
  import opened Wrappers
  import opened Candidates

  datatype UserRole = RoleUser | RoleAdmin

  /** `UserRole.name()`. */
  function RoleName(role: UserRole): (r: string)
    ensures r == "USER" || r == "ADMIN"
  {
    match role
    case RoleUser => "USER"
    case RoleAdmin => "ADMIN"
  }

  /** Distinct roles have distinct names. */
  lemma RoleNameInjective(a: UserRole, b: UserRole)
    requires RoleName(a) == RoleName(b)
    ensures a == b
  {
  }

  datatype User = User(
    id: Option<string>,
    email: Option<string>,
    password: Option<string>,
    firstName: Option<string>,
    lastName: Option<string>,
    role: Option<UserRole>,
    isActive: bool,
    createdAt: Time,
    lastLogin: Option<Time>)
  {
    /** `User.getFullName`. */
    function FullName(): string {
      Candidates.FullName(firstName, lastName)
    }
  }

  /** `new User()` at time `now`: role USER, active, created `now`, never logged in. */
  function NewUser(now: Time): (u: User)
    ensures u.role == Some(RoleUser) && u.isActive && u.createdAt == now && u.lastLogin == None
    ensures u.id == None && u.email == None && u.password == None && u.firstName == None && u.lastName == None
  {
    User(None, None, None, None, None, Some(RoleUser), true, now, None)
  }

  /** The registration body: four strings, any of which may be null. */
  datatype RegisterRequest = RegisterRequest(
    email: Option<string>,
    password: Option<string>,
    firstName: Option<string>,
    lastName: Option<string>)
}
