/**
 * The user-facing views of a user: UserDto.fromUser (which leaves the password out) and the
 * LoginResponse that carries a token and a UserDto.
 */
module UserDtos {
  import opened Wrappers
  import opened Candidates
  import opened Users

  /** The DTO has no password field at all. */
  datatype UserDto = UserDto(
    id: Option<string>,
    email: Option<string>,
    firstName: Option<string>,
    lastName: Option<string>,
    role: Option<UserRole>,
    isActive: bool)
  {
    /** `UserDto.getFullName`. */
    function FullName(): string {
      Candidates.FullName(firstName, lastName)
    }
  }

  /** `UserDto.fromUser`: identity, names, role and active flag copied. */
  function FromUser(u: User): (d: UserDto)
    ensures d.id == u.id && d.email == u.email && d.firstName == u.firstName && d.lastName == u.lastName
    ensures d.role == u.role && d.isActive == u.isActive
  {
    UserDto(u.id, u.email, u.firstName, u.lastName, u.role, u.isActive)
  }

  /**
   * The DTO does not depend on the password, nor on the timestamps: two users that differ
   * only there give the same DTO, so nothing of the password can be read back from it.
   */
  lemma FromUserHidesPassword(u: User, password: Option<string>, createdAt: Time, lastLogin: Option<Time>)
    ensures FromUser(u.(password := password, createdAt := createdAt, lastLogin := lastLogin)) == FromUser(u)
  {
  }

  /** What the DTO shows identifies the user up to the password and the timestamps. */
  lemma FromUserDeterminesRest(a: User, b: User)
    requires FromUser(a) == FromUser(b)
    ensures a.(password := b.password, createdAt := b.createdAt, lastLogin := b.lastLogin) == b
  {
  }

  /** The DTO's full name is the user's. */
  lemma FromUserFullName(u: User)
    ensures FromUser(u).FullName() == u.FullName()
    ensures FromUser(u).FullName() == JavaString(u.firstName) + " " + JavaString(u.lastName)
  {
  }

  /** The reply of a successful login: the token, its type, and the user. */
  datatype LoginResponse = LoginResponse(token: Option<string>, tokenType: Option<string>, user: Option<UserDto>)

  /** `new LoginResponse(token, user)`: the type keeps its "Bearer" initialiser. */
  function NewLoginResponse(token: Option<string>, user: Option<UserDto>): (r: LoginResponse)
    ensures r.token == token && r.user == user && r.tokenType == Some("Bearer")
  {
    LoginResponse(token, Some("Bearer"), user)
  }
}
