/**
 * UserPrincipal: the Spring Security view of a user.  `getAuthorities` dereferences the role,
 * so a user stored without one makes it throw NullPointerException.
 */
module Principals {
  import opened Wrappers
  import opened Users

  const NullPointer := "NullPointerException"
  const RolePrefix := "ROLE_"

  datatype UserPrincipal = UserPrincipal(
    id: Option<string>,
    email: Option<string>,
    password: Option<string>,
    role: Option<UserRole>,
    isActive: bool)
  {
    /** `getAuthorities`: a single authority named after the role. */
    function Authorities(): (r: Result<seq<string>, string>)
      ensures r.Failure? <==> role.None?
      ensures r.Success? ==> |r.value| == 1 && RolePrefix <= r.value[0] && r.value[0][|RolePrefix|..] == RoleName(role.value)
    {
      match role
      case None => Failure(NullPointer)
      case Some(r) => Success([RolePrefix + RoleName(r)])
    }

    /** `getUsername`: the login name is the email. */
    function Username(): Option<string> {
      email
    }

    function IsAccountNonExpired(): bool {
      true
    }

    function IsAccountNonLocked(): bool {
      true
    }

    function IsCredentialsNonExpired(): bool {
      true
    }

    /** `isEnabled`: an inactive user cannot log in. */
    function IsEnabled(): bool {
      isActive
    }
  }

  /** `UserPrincipal.create`: id, email, password, role and active flag of the user. */
  function Create(u: User): (p: UserPrincipal)
    ensures p.id == u.id && p.email == u.email && p.password == u.password
    ensures p.role == u.role && p.isActive == u.isActive
  {
    UserPrincipal(u.id, u.email, u.password, u.role, u.isActive)
  }

  /**
   * What Spring Security reads off a principal built from a user: the user's email as login
   * name, enabled exactly when active, never expired or locked, and one authority
   * "ROLE_USER" or "ROLE_ADMIN" matching the role.
   */
  lemma PrincipalOfUser(u: User)
    ensures Create(u).Username() == u.email
    ensures Create(u).IsEnabled() <==> u.isActive
    ensures Create(u).IsAccountNonExpired() && Create(u).IsAccountNonLocked() && Create(u).IsCredentialsNonExpired()
    ensures u.role == Some(RoleUser) ==> Create(u).Authorities() == Success(["ROLE_USER"])
    ensures u.role == Some(RoleAdmin) ==> Create(u).Authorities() == Success(["ROLE_ADMIN"])
    ensures u.role.None? ==> Create(u).Authorities() == Failure(NullPointer)
  {
    assert RolePrefix + "USER" == "ROLE_USER";
    assert RolePrefix + "ADMIN" == "ROLE_ADMIN";
  }

  /** The authority names the role exactly: two principals with the same authorities have the same role. */
  lemma AuthoritiesDetermineRole(p: UserPrincipal, q: UserPrincipal)
    requires p.Authorities().Success? && p.Authorities() == q.Authorities()
    ensures p.role == q.role
  {
    var a := p.Authorities().value[0];
    assert a[|RolePrefix|..] == RoleName(p.role.value);
    assert a[|RolePrefix|..] == RoleName(q.role.value);
    RoleNameInjective(p.role.value, q.role.value);
  }
}
