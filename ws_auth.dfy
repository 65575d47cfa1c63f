/**
 * WebSocketAuthInterceptor.preSend: on a STOMP CONNECT frame, an `Authorization` header of the
 * form "Bearer <token>" (the bearer scheme of section 2.1 of RFC 6750, prefix matched
 * case-sensitively) whose token validates attaches the token's user to the message.
 *
 * Token validation and the user id a token carries are parameters: the token provider is not
 * part of this model.  Loading the user can throw (unknown id, or a user without a role when
 * its authorities are read); nothing catches that inside preSend, so it is the call's result.
 */
module WsAuth {
  import opened Wrappers
  import opened Text
  import opened Principals
  import opened UserStore

  datatype StompCommand =
    | Stomp | Connect | Disconnect | Subscribe | Unsubscribe | Send | Ack | Nack
    | Begin | Commit | Abort | Connected | Receipt | MessageFrame | ErrorFrame

  /** `new UsernamePasswordAuthenticationToken(userDetails, null, userDetails.getAuthorities())`. */
  datatype Authentication = Authentication(principal: UserPrincipal, credentials: Option<string>, authorities: seq<string>)

  const BearerPrefix := "Bearer "

  /**
   * `StringUtils.hasText(h) && h.startsWith("Bearer ")`, then `h.substring(7)`: the token of a
   * bearer header, none for anything else.
   */
  function BearerToken(header: Option<string>): (t: Option<string>)
    ensures t.Some? <==> header.Some? && HasText(header.value) && StartsWith(header.value, BearerPrefix)
    ensures t.Some? ==> header.value == BearerPrefix + t.value && t.value == header.value[7..]
  {
    if header.Some? && HasText(header.value) && StartsWith(header.value, BearerPrefix) then
      assert header.value == BearerPrefix + header.value[7..];
      Some(header.value[7..])
    else None
  }

  /** A header starting with the prefix always has text, so the `hasText` test only rules out null. */
  lemma PrefixImpliesText(header: string)
    requires StartsWith(header, BearerPrefix)
    ensures HasText(header)
  {
    assert !IsWhitespace(header[0]);
  }

  /** Whatever token is written after the prefix is the token read back. */
  lemma BearerRoundTrip(token: string)
    ensures BearerToken(Some(BearerPrefix + token)) == Some(token)
  {
    PrefixImpliesText(BearerPrefix + token);
  }

  /** The user a successful CONNECT carries: the principal of the token's user, with its authorities. */
  function Authenticate(users: UserRepo, userId: string): (r: Result<Authentication, string>)
    ensures r.Success? <==> userId in users && users[userId].role.Some?
    ensures r.Success? ==> r.value.principal == Create(users[userId]) && r.value.credentials == None &&
                           Create(users[userId]).Authorities() == Success(r.value.authorities)
    ensures userId !in users ==> r == Failure(NotFoundById(userId))
  {
    if userId !in users then Failure(NotFoundById(userId))
    else
      var details := Create(users[userId]);
      match details.Authorities()
      case Failure(e) => Failure(e)
      case Success(authorities) => Success(Authentication(details, None, authorities))
  }

  /**
   * What preSend does to the message's user: nothing (None), attach one (Some), or throw.
   * `validate` and `userIdOf` stand for the token provider's validateToken and getUserIdFromToken.
   */
  function Decision(command: Option<StompCommand>, header: Option<string>, validate: string -> bool,
                    userIdOf: string -> string, users: UserRepo): Result<Option<Authentication>, string>
  {
    if command != Some(Connect) then Success(None)
    else match BearerToken(header)
      case None => Success(None)
      case Some(jwt) =>
        if !validate(jwt) then Success(None)
        else
          match Authenticate(users, userIdOf(jwt))
          case Failure(e) => Failure(e)
          case Success(a) => Success(Some(a))
  }

  /**
   * A user is attached exactly on a CONNECT whose header has text, starts with "Bearer " and
   * carries a valid token, and then it is the user of the token `header[7..]`; any other
   * command, a missing header, a wrong prefix or an invalid token leave the message alone.
   */
  lemma DecisionMeaning(command: Option<StompCommand>, header: Option<string>, validate: string -> bool,
                        userIdOf: string -> string, users: UserRepo)
    ensures command != Some(Connect) ==> Decision(command, header, validate, userIdOf, users) == Success(None)
    ensures var d := Decision(command, header, validate, userIdOf, users);
      (d.Success? && d.value.Some?) || d.Failure? <==>
        command == Some(Connect) && header.Some? && HasText(header.value) &&
        StartsWith(header.value, BearerPrefix) && validate(header.value[7..])
    ensures var d := Decision(command, header, validate, userIdOf, users);
      d.Success? && d.value.Some? ==>
        var id := userIdOf(header.value[7..]);
        id in users && d.value.value.principal == Create(users[id])
    ensures header.None? || !StartsWith(header.value, BearerPrefix) ==>
      Decision(command, header, validate, userIdOf, users) == Success(None)
  {
  }

  /** A CONNECT carrying a valid bearer token of a stored user with a role authenticates that user. */
  lemma ValidTokenAuthenticates(token: string, validate: string -> bool, userIdOf: string -> string, users: UserRepo)
    requires validate(token) && userIdOf(token) in users && users[userIdOf(token)].role.Some?
    ensures var d := Decision(Some(Connect), Some(BearerPrefix + token), validate, userIdOf, users);
      d.Success? && d.value.Some? && d.value.value.principal == Create(users[userIdOf(token)])
  {
    BearerRoundTrip(token);
  }

  /** The STOMP header accessor of one inbound message: its command, its first Authorization header, its user. */
  class StompMessage {
    const command: Option<StompCommand>
    const authorization: Option<string>
    var user: Option<Authentication>

    constructor (command: Option<StompCommand>, authorization: Option<string>)
      ensures this.command == command && this.authorization == authorization && user == None
    {
      this.command := command;
      this.authorization := authorization;
      user := None;
    }
  }

  class WebSocketAuthInterceptor {
    const userService: UserService
    const validate: string -> bool
    const userIdOf: string -> string

    constructor (userService: UserService, validate: string -> bool, userIdOf: string -> string)
      ensures this.userService == userService && this.validate == validate && this.userIdOf == userIdOf
    {
      this.userService := userService;
      this.validate := validate;
      this.userIdOf := userIdOf;
    }

    /**
     * preSend: the message handed in is the message handed back, with the token's user attached
     * when Decision says so; a throwing user lookup is the call's result and attaches nobody.
     */
    method PreSend(message: StompMessage) returns (r: Result<StompMessage, string>)
      requires userService.Valid()
      modifies message
      ensures var d := Decision(message.command, message.authorization, validate, userIdOf, userService.users);
        (d.Success? ==> r == Success(message) && message.user == (if d.value.Some? then d.value else old(message.user))) &&
        (d.Failure? ==> r == Failure(d.error) && message.user == old(message.user))
    {
      if message.command == Some(Connect) {
        var authToken := message.authorization;
        if authToken.Some? && HasText(authToken.value) && StartsWith(authToken.value, BearerPrefix) {
          var jwt := authToken.value[7..];
          if validate(jwt) {
            var userId := userIdOf(jwt);
            var details := userService.LoadUserById(userId);
            if details.Failure? {
              return Failure(details.error);
            }
            var authorities := details.value.Authorities();
            if authorities.Failure? {
              return Failure(authorities.error);
            }
            message.user := Some(Authentication(details.value, None, authorities.value));
          }
        }
      }
      r := Success(message);
    }
  }
}
