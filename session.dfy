/**
 * What both authentication middlewares share once a token has been chosen:
 * verifying it, looking the user up, and the role gates that guard the routes.
 * Token verification and the user collection are supplied from outside: verify
 * stands for jwt.verify with the server's secret (None when it throws) and users
 * for the user collection keyed by id.
 */
module Session {
  import opened Common
  import opened JsString
  import opened TaskModel

  /** The acting user as the controllers see it: its id and its role string. */
  datatype User = User(id: UserId, role: string)

  const CreatorRole: string := "creator"
  const ExecutorRole: string := "executor"

  datatype AuthFailure = NoToken | InvalidToken | UserNotFound

  /** Either next() is called with the user attached to the request, or the request is answered 401. */
  datatype AuthOutcome = Authenticated(user: User) | Unauthorized(reason: AuthFailure)

  /**
   * After token selection: a missing or empty token is refused first, then a token
   * that does not verify, then a verified token whose user no longer exists.
   */
  function Authenticate(token: Option<string>, verify: string -> Option<UserId>, users: map<UserId, User>): (o: AuthOutcome)
    ensures o == Unauthorized(NoToken) <==> !Truthy(token)
    ensures o == Unauthorized(InvalidToken) <==> Truthy(token) && verify(token.value).None?
    ensures o == Unauthorized(UserNotFound) <==> Truthy(token) && verify(token.value).Some? && verify(token.value).value !in users
    ensures o.Authenticated? <==> Truthy(token) && verify(token.value).Some? && verify(token.value).value in users
    ensures o.Authenticated? ==> o.user == users[verify(token.value).value]
  {
    if !Truthy(token) then Unauthorized(NoToken)
    else match verify(token.value)
      case None => Unauthorized(InvalidToken)
      case Some(id) => if id in users then Authenticated(users[id]) else Unauthorized(UserNotFound)
  }

  /** creatorMiddleware: next() for a present user whose role is creator, 403 otherwise. */
  predicate CreatorGate(user: Option<User>) {
    user.Some? && user.value.role == CreatorRole
  }

  /** executorMiddleware: next() for a present user whose role is executor, 403 otherwise. */
  predicate ExecutorGate(user: Option<User>) {
    user.Some? && user.value.role == ExecutorRole
  }

  /**
   * The gates pass exactly a present user with the named role; no user passes
   * both, and a request without a user passes neither.
   */
  lemma RoleGates(user: Option<User>)
    ensures CreatorGate(user) <==> user.Some? && user.value.role == "creator"
    ensures ExecutorGate(user) <==> user.Some? && user.value.role == "executor"
    ensures !(CreatorGate(user) && ExecutorGate(user))
    ensures user.None? ==> !CreatorGate(user) && !ExecutorGate(user)
  {
  }
}
