/**
 * The authentication middleware the task routes use: the token is the parsed
 * token cookie when it is non-empty, otherwise the second space-separated field
 * of the Authorization header, whatever its first field says. Verification, the
 * user lookup and the role gates are the ones in Session.
 */
module TaskRouterAuth {
  import opened Common
  import opened JsString
  import opened TaskModel
  import opened Session
  import opened AuthMiddleware

  /**
   * The token chosen from the cookie and the header, before it is verified: a
   * non-empty cookie wins; otherwise the header yields the text between its first
   * and second space, and nothing when it has no space.
   */
  function SelectToken(req: Request): (r: Option<string>)
    ensures Truthy(req.cookieToken) ==> r == req.cookieToken
    ensures !Truthy(req.cookieToken) && req.authorization.None? ==> r.None?
    ensures !Truthy(req.cookieToken) && req.authorization.Some? ==>
      (r.Some? <==> ' ' in req.authorization.value)
    ensures !Truthy(req.cookieToken) && req.authorization.Some? && r.Some? ==>
      IsSecondField(req.authorization.value, ' ', r.value)
  {
    if Truthy(req.cookieToken) then req.cookieToken
    else if req.authorization.Some? then
      SplitFieldCount(req.authorization.value, ' ');
      if ' ' in req.authorization.value then
        SecondField(req.authorization.value, ' ');
        Field(req.authorization.value, ' ', 1)
      else
        Field(req.authorization.value, ' ', 1)
    else None
  }

  /** authMiddleware of the task routes: next() with the user attached, or 401. */
  function TaskAuth(req: Request, verify: string -> Option<UserId>, users: map<UserId, User>): (o: AuthOutcome)
    ensures o == Unauthorized(NoToken) <==> !Truthy(SelectToken(req))
    ensures o.Authenticated? <==>
      Truthy(SelectToken(req)) && verify(SelectToken(req).value).Some? && verify(SelectToken(req).value).value in users
    ensures o.Authenticated? ==> o.user == users[verify(SelectToken(req).value).value]
  {
    Authenticate(SelectToken(req), verify, users)
  }

  /**
   * The two middlewares take opposite sides when a request carries both a
   * cookie and a Bearer header: the account routes use the header's token, the
   * task routes the cookie.
   */
  lemma PrecedenceReversed(req: Request, c: string, b: string)
    requires req.cookieToken == Some(c) && c != ""
    requires req.authorization == Some(BearerPrefix + b) && ' ' !in b
    ensures RequestToken(req) == Some(b)
    ensures SelectToken(req) == Some(c)
  {
    BearerHeaderWins(req, b);
  }

  /**
   * The task routes take the second field of any Authorization scheme: "Basic x"
   * yields x, where the account routes find no token at all.
   */
  lemma NoBearerCheck(req: Request, x: string)
    requires req == Request(Some("Basic " + x), None, None) && ' ' !in x
    ensures SelectToken(req) == Some(x)
    ensures RequestToken(req) == None
  {
    var h := "Basic " + x;
    assert h == "Basic" + [' '] + x;
    SplitAtFirst("Basic", x, ' ');
    SplitWithoutSeparator(x, ' ');
    assert !StartsWith(h, BearerPrefix) by {
      assert h[1] == 'a' && BearerPrefix[1] == 'e';
    }
  }

  /** With neither a non-empty cookie nor a header, the task routes answer 401 and next() is not called. */
  lemma NoTokenRefused(req: Request, verify: string -> Option<UserId>, users: map<UserId, User>)
    requires !Truthy(req.cookieToken) && req.authorization.None?
    ensures TaskAuth(req, verify, users) == Unauthorized(NoToken)
  {
  }
}
