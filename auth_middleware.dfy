/**
 * The authentication middleware used by the account routes: the token comes
 * from a Bearer Authorization header, else from the parsed token cookie, else
 * from a scan of the raw Cookie header; then it is verified and its user looked
 * up.
 */
module AuthMiddleware {
  import opened Common
  import opened JsString
  import opened TaskModel
  import opened Session

  /**
   * The parts of a request the middleware reads: the Authorization header, the
   * token cookie as the cookie parser decoded it, and the raw Cookie header.
   */
  datatype Request = Request(authorization: Option<string>, cookieToken: Option<string>, cookieHeader: Option<string>)

  const BearerPrefix: string := "Bearer "
  const TokenPrefix: string := "token="

  /** The raw Cookie header split on ';' with each entry trimmed. */
  function CookieEntries(header: string): (r: seq<string>)
    ensures |r| == |Split(header, ';')|
    ensures forall i :: 0 <= i < |r| ==> r[i] == Trim(Split(header, ';')[i])
  {
    var parts := Split(header, ';');
    seq(|parts|, i requires 0 <= i < |parts| => Trim(parts[i]))
  }

  /** The position of the first entry that starts with "token=", or |entries| when none does. */
  function FirstTokenEntry(entries: seq<string>): (k: nat)
    ensures k <= |entries|
    ensures forall j :: 0 <= j < k ==> !StartsWith(entries[j], TokenPrefix)
    ensures k < |entries| ==> StartsWith(entries[k], TokenPrefix)
    decreases |entries|
  {
    if entries == [] then 0
    else if StartsWith(entries[0], TokenPrefix) then 0
    else 1 + FirstTokenEntry(entries[1..])
  }

  lemma FirstTokenEntryAt(entries: seq<string>, k: nat)
    requires k <= |entries|
    requires forall j :: 0 <= j < k ==> !StartsWith(entries[j], TokenPrefix)
    requires k < |entries| ==> StartsWith(entries[k], TokenPrefix)
    ensures FirstTokenEntry(entries) == k
  {
  }

  /** The value of the first "token=" entry; later entries with the same name are ignored. */
  function FirstTokenCookie(entries: seq<string>): (r: Option<string>)
    ensures r.None? <==> forall j :: 0 <= j < |entries| ==> !StartsWith(entries[j], TokenPrefix)
    ensures r.Some? ==> FirstTokenEntry(entries) < |entries| && entries[FirstTokenEntry(entries)] == TokenPrefix + r.value
  {
    var k := FirstTokenEntry(entries);
    if k < |entries| then Some(entries[k][|TokenPrefix|..]) else None
  }

  /** After "Bearer " the token runs to the next space or to the end of the header. */
  lemma BearerWord(authorization: Option<string>)
    ensures authorization.Some? && StartsWith(authorization.value, BearerPrefix) ==>
      Field(authorization.value, ' ', 1) == Some(Split(authorization.value[|BearerPrefix|..], ' ')[0])
  {
    if authorization.Some? && StartsWith(authorization.value, BearerPrefix) {
      var h := authorization.value;
      var y := h[|BearerPrefix|..];
      assert h == "Bearer" + [' '] + y by {
        assert h[..|BearerPrefix|] == BearerPrefix;
        assert h == h[..|BearerPrefix|] + y;
      }
      SplitAtFirst("Bearer", y, ' ');
    }
  }

  /** The token the middleware settles on before verifying it, sources tried in order. */
  function RequestToken(req: Request): (r: Option<string>)
    ensures req.authorization.Some? && StartsWith(req.authorization.value, BearerPrefix) ==>
      r == Some(Split(req.authorization.value[|BearerPrefix|..], ' ')[0])
    ensures (req.authorization.None? || !StartsWith(req.authorization.value, BearerPrefix)) && Truthy(req.cookieToken) ==>
      r == req.cookieToken
    ensures (req.authorization.None? || !StartsWith(req.authorization.value, BearerPrefix)) && !Truthy(req.cookieToken)
            && Truthy(req.cookieHeader) ==>
      r == FirstTokenCookie(CookieEntries(req.cookieHeader.value))
    ensures (req.authorization.None? || !StartsWith(req.authorization.value, BearerPrefix)) && !Truthy(req.cookieToken)
            && !Truthy(req.cookieHeader) ==>
      r.None?
  {
    BearerWord(req.authorization);
    if req.authorization.Some? && StartsWith(req.authorization.value, BearerPrefix) then
      Field(req.authorization.value, ' ', 1)
    else if Truthy(req.cookieToken) then
      req.cookieToken
    else if Truthy(req.cookieHeader) then
      FirstTokenCookie(CookieEntries(req.cookieHeader.value))
    else
      None
  }

  /** The loop over the trimmed entries: stop at the first "token=" entry and take the rest of it. */
  method FindTokenEntry(cookies: seq<string>) returns (token: Option<string>)
    ensures token == FirstTokenCookie(cookies)
  {
    token := None;
    var i := 0;
    while i < |cookies|
      invariant 0 <= i <= |cookies|
      invariant forall j :: 0 <= j < i ==> !StartsWith(cookies[j], TokenPrefix)
      invariant token.None?
    {
      if StartsWith(cookies[i], TokenPrefix) {
        token := Some(cookies[i][|TokenPrefix|..]);
        FirstTokenEntryAt(cookies, i);
        return;
      }
      i := i + 1;
    }
    FirstTokenEntryAt(cookies, i);
  }

  /** The fallback scan of the raw Cookie header: split, trim, then the first "token=" entry. */
  method ScanCookieHeader(header: string) returns (token: Option<string>)
    ensures token == FirstTokenCookie(CookieEntries(header))
  {
    var cookies := CookieEntries(header);
    token := FindTokenEntry(cookies);
  }

  /** Token selection as the middleware runs it: an if / else-if chain over the three sources. */
  method ExtractToken(req: Request) returns (token: Option<string>)
    ensures token == RequestToken(req)
  {
    token := None;
    if req.authorization.Some? && StartsWith(req.authorization.value, BearerPrefix) {
      token := Field(req.authorization.value, ' ', 1);
    } else if Truthy(req.cookieToken) {
      token := req.cookieToken;
    } else if Truthy(req.cookieHeader) {
      token := ScanCookieHeader(req.cookieHeader.value);
    }
  }

  /** authMiddleware: next() with the user attached, or 401 without calling next(). */
  method Authorize(req: Request, verify: string -> Option<UserId>, users: map<UserId, User>) returns (outcome: AuthOutcome)
    ensures outcome == Authenticate(RequestToken(req), verify, users)
    ensures outcome == Unauthorized(NoToken) <==> !Truthy(RequestToken(req))
  {
    var token := ExtractToken(req);
    outcome := Authenticate(token, verify, users);
  }

  // ---------------------------------------------------------------------------
  // Properties of token selection
  // ---------------------------------------------------------------------------

  lemma BearerField(b: string)
    requires ' ' !in b
    ensures Field(BearerPrefix + b, ' ', 1) == Some(b)
  {
    assert BearerPrefix + b == "Bearer" + [' '] + b;
    SplitAtFirst("Bearer", b, ' ');
    SplitWithoutSeparator(b, ' ');
  }

  /** A Bearer header wins over both cookie sources; the token is the word after "Bearer ". */
  lemma BearerHeaderWins(req: Request, b: string)
    requires req.authorization == Some(BearerPrefix + b) && ' ' !in b
    ensures RequestToken(req) == Some(b)
  {
    assert StartsWith(BearerPrefix + b, BearerPrefix) by {
      assert (BearerPrefix + b)[..|BearerPrefix|] == BearerPrefix;
    }
    BearerField(b);
  }

  /** A Bearer header with nothing after it is still chosen, so the request gets 401 however good its cookies are. */
  lemma EmptyBearerIsNotSkipped(req: Request, verify: string -> Option<UserId>, users: map<UserId, User>)
    requires req.authorization == Some(BearerPrefix)
    ensures Authenticate(RequestToken(req), verify, users) == Unauthorized(NoToken)
  {
    assert BearerPrefix + "" == BearerPrefix;
    BearerHeaderWins(req, "");
  }

  /** Without a Bearer header, the parsed token cookie is used when it is non-empty. */
  lemma CookieWithoutBearer(req: Request)
    requires req.authorization.None? || !StartsWith(req.authorization.value, BearerPrefix)
    requires Truthy(req.cookieToken)
    ensures RequestToken(req) == req.cookieToken
  {
  }

  /** In the raw header, the first "token=" entry decides, even when a later duplicate follows. */
  lemma FirstDuplicateWins(pre: seq<string>, a: string, b: string, rest: seq<string>)
    requires forall j :: 0 <= j < |pre| ==> !StartsWith(pre[j], TokenPrefix)
    ensures FirstTokenCookie(pre + [TokenPrefix + a] + rest + [TokenPrefix + b]) == Some(a)
  {
    var entries := pre + [TokenPrefix + a] + rest + [TokenPrefix + b];
    assert entries[|pre|] == TokenPrefix + a;
    assert entries[|pre|][..|TokenPrefix|] == TokenPrefix;
    assert forall j :: 0 <= j < |pre| ==> entries[j] == pre[j];
    FirstTokenEntryAt(entries, |pre|);
    assert entries[|pre|][|TokenPrefix|..] == a;
  }

  /** An entry "token=v" preceded by a space trims to itself without the space. */
  lemma TokenEntryTrims(v: string)
    requires v == [] || !IsWhitespace(v[|v| - 1])
    ensures Trim(" " + TokenPrefix + v) == TokenPrefix + v
  {
    var e := TokenPrefix + v;
    assert " " + TokenPrefix + v == [' '] + e;
    assert !IsWhitespace(e[0]) by {
      assert e[0] == TokenPrefix[0] == 't';
    }
    assert !IsWhitespace(e[|e| - 1]) by {
      if v == [] {
        assert e[|e| - 1] == TokenPrefix[5] == '=';
      } else {
        assert e[|e| - 1] == v[|v| - 1];
      }
    }
    TrimLeadingSpace(e);
  }

  /** Spaces around an entry do not hide it: " token=v" in the raw header yields v. */
  lemma TrimmedEntryFound(v: string)
    requires ';' !in v && (v == [] || !IsWhitespace(v[|v| - 1]))
    ensures CookieEntries(" " + TokenPrefix + v) == [TokenPrefix + v]
    ensures FirstTokenCookie(CookieEntries(" " + TokenPrefix + v)) == Some(v)
  {
    var s := " " + TokenPrefix + v;
    assert ';' !in s;
    SplitWithoutSeparator(s, ';');
    TokenEntryTrims(v);
    var entries := [TokenPrefix + v];
    assert entries[0][..|TokenPrefix|] == TokenPrefix;
    FirstTokenEntryAt(entries, 0);
    assert entries[0][|TokenPrefix|..] == v;
  }

  /** Without a Bearer header or a parsed cookie, " token=v" in the raw Cookie header is the token. */
  lemma RawHeaderFallback(req: Request, v: string)
    requires req.authorization.None? && !Truthy(req.cookieToken)
    requires req.cookieHeader == Some(" " + TokenPrefix + v)
    requires ';' !in v && (v == [] || !IsWhitespace(v[|v| - 1]))
    ensures RequestToken(req) == Some(v)
  {
    TrimmedEntryFound(v);
  }
}
