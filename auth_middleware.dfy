/** campus-connect-backend-main/utils/authMiddleware.js: `protect` takes the
    bearer token from the Authorization header, verifies it and loads the
    account into `req.user`; `admin` lets through only accounts whose role is
    'admin'. `jwt.verify` is the parameter `verify`: the user id a token
    carries, or None where verification throws. */
module AuthMiddleware {
  import opened Strings
  import opened Users

  const NO_TOKEN := "Access denied. Please log in to continue."
  const USER_NOT_FOUND := "Invalid token. User not found."
  const SESSION_EXPIRED := "Your session has expired. Please log in again."
  const AUTH_REQUIRED := "Access denied. Authentication required."
  const ADMIN_REQUIRED := "Access denied. Admin privileges required."

  const ADMIN_ROLE := "admin"

  /** A middleware's outcome: `next()`, or a JSON `answer` with a status. */
  datatype Outcome = Next | Deny(status: int, answer: string)

  /** What the middleware sees of `req`. */
  class Request {
    var authorization: Option<string>
    var user: Option<Profile>

    constructor(authorization: Option<string>)
      ensures this.authorization == authorization && user == None
    {
      this.authorization := authorization;
      user := None;
    }
  }

  // ---------------------------------------------------------------------------
  // protect
  // ---------------------------------------------------------------------------

  /** The token `protect` takes: when the header starts with 'Bearer', its
      second space-separated part, provided there is one and it is not empty.
      Any token taken is a non-empty text without spaces from a header that
      starts with 'Bearer'. */
  function BearerToken(authorization: Option<string>): (t: Option<string>)
    ensures t.Some? ==>
              authorization.Some? && IsPrefix("Bearer", authorization.value)
              && t.value != "" && ' ' !in t.value
  {
    if authorization.Some? && IsPrefix("Bearer", authorization.value) then
      var parts := Split(authorization.value, ' ');
      SplitPartsFree(authorization.value, ' ');
      if |parts| > 1 && parts[1] != "" then Some(parts[1]) else None
    else None
  }

  /** The header a client sends, `Bearer <token>`, gives the token back, and
      so does a header with more parts after it. */
  lemma BearerTokenOf(token: string, more: string)
    requires token != "" && ' ' !in token
    ensures BearerToken(Some("Bearer " + token)) == Some(token)
    ensures BearerToken(Some("Bearer " + token + " " + more)) == Some(token)
  {
    var bearer := "Bearer";
    assert ' ' !in bearer;
    assert "Bearer " + token == bearer + [' '] + token;
    SplitAfter(bearer, token, ' ');
    SplitFree(token, ' ');
    assert IsPrefix("Bearer", "Bearer " + token);
    assert "Bearer " + token + " " + more == bearer + [' '] + (token + [' '] + more);
    SplitAfter(bearer, token + [' '] + more, ' ');
    SplitAfter(token, more, ' ');
    assert IsPrefix("Bearer", "Bearer " + token + " " + more);
  }

  /** A header of the word alone, or with two spaces before the token, gives
      no token, since the second part is missing or empty. */
  lemma BearerTokenMissing(token: string)
    ensures BearerToken(Some("Bearer")) == None
    ensures BearerToken(Some("Bearer  " + token)) == None
  {
    var bearer := "Bearer";
    assert ' ' !in bearer;
    SplitFree(bearer, ' ');
    assert "Bearer  " + token == bearer + [' '] + ([' '] + token);
    SplitAfter(bearer, [' '] + token, ' ');
    assert [' '] + token == [] + [' '] + token;
    SplitAfter([], token, ' ');
  }

  /** `protect` up to the point where it sets `req.user`: no token, then a
      token `verify` refuses, then an id without an account, each refused;
      otherwise the account the token names, without its password. */
  function Authenticate(authorization: Option<string>, verify: string -> Option<nat>,
                        users: seq<User>): (r: Result<Profile, string>)
    ensures r == Err(NO_TOKEN) <==> BearerToken(authorization).None?
    ensures r == Err(SESSION_EXPIRED) <==>
              BearerToken(authorization).Some? && verify(BearerToken(authorization).value).None?
    ensures r == Err(USER_NOT_FOUND) <==>
              BearerToken(authorization).Some? && verify(BearerToken(authorization).value).Some?
              && forall i :: 0 <= i < |users| ==> users[i].id != verify(BearerToken(authorization).value).value
    ensures r.Ok? ==>
              BearerToken(authorization).Some?
              && exists i :: 0 <= i < |users| && r.value == ProfileOf(users[i])
                   && verify(BearerToken(authorization).value) == Some(users[i].id)
  {
    var token := BearerToken(authorization);
    if token.None? then Err(NO_TOKEN)
    else
      var decoded := verify(token.value);
      if decoded.None? then Err(SESSION_EXPIRED)
      else
        var found := FindById(users, decoded.value);
        if found.None? then Err(USER_NOT_FOUND)
        else Ok(ProfileOf(users[found.value]))
  }

  /** `protect`: a refusal answers 401 and leaves `req.user` alone; otherwise
      `req.user` is the account's profile and the request goes on. */
  method Protect(req: Request, verify: string -> Option<nat>, users: seq<User>) returns (o: Outcome)
    modifies req
    ensures req.authorization == old(req.authorization)
    ensures Authenticate(old(req.authorization), verify, users).Ok? ==>
              o == Next && req.user == Some(Authenticate(old(req.authorization), verify, users).value)
    ensures Authenticate(old(req.authorization), verify, users).Err? ==>
              o == Deny(401, Authenticate(old(req.authorization), verify, users).error)
              && req.user == old(req.user)
  {
    var token := BearerToken(req.authorization);
    if token.None? {
      return Deny(401, NO_TOKEN);
    }
    var decoded := verify(token.value);
    if decoded.None? {
      return Deny(401, SESSION_EXPIRED);
    }
    var found := FindById(users, decoded.value);
    if found.None? {
      return Deny(401, USER_NOT_FOUND);
    }
    req.user := Some(ProfileOf(users[found.value]));
    o := Next;
  }

  /** A token issued for a stored account, sent as `Bearer <token>`, loads
      that account, provided `verify` gives back the id the token was signed
      with and the token has no spaces. */
  lemma IssuedTokenAccepted(users: seq<User>, nextId: nat, i: nat, token: string,
                            verify: string -> Option<nat>)
    requires AccountsValid(users, nextId) && i < |users|
    requires token != "" && ' ' !in token && verify(token) == Some(users[i].id)
    ensures Authenticate(Some("Bearer " + token), verify, users) == Ok(ProfileOf(users[i]))
  {
    BearerTokenOf(token, "");
    var found := FindById(users, users[i].id);
    assert found.value == i;
  }

  // ---------------------------------------------------------------------------
  // admin
  // ---------------------------------------------------------------------------

  /** `admin` on `req.user`: 401 without a user, 403 for a role other than
      'admin', and `next()` exactly for an admin. */
  function AdminGate(user: Option<Profile>): (o: Outcome)
    ensures o == Next <==> user.Some? && user.value.role == ADMIN_ROLE
    ensures o.Deny? ==> (o.status == 401 <==> user.None?)
    ensures o.Deny? ==> o == Deny(401, AUTH_REQUIRED) || o == Deny(403, ADMIN_REQUIRED)
  {
    if user.None? then Deny(401, AUTH_REQUIRED)
    else if user.value.role != ADMIN_ROLE then Deny(403, ADMIN_REQUIRED)
    else Next
  }
}
