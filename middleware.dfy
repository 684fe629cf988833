/** The two Express middlewares: `authMiddleware`, which turns an `Authorization: Bearer`
    header into `req.user`, and `requireRole`, which admits only users of listed roles.
    The token check itself (`jwt.verify` with the server secret, including expiry) stays
    abstract: it is the function `verify` the middleware is given. */
module Middleware {
  import opened Wrappers
  import opened Text

  datatype Role = ADMIN | DISPATCHER | CLIENT

  /** The user id and role a token is signed over, and what `req.user` holds once the token
      is accepted. */
  datatype AuthUser = AuthUser(userId: int, role: Role)

  /** The scheme prefix of the header, matched case-sensitively (section 2.1 of RFC 6750
      writes the scheme as "Bearer"; this code accepts no other spelling). */
  const BearerPrefix: string := "Bearer "

  /** The secret tokens are verified with: the `JWT_SECRET` setting `env`, or "dev-secret"
      when it is unset or empty. */
  function MiddlewareSecret(env: Option<string>): string {
    if Given(env) then env.value else "dev-secret"
  }

  /** `s.replace(pat, rep)` with a string pattern: only the first occurrence of `pat` is
      replaced, and a string without `pat` comes back unchanged. */
  function ReplaceFirst(s: string, pat: string, rep: string): (r: string)
    ensures StartsWith(s, pat) ==> r == rep + s[|pat|..]
    ensures !Contains(s, pat) ==> r == s
    decreases |s|
  {
    if |s| < |pat| then s
    else if s[..|pat|] == pat then
      assert OccursAt(s, pat, 0);
      rep + s[|pat|..]
    else
      var rest := ReplaceFirst(s[1..], pat, rep);
      assert !Contains(s, pat) ==> !Contains(s[1..], pat) by {
        if Contains(s[1..], pat) {
          var i :| 0 <= i <= |s[1..]| && OccursAt(s[1..], pat, i);
          assert OccursAt(s, pat, i + 1);
        }
      }
      [s[0]] + rest
  }

  /** The token of an `Authorization` header, or None when the middleware answers 401 at once
      because the header is missing or does not start with "Bearer ". The token is the header
      with its first "Bearer " removed and then trimmed. */
  function ExtractToken(header: Option<string>): (t: Option<string>)
    ensures t.Some? <==> header.Some? && StartsWith(header.value, BearerPrefix)
    ensures t.Some? ==> t.value == Trim(header.value[|BearerPrefix|..]) && IsTrimmed(t.value)
  {
    if header.None? || header.value == [] || !StartsWith(header.value, BearerPrefix) then None
    else
      var rest := ReplaceFirst(header.value, BearerPrefix, "");
      assert rest == header.value[|BearerPrefix|..];
      Some(Trim(rest))
  }

  /** A header built from the scheme and a token without surrounding white space yields that
      token back. */
  lemma BearerRoundTrip(token: string)
    requires IsTrimmed(token)
    ensures ExtractToken(Some(BearerPrefix + token)) == Some(token)
  {
    var header := BearerPrefix + token;
    assert StartsWith(header, BearerPrefix);
    assert header[|BearerPrefix|..] == token;
  }

  /** The scheme is matched case-sensitively: other spellings of it are refused with 401. */
  lemma SchemeIsCaseSensitive(token: string)
    ensures ExtractToken(Some("bearer " + token)) == None
    ensures ExtractToken(Some("BEARER " + token)) == None
  {
    assert ("bearer " + token)[0] != BearerPrefix[0];
    assert ("BEARER " + token)[1] != BearerPrefix[1];
  }

  /** One request on its way through the middleware chain: the header it arrived with, the
      `req.user` slot, the status of a reply written so far, and how often `next()` ran. */
  class Exchange {
    const authorization: Option<string>
    var user: Option<AuthUser>
    var replied: Option<int>
    var nextCalls: nat

    constructor (authorization: Option<string>)
      ensures this.authorization == authorization
      ensures user == None && replied == None && nextCalls == 0
    {
      this.authorization := authorization;
      user := None;
      replied := None;
      nextCalls := 0;
    }
  }

  /** `authMiddleware`. A missing or malformed header, or a token that `verify` refuses, gets
      a 401 reply with `req.user` untouched and `next()` not called. An accepted token sets
      `req.user` to its user id and role and calls `next()` once, writing no reply. */
  method AuthMiddleware(ex: Exchange, verify: string -> Option<AuthUser>)
    modifies ex
    ensures var token := ExtractToken(ex.authorization);
            if token.Some? && verify(token.value).Some? then
              && ex.user == Some(verify(token.value).value)
              && ex.nextCalls == old(ex.nextCalls) + 1
              && ex.replied == old(ex.replied)
            else
              && ex.replied == Some(401)
              && ex.user == old(ex.user)
              && ex.nextCalls == old(ex.nextCalls)
  {
    var token := ExtractToken(ex.authorization);
    if token.None? {
      ex.replied := Some(401);
      return;
    }
    var decoded := verify(token.value);
    if decoded.None? {
      ex.replied := Some(401);
      return;
    }
    ex.user := Some(AuthUser(decoded.value.userId, decoded.value.role));
    ex.nextCalls := ex.nextCalls + 1;
  }

  /** What `requireRole` decides: pass the request on, or answer 403. */
  datatype Gate = Next | Forbidden

  /** `requireRole(...allowedRoles)`: a request passes only when a user is set and that
      user's role is one of `allowedRoles`. */
  function RequireRole(allowedRoles: seq<Role>, user: Option<AuthUser>): Gate {
    if user.None? || user.value.role !in allowedRoles then Forbidden else Next
  }

  /** A request without a user never passes, whatever the roles. */
  lemma RequireRoleNeedsUser(allowedRoles: seq<Role>)
    ensures RequireRole(allowedRoles, None) == Forbidden
  {
  }

  /** With no roles listed every request is refused. */
  lemma RequireRoleEmptyRejectsAll(user: Option<AuthUser>)
    ensures RequireRole([], user) == Forbidden
  {
  }

  /** A user passes exactly when their role is listed; listing more roles never turns a
      passing request away. */
  lemma RequireRoleMembership(allowedRoles: seq<Role>, wider: seq<Role>, id: int, role: Role)
    requires forall r :: r in allowedRoles ==> r in wider
    ensures RequireRole(allowedRoles, Some(AuthUser(id, role))) == Next <==> role in allowedRoles
    ensures RequireRole(allowedRoles, Some(AuthUser(id, role))) == Next
            ==> RequireRole(wider, Some(AuthUser(id, role))) == Next
  {
  }

  /** The middleware `requireRole(...allowedRoles)` returns, applied to one request: a passing
      request reaches `next()` with no reply written; any other gets 403 and no `next()`. */
  method RoleGuard(ex: Exchange, allowedRoles: seq<Role>)
    modifies ex
    ensures RequireRole(allowedRoles, old(ex.user)) == Next ==>
              ex.nextCalls == old(ex.nextCalls) + 1 && ex.replied == old(ex.replied)
    ensures RequireRole(allowedRoles, old(ex.user)) == Forbidden ==>
              ex.nextCalls == old(ex.nextCalls) && ex.replied == Some(403)
    ensures ex.user == old(ex.user)
  {
    if RequireRole(allowedRoles, ex.user) == Forbidden {
      ex.replied := Some(403);
      return;
    }
    ex.nextCalls := ex.nextCalls + 1;
  }
}
