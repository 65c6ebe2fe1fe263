/** The older server's authentication middleware: where the JSON Web Token
    is read from, the refusals when it is missing or does not verify, the
    role gates, and the optional variant that never refuses. The signature
    check is a parameter `verify`, `verifyToken`: the claims of a token that
    verifies and has not expired, `None` otherwise. */
module Middleware {
  import opened Wrappers
  import opened JsText
  import RequestContext

  const BearerPrefix := "Bearer "

  const NoToken := "No token provided"
  const BadToken := "Invalid or expired token"
  const AuthRequired := "Authentication required"
  const AdminRequired := "Admin access required"
  const AdminRoleName := "admin"

  /** `JWTPayload`: what a verified token carries. */
  datatype Claims = Claims(userId: int, email: string, role: string)

  /** The parts of an Express request the middleware reads and writes.
      `cookies` is `None` when the request has no cookie object; `user` and
      `token` are what an earlier middleware attached. */
  datatype Request = Request(authorization: Option<string>, cookies: Option<map<string, string>>,
                             user: Option<Claims>, token: Option<string>)

  /** Calling `next()` with the request as it then is, or answering with a
      status and `{ error }`. */
  datatype Outcome = Next(req: Request) | Refuse(status: nat, error: string)

  /** The token the bearer header gives: what follows "Bearer ", or the
      empty string when the header is absent or has another scheme. */
  function BearerPart(authorization: Option<string>): (r: string)
    ensures authorization.Some? && StartsWith(authorization.value, BearerPrefix) ==>
      authorization.value == BearerPrefix + r
    ensures !(authorization.Some? && StartsWith(authorization.value, BearerPrefix)) ==> r == []
  {
    if authorization.Some? && StartsWith(authorization.value, BearerPrefix) then authorization.value[7..] else []
  }

  /** A cookie's value when it is set to a non-empty string. */
  function CookieValue(cookies: Option<map<string, string>>, name: string): (r: Option<string>)
    ensures r.Some? <==> cookies.Some? && name in cookies.value && cookies.value[name] != []
    ensures r.Some? ==> r.value == cookies.value[name]
  {
    if cookies.Some? && name in cookies.value && cookies.value[name] != [] then Some(cookies.value[name]) else None
  }

  /** The token the middleware works with, `None` when it is falsy: the
      bearer part if that is not empty, else `cookies.token || cookies.jwt`. */
  function RequestToken(req: Request): (r: Option<string>)
    ensures r.Some? ==> r.value != []
    ensures r.None? <==>
      BearerPart(req.authorization) == [] && CookieValue(req.cookies, "token").None? && CookieValue(req.cookies, "jwt").None?
    ensures BearerPart(req.authorization) != [] ==> r == Some(BearerPart(req.authorization))
    ensures BearerPart(req.authorization) == [] && CookieValue(req.cookies, "token").Some? ==>
      r == CookieValue(req.cookies, "token")
    ensures BearerPart(req.authorization) == [] && CookieValue(req.cookies, "token").None? ==>
      r == CookieValue(req.cookies, "jwt")
  {
    var bearer := BearerPart(req.authorization);
    if bearer != [] then Some(bearer)
    else
      var t := CookieValue(req.cookies, "token");
      if t.Some? then t else CookieValue(req.cookies, "jwt")
  }

  /** `authMiddleware`. */
  function AuthMiddleware(req: Request, verify: string -> Option<Claims>): (o: Outcome)
    ensures o.Next? <==> RequestToken(req).Some? && verify(RequestToken(req).value).Some?
    ensures RequestToken(req).None? ==> o == Refuse(401, NoToken)
    ensures RequestToken(req).Some? && verify(RequestToken(req).value).None? ==> o == Refuse(401, BadToken)
    ensures o.Next? ==>
      o.req == req.(user := verify(RequestToken(req).value), token := RequestToken(req))
  {
    var token := RequestToken(req);
    if token.None? then Refuse(401, NoToken)
    else
      var decoded := verify(token.value);
      if decoded.None? then Refuse(401, BadToken)
      else Next(req.(user := decoded, token := token))
  }

  /** `requireAuth`. */
  function RequireAuth(req: Request): (o: Outcome)
    ensures o.Next? <==> req.user.Some?
    ensures o.Next? ==> o.req == req
    ensures o.Refuse? ==> o == Refuse(401, AuthRequired)
  {
    if req.user.None? then Refuse(401, AuthRequired) else Next(req)
  }

  /** `requireAdmin`. */
  function RequireAdmin(req: Request): (o: Outcome)
    ensures o.Next? ==> o.req == req && req.user.Some? && req.user.value.role == AdminRoleName
    ensures req.user.None? ==> o == Refuse(401, AuthRequired)
    ensures req.user.Some? && req.user.value.role != AdminRoleName ==> o == Refuse(403, AdminRequired)
  {
    if req.user.None? then Refuse(401, AuthRequired)
    else if req.user.value.role != AdminRoleName then Refuse(403, AdminRequired)
    else Next(req)
  }

  /** `requireRole(role)`; the 403 message is the role followed by " access required". */
  function RequireRole(role: string, req: Request): (o: Outcome)
    ensures o.Next? ==> o.req == req && req.user.Some? && req.user.value.role == role
    ensures req.user.None? ==> o == Refuse(401, AuthRequired)
    ensures req.user.Some? && req.user.value.role != role ==> o == Refuse(403, role + " access required")
  {
    if req.user.None? then Refuse(401, AuthRequired)
    else if req.user.value.role != role then Refuse(403, role + " access required")
    else Next(req)
  }

  /** `optionalAuth`: never refuses; the claims and token are attached only
      when the token verifies. */
  function OptionalAuth(req: Request, verify: string -> Option<Claims>): (o: Outcome)
    ensures o.Next?
  {
    var token := RequestToken(req);
    if token.Some? && verify(token.value).Some? then Next(req.(user := verify(token.value), token := token))
    else Next(req)
  }

  // Properties.

  /** `optionalAuth` passes on what `authMiddleware` would attach when that
      one calls `next`, and the request untouched when it refuses. */
  lemma OptionalAuthFollowsAuthMiddleware(req: Request, verify: string -> Option<Claims>)
    ensures var a := AuthMiddleware(req, verify);
      OptionalAuth(req, verify) == if a.Next? then a else Next(req)
  {
  }

  /** A request let through by `authMiddleware` passes `requireAuth`
      unchanged, and passes `requireRole(role)` exactly when the claims of its
      token carry that role. */
  lemma AuthenticatedThenGated(req: Request, verify: string -> Option<Claims>, role: string)
    requires AuthMiddleware(req, verify).Next?
    ensures var r := AuthMiddleware(req, verify).req;
      && RequireAuth(r) == Next(r)
      && (RequireRole(role, r).Next? <==> verify(RequestToken(req).value).value.role == role)
      && (RequireAdmin(r).Next? <==> verify(RequestToken(req).value).value.role == AdminRoleName)
  {
  }

  /** `requireAdmin` is `requireRole("admin")` except for the capital letter
      of its 403 message. */
  lemma RequireAdminIsRequireRoleAdmin(req: Request)
    ensures RequireAdmin(req).Next? <==> RequireRole(AdminRoleName, req).Next?
    ensures RequireAdmin(req).Next? ==> RequireAdmin(req) == RequireRole(AdminRoleName, req)
    ensures req.user.Some? && req.user.value.role != AdminRoleName ==>
      RequireRole(AdminRoleName, req) == Refuse(403, "admin access required")
      && RequireAdmin(req) == Refuse(403, "Admin access required")
  {
  }

  /** A bearer header with something after the prefix decides the token,
      whatever the cookies say. */
  lemma BearerHeaderWins(header: string, cookies: Option<map<string, string>>, user: Option<Claims>, token: Option<string>)
    requires StartsWith(header, BearerPrefix) && |header| > |BearerPrefix|
    ensures RequestToken(Request(Some(header), cookies, user, token)) == Some(header[|BearerPrefix|..])
  {
  }

  /** A bare "Bearer " header counts as no header: the token comes from the
      cookies. The bundled server's `extractToken` takes the empty string
      after the prefix instead. */
  lemma BareBearerFallsBack(cookies: map<string, string>, user: Option<Claims>, token: Option<string>)
    ensures RequestToken(Request(Some(BearerPrefix), Some(cookies), user, token)) ==
      (if CookieValue(Some(cookies), "token").Some? then CookieValue(Some(cookies), "token")
       else CookieValue(Some(cookies), "jwt"))
    ensures RequestContext.ExtractToken(Some(BearerPrefix), Some(cookies)) == Some([])
  {
    assert StartsWith(BearerPrefix, BearerPrefix);
    assert BearerPrefix[7..] == [];
  }

  /** With no header and no cookie object, every gated request is refused
      with "No token provided", and `verify` is never consulted. */
  lemma NoCredentialsRefused(user: Option<Claims>, token: Option<string>, verify: string -> Option<Claims>)
    ensures AuthMiddleware(Request(None, None, user, token), verify) == Refuse(401, NoToken)
    ensures OptionalAuth(Request(None, None, user, token), verify) == Next(Request(None, None, user, token))
  {
  }
}
