/** Reading a request in the bundled server: where the session token comes
    from, whether the connection counts as HTTPS, and how the resend route
    reads its `purpose` field. */
module RequestContext {
  import opened Wrappers
  import opened JsText

  const AuthCookieName := "osmora_auth"
  const BearerPrefix := "Bearer "

  /** The cookies a token may come from when there is no bearer header. */
  const FallbackCookies: set<string> := {AuthCookieName, "token", "jwt"}

  /** The value of cookie `name`, treated as JavaScript does in `a || b`:
      present only when set to a non-empty string. */
  function TruthyCookie(cookies: map<string, string>, name: string): (r: Option<string>)
    ensures r.Some? <==> name in cookies && cookies[name] != []
    ensures r.Some? ==> r.value == cookies[name]
  {
    if name in cookies && cookies[name] != [] then Some(cookies[name]) else None
  }

  /** `extractToken(req)`. `cookies` is `None` when the request carries no
      cookie object. */
  function ExtractToken(authorization: Option<string>, cookies: Option<map<string, string>>): (r: Option<string>)
    ensures authorization.Some? && StartsWith(authorization.value, BearerPrefix) ==>
      r == Some(authorization.value[|BearerPrefix|..])
    ensures !(authorization.Some? && StartsWith(authorization.value, BearerPrefix)) ==>
      r == FirstTruthyCookie(if cookies.Some? then cookies.value else map[])
  {
    if authorization.Some? && StartsWith(authorization.value, BearerPrefix) then
      Some(authorization.value[7..])
    else
      var jar := if cookies.Some? then cookies.value else map[];
      var c := TruthyCookie(jar, AuthCookieName);
      if c.Some? then c
      else
        var t := TruthyCookie(jar, "token");
        if t.Some? then t else TruthyCookie(jar, "jwt")
  }

  /** The cookie the token falls back to, in the order `osmora_auth`, `token`,
      `jwt`; the first one set to a non-empty string wins. */
  function FirstTruthyCookie(jar: map<string, string>): (r: Option<string>)
  {
    if TruthyCookie(jar, AuthCookieName).Some? then TruthyCookie(jar, AuthCookieName)
    else if TruthyCookie(jar, "token").Some? then TruthyCookie(jar, "token")
    else TruthyCookie(jar, "jwt")
  }

  /** What a fallback token is: the value of one of the three cookies, and
      there is none exactly when none of them is set to a non-empty string.
      A bearer header wins even when nothing follows the prefix. */
  lemma ExtractTokenMeaning(authorization: Option<string>, jar: map<string, string>)
    ensures var r := ExtractToken(authorization, Some(jar));
      !(authorization.Some? && StartsWith(authorization.value, BearerPrefix)) && r.Some? ==>
        r.value != [] && exists name :: name in FallbackCookies && name in jar && r.value == jar[name]
    ensures ExtractToken(Some(BearerPrefix), Some(jar)) == Some([])
    ensures ExtractToken(None, Some(jar)).None? <==>
      forall name :: name in FallbackCookies && name in jar ==> jar[name] == []
  {
    assert StartsWith(BearerPrefix, BearerPrefix);
    assert BearerPrefix[7..] == [];
    var r := FirstTruthyCookie(jar);
    if r.Some? {
      if TruthyCookie(jar, AuthCookieName).Some? {
        assert AuthCookieName in FallbackCookies && r.value == jar[AuthCookieName];
      } else if TruthyCookie(jar, "token").Some? {
        assert "token" in FallbackCookies && r.value == jar["token"];
      } else {
        assert "jwt" in FallbackCookies && r.value == jar["jwt"];
      }
    } else {
      forall name | name in FallbackCookies && name in jar ensures jar[name] == [] {
        assert name == AuthCookieName || name == "token" || name == "jwt";
      }
    }
  }

  /** The `x-forwarded-proto` header: absent, one string, or several values. */
  datatype ForwardedProto = Absent | One(value: string) | Many(values: seq<string>)

  /** The list of protocols the header names: a single string is split on commas. */
  function ProtoList(h: ForwardedProto): seq<string>
  {
    match h
    case Absent => []
    case One(v) => if v == [] then [] else Split(v, ',')
    case Many(vs) => vs
  }

  predicate IsHttps(proto: string)
  {
    ToLower(Trim(proto)) == "https"
  }

  /** `isSecureRequest(req)`. */
  function IsSecureRequest(protocol: string, forwarded: ForwardedProto): (secure: bool)
    ensures secure <==> protocol == "https" || exists i :: 0 <= i < |ProtoList(forwarded)| && IsHttps(ProtoList(forwarded)[i])
  {
    protocol == "https" || AnyHttps(ProtoList(forwarded))
  }

  /** `protoList.some(proto => proto.trim().toLowerCase() === "https")`. */
  function AnyHttps(protos: seq<string>): (r: bool)
    ensures r <==> exists i :: 0 <= i < |protos| && IsHttps(protos[i])
  {
    if protos == [] then false else IsHttps(protos[0]) || AnyHttps(protos[1..])
  }

  /** A comma-separated header is secure exactly when one of its pieces,
      trimmed and lower-cased, is `https`; the pieces put back together with
      commas are the header itself. */
  lemma ForwardedPieces(v: string)
    requires v != []
    ensures IsSecureRequest("http", One(v)) <==> exists i :: 0 <= i < |Split(v, ',')| && IsHttps(Split(v, ',')[i])
    ensures Join(Split(v, ','), [',']) == v
  {
    JoinSplit(v, ',');
  }

  const VerifyEmail := "verify_email"
  const ResetPassword := "reset_password"

  /** The resend route's reading of `purpose`: anything but `verify_email`,
      including a missing field, means `reset_password`. */
  function NormalizeResendPurpose(purpose: Option<string>): (r: string)
    ensures r == VerifyEmail || r == ResetPassword
    ensures r == VerifyEmail <==> purpose == Some(VerifyEmail)
  {
    if purpose == Some(VerifyEmail) then VerifyEmail else ResetPassword
  }
}
