/**
 The login route (app/api/auth/login/route.ts): a chain of guards over the
 configured admin credentials and the submitted ones, ending in a session
 cookie. The session token comes from a random source and is a parameter
 here.
 */
module Login {
  import opened Records
  import Middleware

  /** The submitted body. A body that is not JSON, or is `null`, reads as
      the empty object. */
  datatype LoginBody = LoginBody(email: Option<string>, password: Option<string>)

  function BodyOf(parsed: Option<LoginBody>): LoginBody {
    if parsed.Some? then parsed.value else LoginBody(None, None)
  }

  datatype Cookie = Cookie(
    name: string, value: string, httpOnly: bool, secure: bool, path: string, sameSite: string, maxAge: nat)

  /** `res.cookies.set('batchmail_auth', token, { httpOnly, secure, path: '/', sameSite: 'lax', maxAge: 60 * 60 })` */
  function SessionCookie(token: string): Cookie {
    Cookie(Middleware.AuthCookie, token, true, true, "/", "lax", 60 * 60)
  }

  datatype LoginResponse = LoginResponse(status: nat, error: Option<string>, cookie: Option<Cookie>)

  /** `POST /api/auth/login`: 500 when the admin credentials are not
      configured, else 400 when a field is missing or empty, else 401 when
      either differs, else success with the session cookie. */
  function Authenticate(parsed: Option<LoginBody>, adminEmail: Option<string>, adminPassword: Option<string>, token: string)
    : (r: LoginResponse)
    ensures var body := BodyOf(parsed);
            var configured := Truthy(adminEmail) && Truthy(adminPassword);
            var supplied := Truthy(body.email) && Truthy(body.password);
            && (r.status == 500 <==> !configured)
            && (r.status == 400 <==> configured && !supplied)
            && (r.status == 401 <==> configured && supplied && (body.email != adminEmail || body.password != adminPassword))
            && (r.status == 200 <==> configured && supplied && body.email == adminEmail && body.password == adminPassword)
    ensures r.status in {200, 400, 401, 500}
    ensures r.cookie.Some? <==> r.status == 200
    ensures r.error.None? <==> r.status == 200
    ensures r.status == 500 ==> r.error == Some("Admin credentials not configured")
    ensures r.status == 400 ==> r.error == Some("Missing email or password")
    ensures r.status == 401 ==> r.error == Some("Invalid credentials")
    ensures r.cookie.Some? ==> r.cookie.value == SessionCookie(token)
  {
    var body := BodyOf(parsed);
    if !Truthy(adminEmail) || !Truthy(adminPassword) then
      LoginResponse(500, Some("Admin credentials not configured"), None)
    else if !Truthy(body.email) || !Truthy(body.password) then
      LoginResponse(400, Some("Missing email or password"), None)
    else if body.email != adminEmail || body.password != adminPassword then
      LoginResponse(401, Some("Invalid credentials"), None)
    else
      LoginResponse(200, None, Some(SessionCookie(token)))
  }

  /** Without configured admin credentials nobody logs in, whatever they send. */
  lemma UnconfiguredRejectsEveryone(parsed: Option<LoginBody>, adminPassword: Option<string>, token: string)
    ensures Authenticate(parsed, None, adminPassword, token).status == 500
    ensures Authenticate(parsed, Some(""), adminPassword, token).status == 500
  {
  }

  /** A body that could not be parsed counts as empty: 400 once configured. */
  lemma UnparsableBodyIsMissingFields(adminEmail: string, adminPassword: string, token: string)
    requires adminEmail != "" && adminPassword != ""
    ensures Authenticate(None, Some(adminEmail), Some(adminPassword), token).status == 400
  {
  }

  /** The cookie a successful login sets opens every path behind the
      gate, provided the token is not empty. */
  lemma LoginOpensTheGate(parsed: Option<LoginBody>, adminEmail: Option<string>, adminPassword: Option<string>,
                          token: string, pathname: string, others: map<string, string>)
    requires token != ""
    requires Authenticate(parsed, adminEmail, adminPassword, token).status == 200
    ensures var c := Authenticate(parsed, adminEmail, adminPassword, token).cookie.value;
            Middleware.Decide(pathname, others[c.name := c.value]) == Middleware.Pass
  {
  }
}
