/** The request filter in front of every API call (`AuthInterceptor.preHandle`): the token must be
    "<mock token>:<server session id>" for the current server run, the mock token names a role, and
    the role decides which URIs it may reach. */
module AuthInterceptor {
  import opened Wrappers
  import Text

  datatype Role = Admin | User | Bill

  /** What the filter does with a request: let it through, or answer with a status and a message.
      The 403 on a non-GET employee call for a non-admin is written by the first of two identical
      checks, so the second (which would answer without a message) never decides anything. */
  datatype Decision = Allow | Deny(status: int, message: string)

  const UNAUTHORIZED: int := 401
  const FORBIDDEN: int := 403

  /** The role a mock token stands for; any other token has none. */
  function RoleOf(realToken: string): (r: Option<Role>)
    ensures r == Some(Admin) <==> realToken == "mock-admin-token"
    ensures r == Some(User) <==> realToken == "mock-user-token"
    ensures r == Some(Bill) <==> realToken == "mock-bill-token"
  {
    if realToken == "mock-admin-token" then Some(Admin)
    else if realToken == "mock-user-token" then Some(User)
    else if realToken == "mock-bill-token" then Some(Bill)
    else None
  }

  /** The role-based part of the filter, once a role is known. */
  function Access(role: Role, httpMethod: string, uri: string): (r: Decision)
    ensures r.Deny? ==> r.status == FORBIDDEN
  {
    if role == Bill then
      if !Text.StartsWith(uri, "/api/billing") && !Text.StartsWith(uri, "/api/auth") then
        Deny(FORBIDDEN, "Access Denied: Billing Users can only access Billing Module")
      else Allow
    else if Text.StartsWith(uri, "/api/billing") then
      Deny(FORBIDDEN, "Access Denied: Exclusive for Billing Role")
    else if Text.StartsWith(uri, "/api/employees") && httpMethod != "GET" && role != Admin then
      Deny(FORBIDDEN, "Access Denied: Admins Only")
    else Allow
  }

  /** `preHandle`. `Failure` is the exception thrown when a token such as "abc:" splits into a
      single part, so that its session part is out of range. */
  function PreHandle(httpMethod: string, token: Option<string>, uri: string, sessionId: string): (r: Result<Decision, string>)
    ensures r.Success? && r.value.Deny? ==> r.value.status in {UNAUTHORIZED, FORBIDDEN}
  {
    if Text.EqualsIgnoreCase("OPTIONS", httpMethod) then Success(Allow)
    else if token.None? || token.value == "" then Success(Deny(UNAUTHORIZED, "Missing Authorization Header"))
    else if ':' !in token.value then Success(Deny(UNAUTHORIZED, "Invalid Token Format"))
    else
      var parts := Text.JavaSplit(token.value, ':');
      if |parts| < 2 then Failure("ArrayIndexOutOfBoundsException")
      else if sessionId != parts[1] then Success(Deny(UNAUTHORIZED, "Session Expired (Server Restarted)"))
      else
        var role := RoleOf(parts[0]);
        if role.None? then Success(Deny(UNAUTHORIZED, "Invalid Token"))
        else Success(Access(role.value, httpMethod, uri))
  }

  // ---------------------------------------------------------------------------
  // Properties of the filter
  // ---------------------------------------------------------------------------

  /** The token the client sends after logging in: the mock token, a colon and the session id. */
  function TokenFor(realToken: string, sessionId: string): string {
    realToken + ":" + sessionId
  }

  lemma {:induction false} SplitToken(realToken: string, sessionId: string)
    requires ':' !in realToken && ':' !in sessionId && sessionId != ""
    ensures Text.JavaSplit(TokenFor(realToken, sessionId), ':') == [realToken, sessionId]
  {
    var t := TokenFor(realToken, sessionId);
    assert t[|realToken|] == ':';
    SplitAllPrefix(realToken, sessionId);
    Text.JoinSplitAll(sessionId, ':');
  }

  lemma {:induction false} SplitAllPrefix(realToken: string, sessionId: string)
    requires ':' !in realToken && ':' !in sessionId
    ensures Text.SplitAll(realToken + ":" + sessionId, ':') == [realToken, sessionId]
  {
    if realToken == [] {
      assert realToken + ":" + sessionId == [':'] + sessionId;
      assert (realToken + ":" + sessionId)[1..] == sessionId;
      SplitAllPlain(sessionId);
    } else {
      assert (realToken + ":" + sessionId)[1..] == realToken[1..] + ":" + sessionId;
      SplitAllPrefix(realToken[1..], sessionId);
      assert [realToken[0]] + realToken[1..] == realToken;
    }
  }

  lemma {:induction false} SplitAllPlain(s: string)
    requires ':' !in s
    ensures Text.SplitAll(s, ':') == [s]
  {
    if s != [] {
      SplitAllPlain(s[1..]);
      assert [s[0]] + s[1..] == s;
    }
  }

  /** A token issued for the current session reaches the role table; one for another session is
      answered 401 whatever it names. */
  lemma CurrentSessionToken(httpMethod: string, realToken: string, uri: string, sessionId: string, otherSession: string)
    requires !Text.EqualsIgnoreCase("OPTIONS", httpMethod)
    requires ':' !in realToken && ':' !in sessionId && sessionId != ""
    requires ':' !in otherSession && otherSession != "" && otherSession != sessionId
    ensures PreHandle(httpMethod, Some(TokenFor(realToken, sessionId)), uri, sessionId) ==
      if RoleOf(realToken).Some? then Success(Access(RoleOf(realToken).value, httpMethod, uri))
      else Success(Deny(UNAUTHORIZED, "Invalid Token"))
    ensures PreHandle(httpMethod, Some(TokenFor(realToken, otherSession)), uri, sessionId)
      == Success(Deny(UNAUTHORIZED, "Session Expired (Server Restarted)"))
  {
    SessionToken(httpMethod, realToken, uri, sessionId, sessionId);
    SessionToken(httpMethod, realToken, uri, otherSession, sessionId);
  }

  /** The filter on a well-formed token: the session part decides first, then the token part. */
  lemma SessionToken(httpMethod: string, realToken: string, uri: string, tokenSession: string, sessionId: string)
    requires !Text.EqualsIgnoreCase("OPTIONS", httpMethod)
    requires ':' !in realToken && ':' !in tokenSession && tokenSession != ""
    ensures PreHandle(httpMethod, Some(TokenFor(realToken, tokenSession)), uri, sessionId) ==
      if sessionId != tokenSession then Success(Deny(UNAUTHORIZED, "Session Expired (Server Restarted)"))
      else if RoleOf(realToken).Some? then Success(Access(RoleOf(realToken).value, httpMethod, uri))
      else Success(Deny(UNAUTHORIZED, "Invalid Token"))
  {
    var t := TokenFor(realToken, tokenSession);
    assert t[|realToken|] == ':';
    SplitToken(realToken, tokenSession);
  }

  /** Pre-flight requests pass without a token. */
  lemma PreflightAllowed(httpMethod: string, token: Option<string>, uri: string, sessionId: string)
    requires Text.EqualsIgnoreCase("OPTIONS", httpMethod)
    ensures PreHandle(httpMethod, token, uri, sessionId) == Success(Allow)
  {
  }

  /** Every other request without a token, or with an empty one, is answered 401 "Missing
      Authorization Header"; one whose token has no colon is answered 401 "Invalid Token Format". */
  lemma MissingOrMalformedToken(httpMethod: string, token: Option<string>, uri: string, sessionId: string)
    requires !Text.EqualsIgnoreCase("OPTIONS", httpMethod)
    ensures token.None? || token.value == "" ==>
      PreHandle(httpMethod, token, uri, sessionId) == Success(Deny(UNAUTHORIZED, "Missing Authorization Header"))
    ensures token.Some? && token.value != "" && ':' !in token.value ==>
      PreHandle(httpMethod, token, uri, sessionId) == Success(Deny(UNAUTHORIZED, "Invalid Token Format"))
  {
  }

  /** Every other request that gets through carries a token whose session part is the current
      session and whose token part is one of the three mock tokens, and the role table lets that
      role reach the URI. */
  lemma AllowedRequests(httpMethod: string, token: Option<string>, uri: string, sessionId: string)
    requires !Text.EqualsIgnoreCase("OPTIONS", httpMethod)
    requires PreHandle(httpMethod, token, uri, sessionId) == Success(Allow)
    ensures token.Some?
    ensures var parts := Text.JavaSplit(token.value, ':');
      && |parts| >= 2 && parts[1] == sessionId && RoleOf(parts[0]).Some?
      && Access(RoleOf(parts[0]).value, httpMethod, uri) == Allow
  {
  }

  /** Billing users stay inside the billing and login APIs; the billing API is theirs alone; and
      writes to the employee master need the admin token. */
  lemma RoleConfinement(httpMethod: string, token: Option<string>, uri: string, sessionId: string)
    requires !Text.EqualsIgnoreCase("OPTIONS", httpMethod)
    requires PreHandle(httpMethod, token, uri, sessionId) == Success(Allow)
    ensures var realToken := Text.JavaSplit(token.value, ':')[0];
      && (realToken == "mock-bill-token" ==> Text.StartsWith(uri, "/api/billing") || Text.StartsWith(uri, "/api/auth"))
      && (Text.StartsWith(uri, "/api/billing") ==> realToken == "mock-bill-token")
      && (Text.StartsWith(uri, "/api/employees") && httpMethod != "GET" ==> realToken == "mock-admin-token")
  {
    AllowedRequests(httpMethod, token, uri, sessionId);
    if Text.StartsWith(uri, "/api/employees") {
      EmployeesApiApart(uri);
    }
  }

  /** The employee API is neither the billing API nor the login API. */
  lemma EmployeesApiApart(uri: string)
    requires Text.StartsWith(uri, "/api/employees")
    ensures !Text.StartsWith(uri, "/api/billing") && !Text.StartsWith(uri, "/api/auth")
  {
    assert uri[..|"/api/employees"|] == "/api/employees";
    assert uri[5] == 'e';
    assert !Text.StartsWith(uri, "/api/billing") by { assert "/api/billing"[5] == 'b'; }
    assert !Text.StartsWith(uri, "/api/auth") by { assert "/api/auth"[5] == 'a'; }
  }

  /** None of the three mock tokens contains a colon. */
  lemma MockTokensPlain()
    ensures ':' !in "mock-admin-token" && ':' !in "mock-user-token" && ':' !in "mock-bill-token"
  {
    forall t | t in ["mock-admin-token", "mock-user-token", "mock-bill-token"] ensures ':' !in t {
      assert forall i :: 0 <= i < |t| ==> 'a' <= t[i] <= 'z' || t[i] == '-';
    }
  }

  /** Worked case: a user token for the current session reads the employee list. */
  lemma UserReadsEmployees()
    ensures PreHandle("GET", Some("mock-user-token:s1"), "/api/employees", "s1") == Success(Allow)
  {
    assert "mock-user-token:s1" == TokenFor("mock-user-token", "s1");
    assert Text.StartsWith("/api/employees", "/api/employees");
    UserOnEmployees("GET", "/api/employees");
    MockTokensPlain();
    SessionToken("GET", "mock-user-token", "/api/employees", "s1", "s1");
  }

  /** Worked case: the same user may not upload employees. */
  lemma UserMayNotUpload()
    ensures PreHandle("POST", Some("mock-user-token:s1"), "/api/employees/upload", "s1")
      == Success(Deny(FORBIDDEN, "Access Denied: Admins Only"))
  {
    assert "mock-user-token:s1" == TokenFor("mock-user-token", "s1");
    assert Text.StartsWith("/api/employees/upload", "/api/employees") by {
      assert "/api/employees/upload"[..14] == "/api/employees";
    }
    UserOnEmployees("POST", "/api/employees/upload");
    assert !Text.EqualsIgnoreCase("OPTIONS", "POST") by {
      assert |Text.ToLower("OPTIONS")| != |Text.ToLower("POST")|;
    }
    MockTokensPlain();
    SessionToken("POST", "mock-user-token", "/api/employees/upload", "s1", "s1");
  }

  /** A user may read the employee API and may not write to it. */
  lemma UserOnEmployees(httpMethod: string, uri: string)
    requires Text.StartsWith(uri, "/api/employees")
    ensures Access(User, httpMethod, uri) ==
      if httpMethod == "GET" then Allow else Deny(FORBIDDEN, "Access Denied: Admins Only")
  {
    EmployeesApiApart(uri);
  }

  /** Worked case: an admin token from before a restart is refused. */
  lemma StaleAdminRefused()
    ensures PreHandle("GET", Some("mock-admin-token:s0"), "/api/payroll", "s1")
      == Success(Deny(UNAUTHORIZED, "Session Expired (Server Restarted)"))
  {
    assert "mock-admin-token:s0" == TokenFor("mock-admin-token", "s0");
    MockTokensPlain();
    SessionToken("GET", "mock-admin-token", "/api/payroll", "s0", "s1");
  }

  /** A token with nothing after the colon splits into one part, and the filter throws. */
  lemma EmptySessionThrows(realToken: string, httpMethod: string, uri: string, sessionId: string)
    requires !Text.EqualsIgnoreCase("OPTIONS", httpMethod) && ':' !in realToken
    ensures PreHandle(httpMethod, Some(realToken + ":"), uri, sessionId).Failure?
  {
    var t := realToken + ":";
    assert t[|realToken|] == ':';
    SplitAllPrefix(realToken, "");
    assert realToken + ":" + "" == t;
  }
}
