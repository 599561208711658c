/**
 * The `authenticate` middleware of `POST /login`: the submitted password is
 * compared with the administrator secret first and with the tune secret
 * second, and the session's two capability flags are set accordingly.
 */
module SessionAuth {
  import opened Common

  /** The two configured secrets, compared by plain string equality. */
  datatype Credentials = Credentials(adminPass: string, tunePass: string)

  /** Which branch of the middleware a password takes. */
  datatype Grant = AdminGranted | TuneGranted | Denied

  const LoginSucceeded := "Logged in successfully, refreshing the page..."
  const LoginFailed := "Login failed. Wrong password?"

  /** The `if … else if … else` chain on the submitted password. */
  function Decide(password: string, creds: Credentials): Grant {
    if password == creds.adminPass then AdminGranted
    else if password == creds.tunePass then TuneGranted
    else Denied
  }

  /**
   * The answer to the login request: success lets the request reach the
   * `/login` handler, which answers 200; failure answers 403 from the
   * middleware. The failure text names neither secret.
   */
  function LoginResponse(g: Grant): Response {
    if g == Denied then Response(403, LoginFailed) else Response(200, LoginSucceeded)
  }

  /** The administrator secret always grants the administrator tier. */
  lemma AdminPassGrantsAdmin(creds: Credentials)
    ensures Decide(creds.adminPass, creds) == AdminGranted
  {
  }

  /** The tune secret grants the tune tier whenever it differs from the administrator secret. */
  lemma TunePassGrantsTune(creds: Credentials)
    requires creds.tunePass != creds.adminPass
    ensures Decide(creds.tunePass, creds) == TuneGranted
  {
  }

  /** When both secrets are the same string the administrator branch wins. */
  lemma EqualSecretsGrantAdmin(password: string, creds: Credentials)
    requires creds.adminPass == creds.tunePass == password
    ensures Decide(password, creds) == AdminGranted
  {
  }

  /** Any other password is denied. */
  lemma OtherPasswordsDenied(password: string, creds: Credentials)
    ensures Decide(password, creds) == Denied <==> password != creds.adminPass && password != creds.tunePass
  {
  }

  /** A denial looks the same whichever secret the password missed. */
  lemma DenialRevealsNothing(p1: string, p2: string, c1: Credentials, c2: Credentials)
    requires Decide(p1, c1) == Denied && Decide(p2, c2) == Denied
    ensures LoginResponse(Decide(p1, c1)) == LoginResponse(Decide(p2, c2)) == Response(403, LoginFailed)
  {
  }

  /** The session of one client: created unauthenticated, changed only by logins. */
  class Session {
    var isAdminAuthenticated: bool
    var isTuneAuthenticated: bool

    /** Administrator authentication implies tune authentication. */
    predicate Valid()
      reads this
    {
      isAdminAuthenticated ==> isTuneAuthenticated
    }

    constructor ()
      ensures Valid()
      ensures !isAdminAuthenticated && !isTuneAuthenticated
    {
      isAdminAuthenticated := false;
      isTuneAuthenticated := false;
    }

    /** `authenticate` followed, on success, by the `/login` handler. */
    method Login(password: string, creds: Credentials) returns (resp: Response)
      requires Valid()
      modifies this
      ensures Valid()
      ensures resp == LoginResponse(Decide(password, creds))
      ensures password == creds.adminPass ==> isAdminAuthenticated && isTuneAuthenticated
      ensures password != creds.adminPass && password == creds.tunePass ==>
                !isAdminAuthenticated && isTuneAuthenticated
      ensures password != creds.adminPass && password != creds.tunePass ==>
                isAdminAuthenticated == old(isAdminAuthenticated) && isTuneAuthenticated == old(isTuneAuthenticated)
    {
      if password == creds.adminPass {
        isAdminAuthenticated := true;
        isTuneAuthenticated := true;
        resp := Response(200, LoginSucceeded);
      } else if password == creds.tunePass {
        isAdminAuthenticated := false;
        isTuneAuthenticated := true;
        resp := Response(200, LoginSucceeded);
      } else {
        resp := Response(403, LoginFailed);
      }
    }
  }

  /** A tune login on a fresh session: tune tier only, answered with success. */
  method TuneLoginScenario(creds: Credentials) returns (admin: bool, tune: bool, status: nat)
    requires creds.tunePass != creds.adminPass
    ensures !admin && tune && status == 200
  {
    var s := new Session();
    var resp := s.Login(creds.tunePass, creds);
    admin, tune, status := s.isAdminAuthenticated, s.isTuneAuthenticated, resp.status;
  }

  /** A failed login after an administrator login leaves the administrator tier in place. */
  method FailedLoginKeepsTier(creds: Credentials, wrong: string) returns (admin: bool, tune: bool, status: nat)
    requires wrong != creds.adminPass && wrong != creds.tunePass
    ensures admin && tune && status == 403
  {
    var s := new Session();
    var first := s.Login(creds.adminPass, creds);
    var resp := s.Login(wrong, creds);
    admin, tune, status := s.isAdminAuthenticated, s.isTuneAuthenticated, resp.status;
  }
}
