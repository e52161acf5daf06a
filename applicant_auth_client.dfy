/**
 * The session client of the application wizard (the first Angular app). Its
 * `checkSession` does not absorb failures; only the check started by the
 * constructor maps a failure to `{ authenticated: false }`. Nothing here
 * navigates.
 */
module ApplicantAuthClient {
  import opened Wire

  class AuthService {
    /** The current value of the session subject; `None` is `null`. */
    var session: Option<SessionView>

    /** The slot holds `null` until the first session check answers. */
    constructor()
      ensures session == None
    {
      session := None;
    }

    /**
     * `checkSession`: a 2xx answer is cached as it is; a failure reaches the
     * caller unchanged and leaves the slot as it was.
     */
    method CheckSession(response: HttpOutcome<SessionView>) returns (result: HttpOutcome<SessionView>)
      modifies this
      ensures result == response
      ensures response.Ok? ==> session == Some(response.body)
      ensures response.Failed? ==> session == old(session)
    {
      result := response;
      if response.Ok? {
        session := Some(response.body);
      }
    }

    /**
     * The check the constructor subscribes to: its error handler caches
     * `{ authenticated: false }`, so after it the slot is never `null`.
     */
    method InitialCheck(response: HttpOutcome<SessionView>)
      modifies this
      ensures response.Ok? ==> session == Some(response.body)
      ensures response.Failed? ==> session == Some(Unauthenticated)
    {
      var result := CheckSession(response);
      if result.Failed? {
        session := Some(Unauthenticated);
      }
    }

    /** `getSession`: a plain read of the slot. */
    function GetSession(): (s: Option<SessionView>)
      reads this
      ensures s == session
    {
      session
    }
  }
}
