/**
 * The session client of the admin dashboard (the second Angular app): one
 * cached "last known session" slot, written when a session check answers or
 * fails and when a logout succeeds. Each HTTP exchange is an input
 * (`HttpOutcome`), and the router navigation a method triggers is returned
 * as the route it navigates to.
 */
module AdminAuthClient {
  import opened Wire
  import Text

  class AuthService {
    /** The current value of the session subject; `None` is `null`. */
    var session: Option<SessionView>

    /** The slot holds `null` until the first session check answers. */
    constructor()
      ensures session == None
    {
      session := None;
    }

    /**
     * `checkSession`. A 2xx answer is cached as it is; an unauthenticated
     * answer sends the user to the login route unless the current URL
     * already mentions `login`. A failure is absorbed: the slot and the
     * emitted value become `{ authenticated: false }` and nothing navigates.
     */
    method CheckSession(response: HttpOutcome<SessionView>, currentUrl: string)
      returns (emitted: SessionView, navigate: Option<string>)
      modifies this
      ensures session == Some(emitted)
      ensures response.Ok? ==> emitted == response.body
      ensures response.Failed? ==> emitted == Unauthenticated
      ensures navigate.Some? <==>
        response.Ok? && !response.body.authenticated && !Text.Contains(currentUrl, "login")
      ensures navigate.Some? ==> navigate.value == LoginRoute
    {
      match response
      case Ok(s) =>
        session := Some(s);
        emitted := s;
        if !s.authenticated && !Text.Contains(currentUrl, "login") {
          navigate := Some(LoginRoute);
        } else {
          navigate := None;
        }
      case Failed =>
        session := Some(Unauthenticated);
        emitted := Unauthenticated;
        navigate := None;
    }

    /**
     * `login`: the login reply itself is passed through and never cached;
     * only a 2xx reply starts a fresh session check, whose answer is `check`.
     */
    method Login(response: HttpOutcome<LoginReply>, check: HttpOutcome<SessionView>, currentUrl: string)
      returns (result: HttpOutcome<LoginReply>, navigate: Option<string>)
      modifies this
      ensures result == response
      ensures response.Failed? ==> session == old(session) && navigate == None
      ensures response.Ok? && check.Ok? ==> session == Some(check.body)
      ensures response.Ok? && check.Failed? ==> session == Some(Unauthenticated)
      ensures navigate.Some? <==>
        response.Ok? && check.Ok? && !check.body.authenticated && !Text.Contains(currentUrl, "login")
      ensures navigate.Some? ==> navigate.value == LoginRoute
    {
      result := response;
      navigate := None;
      if response.Ok? {
        var _, nav := CheckSession(check, currentUrl);
        navigate := nav;
      }
    }

    /**
     * `logout`: only a 2xx answer empties the slot and navigates to the
     * login route; on failure the slot is left as it was.
     */
    method Logout(response: HttpOutcome<Ack>) returns (result: HttpOutcome<Ack>, navigate: Option<string>)
      modifies this
      ensures result == response
      ensures response.Ok? ==> session == None && navigate == Some(LoginRoute)
      ensures response.Failed? ==> session == old(session) && navigate == None
    {
      result := response;
      if response.Ok? {
        session := None;
        navigate := Some(LoginRoute);
      } else {
        navigate := None;
      }
    }

    /** `getSession`: a plain read of the slot. */
    function GetSession(): (s: Option<SessionView>)
      reads this
      ensures s == session
    {
      session
    }
  }
}
