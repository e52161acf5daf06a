/**
 * The JSON bodies exchanged between the session API and its browser clients,
 * and the outcome of one HTTP exchange as a client sees it.
 */
module Wire {

  datatype Option<+T> = None | Some(value: T)

  /**
   * Body of `GET /api/auth/session`. A field the server leaves out, or sends
   * as `null`, is `None`; clients read both the same way.
   */
  datatype SessionView = SessionView(
    authenticated: bool,
    userType: Option<string>,
    name: Option<string>,
    email: Option<string>,
    phone: Option<string>)

  /** `{ authenticated: false }` and nothing else. */
  const Unauthenticated: SessionView := SessionView(false, None, None, None, None)

  /**
   * Body of a login call: `LoginOk` is the 200 `{ success: true, ... }` body,
   * `LoginDenied` the 401 `{ success: false, message }` body.
   */
  datatype LoginReply =
    | LoginOk(userType: string, name: Option<string>, email: Option<string>, phone: Option<string>)
    | LoginDenied(message: string)

  /** Body of `POST /api/auth/logout`. */
  datatype Ack = Ack(success: bool)

  /**
   * What the HTTP client hands back for one request: a 2xx body, or a failure
   * (network error or non-2xx status, 401 included).
   */
  datatype HttpOutcome<+T> = Ok(body: T) | Failed

  /** The client-side route every rejection and logout sends the user to. */
  const LoginRoute: string := "/login"

  /** True iff the session carries `userType: "admin"`; the `authenticated` flag is not consulted. */
  predicate IsAdminSession(session: Option<SessionView>) {
    session.Some? && session.value.userType == Some("admin")
  }
}
