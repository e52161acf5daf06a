/**
 * The route guard of the admin dashboard. It reads the cached session (it
 * does not start a fresh check) and admits only sessions whose `userType` is
 * `admin`; every rejection navigates to the login route.
 */
module AdminGuard {
  import opened Wire
  import SessionAuthority
  import AdminAuthClient

  /** Whether navigation may proceed, and where the guard navigates instead. */
  datatype Decision = Decision(allow: bool, navigate: Option<string>)

  function Decide(session: Option<SessionView>): (d: Decision)
    ensures d.allow <==> IsAdminSession(session)
    ensures !d.allow <==> d.navigate == Some(LoginRoute)
    ensures d.allow <==> d.navigate == None
  {
    if session.None? then Decision(false, Some(LoginRoute))
    else if !IsAdminSession(session) then Decision(false, Some(LoginRoute))
    else Decision(true, None)
  }

  /** `authGuard`: decides on what `getSession` returns, and writes nothing. */
  method CanActivate(auth: AdminAuthClient.AuthService) returns (d: Decision)
    ensures d == Decide(auth.session)
    ensures d.allow <==> IsAdminSession(auth.session)
    ensures !d.allow <==> d.navigate == Some(LoginRoute)
    ensures d.allow <==> d.navigate == None
  {
    var session := auth.GetSession();
    d := Decide(session);
  }

  /** The `authenticated` flag never changes the decision. */
  lemma AuthenticatedFlagIgnored(s: SessionView, flag: bool)
    ensures Decide(Some(s)) == Decide(Some(s.(authenticated := flag)))
  {
  }

  /** A session the server reports right after an admin login is admitted. */
  lemma AdminLoginAdmitted(subject: string, email: string)
    requires |email| > 0 && email[0] != '@'
    ensures Decide(Some(SessionAuthority.SessionOf(Some(SessionAuthority.AdminClaims(subject, email))))).allow
  {
  }

  /** A session the server reports right after a phone login is turned away. */
  lemma PhoneLoginRejected(subject: string, phone: string)
    ensures !Decide(Some(SessionAuthority.SessionOf(Some(SessionAuthority.PhoneClaims(subject, phone))))).allow
  {
  }

  /** An empty slot, and the value a failed check caches, are turned away. */
  lemma SignedOutRejected()
    ensures !Decide(None).allow
    ensures !Decide(Some(Unauthenticated)).allow
  {
  }
}
