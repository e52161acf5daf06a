/**
 * The session API of the .NET backend (`AuthController`): phone/OTP login for
 * regular users, email/password login for admins, the session query and
 * logout. The signed session cookie of one browser context is modelled as the
 * claims it carries, `Option<Claims>`; signing, encryption and expiry belong
 * to the framework and are not modelled.
 */
module SessionAuthority {
  import opened Wire
  import Text

  /** Regular users: phone number to one-time password. Read-only. */
  const PhoneUsers: map<string, string> := map[
    "+1234567890" := "123456",
    "+9876543210" := "654321"
  ]

  /** Admin users: email to password. Read-only. */
  const AdminUsers: map<string, string> := map[
    "admin@example.com" := "admin123",
    "supervisor@example.com" := "super456"
  ]

  const PhoneFailureMessage: string := "Invalid phone or OTP"
  const AdminFailureMessage: string := "Invalid email or password"

  /**
   * The claims a session cookie carries. `subject` is the fresh identifier
   * the server draws at sign-in; no query ever returns it.
   */
  datatype Claims = Claims(
    subject: string,
    name: string,
    userType: string,
    email: Option<string>,
    phone: Option<string>)

  /** `TryGetValue(key, out stored) && stored == secret`. */
  predicate Matches(table: map<string, string>, key: string, secret: string) {
    key in table && table[key] == secret
  }

  /**
   * The display name of an admin: the text before the first `@`, with its
   * first character upper-cased. The source indexes that character, so the
   * text before the first `@` must not be empty.
   */
  function ExtractNameFromEmail(email: string): (name: string)
    requires |email| > 0 && email[0] != '@'
    ensures |name| > 0 && name[0] == Text.UpperChar(email[0])
    ensures |name| <= |email| && name[1..] == email[1..|name|]
    ensures '@' !in name
    ensures |name| < |email| ==> email[|name|] == '@'
  {
    Text.SplitFirstPiece(email, '@');
    var local := Text.Split(email, '@')[0];
    [Text.UpperChar(local[0])] + local[1..]
  }

  /** Every admin email has a non-empty text before its `@`. */
  lemma AdminEmailsHaveLocalPart(email: string)
    requires email in AdminUsers
    ensures |email| > 0 && email[0] != '@'
  {
  }

  /**
   * The claims issued by a successful phone login: a `regular` user named
   * after the phone number, which the session query then reports.
   */
  function PhoneClaims(subject: string, phone: string): (c: Claims)
    ensures c.subject == subject
    ensures SessionOf(Some(c)) == SessionView(true, Some("regular"), Some("User " + phone), None, Some(phone))
  {
    Claims(subject, "User " + phone, "regular", None, Some(phone))
  }

  /**
   * The claims issued by a successful admin login: an `admin` user named
   * after the text before the `@`, which the session query then reports.
   */
  function AdminClaims(subject: string, email: string): (c: Claims)
    requires |email| > 0 && email[0] != '@'
    ensures c.subject == subject
    ensures |c.name| > 0 && c.name[0] == Text.UpperChar(email[0]) && '@' !in c.name
    ensures SessionOf(Some(c)) == SessionView(true, Some("admin"), Some(ExtractNameFromEmail(email)), Some(email), None)
  {
    Claims(subject, ExtractNameFromEmail(email), "admin", Some(email), None)
  }

  /**
   * `GetSession`: what the session query reports for a browser context that
   * carries `principal`. It has no failure case.
   */
  function SessionOf(principal: Option<Claims>): (v: SessionView)
    ensures v.authenticated <==> principal.Some?
    ensures principal.None? ==> v == Unauthenticated
    ensures principal.Some? ==>
      v.userType == Some(principal.value.userType) && v.name == Some(principal.value.name) &&
      v.email == principal.value.email && v.phone == principal.value.phone
  {
    match principal
    case None => Unauthenticated
    case Some(c) => SessionView(true, Some(c.userType), Some(c.name), c.email, c.phone)
  }

  /** Two sign-ins that differ only in the drawn subject are reported identically. */
  lemma SessionHidesSubject(c: Claims, subject: string)
    ensures SessionOf(Some(c)) == SessionOf(Some(c.(subject := subject)))
  {
  }

  /**
   * The server side of one browser context: the claims of its session
   * cookie, if it has a valid one.
   */
  class AuthController {
    var principal: Option<Claims>

    /** A browser context that has never signed in. */
    constructor()
      ensures principal == None
    {
      principal := None;
    }

    /** `GET /api/auth/session`. */
    function GetSession(): (v: SessionView)
      reads this
      ensures v == SessionOf(principal)
    {
      SessionOf(principal)
    }

    /**
     * `POST /api/auth/login/phone`; `subject` stands for the fresh GUID.
     * An unknown phone and a wrong OTP get the same reply.
     */
    method LoginWithPhone(phone: string, otp: string, subject: string) returns (reply: LoginReply)
      modifies this
      ensures reply.LoginOk? <==> Matches(PhoneUsers, phone, otp)
      ensures Matches(PhoneUsers, phone, otp) ==>
        && reply == LoginOk("regular", None, None, Some(phone))
        && principal == Some(PhoneClaims(subject, phone))
        && GetSession() == SessionView(true, Some("regular"), Some("User " + phone), None, Some(phone))
      ensures !Matches(PhoneUsers, phone, otp) ==>
        reply == LoginDenied(PhoneFailureMessage) && principal == old(principal)
    {
      if phone in PhoneUsers && PhoneUsers[phone] == otp {
        principal := Some(PhoneClaims(subject, phone));
        reply := LoginOk("regular", None, None, Some(phone));
      } else {
        reply := LoginDenied(PhoneFailureMessage);
      }
    }

    /**
     * `POST /api/auth/login/admin`; `subject` stands for the fresh GUID.
     * An unknown email and a wrong password get the same reply.
     */
    method LoginAsAdmin(email: string, password: string, subject: string) returns (reply: LoginReply)
      modifies this
      ensures reply.LoginOk? <==> Matches(AdminUsers, email, password)
      ensures Matches(AdminUsers, email, password) ==>
        && |email| > 0 && email[0] != '@'
        && reply == LoginOk("admin", Some(ExtractNameFromEmail(email)), Some(email), None)
        && principal == Some(AdminClaims(subject, email))
        && GetSession() == SessionView(true, Some("admin"), Some(ExtractNameFromEmail(email)), Some(email), None)
      ensures !Matches(AdminUsers, email, password) ==>
        reply == LoginDenied(AdminFailureMessage) && principal == old(principal)
    {
      if email in AdminUsers && AdminUsers[email] == password {
        AdminEmailsHaveLocalPart(email);
        principal := Some(AdminClaims(subject, email));
        reply := LoginOk("admin", Some(ExtractNameFromEmail(email)), Some(email), None);
      } else {
        reply := LoginDenied(AdminFailureMessage);
      }
    }

    /** `POST /api/auth/logout`: always acknowledged, whether or not a session existed. */
    method Logout() returns (ack: Ack)
      modifies this
      ensures ack == Ack(true)
      ensures principal == None && GetSession() == Unauthenticated
    {
      principal := None;
      ack := Ack(true);
    }
  }

  /** The seeded phone user logs in with the seeded OTP, and with no other. */
  lemma SeededPhoneLogin(otp: string)
    ensures Matches(PhoneUsers, "+1234567890", otp) <==> otp == "123456"
  {
  }

  /** The display name of `local@domain` is `local` with its first character upper-cased. */
  lemma NameOfEmail(local: string, domain: string)
    requires |local| > 0 && '@' !in local
    ensures ExtractNameFromEmail(local + "@" + domain) == [Text.UpperChar(local[0])] + local[1..]
  {
    var e := local + "@" + domain;
    var n := ExtractNameFromEmail(e);
    assert e[|local|] == '@';
    assert forall i :: 0 <= i < |local| ==> e[i] == local[i];
    assert forall i :: 1 <= i < |n| ==> n[i] == e[i];
    assert n[1..] == local[1..];
  }

  /** The display name of the seeded admin is `Admin`. */
  lemma SeededAdminName()
    ensures ExtractNameFromEmail("admin@example.com") == "Admin"
  {
    var local, domain := "admin", "example.com";
    NameOfEmail(local, domain);
    assert local + "@" + domain == "admin@example.com";
    assert [Text.UpperChar(local[0])] + local[1..] == "Admin";
  }
}
