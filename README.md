# Multi-app authentication system: a verified model of the session contract

The system is a cookie-session login API written for ASP.NET Core, plus browser
clients that call it. This project models the parts with exact behaviour:

- **Session authority** (`SessionAuthority`, from the .NET `AuthController`). Two
  read-only credential tables: phone to one-time password, and admin email to
  password. Phone login and admin login, the claims a successful login issues,
  the display name derived from an admin email, the session query and logout.
  The signed cookie of one browser context is the field `principal:
  Option<Claims>` of the class `AuthController`. Signing in sets the field,
  signing out clears it, and `GetSession` projects it.
- **Session clients.** `AdminAuthClient` models the admin dashboard's
  `AuthService` and `ApplicantAuthClient` the application wizard's. Each is a
  class with one slot, `session: Option<SessionView>`. The HTTP outcome of each
  call (`Ok(body)` or `Failed`) is a method parameter. The router navigation a
  call triggers is returned as the route it navigates to.
- **Route guard** (`AdminGuard`). The accept-or-redirect decision over the cached
  session.
- **Pure helpers** in the Angular apps: the case-insensitive multi-field search
  pipe (`SearchFilter`), the status label of the dashboard (`Dashboard`), and
  the wizard's bounded step counter and "back" target (`ApplicationWizard`).
- `Text` holds the string operations these use: ASCII case mapping, trimming,
  substring search, split and join. `Wire` holds the JSON bodies exchanged over
  HTTP.

Three behaviours of the code that are easy to miss:

- The admin dashboard's `logout` clears the cached session only when the logout
  request succeeds (the update sits in `tap`). It does not clear it
  optimistically before the request.
- The admin guard reads the cached session through `getSession`. It does not
  start a fresh session check.
- The admin dashboard's constructor subscribes to `checkSession` with an error
  handler. That handler is unreachable, because `checkSession` already catches
  every failure. So the model's initial check is an ordinary `CheckSession`.
  The application wizard's `checkSession` does not catch failures, so its
  constructor's handler is reachable. It is modelled as `InitialCheck`.

## Model

| member | source | states |
|---|---|---|
| `SessionAuthority.AuthController.LoginWithPhone` | backend-dotnet/Controllers/AuthController.cs:25-45 | login succeeds iff the phone is in the phone table and its OTP equals the one supplied; success replies `{success, userType:"regular", phone}` and signs in the phone claims, so the session query then reports `authenticated`, `regular`, `User <phone>`, the phone and no email; an unknown phone and a wrong OTP both reply `Invalid phone or OTP` and leave the sign-in state unchanged |
| `SessionAuthority.AuthController.LoginAsAdmin` | backend-dotnet/Controllers/AuthController.cs:47-72 | login succeeds iff the email is in the admin table and the password matches; success replies `userType:"admin"`, the name extracted from the email and the email, and signs in the admin claims, so the session query then reports them with no phone; failure replies `Invalid email or password` and leaves the sign-in state unchanged |
| `SessionAuthority.AuthController.GetSession` | backend-dotnet/Controllers/AuthController.cs:74-95 | the session query is the projection `SessionOf` of the current sign-in state, for every state (it has no failure) |
| `SessionAuthority.AuthController.Logout` | backend-dotnet/Controllers/AuthController.cs:97-102 | logout always acknowledges `{success:true}`; afterwards the session query reports exactly `{authenticated:false}`, whatever the state before, so a second logout changes nothing |
| `SessionAuthority.AuthController.constructor` | backend-dotnet/Controllers/AuthController.cs:77 | a browser context without a session cookie is not signed in |
| `SessionAuthority.PhoneClaims` | backend-dotnet/Controllers/AuthController.cs:31-37 | a phone login's claims keep the drawn subject, and the session query reports them as an authenticated `regular` user named `User <phone>` with that phone and no email |
| `SessionAuthority.AdminClaims` | backend-dotnet/Controllers/AuthController.cs:53-59 | an admin login's claims keep the drawn subject and carry a non-empty name without `@` that starts with the email's first character upper-cased; the session query reports them as an authenticated `admin` user with that name and email and no phone |
| `SessionAuthority.SessionOf` | backend-dotnet/Controllers/AuthController.cs:77-94 | `authenticated` is true iff a principal is signed in; with none the reply is exactly `{authenticated:false}`; otherwise it carries the principal's user type, name, email and phone claims |
| `SessionAuthority.SessionHidesSubject` | backend-dotnet/Controllers/AuthController.cs:79-91 | the drawn subject identifier never shows in the session query: two principals that differ only in it are reported identically |
| `SessionAuthority.ExtractNameFromEmail` | backend-dotnet/Controllers/AuthController.cs:120-124 | for an email whose text before the first `@` is not empty, the name is that text with its first character upper-cased and the rest unchanged: it has no `@`, and in the email it is followed by `@` or by nothing |
| `SessionAuthority.NameOfEmail` | backend-dotnet/Controllers/AuthController.cs:120-124 | the name of `local@domain` is `local` with its first character upper-cased, for any `local` without `@` |
| `SessionAuthority.SeededAdminName` | backend-dotnet/Controllers/AuthController.cs:120-124 | the seeded admin `admin@example.com` is named `Admin` |
| `SessionAuthority.AdminEmailsHaveLocalPart` | backend-dotnet/Controllers/AuthController.cs:19-23 | every seeded admin email has a non-empty text before its `@`, so admin login never indexes an empty name |
| `SessionAuthority.SeededPhoneLogin` | backend-dotnet/Controllers/AuthController.cs:13-17 | the seeded phone `+1234567890` logs in with OTP `123456` and with no other |
| `AdminAuthClient.AuthService.constructor` | frontend-angular2/src/app/services/auth.service.ts:25 | the cached session starts as `null` |
| `AdminAuthClient.AuthService.CheckSession` | frontend-angular2/src/app/services/auth.service.ts:46-61 | a 2xx answer is cached and emitted exactly as received; a failure is never propagated: the cache and the emitted value become `{authenticated:false}`; it navigates to `/login` iff the answer is 2xx, unauthenticated, and the current URL does not contain `login` |
| `AdminAuthClient.AuthService.Login` | frontend-angular2/src/app/services/auth.service.ts:37-44 | the login reply is passed through and never written to the cache; a failed login changes nothing; a 2xx login leaves the cache as a fresh session check sets it |
| `AdminAuthClient.AuthService.Logout` | frontend-angular2/src/app/services/auth.service.ts:63-71 | a 2xx logout sets the cache to `null` and navigates to `/login`; a failed one leaves the cache unchanged and does not navigate |
| `AdminAuthClient.AuthService.GetSession` | frontend-angular2/src/app/services/auth.service.ts:73-75 | returns the cached value; as a function it changes nothing |
| `ApplicantAuthClient.AuthService.constructor` | frontend-angular1/src/app/services/auth.service.ts:19 | the cached session starts as `null` |
| `ApplicantAuthClient.AuthService.CheckSession` | frontend-angular1/src/app/services/auth.service.ts:31-38 | a 2xx answer is cached exactly as received; a failure is passed to the caller and leaves the cache unchanged |
| `ApplicantAuthClient.AuthService.InitialCheck` | frontend-angular1/src/app/services/auth.service.ts:22-29 | the constructor's check caches a 2xx answer as received and maps a failure to `{authenticated:false}` |
| `ApplicantAuthClient.AuthService.GetSession` | frontend-angular1/src/app/services/auth.service.ts:40-42 | returns the cached value; as a function it changes nothing; nothing in this service navigates |
| `AdminGuard.Decide` | frontend-angular2/src/app/guards/auth.guard.ts:11-22 | admits iff the session is non-null and its `userType` is `admin`; every rejection navigates to `/login` and an admission navigates nowhere |
| `AdminGuard.CanActivate` | frontend-angular2/src/app/guards/auth.guard.ts:5-23 | the guard's decision is `Decide` of the client's cached session: it admits exactly admin sessions, navigates to `/login` on every rejection and nowhere on an admission, and modifies nothing |
| `AdminGuard.AuthenticatedFlagIgnored` | frontend-angular2/src/app/guards/auth.guard.ts:11-22 | the `authenticated` flag never changes the decision |
| `AdminGuard.AdminLoginAdmitted` | frontend-angular2/src/app/guards/auth.guard.ts:17-22 | the session the server reports after an admin login is admitted |
| `AdminGuard.PhoneLoginRejected` | frontend-angular2/src/app/guards/auth.guard.ts:17-20 | the session the server reports after a phone login is rejected |
| `AdminGuard.SignedOutRejected` | frontend-angular2/src/app/guards/auth.guard.ts:11-20 | an empty cache, and the `{authenticated:false}` a failed check caches, are rejected |
| `SearchFilter.Truthy` | frontend-angular2/src/app/pipes/filter.pipe.ts:18 | a field value is falsy iff it is `""`, `0`, `false` or `null`; every truthy value prints as non-empty text |
| `SearchFilter.ToText` | frontend-angular2/src/app/pipes/filter.pipe.ts:19 | a string prints as itself; a non-negative number prints as decimal digits that denote it, a negative one as `-` followed by the digits of its magnitude; a boolean prints as `true` or `false` |
| `SearchFilter.DigitsOf` | frontend-angular2/src/app/pipes/filter.pipe.ts:19 | the decimal text of a natural number is non-empty, all digits, denotes the number, and starts with `0` only for zero |
| `SearchFilter.IsBlank` | frontend-angular2/src/app/pipes/filter.pipe.ts:9 | a term counts as blank iff it is all whitespace (the empty term included) |
| `SearchFilter.Needle` | frontend-angular2/src/app/pipes/filter.pipe.ts:13 | the needle occurs in the lower-cased term, is no longer than the term, and is empty iff the term is blank |
| `SearchFilter.Transform` | frontend-angular2/src/app/pipes/filter.pipe.ts:8-24 | a `null` list or a blank term returns the input unchanged; otherwise an item is in the result iff it is in the input and some listed field matches the trimmed, lower-cased term |
| `SearchFilter.AnyFieldMatches` | frontend-angular2/src/app/pipes/filter.pipe.ts:16-22 | true iff some listed field holds a truthy value whose lower-cased text contains the needle |
| `SearchFilter.Keep` | frontend-angular2/src/app/pipes/filter.pipe.ts:15-23 | the filtered list is no longer than the input, and an item is in it iff it is in the input and matches |
| `SearchFilter.KeepCounts` | frontend-angular2/src/app/pipes/filter.pipe.ts:15-23 | a matching item keeps all its occurrences; any other item keeps none |
| `SearchFilter.KeepIsSubsequence` | frontend-angular2/src/app/pipes/filter.pipe.ts:15-23 | the filtered list is an order-preserving subsequence of the input |
| `SearchFilter.TransformIsSubsequence` | frontend-angular2/src/app/pipes/filter.pipe.ts:9-23 | for a non-null list, the pipe's result is an order-preserving subsequence of it |
| `SearchFilter.KeepIdempotent` | frontend-angular2/src/app/pipes/filter.pipe.ts:15-23 | filtering a filtered list again changes nothing |
| `SearchFilter.TransformIdempotent` | frontend-angular2/src/app/pipes/filter.pipe.ts:9-23 | applying the pipe twice with the same arguments equals applying it once |
| `SearchFilter.BlankIgnoresCase` | frontend-angular2/src/app/pipes/filter.pipe.ts:9-13 | whether a term is blank does not depend on its letter case |
| `SearchFilter.TransformIgnoresTermCase` | frontend-angular2/src/app/pipes/filter.pipe.ts:9-23 | two terms that differ only in letter case give the same result |
| `SearchFilter.NoFieldsKeepsNothing` | frontend-angular2/src/app/pipes/filter.pipe.ts:16 | with a non-blank term and no fields, the result is empty |
| `SearchFilter.KeepWithoutFields` | frontend-angular2/src/app/pipes/filter.pipe.ts:16 | with no fields, no item is kept |
| `SearchFilter.FalsyItemDropped` | frontend-angular2/src/app/pipes/filter.pipe.ts:17-21 | with a non-blank term, an item whose listed fields are all missing or falsy is dropped |
| `Text.Lower` | frontend-angular2/src/app/pipes/filter.pipe.ts:13 | lower-casing keeps the length and maps each character on its own |
| `Text.LowerIdempotent` | frontend-angular2/src/app/pipes/filter.pipe.ts:13 | lower-casing twice is lower-casing once |
| `Text.LowerKeepsWhitespace` | frontend-angular2/src/app/pipes/filter.pipe.ts:13 | lower-casing neither creates nor removes whitespace |
| `Text.TrimStart` | frontend-angular2/src/app/pipes/filter.pipe.ts:9 | the result is the suffix left after a run of whitespace, and does not start with whitespace |
| `Text.TrimEnd` | frontend-angular2/src/app/pipes/filter.pipe.ts:9 | the result is the prefix before a run of whitespace, and does not end with whitespace |
| `Text.Trim` | frontend-angular2/src/app/pipes/filter.pipe.ts:9-13 | the trimmed text occurs in the input and neither starts nor ends with whitespace |
| `Text.Contains` | frontend-angular2/src/app/pipes/filter.pipe.ts:19 | `includes` is false whenever the needle is longer than the text, and true whenever the needle is a prefix of it |
| `Text.TrimEmptyIffAllWhitespace` | frontend-angular2/src/app/pipes/filter.pipe.ts:9 | `trim()` gives the empty string iff the input is all whitespace |
| `Text.UpperChar` | backend-dotnet/Controllers/AuthController.cs:123 | lower-case ASCII letters map to their upper-case letter; every other character is unchanged |
| `Text.Split` | frontend-angular2/src/app/pages/dashboard/dashboard.component.ts:101 | a split always has at least one piece |
| `Text.SplitPiecesAvoidSeparator` | frontend-angular2/src/app/pages/dashboard/dashboard.component.ts:101 | no piece contains the separator |
| `Text.JoinSplit` | frontend-angular2/src/app/pages/dashboard/dashboard.component.ts:101-103 | joining the pieces with the separator gives back the input |
| `Text.SplitNoSeparator` | frontend-angular2/src/app/pages/dashboard/dashboard.component.ts:101 | a string without the separator splits into itself alone |
| `Text.SplitAtFirst` | frontend-angular2/src/app/pages/dashboard/dashboard.component.ts:101 | the text before the first separator is the first piece, and the rest is split on its own |
| `Text.Join` | frontend-angular2/src/app/pages/dashboard/dashboard.component.ts:103 | a join starts with its first part |
| `Text.JoinCharacters` | frontend-angular2/src/app/pages/dashboard/dashboard.component.ts:103 | every character of a join comes from the separator or from one of the parts |
| `Text.SplitFirstPiece` | backend-dotnet/Controllers/AuthController.cs:122 | the first piece is a prefix of the input without the separator, followed by the separator or by nothing |
| `Dashboard.Capitalize` | frontend-angular2/src/app/pages/dashboard/dashboard.component.ts:102 | a capitalised word has the word's length, its first character upper-cased, and every other character unchanged |
| `Dashboard.StatusLabel` | frontend-angular2/src/app/pages/dashboard/dashboard.component.ts:100-104 | the label is exactly as long as the status, each `-` becoming one space; `StatusLabelCharacterised` states every character |
| `Dashboard.CapitalizeAll` | frontend-angular2/src/app/pages/dashboard/dashboard.component.ts:101-102 | every piece is capitalised on its own, and the number of pieces is kept |
| `Dashboard.StatusLabelCharacterised` | frontend-angular2/src/app/pages/dashboard/dashboard.component.ts:100-104 | the label has the length of the status; a `-` becomes a space, the first character of each piece is upper-cased, and every other character is unchanged |
| `Dashboard.StatusLabelHasNoHyphen` | frontend-angular2/src/app/pages/dashboard/dashboard.component.ts:100-104 | a label never contains `-` |
| `Dashboard.LabelOfSingleWord` | frontend-angular2/src/app/pages/dashboard/dashboard.component.ts:100-104 | a status without `-` is labelled by upper-casing its first character |
| `Dashboard.LabelOfTwoWords` | frontend-angular2/src/app/pages/dashboard/dashboard.component.ts:100-104 | a status `first-second` of two hyphen-free words is labelled with both words capitalised and a space between them |
| `Dashboard.InReviewLabel` | frontend-angular2/src/app/pages/dashboard/dashboard.component.ts:21 | the declared status `in-review` is labelled `In Review` |
| `Dashboard.PendingLabel` | frontend-angular2/src/app/pages/dashboard/dashboard.component.ts:21 | the declared status `pending` is labelled `Pending` |
| `Dashboard.ApprovedLabel` | frontend-angular2/src/app/pages/dashboard/dashboard.component.ts:21 | the declared status `approved` is labelled `Approved` |
| `Dashboard.RejectedLabel` | frontend-angular2/src/app/pages/dashboard/dashboard.component.ts:21 | the declared status `rejected` is labelled `Rejected` |
| `ApplicationWizard.Wizard.constructor` | frontend-angular1/src/app/pages/application/application.component.ts:34-35 | the wizard opens on step 1 of 4 |
| `ApplicationWizard.Wizard.NextStep` | frontend-angular1/src/app/pages/application/application.component.ts:74-78 | advances by one only before the last step and is a no-op on it; `totalSteps` is unchanged and `1 <= currentStep <= totalSteps` is preserved |
| `ApplicationWizard.Wizard.PrevStep` | frontend-angular1/src/app/pages/application/application.component.ts:80-84 | goes back by one only after step 1 and is a no-op on it; `totalSteps` is unchanged and `1 <= currentStep <= totalSteps` is preserved |
| `ApplicationWizard.BackTarget` | frontend-angular1/src/app/pages/application/application.component.ts:68-72 | the target is the admin dashboard (`:4300`) iff the session's `userType` is `admin`, and the applicant home (`:3000`) otherwise, a `null` session included |
| `ApplicationWizard.BackTargetAgreesWithGuard` | frontend-angular1/src/app/pages/application/application.component.ts:68-71 | "back" leads to the admin dashboard for exactly the sessions the dashboard's guard admits |

## Left out

- Cookie signing and encryption, the 24-hour sliding expiry, and the `Secure` and `SameSite` flags are done by the framework and configured in `backend-dotnet/Program.cs`. A valid cookie is modelled as the claims it carries.
- The GUID drawn at sign-in is nondeterministic. It is a parameter `subject` of the login methods.
- `char.ToUpper` and `toUpperCase`/`toLowerCase` use culture and Unicode case rules. The model maps ASCII letters only. JavaScript `trim()` also strips Unicode spaces; the model strips ASCII whitespace only.
- SearchFilter.ToText: JavaScript numbers are modelled as the integers of magnitude below 2^53 (`JsInt`). JavaScript holds these exactly and prints them as plain decimal digits. Fractions, larger integers (held inexactly, and printed in exponent form from 1e21), `NaN`, `Infinity`, and object or array field values are not modelled.
- SessionAuthority.AuthController.LoginWithPhone: `phone` and `otp` are non-null strings. In the source, a request body whose `phone` is missing or `null` is refused with status 400 by model binding, because the record's parameters are non-nullable. If it got through, `TryGetValue(null)` would throw. Neither path is modelled.
- SessionAuthority.AuthController.LoginAsAdmin: `email` and `password` are non-null strings. A missing or `null` `email` meets the same 400 or `TryGetValue(null)` path as the phone login. Neither path is modelled.
- The search term is modelled as a string. A `null` or `undefined` term behaves like the empty string in the source, and so returns the input.
- `null` and a missing JSON field are both `None` in `SessionView`. No client distinguishes them.
- RxJS subscription timing, the fan-out of the session subject to subscribers, and races between concurrent session checks are not modelled. Each call is one sequential update of the slot.
- Logging (`console.error`) and the HTTP requests themselves are not modelled. Their outcomes are inputs.
- `progressPercentage` in the application component uses floating-point division and `Math.round`. It is not modelled.
- The `window.location` assignments are not modelled. Only the choice of the target URL is.
- The dashboard's mock application table, the Angular form builders and validators, and the component `session` fields fed by subscriptions are not modelled.
- The login page component, the app bootstrap and HTTP interceptor, and the Next.js client are not modelled. They hold UI flags and fetch and cookie-forwarding plumbing.
