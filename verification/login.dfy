/**
 * The login page (`Login`): the page a signed-in user lands on, the rules
 * of the login and forgotten-password forms, and the guard that ignores a
 * submission while another is in flight.
 */
module Login {
  import opened Common
  import opened Roles
  import opened EmailFormat

  // --------------------------------------------------------- landing page

  /** The home page of each role. */
  function RoleHome(role: Role): string {
    match role
    case Admin => "/admin"
    case Finance => "/finance"
    case Approver => "/approval"
    case User => "/user"
  }

  /** The page `onSubmitLogin` navigates to for the `role_code` of the user
      information: a switch over the four codes, anything else (a missing
      code included) going to the home page "/". */
  function LandingRoute(roleCode: Option<string>): (r: string)
    ensures forall role: Role :: roleCode == Some(role.Code()) ==> r == RoleHome(role)
    ensures (roleCode.None? || FromCode(roleCode.value).None?) ==> r == "/"
  {
    if roleCode == Some("A001") then "/admin"
    else if roleCode == Some("A002") then "/finance"
    else if roleCode == Some("A003") then "/approval"
    else if roleCode == Some("A004") then "/user"
    else "/"
  }

  /** Different roles land on different pages, none of them the home page. */
  lemma RoleHomesDistinct(a: Role, b: Role)
    ensures RoleHome(a) != "/"
    ensures RoleHome(a) == RoleHome(b) <==> a == b
  {
  }

  /** A user leaves the home page exactly when the code names a role. */
  lemma LandingRouteIff(roleCode: Option<string>)
    ensures LandingRoute(roleCode) != "/" <==> roleCode.Some? && FromCode(roleCode.value).Some?
  {
    if roleCode.Some? && FromCode(roleCode.value).Some? {
      RoleHomesDistinct(FromCode(roleCode.value).value, FromCode(roleCode.value).value);
    }
  }

  // ------------------------------------------------------------ the forms

  const LoginEmailRequired := "Email is required"
  const ForgotEmailRequired := "Please enter email again"
  const InvalidEmail := "Invalid email format"
  const PasswordRequired := "Password is required"
  const PasswordTooShort := "Password must be at least 6 characters"

  /** The shortest password the login form accepts. */
  const MinPasswordLength: nat := 6

  /** The message under each field of the login form, if any. */
  datatype LoginErrors = LoginErrors(email: Option<string>, password: Option<string>)

  /** The login form's rules as the form library applies them: a field's
      required rule first, then its length or pattern rule. The e-mail must
      be of the loose form, the password at least six characters long. */
  method ValidateLogin(email: string, password: string) returns (r: LoginErrors)
    ensures r.email.None? <==> LooseEmail(email)
    ensures r.email == Some(LoginEmailRequired) <==> email == ""
    ensures r.email.Some? ==> r.email.value in {LoginEmailRequired, InvalidEmail}
    ensures r.password.None? <==> |password| >= MinPasswordLength
    ensures r.password == Some(PasswordRequired) <==> password == ""
    ensures r.password == Some(PasswordTooShort) <==> 0 < |password| < MinPasswordLength
  {
    var emailError: Option<string>;
    if email == "" {
      emailError := Some(LoginEmailRequired);
    } else {
      var ok := CheckLooseEmail(email);
      emailError := if ok then None else Some(InvalidEmail);
    }
    var passwordError := if password == "" then Some(PasswordRequired)
                         else if |password| < MinPasswordLength then Some(PasswordTooShort)
                         else None;
    r := LoginErrors(emailError, passwordError);
  }

  /** The forgotten-password form: required (with its own message), then the
      strict pattern. */
  function ForgotEmailError(email: string): (r: Option<string>)
    ensures r.None? <==> StrictEmail(email)
    ensures r == Some(ForgotEmailRequired) <==> email == ""
    ensures r.Some? ==> r.value in {ForgotEmailRequired, InvalidEmail}
  {
    if email == "" then Some(ForgotEmailRequired)
    else if !CheckStrictEmail(email) then Some(InvalidEmail)
    else None
  }

  /** The forgotten-password form is the stricter of the two: every address
      it accepts passes the login page's pattern rule, but not the other
      way round. */
  lemma ForgotStricterThanLogin(email: string, short: string)
    requires short == "a@b.c"
    ensures ForgotEmailError(email).None? ==> LooseEmail(email)
    ensures LooseEmail(short) && ForgotEmailError(short).Some?
  {
    if ForgotEmailError(email).None? {
      StrictImpliesLoose(email);
    }
    LooseNotStrict(short);
  }

  // ---------------------------------------------------------- submission

  /** What is submitted: the login credentials, with `answer` the
      `role_code` of the user information that follows (None inside when it
      is absent) or None when either call throws; or a forgotten-password
      request. */
  datatype Submission = SignIn(answer: Option<Option<string>>) | ResetPassword

  /** After a submission: whether one is still in flight, whether the server
      was asked, and the page navigated to, if any. */
  datatype LoginStep = LoginStep(busy: bool, requested: bool, route: Option<string>)

  /** `onSubmitLogin` and `onSubmitForgetPassword`, each run to completion.
      Both share one in-flight flag: while it is set a submission of either
      form is ignored. Otherwise the server is asked, a sign-in that gets an
      answer navigates to the landing page of the code, and the flag is
      clear at the end, whether the request threw or not. */
  function Submit(busy: bool, s: Submission): (r: LoginStep)
    ensures busy ==> r == LoginStep(true, false, None)
    ensures !busy ==> !r.busy && r.requested
    ensures r.route.Some? <==> !busy && s.SignIn? && s.answer.Some?
    ensures r.route.Some? ==> r.route.value == LandingRoute(s.answer.value)
  {
    if busy then LoginStep(true, false, None)
    else
      match s
      case SignIn(answer) => LoginStep(false, true, if answer.Some? then Some(LandingRoute(answer.value)) else None)
      case ResetPassword => LoginStep(false, true, None)
  }

  /** A user of any role who signs in lands on that role's home page. */
  lemma SignInLandsOnRoleHome(role: Role)
    ensures Submit(false, SignIn(Some(Some(role.Code()))))
            == LoginStep(false, true, Some(RoleHome(role)))
  {
  }

  /** Whatever happened to a submission, the next one is taken. */
  lemma SubmitNeverStaysBusy(s: Submission, next: Submission)
    ensures Submit(Submit(false, s).busy, next).requested
  {
  }
}
