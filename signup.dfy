/** The signup page: its schema (name length, email format, a four-rule password
    policy and the password-confirmation check), the request it sends, and the
    message it shows when the request fails. */
module Signup {
  import opened Validation
  import Login

  // ---------------------------------------------------------------------------
  // Field rules
  // ---------------------------------------------------------------------------

  const NameMessage := "Name must be at least 2 characters"
  const InvalidEmailMessage := "Invalid email address"
  const MismatchMessage := "Passwords don't match"

  const NameRules: seq<Rule> := [MinLength(2, NameMessage)]

  /** The password checks of the signup schema, in declaration order. */
  const SignupPasswordRules: seq<Rule> := [
    MinLength(8, "Password must be at least 8 characters"),
    Pattern(Upper, "Password must contain at least one uppercase letter"),
    Pattern(Lower, "Password must contain at least one lowercase letter"),
    Pattern(Digit, "Password must contain at least one number")
  ]

  /** A name is accepted iff it has at least two characters; otherwise the one name
      message is reported. */
  lemma NamePolicy(name: string)
    ensures Failures(NameRules, name) == if |name| >= 2 then [] else [NameMessage]
  {
  }

  /** The signup password rules are the login password rules without the last one,
      the special-character rule: same checks, same messages, same order. */
  lemma SignupRulesArePrefix()
    ensures SignupPasswordRules == Login.LoginPasswordRules[..4]
    ensures Login.LoginPasswordRules[4] == Pattern(Special, Login.SpecialMessage)
  {
  }

  lemma SignupPasswordFailures(password: string)
    ensures Failures(SignupPasswordRules, password)
         == Report(SignupPasswordRules[0], password) + (Report(SignupPasswordRules[1], password)
          + (Report(SignupPasswordRules[2], password) + Report(SignupPasswordRules[3], password)))
  {
    var r := SignupPasswordRules;
    assert r[0..] == r;
    FailuresUnfold(r, password, 0);
    FailuresUnfold(r, password, 1);
    FailuresUnfold(r, password, 2);
    FailuresUnfold(r, password, 3);
    assert r[4..] == [];
  }

  /** The signup policy accepts exactly the passwords of length at least 8 with an
      uppercase letter, a lowercase letter and a digit; no special character is needed. */
  lemma SignupPasswordPolicy(password: string)
    ensures Failures(SignupPasswordRules, password) == [] <==>
              |password| >= 8 && Contains(password, Upper) && Contains(password, Lower)
              && Contains(password, Digit)
  {
    var r := SignupPasswordRules;
    SignupPasswordFailures(password);
    assert |Failures(r, password)|
        == |Report(r[0], password)| + |Report(r[1], password)| + |Report(r[2], password)|
         + |Report(r[3], password)|;
  }

  /** The signup policy accepts exactly the passwords that score 100 on the login
      page's strength meter. */
  lemma SignupPasswordIsFullStrength(password: string)
    ensures Failures(SignupPasswordRules, password) == [] <==> Login.Strength(password) == 100
  {
    SignupPasswordPolicy(password);
  }

  /** Every password the login policy accepts, the signup policy accepts too. */
  lemma LoginPolicyImpliesSignupPolicy(password: string)
    requires Failures(Login.LoginPasswordRules, password) == []
    ensures Failures(SignupPasswordRules, password) == []
  {
    Login.LoginPasswordPolicy(password);
    SignupPasswordPolicy(password);
  }

  /** Not conversely: "Abcdefg1" passes the signup policy and fails the login policy. */
  lemma SignupPolicyWeakerThanLogin()
    ensures Failures(SignupPasswordRules, "Abcdefg1") == []
    ensures Failures(Login.LoginPasswordRules, "Abcdefg1") != []
  {
    Login.FullStrengthNotLoginPassword();
    SignupPasswordIsFullStrength("Abcdefg1");
  }

  // ---------------------------------------------------------------------------
  // The form, its issues and the request it sends
  // ---------------------------------------------------------------------------

  datatype SignupForm = SignupForm(name: string, email: string, password: string, confirmPassword: string)

  /** The body of the signup request: the form without its confirmation field. */
  datatype SignupRequest = SignupRequest(name: string, email: string, password: string)

  /** The named fields of a form, as the object the form library holds. */
  function FormFields(form: SignupForm): map<Field, string> {
    map[Name := form.name, Email := form.email, Password := form.password,
        ConfirmPassword := form.confirmPassword]
  }

  /** The named fields of a request body, as the object that is posted. */
  function RequestFields(request: SignupRequest): map<Field, string> {
    map[Name := request.name, Email := request.email, Password := request.password]
  }

  /** The issues the signup schema reports: every failed name rule, the email check,
      every failed password rule, then the confirmation check, which is attached to
      the confirmation field and runs whatever the other fields hold.
      `isEmail` stands for the schema library's email check. */
  function SignupIssues(isEmail: string -> bool, form: SignupForm): (issues: seq<Issue>)
    ensures MessagesAt(issues, Name) == Failures(NameRules, form.name)
    ensures MessagesAt(issues, Email) == if isEmail(form.email) then [] else [InvalidEmailMessage]
    ensures MessagesAt(issues, Password) == Failures(SignupPasswordRules, form.password)
    ensures MessagesAt(issues, ConfirmPassword)
         == if form.password == form.confirmPassword then [] else [MismatchMessage]
    ensures issues == [] <==>
              Failures(NameRules, form.name) == [] && isEmail(form.email)
              && Failures(SignupPasswordRules, form.password) == []
              && form.password == form.confirmPassword
  {
    var nameMessages := Failures(NameRules, form.name);
    var emailMessages := if isEmail(form.email) then [] else [InvalidEmailMessage];
    var passwordMessages := Failures(SignupPasswordRules, form.password);
    var matchMessages := if form.password == form.confirmPassword then [] else [MismatchMessage];
    SignupIssuesAt(nameMessages, emailMessages, passwordMessages, matchMessages, Name);
    SignupIssuesAt(nameMessages, emailMessages, passwordMessages, matchMessages, Email);
    SignupIssuesAt(nameMessages, emailMessages, passwordMessages, matchMessages, Password);
    SignupIssuesAt(nameMessages, emailMessages, passwordMessages, matchMessages, ConfirmPassword);
    IssuesAt(Name, nameMessages) + IssuesAt(Email, emailMessages)
    + IssuesAt(Password, passwordMessages) + IssuesAt(ConfirmPassword, matchMessages)
  }

  /** Helper: reading one field back from the four per-field groups of messages. */
  lemma SignupIssuesAt(nameMessages: seq<string>, emailMessages: seq<string>,
                       passwordMessages: seq<string>, matchMessages: seq<string>, path: Field)
    ensures MessagesAt(IssuesAt(Name, nameMessages) + IssuesAt(Email, emailMessages)
                       + IssuesAt(Password, passwordMessages) + IssuesAt(ConfirmPassword, matchMessages), path)
         == match path
            case Name => nameMessages
            case Email => emailMessages
            case Password => passwordMessages
            case ConfirmPassword => matchMessages
  {
    var a, b := IssuesAt(Name, nameMessages), IssuesAt(Email, emailMessages);
    var c, d := IssuesAt(Password, passwordMessages), IssuesAt(ConfirmPassword, matchMessages);
    MessagesAtConcat(a, b, path);
    MessagesAtConcat(a + b, c, path);
    MessagesAtConcat(a + b + c, d, path);
    MessagesAtIssuesAt(Name, nameMessages, path);
    MessagesAtIssuesAt(Email, emailMessages, path);
    MessagesAtIssuesAt(Password, passwordMessages, path);
    MessagesAtIssuesAt(ConfirmPassword, matchMessages, path);
  }

  /** The mismatch message is reported, on the confirmation field, exactly when the
      confirmation differs from the password. */
  lemma MismatchReported(isEmail: string -> bool, form: SignupForm)
    ensures Issue(ConfirmPassword, MismatchMessage) in SignupIssues(isEmail, form)
        <==> form.password != form.confirmPassword
  {
  }

  /** The request body: the form with `confirmPassword` dropped and every other field
      copied unchanged. */
  function WithoutConfirmation(form: SignupForm): (request: SignupRequest)
    ensures RequestFields(request) == FormFields(form) - {ConfirmPassword}
  {
    SignupRequest(form.name, form.email, form.password)
  }

  /** Submission: the signup schema is the form's resolver, so the submit handler runs
      only when the schema reports no issue; it then sends the form's name, email and
      password unchanged. */
  function SignupSubmit(isEmail: string -> bool, form: SignupForm): (sent: Option<SignupRequest>)
    ensures sent.Some? <==>
              |form.name| >= 2 && isEmail(form.email) && Login.Strength(form.password) == 100
              && form.password == form.confirmPassword
    ensures sent.Some? ==> RequestFields(sent.value) == FormFields(form) - {ConfirmPassword}
  {
    NamePolicy(form.name);
    SignupPasswordIsFullStrength(form.password);
    match HandleSubmit(Some((f: SignupForm) => SignupIssues(isEmail, f)), form)
    case Some(data) => Some(WithoutConfirmation(data))
    case None => None
  }

  /** Whatever the signup page sends also passes its own schema when the confirmation
      is put back: name, email and password are exactly the validated ones. */
  lemma SentRequestIsValidated(isEmail: string -> bool, form: SignupForm)
    requires SignupSubmit(isEmail, form).Some?
    ensures var request := SignupSubmit(isEmail, form).value;
            SignupIssues(isEmail, SignupForm(request.name, request.email, request.password, request.password)) == []
  {
  }

  /** The two pages disagree: a signup the page sends with password "Abcdefg1" is
      refused by the login schema once that schema is the login form's resolver, so
      the account could not sign in. */
  lemma SignedUpPasswordFailsLogin(isEmail: string -> bool, email: string)
    requires isEmail(email)
    ensures SignupSubmit(isEmail, SignupForm("Al", email, "Abcdefg1", "Abcdefg1")).Some?
    ensures Login.LoginSubmit(isEmail, Login.LoginForm(email, "Abcdefg1")).None?
  {
    Login.FullStrengthNotLoginPassword();
  }

  // ---------------------------------------------------------------------------
  // Failure message
  // ---------------------------------------------------------------------------

  const DefaultFailureMessage := "Signup failed"

  /** The parts of a failed request the page looks at: `error.response?.data?.message`. */
  datatype ErrorBody = ErrorBody(message: Option<string>)
  datatype ErrorResponse = ErrorResponse(data: Option<ErrorBody>)
  datatype RequestError = RequestError(response: Option<ErrorResponse>)

  /** The server-provided message, if the optional chain reaches one. */
  function ServerMessage(error: RequestError): Option<string> {
    match error.response
    case None => None
    case Some(response) =>
      match response.data
      case None => None
      case Some(body) => body.message
  }

  /** The message shown when the signup request fails: the server's message, unless
      it is missing or empty (both falsy for `||`), in which case the fixed fallback. */
  function FailureMessage(error: RequestError): (shown: string)
    ensures shown != []
    ensures ServerMessage(error).Some? && ServerMessage(error).value != [] ==> shown == ServerMessage(error).value
    ensures ServerMessage(error).None? || ServerMessage(error).value == [] ==> shown == DefaultFailureMessage
  {
    match ServerMessage(error)
    case Some(m) => if m != [] then m else DefaultFailureMessage
    case None => DefaultFailureMessage
  }
}
