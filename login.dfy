/** The login page: its password strength meter and its declared login schema
    (email format plus a five-rule password policy), and what the page hands to
    the sign-in call when the form is submitted. */
module Login {
  import opened Validation

  // ---------------------------------------------------------------------------
  // Password strength meter
  // ---------------------------------------------------------------------------

  /** The four criteria the meter awards 25 points for. */
  datatype Criterion = LongEnough | HasUpper | HasLower | HasDigit

  ghost predicate Meets(password: string, c: Criterion) {
    match c
    case LongEnough => |password| >= 8
    case HasUpper => Contains(password, Upper)
    case HasLower => Contains(password, Lower)
    case HasDigit => Contains(password, Digit)
  }

  /** Reference definition: the set of criteria a password satisfies. */
  ghost function CriteriaMet(password: string): set<Criterion> {
    set c | c in {LongEnough, HasUpper, HasLower, HasDigit} && Meets(password, c)
  }

  /** The meter: 0 for the empty password, otherwise 25 for each criterion met. */
  function Strength(password: string): (score: nat)
    ensures score in {0, 25, 50, 75, 100}
    ensures password == [] ==> score == 0
    ensures score == 100 <==>
              |password| >= 8 && Contains(password, Upper) && Contains(password, Lower) && Contains(password, Digit)
  {
    if password == [] then 0
    else
      (if |password| >= 8 then 25 else 0)
      + (if RegexTest(password, Upper) then 25 else 0)
      + (if RegexTest(password, Lower) then 25 else 0)
      + (if RegexTest(password, Digit) then 25 else 0)
  }

  ghost function Pick(c: Criterion, met: bool): set<Criterion> {
    if met then {c} else {}
  }

  lemma CriteriaMetUnion(password: string)
    ensures CriteriaMet(password)
         == Pick(LongEnough, |password| >= 8) + Pick(HasUpper, Contains(password, Upper))
          + Pick(HasLower, Contains(password, Lower)) + Pick(HasDigit, Contains(password, Digit))
  {
  }

  /** One point per criterion: the size of `CriteriaMet` counts the four tests separately. */
  lemma CriteriaMetSize(password: string)
    ensures |CriteriaMet(password)|
         == (if |password| >= 8 then 1 else 0) + (if Contains(password, Upper) then 1 else 0)
          + (if Contains(password, Lower) then 1 else 0) + (if Contains(password, Digit) then 1 else 0)
  {
    CriteriaMetUnion(password);
    var a := Pick(LongEnough, |password| >= 8);
    var b := Pick(HasUpper, Contains(password, Upper));
    var c := Pick(HasLower, Contains(password, Lower));
    var d := Pick(HasDigit, Contains(password, Digit));
    assert |a + b| == |a| + |b|;
    assert |a + b + c| == |a + b| + |c|;
    assert |a + b + c + d| == |a + b + c| + |d|;
  }

  /** The score is 25 times the number of criteria met; nothing else contributes. */
  lemma StrengthCountsCriteria(password: string)
    ensures Strength(password) == 25 * |CriteriaMet(password)|
  {
    CriteriaMetSize(password);
    if password == [] {
      assert !Contains(password, Upper) && !Contains(password, Lower) && !Contains(password, Digit);
    }
  }

  /** Appending characters never lowers the score. */
  lemma StrengthMonotone(password: string, suffix: string)
    ensures Strength(password) <= Strength(password + suffix)
  {
    ContainsConcat(password, suffix, Upper);
    ContainsConcat(password, suffix, Lower);
    ContainsConcat(password, suffix, Digit);
  }

  /** Special characters earn nothing of their own: appending only non-alphanumeric
      characters changes the score only through the length criterion. */
  lemma StrengthIgnoresSpecials(password: string, specials: string)
    requires forall i :: 0 <= i < |specials| ==> !IsAlphanumeric(specials[i])
    ensures Strength(password + specials)
         == Strength(password) + (if |password| < 8 <= |password| + |specials| then 25 else 0)
  {
    ContainsConcat(password, specials, Upper);
    ContainsConcat(password, specials, Lower);
    ContainsConcat(password, specials, Digit);
    assert !Contains(specials, Upper) && !Contains(specials, Lower) && !Contains(specials, Digit);
    if password == [] {
      assert password + specials == specials;
    }
  }

  // ---------------------------------------------------------------------------
  // Declared login schema
  // ---------------------------------------------------------------------------

  const LengthMessage := "Password must be at least 8 characters"
  const UpperMessage := "Password must contain at least one uppercase letter"
  const LowerMessage := "Password must contain at least one lowercase letter"
  const DigitMessage := "Password must contain at least one number"
  const SpecialMessage := "Password must contain at least one special character"
  const InvalidEmailMessage := "Invalid email address"

  /** The password checks of the login schema, in declaration order. */
  const LoginPasswordRules: seq<Rule> := [
    MinLength(8, LengthMessage),
    Pattern(Upper, UpperMessage),
    Pattern(Lower, LowerMessage),
    Pattern(Digit, DigitMessage),
    Pattern(Special, SpecialMessage)
  ]

  /** The login password checks report, in order, the message of each rule that fails. */
  lemma LoginPasswordFailures(password: string)
    ensures Failures(LoginPasswordRules, password)
         == Report(LoginPasswordRules[0], password) + (Report(LoginPasswordRules[1], password)
          + (Report(LoginPasswordRules[2], password) + (Report(LoginPasswordRules[3], password)
          + Report(LoginPasswordRules[4], password))))
  {
    var r := LoginPasswordRules;
    assert r[0..] == r;
    FailuresUnfold(r, password, 0);
    FailuresUnfold(r, password, 1);
    FailuresUnfold(r, password, 2);
    FailuresUnfold(r, password, 3);
    FailuresUnfold(r, password, 4);
    assert r[5..] == [];
  }

  /** A password failing a login rule is rejected with that rule's message; a too-short
      password's first message is the length message. */
  lemma LoginPasswordMessages(password: string)
    ensures |password| < 8 ==> LengthMessage in Failures(LoginPasswordRules, password)
    ensures !Contains(password, Upper) ==> UpperMessage in Failures(LoginPasswordRules, password)
    ensures !Contains(password, Lower) ==> LowerMessage in Failures(LoginPasswordRules, password)
    ensures !Contains(password, Digit) ==> DigitMessage in Failures(LoginPasswordRules, password)
    ensures !Contains(password, Special) ==> SpecialMessage in Failures(LoginPasswordRules, password)
    ensures |password| < 8 ==> Failures(LoginPasswordRules, password)[0] == LengthMessage
  {
    var r := LoginPasswordRules;
    FailedRuleReported(r, password, 0);
    FailedRuleReported(r, password, 1);
    FailedRuleReported(r, password, 2);
    FailedRuleReported(r, password, 3);
    FailedRuleReported(r, password, 4);
  }

  /** The login policy accepts exactly the passwords of length at least 8 that have an
      uppercase letter, a lowercase letter, a digit and a character outside `[A-Za-z0-9]`. */
  lemma LoginPasswordPolicy(password: string)
    ensures Failures(LoginPasswordRules, password) == [] <==>
              |password| >= 8 && Contains(password, Upper) && Contains(password, Lower)
              && Contains(password, Digit) && Contains(password, Special)
  {
    var r := LoginPasswordRules;
    LoginPasswordFailures(password);
    assert |Failures(r, password)|
        == |Report(r[0], password)| + |Report(r[1], password)| + |Report(r[2], password)|
         + |Report(r[3], password)| + |Report(r[4], password)|;
  }

  /** A password the login policy accepts scores 100 on the meter. */
  lemma LoginPasswordIsFullStrength(password: string)
    requires Failures(LoginPasswordRules, password) == []
    ensures Strength(password) == 100
  {
    LoginPasswordPolicy(password);
  }

  /** The converse fails: full strength does not require a special character. */
  lemma FullStrengthNotLoginPassword()
    ensures Strength("Abcdefg1") == 100
    ensures Failures(LoginPasswordRules, "Abcdefg1") == [SpecialMessage]
  {
    var p := "Abcdefg1";
    assert InClass(p[0], Upper) && InClass(p[1], Lower) && InClass(p[7], Digit);
    assert !Contains(p, Special) by {
      forall i | 0 <= i < |p| ensures IsAlphanumeric(p[i]) {
      }
    }
    var r := LoginPasswordRules;
    LoginPasswordFailures(p);
    assert Report(r[0], p) == [] && Report(r[1], p) == [] && Report(r[2], p) == [];
    assert Report(r[3], p) == [] && Report(r[4], p) == [SpecialMessage];
  }

  /** The login form's values. */
  datatype LoginForm = LoginForm(email: string, password: string)

  /** The issues the login schema reports: the email format check, then every
      failed password rule. `isEmail` stands for the schema library's email check.
      The login form has no name and no confirmation field, so nothing is reported there. */
  function LoginIssues(isEmail: string -> bool, form: LoginForm): (issues: seq<Issue>)
    ensures MessagesAt(issues, Password) == Failures(LoginPasswordRules, form.password)
    ensures MessagesAt(issues, Email) == if isEmail(form.email) then [] else [InvalidEmailMessage]
    ensures MessagesAt(issues, Name) == [] && MessagesAt(issues, ConfirmPassword) == []
    ensures issues == [] <==> isEmail(form.email) && Failures(LoginPasswordRules, form.password) == []
  {
    var emailMessages := if isEmail(form.email) then [] else [InvalidEmailMessage];
    var passwordMessages := Failures(LoginPasswordRules, form.password);
    var a, b := IssuesAt(Email, emailMessages), IssuesAt(Password, passwordMessages);
    MessagesAtConcat(a, b, Password);
    MessagesAtConcat(a, b, Email);
    MessagesAtConcat(a, b, Name);
    MessagesAtConcat(a, b, ConfirmPassword);
    MessagesAtIssuesAt(Email, emailMessages, Password);
    MessagesAtIssuesAt(Password, passwordMessages, Email);
    MessagesAtIssuesAt(Email, emailMessages, Name);
    MessagesAtIssuesAt(Password, passwordMessages, Name);
    MessagesAtIssuesAt(Email, emailMessages, ConfirmPassword);
    MessagesAtIssuesAt(Password, passwordMessages, ConfirmPassword);
    a + b
  }

  /** What the page passes to the sign-in call as written: `useForm` is given no
      resolver and the inputs register no rules, so `handleSubmit` runs unresolved. */
  function LoginSubmitAsWritten(form: LoginForm): (sent: Option<LoginForm>)
    ensures sent == Some(form)
  {
    HandleSubmit(None, form)
  }

  /** Submission with the declared schema as the form's resolver: the form reaches
      the sign-in call only when it has no issue, and then unchanged. */
  function LoginSubmit(isEmail: string -> bool, form: LoginForm): (sent: Option<LoginForm>)
    ensures sent.Some? ==> sent.value == form
    ensures sent.Some? <==> isEmail(form.email) && Failures(LoginPasswordRules, form.password) == []
  {
    HandleSubmit(Some((f: LoginForm) => LoginIssues(isEmail, f)), form)
  }

  /** The page as written and the page with the schema wired in disagree exactly on
      the forms the declared schema rejects. */
  lemma AsWrittenDiffersOnRejectedForms(isEmail: string -> bool, form: LoginForm)
    ensures LoginSubmitAsWritten(form) != LoginSubmit(isEmail, form) <==> LoginIssues(isEmail, form) != []
  {
  }

  /** As written, a password the declared policy rejects still reaches the sign-in call. */
  lemma LoginSubmitSkipsSchema(isEmail: string -> bool, email: string)
    ensures LoginSubmitAsWritten(LoginForm(email, "abc")) == Some(LoginForm(email, "abc"))
    ensures LengthMessage in MessagesAt(LoginIssues(isEmail, LoginForm(email, "abc")), Password)
    ensures LoginSubmit(isEmail, LoginForm(email, "abc")).None?
  {
  }

  /** Whatever the corrected submission sends has a full-strength password. */
  lemma LoginSubmitSendsStrongPassword(isEmail: string -> bool, form: LoginForm)
    requires LoginSubmit(isEmail, form).Some?
    ensures isEmail(form.email)
    ensures Strength(form.password) == 100 && Contains(form.password, Special)
  {
    LoginPasswordPolicy(form.password);
  }
}
