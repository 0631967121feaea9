# Credential validation of the survey app's login and signup pages

This project models, in Dafny, the credential-validation rules of the survey
application's two authentication pages:

- the login page's **password strength meter**, which scores a password 0 when it
  is empty and otherwise adds 25 for each of four criteria (length at least 8, an
  ASCII uppercase letter, an ASCII lowercase letter, an ASCII digit);
- the login page's **declared login schema**: an email-format check and a
  five-rule password policy (length at least 8, `[A-Z]`, `[a-z]`, `[0-9]` and a
  character outside `[A-Za-z0-9]`), each rule with its own message;
- the signup page's **schema**: name length at least 2, email format, the login
  password policy without the special-character rule, and a cross-field check that
  the confirmation equals the password, reported on the `confirmPassword` field;
- the signup page's **submission**: the request body is the validated form with
  `confirmPassword` dropped; and its **failure message**: the server's `message`
  when there is a non-empty one, otherwise `"Signup failed"`.

Files:

- `validation.dfy` (module `Validation`): the character classes, the regex test
  `/[class]/.test(s)` proved equal to its "some character is in the class"
  specification, schema rules (`.min`, `.regex`) with their messages, the list of
  messages a rule list reports (every failed rule, in declaration order, as the
  schema library's string checks do not stop at the first failure), issues
  attached to form fields, and the form library's `handleSubmit` with or without a
  resolver.
- `login.dfy` (module `Login`): the strength meter against a reference definition
  (25 points per criterion in the set of criteria met), the declared login schema,
  and the login submission.
- `signup.dfy` (module `Signup`): the signup schema, the request it sends and the
  failure message.

The email-format check of the schema library is a parameter `isEmail: string -> bool`
of every member that needs it: nothing is assumed about it.

The declared login schema is not wired into the login form: `useForm` receives no
resolver (src/pages/login.tsx:67-72) and the inputs register no rules, so the page
passes every form to the sign-in call. The model states the declared policy, models
the submission both as written and as evidently intended, and records the gap under
"## Findings".

The failure message follows the code rather than the plain reading "server message
if present": the page uses `||`, so an empty server message also falls back to
`"Signup failed"`.

## Model

| member | source | states |
|---|---|---|
| `Validation.RegexTest` | src/pages/login.tsx:85-87 | a one-class regex test finds a match iff some character of the string is in the class |
| `Validation.ContainsConcat` | src/pages/login.tsx:84-87 | a character class occurs in a concatenation iff it occurs in one of the parts |
| `Validation.Failures` | src/pages/login.tsx:22-31 | at most one message per rule; when the first rule fails its message comes first |
| `Validation.FailuresEmpty` | src/pages/login.tsx:22-31 | a rule chain reports nothing iff the value satisfies every rule |
| `Validation.FailuresReportFailedRules` | src/pages/login.tsx:24-30 | a message is reported iff it belongs to some rule the value fails |
| `Validation.HandleSubmit` | src/pages/signup.tsx:62-65 | the form library's `handleSubmit`: the submit handler receives the form, unchanged, iff there is no resolver or the resolver reports no issue |
| `Validation.ResolverOnlyRejects` | src/pages/signup.tsx:62-65 | submitting without a resolver and with one give different outcomes exactly for the forms the resolver rejects |
| `Login.Strength` | src/pages/login.tsx:81-89 | the score is one of 0, 25, 50, 75, 100; the empty password scores 0; the score is 100 iff length is at least 8 and there is an uppercase letter, a lowercase letter and a digit |
| `Login.CriteriaMetSize` | src/pages/login.tsx:84-87 | the number of criteria met is the sum of the four separate tests |
| `Login.StrengthCountsCriteria` | src/pages/login.tsx:83-88 | the score is exactly 25 times the number of criteria met, for every password including the empty one |
| `Login.StrengthMonotone` | src/pages/login.tsx:84-87 | appending characters never lowers the score |
| `Login.StrengthIgnoresSpecials` | src/pages/login.tsx:84-87 | appending only non-alphanumeric characters adds nothing except possibly the 25 for reaching length 8 |
| `Login.LoginPasswordFailures` | src/pages/login.tsx:22-31 | the login password rules report exactly the messages of the rules that fail, in declaration order |
| `Login.LoginPasswordMessages` | src/pages/login.tsx:24-30 | each failed rule reports its own message; a password shorter than 8 gets "Password must be at least 8 characters" first |
| `Login.LoginPasswordPolicy` | src/pages/login.tsx:22-31 | the login policy accepts a password iff length at least 8 and it has `[A-Z]`, `[a-z]`, `[0-9]` and a character outside `[A-Za-z0-9]` |
| `Login.LoginPasswordIsFullStrength` | src/pages/login.tsx:22-31 | every password the login policy accepts scores 100 |
| `Login.FullStrengthNotLoginPassword` | src/pages/login.tsx:84-88 | "Abcdefg1" scores 100 yet the login policy rejects it with only the special-character message |
| `Login.LoginIssues` | src/pages/login.tsx:16-32 | the email field carries "Invalid email address" iff the email check fails, the password field carries exactly the failed password rules' messages, the name and confirmation fields (absent from this form) carry nothing, and the form has no issue iff both checks pass |
| `Login.LoginSubmitAsWritten` | src/pages/login.tsx:67-72 | as written the form's `handleSubmit` has no resolver (and the inputs register no rules), so every form is handed to the sign-in call unchanged |
| `Login.AsWrittenDiffersOnRejectedForms` | src/pages/login.tsx:67-72 | the page as written and the page with the declared schema as resolver send different things exactly for the forms that schema rejects |
| `Login.LoginSubmitSkipsSchema` | src/pages/login.tsx:67-72 | as written, a form whose password is "abc" reaches the sign-in call although the declared schema reports the length message for it and the wired submission refuses it |
| `Login.LoginSubmit` | src/pages/login.tsx:16-32 | with the declared schema as the form's resolver, the form reaches the sign-in call, unchanged, iff the email check and the password policy pass |
| `Login.LoginSubmitSendsStrongPassword` | src/pages/login.tsx:22-31 | whatever that submission sends has a valid email, a password scoring 100 and a special character |
| `Signup.NamePolicy` | src/pages/signup.tsx:42 | a name is accepted iff it has at least 2 characters, otherwise exactly "Name must be at least 2 characters" is reported |
| `Signup.SignupRulesArePrefix` | src/pages/signup.tsx:44-49 | the signup password rules are the login password rules minus the final special-character rule, with the same messages |
| `Signup.SignupPasswordFailures` | src/pages/signup.tsx:44-49 | the signup password rules report exactly the messages of the rules that fail, in declaration order |
| `Signup.SignupPasswordPolicy` | src/pages/signup.tsx:44-49 | the signup policy accepts a password iff length at least 8 and it has `[A-Z]`, `[a-z]` and `[0-9]`; no special character is needed |
| `Signup.SignupPasswordIsFullStrength` | src/pages/signup.tsx:44-49 | the signup policy accepts exactly the passwords that score 100 on the login page's meter |
| `Signup.LoginPolicyImpliesSignupPolicy` | src/pages/signup.tsx:44-49 | every password the login policy accepts, the signup policy accepts |
| `Signup.SignupPolicyWeakerThanLogin` | src/pages/signup.tsx:44-49 | "Abcdefg1" passes the signup policy and fails the login policy |
| `Signup.SignupIssues` | src/pages/signup.tsx:40-55 | each field carries exactly its own failed rules' messages, the confirmation field carries "Passwords don't match" iff the confirmation differs, and the form has no issue iff all checks pass |
| `Signup.MismatchReported` | src/pages/signup.tsx:52-55 | the issue "Passwords don't match" on `confirmPassword` is reported iff `confirmPassword != password` |
| `Signup.WithoutConfirmation` | src/pages/signup.tsx:93-96 | the request's fields are the form's fields with `confirmPassword` removed, every value unchanged |
| `Signup.SignupSubmit` | src/pages/signup.tsx:62-96 | a request is sent iff the name has at least 2 characters, the email passes, the password scores 100 and the confirmation matches; it holds the form minus `confirmPassword` |
| `Signup.SentRequestIsValidated` | src/pages/signup.tsx:93-96 | a sent request, with its password as confirmation, passes the signup schema |
| `Signup.SignedUpPasswordFailsLogin` | src/pages/signup.tsx:44-49 | with a valid email, the signup page sends an account with password "Abcdefg1", which the login schema, once wired in, refuses |
| `Signup.FailureMessage` | src/pages/signup.tsx:89 | the shown message is never empty; it is the server's message when that is present and non-empty, otherwise exactly "Signup failed" |

## Findings

| source | as written | input that shows it | evidently intended | confidence | as-written member | corrected member |
|---|---|---|---|---|---|---|
| src/pages/login.tsx:67-72 | `useForm` is given default values but no resolver, so the declared `loginSchema` never runs and every form is handed to the sign-in call | email anything, password "abc" | the schema resolver (imported at line 5, with its errors displayed at lines 127-139) rejects the form with "Password must be at least 8 characters"; wiring it in as declared also needs the two pages' policies to agree, since the signup page accepts and sends "Abcdefg1" (no special character) which the login schema would then refuse (`Signup.SignedUpPasswordFailsLogin`) | medium, not executed | `Login.LoginSubmitAsWritten`, `Login.LoginSubmitSkipsSchema` | `Login.LoginSubmit`, `Login.LoginSubmitSendsStrongPassword` |

## Left out

- Email format: the schema library's `.email()` check is not shown; it is the parameter `isEmail`, about which nothing is assumed.
- Missing fields: the forms are records of strings. A field that is `undefined` (the schema library's type error, including the login email's "Please enter your email address" at src/pages/login.tsx:19) is not modelled; the login form starts with both fields set to "".
- Lengths are counted in characters. The source counts UTF-16 code units, so a password with characters outside the Basic Multilingual Plane is longer there than here, and a lone surrogate half is not representable.
- How errors are collected and displayed: only the first message per field is shown by the form library, validation runs on every change, and antd's `Form.Item` renders the help text. The model gives every reported message per field, in order.
- The strength meter's display: the progress bar that would show the score is commented out (src/pages/login.tsx:148-153), and `useMemo` caching is not modelled; the score itself is.
- Network and session calls: `signIn`, `useMutation`, `apiClient.post`, the signup success handler, the login page's success and error toasts, and router navigation are I/O and are not modelled.
- Signup.FailureMessage: models `message` as an optional string; a non-string truthy `message` from the server, which `||` would also pass through, is not modelled.
- src/middleware.ts, src/lib/auth.ts, src/lib/axios.ts, the input and question components, layout, navigation bar, the survey pages and configuration are not part of this model: they hold no credential-validation logic.
