/** Shared vocabulary of the two credential forms: the character classes that the
    schemas' regular expressions test for, the string rules a schema declares
    (a minimum length, a character-class pattern), the list of messages that a
    rule list reports for one field, and the issues a form schema reports. */
module Validation {

  datatype Option<+T> = None | Some(value: T)

  /** The bracket classes used by the password regexes: `[A-Z]`, `[a-z]`,
      `[0-9]` and `[^A-Za-z0-9]`. */
  datatype CharClass = Upper | Lower | Digit | Special

  predicate IsAlphanumeric(c: char) {
    'A' <= c <= 'Z' || 'a' <= c <= 'z' || '0' <= c <= '9'
  }

  predicate InClass(c: char, k: CharClass) {
    match k
    case Upper => 'A' <= c <= 'Z'
    case Lower => 'a' <= c <= 'z'
    case Digit => '0' <= c <= '9'
    case Special => !IsAlphanumeric(c)
  }

  /** Specification of an unanchored one-class regex: some character of `s` is in `k`. */
  ghost predicate Contains(s: string, k: CharClass) {
    exists i :: 0 <= i < |s| && InClass(s[i], k)
  }

  /** `/[…]/.test(s)`: scans `s` from the left for a character of class `k`. */
  function RegexTest(s: string, k: CharClass): (found: bool)
    ensures found <==> Contains(s, k)
  {
    if s == [] then false
    else if InClass(s[0], k) then true
    else
      var rest := RegexTest(s[1..], k);
      assert Contains(s[1..], k) ==> Contains(s, k) by {
        if Contains(s[1..], k) {
          var i :| 0 <= i < |s[1..]| && InClass(s[1..][i], k);
          assert InClass(s[i + 1], k);
        }
      }
      rest
  }

  /** A class occurs in a concatenation iff it occurs in one of the parts. */
  lemma {:induction false} ContainsConcat(p: string, t: string, k: CharClass)
    ensures Contains(p + t, k) <==> Contains(p, k) || Contains(t, k)
  {
    if Contains(p + t, k) {
      var i :| 0 <= i < |p + t| && InClass((p + t)[i], k);
      if i < |p| {
        assert InClass(p[i], k);
      } else {
        assert InClass(t[i - |p|], k);
      }
    }
    if Contains(p, k) {
      var i :| 0 <= i < |p| && InClass(p[i], k);
      assert (p + t)[i] == p[i];
    }
    if Contains(t, k) {
      var i :| 0 <= i < |t| && InClass(t[i], k);
      assert (p + t)[|p| + i] == t[i];
    }
  }

  /** One string check of a schema, with the message it reports when it fails:
      zod's `.min(n, message)` and `.regex(/[class]/, message)`. */
  datatype Rule = MinLength(min: nat, message: string) | Pattern(cls: CharClass, message: string)

  predicate Holds(rule: Rule, s: string) {
    match rule
    case MinLength(n, _) => |s| >= n
    case Pattern(k, _) => RegexTest(s, k)
  }

  /** What one rule reports for `s`: nothing when it holds, its message when it fails. */
  function Report(rule: Rule, s: string): seq<string> {
    if Holds(rule, s) then [] else [rule.message]
  }

  /** The messages of the rules `s` fails, in the order the rules are declared.
      String checks do not stop at the first failure: every failed rule is reported. */
  function Failures(rules: seq<Rule>, s: string): (msgs: seq<string>)
    ensures |msgs| <= |rules|
    ensures |rules| > 0 && !Holds(rules[0], s) ==> |msgs| > 0 && msgs[0] == rules[0].message
  {
    if rules == [] then []
    else
      Report(rules[0], s) + Failures(rules[1..], s)
  }

  /** Failures of a rule list, peeled one rule at a time. */
  lemma FailuresUnfold(rules: seq<Rule>, s: string, k: nat)
    requires k < |rules|
    ensures Failures(rules[k..], s) == Report(rules[k], s) + Failures(rules[k + 1..], s)
  {
  }

  /** A value passes a rule list (nothing is reported) iff it satisfies every rule. */
  lemma {:induction false} FailuresEmpty(rules: seq<Rule>, s: string)
    ensures Failures(rules, s) == [] <==> forall i :: 0 <= i < |rules| ==> Holds(rules[i], s)
  {
    if rules != [] {
      FailuresEmpty(rules[1..], s);
      assert forall i :: 1 <= i < |rules| ==> rules[i] == rules[1..][i - 1];
    }
  }

  /** Every failed rule's message is reported, and every reported message is the
      message of a failed rule. */
  lemma {:induction false} FailuresReportFailedRules(rules: seq<Rule>, s: string, m: string)
    ensures m in Failures(rules, s) <==>
              exists i :: 0 <= i < |rules| && !Holds(rules[i], s) && rules[i].message == m
  {
    if rules != [] {
      FailuresReportFailedRules(rules[1..], s, m);
      if exists i :: 0 <= i < |rules[1..]| && !Holds(rules[1..][i], s) && rules[1..][i].message == m {
        var i :| 0 <= i < |rules[1..]| && !Holds(rules[1..][i], s) && rules[1..][i].message == m;
        assert rules[i + 1] == rules[1..][i];
      }
      if exists i :: 0 <= i < |rules| && !Holds(rules[i], s) && rules[i].message == m {
        var i :| 0 <= i < |rules| && !Holds(rules[i], s) && rules[i].message == m;
        if i > 0 {
          assert rules[1..][i - 1] == rules[i];
        }
      }
    }
  }

  /** The message of a failed rule is among those reported. */
  lemma FailedRuleReported(rules: seq<Rule>, s: string, i: nat)
    requires i < |rules|
    ensures !Holds(rules[i], s) ==> rules[i].message in Failures(rules, s)
  {
    FailuresReportFailedRules(rules, s, rules[i].message);
  }

  /** The fields of the two credential forms. */
  datatype Field = Name | Email | Password | ConfirmPassword

  /** One validation error: the field it is attached to and its message. */
  datatype Issue = Issue(path: Field, message: string)

  /** Attaches each message to `path`, keeping their order. */
  function IssuesAt(path: Field, msgs: seq<string>): (issues: seq<Issue>)
    ensures |issues| == |msgs|
    ensures forall i :: 0 <= i < |msgs| ==> issues[i] == Issue(path, msgs[i])
  {
    seq(|msgs|, i requires 0 <= i < |msgs| => Issue(path, msgs[i]))
  }

  /** The messages attached to `path`, in order. */
  function MessagesAt(issues: seq<Issue>, path: Field): seq<string> {
    if issues == [] then []
    else (if issues[0].path == path then [issues[0].message] else []) + MessagesAt(issues[1..], path)
  }

  /** A message is read back at `path` exactly when an issue carries it on `path`. */
  lemma {:induction false} MessagesAtMembers(issues: seq<Issue>, path: Field, m: string)
    ensures m in MessagesAt(issues, path) <==> Issue(path, m) in issues
  {
    if issues != [] {
      MessagesAtMembers(issues[1..], path, m);
      assert Issue(path, m) in issues <==> issues[0] == Issue(path, m) || Issue(path, m) in issues[1..];
    }
  }

  /** Reading a field back distributes over concatenation of issue lists. */
  lemma {:induction false} MessagesAtConcat(a: seq<Issue>, b: seq<Issue>, path: Field)
    ensures MessagesAt(a + b, path) == MessagesAt(a, path) + MessagesAt(b, path)
  {
    if a == [] {
      assert a + b == b;
    } else {
      var head := if a[0].path == path then [a[0].message] else [];
      assert (a + b)[0] == a[0] && (a + b)[1..] == a[1..] + b;
      assert MessagesAt(a + b, path) == head + MessagesAt(a[1..] + b, path);
      MessagesAtConcat(a[1..], b, path);
      assert head + (MessagesAt(a[1..], path) + MessagesAt(b, path))
          == (head + MessagesAt(a[1..], path)) + MessagesAt(b, path);
    }
  }

  /** Attaching messages to a field and reading that field back gives the messages;
      reading any other field gives none. */
  lemma {:induction false} MessagesAtIssuesAt(path: Field, msgs: seq<string>, other: Field)
    ensures MessagesAt(IssuesAt(path, msgs), path) == msgs
    ensures other != path ==> MessagesAt(IssuesAt(path, msgs), other) == []
  {
    if msgs != [] {
      assert IssuesAt(path, msgs)[1..] == IssuesAt(path, msgs[1..]);
      MessagesAtIssuesAt(path, msgs[1..], other);
    }
  }

  /** The form library's `handleSubmit`: with a resolver, the submit handler receives
      the form values only when the resolver reports no issue; without a resolver
      (and with no per-input rules), it receives every form. */
  function HandleSubmit<F>(resolver: Option<F -> seq<Issue>>, form: F): (passed: Option<F>)
    ensures passed.Some? <==> resolver.None? || resolver.value(form) == []
    ensures passed.Some? ==> passed.value == form
  {
    match resolver
    case None => Some(form)
    case Some(resolve) => if resolve(form) == [] then Some(form) else None
  }

  /** Dropping the resolver changes the outcome of a submission exactly for the forms
      the resolver rejects. */
  lemma ResolverOnlyRejects<F>(resolve: F -> seq<Issue>, form: F)
    ensures HandleSubmit(None, form) == HandleSubmit(Some(resolve), form) <==> resolve(form) == []
  {
  }
}
