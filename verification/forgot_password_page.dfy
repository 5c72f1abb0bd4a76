/**
 * The forgot-password page (ForgotPassword.tsx): an empty check, the
 * email pattern `/^[^\s@]+@[^\s@]+\.[^\s@]+$/`, one request, and the same
 * "email sent" screen whatever the request's fate.
 */
module ForgotPasswordPage {
  import opened Wrappers
  import opened Text
  import opened Http

  /** `[^\s@]`. */
  predicate AtomChar(c: char)
  {
    !IsJsSpace(c) && c != '@'
  }

  /** `[^\s@]+`. */
  predicate Atom(x: string)
  {
    |x| > 0 && forall k :: 0 <= k < |x| ==> AtomChar(x[k])
  }

  /** `s` spells `l@d.t` with three atoms; `d` and `t` may themselves hold dots. */
  predicate IsSplit(s: string, l: string, d: string, t: string)
  {
    s == l + "@" + d + "." + t && Atom(l) && Atom(d) && Atom(t)
  }

  /** The language of the pattern. */
  ghost predicate MatchesPattern(s: string)
  {
    exists l, d, t :: IsSplit(s, l, d, t)
  }

  /** The first index of `c` in `s`. */
  function IndexOf(s: string, c: char): (r: Option<nat>)
    ensures r.None? <==> c !in s
    ensures r.Some? ==> r.value < |s| && s[r.value] == c && c !in s[..r.value]
  {
    if |s| == 0 then None
    else if s[0] == c then Some(0)
    else
      match IndexOf(s[1..], c)
      case None => None
      case Some(i) =>
        assert s[1..][..i] == s[1..i + 1];
        assert s[..i + 1] == [s[0]] + s[1..i + 1];
        Some(i + 1)
  }

  /**
   * The check as one scan: a single `@` that is not first, no whitespace,
   * and a `.` after the `@` with at least one character on each side.
   */
  function EmailCheck(s: string): (b: bool)
  {
    match IndexOf(s, '@')
    case None => false
    case Some(i) =>
      && i > 0
      && (forall k :: 0 <= k < |s| ==> !IsJsSpace(s[k]))
      && '@' !in s[i + 1..]
      && i + 4 <= |s|
      && '.' in s[i + 2..|s| - 1]
  }

  /** The scan accepts exactly the strings the pattern matches. */
  lemma EmailCheckIsPattern(s: string)
    ensures EmailCheck(s) <==> MatchesPattern(s)
  {
    if EmailCheck(s) {
      AcceptedHasSplit(s);
    }
    if MatchesPattern(s) {
      var l, d, t :| IsSplit(s, l, d, t);
      SplitAccepted(s, l, d, t);
    }
  }

  lemma AcceptedHasSplit(s: string)
    requires EmailCheck(s)
    ensures MatchesPattern(s)
  {
    var i := IndexOf(s, '@').value;
    var mid := s[i + 2..|s| - 1];
    var j :| 0 <= j < |mid| && mid[j] == '.';
    var p := i + 2 + j;
    var l, d, t := s[..i], s[i + 1..p], s[p + 1..];
    assert s == l + "@" + d + "." + t;
    assert Atom(l);
    assert Atom(d) by {
      forall k | 0 <= k < |d| ensures AtomChar(d[k]) {
        assert d[k] == s[i + 1..][k];
      }
    }
    assert Atom(t) by {
      forall k | 0 <= k < |t| ensures AtomChar(t[k]) {
        assert t[k] == s[i + 1..][p - i + k];
      }
    }
    assert IsSplit(s, l, d, t);
  }

  lemma SplitAccepted(s: string, l: string, d: string, t: string)
    requires IsSplit(s, l, d, t)
    ensures EmailCheck(s)
  {
    var i := |l|;
    var rest := d + "." + t;
    assert s == l + "@" + rest;
    FirstAt(l, rest);
    RestHasNoAt(d, t);
    assert s[i + 1..] == rest;
    SplitHasNoSpace(s, l, d, t);
    var p := i + 1 + |d|;
    assert s[p] == '.';
    assert s[i + 2..|s| - 1][p - i - 2] == '.';
  }

  /** The `@` after an atom is the first one. */
  lemma FirstAt(l: string, rest: string)
    requires Atom(l)
    ensures IndexOf(l + "@" + rest, '@') == Some(|l|)
  {
    var s := l + "@" + rest;
    assert s[|l|] == '@';
    assert forall j :: 0 <= j < |l| ==> s[j] == l[j];
    assert '@' !in s[..|l|];
  }

  lemma RestHasNoAt(d: string, t: string)
    requires Atom(d) && Atom(t)
    ensures '@' !in d + "." + t
  {
    var rest := d + "." + t;
    forall k | 0 <= k < |rest| ensures rest[k] != '@' {
      if k < |d| { assert rest[k] == d[k]; }
      else if k > |d| { assert rest[k] == t[k - |d| - 1]; }
    }
  }

  lemma SplitHasNoSpace(s: string, l: string, d: string, t: string)
    requires IsSplit(s, l, d, t)
    ensures forall k :: 0 <= k < |s| ==> !IsJsSpace(s[k])
  {
    forall k | 0 <= k < |s| ensures !IsJsSpace(s[k]) {
      if k < |l| {
        assert s[k] == l[k];
      } else if |l| < k < |l| + 1 + |d| {
        assert s[k] == d[k - |l| - 1];
      } else if k > |l| + 1 + |d| {
        assert s[k] == t[k - |l| - 2 - |d|];
      }
    }
  }

  /** `a b@c.d` fails: whitespace is not allowed anywhere. */
  lemma SpaceRejected(s: string, k: nat)
    requires k < |s| && s[k] == ' '
    ensures !EmailCheck(s)
  {
  }

  /** Dots are allowed inside the domain: `a@b.c.d` is accepted. */
  lemma DottedDomainAccepted()
    ensures EmailCheck("a@b.c.d")
  {
    assert IsSplit("a@b.c.d", "a", "b.c", "d");
    EmailCheckIsPattern("a@b.c.d");
  }

  datatype Outcome = Outcome(requested: bool, emailSent: bool, notice: Notice)

  const GenericText := "If an account exists with this email, you will receive reset instructions."

  /** `handleSubmit`, with the reset request's reply (its `detail`) as input. */
  function Submit(email: string, reply: Reply<Option<string>>): (r: Outcome)
    ensures r.requested <==> email != "" && EmailCheck(email)
    ensures r.emailSent <==> r.requested
    ensures r.requested && reply.Fail? ==> r.notice == Toast("Request Processed", GenericText, false)
    ensures r.requested ==> r.notice.Toast? && !r.notice.destructive
    ensures !r.requested ==> r.notice.Toast? && r.notice.destructive
  {
    if email == "" then Outcome(false, false, Toast("Email Required", "Please enter your email address.", true))
    else if !EmailCheck(email) then Outcome(false, false, Toast("Invalid Email", "Please enter a valid email address.", true))
    else
      match reply
      case Ok(detail) =>
        var text := if Truthy(detail) then detail.value else "Check your email for password reset instructions.";
        Outcome(true, true, Toast("Reset Email Sent!", text, false))
      case Fail(_) => Outcome(true, true, Toast("Request Processed", GenericText, false))
  }

  /** Failures are indistinguishable to the visitor, whatever the error said. */
  lemma FailureIsUniform(email: string, e1: ErrorBody, e2: ErrorBody)
    ensures Submit(email, Fail(e1)) == Submit(email, Fail(e2))
  {
  }

  /** The page's state: the typed address and whether the "check your email" card is shown. */
  datatype Page = Page(email: string, emailSent: bool)

  /** The state after a submit: the address stays as typed, and the card shows when the request went out. */
  function AfterSubmit(p: Page, reply: Reply<Option<string>>): (r: Page)
    requires !p.emailSent
    ensures r.email == p.email
    ensures r.emailSent <==> p.email != "" && EmailCheck(p.email)
  {
    Page(p.email, Submit(p.email, reply).emailSent)
  }

  /** "Try a different email address": the card gives way to the form, which still holds the typed address. */
  function TryAnother(p: Page): (r: Page)
    ensures !r.emailSent
    ensures r.email == p.email
  {
    p.(emailSent := false)
  }

  /** Submitting and then choosing another address returns to the form as it was left. */
  lemma TryAnotherUndoesSubmit(p: Page, reply: Reply<Option<string>>)
    requires !p.emailSent
    ensures TryAnother(AfterSubmit(p, reply)) == p
  {
  }
}
