/**
 * The login page (Login.tsx): the redirect of an already signed-in
 * visitor, and the submit pipeline — required fields, then the CSRF
 * cookie fetch, the login call carrying the cookie's token, and the
 * `me` call — where the first failure stops the chain.
 */
module LoginPage {
  import opened Wrappers
  import opened Http
  import Csrf
  import Identity

  datatype Form = Form(email: string, password: string)

  datatype Request =
    | GetCsrf
    | PostLogin(email: string, password: string, csrfHeader: string)
    | GetMe

  datatype Outcome = Outcome(requests: seq<Request>, notice: Notice, navigation: Option<Navigation>)

  const Fallback := "Invalid credentials or server error"

  function Failed(text: string): Notice
  {
    Toast("Login Failed", text, true)
  }

  /** The `X-CSRFToken` header: the cookie's token, or "" when there is none. */
  function CsrfHeader(read: Csrf.Read): string
    requires read.Value?
  {
    read.token.GetOr("")
  }

  /** The whole chain of calls a submit makes when nothing fails. */
  function Pipeline(f: Form, header: string): seq<Request>
  {
    [GetCsrf, PostLogin(f.email, f.password, header), GetMe]
  }

  /**
   * `handleSubmit`. `cookie` is `document.cookie` as it stands after the
   * CSRF call; the replies of the calls not reached are ignored.
   */
  function Submit(f: Form, csrfReply: Reply<()>, cookie: string, loginReply: Reply<()>, meReply: Reply<()>): (r: Outcome)
    ensures r.requests == [] <==> f.email == "" || f.password == ""
    ensures r.requests == [] ==> r.notice == Toast("Missing Information", "Please fill in all fields.", true)
    ensures Csrf.GetCsrfCookie(cookie).Value? ==>
      r.requests <= Pipeline(f, CsrfHeader(Csrf.GetCsrfCookie(cookie)))
    ensures |r.requests| <= 1 || Csrf.GetCsrfCookie(cookie).Value?
    ensures r.navigation.Some? <==> |r.requests| == 3 && meReply.Ok? && loginReply.Ok?
    ensures r.navigation.Some? ==> r.navigation.value == Navigate("/", false) && r.notice.Toast? && !r.notice.destructive
    ensures r.requests != [] && r.navigation.None? ==> r.notice.Toast? && r.notice.title == "Login Failed"
    ensures f.email != "" && f.password != "" && csrfReply.Fail? ==>
      r == Outcome([GetCsrf], Failed(ErrorText(csrfReply.error, Fallback)), None)
    ensures f.email != "" && f.password != "" && csrfReply.Ok? && Csrf.GetCsrfCookie(cookie).Value? ==>
      var sent := Pipeline(f, CsrfHeader(Csrf.GetCsrfCookie(cookie)));
      && (loginReply.Fail? ==> r == Outcome(sent[..2], Failed(ErrorText(loginReply.error, Fallback)), None))
      && (loginReply.Ok? && meReply.Fail? ==> r == Outcome(sent, Failed(ErrorText(meReply.error, Fallback)), None))
      && (loginReply.Ok? && meReply.Ok? ==> r.requests == sent && r.navigation == Some(Navigate("/", false)))
  {
    if f.email == "" || f.password == "" then
      Outcome([], Toast("Missing Information", "Please fill in all fields.", true), None)
    else if csrfReply.Fail? then
      Outcome([GetCsrf], Failed(ErrorText(csrfReply.error, Fallback)), None)
    else
      match Csrf.GetCsrfCookie(cookie)
      case Throws =>
        // a URIError carries no response, so only the fallback is shown
        Outcome([GetCsrf], Failed(Fallback), None)
      case Value(token) =>
        var sent := Pipeline(f, token.GetOr(""));
        if loginReply.Fail? then Outcome(sent[..2], Failed(ErrorText(loginReply.error, Fallback)), None)
        else if meReply.Fail? then Outcome(sent, Failed(ErrorText(meReply.error, Fallback)), None)
        else Outcome(sent, Toast("Login Successful!", "Welcome back to GMN Events.", false), Some(Navigate("/", false)))
  }

  /** The number of leading `true`s: how far a chain of steps gets before the first failure. */
  function LeadingPasses(steps: seq<bool>): (n: nat)
    ensures n <= |steps|
    ensures forall k :: 0 <= k < n ==> steps[k]
    ensures n < |steps| ==> !steps[n]
  {
    if |steps| == 0 || !steps[0] then 0 else 1 + LeadingPasses(steps[1..])
  }

  /**
   * The submit as a chain: the CSRF step passes when its call succeeds and
   * the cookie decodes, then the login call, then the `me` call. Each step
   * passed issues the next call, and only a chain passed to the end goes
   * home.
   */
  lemma SubmitStopsAtFirstFailure(f: Form, csrfReply: Reply<()>, cookie: string, loginReply: Reply<()>, meReply: Reply<()>)
    requires f.email != "" && f.password != ""
    ensures var steps := [csrfReply.Ok? && Csrf.GetCsrfCookie(cookie).Value?, loginReply.Ok?, meReply.Ok?];
      var r := Submit(f, csrfReply, cookie, loginReply, meReply);
      var header := if Csrf.GetCsrfCookie(cookie).Value? then CsrfHeader(Csrf.GetCsrfCookie(cookie)) else "";
      && r.requests == Pipeline(f, header)[..if LeadingPasses(steps) == 3 then 3 else LeadingPasses(steps) + 1]
      && (r.navigation.Some? <==> LeadingPasses(steps) == 3)
  {
    var read := Csrf.GetCsrfCookie(cookie);
    var steps := [csrfReply.Ok? && read.Value?, loginReply.Ok?, meReply.Ok?];
    assert steps[1..] == [loginReply.Ok?, meReply.Ok?];
    assert steps[1..][1..] == [meReply.Ok?];
    var n := LeadingPasses(steps);
    if !steps[0] {
      assert n == 0;
    } else if !steps[1] {
      assert n == 1;
    } else if !steps[2] {
      assert n == 2;
    } else {
      assert n == 3;
    }
  }

  /** A malformed escape in the cookie stops the login before the credentials are posted. */
  lemma MalformedCookieStopsBeforePost(f: Form, cookie: string, login: Reply<()>, me: Reply<()>)
    requires f.email != "" && f.password != ""
    requires Csrf.GetCsrfCookie(cookie) == Csrf.Throws
    ensures Submit(f, Ok(()), cookie, login, me) == Outcome([GetCsrf], Failed(Fallback), None)
  {
  }

  /** Without a `csrftoken` cookie the login call still goes out, with an empty header. */
  lemma NoCookieSendsEmptyHeader(f: Form, cookie: string, login: Reply<()>, me: Reply<()>)
    requires f.email != "" && f.password != ""
    requires Csrf.MatchCookie(cookie).None?
    ensures PostLogin(f.email, f.password, "") in Submit(f, Ok(()), cookie, login, me).requests
  {
    assert Submit(f, Ok(()), cookie, login, me).requests[1] == PostLogin(f.email, f.password, "");
  }

  /** The `me` check on mount sends a signed-in visitor home, replacing the login entry. */
  function OnMount(me: Reply<Option<Identity.UserData>>): (n: Option<Navigation>)
    ensures n.Some? <==> me.Ok? && me.data.Some?
    ensures n.Some? ==> n.value == Navigate("/", true)
  {
    if me.Ok? && me.data.Some? then Some(Navigate("/", true)) else None
  }
}
