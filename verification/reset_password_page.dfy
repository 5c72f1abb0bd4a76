/**
 * The reset-password page (ResetPassword.tsx): the link check on mount,
 * the three ordered form checks, the confirm call and the view chosen
 * from the page's flags.
 */
module ResetPasswordPage {
  import opened Wrappers
  import opened Text
  import opened Http

  /** The `uid` and `token` query parameters (`searchParams.get` returns null when absent). */
  datatype Link = Link(uid: Option<string>, token: Option<string>)

  /** The body of the validation call. */
  datatype ValidationBody = ValidationBody(valid: bool, detail: Option<string>)

  datatype LinkCheck = LinkCheck(requested: bool, tokenValid: bool, notice: Notice)

  /**
   * `validateToken`: an absent or empty parameter marks the link invalid
   * without a call; otherwise only a body with `valid` set opens the form.
   */
  function CheckLink(link: Link, reply: Reply<ValidationBody>): (r: LinkCheck)
    ensures r.requested <==> Truthy(link.uid) && Truthy(link.token)
    ensures r.tokenValid <==> r.requested && reply.Ok? && reply.data.valid
    ensures r.tokenValid <==> r.notice.Silent?
  {
    if !Truthy(link.uid) || !Truthy(link.token) then
      LinkCheck(false, false, Toast("Invalid Link", "The password reset link is invalid or incomplete.", true))
    else
      match reply
      case Ok(body) =>
        if body.valid then LinkCheck(true, true, Silent)
        else
          var text := if Truthy(body.detail) then body.detail.value else "This password reset link is no longer valid.";
          LinkCheck(true, false, Toast("Invalid or Expired Link", text, true))
      case Fail(_) =>
        LinkCheck(true, false, Toast("Validation Error", "Unable to validate reset link. Please try again.", true))
  }

  const MinLength := 8

  /**
   * The first failing form check, as the notice it shows. The length is
   * the string's `.length`, which counts UTF-16 code units.
   */
  function Rejection(password: string, confirm: string): (n: Option<Notice>)
    ensures n.None? <==> password != "" && confirm != "" && password == confirm && Utf16Length(password) >= MinLength
    ensures n.Some? ==> n.value.Toast? && n.value.destructive
    ensures (password == "" || confirm == "") ==> n.value.title == "Missing Information"
    ensures password != "" && confirm != "" && password != confirm ==> n.value.title == "Passwords Don't Match"
    ensures password != "" && password == confirm && Utf16Length(password) < MinLength ==> n.value.title == "Password Too Short"
  {
    if password == "" || confirm == "" then
      Some(Toast("Missing Information", "Please fill in all fields.", true))
    else if password != confirm then
      Some(Toast("Passwords Don't Match", "Please ensure both passwords are identical.", true))
    else if Utf16Length(password) < MinLength then
      Some(Toast("Password Too Short", "Password must be at least 8 characters long.", true))
    else None
  }

  /**
   * The length check counting characters, as the confirm view's `len`
   * does (in JavaScript, `[...password].length`).
   */
  function CorrectedRejection(password: string, confirm: string): (n: Option<Notice>)
    ensures n.None? <==> password != "" && confirm != "" && password == confirm && |password| >= MinLength
    ensures n.None? ==> Rejection(password, confirm).None?
    ensures n.Some? ==> n.value.Toast? && n.value.destructive
    ensures password != "" && password == confirm && |password| < MinLength ==> n.value.title == "Password Too Short"
  {
    if password == "" || confirm == "" then
      Some(Toast("Missing Information", "Please fill in all fields.", true))
    else if password != confirm then
      Some(Toast("Passwords Don't Match", "Please ensure both passwords are identical.", true))
    else if |password| < MinLength then
      Some(Toast("Password Too Short", "Password must be at least 8 characters long.", true))
    else None
  }

  /** The two checks differ only on passwords that astral characters push over the bound. */
  lemma RejectionsDifferOnlyOnAstral(password: string)
    ensures Rejection(password, password).None? != CorrectedRejection(password, password).None? <==>
      |password| < MinLength <= Utf16Length(password)
  {
  }

  /** The body of the confirm call: the link's parameters and the new password, never the confirmation. */
  datatype ConfirmBody = ConfirmBody(uid: Option<string>, token: Option<string>, password: string)

  datatype Outcome = Outcome(request: Option<ConfirmBody>, success: bool, notice: Notice)

  /** `handleSubmit`, with the confirm call's reply (its `detail`) as input. */
  function Submit(link: Link, password: string, confirm: string, reply: Reply<Option<string>>): (r: Outcome)
    ensures r.request.Some? <==> Rejection(password, confirm).None?
    ensures r.request.Some? ==> r.request.value == ConfirmBody(link.uid, link.token, password)
    ensures r.success <==> r.request.Some? && reply.Ok?
    ensures r.request.Some? && reply.Fail? ==>
      r.notice == Toast("Reset Failed", ErrorText(reply.error, "Failed to reset password. Please try again."), true)
  {
    match Rejection(password, confirm)
    case Some(n) => Outcome(None, false, n)
    case None =>
      var body := ConfirmBody(link.uid, link.token, password);
      match reply
      case Ok(detail) =>
        var text := if Truthy(detail) then detail.value else "Your password has been updated successfully.";
        Outcome(Some(body), true, Toast("Password Reset Successful!", text, false))
      case Fail(e) =>
        Outcome(Some(body), false, Toast("Reset Failed", ErrorText(e, "Failed to reset password. Please try again."), true))
  }

  /** A password of eight characters passes the length check, whatever they are. */
  lemma EightCharactersAccepted(password: string)
    requires |password| == MinLength
    ensures Rejection(password, password).None?
  {
  }

  /** Any password of seven UTF-16 units or fewer is stopped before the call, even when confirmed. */
  lemma ShortPasswordNeverSent(link: Link, password: string, reply: Reply<Option<string>>)
    requires Utf16Length(password) < MinLength
    ensures Submit(link, password, password, reply).request.None?
    ensures !Submit(link, password, password, reply).success
  {
  }

  datatype View = Validating | InvalidLink | Done | PasswordForm

  /** The view the page renders: the spinner, then the invalid-link card, then the success card, then the form. */
  function Render(validating: bool, tokenValid: bool, success: bool): (v: View)
    ensures v == PasswordForm <==> !validating && tokenValid && !success
    ensures v == Done <==> !validating && tokenValid && success
  {
    if validating then Validating
    else if !tokenValid then InvalidLink
    else if success then Done
    else PasswordForm
  }

  /** The form is reachable only through a link the server called valid. */
  lemma FormNeedsValidLink(link: Link, reply: Reply<ValidationBody>)
    requires Render(false, CheckLink(link, reply).tokenValid, false) == PasswordForm
    ensures Truthy(link.uid) && Truthy(link.token) && reply.Ok? && reply.data.valid
  {
  }
}
