/**
 * The signup page's submit (Signup.tsx): the required-field check, then
 * the password confirmation, then one registration call whose body
 * renames the name fields and leaves the confirmation behind.
 */
module SignupPage {
  import opened Wrappers
  import opened Http

  datatype Form = Form(firstName: string, lastName: string, email: string, phone: string, password: string, confirmPassword: string)

  /** The body of the registration call, in the backend's field names. */
  datatype Payload = Payload(first_name: string, last_name: string, email: string, phone: string, password: string)

  datatype Outcome = Outcome(request: Option<Payload>, notice: Notice, navigation: Option<Navigation>)

  const Fallback := "Registration failed"

  predicate HasRequired(f: Form)
  {
    f.firstName != "" && f.lastName != "" && f.email != "" && f.password != ""
  }

  function ToPayload(f: Form): (p: Payload)
    ensures p.first_name == f.firstName && p.last_name == f.lastName
    ensures p.email == f.email && p.phone == f.phone && p.password == f.password
  {
    Payload(f.firstName, f.lastName, f.email, f.phone, f.password)
  }

  /** The first failing check, if any, as the notice it shows. */
  function Rejection(f: Form): (n: Option<Notice>)
    ensures n.None? <==> HasRequired(f) && f.password == f.confirmPassword
    ensures !HasRequired(f) ==> n == Some(Toast("Missing Information", "Fill all required fields.", true))
    ensures HasRequired(f) && f.password != f.confirmPassword ==>
      n == Some(Toast("Password Mismatch", "Passwords do not match.", true))
  {
    if !HasRequired(f) then Some(Toast("Missing Information", "Fill all required fields.", true))
    else if f.password != f.confirmPassword then Some(Toast("Password Mismatch", "Passwords do not match.", true))
    else None
  }

  /** `handleSubmit`; `reply` is the registration call's result when it is made. */
  function Submit(f: Form, reply: Reply<()>): (r: Outcome)
    ensures r.request.Some? <==> HasRequired(f) && f.password == f.confirmPassword
    ensures r.request.Some? ==> r.request.value == ToPayload(f)
    ensures r.navigation.Some? <==> r.request.Some? && reply.Ok?
    ensures r.navigation.Some? ==> r.navigation.value == Navigate("/login", false)
    ensures r.request.Some? && reply.Fail? ==>
      r.notice == Toast("Signup Failed", ErrorText(reply.error, Fallback), true)
  {
    match Rejection(f)
    case Some(n) => Outcome(None, n, None)
    case None =>
      match reply
      case Ok(_) => Outcome(Some(ToPayload(f)), Toast("Account Created!", "You can now log in.", false), Some(Navigate("/login", false)))
      case Fail(e) => Outcome(Some(ToPayload(f)), Toast("Signup Failed", ErrorText(e, Fallback), true), None)
  }

  /** The phone number never decides whether the form is sent. */
  lemma PhoneNotRequired(f: Form, phone: string, reply: Reply<()>)
    ensures Submit(f.(phone := phone), reply).request.Some? <==> Submit(f, reply).request.Some?
  {
  }

  /** A mismatch is reported only once every required field is filled. */
  lemma MissingFieldReportedFirst(f: Form, reply: Reply<()>)
    requires !HasRequired(f)
    ensures Submit(f, reply).notice.title == "Missing Information"
  {
  }

  /** The confirmation never leaves the page: two forms differing only there send the same body. */
  lemma ConfirmationNotSent(f: Form, g: Form)
    requires f.(confirmPassword := g.confirmPassword) == g
    ensures ToPayload(f) == ToPayload(g)
  {
  }
}
