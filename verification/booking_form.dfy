/**
 * The public booking form (Booking.tsx): the payload built from the form
 * on submit, the browser's required-field gate, and the reset that
 * follows a successful submission.
 */
module BookingForm {
  import opened Wrappers
  import opened Http

  /** The form state; every field is the raw text of its input. */
  datatype Form = Form(
    name: string,
    email: string,
    phone: string,
    eventType: string,
    customEventType: string,
    eventDate: string,
    venue: string,
    guestCount: string,
    specialRequests: string)

  const Empty := Form("", "", "", "", "", "", "", "", "")

  /** The value of the "Other" entry of the event-type select. */
  const Other := "Other"

  /** The JSON body posted to the booking endpoint; it has no custom-type field. */
  datatype Payload = Payload(
    name: string,
    email: string,
    phone: string,
    eventType: string,
    eventDate: string,
    venue: string,
    guestCount: string,
    specialRequests: string)

  /**
   * `handleSubmit`'s transform: a non-empty custom type replaces "Other";
   * the custom field itself is dropped; everything else is copied.
   */
  function ToPayload(f: Form): (p: Payload)
    ensures f.eventType == Other && f.customEventType != "" ==> p.eventType == f.customEventType
    ensures f.eventType == Other && f.customEventType == "" ==> p.eventType == Other
    ensures f.eventType != Other ==> p.eventType == f.eventType
    ensures p.name == f.name && p.email == f.email && p.phone == f.phone
    ensures p.eventDate == f.eventDate && p.venue == f.venue
    ensures p.guestCount == f.guestCount && p.specialRequests == f.specialRequests
  {
    Payload(
      f.name, f.email, f.phone,
      if f.eventType == Other && f.customEventType != "" then f.customEventType else f.eventType,
      f.eventDate, f.venue, f.guestCount, f.specialRequests)
  }

  /** The custom text is invisible in the payload unless "Other" is selected. */
  lemma CustomTypeIgnoredUnlessOther(f: Form, custom: string)
    requires f.eventType != Other
    ensures ToPayload(f.(customEventType := custom)) == ToPayload(f)
  {
  }

  /**
   * The inputs marked `required`: the browser refuses to submit while any
   * of them is empty. The custom-type input exists only while "Other" is
   * selected; the event-type select itself is not required.
   */
  predicate BrowserAllowsSubmit(f: Form)
  {
    && f.name != "" && f.email != "" && f.phone != ""
    && f.eventDate != "" && f.guestCount != ""
    && (f.eventType == Other ==> f.customEventType != "")
  }

  /**
   * With the browser gate, the sentinel reaches the server only when the
   * customer literally typed "Other" as the custom type.
   */
  lemma SentinelReplacedWhenGated(f: Form)
    requires BrowserAllowsSubmit(f) && f.eventType == Other
    ensures ToPayload(f).eventType == f.customEventType
  {
  }

  /** Without the gate the sentinel itself is sent (an empty custom type). */
  lemma SentinelKeptWithoutCustomType()
    ensures ToPayload(Empty.(eventType := Other)).eventType == Other
  {
  }

  datatype Step = Step(form: Form, request: Payload, notice: Notice, submitting: bool)

  /** `handleSubmit`: the form resets to empty on success and is kept on failure. */
  function Submit(f: Form, reply: Reply<()>): (r: Step)
    ensures r.request == ToPayload(f) && !r.submitting
    ensures reply.Ok? ==> r.form == Empty && r.notice.Toast? && !r.notice.destructive
    ensures reply.Fail? ==> r.form == f && r.notice.Toast? && r.notice.destructive
  {
    match reply
    case Ok(_) => Step(Empty, ToPayload(f),
      Toast("Booking Request Submitted!", "We'll contact you within 24 hours to discuss your event details.", false), false)
    case Fail(_) => Step(f, ToPayload(f),
      Toast("Error", "Failed to submit booking. Please try again.", true), false)
  }

  /** After a success the form is empty, so the browser refuses an immediate second submit. */
  lemma SuccessBlocksResubmit(f: Form)
    ensures !BrowserAllowsSubmit(Submit(f, Ok(())).form)
  {
  }

  /** After a failure the kept form sends the same payload again. */
  lemma RetryResendsSamePayload(f: Form, e: ErrorBody, reply: Reply<()>)
    ensures Submit(Submit(f, Fail(e)).form, reply).request == Submit(f, reply).request
  {
  }
}
