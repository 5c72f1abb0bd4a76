/**
 * What a page sees of a REST call: the decoded body on success, or the
 * status and the `detail`/`message` fields of the error body on failure
 * (axios rejects on every non-2xx status and on transport errors, which
 * carry no status at all).
 */
module Http {
  import opened Wrappers

  datatype ErrorBody = ErrorBody(status: Option<int>, detail: Option<string>, message: Option<string>)

  datatype Reply<+T> = Ok(data: T) | Fail(error: ErrorBody)

  /** A transient notice (toast); `destructive` marks the error variant. */
  datatype Notice = Silent | Toast(title: string, description: string, destructive: bool)

  /** A client-side navigation; `replace` overwrites the current history entry. */
  datatype Navigation = Navigate(path: string, replace: bool)

  /** JavaScript truthiness of an optional string: present and non-empty. */
  predicate Truthy(s: Option<string>)
  {
    s.Some? && |s.value| > 0
  }

  /**
   * The text shown for a failed call: `detail || message || fallback`,
   * as the profile, login, signup and reset pages all compute it.
   */
  function ErrorText(e: ErrorBody, fallback: string): (r: string)
    ensures Truthy(e.detail) ==> r == e.detail.value
    ensures !Truthy(e.detail) && Truthy(e.message) ==> r == e.message.value
    ensures !Truthy(e.detail) && !Truthy(e.message) ==> r == fallback
    ensures |fallback| > 0 ==> |r| > 0
  {
    if Truthy(e.detail) then e.detail.value
    else if Truthy(e.message) then e.message.value
    else fallback
  }
}
