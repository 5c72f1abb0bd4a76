/**
 * The profile page (Profile.tsx): loading the signed-in user, and the
 * edit, cancel and save steps over the three editable fields.
 */
module ProfilePage {
  import opened Wrappers
  import opened Http
  import opened Identity

  datatype Editable = Editable(firstName: string, lastName: string, username: string)

  datatype State = State(user: Option<UserData>, editable: Editable, editing: bool, loading: bool)

  const Initial := State(None, Editable("", "", ""), false, true)

  datatype Step = Step(state: State, notice: Notice, navigation: Option<Navigation>, request: Option<Editable>)

  /** `x || ""`. */
  function OrEmpty(s: Option<string>): (r: string)
    ensures Truthy(s) ==> r == s.value
    ensures !Truthy(s) ==> r == ""
  {
    if Truthy(s) then s.value else ""
  }

  /** The editable copy of a user's fields, "" where a field is missing. */
  function EditableOf(u: Option<UserData>): (e: Editable)
    ensures u.None? ==> e == Editable("", "", "")
    ensures u.Some? ==> e.firstName == OrEmpty(u.value.firstName) && e.lastName == OrEmpty(u.value.lastName)
    ensures u.Some? ==> e.username == OrEmpty(u.value.username)
  {
    match u
    case None => Editable("", "", "")
    case Some(d) => Editable(OrEmpty(d.firstName), OrEmpty(d.lastName), OrEmpty(d.username))
  }

  /**
   * `fetchUserData`: a body fills the page and the draft; an empty body
   * changes nothing; a 401 sends the visitor to /login; any other failure
   * only warns.
   */
  function Fetch(st: State, reply: Reply<Option<UserData>>): (r: Step)
    ensures !r.state.loading && r.request.None?
    ensures reply.Ok? && reply.data.Some? ==>
      r.state.user == reply.data && r.state.editable == EditableOf(reply.data)
    ensures !(reply.Ok? && reply.data.Some?) ==> r.state == st.(loading := false)
    ensures r.navigation.Some? <==> reply.Fail? && reply.error.status == Some(401)
    ensures r.navigation.Some? ==> r.navigation.value == Navigate("/login", false)
  {
    match reply
    case Ok(Some(d)) => Step(st.(user := Some(d), editable := EditableOf(Some(d)), loading := false), Silent, None, None)
    case Ok(None) => Step(st.(loading := false), Silent, None, None)
    case Fail(e) =>
      if e.status == Some(401) then
        Step(st.(loading := false), Toast("Authentication Required", "Please log in to view your profile.", true), Some(Navigate("/login", false)), None)
      else
        Step(st.(loading := false), Toast("Error", "Failed to load profile data.", true), None, None)
  }

  function Edit(st: State): (r: State)
    ensures r.editing && r.(editing := st.editing) == st
  {
    st.(editing := true)
  }

  /** `handleCancel`: leave edit mode and throw the draft away in favour of the loaded user. */
  function Cancel(st: State): (r: State)
    ensures !r.editing
    ensures r.editable == EditableOf(st.user)
    ensures r.user == st.user && r.loading == st.loading
  {
    st.(editing := false, editable := EditableOf(st.user))
  }

  /** Cancelling forgets every edit: two drafts of the same user cancel to the same state. */
  lemma CancelForgetsDraft(st: State, draft: Editable)
    ensures Cancel(st.(editable := draft)) == Cancel(st)
  {
  }

  /** Right after a load, editing and cancelling returns to the loaded state. */
  lemma CancelAfterFetchRestores(st: State, d: UserData)
    ensures Cancel(Edit(Fetch(st, Ok(Some(d))).state)) == Fetch(st, Ok(Some(d))).state.(editing := false)
  {
  }

  predicate Complete(e: Editable)
  {
    e.firstName != "" && e.lastName != "" && e.username != ""
  }

  const SaveFallback := "Failed to update profile. Please try again."

  /**
   * `handleSave`: an incomplete draft is refused without a call; a
   * returned user replaces the loaded one and ends editing; a failure
   * leaves everything as it was and reports detail, message or fallback.
   */
  function Save(st: State, reply: Reply<Option<UserData>>): (r: Step)
    ensures r.request.Some? <==> Complete(st.editable)
    ensures r.request.Some? ==> r.request.value == st.editable
    ensures r.navigation.None?
    ensures r.request.Some? && reply.Ok? && reply.data.Some? ==>
      r.state == st.(user := reply.data, editing := false)
    ensures !(r.request.Some? && reply.Ok? && reply.data.Some?) ==> r.state == st
    ensures r.request.Some? && reply.Fail? ==>
      r.notice == Toast("Update Failed", ErrorText(reply.error, SaveFallback), true)
    ensures r.request.None? ==> r.notice == Toast("Validation Error", "All fields are required.", true)
  {
    if !Complete(st.editable) then
      Step(st, Toast("Validation Error", "All fields are required.", true), None, None)
    else
      match reply
      case Ok(Some(d)) =>
        Step(st.(user := Some(d), editing := false), Toast("Profile Updated", "Your profile has been updated successfully.", false), None, Some(st.editable))
      case Ok(None) => Step(st, Silent, None, Some(st.editable))
      case Fail(e) => Step(st, Toast("Update Failed", ErrorText(e, SaveFallback), true), None, Some(st.editable))
  }

  /** After a successful save, cancelling shows the server's values, not the typed ones. */
  lemma CancelAfterSaveShowsServerValues(st: State, d: UserData)
    requires Complete(st.editable)
    ensures Cancel(Save(st, Ok(Some(d))).state).editable == EditableOf(Some(d))
  {
  }

  /** The avatar initials are the header's: one definition serves both. */
  function AvatarInitials(st: State): (r: string)
    ensures r == Identity.Initials(st.user)
    ensures st.user.None? ==> r == "U"
  {
    Initials(st.user)
  }
}
