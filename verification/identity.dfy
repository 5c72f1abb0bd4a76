/**
 * The signed-in identity as the `me` endpoint returns it, and the two
 * display helpers the header and the profile page derive from it
 * (`getUserInitials`, `getUserDisplayName`).
 */
module Identity {
  import opened Wrappers
  import opened Text
  import opened Http

  /** The `me` body. Name fields are read with `?.`, so they may be missing. */
  datatype UserData = UserData(
    id: nat,
    email: string,
    username: Option<string>,
    firstName: Option<string>,
    lastName: Option<string>,
    isStaff: Option<bool>,
    isSuperuser: Option<bool>)

  /** `s?.charAt(0).toUpperCase() || ''`: the upper-cased first character, or nothing. */
  function FirstUpper(s: Option<string>): (r: string)
    ensures |r| <= 1
    ensures |r| == 1 <==> Truthy(s)
    ensures Truthy(s) ==> r[0] == AsciiUpper(s.value[0])
  {
    if Truthy(s) then [AsciiUpper(s.value[0])] else ""
  }

  /**
   * `getUserInitials`: the initials of the two names; the first letter of
   * the username when both names are empty; "U" otherwise.
   */
  function Initials(u: Option<UserData>): (r: string)
    ensures 1 <= |r| <= 2
    ensures u.None? ==> r == "U"
    ensures u.Some? && Truthy(u.value.firstName) ==> r[0] == AsciiUpper(u.value.firstName.value[0])
    ensures u.Some? && Truthy(u.value.lastName) ==> r[|r| - 1] == AsciiUpper(u.value.lastName.value[0])
    ensures |r| == 2 <==> u.Some? && Truthy(u.value.firstName) && Truthy(u.value.lastName)
    ensures u.Some? && !Truthy(u.value.firstName) && !Truthy(u.value.lastName) ==>
      r == (if Truthy(u.value.username) then [AsciiUpper(u.value.username.value[0])] else "U")
  {
    match u
    case None => "U"
    case Some(d) =>
      var names := FirstUpper(d.firstName) + FirstUpper(d.lastName);
      if names != "" then names
      else
        var fromUsername := FirstUpper(d.username);
        if fromUsername != "" then fromUsername else "U"
  }

  /**
   * `getUserDisplayName`: "first last" when both names are set, otherwise
   * the username, or the email when the username is empty too.
   */
  function DisplayName(u: Option<UserData>): (r: string)
    ensures u.None? ==> r == "User"
    ensures u.Some? && Truthy(u.value.firstName) && Truthy(u.value.lastName) ==>
      r == u.value.firstName.value + " " + u.value.lastName.value
    ensures u.Some? && !(Truthy(u.value.firstName) && Truthy(u.value.lastName)) ==>
      r == (if Truthy(u.value.username) then u.value.username.value else u.value.email)
  {
    match u
    case None => "User"
    case Some(d) =>
      if Truthy(d.firstName) && Truthy(d.lastName) then d.firstName.value + " " + d.lastName.value
      else if Truthy(d.username) then d.username.value
      else d.email
  }

  /** A user with one name set is greeted by username, never by a half name. */
  lemma DisplayNameNeedsBothNames(d: UserData)
    requires Truthy(d.firstName) && !Truthy(d.lastName) && Truthy(d.username)
    ensures DisplayName(Some(d)) == d.username.value
  {
  }

  /** The display name is never empty unless both the username and the email are empty. */
  lemma DisplayNameNonEmpty(d: UserData)
    requires |d.email| > 0
    ensures |DisplayName(Some(d))| > 0
  {
  }
}
