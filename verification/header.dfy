/**
 * The navigation header's session view (Header.tsx): the auth check that
 * runs on every path change, the fail-open logout, and the links the
 * session state unlocks.
 */
module Header {
  import opened Wrappers
  import opened Http
  import opened Identity

  datatype State = State(
    loggedIn: bool,
    isAdmin: bool,
    user: Option<UserData>,
    loading: bool,
    profileOpen: bool)

  const Initial := State(false, false, None, true, false)

  /** The identity is shown iff logged in, and admin rights come from that identity. */
  predicate Consistent(h: State)
  {
    && (h.loggedIn <==> h.user.Some?)
    && (h.isAdmin <==> h.user.Some? && h.user.value.isStaff == Some(true))
  }

  /** The location the router exposes; only the pathname is a dependency of the check. */
  datatype Location = Location(pathname: string, search: string)

  /** The check runs on mount and whenever the pathname differs from the previous one. */
  predicate ChecksOn(previous: Option<Location>, current: Location)
  {
    previous.None? || previous.value.pathname != current.pathname
  }

  /** How many times the check runs while one header instance sees the locations `ls`, from its mount on. */
  function ChecksAlong(previous: Option<Location>, ls: seq<Location>): (n: nat)
    ensures n <= |ls|
    decreases |ls|
  {
    if |ls| == 0 then 0
    else (if ChecksOn(previous, ls[0]) then 1 else 0) + ChecksAlong(Some(ls[0]), ls[1..])
  }

  /** The number of adjacent steps of `ls` that move to another pathname. */
  function PathChanges(ls: seq<Location>): (n: nat)
    ensures |ls| > 0 ==> n < |ls|
    decreases |ls|
  {
    if |ls| < 2 then 0
    else (if ls[1].pathname != ls[0].pathname then 1 else 0) + PathChanges(ls[1..])
  }

  /** After a location `l`, the check runs once for each change of pathname. */
  lemma {:induction false} ChecksAfter(l: Location, ls: seq<Location>)
    ensures ChecksAlong(Some(l), ls) == PathChanges([l] + ls)
    decreases |ls|
  {
    if |ls| > 0 {
      ChecksAfter(ls[0], ls[1..]);
      assert ([l] + ls)[1..] == [ls[0]] + ls[1..];
    }
  }

  /** One header instance checks once on mount and once more per change of pathname. */
  lemma {:induction false} ChecksPerPathChange(ls: seq<Location>)
    requires |ls| > 0
    ensures ChecksAlong(None, ls) == 1 + PathChanges(ls)
  {
    ChecksAfter(ls[0], ls[1..]);
    assert [ls[0]] + ls[1..] == ls;
  }

  /** Locations that share one pathname hold no change of pathname. */
  lemma {:induction false} SamePathNoChanges(ls: seq<Location>)
    requires forall i :: 0 <= i < |ls| ==> ls[i].pathname == ls[0].pathname
    ensures PathChanges(ls) == 0
    decreases |ls|
  {
    if |ls| >= 2 {
      SamePathNoChanges(ls[1..]);
    }
  }

  /** Changing only the query string, however often, never re-runs the check after mount. */
  lemma {:induction false} QueryChangesCheckOnce(ls: seq<Location>)
    requires |ls| > 0
    requires forall i :: 0 <= i < |ls| ==> ls[i].pathname == ls[0].pathname
    ensures ChecksAlong(None, ls) == 1
  {
    ChecksPerPathChange(ls);
    SamePathNoChanges(ls);
  }

  /**
   * `checkAuthStatus` once `me` answered: a truthy body signs the user in
   * with admin rights from `is_staff` (false when absent); a failure clears
   * the whole session; an empty body leaves it as it was.
   */
  function CheckAuth(h: State, reply: Reply<Option<UserData>>): (r: State)
    ensures !r.loading
    ensures reply.Ok? && reply.data.Some? ==>
      r.loggedIn && r.user == reply.data && r.isAdmin == reply.data.value.isStaff.GetOr(false)
    ensures reply.Fail? ==> !r.loggedIn && r.user.None? && !r.isAdmin
    ensures reply.Ok? && reply.data.None? ==> r == h.(loading := false)
    ensures r.profileOpen == h.profileOpen
  {
    match reply
    case Ok(Some(d)) => h.(user := Some(d), loggedIn := true, isAdmin := d.isStaff.GetOr(false), loading := false)
    case Ok(None) => h.(loading := false)
    case Fail(_) => h.(loggedIn := false, user := None, isAdmin := false, loading := false)
  }

  /** Every auth check keeps the session view consistent. */
  lemma CheckAuthPreservesConsistency(h: State, reply: Reply<Option<UserData>>)
    requires Consistent(h)
    ensures Consistent(CheckAuth(h, reply))
  {
    match reply
    case Ok(Some(d)) =>
      assert d.isStaff.GetOr(false) <==> d.isStaff == Some(true);
    case Ok(None) =>
    case Fail(_) =>
  }

  datatype LogoutStep = LogoutStep(state: State, navigation: Navigation)

  /**
   * `handleLogout`: whatever the logout call returns, the session is
   * cleared, the menu closed, and the browser sent to /login in place.
   */
  function Logout(h: State, reply: Reply<()>): (r: LogoutStep)
    ensures !r.state.loggedIn && r.state.user.None? && !r.state.isAdmin && !r.state.profileOpen
    ensures Consistent(r.state)
    ensures r.navigation == Navigate("/login", true)
  {
    var cleared := h.(loggedIn := false, user := None, isAdmin := false, profileOpen := false);
    match reply
    case Ok(_) => LogoutStep(cleared, Navigate("/login", true))
    case Fail(_) => LogoutStep(cleared, Navigate("/login", true))
  }

  /** Logout fails open: a failed call ends exactly where a successful one does. */
  lemma LogoutFailsOpen(h: State, e: ErrorBody)
    ensures Logout(h, Fail(e)) == Logout(h, Ok(()))
  {
  }

  /** The History link. */
  predicate ShowsHistoryLink(h: State)
  {
    h.loggedIn
  }

  /** The Admin link, shown from `is_staff` only; the server still guards the admin endpoints. */
  predicate ShowsAdminLink(h: State)
  {
    h.isAdmin
  }

  /** In a consistent state, whoever sees the Admin link also sees the History link. */
  lemma AdminLinkImpliesHistoryLink(h: State)
    requires Consistent(h) && ShowsAdminLink(h)
    ensures ShowsHistoryLink(h)
  {
  }

  /** The state the header reaches from a fresh mount after one check is consistent. */
  lemma MountIsConsistent(reply: Reply<Option<UserData>>)
    ensures Consistent(CheckAuth(Initial, reply))
  {
    CheckAuthPreservesConsistency(Initial, reply);
  }
}
