/**
 * The staff dashboard (Admin.tsx): client-side search over the fetched
 * bookings and users, the per-user booking join with its five-item
 * preview, the summary counters, and the edit/update/delete workflow.
 * Network results are inputs; every list change happens only after the
 * server confirmed it.
 */
module Admin {
  import opened Wrappers
  import opened Seqs
  import opened Text
  import opened Http
  import opened Bookings

  /** An account as the admin users endpoint returns it. */
  datatype UserRecord = UserRecord(
    id: nat,
    username: string,
    email: string,
    firstName: Option<string>,
    lastName: Option<string>,
    isActive: bool,
    isStaff: bool,
    isSuperuser: Option<bool>,
    phone: Option<string>,
    location: Option<string>,
    occupation: Option<string>,
    bookingCount: Option<int>)

  /** `field.toLowerCase().includes(term.toLowerCase())` */
  predicate MatchesText(field: string, term: string)
  {
    Contains(Lower(field), Lower(term))
  }

  /** `field && field.toLowerCase().includes(...)`: an absent or empty field never matches. */
  predicate MatchesOptional(field: Option<string>, term: string)
  {
    Truthy(field) && MatchesText(field.value, term)
  }

  /** The booking search rule of Admin.tsx:92-97. */
  predicate BookingMatches(b: Booking, term: string)
  {
    || MatchesText(b.name, term)
    || MatchesText(b.email, term)
    || MatchesText(b.eventType, term)
    || MatchesOptional(b.userEmail, term)
  }

  function BookingMatcher(term: string): Booking -> bool
  {
    (b: Booking) => BookingMatches(b, term)
  }

  /** The bookings tab's list for a search term. */
  function SearchBookings(bs: seq<Booking>, term: string): (r: seq<Booking>)
    ensures forall b :: b in r <==> b in bs && BookingMatches(b, term)
    ensures IsSubseq(r, bs)
  {
    Filter(BookingMatcher(term), bs)
  }

  /** An empty search shows every booking, in the fetched order. */
  lemma SearchBookingsEmptyTerm(bs: seq<Booking>)
    ensures SearchBookings(bs, "") == bs
  {
    forall k | 0 <= k < |bs| ensures BookingMatches(bs[k], "") {
      ContainsEmpty(Lower(bs[k].name));
    }
    FilterAll(BookingMatcher(""), bs);
  }

  /** Lower-casing the term first does not change the result. */
  lemma SearchBookingsIgnoresTermCase(bs: seq<Booking>, term: string)
    ensures SearchBookings(bs, Lower(term)) == SearchBookings(bs, term)
  {
    LowerIdempotent(term);
    FilterExt(BookingMatcher(Lower(term)), BookingMatcher(term), bs);
  }

  /** The user search rule of Admin.tsx:102-110. */
  predicate UserMatches(u: UserRecord, term: string)
  {
    || MatchesText(u.username, term)
    || MatchesText(u.email, term)
    || MatchesOptional(u.firstName, term)
    || MatchesOptional(u.lastName, term)
    || MatchesOptional(u.phone, term)
    || MatchesOptional(u.location, term)
    || MatchesOptional(u.occupation, term)
  }

  function UserMatcher(term: string): UserRecord -> bool
  {
    (u: UserRecord) => UserMatches(u, term)
  }

  /** The users tab's list for a search term. */
  function SearchUsers(us: seq<UserRecord>, term: string): (r: seq<UserRecord>)
    ensures forall u :: u in r <==> u in us && UserMatches(u, term)
    ensures IsSubseq(r, us)
  {
    Filter(UserMatcher(term), us)
  }

  /** An empty search shows every user, in the fetched order. */
  lemma SearchUsersEmptyTerm(us: seq<UserRecord>)
    ensures SearchUsers(us, "") == us
  {
    forall k | 0 <= k < |us| ensures UserMatches(us[k], "") {
      ContainsEmpty(Lower(us[k].username));
    }
    FilterAll(UserMatcher(""), us);
  }

  /** A user whose optional profile fields are all absent or empty is found only by username or email. */
  lemma SearchUsersOptionalFieldsNeedValues(u: UserRecord, term: string)
    requires !Truthy(u.firstName) && !Truthy(u.lastName)
    requires !Truthy(u.phone) && !Truthy(u.location) && !Truthy(u.occupation)
    ensures UserMatches(u, term) <==> MatchesText(u.username, term) || MatchesText(u.email, term)
  {
  }

  function OwnedBy(uid: nat): Booking -> bool
  {
    (b: Booking) => b.user == Some(uid)
  }

  /** `getUserBookings`: the bookings linked to one account, in list order. */
  function UserBookings(bs: seq<Booking>, uid: nat): (r: seq<Booking>)
    ensures forall b :: b in r <==> b in bs && b.user == Some(uid)
    ensures IsSubseq(r, bs)
  {
    Filter(OwnedBy(uid), bs)
  }

  /** Bookings without an owner are never attributed to any account. */
  lemma AnonymousBookingsUnowned(bs: seq<Booking>, uid: nat, b: Booking)
    requires b.user.None?
    ensures b !in UserBookings(bs, uid)
  {
  }

  /** The per-user bookings of distinct accounts never overlap. */
  lemma UserBookingsDisjoint(bs: seq<Booking>, u1: nat, u2: nat)
    requires u1 != u2
    ensures forall b :: b in UserBookings(bs, u1) ==> b !in UserBookings(bs, u2)
  {
  }

  /** The booking block of one user card. */
  datatype UserCard = UserCard(
    count: nat,
    preview: seq<Booking>,
    more: Option<nat>,
    totalNote: Option<int>,
    showHistory: bool)

  const PreviewSize: nat := 5

  /**
   * The card for user `u`: the local count, the first five bookings, the
   * "+K more bookings" line, and the "(Total: n)" note shown when the
   * server's own count disagrees with the local join.
   */
  function Card(bs: seq<Booking>, u: UserRecord): (c: UserCard)
    ensures c.count == |UserBookings(bs, u.id)|
    ensures |c.preview| == if c.count < PreviewSize then c.count else PreviewSize
    ensures c.preview == UserBookings(bs, u.id)[..|c.preview|]
    ensures c.more.Some? <==> c.count > PreviewSize
    ensures c.more.Some? ==> |c.preview| + c.more.value == c.count
    ensures c.totalNote.Some? <==> u.bookingCount.Some? && u.bookingCount.value != c.count
    ensures c.showHistory <==> c.count > 0
  {
    var mine := UserBookings(bs, u.id);
    var n := |mine|;
    UserCard(
      n,
      if n <= PreviewSize then mine else mine[..PreviewSize],
      if n > PreviewSize then Some(n - PreviewSize) else None,
      if u.bookingCount.Some? && u.bookingCount.value != n then u.bookingCount else None,
      n > 0)
  }

  /** The name line of a user card: both names, else the username. */
  function CardName(u: UserRecord): (r: string)
    ensures Truthy(u.firstName) && Truthy(u.lastName)
      ==> r == u.firstName.value + " " + u.lastName.value
    ensures !(Truthy(u.firstName) && Truthy(u.lastName)) ==> r == u.username
  {
    if Truthy(u.firstName) && Truthy(u.lastName) then u.firstName.value + " " + u.lastName.value
    else u.username
  }

  datatype Stats = Stats(totalBookings: nat, totalUsers: nat, upcomingEvents: nat, pastEvents: nat)

  /** The four counters at the top of the dashboard. */
  function ComputeStats(bs: seq<Booking>, us: seq<UserRecord>, now: int): (s: Stats)
    ensures s.totalBookings == |bs| && s.totalUsers == |us|
    ensures s.upcomingEvents + s.pastEvents == s.totalBookings
    ensures s.upcomingEvents == |Filter(IsUpcoming(now), bs)|
  {
    PastPlusUpcoming(bs, now);
    Stats(|bs|, |us|, UpcomingCount(bs, now), PastCount(bs, now))
  }

  /** The requests the dashboard can send on its own initiative. */
  datatype Request = DeleteBooking(path: string) | UpdateBooking(path: string, body: Booking)

  function BookingPath(id: nat, action: string): string
  {
    "/api/admin/bookings/" + NatToString(id) + "/" + action + "/"
  }

  datatype State = State(
    bookings: seq<Booking>,
    users: seq<UserRecord>,
    bookingTerm: string,
    userTerm: string,
    selected: Option<Booking>,
    editing: bool,
    editForm: Booking,
    loading: bool)

  /** The bookings list currently on screen. */
  function VisibleBookings(st: State): seq<Booking>
  {
    SearchBookings(st.bookings, st.bookingTerm)
  }

  /** The users list currently on screen. */
  function VisibleUsers(st: State): seq<UserRecord>
  {
    SearchUsers(st.users, st.userTerm)
  }

  /** The edit dialog is rendered only while editing a selected booking. */
  predicate ModalOpen(st: State)
  {
    st.editing && st.selected.Some?
  }

  datatype Step = Step(state: State, request: Option<Request>, notice: Notice)

  /** `fetchAllBookings`: the list is replaced on success; loading ends either way. */
  function FetchBookings(st: State, reply: Reply<seq<Booking>>): (r: Step)
    ensures !r.state.loading
    ensures reply.Ok? ==> r.state.bookings == reply.data && r.notice.Silent?
    ensures reply.Fail? ==> r.state.bookings == st.bookings && r.notice.Toast? && r.notice.destructive
    ensures r.state.users == st.users && r.request.None?
  {
    match reply
    case Ok(data) => Step(st.(bookings := data, loading := false), None, Silent)
    case Fail(_) => Step(st.(loading := false), None,
      Toast("Error", "Failed to load bookings. Make sure you're logged in as admin.", true))
  }

  /** `fetchAllUsers`: independent of the bookings fetch; it does not touch `loading`. */
  function FetchUsers(st: State, reply: Reply<seq<UserRecord>>): (r: Step)
    ensures reply.Ok? ==> r.state == st.(users := reply.data)
    ensures reply.Fail? ==> r.state == st && r.notice.Toast? && r.notice.destructive
    ensures r.request.None?
  {
    match reply
    case Ok(data) => Step(st.(users := data), None, Silent)
    case Fail(_) => Step(st, None, Toast("Error", "Failed to load users.", true))
  }

  /**
   * The dashboard starts both fetches at once; whichever answers first,
   * the state they leave is the same.
   */
  lemma FetchesCommute(st: State, bookingsReply: Reply<seq<Booking>>, usersReply: Reply<seq<UserRecord>>)
    ensures FetchUsers(FetchBookings(st, bookingsReply).state, usersReply).state
         == FetchBookings(FetchUsers(st, usersReply).state, bookingsReply).state
  {
  }

  /** A successful bookings fetch shows the server's list whatever was shown before. */
  lemma LatestBookingsWin(st: State, earlier: Reply<seq<Booking>>, data: seq<Booking>)
    ensures FetchBookings(FetchBookings(st, earlier).state, Ok(data)).state == FetchBookings(st, Ok(data)).state
  {
  }

  /**
   * `handleDelete`: nothing is sent unless the admin confirms; the list
   * loses the booking only after the server accepted the delete.
   */
  function HandleDelete(st: State, id: nat, confirmed: bool, reply: Reply<()>): (r: Step)
    ensures r.request.Some? <==> confirmed
    ensures r.request.Some? ==> r.request.value == DeleteBooking(BookingPath(id, "delete"))
    ensures confirmed && reply.Ok? ==> r.state == st.(bookings := RemoveById(st.bookings, id))
    ensures !(confirmed && reply.Ok?) ==> r.state == st
    ensures confirmed && reply.Fail? ==> r.notice.Toast? && r.notice.destructive
  {
    if !confirmed then Step(st, None, Silent)
    else
      var req := Some(DeleteBooking(BookingPath(id, "delete")));
      match reply
      case Ok(_) =>
        Step(st.(bookings := RemoveById(st.bookings, id)), req,
          Toast("Success", "Booking deleted successfully", false))
      case Fail(_) => Step(st, req, Toast("Error", "Failed to delete booking", true))
  }

  /** `handleEdit`: opens the dialog pre-filled with the booking. */
  function HandleEdit(st: State, b: Booking): (r: State)
    ensures ModalOpen(r) && r.editForm == b && r.selected == Some(b)
    ensures r.bookings == st.bookings
  {
    st.(selected := Some(b), editForm := b, editing := true)
  }

  /** Typing into the dialog edits only the draft, never the list. */
  function EditDraft(st: State, draft: Booking): (r: State)
    ensures r.editForm == draft
    ensures r.bookings == st.bookings && r.selected == st.selected && r.editing == st.editing
  {
    st.(editForm := draft)
  }

  /** The dialog's Cancel button: hides the dialog, keeps the selection. */
  function CancelEdit(st: State): (r: State)
    ensures !ModalOpen(r)
    ensures r.bookings == st.bookings && r.selected == st.selected
  {
    st.(editing := false)
  }

  /**
   * `handleUpdateBooking`: the draft is sent for the selected id; on
   * success the server's record replaces that booking and the dialog
   * closes; on failure the list and the open dialog are kept.
   */
  function HandleUpdate(st: State, reply: Reply<Booking>): (r: Step)
    ensures st.selected.None? ==> r == Step(st, None, Silent)
    ensures st.selected.Some? ==> r.request == Some(UpdateBooking(BookingPath(st.selected.value.id, "update"), st.editForm))
    ensures st.selected.Some? && reply.Ok? ==>
      && r.state.bookings == ReplaceById(st.bookings, st.selected.value.id, reply.data)
      && !ModalOpen(r.state) && r.state.selected.None?
    ensures st.selected.Some? && reply.Fail? ==> r.state == st && r.notice.Toast? && r.notice.destructive
  {
    match st.selected
    case None => Step(st, None, Silent)
    case Some(sel) =>
      var req := Some(UpdateBooking(BookingPath(sel.id, "update"), st.editForm));
      match reply
      case Ok(resp) =>
        Step(st.(bookings := ReplaceById(st.bookings, sel.id, resp), editing := false, selected := None),
          req, Toast("Success", "Booking updated successfully", false))
      case Fail(_) => Step(st, req, Toast("Error", "Failed to update booking", true))
  }

  /**
   * After a successful update the list shows the server's record, not the
   * draft: if the server answers with a record that differs from the
   * draft, the draft is nowhere in the updated slots.
   */
  lemma UpdateTrustsServer(st: State, resp: Booking, k: int)
    requires st.selected.Some? && 0 <= k < |st.bookings|
    requires st.bookings[k].id == st.selected.value.id
    ensures HandleUpdate(st, Ok(resp)).state.bookings[k] == resp
  {
  }
}
