/**
 * The signed-in customer's booking history (History.tsx): the list the
 * server returns for the session, delete-by-id behind a confirmation,
 * and the total / past / upcoming summary.
 */
module History {
  import opened Wrappers
  import opened Seqs
  import opened Text
  import opened Http
  import opened Bookings

  datatype State = State(bookings: seq<Booking>, loading: bool)

  const Initial := State([], true)

  datatype Step = Step(state: State, request: Option<string>, notice: Notice)

  /** `fetchBookings`: the server's list on success, the empty list kept on failure. */
  function Fetch(st: State, reply: Reply<seq<Booking>>): (r: Step)
    ensures !r.state.loading && r.request.None?
    ensures reply.Ok? ==> r.state.bookings == reply.data
    ensures reply.Fail? ==> r.state.bookings == st.bookings && r.notice.Toast? && r.notice.destructive
  {
    match reply
    case Ok(data) => Step(State(data, false), None, Silent)
    case Fail(_) => Step(st.(loading := false), None, Toast("Error", "Failed to load booking history", true))
  }

  /** A successful fetch shows the server's list whatever the page showed before. */
  lemma LatestFetchWins(st: State, earlier: Reply<seq<Booking>>, data: seq<Booking>)
    ensures Fetch(Fetch(st, earlier).state, Ok(data)).state == Fetch(st, Ok(data)).state
  {
  }

  /** A first load that fails shows the empty history, not a stale one. */
  lemma FailedFirstLoadIsEmpty(e: ErrorBody)
    ensures Fetch(Initial, Fail(e)).state == State([], false)
  {
  }

  function DeletePath(id: nat): string
  {
    "/api/bookings/user/" + NatToString(id) + "/delete/"
  }

  /**
   * `handleDelete`: a declined confirmation sends nothing; a failed call
   * leaves the list as it was; only a confirmed success removes the id.
   */
  function HandleDelete(st: State, id: nat, confirmed: bool, reply: Reply<()>): (r: Step)
    ensures r.request.Some? <==> confirmed
    ensures r.request.Some? ==> r.request.value == DeletePath(id)
    ensures confirmed && reply.Ok? ==> r.state.bookings == RemoveById(st.bookings, id)
    ensures !(confirmed && reply.Ok?) ==> r.state == st
    ensures confirmed && reply.Ok? ==> r.notice == Toast("Success", "Booking deleted successfully", false)
    ensures confirmed && reply.Fail? ==> r.notice == Toast("Error", "Failed to delete booking", true)
  {
    if !confirmed then Step(st, None, Silent)
    else match reply
      case Ok(_) => Step(st.(bookings := RemoveById(st.bookings, id)), Some(DeletePath(id)),
        Toast("Success", "Booking deleted successfully", false))
      case Fail(_) => Step(st, Some(DeletePath(id)), Toast("Error", "Failed to delete booking", true))
  }

  /** Deleting a booking the server no longer has: failure, list unchanged, no partial removal. */
  lemma StaleDeleteKeepsList(st: State, id: nat, e: ErrorBody)
    ensures HandleDelete(st, id, true, Fail(e)).state.bookings == st.bookings
  {
  }

  datatype Summary = Summary(total: nat, past: nat, upcoming: nat)

  /** The three summary cards, computed against the instant `now`. */
  function Summarize(bs: seq<Booking>, now: int): (s: Summary)
    ensures s.total == |bs|
    ensures s.past + s.upcoming == s.total
    ensures s.past == |Filter(IsPast(now), bs)|
    ensures forall b :: b in Filter(IsPast(now), bs) <==> b in bs && b.eventDate < now
    ensures forall b :: b in Filter(IsUpcoming(now), bs) <==> b in bs && b.eventDate >= now
  {
    PastPlusUpcoming(bs, now);
    Summary(|bs|, PastCount(bs, now), UpcomingCount(bs, now))
  }

  /** A successful delete of an id present once lowers the total by exactly one. */
  lemma DeleteLowersTotal(st: State, id: nat, now: int)
    requires Count(HasId(id), st.bookings) == 1
    ensures Summarize(HandleDelete(st, id, true, Ok(())).state.bookings, now).total
      == Summarize(st.bookings, now).total - 1
  {
  }
}
