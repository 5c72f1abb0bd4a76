/**
 * The booking list as the admin dashboard and the history page hold it,
 * and the list updates both pages apply after the server confirms a
 * change (Admin.tsx, History.tsx).
 */
module Bookings {
  import opened Wrappers
  import opened Seqs

  /**
   * A booking as the admin and history endpoints return it. `eventDate`
   * is the instant `new Date(eventDate)` denotes; the owner fields are
   * present only for bookings made from a signed-in account.
   */
  datatype Booking = Booking(
    id: nat,
    name: string,
    email: string,
    phone: string,
    eventType: string,
    eventDate: int,
    venue: string,
    guestCount: int,
    budget: string,
    specialRequests: string,
    status: string,
    createdAt: string,
    userEmail: Option<string>,
    userName: Option<string>,
    user: Option<nat>)

  function HasOtherId(id: nat): Booking -> bool
  {
    (b: Booking) => b.id != id
  }

  function HasId(id: nat): Booking -> bool
  {
    (b: Booking) => b.id == id
  }

  /** `bookings.filter(b => b.id !== id)`: the list after a confirmed delete. */
  function RemoveById(bs: seq<Booking>, id: nat): (r: seq<Booking>)
    ensures forall b :: b in r <==> b in bs && b.id != id
    ensures IsSubseq(r, bs)
    ensures |r| == |bs| - Count(HasId(id), bs)
  {
    FilterPartition(HasOtherId(id), HasId(id), bs);
    Filter(HasOtherId(id), bs)
  }

  /** Deleting an id that is not in the list changes nothing. */
  lemma RemoveAbsent(bs: seq<Booking>, id: nat)
    requires forall k :: 0 <= k < |bs| ==> bs[k].id != id
    ensures RemoveById(bs, id) == bs
  {
    FilterAll(HasOtherId(id), bs);
  }

  /** A second delete of the same id is a no-op. */
  lemma RemoveIdempotent(bs: seq<Booking>, id: nat)
    ensures RemoveById(RemoveById(bs, id), id) == RemoveById(bs, id)
  {
    var r := RemoveById(bs, id);
    assert forall k :: 0 <= k < |r| ==> r[k] in r;
    RemoveAbsent(r, id);
  }

  /**
   * `bookings.map(b => b.id === id ? resp : b)`: the list after a confirmed
   * update holds the server's record in place of every booking with that id.
   */
  function ReplaceById(bs: seq<Booking>, id: nat, resp: Booking): (r: seq<Booking>)
    ensures |r| == |bs|
    ensures forall k :: 0 <= k < |bs| && bs[k].id != id ==> r[k] == bs[k]
    ensures forall k :: 0 <= k < |bs| && bs[k].id == id ==> r[k] == resp
  {
    seq(|bs|, k requires 0 <= k < |bs| => if bs[k].id == id then resp else bs[k])
  }

  /** Updating an id that is not in the list changes nothing. */
  lemma ReplaceAbsent(bs: seq<Booking>, id: nat, resp: Booking)
    requires forall k :: 0 <= k < |bs| ==> bs[k].id != id
    ensures ReplaceById(bs, id, resp) == bs
  {
  }

  /** Applying the same server record twice is the same as applying it once. */
  lemma ReplaceIdempotent(bs: seq<Booking>, id: nat, resp: Booking)
    requires resp.id == id
    ensures ReplaceById(ReplaceById(bs, id, resp), id, resp) == ReplaceById(bs, id, resp)
  {
  }

  /** An update followed by a delete of the same id is just the delete. */
  lemma {:induction false} ReplaceThenRemove(bs: seq<Booking>, id: nat, resp: Booking)
    requires resp.id == id
    ensures RemoveById(ReplaceById(bs, id, resp), id) == RemoveById(bs, id)
    decreases |bs|
  {
    if |bs| > 0 {
      var r := ReplaceById(bs, id, resp);
      assert r[1..] == ReplaceById(bs[1..], id, resp);
      ReplaceThenRemove(bs[1..], id, resp);
    }
  }

  function IsUpcoming(now: int): Booking -> bool
  {
    (b: Booking) => b.eventDate >= now
  }

  function IsPast(now: int): Booking -> bool
  {
    (b: Booking) => b.eventDate < now
  }

  /** Bookings whose event instant is at or after `now`. */
  function UpcomingCount(bs: seq<Booking>, now: int): nat
  {
    Count(IsUpcoming(now), bs)
  }

  /** Bookings whose event instant is strictly before `now`. */
  function PastCount(bs: seq<Booking>, now: int): nat
  {
    Count(IsPast(now), bs)
  }

  /** Every booking is either past or upcoming, never both. */
  lemma PastPlusUpcoming(bs: seq<Booking>, now: int)
    ensures PastCount(bs, now) + UpcomingCount(bs, now) == |bs|
  {
    FilterPartition(IsPast(now), IsUpcoming(now), bs);
  }

  /** As time passes, the past count never decreases. */
  lemma PastGrowsWithTime(bs: seq<Booking>, now1: int, now2: int)
    requires now1 <= now2
    ensures PastCount(bs, now1) <= PastCount(bs, now2)
    ensures UpcomingCount(bs, now2) <= UpcomingCount(bs, now1)
  {
    FilterMonotone(IsPast(now1), IsPast(now2), bs);
    FilterMonotone(IsUpcoming(now2), IsUpcoming(now1), bs);
  }
}
