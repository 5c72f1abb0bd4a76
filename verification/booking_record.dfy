/**
 * The persisted booking (app1/models.py, model `Booking`): the field
 * constraints the database schema declares.
 */
module BookingRecord {
  import opened Wrappers
  import BookingForm

  /** A calendar date (no time of day), as `DateField` stores it. */
  datatype Date = Date(year: int, month: int, day: int)

  /**
   * The stored row. The model declares no status and no owner: besides the
   * listed fields only `id` and `created_at` are added automatically.
   */
  datatype StoredBooking = StoredBooking(
    id: nat,
    name: string,
    email: string,
    phone: string,
    eventType: string,
    eventDate: Date,
    venue: Option<string>,
    guestCount: int,
    budget: Option<string>,
    specialRequests: Option<string>,
    createdAt: int)

  const NameMax: nat := 100
  /** `EmailField`'s default `max_length`. */
  const EmailMax: nat := 254
  const PhoneMax: nat := 15
  const EventTypeMax: nat := 50
  const VenueMax: nat := 200
  const BudgetMax: nat := 50

  predicate FitsOptional(s: Option<string>, max: nat)
  {
    s.None? || |s.value| <= max
  }

  /** The `max_length` bounds of the schema. */
  predicate Valid(b: StoredBooking)
  {
    && |b.name| <= NameMax
    && |b.email| <= EmailMax
    && |b.phone| <= PhoneMax
    && |b.eventType| <= EventTypeMax
    && FitsOptional(b.venue, VenueMax)
    && FitsOptional(b.budget, BudgetMax)
  }

  /** The bounded fields, in declaration order. */
  datatype Field = Name | Email | Phone | EventType | Venue | Budget

  /** `[f]` when the field breaks its bound. */
  function Flag(broken: bool, f: Field): (r: seq<Field>)
    ensures f in r <==> broken
    ensures forall g :: g in r ==> g == f
  {
    if broken then [f] else []
  }

  /** The fields that break their bound, in declaration order, as a serializer keys its errors. */
  function Violations(b: StoredBooking): (r: seq<Field>)
    ensures |r| == 0 <==> Valid(b)
    ensures Name in r <==> |b.name| > NameMax
    ensures Email in r <==> |b.email| > EmailMax
    ensures Phone in r <==> |b.phone| > PhoneMax
    ensures EventType in r <==> |b.eventType| > EventTypeMax
    ensures Venue in r <==> !FitsOptional(b.venue, VenueMax)
    ensures Budget in r <==> !FitsOptional(b.budget, BudgetMax)
  {
    Flag(|b.name| > NameMax, Name)
    + Flag(|b.email| > EmailMax, Email)
    + Flag(|b.phone| > PhoneMax, Phone)
    + Flag(|b.eventType| > EventTypeMax, EventType)
    + Flag(!FitsOptional(b.venue, VenueMax), Venue)
    + Flag(!FitsOptional(b.budget, BudgetMax), Budget)
  }

  /** Optional fields may be left out of a valid row. */
  lemma OptionalFieldsMayBeAbsent(b: StoredBooking)
    requires Valid(b)
    ensures Valid(b.(venue := None, budget := None, specialRequests := None))
  {
  }

  /**
   * A custom event type longer than 50 characters is forwarded verbatim by
   * the booking form, so the resulting event type cannot be stored.
   */
  lemma LongCustomTypeExceedsSchema(f: BookingForm.Form)
    requires f.eventType == BookingForm.Other && |f.customEventType| > EventTypeMax
    ensures |BookingForm.ToPayload(f).eventType| > EventTypeMax
  {
  }
}
