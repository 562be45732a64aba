/** Validation of the site's forms: the booking form (required fields,
    add-on choices, time order, past dates, clashes with existing bookings),
    the review form's rating and comment, and the registration form's e-mail. */
module Forms {
  import opened Wrappers
  import opened Text
  import opened Sorting
  import opened Models

  // ---------------------------------------------------------------------
  // Booking form

  datatype BookingField = DateField | StartTimeField | EndTimeField

  /** The errors the booking form can report. All but `SlotTaken` belong to
      a field; `SlotTaken` is about the request as a whole. */
  datatype BookingError =
    | Missing(field: BookingField)   // required field absent or not a valid date/time
    | InvalidAddOnChoice             // on add_ons: an id the venue does not offer
    | NullCharacterInNotes           // on notes: U+0000 is refused
    | EndNotAfterStart               // on end_time
    | DateInPast                     // on date
    | SlotTaken                      // non-field: clashes with a live booking

  predicate IsFieldError(e: BookingError)
  {
    !e.SlotTaken?
  }

  /** What the user submits. A date or time that is absent or does not
      parse is None: it never reaches the form's cleaned data. */
  datatype BookingRequest = BookingRequest(
    date: Option<Date>,
    start: Option<TimeOfDay>,
    end: Option<TimeOfDay>,
    notes: string,
    addOnIds: seq<AddOnId>)

  /** The `[start, end)` slot of `venue` on `date` is blocked by `b`: same
      venue and date, `b` still holds its slot, and the two half-open ranges
      meet (`b.start < end` and `b.end > start`). */
  predicate Blocks(b: Booking, venue: VenueId, date: Date, start: TimeOfDay, end: TimeOfDay)
  {
    && b.venue == venue
    && b.date == date
    && HoldsSlot(b.status)
    && b.start < end
    && b.end > start
  }

  /** Some booking in `existing` blocks the slot (the overlap query's
      `exists()`). */
  function AnyBlocking(existing: seq<Booking>, venue: VenueId, date: Date, start: TimeOfDay, end: TimeOfDay): (r: bool)
    ensures r <==> exists i :: 0 <= i < |existing| && Blocks(existing[i], venue, date, start, end)
  {
    if existing == [] then false
    else if Blocks(existing[0], venue, date, start, end) then true
    else
      var r := AnyBlocking(existing[1..], venue, date, start, end);
      assert forall i :: 1 <= i < |existing| ==> existing[i] == existing[1..][i - 1];
      r
  }

  /** The booking form's `clean`: an end-time error for an empty or inverted
      range, a date error for a past date, and, independently of both, the
      whole-request error when a live booking of the venue blocks the slot.
      The clash test needs all three values; each of the other two needs only
      its own. */
  function CleanBooking(date: Option<Date>, start: Option<TimeOfDay>, end: Option<TimeOfDay>,
                        venue: VenueId, existing: seq<Booking>, today: Date): (errors: seq<BookingError>)
    ensures EndNotAfterStart in errors <==> start.Some? && end.Some? && start.value >= end.value
    ensures DateInPast in errors <==> date.Some? && date.value < today
    ensures SlotTaken in errors <==>
      && date.Some? && start.Some? && end.Some?
      && exists i :: 0 <= i < |existing| && Blocks(existing[i], venue, date.value, start.value, end.value)
    ensures forall e :: e in errors ==> e.EndNotAfterStart? || e.DateInPast? || e.SlotTaken?
  {
    var timeErrors := if start.Some? && end.Some? && start.value >= end.value then [EndNotAfterStart] else [];
    var dateErrors := if date.Some? && date.value < today then [DateInPast] else [];
    var clash := date.Some? && start.Some? && end.Some?
                 && AnyBlocking(existing, venue, date.value, start.value, end.value);
    timeErrors + dateErrors + (if clash then [SlotTaken] else [])
  }

  /** The venue offers an add-on with this id. */
  predicate Offered(offered: seq<AddOn>, id: AddOnId)
  {
    exists k :: 0 <= k < |offered| && offered[k].id == id
  }

  /** The add-ons field, whose choices are the venue's own add-ons: every
      submitted id must be one of them, and the selection is the venue's
      add-ons whose ids were submitted. */
  function ResolveAddOns(ids: seq<AddOnId>, offered: seq<AddOn>): (r: Option<seq<AddOn>>)
    ensures r.Some? <==> forall k :: 0 <= k < |ids| ==> Offered(offered, ids[k])
    ensures r.Some? ==> forall a :: a in r.value <==> a in offered && a.id in ids
    ensures r.Some? ==> multiset(r.value) <= multiset(offered)
  {
    if forall k :: 0 <= k < |ids| ==> Offered(offered, ids[k]) then
      Some(Filter(offered, (a: AddOn) => a.id in ids))
    else None
  }

  /** A booking request that passed validation. */
  datatype CleanedBooking = CleanedBooking(
    date: Date,
    start: TimeOfDay,
    end: TimeOfDay,
    notes: string,
    addOns: seq<AddOn>)

  /** Errors for the required date and time fields that are missing. */
  function MissingErrors(req: BookingRequest): (errors: seq<BookingError>)
    ensures Missing(DateField) in errors <==> req.date.None?
    ensures Missing(StartTimeField) in errors <==> req.start.None?
    ensures Missing(EndTimeField) in errors <==> req.end.None?
    ensures forall e :: e in errors ==> e.Missing?
  {
    (if req.date.None? then [Missing(DateField)] else [])
    + (if req.start.None? then [Missing(StartTimeField)] else [])
    + (if req.end.None? then [Missing(EndTimeField)] else [])
  }

  /** Every error of the booking form for this request: field cleaning
      first, then `clean`. */
  function BookingErrors(req: BookingRequest, venue: VenueId, offered: seq<AddOn>,
                         existing: seq<Booking>, today: Date): seq<BookingError>
  {
    MissingErrors(req)
    + (if !NoNull(Strip(req.notes)) then [NullCharacterInNotes] else [])
    + (if ResolveAddOns(req.addOnIds, offered).None? then [InvalidAddOnChoice] else [])
    + CleanBooking(req.date, req.start, req.end, venue, existing, today)
  }

  /** The whole booking form for `venue`, whose add-ons are `offered`. It
      accepts exactly the complete requests with start before end, a date not
      in the past, notes free of U+0000, only offered add-ons and no live
      booking in the way; what
      it accepts carries the submitted values, the stripped notes and a
      selection drawn from the venue's add-ons. */
  function ValidateBooking(req: BookingRequest, venue: VenueId, offered: seq<AddOn>,
                           existing: seq<Booking>, today: Date): (r: Result<CleanedBooking, seq<BookingError>>)
    ensures r.Ok? <==>
      && req.date.Some? && req.start.Some? && req.end.Some?
      && NoNull(Strip(req.notes))
      && (forall k :: 0 <= k < |req.addOnIds| ==> Offered(offered, req.addOnIds[k]))
      && req.start.value < req.end.value
      && req.date.value >= today
      && !(exists i :: 0 <= i < |existing| && Blocks(existing[i], venue, req.date.value, req.start.value, req.end.value))
    ensures r.Ok? ==>
      && r.value.date == req.date.value && r.value.start == req.start.value && r.value.end == req.end.value
      && r.value.notes == Strip(req.notes)
      && (forall a :: a in r.value.addOns <==> a in offered && a.id in req.addOnIds)
    ensures r.Err? ==> r.error != [] && r.error == BookingErrors(req, venue, offered, existing, today)
  {
    var errors := BookingErrors(req, venue, offered, existing, today);
    if errors != [] then Err(errors)
    else
      assert MissingErrors(req) == [];
      assert ResolveAddOns(req.addOnIds, offered).Some?;
      var cleaned := CleanBooking(req.date, req.start, req.end, venue, existing, today);
      assert cleaned == [];
      Ok(CleanedBooking(req.date.value, req.start.value, req.end.value, Strip(req.notes),
                        ResolveAddOns(req.addOnIds, offered).value))
  }

  /** Back-to-back slots are free: bookings that end when the candidate
      starts, or start when it ends, never block it. */
  lemma BackToBackAdmitted(existing: seq<Booking>, venue: VenueId, date: Date,
                           start: TimeOfDay, end: TimeOfDay, today: Date)
    requires forall i :: 0 <= i < |existing| ==> existing[i].end <= start || existing[i].start >= end
    ensures SlotTaken !in CleanBooking(Some(date), Some(start), Some(end), venue, existing, today)
  {
  }

  /** A booking that is cancelled or rejected, or that is for another venue or
      another date, changes nothing in the outcome. */
  lemma {:induction false} IrrelevantBookingIgnored(existing: seq<Booking>, b: Booking, venue: VenueId,
                                 date: Option<Date>, start: Option<TimeOfDay>, end: Option<TimeOfDay>, today: Date)
    requires !HoldsSlot(b.status) || b.venue != venue || (date.Some? && b.date != date.value)
    ensures CleanBooking(date, start, end, venue, existing + [b], today)
            == CleanBooking(date, start, end, venue, existing, today)
  {
    if date.Some? && start.Some? && end.Some? {
      var all := existing + [b];
      assert !Blocks(b, venue, date.value, start.value, end.value);
      assert forall i :: 0 <= i < |existing| ==> all[i] == existing[i];
      assert all[|existing|] == b;
      assert AnyBlocking(all, venue, date.value, start.value, end.value)
             == AnyBlocking(existing, venue, date.value, start.value, end.value);
    }
  }

  /** The worked cases around a confirmed booking from 10:00 to 12:00: 11:00-13:00
      clashes, 12:00-13:00 and 08:00-10:00 are free, and once that booking is
      cancelled 11:00-13:00 is free as well. */
  lemma BookingAdmissionExamples(venue: VenueId, day: Date, today: Date)
    requires today <= day
    ensures var held := [Booking(1, venue, day, 36000, 43200, "", Confirmed, [])];
            && CleanBooking(Some(day), Some(39600), Some(46800), venue, held, today) == [SlotTaken]
            && CleanBooking(Some(day), Some(43200), Some(46800), venue, held, today) == []
            && CleanBooking(Some(day), Some(28800), Some(36000), venue, held, today) == []
    ensures var dropped := [Booking(1, venue, day, 36000, 43200, "", Cancelled, [])];
            CleanBooking(Some(day), Some(39600), Some(46800), venue, dropped, today) == []
  {
    var held := [Booking(1, venue, day, 36000, 43200, "", Confirmed, [])];
    assert Blocks(held[0], venue, day, 39600, 46800);
  }

  /** The clash test runs even when the time range is inverted, so one
      request can draw both the end-time error and the clash error. */
  lemma InvertedRangeCanAlsoClash(venue: VenueId, day: Date, today: Date)
    requires today <= day
    ensures var held := [Booking(1, venue, day, 36000, 50400, "", Pending, [])];
            CleanBooking(Some(day), Some(46800), Some(39600), venue, held, today) == [EndNotAfterStart, SlotTaken]
  {
    var held := [Booking(1, venue, day, 36000, 50400, "", Pending, [])];
    assert Blocks(held[0], venue, day, 46800, 39600);
  }

  /** The notes field, like every `CharField`, refuses U+0000: such a request
      is rejected with the notes error, whatever else it holds. */
  lemma NullInNotesRejected(req: BookingRequest, venue: VenueId, offered: seq<AddOn>,
                            existing: seq<Booking>, today: Date)
    requires '\U{0000}' in Strip(req.notes)
    ensures ValidateBooking(req, venue, offered, existing, today).Err?
    ensures NullCharacterInNotes in ValidateBooking(req, venue, offered, existing, today).error
  {
  }

  // ---------------------------------------------------------------------
  // Review form

  datatype ReviewError = RatingMissing | RatingOutOfRange | CommentMissing | CommentHasNullCharacter

  /** `clean_rating`: the rating must be one of 1, 2, 3, 4, 5. */
  function CleanRating(rating: Option<int>): (r: Result<int, ReviewError>)
    ensures r.Ok? <==> rating.Some? && 1 <= rating.value <= 5
    ensures r.Ok? ==> r.value == rating.value
    ensures r.Err? ==> r.error == RatingOutOfRange
  {
    if rating.Some? && 1 <= rating.value < 6 then Ok(rating.value) else Err(RatingOutOfRange)
  }

  /** The review form's errors: a missing rating is a required-field error
      and `clean_rating` is then not run; the comment is required after
      stripping and may not hold U+0000. */
  function ReviewErrors(rating: Option<int>, comment: string): seq<ReviewError>
  {
    (if rating.None? then [RatingMissing]
     else if CleanRating(rating).Err? then [CleanRating(rating).error]
     else [])
    + (if Strip(comment) == "" then [CommentMissing]
       else if !NoNull(Strip(comment)) then [CommentHasNullCharacter]
       else [])
  }

  /** The review form accepts a rating from 1 to 5 with a comment that is
      not blank and holds no U+0000; it yields the rating and the stripped
      comment. */
  function ValidateReview(rating: Option<int>, comment: string): (r: Result<(int, string), seq<ReviewError>>)
    ensures r.Ok? <==> rating.Some? && 1 <= rating.value <= 5 && Strip(comment) != "" && NoNull(Strip(comment))
    ensures r.Ok? ==> r.value == (rating.value, Strip(comment))
    ensures r.Err? ==> r.error != [] && r.error == ReviewErrors(rating, comment)
  {
    var errors := ReviewErrors(rating, comment);
    if errors != [] then Err(errors) else Ok((rating.value, Strip(comment)))
  }

  /** A comment holding U+0000 is refused, so no review is saved. */
  lemma NullInCommentRejected(rating: Option<int>, comment: string)
    requires '\U{0000}' in Strip(comment)
    ensures ValidateReview(rating, comment).Err?
  {
  }

  // ---------------------------------------------------------------------
  // Registration form

  datatype RegistrationError = EmailTaken

  /** `clean_email`: the address is lower-cased and refused when a
      registered address equals it ignoring case. */
  function CleanEmail(email: string, registered: seq<string>): (r: Result<string, RegistrationError>)
    ensures r.Ok? <==> forall i :: 0 <= i < |registered| ==> Lower(registered[i]) != Lower(email)
    ensures r.Ok? ==> r.value == Lower(email)
  {
    var lowered := Lower(email);
    LowerIdempotent(email);
    if exists i :: 0 <= i < |registered| && IEquals(registered[i], lowered) then Err(EmailTaken)
    else Ok(lowered)
  }

  /** The account fields the registration form sets. */
  class User {
    var username: string
    var email: string
    var firstName: string
    var lastName: string

    constructor ()
      ensures username == "" && email == "" && firstName == "" && lastName == ""
    {
      username, email, firstName, lastName := "", "", "", "";
    }
  }

  /** The registration form's `save`: the address, lower-cased, becomes both
      the user name and the e-mail. */
  method RegistrationSave(user: User, email: string, firstName: string, lastName: string)
    modifies user
    ensures user.username == Lower(email) && user.email == Lower(email)
    ensures user.firstName == firstName && user.lastName == lastName
  {
    user.username := Lower(email);
    user.email := Lower(email);
    user.firstName := firstName;
    user.lastName := lastName;
  }

  /** Saving what `clean_email` accepted stores it unchanged: the user name
      and e-mail are already lower case. */
  lemma CleanEmailIsLowerCase(email: string, registered: seq<string>)
    requires CleanEmail(email, registered).Ok?
    ensures Lower(CleanEmail(email, registered).value) == CleanEmail(email, registered).value
  {
    LowerIdempotent(email);
  }
}
