/** The request handlers of the site: the catalogue filter and the featured
    list, the profile's upcoming and past bookings, and the three actions that
    change stored data (wishlist toggle, booking creation, review upsert),
    over an in-memory copy of the tables. */
module Views {
  import opened Wrappers
  import opened Text
  import opened Sorting
  import opened Models
  import opened Forms

  /** A venue as the listings see it: hourly price in cents, category by
      slug, and the add-ons it offers. */
  datatype VenueRow = VenueRow(
    id: VenueId,
    name: string,
    slug: string,
    city: string,
    category: string,
    price: int,
    addOns: seq<AddOn>)

  datatype Review = Review(rating: int, comment: string)

  // ---------------------------------------------------------------------
  // Catalogue

  /** The filter form's submitted values; `maxPrice` in cents, None when
      left empty. */
  datatype FilterQuery = FilterQuery(q: string, city: string, category: string, maxPrice: Option<int>)

  /** Cities offered by the city choice: every non-empty city of a venue. */
  function CityChoices(venues: seq<VenueRow>): (r: set<string>)
    ensures forall c :: c in r <==> c != "" && exists i :: 0 <= i < |venues| && venues[i].city == c
  {
    set i | 0 <= i < |venues| && venues[i].city != "" :: venues[i].city
  }

  /** The filter form validates: the search text holds no U+0000, a city and
      a category must be empty or one of the choices, and a maximum price
      must not be negative. */
  predicate FilterFormValid(query: FilterQuery, venues: seq<VenueRow>, categories: set<string>)
  {
    && NoNull(Strip(query.q))
    && (query.city == "" || query.city in CityChoices(venues))
    && (query.category == "" || query.category in categories)
    && (query.maxPrice.None? || query.maxPrice.value >= 0)
  }

  /** A venue meets every criterion that was given: the name contains the
      (stripped) search text ignoring case, the city equals ignoring case,
      the category slug is equal, and the price is at most the maximum. An
      empty text, city or category and a maximum of 0 or none give no
      criterion. */
  predicate MatchesQuery(v: VenueRow, query: FilterQuery)
  {
    && (Strip(query.q) == "" || IContains(v.name, Strip(query.q)))
    && (query.city == "" || IEquals(v.city, query.city))
    && (query.category == "" || v.category == query.category)
    && (query.maxPrice.None? || query.maxPrice.value == 0 || v.price <= query.maxPrice.value)
  }

  function Matching(query: FilterQuery): VenueRow -> bool
  {
    (v: VenueRow) => MatchesQuery(v, query)
  }

  /** The catalogue: all venues, narrowed by the filter when the query
      string was given (`query` is Some) and the form validates. Under a
      valid form a venue is listed exactly when it meets every criterion, and
      as often as it is stored; an invalid or absent form lists every venue.
      The rows come in stored order: the annotated queryset has no ordering
      of its own. */
  function Catalogue(venues: seq<VenueRow>, query: Option<FilterQuery>, categories: set<string>): (r: seq<VenueRow>)
    ensures query.Some? && FilterFormValid(query.value, venues, categories) ==>
              forall v :: v in r <==> v in venues && MatchesQuery(v, query.value)
    ensures query.Some? && FilterFormValid(query.value, venues, categories) ==>
              forall v :: multiset(r)[v] == if MatchesQuery(v, query.value) then multiset(venues)[v] else 0
    ensures !(query.Some? && FilterFormValid(query.value, venues, categories)) ==>
              multiset(r) == multiset(venues)
    ensures multiset(r) <= multiset(venues)
  {
    if query.Some? && FilterFormValid(query.value, venues, categories) then
      Filter(venues, Matching(query.value))
    else venues
  }

  /** A search text holding U+0000 invalidates the filter form, so every
      venue is listed. */
  lemma NullInSearchListsAll(venues: seq<VenueRow>, query: FilterQuery, categories: set<string>)
    requires '\U{0000}' in Strip(query.q)
    ensures multiset(Catalogue(venues, Some(query), categories)) == multiset(venues)
  {
  }

  /** A form with no criterion at all lists every venue. */
  lemma CatalogueWithoutCriteria(venues: seq<VenueRow>, categories: set<string>)
    ensures var r := Catalogue(venues, Some(FilterQuery("", "", "", None)), categories);
            forall v :: v in r <==> v in venues
  {
  }

  /** A maximum price of 0 filters nothing: it lists the same venues as no
      maximum. */
  lemma MaxPriceZeroIgnored(venues: seq<VenueRow>, q: string, city: string, category: string, categories: set<string>)
    ensures Catalogue(venues, Some(FilterQuery(q, city, category, Some(0))), categories)
            == Catalogue(venues, Some(FilterQuery(q, city, category, None)), categories)
  {
    var with0, without := FilterQuery(q, city, category, Some(0)), FilterQuery(q, city, category, None);
    assert FilterFormValid(with0, venues, categories) == FilterFormValid(without, venues, categories);
    ZeroMaximumMatchesAll(with0, without);
    FilterAgreeing(venues, Matching(with0), Matching(without));
  }

  /** Queries that differ only in a maximum of 0 against none match alike. */
  lemma ZeroMaximumMatchesAll(with0: FilterQuery, without: FilterQuery)
    requires with0 == without.(maxPrice := Some(0)) && without.maxPrice.None?
    ensures forall v :: Matching(with0)(v) == Matching(without)(v)
  {
    forall v ensures Matching(with0)(v) == Matching(without)(v) {
      assert MatchesQuery(v, with0) == MatchesQuery(v, without);
    }
  }

  // ---------------------------------------------------------------------
  // Featured venues

  /** Number of stored bookings of a venue, whatever their status. */
  function BookingCount(bookings: seq<Booking>, venue: VenueId): nat
  {
    |Filter(bookings, (b: Booking) => b.venue == venue)|
  }

  /** More bookings first, then by name. */
  function FeaturedOrder(bookings: seq<Booking>): (VenueRow, VenueRow) -> bool
  {
    (a: VenueRow, b: VenueRow) =>
      var ca, cb := BookingCount(bookings, a.id), BookingCount(bookings, b.id);
      ca > cb || (ca == cb && StrLe(a.name, b.name))
  }

  lemma FeaturedOrderTotal(bookings: seq<Booking>)
    ensures TotalPreorder(FeaturedOrder(bookings))
  {
    var le := FeaturedOrder(bookings);
    forall a: VenueRow, b: VenueRow ensures le(a, b) || le(b, a) {
      StrLeTotal(a.name, b.name);
    }
    forall a: VenueRow, b: VenueRow, c: VenueRow | le(a, b) && le(b, c) ensures le(a, c) {
      if BookingCount(bookings, a.id) == BookingCount(bookings, b.id) == BookingCount(bookings, c.id) {
        StrLeTransitive(a.name, b.name, c.name);
      }
    }
  }

  /** The home page's featured venues: the first three of `listed` by
      booking count, most first, then by name. No venue left out comes before
      one that was picked. */
  function Featured(listed: seq<VenueRow>, bookings: seq<Booking>): (r: seq<VenueRow>)
    ensures |r| == if |listed| < 3 then |listed| else 3
    ensures SortedBy(r, FeaturedOrder(bookings))
    ensures multiset(r) <= multiset(listed)
    ensures forall x, y :: x in r && y in multiset(listed) - multiset(r) ==> FeaturedOrder(bookings)(x, y)
  {
    FeaturedOrderTotal(bookings);
    var s := SortBy(listed, FeaturedOrder(bookings));
    var k := if |s| < 3 then |s| else 3;
    SortedPrefixFirst(s, k, FeaturedOrder(bookings));
    assert s == s[..k] + s[k..];
    assert multiset(s) == multiset(s[..k]) + multiset(s[k..]);
    s[..k]
  }

  // ---------------------------------------------------------------------
  // Profile

  function OwnedBy(user: UserId): Booking -> bool
  {
    (b: Booking) => b.user == user
  }

  function OnOrAfter(today: Date): Booking -> bool
  {
    (b: Booking) => b.date >= today
  }

  function Before(today: Date): Booking -> bool
  {
    (b: Booking) => b.date < today
  }

  /** By date, then by start time, both ascending. */
  function UpcomingOrder(): (Booking, Booking) -> bool
  {
    (a: Booking, b: Booking) => a.date < b.date || (a.date == b.date && a.start <= b.start)
  }

  /** By date, latest first. */
  function PastOrder(): (Booking, Booking) -> bool
  {
    (a: Booking, b: Booking) => a.date >= b.date
  }

  lemma ProfileOrdersTotal()
    ensures TotalPreorder(UpcomingOrder()) && TotalPreorder(PastOrder())
  {
  }

  /** The user's bookings dated today or later, soonest first. */
  function UpcomingBookings(bookings: seq<Booking>, user: UserId, today: Date): (r: seq<Booking>)
    ensures forall k :: 0 <= k < |r| ==> r[k].user == user && r[k].date >= today
    ensures multiset(r) <= multiset(bookings)
    ensures forall b :: b in bookings && b.user == user && b.date >= today ==> b in r
    ensures SortedBy(r, UpcomingOrder())
  {
    ProfileOrdersTotal();
    var mine := Filter(bookings, OwnedBy(user));
    var own := Filter(mine, OnOrAfter(today));
    var r := SortBy(own, UpcomingOrder());
    SortByMembers(own, UpcomingOrder());
    forall k | 0 <= k < |r| ensures r[k].user == user && r[k].date >= today {
      assert r[k] in own;
      assert r[k] in mine;
    }
    r
  }

  /** The user's bookings dated before today, latest first. */
  function PastBookings(bookings: seq<Booking>, user: UserId, today: Date): (r: seq<Booking>)
    ensures forall k :: 0 <= k < |r| ==> r[k].user == user && r[k].date < today
    ensures multiset(r) <= multiset(bookings)
    ensures forall b :: b in bookings && b.user == user && b.date < today ==> b in r
    ensures SortedBy(r, PastOrder())
  {
    ProfileOrdersTotal();
    var mine := Filter(bookings, OwnedBy(user));
    var own := Filter(mine, Before(today));
    var r := SortBy(own, PastOrder());
    SortByMembers(own, PastOrder());
    forall k | 0 <= k < |r| ensures r[k].user == user && r[k].date < today {
      assert r[k] in own;
      assert r[k] in mine;
    }
    r
  }

  /** Upcoming and past together are the user's bookings, each exactly as
      often as it is stored. */
  lemma ProfilePartition(bookings: seq<Booking>, user: UserId, today: Date)
    ensures multiset(UpcomingBookings(bookings, user, today)) + multiset(PastBookings(bookings, user, today))
            == multiset(Filter(bookings, OwnedBy(user)))
  {
    ProfileOrdersTotal();
    FilterPartition(Filter(bookings, OwnedBy(user)), OnOrAfter(today), Before(today));
  }

  // ---------------------------------------------------------------------
  // Stored state and the actions that change it

  /** The venue with this slug, if any. */
  function FindBySlug(venues: seq<VenueRow>, slug: string): (r: Option<VenueRow>)
    ensures r.Some? ==> r.value in venues && r.value.slug == slug
    ensures r.None? ==> forall i :: 0 <= i < |venues| ==> venues[i].slug != slug
  {
    if venues == [] then None
    else if venues[0].slug == slug then Some(venues[0])
    else
      var r := FindBySlug(venues[1..], slug);
      assert forall i :: 1 <= i < |venues| ==> venues[i] == venues[1..][i - 1];
      r
  }

  /** No two venues share a slug (the slug column is unique). */
  ghost predicate SlugsUnique(venues: seq<VenueRow>)
  {
    forall i, j :: 0 <= i < |venues| && 0 <= j < |venues| && venues[i].slug == venues[j].slug ==> i == j
  }

  /** The stored slugs, keyed by row position, as `Venue.save` looks them up. */
  function SlugTable(venues: seq<VenueRow>): (t: map<nat, string>)
    ensures forall i :: 0 <= i < |venues| ==> i in t && t[i] == venues[i].slug
    ensures forall i :: i in t ==> i < |venues|
  {
    map i: nat | i < |venues| :: venues[i].slug
  }

  /** Storing a new venue whose slug `Venue.save` chose among the stored
      ones keeps the slugs unique. */
  lemma SavedVenueKeepsSlugsUnique(venues: seq<VenueRow>, v: VenueRow)
    requires SlugsUnique(venues)
    requires v.slug !in OtherSlugs(SlugTable(venues), None)
    ensures SlugsUnique(venues + [v])
  {
    var all := venues + [v];
    forall i | 0 <= i < |venues| ensures all[i].slug != v.slug {
      assert SlugTable(venues)[i] in OtherSlugs(SlugTable(venues), None);
    }
  }

  /** Two bookings hold overlapping parts of one venue's day. */
  predicate Clash(a: Booking, b: Booking)
  {
    && a.venue == b.venue && a.date == b.date
    && HoldsSlot(a.status) && HoldsSlot(b.status)
    && a.start < b.end && b.start < a.end
  }

  /** No two distinct stored bookings clash. */
  ghost predicate NoClashes(bookings: seq<Booking>)
  {
    forall i, j :: 0 <= i < |bookings| && 0 <= j < |bookings| && i != j ==> !Clash(bookings[i], bookings[j])
  }

  /** Adding a live booking that no stored booking blocks keeps the bookings
      clash-free. */
  lemma AppendUnblockedKeepsNoClashes(bookings: seq<Booking>, nb: Booking)
    requires NoClashes(bookings)
    requires HoldsSlot(nb.status)
    requires !(exists i :: 0 <= i < |bookings| && Blocks(bookings[i], nb.venue, nb.date, nb.start, nb.end))
    ensures NoClashes(bookings + [nb])
  {
    var all := bookings + [nb];
    forall i, j | 0 <= i < |all| && 0 <= j < |all| && i != j ensures !Clash(all[i], all[j]) {
      if i == |bookings| {
        assert !Blocks(bookings[j], nb.venue, nb.date, nb.start, nb.end);
      } else if j == |bookings| {
        assert !Blocks(bookings[i], nb.venue, nb.date, nb.start, nb.end);
      }
    }
  }

  /** Storing the booking the form accepted keeps the bookings clash-free. */
  lemma AcceptedKeepsNoClashes(bookings: seq<Booking>, user: UserId, v: VenueRow, req: BookingRequest, today: Date)
    requires NoClashes(bookings)
    requires ValidateBooking(req, v.id, v.addOns, bookings, today).Ok?
    ensures var c := ValidateBooking(req, v.id, v.addOns, bookings, today).value;
            NoClashes(bookings + [NewBooking(user, v.id, c.date, c.start, c.end, c.notes, c.addOns)])
  {
    var c := ValidateBooking(req, v.id, v.addOns, bookings, today).value;
    var booking := NewBooking(user, v.id, c.date, c.start, c.end, c.notes, c.addOns);
    assert c.date == req.date.value && c.start == req.start.value && c.end == req.end.value;
    AppendUnblockedKeepsNoClashes(bookings, booking);
  }

  /** Adding `p` to a set that lacks it, removing it from one that has it. */
  function Toggled<T(!new)>(s: set<T>, p: T): (r: set<T>)
    ensures p in r <==> p !in s
    ensures forall q :: q != p ==> (q in r <==> q in s)
  {
    if p in s then s - {p} else s + {p}
  }

  /** Toggling twice restores the set. */
  lemma ToggleTwice<T(!new)>(s: set<T>, p: T)
    ensures Toggled(Toggled(s, p), p) == s
  {
  }

  datatype WishlistOutcome = WishlistVenueNotFound | Saved | Removed

  datatype ActionError<E> = VenueNotFound | FormInvalid(errors: seq<E>)

  /** The site's tables. */
  class Site {
    var venues: seq<VenueRow>
    var bookings: seq<Booking>
    var wishlist: set<(UserId, VenueId)>
    var reviews: map<(UserId, VenueId), Review>

    /** Slugs identify venues, and no two stored bookings clash. */
    ghost predicate Valid()
      reads this
    {
      SlugsUnique(venues) && NoClashes(bookings)
    }

    constructor (venues: seq<VenueRow>)
      requires SlugsUnique(venues)
      ensures Valid()
      ensures this.venues == venues && bookings == [] && wishlist == {} && reviews == map[]
    {
      this.venues := venues;
      bookings := [];
      wishlist := {};
      reviews := map[];
    }

    /** The wishlist toggle: the (user, venue) entry is created when absent
        and deleted when present; nothing else changes. */
    method ToggleWishlist(user: UserId, slug: string) returns (outcome: WishlistOutcome)
      requires Valid()
      modifies this`wishlist
      ensures Valid()
      ensures FindBySlug(venues, slug).None? ==> outcome == WishlistVenueNotFound && wishlist == old(wishlist)
      ensures FindBySlug(venues, slug).Some? ==>
        var key := (user, FindBySlug(venues, slug).value.id);
        && wishlist == Toggled(old(wishlist), key)
        && outcome == (if key in old(wishlist) then Removed else Saved)
    {
      var venue := FindBySlug(venues, slug);
      if venue.None? {
        return WishlistVenueNotFound;
      }
      var key := (user, venue.value.id);
      if key in wishlist {
        wishlist := wishlist - {key};
        outcome := Removed;
      } else {
        wishlist := wishlist + {key};
        outcome := Saved;
      }
    }

    /** The booking action: a request the form accepts is stored as one new
        pending booking of the user at the page's venue with the selected
        add-ons; a rejected request stores nothing. Stored bookings stay
        clash-free. */
    method CreateBooking(user: UserId, slug: string, req: BookingRequest, today: Date)
      returns (outcome: Result<Booking, ActionError<BookingError>>)
      requires Valid()
      modifies this`bookings
      ensures Valid()
      ensures FindBySlug(venues, slug).None? ==> outcome == Err(VenueNotFound) && bookings == old(bookings)
      ensures FindBySlug(venues, slug).Some? ==>
        var v := FindBySlug(venues, slug).value;
        match ValidateBooking(req, v.id, v.addOns, old(bookings), today)
        case Err(errors) => outcome == Err(FormInvalid(errors)) && bookings == old(bookings)
        case Ok(c) =>
          && outcome == Ok(NewBooking(user, v.id, c.date, c.start, c.end, c.notes, c.addOns))
          && bookings == old(bookings) + [outcome.value]
    {
      var venue := FindBySlug(venues, slug);
      if venue.None? {
        return Err(VenueNotFound);
      }
      var v := venue.value;
      var form := ValidateBooking(req, v.id, v.addOns, bookings, today);
      match form
      case Err(errors) =>
        outcome := Err(FormInvalid(errors));
      case Ok(c) =>
        var booking := NewBooking(user, v.id, c.date, c.start, c.end, c.notes, c.addOns);
        AcceptedKeepsNoClashes(bookings, user, v, req, today);
        bookings := bookings + [booking];
        outcome := Ok(booking);
    }

    /** The review action: an accepted form creates or replaces the one
        review of (user, venue) with the submitted rating and stripped
        comment; other reviews stay as they are, and a rejected form changes
        nothing. */
    method SubmitReview(user: UserId, slug: string, rating: Option<int>, comment: string)
      returns (outcome: Result<Review, ActionError<ReviewError>>)
      requires Valid()
      modifies this`reviews
      ensures Valid()
      ensures FindBySlug(venues, slug).None? ==> outcome == Err(VenueNotFound) && reviews == old(reviews)
      ensures FindBySlug(venues, slug).Some? ==>
        var key := (user, FindBySlug(venues, slug).value.id);
        match ValidateReview(rating, comment)
        case Err(errors) => outcome == Err(FormInvalid(errors)) && reviews == old(reviews)
        case Ok(fields) =>
          && outcome == Ok(Review(fields.0, fields.1))
          && reviews == old(reviews)[key := Review(fields.0, fields.1)]
    {
      var venue := FindBySlug(venues, slug);
      if venue.None? {
        return Err(VenueNotFound);
      }
      var key := (user, venue.value.id);
      match ValidateReview(rating, comment)
      case Err(errors) =>
        outcome := Err(FormInvalid(errors));
      case Ok(fields) =>
        var review := Review(fields.0, fields.1);
        reviews := reviews[key := review];
        outcome := Ok(review);
    }
  }

  /** After an upsert the pair has exactly the submitted review and every
      other pair keeps its own. */
  lemma UpsertTouchesOnePair(reviews: map<(UserId, VenueId), Review>, key: (UserId, VenueId), r: Review)
    ensures var after := reviews[key := r];
            && key in after && after[key] == r
            && after.Keys == reviews.Keys + {key}
            && forall k :: k in reviews && k != key ==> after[k] == reviews[k]
  {
  }
}
