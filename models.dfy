/** The entities of the booking site and the logic that lives on them:
    slug assignment on save, the highlight list, the mean rating, the price of
    a booking, whether it is still to come, and the star row of a review. */
module Models {
  import opened Wrappers
  import opened Text
  import opened Money
  import opened Seqs

  /** A calendar date as a day number; consecutive days differ by one. */
  type Date = int

  const SecondsPerDay: int := 86400

  /** A time of day in whole seconds after midnight. */
  type TimeOfDay = t: int | 0 <= t < SecondsPerDay

  type UserId = nat
  type VenueId = nat
  type AddOnId = nat

  /** The five booking states; a booking starts as Pending. */
  datatype Status = Pending | Confirmed | Completed | Rejected | Cancelled

  /** A booking still holds its slot unless it was cancelled or rejected. */
  predicate HoldsSlot(s: Status)
  {
    s != Cancelled && s != Rejected
  }

  /** An optional extra a venue offers, priced in cents. */
  datatype AddOn = AddOn(id: AddOnId, venue: VenueId, name: string, price: int)

  /** A stored booking: times are seconds after midnight, add-ons the ones
      picked for it. */
  datatype Booking = Booking(
    user: UserId,
    venue: VenueId,
    date: Date,
    start: TimeOfDay,
    end: TimeOfDay,
    notes: string,
    status: Status,
    addOns: seq<AddOn>)

  /** A booking as one is first made: the status takes its default. */
  function NewBooking(user: UserId, venue: VenueId, date: Date, start: TimeOfDay, end: TimeOfDay,
                      notes: string, addOns: seq<AddOn>): (b: Booking)
    ensures b.status == Pending && HoldsSlot(b.status)
    ensures b.user == user && b.venue == venue && b.date == date
    ensures b.start == start && b.end == end && b.notes == notes && b.addOns == addOns
  {
    Booking(user, venue, date, start, end, notes, Pending, addOns)
  }

  // ---------------------------------------------------------------------
  // Slugs

  /** A venue category; saving fills a blank slug from the name. */
  class VenueCategory {
    var name: string
    var slug: string

    constructor (name: string, slug: string)
      ensures this.name == name && this.slug == slug
    {
      this.name := name;
      this.slug := slug;
    }

    /** A blank slug becomes `slugify(name)`, with no check for collisions;
        a slug already set is kept. */
    method Save(slugify: string -> string)
      modifies this`slug
      ensures old(slug) != "" ==> slug == old(slug)
      ensures old(slug) == "" ==> slug == slugify(name)
    {
      if slug == "" {
        slug := slugify(name);
      }
    }
  }

  /** The `counter`-th slug tried for `base`: `base` itself first, then
      `base-2`, `base-3`, ... */
  function SlugCandidate(base: string, counter: nat): string
  {
    if counter <= 1 then base else base + "-" + NatToString(counter)
  }

  /** Different counters give different slugs, so the search never retries
      one. */
  lemma SlugCandidateInjective(base: string, j: nat, k: nat)
    requires 1 <= j && 1 <= k
    requires SlugCandidate(base, j) == SlugCandidate(base, k)
    ensures j == k
  {
    if j >= 2 && k >= 2 {
      var sj, sk := NatToString(j), NatToString(k);
      assert (base + "-" + sj)[|base| + 1..] == sj;
      assert (base + "-" + sk)[|base| + 1..] == sk;
      NatToStringInjective(j, k);
    }
  }

  /** `counter` is the first index whose candidate is not taken. */
  ghost predicate FirstFreeIndex(base: string, taken: set<string>, counter: nat)
  {
    && counter >= 1
    && SlugCandidate(base, counter) !in taken
    && forall j :: 1 <= j < counter ==> SlugCandidate(base, j) in taken
  }

  /** There is only one first free index. */
  lemma FirstFreeIndexUnique(base: string, taken: set<string>, j: nat, k: nat)
    requires FirstFreeIndex(base, taken, j) && FirstFreeIndex(base, taken, k)
    ensures j == k
  {
  }

  /** The collision loop of `Venue.save`: try `base`, then `base-2`,
      `base-3`, ... until a slug not in `taken` is found. The result is that
      first free candidate. */
  method FindFreeSlug(base: string, taken: set<string>) returns (slug: string, counter: nat)
    ensures slug == SlugCandidate(base, counter)
    ensures slug !in taken
    ensures FirstFreeIndex(base, taken, counter)
  {
    slug := base;
    counter := 1;
    ghost var tried: set<string> := {};
    while slug in taken
      invariant counter >= 1 && slug == SlugCandidate(base, counter)
      invariant forall j :: 1 <= j < counter ==> SlugCandidate(base, j) in taken
      invariant tried <= taken && |tried| == counter - 1
      invariant forall t :: t in tried ==> exists j :: 1 <= j < counter && t == SlugCandidate(base, j)
      decreases |taken| - |tried|
    {
      forall t | t in tried ensures t != slug {
        var j :| 1 <= j < counter && t == SlugCandidate(base, j);
        if t == slug { SlugCandidateInjective(base, j, counter); }
      }
      tried := tried + {slug};
      assert |tried| <= |taken| by { SubsetCard(tried, taken); }
      counter := counter + 1;
      slug := base + "-" + NatToString(counter);
    }
  }

  lemma SubsetCard<T>(a: set<T>, b: set<T>)
    requires a <= b
    ensures |a| <= |b|
  {
    assert b == a + (b - a);
  }

  /** The slugs held by stored venues other than the one with key `pk`; a
      venue not yet stored (`pk == None`) excludes nothing. */
  function OtherSlugs(stored: map<nat, string>, pk: Option<nat>): (r: set<string>)
    ensures forall id :: id in stored && Some(id) != pk ==> stored[id] in r
    ensures forall s :: s in r ==> exists id :: id in stored && Some(id) != pk && stored[id] == s
  {
    set id | id in stored && Some(id) != pk :: stored[id]
  }

  /** The slug-bearing part of a venue: its key (absent before the first
      save), its name and its slug. */
  class Venue {
    var pk: Option<nat>
    var name: string
    var slug: string

    constructor (pk: Option<nat>, name: string, slug: string)
      ensures this.pk == pk && this.name == name && this.slug == slug
    {
      this.pk := pk;
      this.name := name;
      this.slug := slug;
    }

    /** A blank slug is replaced by the first candidate from
        `slugify(name)` that no other stored venue holds; a slug already set is
        kept. `stored` maps the keys of the stored venues to their slugs. */
    method Save(slugify: string -> string, stored: map<nat, string>)
      modifies this`slug
      ensures old(slug) != "" ==> slug == old(slug)
      ensures old(slug) == "" ==> slug !in OtherSlugs(stored, pk)
      ensures old(slug) == "" ==>
        exists k :: FirstFreeIndex(slugify(name), OtherSlugs(stored, pk), k)
                 && slug == SlugCandidate(slugify(name), k)
    {
      if slug == "" {
        var base, taken := slugify(name), OtherSlugs(stored, pk);
        var chosen, counter := FindFreeSlug(base, taken);
        slug := chosen;
        assert base == slugify(name) && taken == OtherSlugs(stored, pk);
        assert FirstFreeIndex(base, taken, counter) && slug == SlugCandidate(base, counter);
      }
    }
  }

  /** With no collision the slug is the base; when only the base is taken it
      is `base-2`. */
  lemma SlugSecondVenue(base: string, k: nat)
    ensures FirstFreeIndex(base, {}, k) <==> k == 1
    ensures FirstFreeIndex(base, {base}, k) <==> k == 2
    ensures SlugCandidate(base, 2) == base + "-2"
  {
    assert NatToString(2) == "2";
    assert |SlugCandidate(base, 2)| > |base|;
    assert SlugCandidate(base, 1) == base;
    assert FirstFreeIndex(base, {}, 1);
    assert FirstFreeIndex(base, {base}, 2);
  }

  // ---------------------------------------------------------------------
  // Highlights

  /** Strips every piece and keeps the non-blank ones, in order. */
  function StrippedNonBlank(pieces: seq<string>): seq<string>
  {
    if pieces == [] then []
    else
      var item := Strip(pieces[0]);
      (if item == "" then [] else [item]) + StrippedNonBlank(pieces[1..])
  }

  /** Every item is non-blank and stripped. */
  predicate CleanItems(items: seq<string>)
  {
    forall k :: 0 <= k < |items| ==> items[k] != "" && IsStripped(items[k])
  }

  /** Every string of the list is comma-free. */
  predicate CommaFree(items: seq<string>)
  {
    forall k :: 0 <= k < |items| ==> NoComma(items[k])
  }

  /** Every kept item is non-blank and stripped, and comma-free when the
      pieces are. */
  lemma {:induction false} StrippedNonBlankItems(pieces: seq<string>)
    ensures CleanItems(StrippedNonBlank(pieces))
    ensures CommaFree(pieces) ==> CommaFree(StrippedNonBlank(pieces))
  {
    if pieces != [] {
      var tail := pieces[1..];
      StrippedNonBlankItems(tail);
      var rest := StrippedNonBlank(tail);
      var item := Strip(pieces[0]);
      if CommaFree(pieces) {
        assert forall k :: 0 <= k < |tail| ==> tail[k] == pieces[k + 1];
        assert CommaFree(tail);
        assert NoComma(pieces[0]);
        StripKeepsNoComma(pieces[0]);
      }
      if item != "" {
        ConsItems(item, rest);
      }
    }
  }

  /** Putting a clean, comma-free item in front keeps the list so. */
  lemma ConsItems(item: string, rest: seq<string>)
    requires item != ""
    ensures IsStripped(item) && CleanItems(rest) ==> CleanItems([item] + rest)
    ensures NoComma(item) && CommaFree(rest) ==> CommaFree([item] + rest)
  {
    var r := [item] + rest;
    assert forall k :: 1 <= k < |r| ==> r[k] == rest[k - 1];
  }

  lemma {:induction false} StrippedNonBlankAppend(a: seq<string>, b: seq<string>)
    ensures StrippedNonBlank(a + b) == StrippedNonBlank(a) + StrippedNonBlank(b)
  {
    if a == [] {
      assert a + b == b;
    } else {
      var item := Strip(a[0]);
      var head := if item == "" then [] else [item];
      assert (a + b)[0] == a[0] && (a + b)[1..] == a[1..] + b;
      assert StrippedNonBlank(a + b) == head + StrippedNonBlank(a[1..] + b);
      StrippedNonBlankAppend(a[1..], b);
      assert StrippedNonBlank(a) == head + StrippedNonBlank(a[1..]);
      AppendAssoc(head, StrippedNonBlank(a[1..]), StrippedNonBlank(b));
    }
  }

  /** The venue's comma-separated highlights as a list of items. */
  function HighlightItems(highlights: string): (r: seq<string>)
    ensures highlights == "" ==> r == []
    ensures forall k :: 0 <= k < |r| ==> r[k] != "" && IsStripped(r[k]) && NoComma(r[k])
  {
    if highlights == "" then []
    else
      SplitNoComma(highlights);
      StrippedNonBlankItems(Split(highlights));
      StrippedNonBlank(Split(highlights))
  }

  /** A single comma-free entry gives itself stripped, or nothing if blank. */
  lemma HighlightItemsSingle(s: string)
    requires NoComma(s)
    ensures HighlightItems(s) == if Strip(s) == "" then [] else [Strip(s)]
  {
    if s != "" {
      SplitNone(s);
      assert [s][1..] == [];
      assert StrippedNonBlank([s]) == (if Strip(s) == "" then [] else [Strip(s)]) + StrippedNonBlank([]);
    }
  }

  /** The empty text splits into one blank piece, which the comprehension
      drops: the early return for empty highlights changes nothing. */
  lemma HighlightItemsOfPieces(s: string)
    ensures HighlightItems(s) == StrippedNonBlank(Split(s))
  {
    if s == "" {
      SplitNone(s);
      assert [s][1..] == [];
      assert StrippedNonBlank([s]) == (if Strip(s) == "" then [] else [Strip(s)]) + StrippedNonBlank([]);
    }
  }

  /** The items of `a,b` are the items of `a` followed by those of `b`:
      items keep the order of the text. */
  lemma HighlightItemsAppend(a: string, b: string)
    ensures HighlightItems(a + "," + b) == HighlightItems(a) + HighlightItems(b)
  {
    HighlightItemsOfPieces(a);
    HighlightItemsOfPieces(b);
    HighlightItemsOfPieces(a + "," + b);
    SplitAppend(a, b);
    StrippedNonBlankAppend(Split(a), Split(b));
  }

  // ---------------------------------------------------------------------
  // Ratings

  /** The mean of the ratings, or None when there are none. */
  function AverageRating(ratings: seq<int>): (r: Option<real>)
    ensures r.None? <==> ratings == []
    ensures r.Some? ==> r.value * (|ratings| as real) == Sum(ratings) as real
  {
    if ratings == [] then None else Some((Sum(ratings) as real) / (|ratings| as real))
  }

  function Min(s: seq<int>): (m: int)
    requires s != []
    ensures m in s && forall k :: 0 <= k < |s| ==> m <= s[k]
  {
    if |s| == 1 then s[0]
    else
      var t := Min(s[1..]);
      assert t in s;
      if s[0] <= t then s[0] else t
  }

  function Max(s: seq<int>): (m: int)
    requires s != []
    ensures m in s && forall k :: 0 <= k < |s| ==> s[k] <= m
  {
    if |s| == 1 then s[0]
    else
      var t := Max(s[1..]);
      assert t in s;
      if s[0] >= t then s[0] else t
  }

  lemma {:induction false} SumBounds(s: seq<int>, lo: int, hi: int)
    requires forall k :: 0 <= k < |s| ==> lo <= s[k] <= hi
    ensures lo * |s| <= Sum(s) <= hi * |s|
  {
    if s != [] {
      SumBounds(s[1..], lo, hi);
    }
  }

  /** The mean lies between the lowest and the highest rating. */
  lemma AverageRatingBounds(ratings: seq<int>)
    requires ratings != []
    ensures Min(ratings) as real <= AverageRating(ratings).value <= Max(ratings) as real
  {
    SumBounds(ratings, Min(ratings), Max(ratings));
    MeanOfBounds(Min(ratings), Max(ratings), |ratings|, Sum(ratings));
  }

  lemma MeanOfBounds(lo: int, hi: int, n: int, total: int)
    requires n > 0 && lo * n <= total <= hi * n
    ensures lo as real <= (total as real) / (n as real) <= hi as real
  {
    MulToReal(lo, n);
    MulToReal(hi, n);
    MeanBetween(lo as real, hi as real, total as real, n as real);
  }

  lemma MulToReal(a: int, b: int)
    ensures (a * b) as real == (a as real) * (b as real)
  {
  }

  lemma MeanBetween(lo: real, hi: real, total: real, n: real)
    requires n > 0.0 && lo * n <= total <= hi * n
    ensures lo <= total / n <= hi
  {
    var m := total / n;
    assert m * n == total;
  }

  /** `range(rating)`: one star per rating point. */
  function RatingStars(rating: nat): (r: seq<nat>)
    ensures |r| == rating
    ensures forall k :: 0 <= k < |r| ==> r[k] == k
  {
    seq(rating, k => k)
  }

  // ---------------------------------------------------------------------
  // Time and price

  /** The booking's start as a point in time, in seconds. */
  function StartInstant(b: Booking): int
  {
    b.date * SecondsPerDay + b.start
  }

  /** The booking starts now or later; `now` is in seconds, on the same
      count as `StartInstant`. Equivalently, its (date, time of day) is at or
      after that of `now`, compared date first. */
  function IsUpcoming(b: Booking, now: int): (r: bool)
    ensures r <==>
      (b.date > now / SecondsPerDay || (b.date == now / SecondsPerDay && b.start >= now % SecondsPerDay))
  {
    InstantAtOrAfter(b.date, b.start, now);
    StartInstant(b) >= now
  }

  /** `timezone.now()` carries microseconds. Comparing a whole-second start
      with the current instant in microseconds is the same as comparing it
      with that instant rounded up to the next whole second, which is the
      `now` `IsUpcoming` takes. */
  lemma IsUpcomingAtMicroseconds(b: Booking, nowMicros: int)
    ensures StartInstant(b) * 1000000 >= nowMicros <==> IsUpcoming(b, -((-nowMicros) / 1000000))
  {
    var q := (-nowMicros) / 1000000;
    var c := -q;
    assert -nowMicros == q * 1000000 + (-nowMicros) % 1000000;
    CeilingBounds(StartInstant(b), c, nowMicros, 1000000);
  }

  /** `c` is the least integer with `c * d >= n`, so an integer `s` has
      `s * d >= n` exactly when `s >= c`. */
  lemma CeilingBounds(s: int, c: int, n: int, d: int)
    requires d > 0 && c * d >= n > (c - 1) * d
    ensures s * d >= n <==> s >= c
  {
    if s >= c {
      assert s * d >= c * d by { MulMono(c, s, d); }
    } else {
      assert s * d <= (c - 1) * d by { MulMono(s, c - 1, d); }
    }
  }

  lemma MulMono(a: int, b: int, d: int)
    requires a <= b && d > 0
    ensures a * d <= b * d
  {
    assert b * d - a * d == (b - a) * d;
  }

  /** A (day, second) pair is at or after the instant `now` exactly when it is
      lexicographically at or after `now`'s own day and second. */
  lemma InstantAtOrAfter(date: Date, start: TimeOfDay, now: int)
    ensures date * SecondsPerDay + start >= now <==>
      (date > now / SecondsPerDay || (date == now / SecondsPerDay && start >= now % SecondsPerDay))
  {
    var d, t := now / SecondsPerDay, now % SecondsPerDay;
    assert now == d * SecondsPerDay + t;
    if date > d {
      assert date * SecondsPerDay >= (d + 1) * SecondsPerDay;
    } else if date < d {
      assert date * SecondsPerDay <= (d - 1) * SecondsPerDay;
    }
  }

  /** Length of the booking in hundredths of an hour, rounded half-even. */
  function DurationHundredths(start: TimeOfDay, end: TimeOfDay): (h: int)
    ensures 2 * ((end - start) * 100 - h * 3600) <= 3600
    ensures 2 * (h * 3600 - (end - start) * 100) <= 3600
    ensures (2 * ((end - start) * 100 - h * 3600) == 3600 || 2 * (h * 3600 - (end - start) * 100) == 3600)
            ==> h % 2 == 0
  {
    RoundHalfEven((end - start) * 100, 3600)
  }

  /** Hourly price times rounded duration, rounded half-even to the cent. */
  function BasePrice(pricePerHour: int, hundredths: int): (p: int)
    ensures 2 * (pricePerHour * hundredths - p * 100) <= 100
    ensures 2 * (p * 100 - pricePerHour * hundredths) <= 100
    ensures (2 * (pricePerHour * hundredths - p * 100) == 100 || 2 * (p * 100 - pricePerHour * hundredths) == 100)
            ==> p % 2 == 0
  {
    RoundHalfEven(pricePerHour * hundredths, 100)
  }

  function PriceOf(a: AddOn): int
  {
    a.price
  }

  /** Prices of a list of add-ons, in order. */
  function Prices(addOns: seq<AddOn>): (r: seq<int>)
    ensures |r| == |addOns|
    ensures forall k :: 0 <= k < |r| ==> r[k] == addOns[k].price
  {
    Map(addOns, PriceOf)
  }

  /** Price of the booking in cents at the venue's hourly price (in cents):
      the rounded base price plus the price of every chosen add-on. */
  function TotalPrice(b: Booking, pricePerHour: int): (p: int)
    ensures var addOns, h := Sum(Prices(b.addOns)), DurationHundredths(b.start, b.end);
            && 2 * (pricePerHour * h - (p - addOns) * 100) <= 100
            && 2 * ((p - addOns) * 100 - pricePerHour * h) <= 100
            && ((2 * (pricePerHour * h - (p - addOns) * 100) == 100 || 2 * ((p - addOns) * 100 - pricePerHour * h) == 100)
                ==> (p - addOns) % 2 == 0)
  {
    BasePrice(pricePerHour, DurationHundredths(b.start, b.end)) + Sum(Prices(b.addOns))
  }

  /** A whole number of hours is charged exactly: hourly price times hours
      plus the add-ons. */
  lemma TotalPriceWholeHours(b: Booking, pricePerHour: int, hours: int)
    requires b.end - b.start == 3600 * hours
    ensures TotalPrice(b, pricePerHour) == pricePerHour * hours + Sum(Prices(b.addOns))
  {
    assert (b.end - b.start) * 100 == (100 * hours) * 3600;
    RoundExact(100 * hours, 3600);
    assert pricePerHour * (100 * hours) == (pricePerHour * hours) * 100;
    RoundExact(pricePerHour * hours, 100);
  }

  /** Without add-ons the total is the base price. */
  lemma TotalPriceNoAddOns(b: Booking, pricePerHour: int)
    requires b.addOns == []
    ensures TotalPrice(b, pricePerHour) == BasePrice(pricePerHour, DurationHundredths(b.start, b.end))
  {
    assert Prices(b.addOns) == [];
  }

  /** The order in which the add-ons are listed does not change the total. */
  lemma TotalPriceAddOnOrder(b: Booking, c: Booking, pricePerHour: int)
    requires b.start == c.start && b.end == c.end
    requires multiset(b.addOns) == multiset(c.addOns)
    ensures TotalPrice(b, pricePerHour) == TotalPrice(c, pricePerHour)
  {
    MapPermutation(b.addOns, c.addOns, PriceOf);
    SumPermutation(Prices(b.addOns), Prices(c.addOns));
  }

  /** 450000.00 an hour for two hours with one 150000.00 add-on costs
      exactly 1050000.00. */
  lemma TotalPriceExample(v: VenueId, a: AddOnId, day: Date)
    ensures TotalPrice(Booking(1, v, day, 36000, 43200, "", Pending, [AddOn(a, v, "Match Official", 15000000)]), 45000000)
            == 105000000
  {
    var b := Booking(1, v, day, 36000, 43200, "", Pending, [AddOn(a, v, "Match Official", 15000000)]);
    TotalPriceWholeHours(b, 45000000, 2);
    assert Prices(b.addOns) == [15000000];
  }

  /** A base price that falls exactly between two cents rounds to the even
      one: 1.50 an hour for 0.33 h is 49.5 cents and costs 0.50; 1.50 an hour
      for 0.31 h is 46.5 cents and costs 0.46. */
  lemma BasePriceTiesToEven()
    ensures BasePrice(150, 33) == 50
    ensures BasePrice(150, 31) == 46
  {
    var p, q := BasePrice(150, 33), BasePrice(150, 31);
    assert p == 49 || p == 50;
    assert q == 46 || q == 47;
  }

  /** Durations that fall exactly between two hundredths round to the even
      one: 1818 s (0.505 h) gives 0.50 h, 1854 s (0.515 h) gives 0.52 h. */
  lemma DurationTiesToEven()
    ensures DurationHundredths(0, 1818) == 50
    ensures DurationHundredths(0, 1854) == 52
  {
  }
}
