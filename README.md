# Venue booking site — a verified model of its core logic

The site lets signed-in users do four things:

- browse and filter a catalogue of sports venues;
- keep a wishlist;
- book a time slot with optional add-ons;
- review a venue.

This project models in Dafny the logic behind those actions. It covers the entities and their save hooks (`main/models.py`), the form validation (`main/forms.py`), and the handlers that select and change stored data (`main/views.py`). Properties of that logic are proved.

## Files

| file | what it holds |
|---|---|
| `wrappers.dfy` | `Option` and `Result`. |
| `seqs.dfy` | Generic facts about sequence concatenation. `Map`, with a proof that mapping a permutation gives a permutation. |
| `text.dfy` | The Python string operations the code relies on.<br>`str.isspace` and `str.strip`, as generic trimming.<br>`str.split(",")` with its join round trip, and how it distributes over `a + "," + b`.<br>ASCII `lower`, and substring search for `icontains`.<br>The code-point order used for `order_by("name")`.<br>The decimal rendering of a counter in an f-string, with its parse round trip. |
| `money.dfy` | `Decimal.quantize(Decimal("0.01"))` under the default context (ROUND_HALF_EVEN) as exact integer rounding, with a proof that the rounded value is unique. Sums, which do not depend on order. |
| `sorting.dfy` | `order_by` as an insertion sort by a total preorder, proved sorted and a permutation. `filter` with its partition lemma. The top-`k` property of a prefix of a sorted sequence. |
| `models.dfy` | Booking statuses and the default status. `VenueCategory.save` and `Venue.save` as classes whose `slug` field changes in place; the collision search is a `while` loop proved to return the first free candidate. `highlight_items`, `average_rating`, `rating_stars`, `is_upcoming` and `total_price`. |
| `forms.dfy` | The booking form: required fields, add-on choices limited to the venue's own add-ons, time order, past dates, and the clash test against live bookings. The review form's rating and comment. The registration form's `clean_email` and `save`. |
| `views.dfy` | The catalogue filter, the featured list and the profile listings as functions. A `Site` class holding the venue rows, the booking list, the wishlist set and the review map. Its methods model the wishlist toggle, booking creation and the review upsert, and keep the invariant that stored bookings never clash. |

## Units and conventions

- Money is in integer cents. Durations are in integer hundredths of an hour.
- A date is a day number. A time of day is whole seconds after midnight, in `0..86399`.
- `slugify`, "today" and "now" are parameters. "Now" is the current instant rounded up to a whole second (see `Models.IsUpcomingAtMicroseconds`).
- Every `CharField`, and so every text field of a model form, refuses U+0000 (Django's `ProhibitNullCharactersValidator`). The model applies this to the notes, the review comment and the search text (`Text.NoNull`).
- `quantize` under Python's default decimal context rounds half-even, and so does the model: `Models.DurationTiesToEven` shows 1818 s becoming 0.50 h and 1854 s becoming 0.52 h.

## Model

| member | source | states |
|---|---|---|
| Models.NewBooking | main/models.py:146 | A new booking takes the submitted user, venue, date, times, notes and add-ons. Its status is the default, pending, which holds the slot. |
| Models.VenueCategory.Save | main/models.py:31-34 | A blank slug becomes `slugify(name)`, with no collision check. A slug already set is kept. |
| Models.SlugCandidateInjective | main/models.py:70-74 | `base`, `base-2`, `base-3`, ... are pairwise distinct, so the search never retries a slug. |
| Models.FindFreeSlug | main/models.py:69-75 | The loop ends with a slug that is not taken. That slug is the first free candidate: every earlier one is taken. The loop terminates because the taken set is finite. |
| Models.FirstFreeIndexUnique | main/models.py:71-74 | The first free counter is unique, so the chosen slug is determined by the base and the taken set. |
| Models.OtherSlugs | main/models.py:72 | The slugs checked are exactly those of the stored venues other than this one. A venue without a key excludes nothing. |
| Models.Venue.Save | main/models.py:67-76 | A blank slug is replaced by the first candidate from `slugify(name)` that no other stored venue holds. A slug already set is kept. |
| Models.SlugSecondVenue | main/models.py:69-75 | With no collision the slug is the base. When only the base is taken, it is `base-2`. |
| Models.HighlightItems | main/models.py:81-84 | Empty highlights give no items. Every item is non-empty, has no surrounding whitespace and holds no comma. |
| Models.StrippedNonBlankItems | main/models.py:84 | The list comprehension keeps only non-blank, stripped items, and comma-free pieces stay comma-free. |
| Models.StrippedNonBlankAppend | main/models.py:84 | The comprehension distributes over concatenation, so it keeps the order of the pieces. |
| Models.HighlightItemsSingle | main/models.py:81-84 | One comma-free entry gives itself stripped, or nothing when it is blank. |
| Models.HighlightItemsOfPieces | main/models.py:81-84 | The early return for empty highlights agrees with the comprehension: every text's items are its stripped, non-blank pieces. |
| Models.HighlightItemsAppend | main/models.py:81-84 | For every `a` and `b`, empty ones included, the items of `a,b` are the items of `a` followed by those of `b`: items keep the order of the text. |
| Models.AverageRating | main/models.py:86-90 | None exactly when there are no ratings. Otherwise the mean times the count is the sum. |
| Models.AverageRatingBounds | main/models.py:86-90 | The mean lies between the lowest and the highest rating. |
| Models.RatingStars | main/models.py:187-188 | `range(rating)`: as many stars as rating points, numbered from 0. |
| Models.IsUpcoming | main/models.py:155-160 | A booking is upcoming exactly when its (date, start time) is at or after `now`, compared date first and then time of day. |
| Models.DurationHundredths | main/models.py:163-166 | The duration in hundredths of an hour is within half a hundredth of the exact duration, and on a tie it is the even one. With `Money.RoundHalfEvenUnique` this fixes the value: it is `quantize(Decimal("0.01"))` of the hours. |
| Models.BasePrice | main/models.py:167 | The base price is within half a cent of the hourly price times the rounded duration, and on a tie it is the even cent. With `Money.RoundHalfEvenUnique` this fixes the value. |
| Models.TotalPrice | main/models.py:162-169 | The total minus the add-on sum is within half a cent of the hourly price times the rounded duration, and on a tie it is the even cent. |
| Models.IsUpcomingAtMicroseconds | main/models.py:155-160 | Comparing the start, in microseconds, with an instant in microseconds agrees with `Models.IsUpcoming` against that instant rounded up to the next whole second. So a 10:00:00 start is not upcoming at 10:00:00.3. |
| Models.BasePriceTiesToEven | main/models.py:167 | 1.50 an hour for 0.33 h (49.5 cents) costs 0.50, and for 0.31 h (46.5 cents) costs 0.46. |
| Models.TotalPriceWholeHours | main/models.py:162-169 | A whole number of hours costs exactly the hourly price times the hours, plus the add-ons. |
| Models.TotalPriceNoAddOns | main/models.py:167-169 | Without add-ons the total is the base price. |
| Models.TotalPriceAddOnOrder | main/models.py:168 | Listing the same add-ons in another order gives the same total. |
| Models.TotalPriceExample | main/models.py:162-169 | 450000.00 an hour for 10:00-12:00, with one add-on at 150000.00, costs exactly 1050000.00. |
| Models.DurationTiesToEven | main/models.py:166 | A duration exactly halfway between two hundredths rounds to the even one. |
| Text.Strip | main/models.py:84 | `str.strip()` leaves no whitespace at either end. |
| Text.StripIsSlice | main/models.py:84 | What `strip` keeps is a slice of the input, and everything it removes is whitespace. |
| Text.StripKeepsNoComma | main/models.py:84 | Stripping a comma-free string leaves it comma-free. |
| Text.SplitNoComma | main/models.py:84 | No piece of `split(",")` holds a comma. |
| Text.JoinSplit | main/models.py:84 | Joining the pieces with commas gives back the text, so the split loses nothing. |
| Text.SplitAppend | main/models.py:84 | `split(",")` of `a + "," + b` is the pieces of `a` followed by the pieces of `b`. |
| Text.ParseNatToString | main/models.py:74 | The decimal rendering of the counter parses back to the counter. |
| Text.NatToStringInjective | main/models.py:74 | Different counters render differently. |
| Text.LowerIdempotent | main/forms.py:99 | Lower-casing twice is lower-casing once. |
| Text.Contains | main/views.py:62 | The search finds the text exactly when it occurs at some position. |
| Text.IContains | main/views.py:62 | Case-insensitive containment is containment after lower-casing both sides. |
| Text.StrLeTotal | main/views.py:91 | Any two names are ordered one way or the other. |
| Text.StrLeTransitive | main/views.py:91 | The name order is transitive. |
| Text.StrLeAntisymmetric | main/views.py:91 | Names ordered both ways are equal. |
| Money.RoundHalfEven | main/models.py:166-167 | `quantize` gives a value within half a unit of the exact one, and on a tie the even one. |
| Money.RoundHalfEvenUnique | main/models.py:166-167 | At most one integer meets those two conditions, so the rounding is determined. |
| Money.RoundExact | main/models.py:166-167 | A value already on the grid is left unchanged. |
| Money.SumAppend | main/models.py:168 | The sum of a concatenation is the sum of the parts. |
| Money.SumPermutation | main/models.py:168 | Reordering the terms keeps the sum. |
| Seqs.MapPermutation | main/models.py:168 | The prices of a reordered add-on list are a reordering of the prices. |
| Sorting.SortBy | main/views.py:208 | `order_by` gives a sequence sorted by the key order that is a permutation of its input. |
| Sorting.SortByMembers | main/views.py:208 | Sorting keeps exactly the same members. |
| Sorting.Filter | main/views.py:62-68 | A filter keeps exactly the rows that meet the predicate, each as often as it was stored, and drops the rest. |
| Sorting.FilterPartition | main/views.py:206-211 | Filtering by a predicate and by its negation splits the rows between the two results. |
| Sorting.FilterAgreeing | main/views.py:67 | Filters by predicates that agree everywhere return the same rows. |
| Sorting.SortedPrefixFirst | main/views.py:91 | In a sorted sequence, each of the first `k` elements precedes every element after them. |
| Forms.AnyBlocking | main/forms.py:200-209 | The overlap query finds something exactly when some stored booking blocks the slot. |
| Forms.CleanBooking | main/forms.py:190-213 | End-time error exactly when start and end are present and start ≥ end. Date error exactly when the date is present and before today. Clash error exactly when all three values are present and a live booking of the same venue and date overlaps the half-open range. No other error. |
| Forms.ResolveAddOns | main/forms.py:162-166 | The selection is accepted exactly when every id is one of the venue's add-ons. It is then the venue's add-ons with those ids, so it is drawn from them. |
| Forms.MissingErrors | main/forms.py:157-161 | A required-field error is reported for each of date, start and end that is absent. |
| Forms.ValidateBooking | main/forms.py:156-213 | The form accepts exactly the complete requests with start before end, a date not in the past, only offered add-ons, notes free of U+0000 and no live booking in the way. Accepted values are carried over with stripped notes. A rejection carries the full error list. |
| Forms.BackToBackAdmitted | main/forms.py:207 | Bookings that end when the candidate starts, or start when it ends, never cause a clash. |
| Forms.IrrelevantBookingIgnored | main/forms.py:201-206 | A cancelled or rejected booking, or one at another venue or on another date, changes nothing in the outcome. |
| Forms.BookingAdmissionExamples | main/forms.py:199-212 | Against a confirmed 10:00-12:00 booking, 11:00-13:00 clashes, while 12:00-13:00 and 08:00-10:00 are free. Once that booking is cancelled, 11:00-13:00 is free. |
| Forms.InvertedRangeCanAlsoClash | main/forms.py:195-199 | The clash test runs even when the range is inverted, so one request can draw both the end-time error and the clash error. |
| Forms.CleanRating | main/forms.py:232-236 | A rating is accepted exactly when it is present and from 1 to 5, and is returned unchanged. |
| Forms.ValidateReview | main/forms.py:216-236 | The review form accepts exactly a rating from 1 to 5 with a comment that is not blank and holds no U+0000, and yields the rating and the stripped comment. |
| Forms.NullInNotesRejected | main/forms.py:170 | Notes holding U+0000 make the booking form fail, and the errors include the notes error. |
| Forms.NullInCommentRejected | main/forms.py:216-219 | A comment holding U+0000 makes the review form fail. |
| Forms.CleanEmail | main/forms.py:98-102 | The address is accepted exactly when no registered address equals it ignoring case, and is returned lower-cased. |
| Forms.RegistrationSave | main/forms.py:104-112 | The lower-cased address becomes both the user name and the e-mail, and the names are stored as given. |
| Forms.CleanEmailIsLowerCase | main/forms.py:98-107 | What `clean_email` returns is already lower case, so `save` stores it unchanged. |
| Views.CityChoices | main/forms.py:142-143 | The city choices are exactly the non-empty cities of the venues. |
| Views.FilterFormValid | main/forms.py:125-147 | The filter form validates exactly when the search text holds no U+0000, the city and category are empty or among the choices and the maximum price is absent or not negative. `Views.Catalogue` narrows the listing only under this condition. |
| Views.NullInSearchListsAll | main/forms.py:116-117 | Search text holding U+0000 makes the filter form invalid, so every venue is listed, as often as it is stored. |
| Views.MatchesQuery | main/views.py:61-68 | A venue meets the query when it meets every criterion given: name containing the search text ignoring case, same city ignoring case, same category slug, price at most a non-zero maximum. `Views.Catalogue` lists exactly the matching venues; `Views.MaxPriceZeroIgnored` and `Views.CatalogueWithoutCriteria` show that a zero maximum and empty criteria impose nothing. |
| Views.Catalogue | main/views.py:53-69 | With a valid form, a venue is listed exactly when it meets every criterion given, as often as it is stored. An invalid or absent form lists every venue. No order is promised. |
| Views.CatalogueWithoutCriteria | main/views.py:56-69 | A form with no criteria lists every venue. |
| Views.MaxPriceZeroIgnored | main/views.py:67-68 | A maximum price of 0 is falsy and filters nothing: the result equals the one with no maximum. |
| Views.FeaturedOrderTotal | main/views.py:91 | More bookings first, then name, is a total preorder. |
| Views.Featured | main/views.py:91 | At most three venues, as many as there are when fewer. They are sorted by booking count, most first, and then by name. They are drawn from the listed venues, and no venue left out ranks before one that was picked. |
| Views.ProfileOrdersTotal | main/views.py:208-213 | By (date, start) ascending, and by date descending, are both total preorders. |
| Views.UpcomingBookings | main/views.py:205-209 | Exactly the user's bookings dated today or later, drawn from the stored ones and sorted by date and then start time. |
| Views.PastBookings | main/views.py:210-214 | Exactly the user's bookings dated before today, drawn from the stored ones, latest date first. |
| Views.ProfilePartition | main/views.py:205-214 | Upcoming and past together are the user's bookings, each exactly as often as it is stored. |
| Views.SavedVenueKeepsSlugsUnique | main/models.py:67-76 | Storing a new venue whose slug `Venue.save` chose among the stored ones keeps the slugs unique, the `Site` invariant. |
| Views.FindBySlug | main/views.py:119 | The venue found has the slug. When none is found, no venue has it. |
| Views.AppendUnblockedKeepsNoClashes | main/views.py:160-163 | Storing a live booking that no stored booking blocks keeps the stored bookings clash-free. |
| Views.AcceptedKeepsNoClashes | main/forms.py:199-212 | A booking the form accepted overlaps no live booking of its venue and day, so storing it keeps the stored bookings clash-free. |
| Views.Toggled | main/views.py:120-122 | The pair is present afterwards exactly when it was absent before, and every other pair is unchanged. |
| Views.ToggleTwice | main/views.py:120-122 | Toggling twice restores the wishlist. |
| Views.Site.ToggleWishlist | main/views.py:117-126 | An unknown slug changes nothing. Otherwise the (user, venue) entry is created when absent and deleted when present, the outcome says which, and nothing else changes. |
| Views.Site.CreateBooking | main/views.py:144-169 | An unknown slug or a rejected form stores nothing and reports the form's errors. An accepted form appends exactly one booking: the requester's, at the page's venue, pending, with the cleaned values and the selected add-ons. Stored bookings stay clash-free. |
| Views.Site.SubmitReview | main/views.py:172-197 | An unknown slug or a rejected form changes nothing. An accepted form sets the review of (user, venue) to the submitted rating and stripped comment. |
| Views.UpsertTouchesOnePair | main/views.py:188-195 | After the upsert the pair has exactly one review, the submitted one. Every other pair keeps its own. |

## Left out

**Django plumbing**

- ORM, HTTP and messages: querysets, `render`/`redirect` and `messages` are framework plumbing. Querysets become in-memory sequences, sets and maps. `get_object_or_404` becomes a `VenueNotFound` result.
- Login: `LoginRequiredMixin`, `LoginForm` and the login view are framework code.
- Widget and style attributes set in the forms' `__init__` methods and the password fields: they affect presentation only.
- Admin, URLs and migrations: `main/admin.py` and `main/urls.py` are configuration. The seed migration is data; its prices appear only as the values of `Models.TotalPriceExample`.
- `slugify` is a Django library function that is not part of this model, so it is a parameter of `Save`.

**Clock and concurrency**

- The clock and time zones: `date.today()`, `timezone.now()` and `make_aware` are inputs. "Today" and "now" are parameters. `now` is a whole number of seconds on the same scale as `Models.StartInstant`: the current instant rounded up to the next whole second. `Models.IsUpcomingAtMicroseconds` shows this gives the same answer as `timezone.now()`'s microsecond instant, for every start.
- The check-then-insert race between the booking form's clash test and `booking.save()` is a concurrency issue. `Site.CreateBooking` runs validation and insertion as one step.
- Site.Valid: the clash-free table is an invariant of the model only, where every booking enters through `Site.CreateBooking`. The admin site (`main/admin.py`) lets staff change a booking's status and times without the clash test, so the real table can hold clashes. The `Site` methods require `Valid()` and do not describe that state.

**Numbers**

- Models.DurationHundredths: does not model the float intermediate `total_seconds() / 3600` followed by `Decimal(str(...))`. The duration is rounded exactly instead. For durations under a day the two agree, because no value `n/3600` lies within float error of a rounding boundary without being on it. This is argued, not proved.
- Models.AverageRating: does not model the 28-digit precision of the decimal context. The mean is an exact real over the ratings given as a sequence; by `Money.SumPermutation` their order does not matter.
- Times of day are whole seconds (`Models.TimeOfDay`). `forms.TimeField` also accepts `%H:%M:%S.%f`, so the booking form takes sub-second times the model cannot represent. The float-versus-exact argument for `Models.DurationHundredths` also assumes whole seconds.
- The registration form's field validators (e-mail syntax, password rules, U+0000 in the names) belong to Django's `UserCreationForm` and `EmailField`. Only `clean_email` and `save` are modelled.
- `max_price` is in whole cents, so the form's `decimal_places=2` check on it is not modelled. Its `min_value=0` check is in `Views.FilterFormValid`.

**Text**

- Text.Lower: ASCII letters only. Python's full Unicode `lower()` and the database collation behind `icontains`/`iexact` are not modelled.
- Text.StrLe: plain code-point order. The database's collation for `order_by("name")` may differ.
- Views.Catalogue: promises no order. The queryset is annotated with a booking count, a grouped query, to which Django does not apply the model's default `ordering`, and `get_queryset` calls no `order_by`; the rows come in whatever order the database returns. The model returns the matching venues in stored order.

**Rendering and display-only data**

- `has_filters`, `wishlist_ids` and the profile's wishlist and review counts are display-only values with no logic to prove.
- The venue page's `upcoming_bookings[:5]` list is not modelled.
- Forms.CleanRating: the `PositiveSmallIntegerField` bound on the rating is not modelled as a separate message. Everything outside 1..5 gets the same error.
- Models.Venue.Save: gets the stored slugs as a map and does not update it. Writing the row back is framework code. `Models.Venue` holds only the slug-bearing fields, while `Views.VenueRow` is the row the listings read; `Views.SavedVenueKeepsSlugsUnique` links the two through `Models.OtherSlugs`.
