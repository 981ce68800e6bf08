# poly-clubs in Dafny

This project models the client-side logic of the poly-clubs directory. The
application lists a university's student organisations and lets visitors
rate and review them anonymously. The model covers five parts:

- **Catalogue** (`Types`, `Catalog`). The club record and `String(club.Id)`.
  Identifiers are text or numbers, because the bundled JSON holds some ids as
  numbers. `getClubById` is a first-match search on equal id text.
- **Home page listing** (`Listing`, `Categories`, `Paging`).
  - The statistics map built from the aggregation answer; a later row for
    the same club overwrites an earlier one.
  - The merge of those statistics into the clubs.
  - The category filter and the case-insensitive search filter, applied one
    after the other.
  - The order: review count descending, then name.
  - The category pills: "All" followed by the ten most frequent trimmed tags.
  - The 24-at-a-time window, its "Show More" and reset rules, and the three
    "Trending Now" clubs.
- **Review form** (`ReviewForm`).
  - The status check that trusts a local receipt `reviewed_club_<clubId>`
    only after the review store confirms the review still exists, and heals
    a stale receipt otherwise.
  - The submission: nothing without a rating, one insert, and the receipt
    written from the returned id.
  - Half-star selection, the star row, and the rating label.
- **Review card** (`ReviewItem`). The coarse age ("3mo"), star fill by
  `Math.round`, vibe badges, avatar letter and hues, and the report button,
  which can only go from "not reported" to "reported".
- **Club card** (`ClubCard`).
  - The rating badge guard, the "N reviews" line, the logo or initial, and
    the first three tags.
  - The description fallback with `<...>` markup removed.
  - The link to the club's page, which leads back to the same club through
    `getClubById`.

Conventions:

- **Remote answers and local storage are parameters.** These are the review
  lookup, the insert, the flag call and the statistics rows. `localStorage`
  is a `map<string, string>`.
- **Ratings a visitor picks are whole half-stars.** They are held as
  `rating * 2`, so 1..10 stands for 0.5..5 stars.
- **Averages from the statistics are whole tenths of a star.** This is the
  precision `toFixed(1)` shows.
- **Elapsed time is an integer number of milliseconds.**
- **Strings are `seq<char>`.**
  - `toLowerCase` and `toUpperCase` change only ASCII letters.
  - `trim` removes a fixed set of whitespace characters.
  - `localeCompare` is code-unit lexicographic order.

The only guard against a second review is the local receipt, checked
against the review store.

Three quirks of the code are modelled as written:

- **Category names.** They are counted after trimming, but the filter looks
  for the chosen name untrimmed. A club tagged only `" Games"` makes a
  "Games" pill that selects nothing (`Categories.PaddedTagIsCountedButNotMatched`).
- **Receipts.** A receipt holding the empty string reads as "no receipt"
  (`ReviewForm.EmptyIdReceiptIsIgnored`).
- **Failed lookups.** The receipt is removed whenever the lookup returns no
  row. This includes a failed lookup, not only a deleted review
  (`ReviewForm.CheckReviewStatus`).

## Model

| member | source | states |
|---|---|---|
| Strings.Trim | app/page.tsx:53 | the trimmed name neither starts nor ends with whitespace and occurs inside the original with only whitespace before and after it; a name without edge whitespace is unchanged |
| Strings.TrimLocates | app/page.tsx:53 | cutting white space off the end of a suffix leaves a middle slice of the original followed only by white space |
| Strings.TrimIdempotent | app/page.tsx:53 | trimming an already trimmed name changes nothing |
| Strings.ToLower | app/page.tsx:120-124 | lowering keeps the length, maps every character through the letter lowering, and leaves no upper-case letter |
| Strings.ContainsAtSomePosition | app/page.tsx:123-124 | `includes` holds exactly when the query occurs at some position of the text |
| Strings.LexLeTotal | app/page.tsx:131 | any two names are ordered one way or the other by the name comparison |
| Strings.LexLeTransitive | app/page.tsx:131 | the name comparison is transitive |
| Strings.DecimalRoundTrip | components/ClubCard.tsx:75 | the decimal text of a count reads back as that count |
| Strings.NatToStringInjective | components/ClubCard.tsx:75 | different counts are written differently |
| Types.IdString | lib/data.ts:11-13 | a text id is its own text; a number id is written in decimal digits whose value is the number, with no leading zero except for 0 itself, and with a leading minus for negatives |
| Types.NumericIdStringInjective | lib/data.ts:11-13 | two numeric ids with the same text are the same number |
| Catalog.IdTexts | lib/data.ts:13 | one identifier text per club, in catalogue order, each being `String(club.Id)` |
| Catalog.FirstIndexWithId | lib/data.ts:13 | the position found holds the id, no earlier club holds it, and there is none exactly when no club holds it |
| Catalog.FirstIndexOf | lib/data.ts:13 | the position found holds the key and no earlier one does; nothing is found exactly when the key does not occur |
| Catalog.GetClubById | lib/data.ts:8-14 | a found club is in the catalogue, has the asked id text and is the first such club; nothing is found exactly when no club has that id text |
| Catalog.EveryClubIsFound | lib/data.ts:4-14 | every club of the catalogue is found again by its own id text |
| Catalog.LookupReturnsOwner | lib/data.ts:8-14 | with distinct id texts, looking up a club's id returns that very club |
| Listing.BuildStats | app/page.tsx:74-81 | the map has no more entries than there are rows, and the last row's club maps to that row's average and count |
| Listing.BuildStatsKeys | app/page.tsx:74-81 | the statistics map has an entry exactly for the club ids occurring in the answer |
| Listing.BuildStatsLastRowWins | app/page.tsx:75-81 | each club id maps to the values of the last answer row carrying it |
| Listing.Merge | app/page.tsx:102-106 | the club is kept; with a statistics entry under its id text it takes that entry's rating and count, otherwise no rating and 0 reviews |
| Listing.MergeStats | app/page.tsx:102-106 | every club is kept, in order, each merged with the statistics under `String(Id)` |
| Listing.MissingStatsDefaultToZero | app/page.tsx:104-105 | a club without a statistics entry is listed with 0 reviews and no rating |
| Listing.Filter | app/page.tsx:108-126 | the filter keeps each passing element with its multiplicity, drops every other, and keeps the input order (the result is a subsequence of the input) |
| Listing.RanksBeforeTotal | app/page.tsx:129-132 | any two clubs are ordered one way or the other by the list order |
| Listing.RanksBeforeTransitive | app/page.tsx:129-132 | the list order is transitive |
| Listing.InsertListed | app/page.tsx:129-132 | inserting into a sorted list gives a sorted list with the same clubs plus the new one |
| Listing.KeepHeadListed | app/page.tsx:129-132 | when the new club ranks below the head, keeping the head in front of the rest stays sorted and adds exactly the new club |
| Listing.SortListing | app/page.tsx:129-132 | the sorted list is ordered and is a rearrangement of its input |
| Listing.ProcessClubs | app/page.tsx:101-133 | the list is sorted and holds each merged club as often as the catalogue does when it passes both filters, and not at all otherwise |
| Listing.ProcessedAreExactlySelected | app/page.tsx:108-126 | a club is listed exactly when it is a merged club that passes the category filter (unless "All") and the search (unless empty) |
| Listing.NoFilterKeepsEveryClub | app/page.tsx:101-133 | with "All" and no search the list is a rearrangement of all clubs and as long as the catalogue |
| Listing.ProcessedOrder | app/page.tsx:129-132 | earlier clubs have at least as many reviews, and equal counts are in name order |
| Categories.TrimAll | app/page.tsx:52-53 | each tag is replaced by its trimmed form, in place |
| Categories.BumpTallies | app/page.tsx:54 | adding one to a name's count keeps the map an exact count of the tags seen so far |
| Categories.Tally | app/page.tsx:50-56 | the map has one entry per distinct trimmed tag, holding that tag's number of occurrences, and no other entry |
| Categories.InsertEntry | app/page.tsx:57-58 | inserting into a count-descending list keeps it count-descending and adds exactly the new entry |
| Categories.KeepHeadEntry | app/page.tsx:57-58 | when the new entry counts less than the head, keeping the head in front of the rest stays count-descending and adds exactly the new entry |
| Categories.SortEntries | app/page.tsx:57-58 | the entries are sorted by count, descending, and none is lost or added |
| Categories.SortedTallyIsRanked | app/page.tsx:50-58 | the sorted entries count every trimmed tag exactly once and in descending order |
| Categories.TopNames | app/page.tsx:59-60 | the names are those of the first ten entries, or of all when fewer |
| Categories.TopNamesRanked | app/page.tsx:57-60 | the chosen names are tags of the catalogue, distinct, and in non-increasing order of count |
| Categories.TopNamesComplete | app/page.tsx:57-60 | a tag left out occurs no more often than every chosen name, and only when ten names are chosen |
| Categories.CategoryList | app/page.tsx:49-62 | the pill list starts with "All" and has one to eleven entries |
| Categories.CategoryListRanked | app/page.tsx:49-62 | after "All" come distinct trimmed tags in non-increasing order of how often the trimmed tag occurs across all the clubs' tag lists, and any tag left out is outranked by all ten shown |
| Categories.PaddedTagIsCountedButNotMatched | app/page.tsx:52-114 | a lone tag " Games" yields the pills ["All", "Games"], is counted once, and choosing "Games" lists no club |
| Categories.LoneTagPill | app/page.tsx:49-62 | a catalogue whose trimmed tags are one name gives exactly the pills "All" and that name |
| Categories.TrimOneLeadingSpace | app/page.tsx:53 | a single leading space is all `trim` takes from a name without white space at its ends |
| Paging.Visible | app/page.tsx:139-140 | the window is the first min(visibleCount, n) clubs, and "Show More" shows exactly when visibleCount < n |
| Paging.Featured | app/page.tsx:142-145 | nothing while a search or a category other than "All" is active; otherwise the first min(3, n) clubs of the list, in order |
| Paging.Step | app/page.tsx:135-137 | "Show More" adds 24 and changes nothing else; a new search or category resets the count to 24; setting an unchanged value changes nothing |
| Paging.VisibleCountIsWholePages | app/page.tsx:135-137 | after any sequence of page events the count is a positive multiple of 24 |
| Paging.ShowMoreAddsPages | app/page.tsx:295-297 | k presses of "Show More" add exactly 24·k and change nothing else |
| Paging.EnoughShowMoreRevealsAll | app/page.tsx:139-140 | n / 24 presses from a fresh page show the whole list and hide "Show More" |
| Paging.FeaturedLeadsTheGrid | app/page.tsx:139-145 | "Trending Now" is empty while a search or category is active, otherwise it holds the first min(3, n) clubs, which also open the grid |
| ReviewForm.ReceiptKeyInjective | components/ReviewForm.tsx:44 | different clubs have different receipt keys |
| ReviewForm.CheckReviewStatus | components/ReviewForm.tsx:42-70 | without a receipt no lookup is made and only the checking flag clears; a confirmed receipt blocks the form and is kept; otherwise exactly that club's receipt is removed and the form is open |
| ReviewForm.CheckKeepsOtherReceipts | components/ReviewForm.tsx:61-65 | the status check never adds, removes or changes another club's receipt |
| ReviewForm.StaleReceiptIsNotLookedUpAgain | components/ReviewForm.tsx:44-65 | after a stale receipt was removed, opening the form again makes no lookup and leaves it open |
| ReviewForm.BeginSubmit | components/ReviewForm.tsx:82-90 | an insert is issued exactly when a rating is chosen; it carries the form's values for this club, and only then does the form turn to loading; without a rating the form is untouched |
| ReviewForm.FinishSubmit | components/ReviewForm.tsx:92-121 | loading always ends; an error or an empty answer leaves the receipts and the rest of the form alone; a returned row stores its id under the club's receipt key and marks the form submitted |
| ReviewForm.SubmitReview | components/ReviewForm.tsx:82-121 | without a rating nothing is sent or changed; otherwise one insert with the form's values is sent and loading ends; a failure writes no receipt and keeps the form; a success stores the returned id under the club's key, touches no other key and closes the form |
| ReviewForm.SubmitThenCheck | components/ReviewForm.tsx:44-111 | the receipt a successful submission writes is the id the next status check looks up, and while that review exists the form stays closed |
| ReviewForm.EmptyIdReceiptIsIgnored | components/ReviewForm.tsx:46-111 | an empty returned id is stored but read back as no receipt, so the next check makes no lookup and reopens the form |
| ReviewForm.MouseMove | components/ReviewForm.tsx:72-80 | after submission nothing changes; before, only the hover changes, to star − 0.5 exactly when the mouse is in the left half, else to the star |
| ReviewForm.MouseMoveHalves | components/ReviewForm.tsx:72-80 | before submission, the left half of star k previews k − 0.5 and the right half k, nothing else changes; after submission nothing changes |
| ReviewForm.MouseLeave | components/ReviewForm.tsx:163 | leaving the row clears the hover to 0 and changes nothing else, so the stars show the chosen rating again and the next click takes the clicked star |
| ReviewForm.LeaveThenClick | components/ReviewForm.tsx:163-169 | a click right after leaving the row rates exactly the clicked star, whatever was previewed before |
| ReviewForm.ClickStar | components/ReviewForm.tsx:169 | a click changes only the rating, to the previewed value, or to the clicked star when nothing is previewed; on a star with a valid preview the rating lies in 0.5..5 stars |
| ReviewForm.StarEventsKeepRange | components/ReviewForm.tsx:163-169 | mouse events on the five stars keep hover and rating within 0..5 stars in half steps, and after any click the rating is at least half a star |
| ReviewForm.RatingStaysSet | components/ReviewForm.tsx:169 | once a rating is chosen, mouse events never reset it to 0 |
| ReviewForm.StarRowShowsRating | components/ReviewForm.tsx:174-185 | a shown rating of h half stars draws h / 2 full stars and a half star, right after them, exactly when h is odd |
| ReviewForm.RatingLabel | components/ReviewForm.tsx:196-206 | each label is given for exactly its band: 0 prompts to click; from 4.5 Exceptional, 3.5 Great, 2.5 Average, 1.5 Below Average, else Poor |
| ReviewForm.LabelMonotone | components/ReviewForm.tsx:196-206 | a higher rating never gets a worse label, and one more whole star always gets a better one |
| ReviewItem.WholeSeconds | components/ReviewItem.tsx:12 | the elapsed milliseconds are floored to whole seconds, toward minus infinity |
| ReviewItem.TimeAgo | components/ReviewItem.tsx:9-21 | years exactly above 31536000 s, months above 2592000 s, days above 86400 s, else today; the count is the floor of the quotient, at least 1, with months at most 12 and days at most 30 |
| ReviewItem.AgeText | components/ReviewItem.tsx:14-20 | the text is "today" exactly for today, else the count followed by its unit |
| ReviewItem.AgeTextRoundTrip | components/ReviewItem.tsx:14-20 | the digits in front of the unit read back as the number of whole units elapsed |
| ReviewItem.AgeBoundaries | components/ReviewItem.tsx:14-20 | exactly one day reads "today", a day and a second "1d", exactly one year "12mo", and a future date "today" |
| ReviewItem.RoundedStars | components/ReviewItem.tsx:83 | the rounded star count r satisfies 2r − 1 ≤ halves ≤ 2r, so half stars round up |
| ReviewItem.FilledCount | components/ReviewItem.tsx:79-86 | star k of five is filled exactly when k does not exceed the filled count |
| ReviewItem.StarsForStoredRating | components/ReviewItem.tsx:79-86 | a rating of 0.5..5 fills 1..5 stars: a whole rating its own number, a half rating the next one up |
| ReviewItem.VibeBadges | components/ReviewItem.tsx:117-135 | "Party Vibe" appears exactly above 75 social and "Heavy Workload" exactly above 75 workload, in that order, and no other badge appears |
| ReviewItem.BadgeRowIffBadges | components/ReviewItem.tsx:117-136 | the badge row is drawn exactly when it has a badge in it |
| ReviewItem.AvatarLetter | components/ReviewItem.tsx:63 | one character: "S" without a major, else the upper-cased first character of the major |
| ReviewItem.AvatarMatchesAuthor | components/ReviewItem.tsx:63-68 | with a major the avatar letter is the upper-cased first letter of the name shown; without one the letter "S" differs from the shown name's "C" |
| ReviewItem.AuthorAndBodyNeverEmpty | components/ReviewItem.tsx:67-114 | the author line and the body are never empty, and show the major and the review text whenever those are given |
| ReviewItem.Hue | components/ReviewItem.tsx:59-60 | a hue lies in 0..359 and is congruent to five times the character code modulo 360 |
| ReviewItem.AvatarHues | components/ReviewItem.tsx:57-61 | the first stop exists exactly when the id has a first character and the second when it has a second; each is the hue of that character |
| ReviewItem.HandleReport | components/ReviewItem.tsx:27-47 | a reported review issues no call and stays as it is; otherwise one call is issued, loading ends, and the review is reported exactly when the call succeeded |
| ReviewItem.ReportedAtMostOnce | components/ReviewItem.tsx:27-47 | over any clicks a review ends reported exactly when it was or some call succeeded; a reported review issues no call; at most one call ever succeeds; from the initial unreported state the review ends reported exactly when one call succeeded |
| ClubCard.RatingText | components/ClubCard.tsx:19 | `toFixed(1)` of an average in tenths: the whole part in decimal digits with no leading zero beyond a lone 0, a point, then the tenths digit; a negative average is the same text after a minus sign |
| ClubCard.ShowRatingBadge | components/ClubCard.tsx:62 | a badge is drawn only for a club with a rating whose line is not "No reviews yet", and never for a club with 0 reviews |
| ClubCard.RatingTextRoundTrip | components/ClubCard.tsx:19 | the one-decimal badge text of an average reads back as that average |
| ClubCard.MetaTextRoundTrip | components/ClubCard.tsx:74-76 | the number in front of the space reads back as the review count, and the word is "review" exactly for one |
| ClubCard.MetaText | components/ClubCard.tsx:74-76 | the line is "No reviews yet" exactly for no reviews |
| ClubCard.CardLogo | components/ClubCard.tsx:24-50 | a picture is used exactly when the club has a non-empty one, its address is the image base, the picture name and the size preset; else the initial is shown |
| ClubCard.Initial | components/ClubCard.tsx:50 | at most one character: the short name's first when it is non-empty, else the name's first |
| ClubCard.SkipTag | components/ClubCard.tsx:85 | after an opening `<`, everything through the next `>` is consumed, or the rest when no `>` follows |
| ClubCard.StripTags | components/ClubCard.tsx:85 | the stripped text has no `<`, is no longer than the input, and equals it when it had no `<` |
| ClubCard.StripTagsIdempotent | components/ClubCard.tsx:85 | stripping twice removes nothing more |
| ClubCard.StripTagsRemovesOneTag | components/ClubCard.tsx:85 | plain text, a closed tag and anything after: the text is kept, the tag vanishes, and stripping continues on what follows |
| ClubCard.TagAtFront | components/ClubCard.tsx:85 | a closed tag at the very front vanishes and stripping continues on what follows |
| ClubCard.StripTagsDropsUnclosedTag | components/ClubCard.tsx:85 | plain text followed by a `<` that is never closed keeps only the text |
| ClubCard.ElementIsUnwrapped | components/ClubCard.tsx:85 | an element around plain text, like `<p>Hi</p>`, leaves exactly the text |
| ClubCard.ClosingTagVanishes | components/ClubCard.tsx:85 | a closing tag on its own strips to nothing |
| ClubCard.StripPlainPrefix | components/ClubCard.tsx:85 | text before the first `<` is kept unchanged |
| ClubCard.DescriptionText | components/ClubCard.tsx:84-86 | the description is never empty: the summary if non-empty, else the stripped description if non-empty, else the placeholder |
| ClubCard.MarkupOnlyDescription | components/ClubCard.tsx:84-86 | a description that is one tag and nothing else falls through to "No description available." |
| ClubCard.CardTags | components/ClubCard.tsx:91-93 | no footer for a missing or empty tag list; otherwise the first one to three tags in their original order |
| ClubCard.CardLinkFindsClub | components/ClubCard.tsx:35 | the id in a card's link finds a club with the same id text, and with distinct ids that very club |
| ClubCard.UnreviewedClubCard | components/ClubCard.tsx:19-21 | a club without statistics gets no rating badge and "No reviews yet" |
| ClubCard.ReviewedClubCard | components/ClubCard.tsx:19-21 | a club with reviewed statistics shows the badge with its average and a line whose number is its review count |

## Left out

- Catalog.GetAllClubs: modelled as the identity on the dataset parameter (lib/data.ts:4-6); reading the bundled JSON is I/O, so there is nothing further to state and it has no row.
- Reading the bundled JSON, the Supabase client, and `localStorage` I/O are left out. Their answers are parameters: the statistics rows, the lookup, insert and flag results, and the receipt map.
- The averages on the home page arrive already computed from a database function, which is outside this model.
- The club page's own average of ratings and vibes (app/club/[id]/page.tsx:140-164) is left out: it is floating-point averaging on the club page, which this model does not cover.
- The fetch retry loop, the 300 ms search debounce and the 1.5 s `onSuccess` delay are timer behaviour. `Paging.Step` takes the settled search value as its event.
- Floating point is not modelled.
  - Averages are whole tenths, so `Number(avg_rating)` and its rounding by `toFixed(1)` are outside the model.
  - The form's own "0.0"-style number display is not modelled.
  - A rating stored in the review store is taken to be a whole number of half stars.
- `new Date` parsing: `TimeAgo` takes the elapsed milliseconds directly.
- Locale-aware `localeCompare`, full Unicode `toLowerCase`/`toUpperCase` and the exact Unicode whitespace set of `trim` are approximated as described above.
- `charCodeAt` is read as the character's code in Dafny's `char`. UTF-16 surrogate pairs are not split.
- Listing.SortListing: stability among equal keys is not stated; only order and permutation are proved. Two clubs tie only when their review counts and names are equal.
- Categories.SortEntries: first-seen order among equal counts is not stated; only order and permutation are proved. That order decides which tied names make the ten-pill cut.
- ClubCard.RatingText: only non-negative averages have a read-back lemma; negative averages do not occur.
- Toast messages, console logging, JSX, Tailwind and animation are left out. So are the layout, icon, logo, header, responsive-review components and the club detail page, apart from its lookup through `getClubById`.
