/** The review form of a club page. Ratings are held in half-star units
    (`rating * 2`), so 0 means "no rating" and 1..10 are 0.5..5 stars.

    Two flows are modelled as pure transitions whose remote answers are
    parameters:
    - the status check on opening: a local receipt `reviewed_club_<clubId>`
      holding a review id is verified against the review store and dropped
      when the review is gone;
    - submission: nothing happens without a rating; otherwise one insert is
      issued, and on success the returned review id becomes the receipt. */
module ReviewForm {
  import opened Types

  // ---------------------------------------------------------------------
  // The local receipt store
  // ---------------------------------------------------------------------

  /** The browser's `localStorage`, as a map from key to stored text. */
  type Store = map<string, string>

  const ReceiptPrefix := "reviewed_club_"

  function ReceiptKey(clubId: string): (k: string)
    ensures |k| == |ReceiptPrefix| + |clubId|
    ensures k[..|ReceiptPrefix|] == ReceiptPrefix && k[|ReceiptPrefix|..] == clubId
  {
    ReceiptPrefix + clubId
  }

  /** Different clubs never share a receipt key. */
  lemma ReceiptKeyInjective(a: string, b: string)
    requires a != b
    ensures ReceiptKey(a) != ReceiptKey(b)
  {
    assert ReceiptKey(a)[|ReceiptPrefix|..] == a;
    assert ReceiptKey(b)[|ReceiptPrefix|..] == b;
  }

  /** `localStorage.getItem(key)` read with JavaScript truthiness: a missing
      key and an empty string both count as "no receipt". */
  function StoredReceipt(store: Store, clubId: string): (r: Option<string>)
    ensures r.Some? <==> ReceiptKey(clubId) in store && store[ReceiptKey(clubId)] != ""
    ensures r.Some? ==> r.value == store[ReceiptKey(clubId)] && r.value != ""
  {
    var key := ReceiptKey(clubId);
    if key in store && store[key] != "" then Some(store[key]) else None
  }

  // ---------------------------------------------------------------------
  // Form state
  // ---------------------------------------------------------------------

  datatype Form = Form(
    checkingStatus: bool,
    hasSubmitted: bool,
    loading: bool,
    rating: int,       // half-star units; 0 is "not rated"
    hoverRating: int,  // half-star units; 0 is "not hovering"
    social: int,
    workload: int,
    value: int,
    reviewText: string,
    major: string)

  const InitialForm := Form(true, false, false, 0, 0, 50, 50, 50, "", "")

  // ---------------------------------------------------------------------
  // Status check when the form opens
  // ---------------------------------------------------------------------

  /** What the `select id ... single()` lookup answered. An error and an
      empty answer both leave `data` null. */
  datatype Lookup = RowFound | NoRow | LookupError

  /** The form and store after the check, and the review id looked up (if any). */
  datatype StatusCheck = StatusCheck(form: Form, store: Store, lookedUp: Option<string>)

  /** `checkReviewStatus`. `answer` is what the review store would say about
      the receipt's review id; it is ignored when no lookup is issued. */
  function CheckReviewStatus(form: Form, store: Store, clubId: string, answer: Lookup): (r: StatusCheck)
    ensures !r.form.checkingStatus
    ensures StoredReceipt(store, clubId).None? ==>
              r.lookedUp.None? && r.store == store && r.form == form.(checkingStatus := false)
    ensures StoredReceipt(store, clubId).Some? ==> r.lookedUp == StoredReceipt(store, clubId)
    ensures StoredReceipt(store, clubId).Some? && answer == RowFound ==>
              r.store == store && r.form == form.(checkingStatus := false, hasSubmitted := true)
    ensures StoredReceipt(store, clubId).Some? && answer != RowFound ==>
              r.store == store - {ReceiptKey(clubId)}
              && r.form == form.(checkingStatus := false, hasSubmitted := false)
  {
    match StoredReceipt(store, clubId)
    case None => StatusCheck(form.(checkingStatus := false), store, None)
    case Some(reviewId) =>
      if answer == RowFound then
        StatusCheck(form.(checkingStatus := false, hasSubmitted := true), store, Some(reviewId))
      else
        StatusCheck(form.(checkingStatus := false, hasSubmitted := false), store - {ReceiptKey(clubId)}, Some(reviewId))
  }

  /** The check never touches another club's receipt. */
  lemma CheckKeepsOtherReceipts(form: Form, store: Store, clubId: string, answer: Lookup, other: string)
    requires other != clubId
    ensures var r := CheckReviewStatus(form, store, clubId, answer);
            (ReceiptKey(other) in r.store <==> ReceiptKey(other) in store)
            && (ReceiptKey(other) in store ==> r.store[ReceiptKey(other)] == store[ReceiptKey(other)])
  {
    ReceiptKeyInjective(clubId, other);
  }

  /** A stale receipt heals itself: checking again afterwards issues no lookup. */
  lemma StaleReceiptIsNotLookedUpAgain(form: Form, store: Store, clubId: string, answer: Lookup, next: Lookup)
    requires answer != RowFound
    ensures var r := CheckReviewStatus(form, store, clubId, answer);
            var again := CheckReviewStatus(InitialForm, r.store, clubId, next);
            again.lookedUp.None? && !again.form.hasSubmitted
  {
  }

  // ---------------------------------------------------------------------
  // Submission
  // ---------------------------------------------------------------------

  /** The row sent to the `reviews` table. */
  datatype Draft = Draft(
    clubId: string, rating: int, social: int, workload: int, value: int, text: string, major: string)

  /** What the insert answered: an error, the stored row's id, or neither
      (no error but no row returned). */
  datatype InsertAnswer = InsertError | Inserted(id: string) | NoRowReturned

  datatype Submission = Submission(form: Form, store: Store, insert: Option<Draft>)

  /** The form right after the click, and the insert issued (if any). */
  datatype Begun = Begun(form: Form, insert: Option<Draft>)

  /** The form and the receipt store once the insert has answered. */
  datatype Settled = Settled(form: Form, store: Store)

  function DraftOf(form: Form, clubId: string): Draft {
    Draft(clubId, form.rating, form.social, form.workload, form.value, form.reviewText, form.major)
  }

  /** The synchronous half of `submitReview`: a missing rating stops here;
      otherwise the form is marked loading and the insert is issued. */
  function BeginSubmit(form: Form, clubId: string): (r: Begun)
    ensures r.insert.Some? <==> form.rating != 0
    ensures form.rating == 0 ==> r.form == form
    ensures form.rating != 0 ==>
              r.insert.value.clubId == clubId && r.insert.value.rating == form.rating
              && r.insert.value == DraftOf(form, clubId) && r.form == form.(loading := true)
  {
    if form.rating == 0 then Begun(form, None)
    else Begun(form.(loading := true), Some(DraftOf(form, clubId)))
  }

  /** The half of `submitReview` that runs when the insert answers. */
  function FinishSubmit(form: Form, store: Store, clubId: string, answer: InsertAnswer): (r: Settled)
    ensures !r.form.loading
    ensures !answer.Inserted? ==> r.store == store && r.form == form.(loading := false)
    ensures answer.Inserted? ==>
              r.store == store[ReceiptKey(clubId) := answer.id]
              && r.form == form.(loading := false, hasSubmitted := true)
  {
    match answer
    case InsertError => Settled(form.(loading := false), store)
    case NoRowReturned => Settled(form.(loading := false), store)
    case Inserted(id) => Settled(form.(loading := false, hasSubmitted := true), store[ReceiptKey(clubId) := id])
  }

  /** `submitReview` from the click to the insert's answer. */
  function SubmitReview(form: Form, store: Store, clubId: string, answer: InsertAnswer): (r: Submission)
    ensures form.rating == 0 ==> r == Submission(form, store, None)
    ensures form.rating != 0 ==> r.insert == Some(DraftOf(form, clubId)) && !r.form.loading
    ensures form.rating != 0 && !answer.Inserted? ==>
              r.store == store && r.form == form.(loading := false)
    ensures form.rating != 0 && answer.Inserted? ==>
              StoredReceipt(r.store, clubId) == (if answer.id != "" then Some(answer.id) else None)
              && r.store - {ReceiptKey(clubId)} == store - {ReceiptKey(clubId)}
              && r.form.hasSubmitted
  {
    var begun := BeginSubmit(form, clubId);
    if begun.insert.None? then Submission(form, store, None)
    else
      var finished := FinishSubmit(begun.form, store, clubId, answer);
      Submission(finished.form, finished.store, begun.insert)
  }

  /** The receipt a successful submission writes is the one the next status
      check looks up, and while that review exists the form stays closed. */
  lemma SubmitThenCheck(form: Form, store: Store, clubId: string, id: string)
    requires form.rating != 0 && id != ""
    ensures var s := SubmitReview(form, store, clubId, Inserted(id));
            var c := CheckReviewStatus(InitialForm, s.store, clubId, RowFound);
            c.lookedUp == Some(id) && c.form.hasSubmitted && c.store == s.store
  {
  }

  /** An empty review id is written but then read as "no receipt", so the
      next opening of the form issues no lookup and allows another review. */
  lemma EmptyIdReceiptIsIgnored(form: Form, store: Store, clubId: string, answer: Lookup)
    requires form.rating != 0
    ensures var s := SubmitReview(form, store, clubId, Inserted(""));
            var c := CheckReviewStatus(InitialForm, s.store, clubId, answer);
            c.lookedUp.None? && !c.form.hasSubmitted
  {
  }

  // ---------------------------------------------------------------------
  // Star selection
  // ---------------------------------------------------------------------

  /** `handleMouseMove` over star `star` (1..5) at offset `x` of a star `width` wide:
      the left half means half a star less. */
  function MouseMove(form: Form, star: int, x: int, width: int): (r: Form)
    ensures form.hasSubmitted ==> r == form
    ensures !form.hasSubmitted ==>
              r == form.(hoverRating := r.hoverRating)
              && (r.hoverRating == 2 * star - 1 || r.hoverRating == 2 * star)
              && (r.hoverRating == 2 * star - 1 <==> x < width - x)
  {
    if form.hasSubmitted then form
    else form.(hoverRating := if 2 * x < width then 2 * star - 1 else 2 * star)
  }

  /** Before submission the mouse over star `star` previews `star - 0.5`
      on its left half and `star` on its right half, touching nothing else;
      after submission it changes nothing. */
  lemma MouseMoveHalves(form: Form, star: int, x: int, width: int)
    requires 1 <= star <= 5 && 0 <= x < width
    ensures form.hasSubmitted ==> MouseMove(form, star, x, width) == form
    ensures var r := MouseMove(form, star, x, width);
            !form.hasSubmitted ==>
              r == form.(hoverRating := r.hoverRating)
              && (r.hoverRating + 1) / 2 == star && 1 <= r.hoverRating <= 10
              && (r.hoverRating % 2 == 1 <==> x < width - x)
  {
  }

  /** `onMouseLeave` of the star row. */
  function MouseLeave(form: Form): (r: Form)
    ensures r == form.(hoverRating := r.hoverRating)
    ensures r.hoverRating == 0 && Shown(r) == form.rating
  {
    form.(hoverRating := 0)
  }

  /** `onClick` of star `star`: `setRating(hoverRating || star)`. */
  function ClickStar(form: Form, star: int): (r: Form)
    ensures r == form.(rating := r.rating)
    ensures r.rating == Shown(form.(rating := 2 * star))
    ensures 1 <= star <= 5 && 0 <= form.hoverRating <= 10 ==> 1 <= r.rating <= 10
  {
    form.(rating := if form.hoverRating != 0 then form.hoverRating else 2 * star)
  }

  /** A click right after the mouse leaves the row rates the clicked star,
      whatever was previewed before. */
  lemma LeaveThenClick(form: Form, star: int)
    ensures ClickStar(MouseLeave(form), star).rating == 2 * star
  {
  }

  datatype StarEvent = Move(star: int, x: int, width: int) | Leave | Click(star: int)

  predicate OnAStar(e: StarEvent) {
    match e
    case Move(star, _, _) => 1 <= star <= 5
    case Leave => true
    case Click(star) => 1 <= star <= 5
  }

  function ApplyStar(form: Form, e: StarEvent): Form {
    match e
    case Move(star, x, width) => MouseMove(form, star, x, width)
    case Leave => MouseLeave(form)
    case Click(star) => ClickStar(form, star)
  }

  function RunStars(form: Form, events: seq<StarEvent>): Form
    decreases |events|
  {
    if |events| == 0 then form else RunStars(ApplyStar(form, events[0]), events[1..])
  }

  /** Hover and rating are 0 or a half step between 0.5 and 5 stars. */
  predicate StarsInRange(form: Form) {
    0 <= form.hoverRating <= 10 && 0 <= form.rating <= 10
  }

  /** Mouse events on the five stars keep hover and rating in range, and any
      click leaves a rating of at least half a star. */
  lemma {:induction false} StarEventsKeepRange(form: Form, events: seq<StarEvent>)
    requires StarsInRange(form)
    requires forall i :: 0 <= i < |events| ==> OnAStar(events[i])
    ensures StarsInRange(RunStars(form, events))
    ensures (exists i :: 0 <= i < |events| && events[i].Click?) ==> RunStars(form, events).rating >= 1
    decreases |events|
  {
    if |events| > 0 {
      var next := ApplyStar(form, events[0]);
      assert StarsInRange(next);
      assert forall i :: 0 <= i < |events| - 1 ==> events[1..][i] == events[i + 1];
      StarEventsKeepRange(next, events[1..]);
      if events[0].Click? {
        RatingStaysSet(next, events[1..]);
      }
    }
  }

  /** Once set, the rating never returns to 0 through mouse events. */
  lemma {:induction false} RatingStaysSet(form: Form, events: seq<StarEvent>)
    requires StarsInRange(form) && form.rating >= 1
    requires forall i :: 0 <= i < |events| ==> OnAStar(events[i])
    ensures RunStars(form, events).rating >= 1
    decreases |events|
  {
    if |events| > 0 {
      assert forall i :: 0 <= i < |events| - 1 ==> events[1..][i] == events[i + 1];
      RatingStaysSet(ApplyStar(form, events[0]), events[1..]);
    }
  }

  // ---------------------------------------------------------------------
  // The label under the stars
  // ---------------------------------------------------------------------

  /** `hoverRating || rating`. */
  function Shown(form: Form): int {
    if form.hoverRating != 0 then form.hoverRating else form.rating
  }

  datatype StarLook = FullStar | HalfStar | EmptyStar

  /** How star `star` (1..5) is drawn for a shown rating: full when the rating
      reaches it, its left half when the rating stops half a star short. */
  function StarDrawn(shown: int, star: int): (look: StarLook)
    ensures look == FullStar <==> shown >= 2 * star
    ensures look == HalfStar <==> shown == 2 * star - 1
  {
    if shown >= 2 * star then FullStar
    else if shown >= 2 * star - 1 then HalfStar
    else EmptyStar
  }

  /** Counts the full stars among the first `k` of the row. */
  function FullStarsUpTo(shown: int, k: nat): nat {
    if k == 0 then 0
    else FullStarsUpTo(shown, k - 1) + (if StarDrawn(shown, k) == FullStar then 1 else 0)
  }

  /** A shown rating of `h` half stars draws `h / 2` full stars, and a half
      star exactly when `h` is odd, on the star after the full ones. */
  lemma {:induction false} StarRowShowsRating(shown: int, k: nat)
    requires 0 <= shown <= 10 && k <= 5
    ensures FullStarsUpTo(shown, k) == if shown / 2 < k then shown / 2 else k
    ensures forall star :: 1 <= star <= k ==>
              (StarDrawn(shown, star) == HalfStar <==> shown % 2 == 1 && star == shown / 2 + 1)
  {
    if k > 0 {
      StarRowShowsRating(shown, k - 1);
    }
  }

  /** The label for a shown rating in half-star units. */
  function RatingLabel(h: int): (name: string)
    ensures name == "Click stars to rate" <==> h == 0
    ensures name == "Exceptional" <==> h != 0 && h >= 9
    ensures name == "Great" <==> h != 0 && 7 <= h < 9
    ensures name == "Average" <==> h != 0 && 5 <= h < 7
    ensures name == "Below Average" <==> h != 0 && 3 <= h < 5
    ensures name == "Poor" <==> h != 0 && h < 3
  {
    if h == 0 then "Click stars to rate"
    else if h >= 9 then "Exceptional"
    else if h >= 7 then "Great"
    else if h >= 5 then "Average"
    else if h >= 3 then "Below Average"
    else "Poor"
  }

  /** The five labels of a real rating, worst to best. */
  function LabelRank(name: string): int {
    if name == "Poor" then 0
    else if name == "Below Average" then 1
    else if name == "Average" then 2
    else if name == "Great" then 3
    else if name == "Exceptional" then 4
    else -1
  }

  /** A higher rating never gets a worse label, and each whole star has its own label. */
  lemma LabelMonotone(a: int, b: int)
    requires 1 <= a <= b
    ensures 0 <= LabelRank(RatingLabel(a)) <= LabelRank(RatingLabel(b))
    ensures b == a + 2 && b <= 10 ==> LabelRank(RatingLabel(a)) < LabelRank(RatingLabel(b))
  {
  }
}
