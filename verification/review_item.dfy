/** One review as shown on a club page: its age ("3mo"), its stars, the
    vibe badges, the avatar colours and initial, and the report button.
    Ratings are in half-star units (`rating * 2`). */
module ReviewItem {
  import opened Strings
  import opened Types

  // ---------------------------------------------------------------------
  // Age of a review
  // ---------------------------------------------------------------------

  const SecondsPerYear := 31536000
  const SecondsPerMonth := 2592000
  const SecondsPerDay := 86400

  /** The coarse age of a review: at most one unit is shown. */
  datatype Age = Years(n: nat) | Months(n: nat) | Days(n: nat) | Today

  /** `Math.floor(ms / 1000)`, flooring toward minus infinity like JavaScript. */
  function WholeSeconds(elapsedMs: int): (s: int)
    ensures s * 1000 <= elapsedMs < (s + 1) * 1000
  {
    elapsedMs / 1000
  }

  /** `timeAgo` on the milliseconds between the review's creation and now.
      Each unit applies only when strictly more than one whole unit passed. */
  function TimeAgo(elapsedMs: int): (a: Age)
    ensures var s := WholeSeconds(elapsedMs);
            (a.Years? <==> s > SecondsPerYear)
            && (a.Months? <==> SecondsPerMonth < s <= SecondsPerYear)
            && (a.Days? <==> SecondsPerDay < s <= SecondsPerMonth)
            && (a.Today? <==> s <= SecondsPerDay)
    ensures var s := WholeSeconds(elapsedMs);
            (a.Years? ==> a.n >= 1 && a.n * SecondsPerYear <= s < (a.n + 1) * SecondsPerYear)
            && (a.Months? ==> 1 <= a.n <= 12 && a.n * SecondsPerMonth <= s < (a.n + 1) * SecondsPerMonth)
            && (a.Days? ==> 1 <= a.n <= 30 && a.n * SecondsPerDay <= s < (a.n + 1) * SecondsPerDay)
  {
    var s := WholeSeconds(elapsedMs);
    if s > SecondsPerYear then Years(s / SecondsPerYear)
    else if s > SecondsPerMonth then Months(s / SecondsPerMonth)
    else if s > SecondsPerDay then Days(s / SecondsPerDay)
    else Today
  }

  function Unit(a: Age): string {
    match a
    case Years(_) => "y"
    case Months(_) => "mo"
    case Days(_) => "d"
    case Today => ""
  }

  /** The text of an age: the count followed by its unit, or "today". */
  function AgeText(a: Age): (t: string)
    ensures a.Today? <==> t == "today"
    ensures !a.Today? ==> t == NatToString(a.n) + Unit(a)
  {
    if a.Today? then "today"
    else
      var t := NatToString(a.n) + Unit(a);
      assert t[0] == NatToString(a.n)[0] && IsDigit(t[0]);
      t
  }

  /** The count shown in front of the unit reads back as the number of whole
      units elapsed, and the unit tells which of the three it was. */
  lemma AgeTextRoundTrip(elapsedMs: int)
    requires !TimeAgo(elapsedMs).Today?
    ensures var a := TimeAgo(elapsedMs);
            var t := AgeText(a);
            var digits := t[..|t| - |Unit(a)|];
            |Unit(a)| < |t| && AllDigits(digits)
            && DigitsValue(digits) == WholeSeconds(elapsedMs) / (
                 if a.Years? then SecondsPerYear else if a.Months? then SecondsPerMonth else SecondsPerDay)
  {
    var a := TimeAgo(elapsedMs);
    var t := AgeText(a);
    assert t[..|t| - |Unit(a)|] == NatToString(a.n);
    DecimalRoundTrip(a.n);
  }

  /** The strict comparisons at work: exactly one day is still "today", and
      exactly one year is still shown in months. */
  lemma AgeBoundaries()
    ensures AgeText(TimeAgo(SecondsPerDay * 1000)) == "today"
    ensures AgeText(TimeAgo(SecondsPerDay * 1000 + 1000)) == "1d"
    ensures AgeText(TimeAgo(SecondsPerYear * 1000)) == "12mo"
    ensures AgeText(TimeAgo(-5000)) == "today"
  {
    assert NatToString(1) == "1";
    assert NatToString(12) == NatToString(1) + [DigitChar(2)];
  }

  // ---------------------------------------------------------------------
  // Stars
  // ---------------------------------------------------------------------

  /** `Math.round(rating)` of a rating given in half-star units: halves round up. */
  function RoundedStars(halves: int): (r: int)
    ensures 2 * r - 1 <= halves <= 2 * r
  {
    (halves + 1) / 2
  }

  /** Star `star` (1..5) is drawn filled. */
  predicate StarFilled(halves: int, star: int) {
    star <= RoundedStars(halves)
  }

  /** Number of filled stars among the five. */
  function FilledCount(halves: int): (n: nat)
    ensures n <= 5
    ensures forall star :: 1 <= star <= 5 ==> (StarFilled(halves, star) <==> star <= n)
  {
    var r := RoundedStars(halves);
    if r < 0 then 0 else if r > 5 then 5 else r
  }

  /** A stored rating of 0.5..5 stars fills 1..5 stars, and a half star rounds up. */
  lemma StarsForStoredRating(halves: int)
    requires 1 <= halves <= 10
    ensures 1 <= FilledCount(halves) <= 5
    ensures halves % 2 == 0 ==> FilledCount(halves) * 2 == halves
    ensures halves % 2 == 1 ==> FilledCount(halves) * 2 == halves + 1
  {
  }

  // ---------------------------------------------------------------------
  // Badges
  // ---------------------------------------------------------------------

  const VibeThreshold := 75

  /** The badges of a review: "Party Vibe" above 75 social, "Heavy Workload"
      above 75 workload, in that order. */
  function VibeBadges(social: int, workload: int): (r: seq<string>)
    ensures "Party Vibe" in r <==> social > VibeThreshold
    ensures "Heavy Workload" in r <==> workload > VibeThreshold
    ensures |r| <= 2 && (|r| == 2 ==> r == ["Party Vibe", "Heavy Workload"])
    ensures forall b :: b in r ==> b == "Party Vibe" || b == "Heavy Workload"
  {
    (if social > VibeThreshold then ["Party Vibe"] else [])
    + (if workload > VibeThreshold then ["Heavy Workload"] else [])
  }

  /** The badge row is drawn when either vibe passes the threshold. */
  predicate ShowBadgeRow(social: int, workload: int) {
    social > VibeThreshold || workload > VibeThreshold
  }

  /** The row is drawn exactly when it has a badge to show. */
  lemma BadgeRowIffBadges(social: int, workload: int)
    ensures ShowBadgeRow(social, workload) <==> |VibeBadges(social, workload)| > 0
  {
    var r := VibeBadges(social, workload);
    if social > VibeThreshold { assert "Party Vibe" in r; }
    if workload > VibeThreshold { assert "Heavy Workload" in r; }
  }

  // ---------------------------------------------------------------------
  // Author line
  // ---------------------------------------------------------------------

  /** The avatar letter: the major's first character in upper case, or "S". */
  function AvatarLetter(major: string): (r: string)
    ensures |r| == 1
    ensures major == "" ==> r == "S"
    ensures major != "" ==> r[0] == UpperChar(major[0])
  {
    if major == "" then "S" else [UpperChar(major[0])]
  }

  /** `text || fallback`: an empty string gives way to the fallback. */
  function OrElse(text: string, fallback: string): (r: string)
    ensures text != "" ==> r == text
    ensures text == "" ==> r == fallback
  {
    if text == "" then fallback else text
  }

  /** The author name: the major, or "Cal Poly Student" when none was given. */
  function AuthorName(major: string): string {
    OrElse(major, "Cal Poly Student")
  }

  /** The body: the review text, or a placeholder when there is none. */
  function BodyText(text: string): string {
    OrElse(text, "No written review.")
  }

  /** Neither the author line nor the body is ever blank. */
  lemma AuthorAndBodyNeverEmpty(major: string, text: string)
    ensures AuthorName(major) != "" && BodyText(text) != ""
    ensures major != "" ==> AuthorName(major) == major
    ensures text != "" ==> BodyText(text) == text
  {
  }

  /** With a major, the avatar letter is the first letter of the name shown
      beside it; without one the letter is "S" while the name reads "Cal Poly Student". */
  lemma AvatarMatchesAuthor(major: string)
    ensures major != "" ==> AvatarLetter(major)[0] == UpperChar(AuthorName(major)[0])
    ensures major == "" ==> AvatarLetter(major)[0] != UpperChar(AuthorName(major)[0])
  {
    if major == "" {
      assert AuthorName(major)[0] == 'C';
    }
  }

  /** The hue of one avatar gradient stop: `(charCode * 5) % 360`. */
  function Hue(c: char): (h: nat)
    ensures h < 360
    ensures (h - 5 * (c as int)) % 360 == 0
  {
    (c as int * 5) % 360
  }

  /** The two gradient stops, from the first two characters of the review id.
      An id shorter than two characters leaves a stop without a number. */
  function AvatarHues(reviewId: string): (r: (Option<nat>, Option<nat>))
    ensures r.0.Some? <==> |reviewId| >= 1
    ensures r.1.Some? <==> |reviewId| >= 2
    ensures r.0.Some? ==> r.0.value == Hue(reviewId[0])
    ensures r.1.Some? ==> r.1.value == Hue(reviewId[1])
  {
    (if |reviewId| >= 1 then Some(Hue(reviewId[0])) else None,
     if |reviewId| >= 2 then Some(Hue(reviewId[1])) else None)
  }

  // ---------------------------------------------------------------------
  // Reporting
  // ---------------------------------------------------------------------

  datatype Report = Report(reported: bool, loading: bool)

  /** The state a review card starts in: not reported, no call in flight. */
  const NotReported := Report(false, false)

  /** What `mark_review_flagged` answered. */
  datatype FlagAnswer = FlagFailed | Flagged

  /** `handleReport`: nothing once reported; otherwise one call whose success
      marks the review reported. Also says whether the call was issued. */
  function HandleReport(s: Report, answer: FlagAnswer): (r: (Report, bool))
    ensures s.reported ==> r == (s, false)
    ensures !s.reported ==> r.1 && !r.0.loading && (r.0.reported <==> answer == Flagged)
  {
    if s.reported then (s, false)
    else (Report(answer == Flagged, false), true)
  }

  /** Repeated clicks on the report button; returns the final state and the
      answers of the calls that were actually issued. */
  function ReportClicks(s: Report, answers: seq<FlagAnswer>): (Report, seq<FlagAnswer>)
    decreases |answers|
  {
    if |answers| == 0 then (s, [])
    else
      var (next, issued) := HandleReport(s, answers[0]);
      var (last, rest) := ReportClicks(next, answers[1..]);
      (last, if issued then [answers[0]] + rest else rest)
  }

  function CountFlagged(answers: seq<FlagAnswer>): nat
    decreases |answers|
  {
    if |answers| == 0 then 0
    else (if answers[0] == Flagged then 1 else 0) + CountFlagged(answers[1..])
  }

  /** A review ends up reported exactly when it already was or some issued call
      succeeded; once reported, no call goes out, so at most one call succeeds. */
  lemma {:induction false} ReportedAtMostOnce(s: Report, answers: seq<FlagAnswer>)
    ensures var (last, issued) := ReportClicks(s, answers);
            (last.reported <==> s.reported || Flagged in answers)
            && (s.reported ==> issued == [])
            && CountFlagged(issued) <= 1
            && (!s.reported ==> CountFlagged(issued) == (if Flagged in answers then 1 else 0))
            && (s == NotReported ==> (last.reported <==> CountFlagged(issued) == 1))
    decreases |answers|
  {
    if |answers| > 0 {
      var (next, _) := HandleReport(s, answers[0]);
      ReportedAtMostOnce(next, answers[1..]);
      assert answers == [answers[0]] + answers[1..];
      var (_, rest) := ReportClicks(next, answers[1..]);
      assert next.reported ==> rest == [];
    }
  }
}
