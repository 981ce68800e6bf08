/** The card of one club in the home page grid: the rating badge, the review
    count line, the logo or initial, the description with markup removed, the
    first three tags, and the link to the club's own page. A card is drawn
    from a merged list entry (`Listing.Listed`); its rating is the average in
    tenths of a star. */
module ClubCard {
  import opened Strings
  import opened Types
  import opened Catalog
  import opened Listing

  // ---------------------------------------------------------------------
  // Rating and review count
  // ---------------------------------------------------------------------

  predicate HasReviews(l: Listed) {
    l.reviewCount > 0
  }

  /** The rating badge shows only when there are reviews and a rating; the
      line under the name then always gives a number of reviews. */
  predicate ShowRatingBadge(l: Listed)
    ensures ShowRatingBadge(l) ==> l.rating.Some? && MetaText(l.reviewCount) != "No reviews yet"
    ensures l.reviewCount == 0 ==> !ShowRatingBadge(l)
  {
    HasReviews(l) && l.rating.Some?
  }

  /** `toFixed(1)` of a number held in tenths: whole part, a point, one digit. */
  function RatingText(tenths: int): (t: string)
    ensures tenths >= 0 ==>
              |t| >= 3 && t[|t| - 2] == '.' && t[|t| - 1] == DigitChar(tenths % 10)
              && AllDigits(t[..|t| - 2]) && DigitsValue(t[..|t| - 2]) == tenths / 10
              && (t[0] == '0' ==> t[..|t| - 2] == "0")
    ensures tenths < 0 ==> |t| >= 4 && t[0] == '-' && t[1..] == RatingText(-tenths)
    decreases if tenths < 0 then 1 else 0
  {
    if tenths < 0 then "-" + RatingText(-tenths)
    else
      var whole := NatToString(tenths / 10);
      var t := whole + "." + [DigitChar(tenths % 10)];
      DecimalRoundTrip(tenths / 10);
      assert t[..|t| - 2] == whole && t[0] == whole[0];
      t
  }

  /** Reads a rating text of the form "<digits>.<digit>" back as tenths. */
  function ReadTenths(t: string): (r: Option<int>)
    ensures r.Some? ==> |t| >= 3 && t[|t| - 2] == '.'
  {
    if |t| >= 3 && t[|t| - 2] == '.' && AllDigits(t[..|t| - 2]) && IsDigit(t[|t| - 1]) then
      Some(DigitsValue(t[..|t| - 2]) * 10 + (t[|t| - 1] as int - '0' as int))
    else None
  }

  /** The badge text of a non-negative average reads back as that average. */
  lemma {:induction false} RatingTextRoundTrip(tenths: nat)
    ensures ReadTenths(RatingText(tenths)) == Some(tenths)
  {
    var t := RatingText(tenths);
    var whole := NatToString(tenths / 10);
    assert t[..|t| - 2] == whole;
    assert t[|t| - 2] == '.' && t[|t| - 1] == DigitChar(tenths % 10);
    DecimalRoundTrip(tenths / 10);
  }

  /** The line under the name: "1 review", "N reviews" or "No reviews yet". */
  function MetaText(reviewCount: nat): (t: string)
    ensures reviewCount == 0 <==> t == "No reviews yet"
    ensures reviewCount > 0 ==>
              t == NatToString(reviewCount) + " " + (if reviewCount == 1 then "review" else "reviews")
  {
    if reviewCount > 0 then
      var t := NatToString(reviewCount) + " " + (if reviewCount == 1 then "review" else "reviews");
      assert t[0] == NatToString(reviewCount)[0] && IsDigit(t[0]);
      t
    else "No reviews yet"
  }

  /** The number before the space reads back as the review count, and the
      word is singular exactly for one review. */
  lemma MetaTextRoundTrip(reviewCount: nat)
    requires reviewCount > 0
    ensures var t := MetaText(reviewCount);
            var k := |NatToString(reviewCount)|;
            k < |t| && t[k] == ' ' && AllDigits(t[..k])
            && DigitsValue(t[..k]) == reviewCount
            && (t[k + 1..] == "review" <==> reviewCount == 1)
  {
    var t := MetaText(reviewCount);
    var k := |NatToString(reviewCount)|;
    assert t[..k] == NatToString(reviewCount);
    DecimalRoundTrip(reviewCount);
  }

  // ---------------------------------------------------------------------
  // Logo or initial
  // ---------------------------------------------------------------------

  const ImageBase := "https://se-images.campuslabs.com/clink/images/"
  const ImagePreset := "?preset=large-sq"

  datatype Logo = Picture(url: string) | Letter(text: string)

  /** The first character of the short name, or else of the name (either may be empty). */
  function Initial(c: Club): (r: string)
    ensures |r| <= 1
    ensures c.shortName.Some? && c.shortName.value != "" ==> r == [c.shortName.value[0]]
    ensures !(c.shortName.Some? && c.shortName.value != "") ==>
              (c.name == "" ==> r == "") && (c.name != "" ==> r == [c.name[0]])
  {
    if c.shortName.Some? && c.shortName.value != "" then [c.shortName.value[0]]
    else if c.name != "" then [c.name[0]]
    else ""
  }

  /** The picture when the club has one, else its initial. */
  function CardLogo(c: Club): (r: Logo)
    ensures r.Picture? <==> c.profilePicture.Some? && c.profilePicture.value != ""
    ensures r.Picture? ==>
              |r.url| == |ImageBase| + |c.profilePicture.value| + |ImagePreset|
              && r.url[..|ImageBase|] == ImageBase
              && r.url[|ImageBase|..|r.url| - |ImagePreset|] == c.profilePicture.value
              && r.url[|r.url| - |ImagePreset|..] == ImagePreset
    ensures r.Letter? ==> r.text == Initial(c)
  {
    if c.profilePicture.Some? && c.profilePicture.value != "" then
      Picture(ImageBase + c.profilePicture.value + ImagePreset)
    else Letter(Initial(c))
  }

  // ---------------------------------------------------------------------
  // Description
  // ---------------------------------------------------------------------

  /** What remains after an opening `<`: everything up to and including the
      next `>`, or all of it when no `>` follows, is consumed. */
  function SkipTag(s: string): (r: string)
    ensures |r| <= |s|
    ensures r == s[|s| - |r|..]
    ensures '>' !in s ==> r == []
    ensures '>' in s ==>
              |r| < |s| && s[|s| - |r| - 1] == '>' && forall i :: 0 <= i < |s| - |r| - 1 ==> s[i] != '>'
    decreases |s|
  {
    if |s| == 0 then s
    else if s[0] == '>' then s[1..]
    else SkipTag(s[1..])
  }

  /** The description with every `<...>` removed (`replace(/<[^>]*>?/gm, "")`). */
  function StripTags(s: string): (r: string)
    ensures '<' !in r
    ensures |r| <= |s|
    ensures '<' !in s ==> r == s
    decreases |s|
  {
    if |s| == 0 then s
    else if s[0] == '<' then StripTags(SkipTag(s[1..]))
    else
      assert s == [s[0]] + s[1..];
      [s[0]] + StripTags(s[1..])
  }

  /** Removing markup twice removes nothing more. */
  lemma StripTagsIdempotent(s: string)
    ensures StripTags(StripTags(s)) == StripTags(s)
  {
  }

  /** Plain text, then a closed tag, then anything: the plain text is kept,
      the tag disappears, and stripping goes on with what follows. */
  lemma {:induction false} StripTagsRemovesOneTag(before: string, tag: string, after: string)
    requires '<' !in before && '>' !in tag
    ensures StripTags(before + "<" + tag + ">" + after) == before + StripTags(after)
  {
    var rest := "<" + tag + ">" + after;
    assert before + "<" + tag + ">" + after == before + rest;
    assert rest[0] == '<' && rest[1..] == tag + ">" + after;
    SkipPastTag(tag, after);
    assert SkipTag(tag + ">" + after) == after;
    StripPlainPrefix(before, rest);
    TagAtFront(tag, after);
  }

  /** A closed tag at the very front is dropped. */
  lemma TagAtFront(tag: string, after: string)
    requires '>' !in tag
    ensures StripTags("<" + tag + ">" + after) == StripTags(after)
  {
    var rest := "<" + tag + ">" + after;
    assert rest[0] == '<' && rest[1..] == tag + ">" + after;
    SkipPastTag(tag, after);
  }

  /** Plain text, then a `<` that is never closed: everything from the `<` on
      is dropped. */
  lemma {:induction false} StripTagsDropsUnclosedTag(before: string, tag: string)
    requires '<' !in before && '>' !in tag
    ensures StripTags(before + "<" + tag) == before
  {
    var rest := "<" + tag;
    assert before + "<" + tag == before + rest;
    StripPlainPrefix(before, rest);
    assert rest[0] == '<' && rest[1..] == tag;
    assert SkipTag(tag) == [];
    assert StripTags(rest) == StripTags([]) == [];
    assert before + [] == before;
  }

  /** An element around plain text, like `<p>Hi</p>`, leaves just the text. */
  lemma {:induction false} ElementIsUnwrapped(name: string, text: string)
    requires '>' !in name && '<' !in text
    ensures StripTags("<" + name + ">" + text + "</" + name + ">") == text
  {
    var closing := "</" + name + ">";
    assert "<" + name + ">" + text + "</" + name + ">" == "<" + name + ">" + (text + closing);
    TagAtFront(name, text + closing);
    StripPlainPrefix(text, closing);
    ClosingTagVanishes(name);
    assert text + [] == text;
  }

  /** A closing tag on its own strips to nothing. */
  lemma ClosingTagVanishes(name: string)
    requires '>' !in name
    ensures StripTags("</" + name + ">") == []
  {
    var closing := "</" + name + ">";
    var inner := closing[1..];
    assert closing[0] == '<';
    assert |inner| == |name| + 2 && inner[|inner| - 1] == '>';
    assert forall i :: 1 <= i < |inner| - 1 ==> inner[i] == name[i - 1];
    assert inner[0] == '/';
    assert SkipTag(inner) == [];
  }

  /** Text before the first `<` is kept as it is. */
  lemma {:induction false} StripPlainPrefix(before: string, rest: string)
    requires '<' !in before
    ensures StripTags(before + rest) == before + StripTags(rest)
    decreases |before|
  {
    if |before| > 0 {
      var s := before + rest;
      assert s[0] == before[0] && s[1..] == before[1..] + rest;
      assert before == [before[0]] + before[1..];
      assert before[0] != '<' && '<' !in before[1..];
      assert StripTags(s) == [before[0]] + StripTags(before[1..] + rest);
      StripPlainPrefix(before[1..], rest);
      assert [before[0]] + (before[1..] + StripTags(rest)) == before + StripTags(rest);
    } else {
      assert before + rest == rest;
    }
  }

  lemma {:induction false} SkipPastTag(tag: string, after: string)
    requires '>' !in tag
    ensures SkipTag(tag + ">" + after) == after
    decreases |tag|
  {
    if |tag| == 0 {
      assert (tag + ">" + after)[0] == '>';
      assert (tag + ">" + after)[1..] == after;
    } else {
      assert (tag + ">" + after)[0] == tag[0];
      assert (tag + ">" + after)[1..] == tag[1..] + ">" + after;
      SkipPastTag(tag[1..], after);
    }
  }

  const NoDescription := "No description available."

  /** `Summary || stripped Description || "No description available."`. */
  function DescriptionText(c: Club): (r: string)
    ensures r != ""
    ensures c.summary.Some? && c.summary.value != "" ==> r == c.summary.value
    ensures !(c.summary.Some? && c.summary.value != "") ==>
              if c.description.Some? && StripTags(c.description.value) != "" then
                r == StripTags(c.description.value) && '<' !in r
              else r == NoDescription
  {
    if c.summary.Some? && c.summary.value != "" then c.summary.value
    else if c.description.Some? && StripTags(c.description.value) != "" then StripTags(c.description.value)
    else NoDescription
  }

  /** A description made only of markup falls through to the placeholder. */
  lemma MarkupOnlyDescription(c: Club, tag: string)
    requires c.summary.None? && c.description == Some("<" + tag + ">") && '>' !in tag
    ensures DescriptionText(c) == NoDescription
  {
    StripTagsRemovesOneTag("", tag, "");
    assert "" + "<" + tag + ">" + "" == "<" + tag + ">";
  }

  // ---------------------------------------------------------------------
  // Tags
  // ---------------------------------------------------------------------

  const MaxCardTags := 3

  /** The tag footer: absent for no tags, else the first three tags as written. */
  function CardTags(c: Club): (r: Option<seq<string>>)
    ensures r.None? <==> c.categoryNames.None? || |c.categoryNames.value| == 0
    ensures r.Some? ==>
              1 <= |r.value| <= MaxCardTags && |r.value| <= |c.categoryNames.value|
              && (|r.value| < MaxCardTags ==> r.value == c.categoryNames.value)
              && forall i :: 0 <= i < |r.value| ==> r.value[i] == c.categoryNames.value[i]
  {
    if c.categoryNames.None? || |c.categoryNames.value| == 0 then None
    else
      var tags := c.categoryNames.value;
      Some(if |tags| <= MaxCardTags then tags else tags[..MaxCardTags])
  }

  // ---------------------------------------------------------------------
  // Link
  // ---------------------------------------------------------------------

  const ClubPathPrefix := "/club/"

  /** The card's link, `/club/<Id>`. */
  function CardHref(c: Club): (r: string)
    ensures |r| == |ClubPathPrefix| + |IdString(c.id)|
    ensures r[..|ClubPathPrefix|] == ClubPathPrefix && r[|ClubPathPrefix|..] == IdString(c.id)
  {
    ClubPathPrefix + IdString(c.id)
  }

  /** Following a card's link finds a club with the same identifier text, and,
      when identifiers are distinct, that very club. */
  lemma CardLinkFindsClub(dataset: seq<Club>, k: nat)
    requires k < |dataset|
    ensures var segment := CardHref(dataset[k])[|ClubPathPrefix|..];
            var found := GetClubById(dataset, segment);
            found.Some? && IdString(found.value.id) == IdString(dataset[k].id)
    ensures (forall i, j :: 0 <= i < j < |dataset| ==> IdString(dataset[i].id) != IdString(dataset[j].id)) ==>
              GetClubById(dataset, CardHref(dataset[k])[|ClubPathPrefix|..]) == Some(dataset[k])
  {
    assert dataset[k] in dataset;
    if forall i, j :: 0 <= i < j < |dataset| ==> IdString(dataset[i].id) != IdString(dataset[j].id) {
      LookupReturnsOwner(dataset, k);
    }
  }

  // ---------------------------------------------------------------------
  // A card drawn from a list entry
  // ---------------------------------------------------------------------

  /** A card for a club with no statistics: no badge and "No reviews yet". */
  lemma UnreviewedClubCard(clubs: seq<Club>, stats: Stats, i: nat)
    requires i < |clubs| && IdString(clubs[i].id) !in stats
    ensures var l := MergeStats(clubs, stats)[i];
            !ShowRatingBadge(l) && MetaText(l.reviewCount) == "No reviews yet"
  {
  }

  /** A card for a club with reviews shows the average and the count from its
      statistics entry. */
  lemma ReviewedClubCard(clubs: seq<Club>, stats: Stats, i: nat)
    requires i < |clubs| && IdString(clubs[i].id) in stats
    requires stats[IdString(clubs[i].id)].count > 0
    ensures var l := MergeStats(clubs, stats)[i];
            var st := stats[IdString(clubs[i].id)];
            ShowRatingBadge(l) && l.rating == Some(st.rating)
            && MetaText(l.reviewCount) != "No reviews yet"
            && DigitsValue(MetaText(l.reviewCount)[..|NatToString(st.count)|]) == st.count
  {
    MetaTextRoundTrip(stats[IdString(clubs[i].id)].count);
  }
}
