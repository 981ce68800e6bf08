/** The home page's club list: the per-club statistics map built from the
    `get_review_stats` answer, the merge of those statistics into the clubs,
    the category and search filters (applied one after the other, so both must
    hold), and the ordering by review count, then name. */
module Listing {
  import opened Strings
  import opened Types

  // ---------------------------------------------------------------------
  // Statistics
  // ---------------------------------------------------------------------

  /** One row of the aggregation answer. The average rating is kept opaque,
      as a whole number of tenths of a star. */
  datatype StatRow = StatRow(clubId: string, avgRating: int, reviewCount: nat)

  datatype Stat = Stat(rating: int, count: nat)

  type Stats = map<string, Stat>

  /** No row after position `i` carries the same club id as row `i`. */
  predicate IsLastForClub(rows: seq<StatRow>, i: nat)
    requires i < |rows|
  {
    forall j :: i < j < |rows| ==> rows[j].clubId != rows[i].clubId
  }

  /** The stats map: each answer row stored under its club id, in order, so
      that a later row with the same id overwrites an earlier one. */
  function BuildStats(rows: seq<StatRow>): (r: Stats)
    ensures |r| <= |rows|
    ensures |rows| > 0 ==>
              rows[|rows| - 1].clubId in r && r[rows[|rows| - 1].clubId] == Stat(rows[|rows| - 1].avgRating, rows[|rows| - 1].reviewCount)
    decreases |rows|
  {
    if |rows| == 0 then map[]
    else
      var last := rows[|rows| - 1];
      BuildStats(rows[..|rows| - 1])[last.clubId := Stat(last.avgRating, last.reviewCount)]
  }

  /** The map has an entry exactly for the club ids that occur in the answer. */
  lemma {:induction false} BuildStatsKeys(rows: seq<StatRow>)
    ensures forall k :: k in BuildStats(rows) <==> exists i :: 0 <= i < |rows| && rows[i].clubId == k
    decreases |rows|
  {
    if |rows| > 0 {
      var prefix := rows[..|rows| - 1];
      BuildStatsKeys(prefix);
      forall k
        ensures k in BuildStats(rows) <==> exists i :: 0 <= i < |rows| && rows[i].clubId == k
      {
        if k in BuildStats(prefix) {
          var i :| 0 <= i < |prefix| && prefix[i].clubId == k;
          assert rows[i].clubId == k;
        }
        if exists i :: 0 <= i < |rows| && rows[i].clubId == k {
          var i :| 0 <= i < |rows| && rows[i].clubId == k;
          if i < |prefix| {
            assert prefix[i].clubId == k;
          }
        }
      }
    }
  }

  /** Each club id maps to the values of the last answer row that carries it. */
  lemma {:induction false} BuildStatsLastRowWins(rows: seq<StatRow>, i: nat)
    requires i < |rows| && IsLastForClub(rows, i)
    ensures rows[i].clubId in BuildStats(rows)
    ensures BuildStats(rows)[rows[i].clubId] == Stat(rows[i].avgRating, rows[i].reviewCount)
    decreases |rows|
  {
    if i < |rows| - 1 {
      var prefix := rows[..|rows| - 1];
      assert prefix[i] == rows[i];
      assert IsLastForClub(prefix, i) by {
        forall j | i < j < |prefix| ensures prefix[j].clubId != prefix[i].clubId {
          assert prefix[j] == rows[j];
        }
      }
      BuildStatsLastRowWins(prefix, i);
      assert rows[|rows| - 1].clubId != rows[i].clubId;
    }
  }

  // ---------------------------------------------------------------------
  // Merge
  // ---------------------------------------------------------------------

  /** A club as the list shows it: with its rating (if any) and review count. */
  datatype Listed = Listed(club: Club, rating: Option<int>, reviewCount: nat)

  /** One club merged with its statistics, looked up by `String(club.Id)`. */
  function Merge(c: Club, stats: Stats): (l: Listed)
    ensures l.club == c
    ensures IdString(c.id) !in stats ==> l.reviewCount == 0 && l.rating.None?
    ensures IdString(c.id) in stats ==>
              l.reviewCount == stats[IdString(c.id)].count && l.rating == Some(stats[IdString(c.id)].rating)
  {
    var key := IdString(c.id);
    if key in stats then Listed(c, Some(stats[key].rating), stats[key].count)
    else Listed(c, None, 0)
  }

  /** Every club merged with its statistics, in catalogue order. */
  function MergeStats(clubs: seq<Club>, stats: Stats): (r: seq<Listed>)
    ensures |r| == |clubs|
    ensures forall i :: 0 <= i < |clubs| ==> r[i] == Merge(clubs[i], stats)
  {
    seq(|clubs|, i requires 0 <= i < |clubs| => Merge(clubs[i], stats))
  }

  /** A club without a statistics entry is listed with no reviews and no rating. */
  lemma MissingStatsDefaultToZero(clubs: seq<Club>, stats: Stats, i: nat)
    requires i < |clubs| && IdString(clubs[i].id) !in stats
    ensures MergeStats(clubs, stats)[i] == Listed(clubs[i], None, 0)
  {
  }

  // ---------------------------------------------------------------------
  // Filters
  // ---------------------------------------------------------------------

  /** `r` can be read off `s` left to right, skipping elements: matching
      each element of `r` with the earliest unused equal element of `s`
      never runs out. */
  predicate IsSubsequence<T(==)>(r: seq<T>, s: seq<T>)
    decreases |s|
  {
    if |r| == 0 then true
    else if |s| == 0 then false
    else if r[0] == s[0] then IsSubsequence(r[1..], s[1..])
    else IsSubsequence(r, s[1..])
  }

  /** `Array.prototype.filter`: keeps, in order, the elements that pass. */
  function Filter<T(!new)>(s: seq<T>, keep: T -> bool): (r: seq<T>)
    ensures forall x :: multiset(r)[x] == if keep(x) then multiset(s)[x] else 0
    ensures forall x :: x in r <==> x in s && keep(x)
    ensures |r| <= |s|
    ensures IsSubsequence(r, s)
    decreases |s|
  {
    if |s| == 0 then []
    else
      var rest := Filter(s[1..], keep);
      assert s == [s[0]] + s[1..];
      if keep(s[0]) then
        assert ([s[0]] + rest)[1..] == rest;
        [s[0]] + rest
      else
        assert |rest| > 0 ==> keep(rest[0]);
        rest
  }

  /** The category filter: the club's own tag list holds the category exactly,
      without trimming. */
  predicate HasCategory(c: Club, category: string) {
    c.categoryNames.Some? && category in c.categoryNames.value
  }

  /** The search filter on an already lower-cased query. */
  predicate MatchesSearch(c: Club, lowerSearch: string) {
    Contains(ToLower(c.name), lowerSearch)
    || (c.shortName.Some? && c.shortName.value != "" && Contains(ToLower(c.shortName.value), lowerSearch))
  }

  /** Both filters together: the category one unless "All" is chosen, the
      search one unless the (debounced) query is empty. */
  predicate Selected(l: Listed, category: string, search: string) {
    (category == "All" || HasCategory(l.club, category))
    && (search == "" || MatchesSearch(l.club, ToLower(search)))
  }

  // ---------------------------------------------------------------------
  // Ordering
  // ---------------------------------------------------------------------

  /** More reviews first; equal counts by name. */
  predicate RanksBefore(a: Listed, b: Listed) {
    a.reviewCount > b.reviewCount || (a.reviewCount == b.reviewCount && LexLe(a.club.name, b.club.name))
  }

  predicate SortedListing(s: seq<Listed>) {
    forall i, j :: 0 <= i < j < |s| ==> RanksBefore(s[i], s[j])
  }

  lemma RanksBeforeTotal(a: Listed, b: Listed)
    ensures RanksBefore(a, b) || RanksBefore(b, a)
  {
    LexLeTotal(a.club.name, b.club.name);
  }

  lemma RanksBeforeTransitive(a: Listed, b: Listed, c: Listed)
    requires RanksBefore(a, b) && RanksBefore(b, c)
    ensures RanksBefore(a, c)
  {
    if a.reviewCount == b.reviewCount == c.reviewCount {
      LexLeTransitive(a.club.name, b.club.name, c.club.name);
    }
  }

  function InsertListed(x: Listed, s: seq<Listed>): (r: seq<Listed>)
    requires SortedListing(s)
    ensures SortedListing(r)
    ensures multiset(r) == multiset(s) + multiset{x}
    decreases |s|
  {
    if |s| == 0 then [x]
    else if RanksBefore(x, s[0]) then
      assert forall j :: 0 <= j < |s| ==> RanksBefore(x, s[j]) by {
        forall j | 0 <= j < |s| ensures RanksBefore(x, s[j]) {
          if j > 0 { RanksBeforeTransitive(x, s[0], s[j]); }
        }
      }
      [x] + s
    else
      var rest := InsertListed(x, s[1..]);
      KeepHeadListed(x, s, rest);
      [s[0]] + rest
  }

  /** When `x` goes further down, the head of `s` stays in front of the rest. */
  lemma KeepHeadListed(x: Listed, s: seq<Listed>, rest: seq<Listed>)
    requires |s| > 0 && SortedListing(s) && !RanksBefore(x, s[0])
    requires SortedListing(rest) && multiset(rest) == multiset(s[1..]) + multiset{x}
    ensures SortedListing([s[0]] + rest)
    ensures multiset([s[0]] + rest) == multiset(s) + multiset{x}
  {
    RanksBeforeTotal(x, s[0]);
    assert s == [s[0]] + s[1..];
    forall j | 0 <= j < |rest| ensures RanksBefore(s[0], rest[j]) {
      assert rest[j] in multiset(rest);
      if rest[j] != x {
        assert rest[j] in multiset(s[1..]);
        var k :| 0 <= k < |s[1..]| && s[1..][k] == rest[j];
        assert s[k + 1] == rest[j];
      }
    }
    var r := [s[0]] + rest;
    forall i, j | 0 <= i < j < |r| ensures RanksBefore(r[i], r[j]) {
      if i > 0 {
        assert r[i] == rest[i - 1] && r[j] == rest[j - 1];
      } else {
        assert r[j] == rest[j - 1];
      }
    }
  }

  /** The list order of the page: review count descending, then name. */
  function SortListing(s: seq<Listed>): (r: seq<Listed>)
    ensures SortedListing(r)
    ensures multiset(r) == multiset(s)
    decreases |s|
  {
    if |s| == 0 then []
    else
      assert s == [s[0]] + s[1..];
      InsertListed(s[0], SortListing(s[1..]))
  }

  // ---------------------------------------------------------------------
  // The processed list
  // ---------------------------------------------------------------------

  /** `processedClubs`: merge, filter by category, filter by search, sort. */
  function ProcessClubs(clubs: seq<Club>, stats: Stats, category: string, search: string): (r: seq<Listed>)
    ensures SortedListing(r)
    ensures forall l :: multiset(r)[l] ==
              if Selected(l, category, search) then multiset(MergeStats(clubs, stats))[l] else 0
  {
    var merged := MergeStats(clubs, stats);
    var byCategory :=
      if category != "All" then Filter(merged, (l: Listed) => HasCategory(l.club, category)) else merged;
    var lowerSearch := ToLower(search);
    var bySearch :=
      if search != "" then Filter(byCategory, (l: Listed) => MatchesSearch(l.club, lowerSearch)) else byCategory;
    SortListing(bySearch)
  }

  /** Every listed club passes both filters, and every merged club that passes
      them is listed. */
  lemma ProcessedAreExactlySelected(clubs: seq<Club>, stats: Stats, category: string, search: string)
    ensures forall l :: l in ProcessClubs(clubs, stats, category, search) <==>
              l in MergeStats(clubs, stats) && Selected(l, category, search)
  {
    var r := ProcessClubs(clubs, stats, category, search);
    forall l
      ensures l in r <==> l in MergeStats(clubs, stats) && Selected(l, category, search)
    {
      assert l in r <==> multiset(r)[l] > 0;
    }
  }

  /** With "All" and no search nothing is dropped: the list is a rearrangement
      of all merged clubs. */
  lemma NoFilterKeepsEveryClub(clubs: seq<Club>, stats: Stats)
    ensures multiset(ProcessClubs(clubs, stats, "All", "")) == multiset(MergeStats(clubs, stats))
    ensures |ProcessClubs(clubs, stats, "All", "")| == |clubs|
  {
    var r := ProcessClubs(clubs, stats, "All", "");
    assert forall l :: Selected(l, "All", "");
    assert multiset(r) == multiset(MergeStats(clubs, stats));
    assert |r| == |multiset(r)|;
  }

  /** The order of the list in the page's own terms. */
  lemma ProcessedOrder(clubs: seq<Club>, stats: Stats, category: string, search: string)
    ensures var r := ProcessClubs(clubs, stats, category, search);
            forall i, j :: 0 <= i < j < |r| ==>
              r[i].reviewCount >= r[j].reviewCount
              && (r[i].reviewCount == r[j].reviewCount ==> LexLe(r[i].club.name, r[j].club.name))
  {
  }
}
