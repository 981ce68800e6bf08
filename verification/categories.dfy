/** The category pills of the home page: every tag of every club is trimmed
    and counted (in a map that keeps first-insertion order), the counts are
    sorted in descending order, and "All" is put in front of the ten most
    frequent names. */
module Categories {
  import opened Strings
  import opened Types
  import Listing

  const AllCategories := "All"
  const MaxCategories := 10

  // ---------------------------------------------------------------------
  // The tags that are counted
  // ---------------------------------------------------------------------

  /** `club.CategoryNames ?? []`. */
  function TagsOf(c: Club): seq<string> {
    if c.categoryNames.Some? then c.categoryNames.value else []
  }

  function TrimAll(tags: seq<string>): (r: seq<string>)
    ensures |r| == |tags|
    ensures forall i :: 0 <= i < |tags| ==> r[i] == Trim(tags[i])
  {
    seq(|tags|, i requires 0 <= i < |tags| => Trim(tags[i]))
  }

  /** Every club's tags, trimmed, in the order the nested loops visit them. */
  function TrimmedTags(clubs: seq<Club>): seq<string>
    decreases |clubs|
  {
    if |clubs| == 0 then [] else TrimAll(TagsOf(clubs[0])) + TrimmedTags(clubs[1..])
  }

  /** How often a trimmed category name occurs over the whole catalogue. */
  function TagCount(clubs: seq<Club>, name: string): nat {
    multiset(TrimmedTags(clubs))[name]
  }

  // ---------------------------------------------------------------------
  // The counting map, as a list of (name, count) in insertion order
  // ---------------------------------------------------------------------

  type Entry = (string, nat)

  function Keys(es: seq<Entry>): (r: seq<string>)
    ensures |r| == |es|
    ensures forall i :: 0 <= i < |es| ==> r[i] == es[i].0
  {
    seq(|es|, i requires 0 <= i < |es| => es[i].0)
  }

  predicate DistinctKeys(es: seq<Entry>) {
    forall i, j :: 0 <= i < j < |es| ==> es[i].0 != es[j].0
  }

  /** No entry occurs twice; unlike `DistinctKeys` this survives reordering. */
  ghost predicate NoDuplicates(es: seq<Entry>) {
    forall e :: multiset(es)[e] <= 1
  }

  lemma {:induction false} DistinctKeysNoDuplicates(es: seq<Entry>)
    requires DistinctKeys(es)
    ensures NoDuplicates(es)
    decreases |es|
  {
    if |es| > 0 {
      DistinctKeysNoDuplicates(es[1..]);
      assert es == [es[0]] + es[1..];
      assert es[0] !in es[1..] by {
        forall j | 0 <= j < |es| - 1 ensures es[1..][j] != es[0] {
          assert es[1..][j] == es[j + 1];
        }
      }
    }
  }

  lemma {:induction false} NoDuplicatesDistinct(es: seq<Entry>, i: nat, j: nat)
    requires NoDuplicates(es) && i < j < |es|
    ensures es[i] != es[j]
  {
    var front, back := es[..j], es[j..];
    assert es == front + back;
    assert multiset(es) == multiset(front) + multiset(back);
    assert front[i] == es[i] && back[0] == es[j];
    assert multiset(front)[es[i]] >= 1 && multiset(back)[es[j]] >= 1;
    assert multiset(es)[es[i]] <= 1;
  }

  /** Position of the entry for `t`, or `|es|` when there is none. */
  function IndexOfKey(es: seq<Entry>, t: string): (i: nat)
    ensures i <= |es|
    ensures i < |es| ==> es[i].0 == t
    ensures forall j :: 0 <= j < i ==> es[j].0 != t
    decreases |es|
  {
    if |es| == 0 then 0
    else if es[0].0 == t then 0
    else 1 + IndexOfKey(es[1..], t)
  }

  /** `map.set(t, (map.get(t) || 0) + 1)`: an existing key keeps its place,
      a new key goes last. */
  function Bump(es: seq<Entry>, t: string): seq<Entry> {
    var i := IndexOfKey(es, t);
    if i < |es| then es[i := (t, es[i].1 + 1)] else es + [(t, 1)]
  }

  /** `es` is the counting map after visiting the tags `ts`: one entry per
      distinct tag, holding the number of times it occurs. */
  ghost predicate Tallies(es: seq<Entry>, ts: seq<string>) {
    && DistinctKeys(es)
    && (forall e :: e in es ==> e.0 in ts && e.1 == multiset(ts)[e.0])
    && (forall k :: k in ts ==> (k, multiset(ts)[k]) in es)
  }

  lemma {:induction false} BumpTallies(es: seq<Entry>, ts: seq<string>, t: string)
    requires Tallies(es, ts)
    ensures Tallies(Bump(es, t), ts + [t])
  {
    if IndexOfKey(es, t) < |es| {
      BumpExisting(es, ts, t);
    } else {
      BumpNew(es, ts, t);
    }
  }

  lemma {:induction false} BumpExisting(es: seq<Entry>, ts: seq<string>, t: string)
    requires Tallies(es, ts) && IndexOfKey(es, t) < |es|
    ensures Tallies(Bump(es, t), ts + [t])
  {
    var i := IndexOfKey(es, t);
    BumpAtDistinct(es, i, t);
    BumpAtSound(es, ts, i, t);
    BumpAtComplete(es, ts, i, t);
  }

  lemma BumpAtDistinct(es: seq<Entry>, i: nat, t: string)
    requires DistinctKeys(es) && i < |es| && es[i].0 == t
    ensures DistinctKeys(es[i := (t, es[i].1 + 1)])
  {
    var r := es[i := (t, es[i].1 + 1)];
    forall j, k | 0 <= j < k < |r| ensures r[j].0 != r[k].0 {
      assert r[j].0 == es[j].0 && r[k].0 == es[k].0;
    }
  }

  lemma BumpAtSound(es: seq<Entry>, ts: seq<string>, i: nat, t: string)
    requires Tallies(es, ts) && i < |es| && es[i].0 == t
    ensures forall e :: e in es[i := (t, es[i].1 + 1)] ==>
              e.0 in ts + [t] && e.1 == multiset(ts + [t])[e.0]
  {
    var r := es[i := (t, es[i].1 + 1)];
    var ts' := ts + [t];
    assert multiset(ts') == multiset(ts) + multiset{t};
    assert es[i] in es;
    forall e | e in r ensures e.0 in ts' && e.1 == multiset(ts')[e.0] {
      var j :| 0 <= j < |r| && r[j] == e;
      if j != i {
        assert r[j] == es[j] && es[j] in es;
      }
    }
  }

  lemma BumpAtComplete(es: seq<Entry>, ts: seq<string>, i: nat, t: string)
    requires Tallies(es, ts) && i < |es| && es[i].0 == t
    ensures forall k :: k in ts + [t] ==> (k, multiset(ts + [t])[k]) in es[i := (t, es[i].1 + 1)]
  {
    var r := es[i := (t, es[i].1 + 1)];
    var ts' := ts + [t];
    assert multiset(ts') == multiset(ts) + multiset{t};
    assert es[i] in es;
    forall k | k in ts' ensures (k, multiset(ts')[k]) in r {
      if k == t {
        assert r[i] == (k, multiset(ts')[k]);
      } else {
        assert k in ts;
        var j :| 0 <= j < |es| && es[j] == (k, multiset(ts)[k]);
        assert r[j] == (k, multiset(ts')[k]);
      }
    }
  }

  lemma {:induction false} BumpNew(es: seq<Entry>, ts: seq<string>, t: string)
    requires Tallies(es, ts) && IndexOfKey(es, t) == |es|
    ensures Tallies(Bump(es, t), ts + [t])
  {
    var r := es + [(t, 1)];
    var ts' := ts + [t];
    assert multiset(ts') == multiset(ts) + multiset{t};
    assert t !in ts by {
      assert forall j :: 0 <= j < |es| ==> es[j].0 != t;
      assert (t, multiset(ts)[t]) !in es;
    }
    assert DistinctKeys(r);
    assert forall e :: e in r ==> e.0 in ts' && e.1 == multiset(ts')[e.0] by {
      forall e | e in r ensures e.0 in ts' && e.1 == multiset(ts')[e.0] {
        var j :| 0 <= j < |r| && r[j] == e;
        if j < |es| {
          assert es[j] in es;
        }
      }
    }
    forall k | k in ts' ensures (k, multiset(ts')[k]) in r {
      if k == t {
        assert r[|es|] == (k, multiset(ts')[k]);
      } else {
        assert k in ts;
        var j :| 0 <= j < |es| && es[j] == (k, multiset(ts)[k]);
        assert r[j] == (k, multiset(ts')[k]);
      }
    }
  }

  /** The counting map of the `categories` memo, built tag by tag. */
  function Tally(ts: seq<string>): (r: seq<Entry>)
    ensures Tallies(r, ts)
    decreases |ts|
  {
    if |ts| == 0 then []
    else
      var prefix := ts[..|ts| - 1];
      assert ts == prefix + [ts[|ts| - 1]];
      var earlier := Tally(prefix);
      BumpTallies(earlier, prefix, ts[|ts| - 1]);
      Bump(earlier, ts[|ts| - 1])
  }

  // ---------------------------------------------------------------------
  // Sorting the entries by count, descending
  // ---------------------------------------------------------------------

  predicate ByCountDesc(es: seq<Entry>) {
    forall i, j :: 0 <= i < j < |es| ==> es[i].1 >= es[j].1
  }

  /** Puts `x` in front of the first entry whose count does not exceed its own. */
  function InsertEntry(x: Entry, s: seq<Entry>): (r: seq<Entry>)
    requires ByCountDesc(s)
    ensures ByCountDesc(r)
    ensures multiset(r) == multiset(s) + multiset{x}
    decreases |s|
  {
    if |s| == 0 then [x]
    else if x.1 >= s[0].1 then [x] + s
    else
      var rest := InsertEntry(x, s[1..]);
      KeepHeadEntry(x, s, rest);
      [s[0]] + rest
  }

  /** When `x` goes further down, the head of `s` stays in front of the rest. */
  lemma KeepHeadEntry(x: Entry, s: seq<Entry>, rest: seq<Entry>)
    requires |s| > 0 && ByCountDesc(s) && x.1 < s[0].1
    requires ByCountDesc(rest) && multiset(rest) == multiset(s[1..]) + multiset{x}
    ensures ByCountDesc([s[0]] + rest)
    ensures multiset([s[0]] + rest) == multiset(s) + multiset{x}
  {
    assert s == [s[0]] + s[1..];
    forall j | 0 <= j < |rest| ensures s[0].1 >= rest[j].1 {
      assert rest[j] in multiset(rest);
      if rest[j] != x {
        assert rest[j] in multiset(s[1..]);
        var k :| 0 <= k < |s[1..]| && s[1..][k] == rest[j];
        assert s[k + 1] == rest[j];
      }
    }
    var r := [s[0]] + rest;
    forall i, j | 0 <= i < j < |r| ensures r[i].1 >= r[j].1 {
      if i > 0 {
        assert r[i] == rest[i - 1] && r[j] == rest[j - 1];
      } else {
        assert r[j] == rest[j - 1];
      }
    }
  }

  /** `.sort((a, b) => b[1] - a[1])` on the map's entries. */
  function SortEntries(es: seq<Entry>): (r: seq<Entry>)
    ensures ByCountDesc(r)
    ensures multiset(r) == multiset(es)
    decreases |es|
  {
    if |es| == 0 then []
    else
      assert es == [es[0]] + es[1..];
      InsertEntry(es[0], SortEntries(es[1..]))
  }

  // ---------------------------------------------------------------------
  // The pills
  // ---------------------------------------------------------------------

  /** The entries, sorted, still count every tag exactly once. */
  ghost predicate RankedTally(ranked: seq<Entry>, ts: seq<string>) {
    && ByCountDesc(ranked)
    && NoDuplicates(ranked)
    && (forall e :: e in ranked ==> e.0 in ts && e.1 == multiset(ts)[e.0])
    && (forall k :: k in ts ==> (k, multiset(ts)[k]) in ranked)
  }

  lemma {:induction false} SortedTallyIsRanked(ts: seq<string>)
    ensures RankedTally(SortEntries(Tally(ts)), ts)
  {
    var es := Tally(ts);
    var ranked := SortEntries(es);
    DistinctKeysNoDuplicates(es);
    assert forall e :: e in ranked <==> e in es by {
      forall e ensures e in ranked <==> e in es {
        assert e in ranked <==> e in multiset(ranked);
        assert e in es <==> e in multiset(es);
      }
    }
  }

  /** The names of the first ten entries (fewer when there are fewer). */
  function TopNames(ranked: seq<Entry>): (r: seq<string>)
    ensures |r| <= MaxCategories && |r| <= |ranked|
    ensures forall i :: 0 <= i < |r| ==> r[i] == ranked[i].0
    ensures |r| == MaxCategories || |r| == |ranked|
  {
    Keys(if |ranked| <= MaxCategories then ranked else ranked[..MaxCategories])
  }

  lemma {:induction false} TopNamesRanked(ranked: seq<Entry>, ts: seq<string>)
    requires RankedTally(ranked, ts)
    ensures var n := TopNames(ranked);
            && (forall i :: 0 <= i < |n| ==> n[i] in ts)
            && (forall i, j :: 0 <= i < j < |n| ==> multiset(ts)[n[i]] >= multiset(ts)[n[j]])
            && (forall i, j :: 0 <= i < j < |n| ==> n[i] != n[j])
  {
    var n := TopNames(ranked);
    assert forall i :: 0 <= i < |ranked| ==> ranked[i] in ranked;
    forall i, j | 0 <= i < j < |n| ensures n[i] != n[j] {
      NoDuplicatesDistinct(ranked, i, j);
    }
  }

  lemma {:induction false} TopNamesComplete(ranked: seq<Entry>, ts: seq<string>)
    requires RankedTally(ranked, ts)
    ensures var n := TopNames(ranked);
            forall t :: t in ts ==>
              t in n || (|n| == MaxCategories && forall i :: 0 <= i < |n| ==> multiset(ts)[t] <= multiset(ts)[n[i]])
  {
    var n := TopNames(ranked);
    forall t | t in ts
      ensures t in n || (|n| == MaxCategories && forall i :: 0 <= i < |n| ==> multiset(ts)[t] <= multiset(ts)[n[i]])
    {
      var k :| 0 <= k < |ranked| && ranked[k] == (t, multiset(ts)[t]);
      if k < |n| {
        assert n[k] == t;
      } else {
        assert forall i :: 0 <= i < |n| ==> ranked[i] in ranked && ranked[i].1 >= ranked[k].1;
      }
    }
  }

  /** The `categories` memo: "All", then at most ten category names. */
  function CategoryList(clubs: seq<Club>): (r: seq<string>)
    ensures 1 <= |r| <= MaxCategories + 1 && r[0] == AllCategories
  {
    [AllCategories] + TopNames(SortEntries(Tally(TrimmedTags(clubs))))
  }

  /** After "All" come distinct trimmed category names of the catalogue, in
      non-increasing order of their counts; a trimmed name left out is one of
      lower or equal count, and only when ten names are already shown. */
  lemma {:induction false} CategoryListRanked(clubs: seq<Club>)
    ensures var r := CategoryList(clubs);
            forall i :: 1 <= i < |r| ==> r[i] in TrimmedTags(clubs)
    ensures var r := CategoryList(clubs);
            forall i, j :: 1 <= i < j < |r| ==> TagCount(clubs, r[i]) >= TagCount(clubs, r[j])
    ensures var r := CategoryList(clubs);
            forall i, j :: 1 <= i < j < |r| ==> r[i] != r[j]
    ensures var r := CategoryList(clubs);
            forall t :: t in TrimmedTags(clubs) ==>
              t in r[1..] || (|r| == MaxCategories + 1 && forall i :: 1 <= i < |r| ==> TagCount(clubs, t) <= TagCount(clubs, r[i]))
  {
    PillsAreTags(clubs);
    PillsRanked(clubs);
    PillsDistinct(clubs);
    PillsComplete(clubs);
  }

  /** The pills after "All" are the chosen names, shifted by one place. */
  lemma PillShift(clubs: seq<Club>)
    ensures var ts := TrimmedTags(clubs);
            var n := TopNames(SortEntries(Tally(ts)));
            var r := CategoryList(clubs);
            && |r| == |n| + 1
            && (forall i :: 1 <= i < |r| ==> r[i] == n[i - 1])
            && r[1..] == n
            && (forall x :: TagCount(clubs, x) == multiset(ts)[x])
            && (forall i :: 0 <= i < |n| ==> n[i] in ts)
            && (forall i, j :: 0 <= i < j < |n| ==> multiset(ts)[n[i]] >= multiset(ts)[n[j]])
            && (forall i, j :: 0 <= i < j < |n| ==> n[i] != n[j])
            && (forall t :: t in ts ==>
                  t in n || (|n| == MaxCategories && forall i :: 0 <= i < |n| ==> multiset(ts)[t] <= multiset(ts)[n[i]]))
  {
    var ts := TrimmedTags(clubs);
    var n := TopNames(SortEntries(Tally(ts)));
    TopTrimmedNames(ts);
    assert CategoryList(clubs) == [AllCategories] + n;
  }

  lemma PillsAreTags(clubs: seq<Club>)
    ensures var r := CategoryList(clubs);
            forall i :: 1 <= i < |r| ==> r[i] in TrimmedTags(clubs)
  {
    PillShift(clubs);
  }

  lemma PillsRanked(clubs: seq<Club>)
    ensures var r := CategoryList(clubs);
            forall i, j :: 1 <= i < j < |r| ==> TagCount(clubs, r[i]) >= TagCount(clubs, r[j])
  {
    PillShift(clubs);
  }

  lemma PillsDistinct(clubs: seq<Club>)
    ensures var r := CategoryList(clubs);
            forall i, j :: 1 <= i < j < |r| ==> r[i] != r[j]
  {
    PillShift(clubs);
  }

  lemma PillsComplete(clubs: seq<Club>)
    ensures var r := CategoryList(clubs);
            forall t :: t in TrimmedTags(clubs) ==>
              t in r[1..] || (|r| == MaxCategories + 1 && forall i :: 1 <= i < |r| ==> TagCount(clubs, t) <= TagCount(clubs, r[i]))
  {
    PillShift(clubs);
  }

  /** The names chosen from the sorted tally are tags of `ts`, distinct, in
      non-increasing order of count, and outrank every tag left out. */
  lemma {:induction false} TopTrimmedNames(ts: seq<string>)
    ensures var n := TopNames(SortEntries(Tally(ts)));
            && (forall i :: 0 <= i < |n| ==> n[i] in ts)
            && (forall i, j :: 0 <= i < j < |n| ==> multiset(ts)[n[i]] >= multiset(ts)[n[j]])
            && (forall i, j :: 0 <= i < j < |n| ==> n[i] != n[j])
            && (forall t :: t in ts ==>
                  t in n || (|n| == MaxCategories && forall i :: 0 <= i < |n| ==> multiset(ts)[t] <= multiset(ts)[n[i]]))
  {
    var ranked := SortEntries(Tally(ts));
    SortedTallyIsRanked(ts);
    TopNamesRanked(ranked, ts);
    TopNamesComplete(ranked, ts);
  }

  /** A club whose only tag carries a leading space. */
  function PaddedClub(): Club {
    Club(TextId("1"), "Chess Club", None, None, None, None, Some([" Games"]), None)
  }

  /** One leading space in front of a name that has no white space at either
      end is all that `trim` takes away. */
  lemma {:induction false} TrimOneLeadingSpace(name: string)
    requires |name| > 0 && !IsWhitespace(name[0]) && !IsWhitespace(name[|name| - 1])
    ensures Trim([' '] + name) == name
  {
    var padded := [' '] + name;
    assert padded[0] == ' ' && padded[1..] == name;
    assert TrimStart(padded) == TrimStart(name) == name;
    assert TrimEnd(name) == name;
  }

  lemma PaddedNameTrimmed()
    ensures Trim(" Games") == "Games"
  {
    assert " Games" == [' '] + "Games";
    assert "Games"[0] == 'G' && "Games"[4] == 's';
    TrimOneLeadingSpace("Games");
  }

  lemma PaddedClubTags()
    ensures TrimmedTags([PaddedClub()]) == ["Games"]
  {
    PaddedNameTrimmed();
    assert TrimAll([" Games"]) == ["Games"];
    assert [PaddedClub()][1..] == [];
  }

  lemma PaddedClubSelectsNothing()
    ensures Listing.ProcessClubs([PaddedClub()], map[], "Games", "") == []
  {
    var merged := Listing.MergeStats([PaddedClub()], map[]);
    assert merged == [Listing.Listed(PaddedClub(), None, 0)];
    assert !Listing.HasCategory(PaddedClub(), "Games");
    var kept := Listing.Filter(merged, (l: Listing.Listed) => Listing.HasCategory(l.club, "Games"));
    assert kept == [];
  }

  /** The counts are taken on trimmed names but the filter looks for the name
      untrimmed: a club whose only tag is " Games" makes a "Games" pill that
      then selects no club at all. */
  lemma PaddedTagIsCountedButNotMatched()
    ensures CategoryList([PaddedClub()]) == [AllCategories, "Games"]
    ensures TagCount([PaddedClub()], "Games") == 1
    ensures Listing.ProcessClubs([PaddedClub()], map[], "Games", "") == []
  {
    PaddedClubPill();
    PaddedClubCount();
    PaddedClubSelectsNothing();
  }

  lemma PaddedClubPill()
    ensures CategoryList([PaddedClub()]) == [AllCategories, "Games"]
  {
    PaddedClubTags();
    LoneTagPill([PaddedClub()], "Games");
  }

  /** A catalogue whose trimmed tags are one name gives the pills "All" and
      that name. */
  lemma LoneTagPill(clubs: seq<Club>, t: string)
    requires TrimmedTags(clubs) == [t]
    ensures CategoryList(clubs) == [AllCategories, t]
  {
    LoneTagRanking(t);
    var n := TopNames([(t, 1)]);
    assert |n| == 1 && n[0] == t;
    assert CategoryList(clubs) == [AllCategories] + n;
  }

  lemma LoneTagRanking(t: string)
    ensures SortEntries(Tally([t])) == [(t, 1)]
  {
    assert [t][..0] == [];
    assert Tally([]) == [];
    assert IndexOfKey([], t) == 0;
    assert Bump([], t) == [(t, 1)];
    assert Tally([t]) == [(t, 1)];
    assert SortEntries([(t, 1)]) == InsertEntry((t, 1), []);
  }

  lemma PaddedClubCount()
    ensures TagCount([PaddedClub()], "Games") == 1
  {
    PaddedClubTags();
    assert multiset(["Games"])["Games"] == 1;
  }
}
