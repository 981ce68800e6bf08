/** What the home page shows of the processed list: the first `visibleCount`
    clubs with a "Show More" button while more remain, and the three
    "Trending Now" clubs when neither a search nor a category is active.
    `visibleCount` starts at 24, grows by 24 per "Show More", and returns to
    24 whenever the (debounced) search or the category changes. */
module Paging {

  const InitialLoad: nat := 24
  const LoadMoreStep: nat := 24
  const FeaturedCount: nat := 3

  function Min(a: nat, b: nat): nat {
    if a <= b then a else b
  }

  /** `processedClubs.slice(0, visibleCount)` and `visibleCount < processedClubs.length`. */
  datatype Window<T> = Window(visible: seq<T>, hasMore: bool)

  function Visible<T>(processed: seq<T>, visibleCount: nat): (w: Window<T>)
    ensures |w.visible| == Min(visibleCount, |processed|)
    ensures forall i :: 0 <= i < |w.visible| ==> w.visible[i] == processed[i]
    ensures w.hasMore <==> visibleCount < |processed|
    ensures !w.hasMore ==> w.visible == processed
    ensures w.hasMore ==> |w.visible| == visibleCount
  {
    Window(processed[..Min(visibleCount, |processed|)], visibleCount < |processed|)
  }

  /** `featuredClubs`: nothing while searching or filtering, otherwise the top three. */
  function Featured<T>(processed: seq<T>, search: string, category: string): (r: seq<T>)
    ensures search != "" || category != "All" ==> r == []
    ensures search == "" && category == "All" ==>
              |r| == Min(FeaturedCount, |processed|) && forall i :: 0 <= i < |r| ==> r[i] == processed[i]
  {
    if search != "" || category != "All" then [] else processed[..Min(FeaturedCount, |processed|)]
  }

  // ---------------------------------------------------------------------
  // The page state that drives the window
  // ---------------------------------------------------------------------

  datatype PageState = PageState(search: string, category: string, visibleCount: nat)

  datatype PageEvent =
    | SetSearch(query: string)      // the debounced search value settles
    | SetCategory(name: string)     // a category pill or "Search in All Categories"
    | ShowMore                      // the "Show More" button
    | ClearEverything               // search back to "" and category back to "All"

  const InitialPage := PageState("", "All", InitialLoad)

  /** A state change, followed by the effect that resets `visibleCount` when
      the search or the category took a new value. */
  function Step(s: PageState, e: PageEvent): (r: PageState)
    ensures e.ShowMore? ==> r == s.(visibleCount := s.visibleCount + LoadMoreStep)
    ensures !e.ShowMore? && (r.search != s.search || r.category != s.category) ==>
              r.visibleCount == InitialLoad
    ensures !e.ShowMore? && r.search == s.search && r.category == s.category ==> r == s
    ensures e.SetSearch? ==> r.search == e.query && r.category == s.category
    ensures e.SetCategory? ==> r.category == e.name && r.search == s.search
    ensures e.ClearEverything? ==> r.search == "" && r.category == "All"
  {
    match e
    case ShowMore => s.(visibleCount := s.visibleCount + LoadMoreStep)
    case _ =>
      var (search, category) :=
        match e
        case SetSearch(q) => (q, s.category)
        case SetCategory(c) => (s.search, c)
        case ClearEverything => ("", "All");
      if search != s.search || category != s.category then PageState(search, category, InitialLoad)
      else s
  }

  function Run(s: PageState, events: seq<PageEvent>): PageState
    decreases |events|
  {
    if |events| == 0 then s else Run(Step(s, events[0]), events[1..])
  }

  /** Whatever happens, the page shows a positive multiple of 24 clubs' worth. */
  lemma {:induction false} VisibleCountIsWholePages(s: PageState, events: seq<PageEvent>)
    requires s.visibleCount >= InitialLoad && s.visibleCount % LoadMoreStep == 0
    ensures var r := Run(s, events);
            r.visibleCount >= InitialLoad && r.visibleCount % LoadMoreStep == 0
    decreases |events|
  {
    if |events| > 0 {
      VisibleCountIsWholePages(Step(s, events[0]), events[1..]);
    }
  }

  function Repeat(e: PageEvent, k: nat): (r: seq<PageEvent>)
    ensures |r| == k && forall i :: 0 <= i < k ==> r[i] == e
  {
    if k == 0 then [] else [e] + Repeat(e, k - 1)
  }

  /** `k` presses of "Show More" add exactly `24 * k` and change nothing else. */
  lemma {:induction false} ShowMoreAddsPages(s: PageState, k: nat)
    ensures Run(s, Repeat(ShowMore, k)) == s.(visibleCount := s.visibleCount + LoadMoreStep * k)
    decreases k
  {
    if k > 0 {
      assert Repeat(ShowMore, k)[1..] == Repeat(ShowMore, k - 1);
      ShowMoreAddsPages(Step(s, ShowMore), k - 1);
    }
  }

  /** From a fresh page, `n / 24` presses of "Show More" reveal the whole list. */
  lemma EnoughShowMoreRevealsAll<T>(processed: seq<T>, search: string, category: string)
    ensures var s := Run(PageState(search, category, InitialLoad), Repeat(ShowMore, |processed| / LoadMoreStep));
            var w := Visible(processed, s.visibleCount);
            !w.hasMore && w.visible == processed
  {
    ShowMoreAddsPages(PageState(search, category, InitialLoad), |processed| / LoadMoreStep);
  }

  /** When "Trending Now" shows, its clubs are the first cards of the grid too. */
  lemma FeaturedLeadsTheGrid<T>(processed: seq<T>, s: PageState)
    requires s.visibleCount >= InitialLoad
    ensures var f := Featured(processed, s.search, s.category);
            var w := Visible(processed, s.visibleCount);
            |f| <= |w.visible| && f == w.visible[..|f|]
  {
  }
}
