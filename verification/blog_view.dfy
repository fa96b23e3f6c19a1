/** The blog list as the reader drives it: the query state (category, search
    text, page cursor), the events that change it, and what is on screen. */
module BlogView {
  import opened Blog
  import opened Pagination

  /** The chosen category button, the search box text and the page cursor. */
  datatype Query = Query(category: string, search: string, page: int)

  const InitialQuery: Query := Query(AllCategory, "", 1)

  /** `filteredPosts` for the current query, over the seeded catalog. */
  function Filtered(q: Query): seq<Post> {
    FilterPosts(SamplePosts, q.category, q.search)
  }

  function Total(q: Query): nat {
    TotalPages(|Filtered(q)|)
  }

  /** The posts on screen. */
  function Visible(q: Query): seq<Post> {
    CurrentPosts(Filtered(q), q.page)
  }

  /** The "No articles found" panel replaces the grid when the page is empty. */
  predicate ShowsEmptyState(q: Query) {
    |Visible(q)| == 0
  }

  /** Typing in the search box: the text changes and the page returns to 1. */
  function SetSearch(q: Query, text: string): (q': Query)
    ensures q'.search == text && q'.category == q.category
    ensures q'.page == 1
  {
    q.(search := text, page := 1)
  }

  /** Clicking a category button: the category changes and the page returns to 1. */
  function SelectCategory(q: Query, category: string): (q': Query)
    ensures q'.category == category && q'.search == q.search
    ensures q'.page == 1
  {
    q.(category := category, page := 1)
  }

  /** "Previous" is rendered with the bar and disabled on page 1. */
  predicate PreviousEnabled(q: Query) {
    ShowsPagination(Total(q)) && q.page != 1
  }

  /** "Next" is rendered with the bar and disabled on the last page. */
  predicate NextEnabled(q: Query) {
    ShowsPagination(Total(q)) && q.page != Total(q)
  }

  /** Clicking "Previous"; a disabled or absent button does nothing. */
  function Previous(q: Query): (q': Query)
    ensures q'.category == q.category && q'.search == q.search
    ensures PreviousEnabled(q) ==> q'.page == q.page - 1
    ensures !PreviousEnabled(q) ==> q' == q
  {
    if PreviousEnabled(q) then q.(page := q.page - 1) else q
  }

  /** Clicking "Next"; a disabled or absent button does nothing. */
  function Next(q: Query): (q': Query)
    ensures q'.category == q.category && q'.search == q.search
    ensures NextEnabled(q) ==> q'.page == q.page + 1
    ensures !NextEnabled(q) ==> q' == q
  {
    if NextEnabled(q) then q.(page := q.page + 1) else q
  }

  /** Clicking the page-number button in slot `slot` (0-based) of the window. */
  function ClickPage(q: Query, slot: nat): (q': Query)
    ensures q'.category == q.category && q'.search == q.search
    ensures q'.page == ClickSlot(q.page, slot, Total(q))
  {
    q.(page := ClickSlot(q.page, slot, Total(q)))
  }

  /** Everything the reader can do to the list. */
  datatype Event =
    | TypeSearch(text: string)
    | ChooseCategory(category: string)
    | PageButton(slot: nat)
    | PreviousButton
    | NextButton

  function Apply(q: Query, e: Event): Query {
    match e
    case TypeSearch(text) => SetSearch(q, text)
    case ChooseCategory(c) => SelectCategory(q, c)
    case PageButton(slot) => ClickPage(q, slot)
    case PreviousButton => Previous(q)
    case NextButton => Next(q)
  }

  function ApplyAll(q: Query, es: seq<Event>): Query
    decreases |es|
  {
    if |es| == 0 then q else ApplyAll(Apply(q, es[0]), es[1..])
  }

  /** The page cursor is a real page: 1 when there are no pages, otherwise
      within 1..totalPages. */
  predicate PageInRange(q: Query) {
    1 <= q.page && (q.page <= Total(q) || q.page == 1)
  }

  /** Every event keeps the page cursor in range. */
  lemma ApplyKeepsPageInRange(q: Query, e: Event)
    requires PageInRange(q)
    ensures PageInRange(Apply(q, e))
  {
  }

  /** From the initial state, any sequence of events leaves the page cursor in
      range: the list never points past the last page. */
  lemma {:induction false} PageAlwaysInRange(es: seq<Event>, q: Query)
    requires PageInRange(q)
    ensures PageInRange(ApplyAll(q, es))
    decreases |es|
  {
    if |es| > 0 {
      ApplyKeepsPageInRange(q, es[0]);
      PageAlwaysInRange(es[1..], Apply(q, es[0]));
    }
  }

  lemma InitialInRange()
    ensures PageInRange(InitialQuery)
  {
  }

  /** With the page cursor in range, the grid is empty exactly when nothing
      matches the filters. */
  lemma EmptyStateIffNoMatch(q: Query)
    requires PageInRange(q)
    ensures ShowsEmptyState(q) <==> |Filtered(q)| == 0
  {
    PageEmptyIff(Filtered(q), q.page);
  }

  /** Stepping with enabled "Previous"/"Next" from a page in 1..totalPages
      stays in 1..totalPages. */
  lemma PreviousNextStayInRange(q: Query)
    requires 1 <= q.page <= Total(q)
    ensures 1 <= Previous(q).page <= Total(q)
    ensures 1 <= Next(q).page <= Total(q)
  {
  }
}
