/** Page arithmetic of the blog list: `Array.prototype.slice` as ECMAScript
    defines it, the six-post page slice, the page count, and the five-slot
    window of page-number buttons. */
module Pagination {

  /** Posts shown on one page. */
  const PostsPerPage: nat := 6

  /** Largest number of page-number buttons shown at once. */
  const WindowSize: nat := 5

  function Min(a: int, b: int): int {
    if a <= b then a else b
  }

  /** ECMAScript's resolution of a relative slice index against a length:
      negative indices count from the end, and the result is clamped to [0, len]. */
  function ClampIndex(rel: int, len: nat): (k: nat)
    ensures k <= len
  {
    if rel < 0 then (if len + rel < 0 then 0 else len + rel)
    else if rel < len then rel
    else len
  }

  /** `xs.slice(start, end)`. */
  function JsSlice<T>(xs: seq<T>, start: int, end: int): (r: seq<T>)
    ensures 0 <= start <= end ==> r == xs[Min(start, |xs|)..Min(end, |xs|)]
    ensures 0 <= end <= start ==> r == []
  {
    var from := ClampIndex(start, |xs|);
    var to := ClampIndex(end, |xs|);
    if from < to then xs[from..to] else []
  }

  /** `currentPosts`: the slice from `indexOfFirstPost` to `indexOfLastPost`. */
  function CurrentPosts<T>(filtered: seq<T>, page: int): (r: seq<T>)
    ensures page >= 1 ==> |r| <= PostsPerPage
    ensures page >= 1 ==> r == filtered[Min((page - 1) * PostsPerPage, |filtered|)..Min(page * PostsPerPage, |filtered|)]
    ensures page >= 1 ==> forall k :: 0 <= k < |r| ==> r[k] == filtered[(page - 1) * PostsPerPage + k]
    ensures page >= 1 && (page - 1) * PostsPerPage >= |filtered| ==> r == []
  {
    var last := page * PostsPerPage;
    var first := last - PostsPerPage;
    JsSlice(filtered, first, last)
  }

  /** `totalPages`, `Math.ceil(n / 6)`: the fewest pages of six that hold n posts.
      It is 0, not 1, when there are no posts. */
  function TotalPages(n: nat): (t: nat)
    ensures n <= t * PostsPerPage
    ensures t > 0 ==> (t - 1) * PostsPerPage < n
  {
    (n + PostsPerPage - 1) / PostsPerPage
  }

  /** The pagination bar is rendered only when there is more than one page. */
  predicate ShowsPagination(totalPages: nat) {
    totalPages > 1
  }

  /** More than one page exactly when more than one page's worth of posts match. */
  lemma PaginationShownIff(n: nat)
    ensures ShowsPagination(TotalPages(n)) <==> n > PostsPerPage
  {
  }

  /** The pages 1..t laid end to end. */
  function Pages<T>(filtered: seq<T>, t: nat): seq<T> {
    if t == 0 then [] else Pages(filtered, t - 1) + CurrentPosts(filtered, t)
  }

  lemma {:induction false} PagesPrefix<T>(filtered: seq<T>, t: nat)
    ensures Pages(filtered, t) == filtered[..Min(t * PostsPerPage, |filtered|)]
  {
    if t > 0 {
      PagesPrefix(filtered, t - 1);
      var a := Min((t - 1) * PostsPerPage, |filtered|);
      var b := Min(t * PostsPerPage, |filtered|);
      assert filtered[..a] + filtered[a..b] == filtered[..b];
    }
  }

  /** The pages 1..totalPages, read in order, show every filtered post exactly
      once and in order: nothing is skipped or repeated between pages. */
  lemma {:induction false} PagesCoverFiltered<T>(filtered: seq<T>)
    ensures Pages(filtered, TotalPages(|filtered|)) == filtered
  {
    PagesPrefix(filtered, TotalPages(|filtered|));
    assert filtered[..|filtered|] == filtered;
  }

  /** A page in 1..totalPages is never blank, and every page past it is. */
  lemma PageEmptyIff<T>(filtered: seq<T>, page: int)
    requires page >= 1
    ensures CurrentPosts(filtered, page) == [] <==> page > TotalPages(|filtered|)
  {
    var t := TotalPages(|filtered|);
    if page <= t {
      assert (page - 1) * PostsPerPage <= (t - 1) * PostsPerPage;
    } else {
      assert (page - 1) * PostsPerPage >= t * PostsPerPage;
    }
  }

  /** The number on the i-th page button (0-based), given the current page. */
  function WindowEntry(i: int, currentPage: int, totalPages: nat): int {
    if totalPages <= WindowSize then i + 1
    else if currentPage <= 3 then i + 1
    else if currentPage >= totalPages - 2 then totalPages - 4 + i
    else currentPage - 2 + i
  }

  /** The page-number buttons, left to right. */
  function PageWindow(currentPage: int, totalPages: nat): (w: seq<int>)
    ensures |w| == Min(totalPages, WindowSize)
    ensures forall k :: 0 < k < |w| ==> w[k] == w[k - 1] + 1
    ensures forall k :: 0 <= k < |w| ==> 1 <= w[k] <= totalPages
    ensures 1 <= currentPage <= totalPages ==> currentPage in w
    ensures totalPages <= WindowSize ==> forall p :: 1 <= p <= totalPages ==> p in w
  {
    var w := seq(Min(totalPages, WindowSize), i => WindowEntry(i, currentPage, totalPages));
    assert forall p :: 1 <= p <= totalPages && (totalPages <= WindowSize || p == currentPage) ==> p in w by {
      forall p | 1 <= p <= totalPages && (totalPages <= WindowSize || p == currentPage) ensures p in w {
        var k := p - WindowEntry(0, currentPage, totalPages);
        assert 0 <= k < |w| && w[k] == p;
      }
    }
    w
  }

  /** The page a click on slot `slot` (0-based) of the window moves to: the
      number on that button when the bar and the slot exist; otherwise no
      button was there and the page stays. */
  function ClickSlot(page: int, slot: nat, totalPages: nat): (p: int)
    ensures ShowsPagination(totalPages) && slot < Min(totalPages, WindowSize) ==>
      p == PageWindow(page, totalPages)[slot] && 1 <= p <= totalPages
    ensures !(ShowsPagination(totalPages) && slot < Min(totalPages, WindowSize)) ==> p == page
  {
    if ShowsPagination(totalPages) && slot < Min(totalPages, WindowSize) then
      PageWindow(page, totalPages)[slot]
    else page
  }

  /** Near either end of a long list the window is pinned to that end: pages
      1..5 while the current page is at most 3, and the last five pages while
      it is within two of the last. */
  lemma WindowEnds(currentPage: int, totalPages: nat)
    requires totalPages > WindowSize
    ensures currentPage <= 3 ==> forall k :: 0 <= k < WindowSize ==> PageWindow(currentPage, totalPages)[k] == k + 1
    ensures 3 < currentPage && currentPage >= totalPages - 2 ==>
      forall k :: 0 <= k < WindowSize ==> PageWindow(currentPage, totalPages)[k] == totalPages - WindowSize + 1 + k
  {
  }

  /** Away from both ends of a long list, the current page sits in the middle slot. */
  lemma WindowCentred(currentPage: int, totalPages: nat)
    requires totalPages > WindowSize && 3 < currentPage < totalPages - 2
    ensures PageWindow(currentPage, totalPages)[2] == currentPage
  {
  }
}
