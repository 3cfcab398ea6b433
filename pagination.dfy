/** The page-number control shown under a paged list: arrows to the previous
    and next page, and a window of at most seven entries that are page
    numbers or `...` gaps. */
module Pagination {
  import opened Common

  /** One entry of the window: a page button, or the `...` marker. */
  datatype PageItem = Page(n: int) | Ellipsis

  const MaxVisible: int := 7

  /** The page buttons `lo`, `lo + 1`, ..., `hi`, in order. */
  function Range(lo: int, hi: int): (r: seq<PageItem>)
    decreases hi - lo
  {
    if lo > hi then [] else Range(lo, hi - 1) + [Page(hi)]
  }

  lemma {:induction false} RangeIndex(lo: int, hi: int)
    ensures |Range(lo, hi)| == if lo <= hi then hi - lo + 1 else 0
    ensures forall k :: 0 <= k < |Range(lo, hi)| ==> Range(lo, hi)[k] == Page(lo + k)
    decreases hi - lo
  {
    if lo <= hi {
      RangeIndex(lo, hi - 1);
    }
  }

  /** The window for `currentPage` among `totalPages` pages: every page when
      there are at most seven; otherwise the first page, the last page and
      the pages around the current one, with `...` for the pages left out. */
  function PageNumbers(currentPage: int, totalPages: int): seq<PageItem> {
    if totalPages <= MaxVisible then Range(1, totalPages)
    else if currentPage <= 4 then Range(1, 5) + [Ellipsis, Page(totalPages)]
    else if currentPage >= totalPages - 3 then [Page(1), Ellipsis] + Range(totalPages - 4, totalPages)
    else [Page(1), Ellipsis] + Range(currentPage - 1, currentPage + 1) + [Ellipsis, Page(totalPages)]
  }

  /** Appends the page buttons `lo` to `hi` to `pages`, one at a time. */
  method PushRange(pages: seq<PageItem>, lo: int, hi: int) returns (r: seq<PageItem>)
    ensures r == pages + Range(lo, hi)
  {
    r := pages;
    var i := lo;
    while i <= hi
      invariant lo <= i && (i <= hi + 1 || i == lo)
      invariant r == pages + Range(lo, i - 1)
      decreases hi - i
    {
      r := r + [Page(i)];
      i := i + 1;
    }
  }

  /** `getPageNumbers`: builds the window entry by entry. */
  method GetPageNumbers(currentPage: int, totalPages: int) returns (pages: seq<PageItem>)
    ensures pages == PageNumbers(currentPage, totalPages)
  {
    pages := [];
    if totalPages <= MaxVisible {
      pages := PushRange(pages, 1, totalPages);
    } else if currentPage <= 4 {
      pages := PushRange(pages, 1, 5);
      pages := pages + [Ellipsis];
      pages := pages + [Page(totalPages)];
    } else if currentPage >= totalPages - 3 {
      pages := pages + [Page(1)];
      pages := pages + [Ellipsis];
      pages := PushRange(pages, totalPages - 4, totalPages);
    } else {
      pages := pages + [Page(1)];
      pages := pages + [Ellipsis];
      pages := PushRange(pages, currentPage - 1, currentPage + 1);
      pages := pages + [Ellipsis];
      pages := pages + [Page(totalPages)];
    }
  }

  // ---------------------------------------------------------------------------
  // What the window promises
  // ---------------------------------------------------------------------------

  /** The page numbers shown strictly increase from left to right. */
  predicate Increasing(r: seq<PageItem>) {
    forall i, j :: 0 <= i < j < |r| && r[i].Page? && r[j].Page? ==> r[i].n < r[j].n
  }

  /** Every page button names an existing page. */
  predicate InBounds(r: seq<PageItem>, totalPages: int) {
    forall i :: 0 <= i < |r| && r[i].Page? ==> 1 <= r[i].n <= totalPages
  }

  /** Two neighbouring page buttons are consecutive pages, and a `...` sits
      between two page buttons and stands for at least one page. */
  predicate Gapless(r: seq<PageItem>) {
    && (forall i :: 0 <= i < |r| - 1 && r[i].Page? && r[i + 1].Page? ==> r[i + 1].n == r[i].n + 1)
    && (forall i :: 0 <= i < |r| && r[i].Ellipsis? ==>
          0 < i < |r| - 1 && r[i - 1].Page? && r[i + 1].Page? && r[i + 1].n >= r[i - 1].n + 2)
  }

  /** With at most seven pages, the window is exactly the pages 1 to
      `totalPages`, with no `...`. */
  lemma SmallWindow(currentPage: int, totalPages: int)
    requires 0 <= totalPages <= MaxVisible
    ensures var r := PageNumbers(currentPage, totalPages);
      |r| == totalPages && forall i :: 0 <= i < |r| ==> r[i] == Page(i + 1)
  {
    RangeIndex(1, totalPages);
  }

  lemma RangeWellFormed(lo: int, hi: int)
    ensures Increasing(Range(lo, hi)) && Gapless(Range(lo, hi))
    ensures forall i :: 0 <= i < |Range(lo, hi)| ==> Range(lo, hi)[i].Page? && lo <= Range(lo, hi)[i].n <= hi
  {
    RangeIndex(lo, hi);
  }

  /** The properties `WindowShape` promises, for one window. */
  predicate Shaped(r: seq<PageItem>, currentPage: int, totalPages: int) {
    && 1 <= |r| <= MaxVisible
    && r[0] == Page(1) && r[|r| - 1] == Page(totalPages)
    && Increasing(r) && InBounds(r, totalPages) && Gapless(r)
    && (1 <= currentPage <= totalPages ==> Page(currentPage) in r)
  }

  lemma SmallShaped(c: int, t: int)
    requires 1 <= t <= MaxVisible
    ensures Shaped(PageNumbers(c, t), c, t)
  {
    RangeWellFormed(1, t);
    RangeIndex(1, t);
    if 1 <= c <= t {
      assert PageNumbers(c, t)[c - 1] == Page(c);
    }
  }

  lemma FirstShaped(c: int, t: int)
    requires t > MaxVisible && c <= 4
    ensures Shaped(PageNumbers(c, t), c, t)
  {
    RangeIndex(1, 5);
    var r := [Page(1), Page(2), Page(3), Page(4), Page(5), Ellipsis, Page(t)];
    assert PageNumbers(c, t) == r;
    assert forall i :: 0 <= i < 5 ==> r[i] == Page(i + 1);
    if 1 <= c {
      assert r[c - 1] == Page(c);
    }
  }

  lemma LastWindow(c: int, t: int)
    requires t > MaxVisible && 4 < c && c >= t - 3
    ensures PageNumbers(c, t) == [Page(1), Ellipsis, Page(t - 4), Page(t - 3), Page(t - 2), Page(t - 1), Page(t)]
  {
    RangeIndex(t - 4, t);
  }

  lemma LastShaped(c: int, t: int)
    requires t > MaxVisible && 4 < c && c >= t - 3
    ensures Shaped(PageNumbers(c, t), c, t)
  {
    LastWindow(c, t);
    var r := [Page(1), Ellipsis, Page(t - 4), Page(t - 3), Page(t - 2), Page(t - 1), Page(t)];
    assert forall i :: 0 <= i < 7 && r[i].Page? ==> (i == 0 && r[i].n == 1) || (i >= 2 && r[i].n == t - 6 + i);
    if c <= t {
      assert r[c - t + 6] == Page(c);
    }
  }

  lemma MiddleWindow(c: int, t: int)
    requires t > MaxVisible && 4 < c < t - 3
    ensures PageNumbers(c, t) == [Page(1), Ellipsis, Page(c - 1), Page(c), Page(c + 1), Ellipsis, Page(t)]
  {
    RangeIndex(c - 1, c + 1);
  }

  lemma MiddleShaped(c: int, t: int)
    requires t > MaxVisible && 4 < c < t - 3
    ensures Shaped(PageNumbers(c, t), c, t)
  {
    MiddleWindow(c, t);
    var r := [Page(1), Ellipsis, Page(c - 1), Page(c), Page(c + 1), Ellipsis, Page(t)];
    assert forall i :: 0 <= i < 7 && r[i].Page? ==>
      (i == 0 && r[i].n == 1) || (2 <= i <= 4 && r[i].n == c - 3 + i) || (i == 6 && r[i].n == t);
    assert r[3] == Page(c);
  }

  /** For any number of pages the window has at most seven entries, starts
      at page 1 and ends at the last page, shows strictly increasing page
      numbers that all exist, leaves no page out without a `...` in its
      place, and shows the current page whenever that page exists. */
  lemma WindowShape(currentPage: int, totalPages: int)
    requires totalPages >= 1
    ensures var r := PageNumbers(currentPage, totalPages);
      && 1 <= |r| <= MaxVisible
      && r[0] == Page(1) && r[|r| - 1] == Page(totalPages)
      && Increasing(r) && InBounds(r, totalPages) && Gapless(r)
      && (1 <= currentPage <= totalPages ==> Page(currentPage) in r)
  {
    var c, t := currentPage, totalPages;
    if t <= MaxVisible {
      SmallShaped(c, t);
    } else if c <= 4 {
      FirstShaped(c, t);
    } else if c >= t - 3 {
      LastShaped(c, t);
    } else {
      MiddleShaped(c, t);
    }
  }

  // ---------------------------------------------------------------------------
  // The rendered control
  // ---------------------------------------------------------------------------

  /** What the component renders: nothing for at most one page; otherwise
      the arrows, each with whether it is disabled, around the window. */
  datatype Control = Control(prevDisabled: bool, window: seq<PageItem>, nextDisabled: bool)

  function Render(currentPage: int, totalPages: int): (r: Option<Control>)
    ensures r.None? <==> totalPages <= 1
    ensures r.Some? ==> r.value.window == PageNumbers(currentPage, totalPages)
    ensures r.Some? ==> (r.value.prevDisabled <==> currentPage == 1)
    ensures r.Some? ==> (r.value.nextDisabled <==> currentPage == totalPages)
  {
    if totalPages <= 1 then None
    else Some(Control(currentPage == 1, PageNumbers(currentPage, totalPages), currentPage == totalPages))
  }

  /** On a page that exists, an enabled arrow moves to a page that exists,
      and every page button does too. */
  lemma ControlsStayInRange(currentPage: int, totalPages: int)
    requires 1 <= currentPage <= totalPages
    ensures var r := Render(currentPage, totalPages);
      r.Some? ==>
        && (!r.value.prevDisabled ==> 1 <= currentPage - 1 <= totalPages)
        && (!r.value.nextDisabled ==> 1 <= currentPage + 1 <= totalPages)
        && InBounds(r.value.window, totalPages)
  {
    WindowShape(currentPage, totalPages);
  }
}
