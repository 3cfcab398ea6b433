/** The list on the public home page: the keyword filter, the category tabs
    with their counts, the paging of the filtered list and the texts of the
    batch copy. The admin copy of the home page reuses these pieces; the
    management page reuses the tab counts and the batch-copy texts over
    records that carry no file name (see `AdminListing`). */
module HomeListing {
  import opened Common
  import opened Seqs

  /** The tab that shows every page. */
  const All: string := "全部"

  const ItemsPerPage: nat := 21

  /** A listed page, as the list reads it; `categories` is `None` when the
      page has no category array. */
  datatype Page = Page(pageId: string, title: string, description: string,
                       categories: Option<seq<string>>, fileName: string)

  // ---------------------------------------------------------------------------
  // Filtering
  // ---------------------------------------------------------------------------

  /** `page.title && page.title.toLowerCase().includes(keyword)`, and the same
      for the description. */
  predicate MatchesKeyword(page: Page, keyword: string) {
    || (page.title != "" && Contains(ToLower(page.title), keyword))
    || (page.description != "" && Contains(ToLower(page.description), keyword))
  }

  /** `page.categories && page.categories.includes(category)` */
  predicate HasCategory(page: Page, category: string) {
    page.categories.Some? && category in page.categories.value
  }

  /** The keyword step: a blank keyword keeps every page; otherwise the
      keyword is lower-cased and trimmed and a page stays when its title or
      description contains it. */
  function KeywordFiltered(pages: seq<Page>, searchKeyword: string): seq<Page> {
    if Trim(searchKeyword) != "" then
      var keyword := Trim(ToLower(searchKeyword));
      Filter(pages, page => MatchesKeyword(page, keyword))
    else pages
  }

  /** The category step: `全部` keeps every page, any other tab the pages
      that carry it. */
  function CategoryFiltered(pages: seq<Page>, category: string): seq<Page> {
    if category != All then Filter(pages, page => HasCategory(page, category)) else pages
  }

  /** `filteredPages`: the keyword step, then the category step. */
  function FilteredPages(allPages: seq<Page>, category: string, searchKeyword: string): seq<Page> {
    CategoryFiltered(KeywordFiltered(allPages, searchKeyword), category)
  }

  /** A page passes the keyword step exactly when the trimmed keyword is
      blank or the page matches it, and the step keeps the order. */
  lemma KeywordFilteredSpec(pages: seq<Page>, searchKeyword: string)
    ensures var r := KeywordFiltered(pages, searchKeyword);
      && SubsequenceOf(r, pages)
      && forall page :: page in r <==>
           page in pages && (Trim(searchKeyword) == "" || MatchesKeyword(page, Trim(ToLower(searchKeyword))))
  {
    if Trim(searchKeyword) != "" {
      var keyword := Trim(ToLower(searchKeyword));
      FilterKeeps(pages, page => MatchesKeyword(page, keyword));
    } else {
      SubsequenceOfSelf(pages);
    }
  }

  /** `filteredPages` is the pages that pass both steps, in their order in
      `allPages`: a page is listed exactly when the keyword is blank or
      matches it and the tab is `全部` or one of its categories. */
  lemma FilteredPagesSpec(allPages: seq<Page>, category: string, searchKeyword: string)
    ensures var r := FilteredPages(allPages, category, searchKeyword);
      && SubsequenceOf(r, allPages)
      && forall page :: page in r <==>
           && page in allPages
           && (Trim(searchKeyword) == "" || MatchesKeyword(page, Trim(ToLower(searchKeyword))))
           && (category == All || HasCategory(page, category))
  {
    var k := KeywordFiltered(allPages, searchKeyword);
    KeywordFilteredSpec(allPages, searchKeyword);
    if category != All {
      FilterKeeps(k, page => HasCategory(page, category));
      SubsequenceTrans(FilteredPages(allPages, category, searchKeyword), k, allPages);
    }
  }

  // ---------------------------------------------------------------------------
  // Tab counts
  // ---------------------------------------------------------------------------

  /** How often `category` is listed by `page`. */
  function Tags(page: Page, category: string): nat {
    if page.categories.Some? then Count(page.categories.value, category) else 0
  }

  /** How often `category` is listed over all of `pages`. */
  function TagTotal(pages: seq<Page>, category: string): nat {
    if pages == [] then 0 else TagTotal(pages[..|pages| - 1], category) + Tags(pages[|pages| - 1], category)
  }

  /** A category is counted at all exactly when some page carries it. */
  lemma {:induction false} TagTotalPositive(pages: seq<Page>, category: string)
    ensures TagTotal(pages, category) > 0 <==> exists i :: 0 <= i < |pages| && HasCategory(pages[i], category)
  {
    if pages != [] {
      var init := pages[..|pages| - 1];
      TagTotalPositive(init, category);
      if TagTotal(init, category) > 0 {
        var i :| 0 <= i < |init| && HasCategory(init[i], category);
        assert pages[i] == init[i];
      }
      forall i | 0 <= i < |pages| - 1 ensures pages[i] == init[i] { }
    }
  }

  /** The entry a tab shows for `category` when the counts are taken over
      `pages`: the number of pages for `全部`, plus, for every tab, how often
      the pages list that category. */
  function TabCount(pages: seq<Page>, category: string): nat {
    TagTotal(pages, category) + (if category == All then |pages| else 0)
  }

  /** The counts once the loop has gone through `pages`; `n` is the number
      of pages the `全部` entry starts from. */
  ghost predicate TalliedSoFar(counts: map<string, nat>, pages: seq<Page>, n: nat) {
    && (forall c :: c in counts <==> c == All || TagTotal(pages, c) > 0)
    && (forall c :: c in counts ==> counts[c] == TagTotal(pages, c) + (if c == All then n else 0))
  }

  /** `next` holds the counts of `counts` with the page's categories added. */
  ghost predicate AddsTags(counts: map<string, nat>, next: map<string, nat>, page: Page) {
    && (forall c :: c in next <==> c in counts || Tags(page, c) > 0)
    && (forall c :: c in next ==> next[c] == (if c in counts then counts[c] else 0) + Tags(page, c))
  }

  /** Adding a page's categories to the counts of the pages before it counts
      that page too. */
  lemma TallyPage(counts: map<string, nat>, next: map<string, nat>, pages: seq<Page>, page: Page, n: nat)
    requires TalliedSoFar(counts, pages, n) && AddsTags(counts, next, page)
    ensures TalliedSoFar(next, pages + [page], n)
  {
    assert (pages + [page])[..|pages|] == pages;
  }

  /** `next` holds the counts of `counts` with each entry of `cats` added. */
  ghost predicate AddsCounts(counts: map<string, nat>, next: map<string, nat>, cats: seq<string>) {
    && (forall c :: c in next <==> c in counts || Count(cats, c) > 0)
    && (forall c :: c in next ==> next[c] == (if c in counts then counts[c] else 0) + Count(cats, c))
  }

  /** One step of the inner loop: adding one to `cat`'s entry counts it. */
  lemma AddOneTag(counts: map<string, nat>, next: map<string, nat>, cats: seq<string>, cat: string)
    requires AddsCounts(counts, next, cats)
    ensures AddsCounts(counts, next[cat := (if cat in next then next[cat] else 0) + 1], cats + [cat])
  {
    forall c ensures Count(cats + [cat], c) == Count(cats, c) + (if c == cat then 1 else 0) {
      CountAppend(cats, [cat], c);
    }
  }

  /** The inner `forEach` over one page's categories: adds one to the entry
      of each category it lists, creating the entry at one when it is
      missing. */
  method AddPageTags(counts: map<string, nat>, page: Page) returns (next: map<string, nat>)
    ensures forall c :: c in next <==> c in counts || Tags(page, c) > 0
    ensures forall c :: c in next ==> next[c] == (if c in counts then counts[c] else 0) + Tags(page, c)
  {
    next := counts;
    if page.categories.Some? {
      var cats := page.categories.value;
      for j := 0 to |cats|
        invariant AddsCounts(counts, next, cats[..j])
      {
        var cat := cats[j];
        assert cats[..j + 1] == cats[..j] + [cat];
        AddOneTag(counts, next, cats[..j], cat);
        next := next[cat := (if cat in next then next[cat] else 0) + 1];
      }
      assert cats[..|cats|] == cats;
      assert AddsCounts(counts, next, cats);
    }
  }

  /** The nested `forEach` of `categoryCounts`: starts from
      `{ '全部': pages.length }` and adds one to a category's entry for every
      time a page lists it. The result has an entry for `全部` and for every
      category some page lists, and nothing else. */
  method CountTabs(pagesToCount: seq<Page>) returns (counts: map<string, nat>)
    ensures forall c :: c in counts <==> c == All || TagTotal(pagesToCount, c) > 0
    ensures forall c :: c in counts ==> counts[c] == TabCount(pagesToCount, c)
  {
    var n := |pagesToCount|;
    counts := map[All := n];
    for i := 0 to n
      invariant TalliedSoFar(counts, pagesToCount[..i], n)
    {
      var page := pagesToCount[i];
      assert pagesToCount[..i + 1] == pagesToCount[..i] + [page];
      var next := AddPageTags(counts, page);
      TallyPage(counts, next, pagesToCount[..i], page, n);
      counts := next;
    }
    assert pagesToCount[..n] == pagesToCount;
  }

  /** `categoryCounts` of the public home page: the tabs counted over the
      pages that pass the keyword step, whichever tab is selected. */
  method CategoryCounts(allPages: seq<Page>, searchKeyword: string) returns (counts: map<string, nat>)
    ensures var pagesToCount := KeywordFiltered(allPages, searchKeyword);
      && (forall c :: c in counts <==> c == All || TagTotal(pagesToCount, c) > 0)
      && (forall c :: c in counts ==> counts[c] == TabCount(pagesToCount, c))
  {
    counts := CountTabs(KeywordFiltered(allPages, searchKeyword));
  }

  /** Every page in the list under a tab is counted on that tab at least
      once, so a tab's count is never below the length of its list. */
  lemma {:induction false} TagTotalCoversFilter(pages: seq<Page>, category: string)
    ensures |Filter(pages, page => HasCategory(page, category))| <= TagTotal(pages, category)
  {
    if pages != [] {
      var init, last := pages[..|pages| - 1], pages[|pages| - 1];
      TagTotalCoversFilter(init, category);
      FilterSnoc(init, last, page => HasCategory(page, category));
      assert pages == init + [last];
    }
  }

  /** The page count of a tab is exactly the length of its list when no page
      lists that category twice and no page lists `全部`. */
  lemma {:induction false} TagTotalIsFilter(pages: seq<Page>, category: string)
    requires forall i :: 0 <= i < |pages| ==> Tags(pages[i], category) <= 1
    ensures |Filter(pages, page => HasCategory(page, category))| == TagTotal(pages, category)
  {
    if pages != [] {
      var init, last := pages[..|pages| - 1], pages[|pages| - 1];
      assert forall i :: 0 <= i < |init| ==> init[i] == pages[i];
      TagTotalIsFilter(init, category);
      FilterSnoc(init, last, page => HasCategory(page, category));
      assert pages == init + [last];
    }
  }

  /** On the public home page, the count on a tab is the number of pages the
      tab then lists, provided no page lists a category twice and no page
      lists `全部` as a category; in general it is never smaller. */
  lemma TabCountMatchesList(allPages: seq<Page>, category: string, searchKeyword: string)
    ensures |FilteredPages(allPages, category, searchKeyword)| <= TabCount(KeywordFiltered(allPages, searchKeyword), category)
    ensures (forall i :: 0 <= i < |allPages| ==> Tags(allPages[i], category) <= 1 && Tags(allPages[i], All) == 0) ==>
      |FilteredPages(allPages, category, searchKeyword)| == TabCount(KeywordFiltered(allPages, searchKeyword), category)
  {
    var k := KeywordFiltered(allPages, searchKeyword);
    KeywordFilteredSpec(allPages, searchKeyword);
    if category != All {
      TagTotalCoversFilter(k, category);
    }
    if forall i :: 0 <= i < |allPages| ==> Tags(allPages[i], category) <= 1 && Tags(allPages[i], All) == 0 {
      forall i | 0 <= i < |k| ensures Tags(k[i], category) <= 1 && Tags(k[i], All) == 0 {
        assert k[i] in allPages;
      }
      if category != All {
        TagTotalIsFilter(k, category);
      } else {
        TagTotalNone(k, All);
      }
    }
  }

  lemma {:induction false} TagTotalNone(pages: seq<Page>, category: string)
    requires forall i :: 0 <= i < |pages| ==> Tags(pages[i], category) == 0
    ensures TagTotal(pages, category) == 0
  {
    if pages != [] {
      assert forall i :: 0 <= i < |pages| - 1 ==> pages[..|pages| - 1][i] == pages[i];
      TagTotalNone(pages[..|pages| - 1], category);
    }
  }

  // ---------------------------------------------------------------------------
  // Paging
  // ---------------------------------------------------------------------------

  /** `Math.ceil(n / size)` */
  function PageCount(n: nat, size: nat): (r: nat)
    requires size > 0
    ensures r * size >= n && (r == 0 || (r - 1) * size < n)
  {
    (n + size - 1) / size
  }

  /** A position for `slice`: a negative one counts from the end, and both
      kinds are clamped to the list. */
  function SliceIndex(len: nat, k: int): (r: nat)
    ensures r <= len
  {
    if k < 0 then (if len + k < 0 then 0 else len + k) else if k > len then len else k
  }

  /** `xs.slice(start, end)` */
  function Slice<T>(xs: seq<T>, start: int, end: int): seq<T> {
    var from, to := SliceIndex(|xs|, start), SliceIndex(|xs|, end);
    if from < to then xs[from..to] else []
  }

  /** The items shown on page `currentPage`: the slice from
      `(currentPage - 1) * size`, `size` items long. */
  function PageSlice<T>(xs: seq<T>, currentPage: int, size: nat): seq<T> {
    Slice(xs, (currentPage - 1) * size, (currentPage - 1) * size + size)
  }

  /** A page that exists shows between one and `size` items, the ones from
      position `(currentPage - 1) * size` on; a page past the last shows
      nothing. */
  lemma PageSliceSpec<T>(xs: seq<T>, currentPage: int, size: nat)
    requires size > 0
    ensures var s := PageSlice(xs, currentPage, size);
      && |s| <= size
      && (1 <= currentPage <= PageCount(|xs|, size) ==>
            && 1 <= |s|
            && s == xs[(currentPage - 1) * size .. (if currentPage * size <= |xs| then currentPage * size else |xs|)])
      && (currentPage > PageCount(|xs|, size) ==> s == [])
  {
    var count := PageCount(|xs|, size);
    var lo := (currentPage - 1) * size;
    if currentPage < 1 {
      MulMono(currentPage, 0, size);
      assert lo == currentPage * size - size;
    } else {
      MulMono(0, currentPage - 1, size);
      assert lo + size == currentPage * size;
      SliceWindow(xs, lo, size);
      if currentPage <= count {
        MulMono(currentPage - 1, count - 1, size);
      } else {
        MulMono(count, currentPage - 1, size);
      }
    }
  }

  /** A slice that starts at a position of the list or past it. */
  lemma SliceWindow<T>(xs: seq<T>, lo: nat, size: nat)
    ensures Slice(xs, lo, lo + size)
      == xs[(if lo <= |xs| then lo else |xs|)..(if lo + size <= |xs| then lo + size else |xs|)]
  {
  }

  lemma MulMono(a: int, b: int, size: nat)
    requires a <= b
    ensures a * size <= b * size
  {
    assert b * size - a * size == (b - a) * size;
  }

  /** The items of pages 1 to `k`, one page after another. */
  function FirstPages<T>(xs: seq<T>, size: nat, k: nat): seq<T> {
    if k == 0 then [] else FirstPages(xs, size, k - 1) + PageSlice(xs, k, size)
  }

  /** Paging loses and repeats nothing: the pages 1 to `totalPages`, read one
      after the other, are the whole list. */
  lemma PagesCoverList<T>(xs: seq<T>, size: nat)
    requires size > 0
    ensures FirstPages(xs, size, PageCount(|xs|, size)) == xs
  {
    FirstPagesPrefix(xs, size, PageCount(|xs|, size));
  }

  lemma {:induction false} FirstPagesPrefix<T>(xs: seq<T>, size: nat, k: nat)
    requires size > 0
    ensures FirstPages(xs, size, k) == xs[..if k * size <= |xs| then k * size else |xs|]
  {
    if k > 0 {
      FirstPagesPrefix(xs, size, k - 1);
      var lo := (k - 1) * size;
      MulMono(0, k - 1, size);
      assert lo + size == k * size;
      var a := if lo <= |xs| then lo else |xs|;
      var b := if k * size <= |xs| then k * size else |xs|;
      SliceWindow(xs, lo, size);
      assert PageSlice(xs, k, size) == xs[a..b];
      assert xs[..a] + xs[a..b] == xs[..b];
    }
  }

  /** Keeping the page number when the keyword changes, as `SetKeyword`
      does: a page that existed under the old keyword shows nothing under a
      new keyword that leaves one page of results or fewer, although some
      pages match. */
  lemma StaleKeywordPage(pages: seq<Page>, category: string, before: string, after: string, p: int)
    requires 2 <= p <= PageCount(|FilteredPages(pages, category, before)|, ItemsPerPage)
    requires 0 < |FilteredPages(pages, category, after)| <= ItemsPerPage
    ensures PageSlice(FilteredPages(pages, category, before), p, ItemsPerPage) != []
    ensures PageSlice(FilteredPages(pages, category, after), p, ItemsPerPage) == []
  {
    PageSliceSpec(FilteredPages(pages, category, before), p, ItemsPerPage);
    PageSliceSpec(FilteredPages(pages, category, after), p, ItemsPerPage);
  }

  /** A list with items shows some on page 1. */
  lemma FirstPageShows<T>(xs: seq<T>)
    requires xs != []
    ensures PageSlice(xs, 1, ItemsPerPage) != []
  {
    PageSliceSpec(xs, 1, ItemsPerPage);
  }

  lemma {:induction false} NonePass<T>(xs: seq<T>, p: T -> bool)
    requires forall i :: 0 <= i < |xs| ==> !p(xs[i])
    ensures Filter(xs, p) == []
  {
    if xs != [] {
      NonePass(xs[1..], p);
    }
  }

  /** The input that shows it: 21 pages without title or description and
      then one titled `b`. */
  const UntitledPage: Page := Page("p", "", "", None, "p.html")
  const TitledPage: Page := Page("q", "b", "", None, "q.html")

  function ExamplePages(): (pages: seq<Page>)
    ensures |pages| == 22 && pages[21] == TitledPage
  {
    seq(21, _ => UntitledPage) + [TitledPage]
  }

  lemma LastOfTwentyTwo<T>(xs: seq<T>)
    requires |xs| == 22
    ensures PageSlice(xs, 2, ItemsPerPage) == [xs[21]]
  {
    assert xs[21..22] == [xs[21]];
  }

  /** Typing `b` leaves one result. */
  lemma ExampleKeywordFilter()
    ensures FilteredPages(ExamplePages(), All, "b") == [TitledPage]
  {
    var blanks := seq(21, _ => UntitledPage);
    assert ExamplePages() == blanks + [TitledPage];
    KeywordB();
    KeywordFilteredNone(blanks, "b");
    KeywordFilteredSnoc(blanks, TitledPage, "b");
  }

  /** A keyword no page matches leaves nothing. */
  lemma KeywordFilteredNone(pages: seq<Page>, searchKeyword: string)
    requires Trim(searchKeyword) != ""
    requires forall i :: 0 <= i < |pages| ==> !MatchesKeyword(pages[i], Trim(ToLower(searchKeyword)))
    ensures KeywordFiltered(pages, searchKeyword) == []
  {
    var keyword := Trim(ToLower(searchKeyword));
    NonePass(pages, page => MatchesKeyword(page, keyword));
  }

  /** The keyword step over one more page keeps the earlier result and adds
      the page when it passes. */
  lemma KeywordFilteredSnoc(pages: seq<Page>, page: Page, searchKeyword: string)
    ensures KeywordFiltered(pages + [page], searchKeyword) == KeywordFiltered(pages, searchKeyword)
      + (if Trim(searchKeyword) == "" || MatchesKeyword(page, Trim(ToLower(searchKeyword))) then [page] else [])
  {
    if Trim(searchKeyword) != "" {
      var keyword := Trim(ToLower(searchKeyword));
      FilterSnoc(pages, page, p => MatchesKeyword(p, keyword));
    }
  }

  /** The keyword `b` is kept as it is, and only the titled page matches it. */
  lemma KeywordB()
    ensures Trim("b") == "b" && Trim(ToLower("b")) == "b"
    ensures MatchesKeyword(TitledPage, "b") && !MatchesKeyword(UntitledPage, "b")
  {
    assert ToLower("b") == "b";
    assert StartsWith("b", "b");
  }

  /** On page 2 the example shows the `b` page until `b` is typed, and then
      nothing, though the `b` page is the one result. */
  lemma StaleKeywordExample()
    ensures PageSlice(FilteredPages(ExamplePages(), All, ""), 2, ItemsPerPage) == [TitledPage]
    ensures FilteredPages(ExamplePages(), All, "b") == [TitledPage]
    ensures PageSlice(FilteredPages(ExamplePages(), All, "b"), 2, ItemsPerPage) == []
  {
    var pages := ExamplePages();
    assert Trim("") == "";
    assert FilteredPages(pages, All, "") == pages;
    LastOfTwentyTwo(pages);
    ExampleKeywordFilter();
  }

  // ---------------------------------------------------------------------------
  // Batch copy
  // ---------------------------------------------------------------------------

  /** The two formats of the batch copy: `'links'`, and anything else. */
  datatype CopyFormat = Links | Full

  /** `baseUrl || window.location.origin` */
  function EffectiveBase(baseUrl: string, origin: string): string {
    if baseUrl != "" then baseUrl else origin
  }

  /** Where a listed page is published. */
  function ReportLink(base: string, page: Page): string {
    base + "/reports/" + page.fileName
  }

  function LinkLines(pages: seq<Page>, base: string): (r: seq<string>)
    ensures |r| == |pages|
    ensures forall i :: 0 <= i < |pages| ==> r[i] == ReportLink(base, pages[i])
  {
    if pages == [] then [] else [ReportLink(base, pages[0])] + LinkLines(pages[1..], base)
  }

  /** The record of one page in the full format. */
  function FullRecord(base: string, page: Page): string {
    "標題: " + page.title + "\n描述: " + (if page.description != "" then page.description else "無")
      + "\n連結: " + ReportLink(base, page)
  }

  function FullRecords(pages: seq<Page>, base: string): (r: seq<string>)
    ensures |r| == |pages|
    ensures forall i :: 0 <= i < |pages| ==> r[i] == FullRecord(base, pages[i])
  {
    if pages == [] then [] else [FullRecord(base, pages[0])] + FullRecords(pages[1..], base)
  }

  /** `handleBatchCopy`: nothing is copied for an empty list; otherwise one
      link per line, or one record per page with a blank line between
      records. */
  function BatchCopyText(filteredPages: seq<Page>, format: CopyFormat, baseUrl: string, origin: string)
    : (r: Option<string>)
    ensures r.None? <==> filteredPages == []
  {
    if filteredPages == [] then None
    else
      var base := EffectiveBase(baseUrl, origin);
      match format
      case Links => Some(Join(LinkLines(filteredPages, base), "\n"))
      case Full => Some(Join(FullRecords(filteredPages, base), "\n\n"))
  }

  /** Split at its line breaks, the copied links are the links of the listed
      pages, one each and in list order, when neither the base nor any file
      name holds a line break. */
  lemma LinksRoundTrip(filteredPages: seq<Page>, baseUrl: string, origin: string)
    requires filteredPages != []
    requires '\n' !in EffectiveBase(baseUrl, origin)
    requires forall i :: 0 <= i < |filteredPages| ==> '\n' !in filteredPages[i].fileName
    ensures var text := BatchCopyText(filteredPages, Links, baseUrl, origin).value;
      Split(text, '\n') == LinkLines(filteredPages, EffectiveBase(baseUrl, origin))
  {
    var base := EffectiveBase(baseUrl, origin);
    var lines := LinkLines(filteredPages, base);
    forall i | 0 <= i < |lines| ensures '\n' !in lines[i] {
      LinkHasNoBreak(base, filteredPages[i]);
    }
    assert "\n" == ['\n'];
    SplitJoin(lines, '\n');
  }

  lemma LinkHasNoBreak(base: string, page: Page)
    requires '\n' !in base && '\n' !in page.fileName
    ensures '\n' !in ReportLink(base, page)
  {
    var link := ReportLink(base, page);
    assert link == base + ("/reports/" + page.fileName);
    assert '\n' !in "/reports/";
  }

  /** `s` stays contained when text is put in front of it. */
  lemma {:induction false} ContainsAfter(pre: string, s: string, sub: string)
    requires Contains(s, sub)
    ensures Contains(pre + s, sub)
    decreases |pre|
  {
    if pre != [] {
      ContainsAfter(pre[1..], s, sub);
      assert (pre + s)[1..] == pre[1..] + s;
      assert Contains((pre + s)[1..], sub);
    } else {
      assert pre + s == s;
    }
  }

  /** Every part of a joined text is contained in it. */
  lemma {:induction false} JoinContains(parts: seq<string>, sep: string, i: nat)
    requires i < |parts|
    ensures Contains(Join(parts, sep), parts[i])
    decreases |parts|
  {
    if |parts| == 1 {
      ContainsMiddle("", parts[0], "");
      assert "" + parts[0] + "" == parts[0];
    } else if i == 0 {
      ContainsMiddle("", parts[0], sep + Join(parts[1..], sep));
      assert "" + parts[0] + (sep + Join(parts[1..], sep)) == Join(parts, sep);
    } else {
      JoinContains(parts[1..], sep, i - 1);
      ContainsAfter(parts[0] + sep, Join(parts[1..], sep), parts[i]);
      assert (parts[0] + sep) + Join(parts[1..], sep) == Join(parts, sep);
    }
  }

  /** The full-format copy holds, for every listed page, its record: its
      title, its description or `無` when it has none, and its link. */
  lemma FullTextHasEveryRecord(filteredPages: seq<Page>, baseUrl: string, origin: string, i: nat)
    requires i < |filteredPages|
    ensures var text := BatchCopyText(filteredPages, Full, baseUrl, origin).value;
      && Contains(text, FullRecord(EffectiveBase(baseUrl, origin), filteredPages[i]))
      && Contains(text, ReportLink(EffectiveBase(baseUrl, origin), filteredPages[i]))
  {
    var base := EffectiveBase(baseUrl, origin);
    var records := FullRecords(filteredPages, base);
    JoinContains(records, "\n\n", i);
    var page := filteredPages[i];
    var head := "標題: " + page.title + "\n描述: " + (if page.description != "" then page.description else "無") + "\n連結: ";
    assert FullRecord(base, page) == head + ReportLink(base, page) + "";
    ContainsMiddle(head, ReportLink(base, page), "");
    ContainsWithin(Join(records, "\n\n"), FullRecord(base, page), ReportLink(base, page));
  }

  /** Containment is transitive. */
  lemma {:induction false} ContainsWithin(s: string, mid: string, sub: string)
    requires Contains(s, mid) && Contains(mid, sub)
    ensures Contains(s, sub)
    decreases |s|
  {
    if StartsWith(s, mid) {
      assert s == mid + s[|mid|..];
      ContainsPrefixOf(mid, s[|mid|..], sub);
    } else {
      ContainsWithin(s[1..], mid, sub);
    }
  }

  lemma {:induction false} ContainsPrefixOf(a: string, b: string, sub: string)
    requires Contains(a, sub)
    ensures Contains(a + b, sub)
    decreases |a|
  {
    if StartsWith(a, sub) {
      assert (a + b)[..|sub|] == a[..|sub|];
    } else {
      ContainsPrefixOf(a[1..], b, sub);
      assert (a + b)[1..] == a[1..] + b;
    }
  }

  // ---------------------------------------------------------------------------
  // Sharing
  // ---------------------------------------------------------------------------

  /** `allPages.find(p => p.pageId === pageId)` */
  function FindPage(pages: seq<Page>, pageId: string): (r: Option<Page>)
    ensures r.None? <==> forall i :: 0 <= i < |pages| ==> pages[i].pageId != pageId
    ensures r.Some? ==> r.value.pageId == pageId && r.value in pages
    ensures r.Some? ==> exists i :: 0 <= i < |pages| && pages[i] == r.value
                                   && forall j :: 0 <= j < i ==> pages[j].pageId != pageId
  {
    if pages == [] then None
    else if pages[0].pageId == pageId then Some(pages[0])
    else FindPage(pages[1..], pageId)
  }

  /** `handleSharePage`: the address shared for a page, or nothing when the
      page is not listed or has no file name. */
  function ShareUrl(allPages: seq<Page>, pageId: string, origin: string): (r: Option<string>)
    ensures r.Some? <==> FindPage(allPages, pageId).Some? && FindPage(allPages, pageId).value.fileName != ""
    ensures r.Some? ==> r.value == ReportLink(origin, FindPage(allPages, pageId).value)
  {
    match FindPage(allPages, pageId)
    case None => None
    case Some(page) => if page.fileName == "" then None else Some(origin + "/reports/" + page.fileName)
  }

  /** The shared address is the one the batch copy gives the same page when
      no base address is configured. */
  lemma ShareMatchesCopy(allPages: seq<Page>, pageId: string, origin: string)
    requires ShareUrl(allPages, pageId, origin).Some?
    ensures var page := FindPage(allPages, pageId).value;
      ShareUrl(allPages, pageId, origin).value == BatchCopyText([page], Links, "", origin).value
  {
  }

  // ---------------------------------------------------------------------------
  // The list's state
  // ---------------------------------------------------------------------------

  /** The public home page's list state: the loaded pages, the selected tab,
      the keyword and the current page number. */
  class HomeView {
    var allPages: seq<Page>
    var category: string
    var searchKeyword: string
    var currentPage: int

    /** The initial state: nothing loaded, page 1. */
    constructor(category: string, searchKeyword: string)
      ensures this.allPages == [] && this.category == category
      ensures this.searchKeyword == searchKeyword && this.currentPage == 1
    {
      this.allPages := [];
      this.category := category;
      this.searchKeyword := searchKeyword;
      this.currentPage := 1;
    }

    function Filtered(): seq<Page>
      reads this
    {
      FilteredPages(allPages, category, searchKeyword)
    }

    function Shown(): seq<Page>
      reads this
    {
      PageSlice(Filtered(), currentPage, ItemsPerPage)
    }

    /** `loadAllPages`: the loaded pages replace the list, back on page 1. */
    method Loaded(pages: seq<Page>)
      modifies this
      ensures allPages == pages && currentPage == 1
      ensures category == old(category) && searchKeyword == old(searchKeyword)
    {
      allPages := pages;
      currentPage := 1;
    }

    /** Selecting a tab: the page-reset effect runs only when the tab
        changes, so a different tab goes back to page 1 and re-selecting
        the current one keeps the page. */
    method SetCategory(c: string)
      modifies this
      ensures category == c
      ensures currentPage == if c == old(category) then old(currentPage) else 1
      ensures allPages == old(allPages) && searchKeyword == old(searchKeyword)
    {
      if c != category {
        currentPage := 1;
      }
      category := c;
    }

    /** A new keyword does not move the current page (see
        `StaleKeywordPage`). */
    method SetKeyword(k: string)
      modifies this
      ensures searchKeyword == k
      ensures allPages == old(allPages) && category == old(category) && currentPage == old(currentPage)
    {
      searchKeyword := k;
    }

    /** A keyword that, like a tab, takes part in the page-reset effect: a
        different keyword goes back to page 1, so a list with results then
        always shows some; the same keyword keeps the page. */
    method SetKeywordFromFirstPage(k: string)
      modifies this
      ensures searchKeyword == k
      ensures currentPage == if k == old(searchKeyword) then old(currentPage) else 1
      ensures allPages == old(allPages) && category == old(category)
      ensures k != old(searchKeyword) && Filtered() != [] ==> Shown() != []
    {
      if k != searchKeyword {
        currentPage := 1;
      }
      searchKeyword := k;
      if currentPage == 1 && Filtered() != [] {
        FirstPageShows(Filtered());
      }
    }

    method GoToPage(p: int)
      modifies this
      ensures currentPage == p
      ensures allPages == old(allPages) && category == old(category) && searchKeyword == old(searchKeyword)
    {
      currentPage := p;
    }
  }
}
