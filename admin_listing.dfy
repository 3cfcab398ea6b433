/** The two list views of the admin site: the admin copy of the home page
    (the public list plus per-page share and copy-link actions) and the
    management page, which filters in one step, counts tabs over every page
    and shows twelve pages at a time. */
module AdminListing {
  import opened Common
  import opened Seqs
  import opened HomeListing
  import Pagination
  import HtmlStorage
  import Documents
  import Js

  // ---------------------------------------------------------------------------
  // The admin copy of the home page: sharing and copying a link
  // ---------------------------------------------------------------------------

  /** The preview address of a page. */
  function PreviewUrl(origin: string, pageId: string): (r: string)
    ensures |r| == |origin| + |"/preview.html?id="| + |pageId|
    ensures r[..|origin|] == origin && r[|r| - |pageId|..] == pageId
  {
    origin + "/preview.html?id=" + pageId
  }

  /** `handleCopyLink`: the title, a line break, then the preview address. */
  function CopyLinkText(pageId: string, title: string, origin: string): string {
    title + "\n" + PreviewUrl(origin, pageId)
  }

  /** When neither the title nor the address holds a line break, the copied
      text splits back, at its line break, into exactly the title and the
      preview address. */
  lemma CopyLinkSplits(pageId: string, title: string, origin: string)
    requires '\n' !in title && '\n' !in origin && '\n' !in pageId
    ensures Split(CopyLinkText(pageId, title, origin), '\n') == [title, PreviewUrl(origin, pageId)]
  {
    var url := PreviewUrl(origin, pageId);
    assert '\n' !in url by {
      assert url == origin + "/preview.html?id=" + pageId;
    }
    var parts := [title, url];
    assert Join(parts, "\n") == CopyLinkText(pageId, title, origin) by {
      assert Join(parts[1..], "\n") == url;
    }
    SplitJoin(parts, '\n');
  }

  /** What the share dialog is opened with. */
  datatype ShareData = ShareData(title: string, url: string)

  /** `handleSharePage`: the page's data and its HTML are read; when either
      is missing (an empty HTML string counts as missing) nothing is shared,
      otherwise the dialog gets the title and the preview address. */
  function SharePage(pageId: string, title: string, origin: string,
                     dataAnswer: HtmlStorage.GetAnswer, htmlAnswer: HtmlStorage.GetAnswer,
                     now: Documents.Timestamp): (r: Option<ShareData>)
    ensures r.Some? <==>
      && HtmlStorage.GetStoredPageData(dataAnswer, now).Some?
      && HtmlStorage.GetStoredHtml(htmlAnswer).Some? && HtmlStorage.GetStoredHtml(htmlAnswer).value != ""
    ensures r.Some? ==> r.value == ShareData(title, PreviewUrl(origin, pageId))
  {
    var pageData := HtmlStorage.GetStoredPageData(dataAnswer, now);
    var htmlData := HtmlStorage.GetStoredHtml(htmlAnswer);
    if pageData.None? || htmlData.None? || htmlData.value == "" then None
    else Some(ShareData(title, origin + "/preview.html?id=" + pageId))
  }

  /** Read from one stored record, a page can be shared exactly when the page
      list shows that record and its HTML does not render as the empty
      string; in particular every listed page whose HTML is a non-empty
      string can be shared. */
  lemma ShareIffListedWithHtml(pageId: string, title: string, origin: string,
                               d: HtmlStorage.ObjectData, now: Documents.Timestamp)
    ensures var answer := HtmlStorage.Got(Some(d));
      SharePage(pageId, title, origin, answer, answer, now).Some? <==>
        HtmlStorage.IsListable(HtmlStorage.Item(pageId, Some(d))) && Js.ToJsString(d.htmlCode) != ""
  {
  }

  /** A page that can be shared can also be copied, and the copied text
      carries the same address as the share dialog. */
  lemma ShareMatchesCopyLink(pageId: string, title: string, origin: string,
                             dataAnswer: HtmlStorage.GetAnswer, htmlAnswer: HtmlStorage.GetAnswer,
                             now: Documents.Timestamp)
    requires '\n' !in title && '\n' !in origin && '\n' !in pageId
    requires SharePage(pageId, title, origin, dataAnswer, htmlAnswer, now).Some?
    ensures var shared := SharePage(pageId, title, origin, dataAnswer, htmlAnswer, now).value;
      Split(CopyLinkText(pageId, title, origin), '\n') == [shared.title, shared.url]
  {
    CopyLinkSplits(pageId, title, origin);
  }

  // ---------------------------------------------------------------------------
  // The management page: filter
  // ---------------------------------------------------------------------------

  const PageSize: nat := 12

  /** The management page's filter: the tab is `全部` or one of the page's
      categories, and the keyword is empty or the lower-cased title or
      description contains the lower-cased keyword. The keyword is not
      trimmed. */
  predicate AdminMatches(page: Page, category: string, searchKeyword: string) {
    && (category == All || HasCategory(page, category))
    && (searchKeyword == "" || MatchesKeyword(page, ToLower(searchKeyword)))
  }

  /** `filteredPages` of the management page. */
  function AdminFiltered(pages: seq<Page>, category: string, searchKeyword: string): seq<Page> {
    Filter(pages, page => AdminMatches(page, category, searchKeyword))
  }

  /** The management page lists, in their stored order, exactly the pages
      that pass both conditions. */
  lemma AdminFilteredSpec(pages: seq<Page>, category: string, searchKeyword: string)
    ensures var r := AdminFiltered(pages, category, searchKeyword);
      && SubsequenceOf(r, pages)
      && forall page :: page in r <==>
           && page in pages
           && (category == All || HasCategory(page, category))
           && (searchKeyword == "" || MatchesKeyword(page, ToLower(searchKeyword)))
  {
    FilterKeeps(pages, page => AdminMatches(page, category, searchKeyword));
  }

  lemma LowerCharNotBlank(c: char)
    requires !IsWhitespace(c)
    ensures !IsWhitespace(LowerChar(c))
  {
    if 'A' <= c <= 'Z' {
      assert 'a' <= LowerChar(c) <= 'z';
    }
  }

  /** Lower-casing a string that neither starts nor ends with a blank gives
      one that trimming leaves alone. */
  lemma LowerKeepsEnds(s: string)
    requires s == [] || (!IsWhitespace(s[0]) && !IsWhitespace(s[|s| - 1]))
    ensures Trim(ToLower(s)) == ToLower(s)
  {
    var t := ToLower(s);
    if s != [] {
      assert t[0] == LowerChar(s[0]) && t[|t| - 1] == LowerChar(s[|s| - 1]);
      LowerCharNotBlank(s[0]);
      LowerCharNotBlank(s[|s| - 1]);
    }
    TrimUnchanged(t);
  }

  lemma AgreeWithoutKeyword(pages: seq<Page>, category: string)
    ensures AdminFiltered(pages, category, "") == FilteredPages(pages, category, "")
  {
    assert Trim("") == "";
    var admin := page => AdminMatches(page, category, "");
    if category == All {
      FilterAllPass(pages, admin);
    } else {
      FilterSame(pages, admin, page => HasCategory(page, category));
    }
  }

  lemma AgreeWithKeyword(pages: seq<Page>, category: string, searchKeyword: string)
    requires searchKeyword != [] && Trim(searchKeyword) == searchKeyword
    requires Trim(ToLower(searchKeyword)) == ToLower(searchKeyword)
    ensures AdminFiltered(pages, category, searchKeyword) == FilteredPages(pages, category, searchKeyword)
  {
    var admin := page => AdminMatches(page, category, searchKeyword);
    var keyword := ToLower(searchKeyword);
    var matches := page => MatchesKeyword(page, keyword);
    var inTab := page => HasCategory(page, category);
    var kept := KeywordFiltered(pages, searchKeyword);
    assert kept == Filter(pages, matches);
    if category == All {
      forall page ensures admin(page) == matches(page) {
      }
      FilterSame(pages, admin, matches);
    } else {
      assert FilteredPages(pages, category, searchKeyword) == Filter(kept, inTab);
      forall page ensures admin(page) == (matches(page) && inTab(page)) {
      }
      FilterTwice(pages, matches, inTab, admin);
    }
  }

  /** For a keyword without blanks around it, the management page lists the
      same pages, in the same order, as the home page's two-step filter. */
  lemma AdminAgreesWithHome(pages: seq<Page>, category: string, searchKeyword: string)
    requires searchKeyword == [] || (!IsWhitespace(searchKeyword[0]) && !IsWhitespace(searchKeyword[|searchKeyword| - 1]))
    ensures AdminFiltered(pages, category, searchKeyword) == FilteredPages(pages, category, searchKeyword)
  {
    if searchKeyword == [] {
      AgreeWithoutKeyword(pages, category);
    } else {
      TrimUnchanged(searchKeyword);
      LowerKeepsEnds(searchKeyword);
      AgreeWithKeyword(pages, category, searchKeyword);
    }
  }

  // ---------------------------------------------------------------------------
  // The management page: paging
  // ---------------------------------------------------------------------------

  /** The management page counts its tabs over every loaded page, whatever
      the keyword, so a tab's count is never below the number of pages the
      tab lists under any keyword. */
  lemma AdminTabCountCovers(pages: seq<Page>, category: string, searchKeyword: string)
    ensures |AdminFiltered(pages, category, searchKeyword)| <= TabCount(pages, category)
  {
    if category != All {
      FilterWeaker(pages, page => AdminMatches(page, category, searchKeyword), page => HasCategory(page, category));
      TagTotalCoversFilter(pages, category);
    }
  }

  /** `filteredPages.slice((currentPage - 1) * pageSize, currentPage * pageSize)` */
  function AdminSlice(xs: seq<Page>, currentPage: int): seq<Page> {
    Slice(xs, (currentPage - 1) * PageSize, currentPage * PageSize)
  }

  /** A page that exists shows between one and twelve pages, the ones from
      position `(currentPage - 1) * 12` on; a page past the last shows none. */
  lemma AdminSliceSpec(xs: seq<Page>, currentPage: int)
    ensures var s := AdminSlice(xs, currentPage);
      && |s| <= PageSize
      && (1 <= currentPage <= PageCount(|xs|, PageSize) ==>
            && 1 <= |s|
            && s == xs[(currentPage - 1) * PageSize .. (if currentPage * PageSize <= |xs| then currentPage * PageSize else |xs|)])
      && (currentPage > PageCount(|xs|, PageSize) ==> s == [])
  {
    assert (currentPage - 1) * PageSize + PageSize == currentPage * PageSize;
    assert AdminSlice(xs, currentPage) == PageSlice(xs, currentPage, PageSize);
    PageSliceSpec(xs, currentPage, PageSize);
  }

  /** The page-number control is drawn under the list when there is more than
      one page. */
  predicate PaginationShown(filteredCount: nat) {
    PageCount(filteredCount, PageSize) > 1
  }

  /** The guard agrees with the control's own rule, and holds exactly when
      more than twelve pages are listed. */
  lemma PaginationShownSpec(filteredCount: nat, currentPage: int)
    ensures PaginationShown(filteredCount) <==> filteredCount > PageSize
    ensures PaginationShown(filteredCount) <==>
      Pagination.Render(currentPage, PageCount(filteredCount, PageSize)).Some?
  {
  }

  /** The first page of a non-empty list shows its first pages. */
  lemma FirstPageNotEmpty(xs: seq<Page>)
    requires xs != []
    ensures AdminSlice(xs, 1) != []
    ensures AdminSlice(xs, 1) == xs[..if |xs| < PageSize then |xs| else PageSize]
  {
    AdminSliceSpec(xs, 1);
  }

  // ---------------------------------------------------------------------------
  // The management page's records and its batch copy
  // ---------------------------------------------------------------------------

  /** What `${page.fileName}` gives for a record without that field. */
  const NoFileName: string := Js.ToJsString(Js.Undefined)

  /** A record of the management list as `getAllStoredPages` builds it: the
      page id, title, description and categories, and no `fileName`. */
  function ListedRecord(p: HtmlStorage.StoredPage): Page {
    Page(p.pageId, p.title, p.description, Some(p.categories), NoFileName)
  }

  function ListedRecords(ps: seq<HtmlStorage.StoredPage>): (r: seq<Page>)
    ensures |r| == |ps|
    ensures forall i :: 0 <= i < |ps| ==> r[i] == ListedRecord(ps[i])
  {
    if ps == [] then [] else [ListedRecord(ps[0])] + ListedRecords(ps[1..])
  }

  /** No page of the list carries a file name. */
  predicate Unfiled(pages: seq<Page>) {
    forall i :: 0 <= i < |pages| ==> pages[i].fileName == NoFileName
  }

  /** The links of an unfiled list, split at their line breaks, are one
      `<base>/reports/undefined` per page, whatever the pages are. */
  lemma {:induction false} UnfiledLinks(pages: seq<Page>, baseUrl: string, origin: string)
    requires pages != [] && Unfiled(pages)
    requires '\n' !in EffectiveBase(baseUrl, origin)
    ensures var lines := Split(BatchCopyText(pages, Links, baseUrl, origin).value, '\n');
      && |lines| == |pages|
      && forall i :: 0 <= i < |lines| ==> lines[i] == EffectiveBase(baseUrl, origin) + "/reports/undefined"
  {
    assert NoFileName == "undefined";
    assert forall i :: 0 <= i < |pages| ==> '\n' !in pages[i].fileName;
    LinksRoundTrip(pages, baseUrl, origin);
  }

  /** As written, every link the management page copies is the same
      `<base>/reports/undefined`, since its records have no file name; two
      different reports copy the same link. */
  lemma AdminCopyLinksUndefined(ps: seq<HtmlStorage.StoredPage>, category: string, searchKeyword: string,
                                baseUrl: string, origin: string)
    requires AdminFiltered(ListedRecords(ps), category, searchKeyword) != []
    requires '\n' !in EffectiveBase(baseUrl, origin)
    ensures var filtered := AdminFiltered(ListedRecords(ps), category, searchKeyword);
      var lines := Split(BatchCopyText(filtered, Links, baseUrl, origin).value, '\n');
      && |lines| == |filtered|
      && forall i :: 0 <= i < |lines| ==> lines[i] == EffectiveBase(baseUrl, origin) + "/reports/undefined"
  {
    var filtered := AdminFiltered(ListedRecords(ps), category, searchKeyword);
    FilteredUnfiled(ListedRecords(ps), category, searchKeyword);
    UnfiledLinks(filtered, baseUrl, origin);
  }

  /** Filtering an unfiled list leaves it unfiled. */
  lemma FilteredUnfiled(pages: seq<Page>, category: string, searchKeyword: string)
    requires Unfiled(pages)
    ensures Unfiled(AdminFiltered(pages, category, searchKeyword))
  {
    var filtered := AdminFiltered(pages, category, searchKeyword);
    AdminFilteredSpec(pages, category, searchKeyword);
    forall i | 0 <= i < |filtered| ensures filtered[i].fileName == NoFileName {
      assert filtered[i] in pages;
    }
  }

  /** A record of the management list that keeps the index entry's file
      name, as the listing evidently means to. */
  function IntendedRecord(r: Documents.ReportMeta): Page {
    Page(r.id, r.title, r.description, Some(r.categories), r.fileName)
  }

  function IntendedRecords(rs: seq<Documents.ReportMeta>): (r: seq<Page>)
    ensures |r| == |rs|
    ensures forall i :: 0 <= i < |rs| ==> r[i] == IntendedRecord(rs[i])
  {
    if rs == [] then [] else [IntendedRecord(rs[0])] + IntendedRecords(rs[1..])
  }

  /** With the file names kept, the copied links are, one per report and in
      index order, the addresses where the reports are published; reports
      with different file names copy different links. */
  lemma IntendedCopyLinks(rs: seq<Documents.ReportMeta>, baseUrl: string, origin: string)
    requires rs != []
    requires '\n' !in EffectiveBase(baseUrl, origin)
    requires forall i :: 0 <= i < |rs| ==> '\n' !in rs[i].fileName
    ensures var lines := Split(BatchCopyText(IntendedRecords(rs), Links, baseUrl, origin).value, '\n');
      && |lines| == |rs|
      && (forall i :: 0 <= i < |rs| ==> lines[i] == EffectiveBase(baseUrl, origin) + "/reports/" + rs[i].fileName)
      && (forall i, j :: 0 <= i < |rs| && 0 <= j < |rs| && rs[i].fileName != rs[j].fileName ==> lines[i] != lines[j])
  {
    var pages := IntendedRecords(rs);
    var base := EffectiveBase(baseUrl, origin);
    LinksRoundTrip(pages, baseUrl, origin);
    var lines := Split(BatchCopyText(pages, Links, baseUrl, origin).value, '\n');
    forall i, j | 0 <= i < |rs| && 0 <= j < |rs| && rs[i].fileName != rs[j].fileName
      ensures lines[i] != lines[j]
    {
      var pre := base + "/reports/";
      assert lines[i] == pre + rs[i].fileName && lines[j] == pre + rs[j].fileName;
      assert lines[i][|pre|..] == rs[i].fileName && lines[j][|pre|..] == rs[j].fileName;
    }
  }

  // ---------------------------------------------------------------------------
  // The management page's state
  // ---------------------------------------------------------------------------

  /** The management page's list state: the loaded pages, the selected tab,
      the keyword and the current page number. */
  class AdminView {
    var pages: seq<Page>
    var category: string
    var searchKeyword: string
    var currentPage: int

    /** The initial state: nothing loaded, page 1. */
    constructor(category: string, searchKeyword: string)
      ensures this.pages == [] && this.category == category
      ensures this.searchKeyword == searchKeyword && this.currentPage == 1
    {
      this.pages := [];
      this.category := category;
      this.searchKeyword := searchKeyword;
      this.currentPage := 1;
    }

    function Filtered(): seq<Page>
      reads this
    {
      AdminFiltered(pages, category, searchKeyword)
    }

    function Shown(): seq<Page>
      reads this
    {
      AdminSlice(Filtered(), currentPage)
    }

    /** `categoryCounts`: the nested `forEach` run over every loaded page,
        whatever the tab and the keyword; the selected tab's count is never
        below the length of the list shown under it. */
    method CategoryCounts() returns (counts: map<string, nat>)
      ensures forall c :: c in counts <==> c == All || TagTotal(pages, c) > 0
      ensures forall c :: c in counts ==> counts[c] == TabCount(pages, c)
      ensures category in counts ==> |Filtered()| <= counts[category]
    {
      counts := CountTabs(pages);
      AdminTabCountCovers(pages, category, searchKeyword);
    }

    /** `loadPages`: the records `getAllStoredPages` gives replace the list,
      none of them with a file name; the page number is left as it was. */
    method Loaded(stored: seq<HtmlStorage.StoredPage>)
      modifies this
      ensures pages == ListedRecords(stored) && Unfiled(pages)
      ensures category == old(category) && searchKeyword == old(searchKeyword) && currentPage == old(currentPage)
    {
      pages := ListedRecords(stored);
    }

    /** Selecting a tab: the page-reset effect runs only when the tab
      changes, so a different tab goes back to page 1 and a non-empty result
      is then never hidden behind a page past its end; re-selecting the
      current tab keeps the page. */
    method SetCategory(c: string)
      modifies this
      ensures category == c
      ensures currentPage == if c == old(category) then old(currentPage) else 1
      ensures pages == old(pages) && searchKeyword == old(searchKeyword)
      ensures c != old(category) && Filtered() != [] ==> Shown() != []
    {
      if c != category {
        currentPage := 1;
      }
      category := c;
      if currentPage == 1 && Filtered() != [] {
        FirstPageNotEmpty(Filtered());
      }
    }

    /** Typing a keyword: the same effect, so a different keyword goes back
      to page 1 and the same keyword keeps the page. */
    method SetKeyword(k: string)
      modifies this
      ensures searchKeyword == k
      ensures currentPage == if k == old(searchKeyword) then old(currentPage) else 1
      ensures pages == old(pages) && category == old(category)
      ensures k != old(searchKeyword) && Filtered() != [] ==> Shown() != []
    {
      if k != searchKeyword {
        currentPage := 1;
      }
      searchKeyword := k;
      if currentPage == 1 && Filtered() != [] {
        FirstPageNotEmpty(Filtered());
      }
    }

    method GoToPage(p: int)
      modifies this
      ensures currentPage == p
      ensures pages == old(pages) && category == old(category) && searchKeyword == old(searchKeyword)
    {
      currentPage := p;
    }

    /** `handleBatchCopy`: nothing to copy for an empty list; otherwise the
      links or the records of the filtered pages. Since the loaded records
      carry no file name, every copied link is `<base>/reports/undefined`. */
    function BatchCopy(format: CopyFormat, baseUrl: string, origin: string): (r: Option<string>)
      reads this
      requires Unfiled(pages)
      ensures r.None? <==> Filtered() == []
      ensures r.Some? && format == Links && '\n' !in EffectiveBase(baseUrl, origin) ==>
        var lines := Split(r.value, '\n');
        && |lines| == |Filtered()|
        && forall i :: 0 <= i < |lines| ==> lines[i] == EffectiveBase(baseUrl, origin) + "/reports/undefined"
    {
      if Filtered() != [] && format == Links && '\n' !in EffectiveBase(baseUrl, origin) then
        FilteredUnfiled(pages, category, searchKeyword);
        UnfiledLinks(Filtered(), baseUrl, origin);
        BatchCopyText(Filtered(), format, baseUrl, origin)
      else
        BatchCopyText(Filtered(), format, baseUrl, origin)
    }
  }
}
