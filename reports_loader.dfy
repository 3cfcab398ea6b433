/** The published site's loader: the public pages read the reports index and
    the report files that the admin tool commits, as GitHub Pages serves
    them, and every failure ends in an empty list or `null`.

    The site is a function from URL to what `fetch` gives for it; the
    repository's files are served at `./` followed by their path. */
module ReportsLoader {
  import opened Common
  import opened Documents
  import GitStore
  import ReportsManager
  import Seqs

  /** What `fetch(url)` gives: a body (`response.ok`), a response that is not
      ok, or a thrown error. */
  datatype FetchAnswer = Served(body: Content) | NotOk | FetchThrew

  type Site = string -> FetchAnswer

  const IndexUrl: string := "./data/reports-index.json"

  function ReportUrl(fileName: string): string {
    "./reports/" + fileName
  }

  /** The site GitHub Pages publishes from the repository's files: each file
      at `./<path>`, and nothing (404) anywhere else. */
  function PublishedSite(files: map<string, GitStore.StoredFile>): Site {
    url => if |url| >= 2 && url[..2] == "./" && url[2..] in files then Served(files[url[2..]].content) else NotOk
  }

  /** The reports of `loadReportsIndex()`: those of the served index, and
      none when the fetch fails, is not ok, or the body is not an index
      (the callers' `indexData.reports` then throws or is empty, and they
      end the same way). */
  function LoadReportsIndex(answer: FetchAnswer): (reports: seq<ReportMeta>)
    ensures answer.Served? && answer.body.IndexJson? ==> reports == answer.body.doc.reports
    ensures !(answer.Served? && answer.body.IndexJson?) ==> reports == []
  {
    match answer
    case Served(body) => if body.IndexJson? then body.doc.reports else []
    case _ => []
  }

  /** One element of `getAllStoredPages()`: the index entry with `id` named
      `pageId`. */
  datatype ListedPage = ListedPage(
    pageId: string,
    title: string,
    description: string,
    categories: seq<string>,
    fileName: string,
    createdAt: Timestamp,
    updatedAt: Timestamp)

  function Listed(r: ReportMeta): ListedPage {
    ListedPage(r.id, r.title, r.description, r.categories, r.fileName, r.createdAt, r.updatedAt)
  }

  /** `getAllStoredPages()`: every entry of the index, in index order. */
  function GetAllStoredPages(site: Site): (pages: seq<ListedPage>)
    ensures var reports := LoadReportsIndex(site(IndexUrl));
      && |pages| == |reports|
      && forall i :: 0 <= i < |pages| ==>
           && pages[i].pageId == reports[i].id && pages[i].title == reports[i].title
           && pages[i].description == reports[i].description && pages[i].categories == reports[i].categories
           && pages[i].fileName == reports[i].fileName
           && pages[i].createdAt == reports[i].createdAt && pages[i].updatedAt == reports[i].updatedAt
  {
    Seqs.Map(LoadReportsIndex(site(IndexUrl)), Listed)
  }

  /** `getReportHTML(fileName)`: the body, or `null` when the fetch is not ok
      or throws. */
  function GetReportHtml(site: Site, fileName: string): (html: Option<Content>)
    ensures html.Some? <==> site(ReportUrl(fileName)).Served?
    ensures html.Some? ==> html.value == site(ReportUrl(fileName)).body
  {
    match site(ReportUrl(fileName))
    case Served(body) => Some(body)
    case _ => None
  }

  /** What `getStoredPageData(pageId)` returns. */
  datatype PageRecord = PageRecord(
    title: string,
    description: string,
    categories: seq<string>,
    htmlCode: Content,
    createdAt: Timestamp,
    updatedAt: Timestamp)

  /** `getStoredPageData(pageId)`: the first index entry with the id and its
      report file's body; `null` when no entry has the id or the body is
      missing or empty. */
  function GetStoredPageData(site: Site, pageId: string): (r: Option<PageRecord>)
  {
    var reports := LoadReportsIndex(site(IndexUrl));
    match ReportsManager.Find(reports, pageId)
    case None => None
    case Some(m) =>
      var html := GetReportHtml(site, m.fileName);
      if html.None? || html.value == Text("") then None
      else Some(PageRecord(m.title, m.description, m.categories, html.value, m.createdAt, m.updatedAt))
  }

  /** The page data is there exactly when the index has an entry with the
      id and that entry's report file is served with a body; it is then the
      first such entry's metadata with that body. */
  lemma StoredPageDataSpec(site: Site, pageId: string)
    ensures var reports := LoadReportsIndex(site(IndexUrl));
      var r := GetStoredPageData(site, pageId);
      && (r.None? <==>
            (forall i :: 0 <= i < |reports| ==> reports[i].id != pageId)
            || (var m := ReportsManager.Find(reports, pageId).value;
                !site(ReportUrl(m.fileName)).Served? || site(ReportUrl(m.fileName)).body == Text("")))
      && (r.Some? ==>
            var i := ReportsManager.FindIndex(reports, pageId).value;
            && (forall j :: 0 <= j < i ==> reports[j].id != pageId)
            && r.value == PageRecord(reports[i].title, reports[i].description, reports[i].categories,
                                     site(ReportUrl(reports[i].fileName)).body,
                                     reports[i].createdAt, reports[i].updatedAt))
  {
    var reports := LoadReportsIndex(site(IndexUrl));
    FindIsFirst(reports, pageId);
  }

  /** `Find` returns the entry at `FindIndex`. */
  lemma {:induction false} FindIsFirst(reports: seq<ReportMeta>, id: string)
    ensures ReportsManager.Find(reports, id).Some? <==> ReportsManager.FindIndex(reports, id).Some?
    ensures ReportsManager.Find(reports, id).Some? ==>
      ReportsManager.Find(reports, id).value == reports[ReportsManager.FindIndex(reports, id).value]
  {
    if reports != [] && reports[0].id != id {
      FindIsFirst(reports[1..], id);
    }
  }

  lemma PublishedIndex(files: map<string, GitStore.StoredFile>)
    ensures PublishedSite(files)(IndexUrl) ==
      if ReportsManager.IndexPath in files then Served(files[ReportsManager.IndexPath].content) else NotOk
  {
    assert IndexUrl[..2] == "./" && IndexUrl[2..] == ReportsManager.IndexPath;
  }

  lemma PublishedReport(files: map<string, GitStore.StoredFile>, fileName: string)
    ensures PublishedSite(files)(ReportUrl(fileName)) ==
      if ReportsManager.HtmlPath(fileName) in files then Served(files[ReportsManager.HtmlPath(fileName)].content)
      else NotOk
  {
    var url := ReportUrl(fileName);
    assert url[..2] == "./" && url[2..] == ReportsManager.HtmlPath(fileName);
  }

  /** The published site lists the reports the admin tool's index holds. */
  lemma PublishedIndexAgrees(files: map<string, GitStore.StoredFile>, now: Timestamp)
    ensures LoadReportsIndex(PublishedSite(files)(IndexUrl))
      == ReportsManager.IndexFrom(GitStore.ReadFile(files, ReportsManager.IndexPath), now).reports
  {
    PublishedIndex(files);
  }

  /** The published site shows a report exactly when the admin tool's
      `getReport` finds it, with the same metadata and HTML. */
  lemma PublishedPageAgrees(files: map<string, GitStore.StoredFile>, id: string, now: Timestamp)
    ensures var a := ReportsManager.ReportAnswer(None, None, files, id, now);
      var r := GetStoredPageData(PublishedSite(files), id);
      && a.Ok?
      && (r.None? <==> a.value.None?)
      && (r.Some? ==>
            var m := a.value.value.meta;
            r.value == PageRecord(m.title, m.description, m.categories, a.value.value.htmlCode,
                                  m.createdAt, m.updatedAt))
  {
    var site := PublishedSite(files);
    ReportsManager.ReportAnswerFaultFree(files, id, now);
    PublishedIndexAgrees(files, now);
    var reports := LoadReportsIndex(site(IndexUrl));
    var found := ReportsManager.Find(reports, id);
    if found.Some? {
      PublishedReport(files, found.value.fileName);
    }
  }
}
