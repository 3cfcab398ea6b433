/** The reports manager: the reports index file `data/reports-index.json`
    and one HTML file `reports/<id>.html` per report, kept in step through
    the GitHub client. The pure part says what each operation reads, writes
    and answers; the class `Manager` runs the operations against the
    repository of `GitStore`.

    Clock readings are inputs: `idTime` is the `Date.now()` that names a new
    report, `now` the time stamped on metadata and index. */
module ReportsManager {
  import opened Common
  import opened Documents
  import opened GitHubApi
  import opened GitStore

  const IndexPath: string := "data/reports-index.json"

  /** Where a report's HTML file lives. */
  function HtmlPath(fileName: string): (p: string)
    ensures p != IndexPath
  {
    var p := "reports/" + fileName;
    assert p[0] == 'r' && IndexPath[0] == 'd';
    p
  }

  /** The index as the manager holds it: the document's fields plus the blob
      id of the file it was read from (`None` when there was no file). */
  datatype IndexView = IndexView(version: string, lastUpdated: Timestamp, reports: seq<ReportMeta>, sha: Option<Sha>)

  /** What the manager's operations throw: a GitHub failure passed on, or one
      of its own two errors. */
  datatype ManagerError = Api(error: ApiError) | ReportNotFound(id: string) | HtmlNotFound(path: string)

  /** The fields a caller passes to create or update a report; `None` is an
      absent (`undefined`) field. */
  datatype ReportInput = ReportInput(
    title: Option<string>,
    description: Option<string>,
    categories: Option<seq<string>>,
    htmlCode: Content)

  /** The GitHub failure an operation ended with, if it ended with one. */
  function ApiFault<T>(r: Result<T, ManagerError>): Option<ApiError> {
    if r.Err? && r.error.Api? then Some(r.error.error) else None
  }

  /** A report's metadata together with its HTML. */
  datatype FullReport = FullReport(meta: ReportMeta, htmlCode: Content)

  // ---------------------------------------------------------------------------
  // Reading the index
  // ---------------------------------------------------------------------------

  /** `getReportsIndex` given what `getFileContent` returned: a missing file
      is a fresh empty index without a sha; a file that does not parse is an
      empty index that keeps the file's sha; otherwise the parsed document
      with the file's sha. */
  function IndexFrom(file: Option<FileInfo>, now: Timestamp): (v: IndexView)
    ensures file.None? ==> v == IndexView("1.0", now, [], None)
    ensures file.Some? ==> v.sha == Some(file.value.sha)
    ensures file.Some? && ParseIndex(file.value.content).None? ==> v.version == "1.0" && v.reports == []
    ensures file.Some? && ParseIndex(file.value.content).Some? ==>
      var d := ParseIndex(file.value.content).value;
      v.version == d.version && v.lastUpdated == d.lastUpdated && v.reports == d.reports
  {
    match file
    case None => IndexView("1.0", now, [], None)
    case Some(f) =>
      match ParseIndex(f.content)
      case Some(d) => IndexView(d.version, d.lastUpdated, d.reports, Some(f.sha))
      case None => IndexView("1.0", now, [], Some(f.sha))
  }

  /** `getReportsIndex` when its read has the scripted outcome `fault`: a
      thrown read is passed on. */
  function IndexRead(fault: Option<ApiError>, files: map<string, StoredFile>, now: Timestamp)
    : Result<IndexView, ManagerError>
  {
    match FetchFile(fault, files, IndexPath)
    case Err(e) => Err(Api(e))
    case Ok(f) => Ok(IndexFrom(f, now))
  }

  /** An index written by the manager reads back with the reports it was
      written with. */
  lemma IndexReadBack(files: map<string, StoredFile>, d: IndexDoc, s: Sha, now: Timestamp)
    requires IndexPath in files && files[IndexPath] == StoredFile(IndexJson(d), s)
    ensures IndexRead(None, files, now) == Ok(IndexView(d.version, d.lastUpdated, d.reports, Some(s)))
  {
  }

  /** Without an index file, the index is empty. */
  lemma IndexReadMissing(files: map<string, StoredFile>, now: Timestamp)
    requires IndexPath !in files
    ensures IndexRead(None, files, now) == Ok(IndexView("1.0", now, [], None))
  {
  }

  /** An index that has entries was read from a stored file, and carries
      that file's blob id. */
  lemma IndexShaCurrent(files: map<string, StoredFile>, index: IndexView, now: Timestamp)
    requires IndexRead(None, files, now) == Ok(index) && index.reports != []
    ensures IndexPath in files && index.sha == Some(files[IndexPath].sha)
  {
  }

  /** The index document `saveReportsIndex` writes. */
  function SavedIndex(index: IndexView, now: Timestamp): Content {
    IndexJson(IndexDoc(index.version, now, index.reports))
  }

  function SaveMessage(index: IndexView): string {
    "Update reports index: " + NatToString(|index.reports|) + " reports"
  }

  // ---------------------------------------------------------------------------
  // Looking reports up
  // ---------------------------------------------------------------------------

  /** `reports.findIndex(r => r.id === id)`, with `None` for -1. */
  function FindIndex(reports: seq<ReportMeta>, id: string): (r: Option<nat>)
    ensures r.None? <==> forall i :: 0 <= i < |reports| ==> reports[i].id != id
    ensures r.Some? ==> r.value < |reports| && reports[r.value].id == id
    ensures r.Some? ==> forall j :: 0 <= j < r.value ==> reports[j].id != id
  {
    if reports == [] then None
    else if reports[0].id == id then Some(0)
    else match FindIndex(reports[1..], id)
      case None => None
      case Some(i) => Some(i + 1)
  }

  /** `reports.find(r => r.id === id)`: the first entry with that id. */
  function Find(reports: seq<ReportMeta>, id: string): (r: Option<ReportMeta>)
    ensures r.None? <==> forall i :: 0 <= i < |reports| ==> reports[i].id != id
    ensures r.Some? ==> r.value.id == id && r.value in reports
  {
    match FindIndex(reports, id)
    case None => None
    case Some(i) => Some(reports[i])
  }

  /** In an index extended at its end, an id that was absent finds the new
      last entry. */
  lemma {:induction false} FindAppended(reports: seq<ReportMeta>, m: ReportMeta)
    requires Find(reports, m.id).None?
    ensures Find(reports + [m], m.id) == Some(m)
  {
    var all := reports + [m];
    assert all[|reports|] == m;
    assert forall j :: 0 <= j < |reports| ==> all[j] == reports[j];
  }

  /** Replacing the first entry with an id by an entry with the same id
      leaves it the first entry with that id. */
  lemma FindIndexReplaced(reports: seq<ReportMeta>, id: string, i: nat, u: ReportMeta)
    requires FindIndex(reports, id) == Some(i) && u.id == id
    ensures FindIndex(reports[i := u], id) == Some(i)
  {
    var after := reports[i := u];
    assert after[i].id == id;
    assert forall j :: 0 <= j < i ==> after[j] == reports[j];
  }

  /** `reports.filter(r => r.id !== id)`. */
  function RemoveReport(reports: seq<ReportMeta>, id: string): (r: seq<ReportMeta>)
    ensures |r| <= |reports|
    ensures forall i :: 0 <= i < |r| ==> r[i].id != id
  {
    if reports == [] then []
    else if reports[0].id == id then RemoveReport(reports[1..], id)
    else [reports[0]] + RemoveReport(reports[1..], id)
  }

  /** The entries left are exactly the old entries without the id. */
  lemma {:induction false} RemoveKeeps(reports: seq<ReportMeta>, id: string, m: ReportMeta)
    ensures m in RemoveReport(reports, id) <==> m in reports && m.id != id
  {
    if reports != [] {
      RemoveKeeps(reports[1..], id, m);
      assert reports == [reports[0]] + reports[1..];
    }
  }

  /** Removing an id that is absent changes nothing. */
  lemma {:induction false} RemoveAbsent(reports: seq<ReportMeta>, id: string)
    requires Find(reports, id).None?
    ensures RemoveReport(reports, id) == reports
  {
    if reports != [] {
      assert Find(reports[1..], id).None?;
      RemoveAbsent(reports[1..], id);
    }
  }

  /** Removing an entry drops the index by exactly the entries with that id. */
  lemma {:induction false} RemoveShrinks(reports: seq<ReportMeta>, id: string)
    requires Find(reports, id).Some?
    ensures |RemoveReport(reports, id)| < |reports|
  {
    if reports[0].id != id {
      assert Find(reports[1..], id).Some?;
      RemoveShrinks(reports[1..], id);
    }
  }

  /** `getReport` given the scripted outcomes of its two reads: `null` when
      no entry has the id or the HTML file is missing, and otherwise the
      first matching entry with the file's content. */
  function ReportAnswer(f0: Option<ApiError>, f1: Option<ApiError>, files: map<string, StoredFile>,
                        id: string, now: Timestamp): Result<Option<FullReport>, ManagerError>
  {
    match IndexRead(f0, files, now)
    case Err(e) => Err(e)
    case Ok(index) =>
      match Find(index.reports, id)
      case None => Ok(None)
      case Some(m) =>
        match FetchFile(f1, files, HtmlPath(m.fileName))
        case Err(e) => Err(Api(e))
        case Ok(None) => Ok(None)
        case Ok(Some(h)) => Ok(Some(FullReport(m, h.content)))
  }

  /** The requests `getReport` sends: the index read, and the HTML read when
      the index has an entry with the id. */
  function ReportReads(f0: Option<ApiError>, files: map<string, StoredFile>, id: string, now: Timestamp)
    : seq<Request>
  {
    var index := IndexRead(f0, files, now);
    if index.Ok? && Find(index.value.reports, id).Some? then
      [GetContents(IndexPath), GetContents(HtmlPath(Find(index.value.reports, id).value.fileName))]
    else [GetContents(IndexPath)]
  }

  /** `getReport` only reads: one or two requests, none of them a write,
      the first being the index read. */
  lemma ReportReadsOnly(f0: Option<ApiError>, files: map<string, StoredFile>, id: string, now: Timestamp)
    ensures var rs := ReportReads(f0, files, id, now);
      1 <= |rs| <= 2 && rs[0] == GetContents(IndexPath) && NoWrites(rs)
  {
  }

  /** When nothing fails, `getReport` answers from the stored files alone:
      nothing when no entry has the id or the HTML file is missing or empty,
      and otherwise the first entry with the id and the file's content. */
  lemma ReportAnswerFaultFree(files: map<string, StoredFile>, id: string, now: Timestamp)
    ensures var index := IndexFrom(ReadFile(files, IndexPath), now);
      var a := ReportAnswer(None, None, files, id, now);
      && a.Ok?
      && (a.value.None? <==>
            Find(index.reports, id).None?
            || ReadFile(files, HtmlPath(Find(index.reports, id).value.fileName)).None?)
      && (a.value.Some? ==>
            var m := Find(index.reports, id).value;
            a.value.value == FullReport(m, files[HtmlPath(m.fileName)].content))
  {
  }

  // ---------------------------------------------------------------------------
  // Creating and updating
  // ---------------------------------------------------------------------------

  /** `generateReportId()` */
  function ReportId(idTime: nat): string {
    "report-" + NatToString(idTime)
  }

  /** `s || d` for a string field: an absent or empty string gives `d`. */
  function OrElse(s: Option<string>, d: string): (r: string)
    ensures r == d || (s.Some? && r == s.value && s.value != "")
  {
    if s.Some? && s.value != "" then s.value else d
  }

  /** The metadata `createReport` builds. */
  function CreatedMeta(data: ReportInput, idTime: nat, now: Timestamp): (m: ReportMeta)
    ensures m.id == ReportId(idTime) && m.fileName == ReportId(idTime) + ".html"
    ensures m.createdAt == now && m.updatedAt == now
    ensures m.title == OrElse(data.title, "无标题") && m.description == OrElse(data.description, "")
    ensures m.categories == if data.categories.Some? then data.categories.value else []
  {
    ReportMeta(ReportId(idTime), OrElse(data.title, "无标题"), OrElse(data.description, ""),
               if data.categories.Some? then data.categories.value else [],
               ReportId(idTime) + ".html", now, now)
  }

  /** The two files `createReport` commits: the HTML first, then the index
      with the new entry appended. */
  function CreateFiles(reports: seq<ReportMeta>, data: ReportInput, idTime: nat, now: Timestamp)
    : (fs: seq<FileToCommit>)
    ensures |fs| == 2
  {
    var m := CreatedMeta(data, idTime, now);
    [FileToCommit(HtmlPath(m.fileName), data.htmlCode),
     FileToCommit(IndexPath, IndexJson(IndexDoc("1.0", now, reports + [m])))]
  }

  function CreateMessage(data: ReportInput, idTime: nat): string {
    "Create report: " + OrElse(data.title, ReportId(idTime))
  }

  /** The metadata `updateReport` writes: the given fields over the existing
      ones, and the new update time; id, file name and creation time stay. */
  function UpdatedMeta(m: ReportMeta, data: ReportInput, now: Timestamp): (u: ReportMeta)
    ensures u.id == m.id && u.fileName == m.fileName && u.createdAt == m.createdAt && u.updatedAt == now
    ensures u.title == (if data.title.Some? then data.title.value else m.title)
    ensures u.description == (if data.description.Some? then data.description.value else m.description)
    ensures u.categories == (if data.categories.Some? then data.categories.value else m.categories)
  {
    m.(title := if data.title.Some? then data.title.value else m.title,
       description := if data.description.Some? then data.description.value else m.description,
       categories := if data.categories.Some? then data.categories.value else m.categories,
       updatedAt := now)
  }

  /** The two files `updateReport` commits: the HTML at the entry's file
      name, then the index with entry `i` replaced. */
  function UpdateFiles(reports: seq<ReportMeta>, i: nat, data: ReportInput, now: Timestamp)
    : (fs: seq<FileToCommit>)
    requires i < |reports|
    ensures |fs| == 2
  {
    [FileToCommit(HtmlPath(reports[i].fileName), data.htmlCode),
     FileToCommit(IndexPath, IndexJson(IndexDoc("1.0", now, reports[i := UpdatedMeta(reports[i], data, now)])))]
  }

  function UpdateMessage(m: ReportMeta, data: ReportInput, now: Timestamp): string {
    "Update report: " + UpdatedMeta(m, data, now).title
  }

  /** Two committed files, the first at a path other than the second's: both
      are at the head afterwards under consecutive new blob ids. */
  lemma CommittedPair(files0: map<string, StoredFile>, fs: seq<FileToCommit>, first: nat)
    requires |fs| == 2
    ensures Committed(files0, fs, first)
         == files0[fs[0].path := StoredFile(fs[0].content, Sha(first))]
                  [fs[1].path := StoredFile(fs[1].content, Sha(first + 1))]
  {
    var one := fs[..1];
    assert one[..0] == [];
    assert Committed(files0, one, first) == files0[fs[0].path := StoredFile(fs[0].content, Sha(first))];
    assert fs[..|fs| - 1] == one;
  }

  // ---------------------------------------------------------------------------
  // What a successful operation leaves behind
  // ---------------------------------------------------------------------------

  /** After `createReport`, the index reads back as the old entries with the
      new one appended. */
  lemma CreatedIndex(files0: map<string, StoredFile>, reports: seq<ReportMeta>, data: ReportInput,
                     idTime: nat, now: Timestamp, first: nat, later: Timestamp)
    ensures var files := Committed(files0, CreateFiles(reports, data, idTime, now), first);
      IndexRead(None, files, later)
        == Ok(IndexView("1.0", now, reports + [CreatedMeta(data, idTime, now)], Some(Sha(first + 1))))
  {
    var fs := CreateFiles(reports, data, idTime, now);
    CommittedPair(files0, fs, first);
    IndexReadBack(Committed(files0, fs, first), IndexDoc("1.0", now, reports + [CreatedMeta(data, idTime, now)]),
                  Sha(first + 1), later);
  }

  /** Creating and then reading a report gives back what was created: its
      metadata and its HTML, provided its id was not already in the index
      and the HTML is not empty (an empty file reads as missing). */
  lemma CreateThenGet(files0: map<string, StoredFile>, reports: seq<ReportMeta>, data: ReportInput,
                      idTime: nat, now: Timestamp, first: nat, later: Timestamp)
    requires Find(reports, ReportId(idTime)).None?
    requires data.htmlCode != Text("")
    ensures var files := Committed(files0, CreateFiles(reports, data, idTime, now), first);
      ReportAnswer(None, None, files, ReportId(idTime), later)
        == Ok(Some(FullReport(CreatedMeta(data, idTime, now), data.htmlCode)))
  {
    var fs := CreateFiles(reports, data, idTime, now);
    var files := Committed(files0, fs, first);
    var m := CreatedMeta(data, idTime, now);
    CreatedIndex(files0, reports, data, idTime, now, first, later);
    FindAppended(reports, m);
    CommittedPair(files0, fs, first);
    assert files[HtmlPath(m.fileName)] == StoredFile(data.htmlCode, Sha(first));
  }

  /** `updateReport` replaces the first entry with the id and nothing else. */
  lemma UpdateReplacesFirst(reports: seq<ReportMeta>, id: string, data: ReportInput, now: Timestamp)
    requires FindIndex(reports, id).Some?
    ensures var i := FindIndex(reports, id).value;
      var after := UpdateFiles(reports, i, data, now)[1].content.doc.reports;
      && |after| == |reports|
      && after[i] == UpdatedMeta(reports[i], data, now)
      && (forall j :: 0 <= j < |reports| && j != i ==> after[j] == reports[j])
  {
  }

  /** Updating and then reading a report gives back the updated metadata and
      the new HTML, provided the HTML is not empty. */
  lemma UpdateThenGet(files0: map<string, StoredFile>, reports: seq<ReportMeta>, id: string,
                      data: ReportInput, now: Timestamp, first: nat, later: Timestamp)
    requires FindIndex(reports, id).Some?
    requires data.htmlCode != Text("")
    ensures var i := FindIndex(reports, id).value;
      var files := Committed(files0, UpdateFiles(reports, i, data, now), first);
      ReportAnswer(None, None, files, id, later)
        == Ok(Some(FullReport(UpdatedMeta(reports[i], data, now), data.htmlCode)))
  {
    var i := FindIndex(reports, id).value;
    var fs := UpdateFiles(reports, i, data, now);
    var files := Committed(files0, fs, first);
    var after := reports[i := UpdatedMeta(reports[i], data, now)];
    CommittedPair(files0, fs, first);
    IndexReadBack(files, IndexDoc("1.0", now, after), Sha(first + 1), later);
    FindIndexReplaced(reports, id, i, UpdatedMeta(reports[i], data, now));
    var m := UpdatedMeta(reports[i], data, now);
    assert files[HtmlPath(m.fileName)] == StoredFile(data.htmlCode, Sha(first));
  }

  /** The files after `deleteReport` removed the entries for `id`: the HTML
      file at `path` gone, and the index without those entries saved at
      `now` under blob id `s`. */
  function Deleted(files: map<string, StoredFile>, path: string, index: IndexView, id: string,
                   now: Timestamp, s: Sha): map<string, StoredFile>
  {
    (files - {path})[IndexPath := StoredFile(SavedIndex(index.(reports := RemoveReport(index.reports, id)), now), s)]
  }

  /** After `deleteReport`, the index no longer has the id, so reading the
      report finds nothing. */
  lemma DeleteThenGet(files0: map<string, StoredFile>, index: IndexView, id: string, now: Timestamp,
                      s: Sha, later: Timestamp)
    requires Find(index.reports, id).Some?
    ensures ReportAnswer(None, None, Deleted(files0, HtmlPath(Find(index.reports, id).value.fileName), index, id, now, s),
                         id, later) == Ok(None)
  {
    var after := RemoveReport(index.reports, id);
    var files := Deleted(files0, HtmlPath(Find(index.reports, id).value.fileName), index, id, now, s);
    IndexReadBack(files, IndexDoc(index.version, now, after), s, later);
  }

  /** What `deleteReport` has found once its two reads are done, given their
      scripted outcomes `f0` and `f1`: the index, the first entry with the
      id, and the blob id of that entry's HTML file. */
  datatype Target = Target(index: IndexView, meta: ReportMeta, sha: Sha)

  function DeleteTarget(f0: Option<ApiError>, f1: Option<ApiError>, files: map<string, StoredFile>,
                        id: string, now: Timestamp): (t: Result<Target, ManagerError>)
    ensures t.Ok? ==>
      && f0.None? && f1.None?
      && IndexRead(None, files, now) == Ok(t.value.index)
      && Find(t.value.index.reports, id) == Some(t.value.meta)
      && HtmlPath(t.value.meta.fileName) in files
      && files[HtmlPath(t.value.meta.fileName)].sha == t.value.sha
      && IndexPath in files && t.value.index.sha == Some(files[IndexPath].sha)
  {
    match IndexRead(f0, files, now)
    case Err(e) => Err(e)
    case Ok(index) =>
      match Find(index.reports, id)
      case None => Err(ReportNotFound(id))
      case Some(m) =>
        match FetchFile(f1, files, HtmlPath(m.fileName))
        case Err(e) => Err(Api(e))
        case Ok(None) => Err(HtmlNotFound(HtmlPath(m.fileName)))
        case Ok(Some(h)) => IndexShaCurrent(files, index, now); Ok(Target(index, m, h.sha))
  }

  /** The reads `deleteReport` sends: the index, and then the HTML file of
      the first entry with the id when the index has one. */
  function DeleteReads(read: Result<IndexView, ManagerError>, id: string): (rs: seq<Request>)
    ensures NoWrites(rs)
    ensures |rs| >= 1 && rs[0] == GetContents(IndexPath)
    ensures |rs| == 2 <==> read.Ok? && Find(read.value.reports, id).Some?
    ensures |rs| == 2 ==> rs[1] == GetContents(HtmlPath(Find(read.value.reports, id).value.fileName))
  {
    if read.Ok? && Find(read.value.reports, id).Some? then
      [GetContents(IndexPath), GetContents(HtmlPath(Find(read.value.reports, id).value.fileName))]
    else [GetContents(IndexPath)]
  }

  /** The writes `deleteReport` sends once its target is found, in order:
      the HTML file is deleted with the blob id its read returned, and then
      the index without the id's entries is saved over the index's own blob
      id. */
  function DeleteWrites(t: Target, id: string, now: Timestamp): seq<Request> {
    var remaining := t.index.(reports := RemoveReport(t.index.reports, id));
    [DeleteContents(HtmlPath(t.meta.fileName), "Delete report: " + t.meta.title, t.sha),
     PutContents(IndexPath, PutRequestBody(SavedIndex(remaining, now), SaveMessage(remaining), t.index.sha))]
  }

  /** The three ways `deleteReport` stops before writing: a failed index
      read is passed on, an id the index lacks is `Report not found`, and a
      missing HTML file is `HTML file not found`. */
  lemma DeleteTargetErrors(f0: Option<ApiError>, f1: Option<ApiError>, files: map<string, StoredFile>,
                           id: string, now: Timestamp)
    ensures IndexRead(f0, files, now).Err? ==> DeleteTarget(f0, f1, files, id, now) == Err(IndexRead(f0, files, now).error)
    ensures IndexRead(f0, files, now).Ok? && Find(IndexRead(f0, files, now).value.reports, id).None? ==>
      DeleteTarget(f0, f1, files, id, now) == Err(ReportNotFound(id))
    ensures f0.None? && f1.None? && (forall i :: 0 <= i < |IndexRead(None, files, now).value.reports| ==>
                                        IndexRead(None, files, now).value.reports[i].id != id) ==>
      DeleteTarget(f0, f1, files, id, now) == Err(ReportNotFound(id))
  {
  }

  // ---------------------------------------------------------------------------
  // The manager against the repository
  // ---------------------------------------------------------------------------

  class Manager {
    const github: Store

    constructor(github: Store)
      ensures this.github == github
    {
      this.github := github;
    }

    /** `getReportsIndex()`: one read of the index file. */
    method GetReportsIndex(now: Timestamp) returns (r: Result<IndexView, ManagerError>)
      modifies github`log
      ensures github.log == old(github.log) + [GetContents(IndexPath)]
      ensures r == IndexRead(old(github.NextFault()), old(github.Files()), now)
    {
      var file := github.GetFileContent(IndexPath);
      r := match file
        case Err(e) => Err(Api(e))
        case Ok(f) => Ok(IndexFrom(f, now));
    }

    /** `saveReportsIndex(index, sha)`: the index document, stamped `now`,
        written over the file with blob id `sha`. */
    method SaveReportsIndex(index: IndexView, sha: Option<Sha>, now: Timestamp) returns (r: Result<Sha, ApiError>)
      requires github.Valid()
      modifies github`repo, github`log
      ensures github.Valid()
      ensures github.log == old(github.log)
        + [PutContents(IndexPath, PutRequestBody(SavedIndex(index, now), SaveMessage(index), sha))]
      ensures r.Ok? <==> old(github.NextFault()).None? && sha == old(github.CurrentSha(IndexPath))
      ensures r.Ok? ==>
        github.Files() == old(github.Files())[IndexPath := StoredFile(SavedIndex(index, now), Sha(old(github.repo.nextId)))]
      ensures r.Err? ==> unchanged(github`repo)
    {
      r := github.CreateOrUpdateFile(IndexPath, SavedIndex(index, now), SaveMessage(index), sha);
    }

    /** `getAllReports()`: the index's entries as they are. */
    method GetAllReports(now: Timestamp) returns (r: Result<seq<ReportMeta>, ManagerError>)
      modifies github`log
      ensures github.log == old(github.log) + [GetContents(IndexPath)]
      ensures var read := IndexRead(old(github.NextFault()), old(github.Files()), now);
        r == if read.Ok? then Ok(read.value.reports) else Err(read.error)
    {
      var index := GetReportsIndex(now);
      r := if index.Ok? then Ok(index.value.reports) else Err(index.error);
    }

    /** `getReport(id)`: the index, then the HTML file of the first entry
        with the id. Reading changes nothing in the repository. */
    method GetReport(id: string, now: Timestamp) returns (r: Result<Option<FullReport>, ManagerError>)
      modifies github`log
      ensures github.log == old(github.log) + ReportReads(old(github.NextFault()), old(github.Files()), id, now)
      ensures r == ReportAnswer(old(github.NextFault()), FaultAt(github.faults, |old(github.log)| + 1),
                                old(github.Files()), id, now)
    {
      ghost var f0, files0, log0 := github.NextFault(), github.Files(), github.log;
      var index := GetReportsIndex(now);
      if index.Err? {
        return Err(index.error);
      }
      var meta := Find(index.value.reports, id);
      if meta.None? {
        return Ok(None);
      }
      ghost var asked := [GetContents(IndexPath), GetContents(HtmlPath(meta.value.fileName))];
      assert ReportReads(f0, files0, id, now) == asked;
      var html := github.GetFileContent(HtmlPath(meta.value.fileName));
      AppendTwo(log0, GetContents(IndexPath), GetContents(HtmlPath(meta.value.fileName)));
      r := match html
        case Err(e) => Err(Api(e))
        case Ok(None) => Ok(None)
        case Ok(Some(h)) => Ok(Some(FullReport(meta.value, h.content)));
    }

    /** `createReport(data)`: read the index, then one batch commit of the
        HTML file and the index with the new entry appended. The answer is
        the new metadata with the HTML. */
    method CreateReport(data: ReportInput, idTime: nat, now: Timestamp) returns (r: Result<FullReport, ManagerError>)
      requires github.Valid()
      modifies github`repo, github`log
      ensures github.Valid()
      ensures var read := IndexRead(old(github.NextFault()), old(github.Files()), now);
        && (read.Err? ==> r == Err(read.error) && unchanged(github`repo)
                          && github.log == old(github.log) + [GetContents(IndexPath)])
        && (read.Ok? ==>
              var files := CreateFiles(read.value.reports, data, idTime, now);
              && Run(github.repo, |github.log|, ApiFault(r))
                 == BatchRun(old(github.repo), github.faults, |old(github.log)| + 1, files, CreateMessage(data, idTime))
              && github.log == old(github.log) + [GetContents(IndexPath)]
                 + BatchRequests(files, CreateMessage(data, idTime), old(github.repo.head),
                                 old(github.repo.commits[github.repo.head].tree), old(github.repo.nextId))
                   [..|github.log| - |old(github.log)| - 1]
              && (r.Ok? ==> github.Files() == Committed(old(github.Files()), files, old(github.repo.nextId))))
      ensures r.Ok? ==> r.value == FullReport(CreatedMeta(data, idTime, now), data.htmlCode)
      ensures r.Err? ==> github.Files() == old(github.Files())
    {
      ghost var g0 := github.repo;
      var index := GetReportsIndex(now);
      if index.Err? {
        return Err(index.error);
      }
      var meta := CreatedMeta(data, idTime, now);
      var files := [FileToCommit(HtmlPath(meta.fileName), data.htmlCode),
                    FileToCommit(IndexPath, IndexJson(IndexDoc("1.0", now, index.value.reports + [meta])))];
      ghost var n := |github.log|;
      var commit := github.BatchCommit(files, CreateMessage(data, idTime));
      CommitOutcome(g0, github.faults, n, files, CreateMessage(data, idTime), commit.Ok?);
      r := if commit.Ok? then Ok(FullReport(meta, data.htmlCode)) else Err(Api(commit.error));
    }

    /** `updateReport(id, data)`: read the index; an id it lacks throws
        before any write; otherwise one batch commit of the HTML file and the
        index with the first entry for the id replaced. */
    method UpdateReport(id: string, data: ReportInput, now: Timestamp) returns (r: Result<FullReport, ManagerError>)
      requires github.Valid()
      modifies github`repo, github`log
      ensures github.Valid()
      ensures var read := IndexRead(old(github.NextFault()), old(github.Files()), now);
        && (read.Err? ==> r == Err(read.error) && unchanged(github`repo)
                          && github.log == old(github.log) + [GetContents(IndexPath)])
        && (read.Ok? && FindIndex(read.value.reports, id).None? ==>
              r == Err(ReportNotFound(id)) && unchanged(github`repo)
              && github.log == old(github.log) + [GetContents(IndexPath)])
        && (read.Ok? && FindIndex(read.value.reports, id).Some? ==>
              var i := FindIndex(read.value.reports, id).value;
              var files := UpdateFiles(read.value.reports, i, data, now);
              var message := UpdateMessage(read.value.reports[i], data, now);
              && Run(github.repo, |github.log|, ApiFault(r))
                 == BatchRun(old(github.repo), github.faults, |old(github.log)| + 1, files, message)
              && github.log == old(github.log) + [GetContents(IndexPath)]
                 + BatchRequests(files, message, old(github.repo.head),
                                 old(github.repo.commits[github.repo.head].tree), old(github.repo.nextId))
                   [..|github.log| - |old(github.log)| - 1]
              && (r.Ok? ==>
                    && r.value == FullReport(UpdatedMeta(read.value.reports[i], data, now), data.htmlCode)
                    && github.Files() == Committed(old(github.Files()), files, old(github.repo.nextId))))
      ensures r.Err? ==> github.Files() == old(github.Files())
    {
      ghost var log0 := github.log;
      var index := GetReportsIndex(now);
      if index.Err? {
        return Err(index.error);
      }
      var reports := index.value.reports;
      var i := FindIndex(reports, id);
      if i.None? {
        return Err(ReportNotFound(id));
      }
      assert |github.log| == |log0| + 1;
      ghost var g1, log1 := github.repo, github.log;
      r := CommitUpdate(reports, i.value, data, now);
      ghost var all := BatchRequests(UpdateFiles(reports, i.value, data, now), UpdateMessage(reports[i.value], data, now),
                                     g1.head, g1.commits[g1.head].tree, g1.nextId);
      assert github.log == log1 + all[..|github.log| - |log1|];
    }

    /** The writing half of `updateReport`, once entry `i` is the one to
        replace: one batch commit of the HTML file and the new index. */
    method CommitUpdate(reports: seq<ReportMeta>, i: nat, data: ReportInput, now: Timestamp)
      returns (r: Result<FullReport, ManagerError>)
      requires github.Valid() && i < |reports|
      modifies github`repo, github`log
      ensures github.Valid()
      ensures var files := UpdateFiles(reports, i, data, now);
        var message := UpdateMessage(reports[i], data, now);
        && Run(github.repo, |github.log|, ApiFault(r))
           == BatchRun(old(github.repo), github.faults, |old(github.log)|, files, message)
        && |old(github.log)| < |github.log| <= |old(github.log)| + |files| + 5
        && github.log == old(github.log)
           + BatchRequests(files, message, old(github.repo.head),
                           old(github.repo.commits[github.repo.head].tree), old(github.repo.nextId))
             [..|github.log| - |old(github.log)|]
        && (r.Ok? ==>
              && r.value == FullReport(UpdatedMeta(reports[i], data, now), data.htmlCode)
              && github.Files() == Committed(old(github.Files()), files, old(github.repo.nextId)))
      ensures r.Err? ==> github.Files() == old(github.Files())
    {
      ghost var g0, n := github.repo, |github.log|;
      var files := UpdateFiles(reports, i, data, now);
      var message := UpdateMessage(reports[i], data, now);
      var commit := github.BatchCommit(files, message);
      CommitOutcome(g0, github.faults, n, files, message, commit.Ok?);
      r := if commit.Ok? then Ok(FullReport(UpdatedMeta(reports[i], data, now), data.htmlCode))
           else Err(Api(commit.error));
    }

    /** `deleteReport(id)`: read the index; an id it lacks, or a missing
        HTML file, throws before any write. Otherwise the HTML file is
        deleted first and the index without the id's entries is saved after,
        over the blob id its own read returned. When the delete goes through
        and the save fails, the HTML file is gone and the index is as it
        was. */
    method DeleteReport(id: string, now: Timestamp) returns (r: Result<ReportMeta, ManagerError>)
      requires github.Valid()
      modifies github`repo, github`log
      ensures github.Valid()
      ensures var n := |old(github.log)|;
        var sent := DeleteReads(IndexRead(old(github.NextFault()), old(github.Files()), now), id);
        var t := DeleteTarget(old(github.NextFault()), FaultAt(github.faults, n + 1), old(github.Files()), id, now);
        && (t.Err? ==> && r == Err(t.error) && unchanged(github`repo)
                       && github.log == old(github.log) + sent
                       && NoWrites(github.log[n..]))
        && (t.Ok? ==>
              var path := HtmlPath(t.value.meta.fileName);
              && n + 2 < |github.log| <= n + 4
              && github.log == old(github.log) + sent + DeleteWrites(t.value, id, now)[..|github.log| - n - 2]
              && (FaultAt(github.faults, n + 2).Some? ==>
                    r.Err? && |github.log| == n + 3 && github.Files() == old(github.Files()))
              && (FaultAt(github.faults, n + 2).None? ==>
                    && |github.log| == n + 4
                    && (r.Ok? <==> FaultAt(github.faults, n + 3).None?)
                    && (r.Err? ==> github.Files() == old(github.Files()) - {path})))
        && (r.Ok? ==>
              && t.Ok? && r.value == t.value.meta
              && github.Files() == Deleted(old(github.Files()), HtmlPath(r.value.fileName), t.value.index, id, now,
                                           Sha(old(github.repo.nextId) + 2)))
    {
      var target := ReadTarget(id, now);
      if target.Err? {
        return Err(target.error);
      }
      r := DeleteAndSave(target.value.index, id, target.value.meta, target.value.sha, now);
    }

    /** The reading half of `deleteReport`: the index, then the HTML file of
        the first entry with the id. */
    method ReadTarget(id: string, now: Timestamp) returns (t: Result<Target, ManagerError>)
      modifies github`log
      ensures github.log == old(github.log) + DeleteReads(IndexRead(old(github.NextFault()), old(github.Files()), now), id)
      ensures t.Ok? ==> |github.log| == |old(github.log)| + 2
      ensures t == DeleteTarget(old(github.NextFault()), FaultAt(github.faults, |old(github.log)| + 1),
                                old(github.Files()), id, now)
    {
      var index := GetReportsIndex(now);
      if index.Err? {
        return Err(index.error);
      }
      var report := Find(index.value.reports, id);
      if report.None? {
        return Err(ReportNotFound(id));
      }
      var path := HtmlPath(report.value.fileName);
      var html := github.GetFileContent(path);
      if html.Err? {
        return Err(Api(html.error));
      }
      if html.value.None? {
        return Err(HtmlNotFound(path));
      }
      t := Ok(Target(index.value, report.value, html.value.value.sha));
    }

    /** The writing half of `deleteReport`, once the entry `m` for `id` and
        its HTML file's blob id `sha` are known: delete the file, then save
        the index without the id's entries over the index's own blob id.
        The save is sent only when the delete went through; the report is
        deleted when both go through. */
    method DeleteAndSave(index: IndexView, id: string, m: ReportMeta, sha: Sha, now: Timestamp)
      returns (r: Result<ReportMeta, ManagerError>)
      requires github.Valid()
      modifies github`repo, github`log
      ensures github.Valid()
      ensures r.Err? ==> r.error.Api?
      ensures var n := |old(github.log)|;
        var path := HtmlPath(m.fileName);
        var deleteOk := old(github.NextFault()).None? && old(github.CurrentSha(path)) == Some(sha);
        && n < |github.log| <= n + 2
        && github.log == old(github.log) + DeleteWrites(Target(index, m, sha), id, now)[..|github.log| - n]
        && (!deleteOk ==> r.Err? && |github.log| == n + 1 && unchanged(github`repo))
        && (deleteOk ==>
              && |github.log| == n + 2
              && (r.Ok? <==> FaultAt(github.faults, n + 1).None? && old(github.CurrentSha(IndexPath)) == index.sha)
              && (r.Err? ==> github.Files() == old(github.Files()) - {path}))
      ensures r.Ok? ==>
        && r.value == m
        && github.Files()
           == Deleted(old(github.Files()), HtmlPath(m.fileName), index, id, now, Sha(old(github.repo.nextId) + 2))
    {
      ghost var files0, n0, c0 := github.Files(), |github.log|, github.CurrentSha(IndexPath);
      ghost var writes := DeleteWrites(Target(index, m, sha), id, now);
      var path := HtmlPath(m.fileName);
      var remaining := index.(reports := RemoveReport(index.reports, id));
      var deleted := github.DeleteFile(path, sha, "Delete report: " + m.title);
      assert github.log == old(github.log) + writes[..1];
      if deleted.Err? {
        return Err(Api(deleted.error));
      }
      assert github.Files() == files0 - {path} && |github.log| == n0 + 1;
      assert github.CurrentSha(IndexPath) == c0;
      var saved := SaveReportsIndex(remaining, index.sha, now);
      assert github.log == old(github.log) + writes[..2];
      if saved.Err? {
        return Err(Api(saved.error));
      }
      r := Ok(m);
    }
  }

  /** What a batch commit leaves at the head: the committed files when it
      got through, and the old files when it failed. */
  lemma CommitOutcome(g: Repo, fs: seq<Option<ApiError>>, n: nat, files: seq<FileToCommit>, message: string,
                      ok: bool)
    requires RepoValid(g) && ok == BatchRun(g, fs, n, files, message).fault.None?
    ensures ok ==> RepoFiles(BatchRun(g, fs, n, files, message).repo) == Committed(RepoFiles(g), files, g.nextId)
    ensures !ok ==> RepoFiles(BatchRun(g, fs, n, files, message).repo) == RepoFiles(g)
  {
    BatchRunRepo(g, fs, n, files, message);
    if ok {
      BatchRunFiles(g, fs, n, files, message);
    }
  }
}
