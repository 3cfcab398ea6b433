# htmal-report, modelled in Dafny

htmal-report publishes HTML reports as a static site. An Express admin
server keeps its GitHub settings in a `.env` file. It writes reports to a
GitHub repository through a small REST client. The repository holds one
index file, `data/reports-index.json`, and one `reports/<id>.html` file per
report. A browser admin application edits the pages. The public home page
lists what is published, and the home-page components filter, count, page
and copy that list. An older page store and its diagnostic tool keep
records in a hosted object store.

This project models the core of that system and proves what it promises.

- `github_api.dfy` (`GitHubApi`): the client's per-response policy
  (success, waiting out a rate limit, backoff and retry, failure). It also
  holds the retry loop that policy produces, `getFileContent`'s handling of
  404, and the request bodies.
- `git_store.dfy` (`GitStore`): a git repository with blobs, trees, commits
  and one `main` ref. The class `Store` is the client's view of it: each
  request is logged, and a script of faults decides which requests fail.
  Its methods include `batchCommit`'s six steps.
- `reports_manager.dfy` (`ReportsManager`): the reports index and the HTML
  files. The class `Manager` runs `getReportsIndex`, `saveReportsIndex`,
  `getAllReports`, `getReport`, `createReport`, `updateReport` and
  `deleteReport` against a `Store`.
- `config_manager.dfy` (`ConfigManager`): the `.env` line parser, the
  `saveConfig` template with its read-back round trip, and `updateConfig`'s
  merge. The class `EnvFile` holds the file text.
- `server.dfy` (`AdminServer`): `initializeManagers`, the configuration
  routes, the `requireConfig` gate, and the validation and status codes of
  every report route.
- `pagination.dfy` (`Pagination`): the page-number window, built by a loop
  as the component builds it, and the arrow buttons.
- `listing.dfy` (`HomeListing`): the public home page's keyword and
  category filter, tab counts, page slices, batch-copy texts and share
  address. The class `HomeView` holds the list state.
- `admin_listing.dfy` (`AdminListing`): the admin copy of the home page,
  with copy link and share, and the management page. The management page
  has a one-step filter, counts over every page, 12 items per page and a
  batch copy over records that carry no file name. The class `AdminView`
  holds its state.
- `app_editor.dfy` (`AdminApp`): the admin application's configuration
  gate, its view switching, the editor's save checks and the category
  toggle. The class `App` holds this state.
- `html_storage.dfy` (`HtmlStorage`) and `db_diagnostic.dfy`
  (`DbDiagnostic`): the legacy page store's listing loop, validity rule,
  defaults and newest-first sort. Also the diagnostic's split of the
  records into valid and invalid.
- `reports_loader.dfy` (`ReportsLoader`): the published site's loader. It
  is proved to agree with the admin manager on what a published repository
  holds.
- `common.dfy` (`Common`, `Js`), `seqs.dfy` (`Seqs`) and `documents.dfy`
  (`Documents`): shared vocabulary. This covers options and results, the
  JavaScript string operations used, JavaScript values and their
  coercions, `filter` and `map`, and the stored documents.

Everything outside the program is an input:

- the HTTP responses and the clock readings `apiCall` sees;
- which repository requests fail;
- whether the `.env` file can be read or written;
- what the hosted object store answers;
- what `fetch` answers on the published site;
- the `Date.now()` values.

## Model

| member | source | states |
|---|---|---|
| GitHubApi.Decide | admin/lib/github-api.js:35-61 | A 2xx succeeds, with `{}` for an empty body. A 403 with remaining quota "0" and a reset time waits `max(0, reset*1000 - now) + 1000` ms (never under 1000) and keeps the attempt number. Otherwise a status of at least 500, or 429, below attempt 5 backs off `1500 * 2^(attempt-1)` ms and moves to the next attempt. Everything else fails with the status and the body. |
| GitHubApi.ApiCall | admin/lib/github-api.js:23-62 | For a scripted server, the call makes one request per pause plus the final one, and never more requests than the script has answers. |
| GitHubApi.RetryBudget | admin/lib/github-api.js:52-58 | From attempt `a`, at most `5 - a` backoff pauses, with total backoff at most the remaining terms of 1500, 3000, 6000 and 12000. At most `6 - a` requests are not rate-limited. |
| GitHubApi.FirstAttemptBudget | admin/lib/github-api.js:15-17 | From attempt 1: at most 4 backoffs and 22500 ms of backoff. Not counting rate-limited requests, at most 5 requests. |
| GitHubApi.PersistentFailureExhaustsRetries | admin/lib/github-api.js:52-61 | A server that keeps answering with a retriable status gets `6 - attempt` requests. The call then fails with the last status and body. |
| GitHubApi.RateLimitsDoNotConsumeAttempts | admin/lib/github-api.js:41-49 | Any number of rate-limited answers, more than five included, followed by a 2xx still succeeds, with one rate-limit pause each. |
| GitHubApi.ErrorMessageNamesStatus | admin/lib/github-api.js:60-61 | The thrown message contains the status in decimal. |
| GitHubApi.FileContentResult | admin/lib/github-api.js:101-123 | A failure whose message contains "404" gives `null`, and every other failure is rethrown. Missing or empty content gives `null`. Otherwise the result is the decoded content with its sha and path. |
| GitHubApi.NotFoundIsNull | admin/lib/github-api.js:117-120 | A 404 answer reads as a missing file. |
| GitHubApi.ServerErrorPropagates | admin/lib/github-api.js:117-122 | A 500 whose body has no '4' is rethrown unchanged. |
| GitHubApi.ServerErrorMentioning404IsNull | admin/lib/github-api.js:118-119 | As written, any error whose body text contains "404" also reads as a missing file. |
| GitHubApi.PutRequestBody | admin/lib/github-api.js:78-96 | The body carries the message and the content, which decodes back. It carries the sha exactly when one was passed. |
| GitHubApi.BlobRequestBody | admin/lib/github-api.js:157-169 | Binary content (a non-string, or a string holding NUL) goes as base64 with encoding "base64". Other content goes verbatim with "utf-8". The stored blob is the file's content either way. |
| GitStore.BaseName | admin/lib/github-api.js:110-114 | The file name is the path after its last '/', so it has no '/'. |
| GitStore.ReadFile | admin/lib/github-api.js:101-116 | A read finds a file exactly when the path holds non-empty content, and gives its content, blob id and path. |
| GitStore.FetchFileAnswer | admin/lib/github-api.js:101-123 | `getFileContent` applied to the contents API's answer is the file read. Without a scripted failure it never throws: a missing path answers 404, which reads as `null`. |
| GitStore.CommittedUntouched | admin/lib/github-api.js:181-191 | A commit leaves every path that is not committed as it was. |
| GitStore.EmptyRepo | admin/lib/github-api.js:145-152 | The starting repository is well formed and has no files at the head. |
| GitStore.RepoValidBlobs | admin/lib/github-api.js:181-191 | In a well-formed repository every file at the head names a stored blob with its content. |
| GitStore.AddBlobValid | admin/lib/github-api.js:155-179 | A new blob takes a fresh id, keeps the repository well formed and leaves the head's files alone. |
| GitStore.AddObjectValid | admin/lib/github-api.js:181-204 | A new tree or commit keeps the repository well formed and the head's tree unchanged. |
| GitStore.CommitTreeValid | admin/lib/github-api.js:181-215 | Committing a tree whose blobs exist makes it the head's tree. The new commit's only parent is the old head, and the blobs are unchanged. |
| GitStore.Entries | admin/lib/github-api.js:155-179 | One tree entry per file. |
| GitStore.BlobRequests | admin/lib/github-api.js:155-169 | One blob request per file. |
| GitStore.BatchRequests | admin/lib/github-api.js:145-218 | A batch commit sends `files + 5` requests: two reads, the blobs, the tree, the commit and the ref update. |
| GitStore.WriteRequests | admin/lib/github-api.js:155-215 | After the reads, `files + 3` requests. |
| GitStore.FinalSteps | admin/lib/github-api.js:181-215 | Tree, commit and ref update: three requests. |
| GitStore.BlobsRun | admin/lib/github-api.js:155-179 | The blob requests send at most one request per file. |
| GitStore.FinalRun | admin/lib/github-api.js:181-215 | The final steps send between one and three requests. |
| GitStore.BatchRun | admin/lib/github-api.js:145-218 | A batch commit sends at least one and at most `files + 5` requests. |
| GitStore.WriteRun | admin/lib/github-api.js:155-215 | The writes send at most `files + 3` requests. |
| GitStore.BlobsRunStep | admin/lib/github-api.js:155-179 | One more blob request either stops at its scripted fault or stores the file's content as a blob and goes on. |
| GitStore.BlobsRunKeeps | admin/lib/github-api.js:155-179 | Blob requests leave the trees, the commits and the head unchanged. |
| GitStore.BlobsRunFiles | admin/lib/github-api.js:155-179 | Blob requests leave the files at the head unchanged. |
| GitStore.BlobsRunStoresAt | admin/lib/github-api.js:162-178 | When the blobs all get through, the k-th new id holds the k-th file's content. |
| GitStore.BlobsDone | admin/lib/github-api.js:155-191 | When the blobs all get through, the head is unchanged and the new tree names only existing blobs. |
| GitStore.FinalRunEnds | admin/lib/github-api.js:181-215 | The final steps get through exactly when none of the three is scripted to fail. |
| GitStore.FinalRunRepo | admin/lib/github-api.js:181-215 | Success commits the new tree over the head's tree. Failure leaves the head and its files. |
| GitStore.ClearSplit | admin/lib/github-api.js:145-218 | A run of requests gets through exactly when both of its parts do. |
| GitStore.RanJoin | admin/lib/github-api.js:145-218 | A run that got through, followed by another run, is one run ending as the second does. |
| GitStore.WriteRunValid | admin/lib/github-api.js:155-215 | The writes keep the repository well formed. |
| GitStore.WriteRunRepo | admin/lib/github-api.js:155-215 | The writes keep the repository well formed. Failed writes leave the head and its files. |
| GitStore.EntryFilesInBlobs | admin/lib/github-api.js:181-191 | The server's tree names only stored blobs, with their contents. |
| GitStore.EntryFilesCommitted | admin/lib/github-api.js:181-191 | The tree built from the first n entries over a base is the base with the first n files written over it. |
| GitStore.EntryFilesCommittedAll | admin/lib/github-api.js:181-191 | The tree of all entries over a base is the base with every committed file written over it. |
| GitStore.BlobsRunEnds | admin/lib/github-api.js:155-179 | The blob requests all get through exactly when none is scripted to fail. Each file then has a new blob. |
| GitStore.BlobsRunStores | admin/lib/github-api.js:162-178 | After the blob step, tree entry k names the blob holding file k's content. |
| GitStore.BlobsRunShape | admin/lib/github-api.js:155-179 | Blob requests only add blobs, under fresh ids. Trees, commits and the head stay. |
| GitStore.FinalRunStages | admin/lib/github-api.js:181-215 | The final steps leave, in order of how far they got: nothing, then the tree, then the tree and the commit, and finally the tree committed with the head moved. |
| GitStore.BatchRunReads | admin/lib/github-api.js:146-152 | A failed ref or commit read stops the batch before any write. |
| GitStore.BatchRunEnds | admin/lib/github-api.js:145-218 | A batch commit gets through exactly when none of its `files + 5` requests fails. |
| GitStore.BatchRunStages | admin/lib/github-api.js:145-218 | The stages run in order (reads, blobs, tree, commit, ref), and the batch stops at the first that fails. |
| GitStore.BatchRunRepo | admin/lib/github-api.js:145-218 | The repository stays well formed. A failed batch leaves the head and its files unchanged. |
| GitStore.BatchRunTree | admin/lib/github-api.js:181-191 | The committed tree is the new entries over the head commit's tree (`base_tree`). |
| GitStore.BatchRunHead | admin/lib/github-api.js:193-215 | The head moves to a new commit of that tree whose only parent is the old head. |
| GitStore.BatchRunFiles | admin/lib/github-api.js:145-218 | A batch that gets through leaves the old files with the committed files written over them. The last occurrence of a path wins. |
| GitStore.Store.GetRepoInfo | admin/lib/github-api.js:71-73 | One read, which fails only as scripted. |
| GitStore.Store.Init | admin/lib/github-api.js:10-17 | The client starts on a repository with one empty commit on `main`, with an empty log and the given fault script. |
| GitStore.Store.Send | admin/lib/github-api.js:23-34 | A request is appended to the log and gets the next scripted outcome. |
| GitStore.Store.GetFileContent | admin/lib/github-api.js:101-123 | One logged read whose answer is the file read under the scripted fault. |
| GitStore.Store.CreateOrUpdateFile | admin/lib/github-api.js:78-96 | Logs the PUT. It succeeds exactly when no fault is scripted and the sha is the file's current one (absent for a new file); the file then holds the content under a new blob id. Otherwise the repository is unchanged. |
| GitStore.Store.DeleteFile | admin/lib/github-api.js:128-139 | Succeeds exactly when no fault is scripted and the sha is current, and the path is then gone. A missing path answers 404. |
| GitStore.Store.ReadHead | admin/lib/github-api.js:146-152 | Reads the ref, then that commit. Returns the head and its tree. |
| GitStore.Store.BlobStep | admin/lib/github-api.js:157-178 | One blob request. Its id is the next one, and the content is stored unless it is scripted to fail. |
| GitStore.Store.PostBlobs | admin/lib/github-api.js:155-179 | The loop's new state is the blob run. The log holds one blob request per file sent, and the entries are one per file, in order. |
| GitStore.Store.CommitEntries | admin/lib/github-api.js:181-215 | The tree, commit and ref requests. The answer names the new commit, its tree and the head as only parent. |
| GitStore.Store.WriteFiles | admin/lib/github-api.js:155-217 | The new state is `WriteRun`, and the log is a prefix of `WriteRequests`. Success names the new head commit. |
| GitStore.Store.BatchCommit | admin/lib/github-api.js:145-218 | The new repository and log are `BatchRun` and a prefix of `BatchRequests`. The answer is the new head commit, whose only parent is the old head. |
| ReportsManager.HtmlPath | admin/lib/reports-manager.js:99-106 | A report's HTML never lives at the index path. |
| ReportsManager.IndexFrom | admin/lib/reports-manager.js:17-45 | A missing index is version "1.0", empty and without sha. An unparsable one is empty but keeps the file's sha. Otherwise it is the parsed document with the file's sha. |
| Documents.ParseIndex | admin/lib/reports-manager.js:29-44 | The text parses exactly when it is an index document. |
| ReportsManager.IndexReadBack | admin/lib/reports-manager.js:50-63 | An index written by the manager reads back with the same fields and blob id. |
| ReportsManager.IndexReadMissing | admin/lib/reports-manager.js:20-27 | Without an index file the index is empty, version "1.0". |
| ReportsManager.IndexShaCurrent | admin/lib/reports-manager.js:17-45 | An index with entries came from a stored file and carries its blob id. |
| ReportsManager.FindIndex | admin/lib/reports-manager.js:135-138 | `findIndex`: none exactly when no entry has the id. Otherwise it is the first position with the id. |
| ReportsManager.Find | admin/lib/reports-manager.js:190-193 | `find`: none exactly when no entry has the id. Otherwise an entry with that id. |
| ReportsManager.FindAppended | admin/lib/reports-manager.js:114-117 | An id absent from the index finds the entry appended for it. |
| ReportsManager.FindIndexReplaced | admin/lib/reports-manager.js:153 | Replacing the first entry with an id keeps it the first entry with that id. |
| ReportsManager.RemoveReport | admin/lib/reports-manager.js:204 | No entry with the id is left, and the list does not grow. |
| ReportsManager.RemoveKeeps | admin/lib/reports-manager.js:204 | An entry is kept exactly when it was there and has another id. |
| ReportsManager.RemoveAbsent | admin/lib/reports-manager.js:204 | Removing an absent id changes nothing. |
| ReportsManager.RemoveShrinks | admin/lib/reports-manager.js:204 | Removing an id that is present shrinks the index. |
| ReportsManager.ReportReadsOnly | admin/lib/reports-manager.js:222-244 | `getReport` sends one or two reads, the index read first, and no write. |
| ReportsManager.ReportAnswerFaultFree | admin/lib/reports-manager.js:222-244 | Without faults, the report is absent exactly when no entry has the id or its HTML file is missing or empty. Otherwise it is the first entry with the file's content. |
| ReportsManager.OrElse | admin/lib/reports-manager.js:91-93 | `s \|\| d` gives `d` or a non-empty `s`. |
| ReportsManager.CreatedMeta | admin/lib/reports-manager.js:79-96 | The id comes from `idTime` and the file name is id + ".html". Created and updated times are both `now`. Missing fields default to "无标题", "" and []. |
| ReportsManager.CreateFiles | admin/lib/reports-manager.js:99-112 | Two files, the HTML first. |
| ReportsManager.CreatedIndex | admin/lib/reports-manager.js:99-117 | After the commit, the index reads back as the old entries with the new one appended. |
| ReportsManager.CreateThenGet | admin/lib/reports-manager.js:99-121 | For a fresh id and non-empty HTML, reading the created report gives its metadata and HTML back. |
| ReportsManager.UpdatedMeta | admin/lib/reports-manager.js:145-151 | The given fields replace the old ones and absent ones stay. Id, file name and creation time are kept, and `updatedAt` is `now`. |
| ReportsManager.UpdateFiles | admin/lib/reports-manager.js:153-175 | Two files, the HTML first, then the index. |
| ReportsManager.CommittedPair | admin/lib/reports-manager.js:114-117 | Committing two files leaves both at the head under consecutive new blob ids. |
| ReportsManager.UpdateReplacesFirst | admin/lib/reports-manager.js:135-153 | Only the first entry with the id is replaced. The length and every other entry stay. |
| ReportsManager.UpdateThenGet | admin/lib/reports-manager.js:128-180 | For non-empty HTML, reading the report after an update gives the updated metadata and the new HTML. |
| ReportsManager.DeleteThenGet | admin/lib/reports-manager.js:185-217 | After a delete, reading the id finds nothing. |
| ReportsManager.DeleteTarget | admin/lib/reports-manager.js:187-201 | What the delete's reads found: the index as read, the first entry with the id, and the current blob ids of the HTML file and the index. |
| ReportsManager.DeleteTargetErrors | admin/lib/reports-manager.js:187-201 | A failed index read is passed on. An absent id is "Report not found", before any write. |
| ReportsManager.CommitOutcome | admin/lib/reports-manager.js:114-117 | A batch commit that gets through leaves the committed files, and a failed one leaves the old files. |
| ReportsManager.Manager.GetReportsIndex | admin/lib/reports-manager.js:17-45 | One read of the index file. The answer is `IndexRead` of the files before. |
| ReportsManager.Manager.constructor | admin/lib/reports-manager.js:9-12 | The manager works through the given client. |
| ReportsManager.Manager.SaveReportsIndex | admin/lib/reports-manager.js:50-63 | Writes the stamped index over `sha`. It succeeds exactly when no fault is scripted and `sha` is current, and the index file then holds the new document. |
| ReportsManager.Manager.GetAllReports | admin/lib/reports-manager.js:249-252 | The index's entries as they are, or the read's error. |
| ReportsManager.Manager.GetReport | admin/lib/reports-manager.js:222-244 | Only reads, and answers `ReportAnswer` of the files before. |
| ReportsManager.Manager.CreateReport | admin/lib/reports-manager.js:75-123 | A failed read changes nothing. Otherwise there is one batch commit of `CreateFiles`. On success it answers the new metadata with the HTML and the files are the committed ones; on failure the files are unchanged. |
| ReportsManager.Manager.UpdateReport | admin/lib/reports-manager.js:128-180 | An absent id throws "Report not found" with no write. Otherwise there is one batch commit replacing the first entry. On success it answers the updated metadata. |
| ReportsManager.Manager.CommitUpdate | admin/lib/reports-manager.js:145-178 | One batch commit of the HTML and the index with entry i replaced. Success answers the updated metadata and leaves the committed files; failure leaves the files. |
| ReportsManager.DeleteReads | admin/lib/reports-manager.js:187-201 | The reads are the index and then, when the index has the id, the HTML file of its first entry. Neither is a write. |
| ReportsManager.Manager.ReadTarget | admin/lib/reports-manager.js:187-201 | Sends exactly those reads and answers what `DeleteTarget` gives for them. |
| ReportsManager.Manager.DeleteReport | admin/lib/reports-manager.js:185-217 | On the three throwing paths only the reads are sent and the repository is unchanged. Otherwise the two reads are followed by a prefix of `DeleteWrites`: the HTML delete with the sha from the HTML read, then the index PUT with the index read's sha. A failed delete sends no PUT and changes nothing. After a delete that went through and a failed save, the HTML file is gone and the rest is unchanged. On success the answer is the removed metadata, and the files are the old ones without the HTML and with the new index. |
| ReportsManager.Manager.DeleteAndSave | admin/lib/reports-manager.js:204-216 | Sends the delete and then, only when it went through, the PUT over the index's own blob id. A failed delete changes nothing. A delete that went through followed by a failed save leaves the files without the HTML. The whole succeeds exactly when both requests get through against current blob ids. |
| ConfigManager.StripQuotes | admin/lib/config-manager.js:50 | One leading and one trailing quote are removed independently. |
| ConfigManager.ParseLine | admin/lib/config-manager.js:37-54 | The key is the trimmed text before the first '=' and the value the stripped, trimmed text after it. The line is kept only when both are non-empty. |
| ConfigManager.ParseLines | admin/lib/config-manager.js:37-55 | One outcome per line. |
| ConfigManager.ParseLineSkips | admin/lib/config-manager.js:38-44 | Blank lines, comments and lines without '=' contribute nothing. |
| ConfigManager.CommentSkipped | admin/lib/config-manager.js:41 | A line starting with '#' is skipped whatever follows. |
| ConfigManager.StripQuotesAround | admin/lib/config-manager.js:50 | Quotes on both sides go, and they need not match. |
| ConfigManager.StripQuotesPlain | admin/lib/config-manager.js:50 | A value without quotes at its ends is kept whole. |
| ConfigManager.ParseKeyLine | admin/lib/config-manager.js:43-54 | `key=rhs` splits at the first '=' whatever `rhs` holds. It is kept when the unquoted value is non-empty. |
| ConfigManager.ParseAssignment | admin/lib/config-manager.js:43-54 | `key=value` parses to that key and value. The value may itself contain '='. |
| ConfigManager.ParseQuotedAssignment | admin/lib/config-manager.js:43-54 | A quoted value parses to the unquoted value. |
| ConfigManager.ApplyLastWins | admin/lib/config-manager.js:37-55 | A key is set exactly when some line sets it, and then holds the value of the last such line. |
| ConfigManager.ApplyNonEmpty | admin/lib/config-manager.js:52-54 | Every stored value is non-empty. |
| ConfigManager.SavedLines | admin/lib/config-manager.js:67-82 | The template's lines, one setting on each of four lines. |
| ConfigManager.HeaderSkipped | admin/lib/config-manager.js:68-69 | The template's header comments contribute nothing. |
| ConfigManager.SettingBlock | admin/lib/config-manager.js:70-81 | A blank line, a comment and a setting contribute only that setting. |
| ConfigManager.SavedEntries | admin/lib/config-manager.js:67-82 | The template's lines contribute exactly the four settings, in order. |
| ConfigManager.SaveThenParse | admin/lib/config-manager.js:28-82 | Reading back what `saveConfig` wrote gives exactly the four keys with the values written, for values that read back as written. |
| ConfigManager.SettingsOf | admin/lib/config-manager.js:110-120 | `null` stays `null`. Otherwise owner, repo and token come from their keys, and the port defaults to 3030. |
| ConfigManager.ValidIffKeysSet | admin/lib/config-manager.js:125-128 | Valid exactly when the file was read and sets owner, repo and token. |
| ConfigManager.Merged | admin/lib/config-manager.js:96-104 | For each of owner, repo, token and port, a truthy update wins. Otherwise the value on file is used, and `undefined` when the file has none. The port falls back to 3030 and is always truthy. |
| ConfigManager.SaveThenGet | admin/lib/config-manager.js:67-120 | After saving plain values, `getConfig` gives them back, and the configuration is valid. |
| ConfigManager.DefaultPortPlain | admin/lib/config-manager.js:67 | The default port 3030 reads back as written. |
| ConfigManager.EnvFile.HasConfig | admin/lib/config-manager.js:21-23 | True exactly when the file exists. |
| ConfigManager.EnvFile.constructor | admin/lib/config-manager.js:14-16 | The manager starts on the given `.env` contents. |
| ConfigManager.EnvFile.ReadConfig | admin/lib/config-manager.js:28-62 | `null` for a missing file or a failed read. Otherwise the loop over the lines yields the parse of the text. |
| ConfigManager.EnvFile.ReadLine | admin/lib/config-manager.js:37-55 | The per-line callback: a blank or `#` line leaves the settings as they are; any other line has the effect of its parse. |
| ConfigManager.EnvFile.StoreAssignment | admin/lib/config-manager.js:43-54 | A line without `=` stores nothing; otherwise the trimmed, unquoted key and value are stored when both are non-empty. |
| ConfigManager.ReadStep | admin/lib/config-manager.js:37-55 | Handling one more line keeps the settings on course for the parse of the whole text. |
| ConfigManager.EnvFile.SaveConfig | admin/lib/config-manager.js:67-91 | On success the file holds the template text. A failed write leaves it. |
| ConfigManager.EnvFile.UpdateConfig | admin/lib/config-manager.js:96-105 | Saves the merged values. |
| ConfigManager.EnvFile.GetConfig | admin/lib/config-manager.js:110-120 | The settings of what was read. |
| ConfigManager.ValidityValue | admin/lib/config-manager.js:125-128 | The `&&` chain's value is truthy exactly when the settings are valid. It is `null` without a file, `undefined` or `""` when a setting is missing, and the token itself when the settings are valid. |
| ConfigManager.EnvFile.IsConfigValid | admin/lib/config-manager.js:125-128 | Returns that value for the settings read. |
| ConfigManager.UpdateThenGet | admin/lib/config-manager.js:96-120 | After an update with plain values, `getConfig` gives back the merged values. A string port reads back as given. A numeric port reads back as its decimal text, and with no port in the update or the file the port reads "3030". |
| AdminServer.CredentialsOf | admin/server.js:33-41 | A manager exists exactly when owner, repo and token are all set. |
| AdminServer.SavedSettingsEnableReports | admin/server.js:69-95 | After saving plain settings, the managers are built from exactly those settings. |
| AdminServer.StatusResponse | admin/server.js:51-64 | Always 200. `configured` is what `isConfigValid()` returned, which is truthy exactly when the settings are valid. The `config` part is present only then and shows the token only as `tokenSet`. |
| AdminServer.StatusRevealsToken | admin/server.js:53-56 | As written, a valid configuration's answer carries the token as `configured`. |
| AdminServer.StatusDependsOnToken | admin/server.js:53-56 | As written, two configurations that differ only in their tokens get different answers. |
| AdminServer.IntendedStatusResponse | admin/server.js:51-64 | The intended answer: `configured` is a boolean with the same truthiness, and the `config` part is unchanged. |
| AdminServer.IntendedStatusHidesToken | admin/server.js:51-64 | The intended answer depends only on whether a token is set, never on its value. |
| AdminServer.Server.InitializeManagers | admin/server.js:33-41 | `true` exactly when the settings are valid; the managers are then rebuilt from them, otherwise the old ones stay. |
| AdminServer.Server.constructor | admin/server.js:33-44 | At start-up the managers are built from the settings read, when they are valid. |
| AdminServer.Server.ConfigStatus | admin/server.js:51-64 | The route as written: the status response, with `configured` holding `isConfigValid()`'s value, for the settings read. |
| AdminServer.Server.SaveConfig | admin/server.js:69-95 | 400 unless owner, repo and token are all given. 500 when the write fails. Otherwise 200, the template written, and the managers rebuilt. |
| AdminServer.Server.UpdateConfig | admin/server.js:100-117 | 500 when the write fails. Otherwise 200, the merged settings written, and the managers rebuilt. |
| AdminServer.RequireConfig | admin/server.js:122-130 | Without a manager, every report route answers 400. |
| AdminServer.CreateRejection | admin/server.js:186-198 | A body is accepted exactly when its title and HTML are truthy JSON values of any type and it has at least three categories. A falsy title or HTML gets the missing-fields message; otherwise a refusal gets the categories message. |
| AdminServer.TruthyFieldsPass | admin/server.js:186-241 | With enough categories, create accepts exactly the truthy title and HTML. A number, `true` or an object passes as a string would, and `0` is refused. |
| AdminServer.UpdateRejection | admin/server.js:229-241 | A body is accepted exactly when its title and HTML are truthy JSON values of any type, and given categories number at least three. A falsy title or HTML gets the missing-fields message; otherwise a refusal gets the categories message. |
| AdminServer.UpdateAcceptsMore | admin/server.js:186-241 | Whatever create accepts, update accepts too. An update without categories is one that create rejects. |
| AdminServer.ListResponse | admin/server.js:135-149 | 400 when not configured, 200 with the list, and 500 with the error's message. |
| AdminServer.GetResponse | admin/server.js:154-176 | A configured route answers 404 exactly when the report is `null`. |
| AdminServer.CreateResponse | admin/server.js:181-219 | A rejected body is 400 and the manager is not used. Then 200 with the report, or 500 with the message. |
| AdminServer.UpdateResponse | admin/server.js:224-262 | Same as create, with the update checks. |
| AdminServer.DeleteResponse | admin/server.js:267-283 | 200 with the removed report, or 500 with the message. |
| AdminServer.ConnectionResponse | admin/server.js:288-308 | 200 exactly when `getRepoInfo` does not throw. |
| AdminServer.StatusMatchesSuccess | admin/server.js:122-308 | Every report route answers 200 exactly when its body says success. Otherwise it answers 400, 404 or 500. |
| AdminServer.GetMissingIs404 | admin/server.js:154-163 | Against a fault-free repository, 404 exactly when no entry has the id or its HTML file is missing. |
| AdminServer.DeleteUnknownIs500 | admin/server.js:276-282 | Deleting an unknown id is 500 with "报告不存在: id", not 404. |
| Pagination.PushRange | admin/public/components/Pagination.js:10-12 | The push loop appends the pages `lo..hi` in order. |
| Pagination.RangeIndex | admin/public/components/Pagination.js:10-12 | The range `lo..hi` has `hi - lo + 1` entries, and entry k is page `lo + k`. |
| Pagination.RangeWellFormed | admin/public/components/Pagination.js:10-12 | A range is increasing, has no gaps, and stays within `lo..hi`. |
| Pagination.GetPageNumbers | admin/public/components/Pagination.js:5-32 | The loops build exactly the window `PageNumbers` describes. |
| Pagination.SmallWindow | admin/public/components/Pagination.js:9-12 | With at most 7 pages the window is `1..totalPages`. |
| Pagination.SmallShaped | admin/public/components/Pagination.js:9-12 | A window of at most 7 pages has the promised shape. |
| Pagination.FirstShaped | admin/public/components/Pagination.js:14-17 | The window near the start has the promised shape. |
| Pagination.LastWindow | admin/public/components/Pagination.js:18-21 | Near the end the window is `[1, ..., t-4..t]`. |
| Pagination.LastShaped | admin/public/components/Pagination.js:18-21 | The window near the end has the promised shape. |
| Pagination.MiddleWindow | admin/public/components/Pagination.js:22-28 | In the middle the window is `[1, ..., c-1, c, c+1, ..., t]`. |
| Pagination.MiddleShaped | admin/public/components/Pagination.js:22-28 | The window in the middle has the promised shape. |
| Pagination.WindowShape | admin/public/components/Pagination.js:5-32 | At most 7 entries, from page 1 to the last page. Numbers strictly increase and exist. Every `...` stands for at least one page, and the current page is shown. |
| Pagination.Render | admin/public/components/Pagination.js:3-64 | Nothing for at most one page. Prev is disabled exactly on page 1 and next exactly on the last page. |
| Pagination.ControlsStayInRange | admin/public/components/Pagination.js:36-64 | Enabled arrows and page buttons lead to existing pages. |
| HomeListing.KeywordFilteredSpec | components/HomePage.js:90-99 | The keyword step keeps order and keeps a page exactly when the trimmed keyword is blank or the title or description contains it, lower-cased. |
| HomeListing.FilteredPagesSpec | components/HomePage.js:83-112 | The list is an ordered subsequence, holding exactly the pages passing the keyword and the tab (`全部` or one of their categories). |
| HomeListing.CountTabs | components/HomePage.js:126-133 | The nested loop yields an entry for `全部` and for each listed category only. Each entry is the page count (for `全部`) plus how often the category is listed. |
| HomeListing.AddPageTags | components/HomePage.js:128-132 | The inner loop adds one to a category's entry per listing of it by the page. It creates missing entries and touches no other entry. |
| HomeListing.TallyPage | components/HomePage.js:127-133 | After a page's categories are added, the counts are those of the pages so far including it. |
| HomeListing.CategoryCounts | components/HomePage.js:114-135 | The counts are taken over the keyword-filtered pages, whatever the tab. |
| HomeListing.TagTotalPositive | components/HomePage.js:127-133 | A category is counted exactly when some page carries it. |
| HomeListing.TagTotalCoversFilter | components/HomePage.js:102-133 | A category's count is never below the number of pages carrying it. |
| HomeListing.TagTotalIsFilter | components/HomePage.js:102-133 | When no page lists a category twice, its count is the number of pages carrying it. |
| HomeListing.TabCountMatchesList | components/HomePage.js:114-135 | A tab's count is never below its list length, and equals it when no page repeats a category or lists `全部`. |
| HomeListing.PageCount | components/HomePage.js:137 | `ceil(n / size)`. |
| HomeListing.SliceIndex | components/HomePage.js:139 | A slice bound is clamped to the list. |
| HomeListing.PageSliceSpec | components/HomePage.js:137-139 | A page that exists shows 1 to 21 items from position `(p-1)*21`. A page past the end shows nothing. |
| HomeListing.PagesCoverList | components/HomePage.js:137-139 | Pages 1 to `totalPages`, read in turn, are the whole list. |
| HomeListing.FirstPagesPrefix | components/HomePage.js:137-139 | The first k pages together are the first `k*size` items. |
| HomeListing.FirstPageShows | components/HomePage.js:137-139 | Page 1 of a non-empty list shows something. |
| HomeListing.StaleKeywordPage | components/HomePage.js:141-143 | Keeping the page number on a keyword change hides a non-empty result of one page or fewer. |
| HomeListing.StaleKeywordExample | components/HomePage.js:141-143 | Concretely: on page 2, typing `b` among 21 untitled pages and one titled `b` shows nothing. |
| HomeListing.ExamplePages | components/HomePage.js:137-143 | 22 pages, the last titled `b`. |
| HomeListing.LastOfTwentyTwo | components/HomePage.js:137-139 | Page 2 of 22 items shows only the last. |
| HomeListing.ExampleKeywordFilter | components/HomePage.js:90-99 | Typing `b` over the example leaves only the `b` page. |
| HomeListing.KeywordFilteredSnoc | components/HomePage.js:90-99 | The keyword step over one more page keeps the earlier result and appends the page exactly when the keyword is blank or matches it. |
| HomeListing.KeywordFilteredNone | components/HomePage.js:90-99 | A non-blank keyword that no page matches leaves nothing. |
| HomeListing.BatchCopyText | components/HomePage.js:51-71 | Nothing is copied for an empty list. |
| HomeListing.LinkLines | components/HomePage.js:66 | One `base/reports/fileName` link per page, in order. |
| HomeListing.FullRecords | components/HomePage.js:67-71 | One full record per page, in order. |
| HomeListing.LinksRoundTrip | components/HomePage.js:62-66 | The links text splits at its line breaks back into exactly the pages' links. |
| HomeListing.FullTextHasEveryRecord | components/HomePage.js:67-71 | The full text contains every page's record (title, description or `無`, link) and its link. |
| HomeListing.FindPage | components/HomePage.js:171 | Nothing exactly when no page has the id. Otherwise the first page with the id. |
| HomeListing.ShareUrl | components/HomePage.js:168-177 | There is an address exactly when the page is listed with a file name, and it is its published link. |
| HomeListing.ShareMatchesCopy | components/HomePage.js:168-177 | The shared address is the one the links copy gives with no configured base. |
| HomeListing.HomeView.Loaded | components/HomePage.js:29-49 | The loaded pages replace the list, back on page 1. |
| HomeListing.HomeView.constructor | components/HomePage.js:1-11 | No pages yet, on page 1, with the given tab and keyword. |
| HomeListing.HomeView.SetCategory | components/HomePage.js:141-148 | A different tab goes back to page 1. Re-selecting the current tab keeps the page, since the reset effect runs only when its dependency changes. |
| HomeListing.HomeView.SetKeyword | components/HomePage.js:141-143 | As written, a new keyword keeps the page number. |
| HomeListing.HomeView.SetKeywordFromFirstPage | admin/public/components/AdminHomePage.js:37-39 | A different keyword goes back to page 1, so a non-empty result then shows some items. The same keyword keeps the page. |
| HomeListing.HomeView.GoToPage | admin/public/components/Pagination.js:37-63 | The page number is set and nothing else changes. |
| AdminListing.PreviewUrl | admin/public/components/HomePage.js:132 | The address starts with the origin and ends with the page id, so the id is read back from its end. Its length is that of origin, `/preview.html?id=` and id together. |
| AdminListing.CopyLinkSplits | admin/public/components/HomePage.js:137-141 | The copied text splits back into exactly the title and the preview address. |
| AdminListing.SharePage | admin/public/components/HomePage.js:123-135 | Shares exactly when both the page data and a non-empty HTML were read, with the title and the preview address. |
| AdminListing.ShareIffListedWithHtml | admin/public/components/HomePage.js:123-135 | From one stored record, sharing works exactly when the list shows the record and its HTML is not the empty string. |
| AdminListing.ShareMatchesCopyLink | admin/public/components/HomePage.js:123-141 | Share and copy link give the same address. |
| AdminListing.AdminFilteredSpec | admin/public/components/AdminHomePage.js:108-119 | An ordered subsequence, holding exactly the pages of the tab whose title or description contains the lower-cased, untrimmed keyword. |
| AdminListing.AdminAgreesWithHome | admin/public/components/AdminHomePage.js:108-119 | For a keyword without surrounding blanks, it lists exactly what the home page lists. |
| AdminListing.AgreeWithoutKeyword | admin/public/components/AdminHomePage.js:108-119 | With no keyword, both pages list the same pages. |
| AdminListing.AgreeWithKeyword | admin/public/components/AdminHomePage.js:108-119 | For a keyword equal to its trim, both pages list the same pages. |
| AdminListing.AdminTabCountCovers | admin/public/components/AdminHomePage.js:95-119 | Counting over every page, a tab's count is never below its list under any keyword. |
| AdminListing.AdminSliceSpec | admin/public/components/AdminHomePage.js:122-126 | A page that exists shows 1 to 12 items from `(p-1)*12`. Past the end it shows nothing. |
| AdminListing.PaginationShownSpec | admin/public/components/AdminHomePage.js:255 | The control is drawn exactly when more than 12 pages are listed, matching the control's own rule. |
| AdminListing.FirstPageNotEmpty | admin/public/components/AdminHomePage.js:122-126 | Page 1 of a non-empty list shows its first items. |
| AdminListing.AdminView.CategoryCounts | admin/public/components/AdminHomePage.js:95-105 | The counts over every loaded page, whatever the tab and keyword. The selected tab's count covers the list shown. |
| AdminListing.AdminView.Loaded | admin/public/components/AdminHomePage.js:41-52 | The records `getAllStoredPages` gives replace the list, none with a file name, and the page number stays. |
| AdminListing.AdminView.BatchCopy | admin/public/components/AdminHomePage.js:62-92 | Nothing to copy exactly when the filtered list is empty. Split at its line breaks, the links text is one `<base>/reports/undefined` per filtered page. |
| AdminListing.UnfiledLinks | admin/public/components/AdminHomePage.js:76-77 | For pages without a file name, every copied link is `<base>/reports/undefined`, one per page. |
| AdminListing.FilteredUnfiled | admin/public/components/AdminHomePage.js:108-119 | Filtering a list without file names keeps it so. |
| AdminListing.AdminCopyLinksUndefined | admin/public/utils/htmlStorage.js:155-164 | Over the records `getAllStoredPages` builds, the management page copies `<base>/reports/undefined` for every filtered report. |
| AdminListing.IntendedCopyLinks | admin/public/utils/adminApi.js:114-121 | With the index entries' file names kept, link i is `<base>/reports/<fileName of report i>`. Reports with different file names copy different links. |
| AdminListing.AdminView.constructor | admin/public/components/AdminHomePage.js:3-18 | No pages yet, on page 1, with the given tab and keyword. |
| AdminListing.AdminView.SetCategory | admin/public/components/AdminHomePage.js:37-39 | A different tab goes back to page 1, so a non-empty result is then shown. Re-selecting the current tab keeps the page. |
| AdminListing.AdminView.SetKeyword | admin/public/components/AdminHomePage.js:37-39 | A different keyword goes back to page 1, so a non-empty result is then shown. The same keyword keeps the page. |
| AdminListing.AdminView.GoToPage | admin/public/components/AdminHomePage.js:255-262 | The page number is set and nothing else changes. |
| AdminApp.InitialCategories | admin/public/app.js:79 | Empty exactly for `全部`, otherwise the tab alone. |
| AdminApp.IdArgument | admin/public/app.js:117 | `null` and `""` both mean a new page. |
| AdminApp.ToggleTagSpec | admin/public/app.js:247-252 | A tag is appended at the end when absent and removed everywhere when present. Every other tag keeps its count. |
| AdminApp.ToggleTwice | admin/public/app.js:247-252 | Pressing an unselected tag twice restores the list. |
| AdminApp.SaveRequestSpec | admin/public/app.js:105-117 | A save call is made exactly when the title is not blank and at least three categories are chosen. It creates for a page without an id and updates the open page otherwise. |
| AdminApp.SavedPagesMeetChecks | admin/public/app.js:105-117 | Every saved record has a title, at least three categories, and shows in the page list. |
| AdminApp.EditThenSaveKeepsFields | admin/public/app.js:89-117 | Opening a stored page and saving it unchanged writes back the fields read, under its own id. |
| AdminApp.App.CurrentScreen | admin/public/app.js:139-177 | The welcome screen exactly until configured, then the management page or the editor. The editor title depends on whether a page is open. |
| AdminApp.App.constructor | admin/public/app.js:39-51 | The home view, nothing open, the `全部` tab, no keyword, not configured, a blank page. |
| AdminApp.App.CheckConfig | admin/public/app.js:58-70 | A configured answer makes the app ready. Otherwise, or on error, the dialog opens. |
| AdminApp.App.HandleConfigSaved | admin/public/app.js:72-75 | Dialog closed, app ready. |
| AdminApp.App.HandleCreateNew | admin/public/app.js:77-87 | No page open, a blank page seeded from the tab, and the editor shown. |
| AdminApp.App.HandleEditPage | admin/public/app.js:89-103 | When stored data exists the page opens in the editor. Otherwise nothing changes. |
| AdminApp.App.HandleSavePage | admin/public/app.js:105-129 | The call made is `SaveRequest`. A non-empty saved id becomes the open page and shows the management page; otherwise the view stays. |
| AdminApp.App.HandleToggleTag | admin/public/app.js:247-252 | The categories become the toggled list. |
| AdminApp.App.HandleBackToHome | admin/public/app.js:131-133 | The management page is shown. |
| AdminApp.App.HandleShowSettings | admin/public/app.js:135-137 | The dialog opens. |
| HtmlStorage.UsableHtmlKinds | admin/public/utils/htmlStorage.js:136-148 | Usable HTML is exactly a string, a number or a boolean. |
| HtmlStorage.HtmlString | admin/public/utils/htmlStorage.js:136-148 | A string is kept as it is, and a falsy value reads as `""`. |
| HtmlStorage.ToPage | admin/public/utils/htmlStorage.js:150-166 | The record's id becomes the page id. |
| HtmlStorage.ToPages | admin/public/utils/htmlStorage.js:150-166 | One page per kept record, with the id as page id and `無標題`, "", [] and `now` for missing fields. |
| HtmlStorage.Insert | admin/public/utils/htmlStorage.js:171 | Inserting adds exactly the one page. |
| HtmlStorage.InsertSorted | admin/public/utils/htmlStorage.js:171 | Inserting into a newest-first list keeps it newest first. |
| HtmlStorage.SortNewestFirst | admin/public/utils/htmlStorage.js:171 | The sort is a permutation of the pages. |
| HtmlStorage.SortNewestFirstSorts | admin/public/utils/htmlStorage.js:171 | The sort puts the pages newest first and is a permutation. |
| HtmlStorage.TokensChain | admin/public/utils/htmlStorage.js:111-124 | Each call after the first passes the token the previous answer gave. |
| HtmlStorage.FetchAllItems | admin/public/utils/htmlStorage.js:106-124 | The `do/while` loop yields `ListAll` and passes `ListTokens`. |
| HtmlStorage.ListingNext | admin/public/utils/htmlStorage.js:111-124 | A listed answer with a next token carries the fetched items and tokens on toward the whole listing. |
| HtmlStorage.ListingEnds | admin/public/utils/htmlStorage.js:111-124 | An answer that throws, or one without a next token, ends the listing with all tokens passed. |
| HtmlStorage.GetAllStoredPages | admin/public/utils/htmlStorage.js:103-176 | The method returns `AllStoredPages`. |
| HtmlStorage.AllStoredPagesSpec | admin/public/utils/htmlStorage.js:128-171 | Newest first, and exactly the listable fetched records as pages, each as often as fetched. |
| HtmlStorage.SortedPagesSpec | admin/public/utils/htmlStorage.js:150-171 | Sorting the pages of listable records puts them newest first and keeps exactly those pages, each as often. |
| HtmlStorage.FailedListingIsEmpty | admin/public/utils/htmlStorage.js:172-175 | A failed call gives `[]`. |
| HtmlStorage.GetStoredHtml | admin/public/utils/htmlStorage.js:71-101 | HTML exactly for a usable value, as `String` of it. |
| HtmlStorage.GetStoredPageData | admin/public/utils/htmlStorage.js:45-69 | Data exactly when the record has a data object. |
| HtmlStorage.HtmlReadsAgree | admin/public/utils/htmlStorage.js:71-166 | The HTML read alone is the HTML the listing shows, except for `false` and `0`. |
| HtmlStorage.HtmlToSave | admin/public/utils/htmlStorage.js:8-10 | A string is saved as it is. |
| HtmlStorage.SaveCallOf | admin/public/utils/htmlStorage.js:3-43 | Creates exactly without an id. Fields are defaulted and the HTML is coerced to a string. An update keeps the existing creation time. |
| HtmlStorage.SaveThenRead | admin/public/utils/htmlStorage.js:3-69 | A saved record is listed, and reads back with the saved fields. |
| HtmlStorage.DeleteStoredPage | admin/public/utils/htmlStorage.js:178-186 | `true` exactly when the delete did not throw. After `true` the page's record is gone and every other record is unchanged. After a throw the store is unchanged. |
| HtmlStorage.DeletedPageReadsNothing | admin/public/utils/htmlStorage.js:178-186 | After a delete that returned `true`, reading the page back gives no data, and every other page reads as before. |
| DbDiagnostic.InfoOf | admin/public/utils/dbDiagnostic.js:32-53 | A report carries its position and id, and is valid exactly when it has no issue. |
| DbDiagnostic.Infos | admin/public/utils/dbDiagnostic.js:32-54 | One report per record, the k-th with position k+1. |
| DbDiagnostic.ValidIffListable | admin/public/utils/dbDiagnostic.js:43-53 | Valid here exactly when the page list keeps the record. |
| DbDiagnostic.FetchAllRecords | admin/public/utils/dbDiagnostic.js:6-24 | The paging loop yields `ListAll`. |
| DbDiagnostic.Partition | admin/public/utils/dbDiagnostic.js:29-54 | The `forEach` fills the valid and invalid lists as the two filters of the reports. |
| DbDiagnostic.CheckActualRecordCount | admin/public/utils/dbDiagnostic.js:2-84 | The method returns `Diagnose`. |
| DbDiagnostic.DiagnoseCounts | admin/public/utils/dbDiagnostic.js:68-73 | valid + invalid == total == the records fetched, and valid == the pages listed. |
| DbDiagnostic.InfosPositions | admin/public/utils/dbDiagnostic.js:32-36 | Each index is the record's 1-based fetch position. |
| DbDiagnostic.DiagnoseOrder | admin/public/utils/dbDiagnostic.js:46-52 | Both lists keep fetch order. |
| DbDiagnostic.FilterKeepsIndexOrder | admin/public/utils/dbDiagnostic.js:46-52 | Filtering keeps the positions increasing. |
| DbDiagnostic.ValidCountIsListed | admin/public/utils/dbDiagnostic.js:43-53 | The number of valid reports is the number of pages the list shows. |
| DbDiagnostic.DiagnoseValidity | admin/public/utils/dbDiagnostic.js:43-53 | The valid list names listed records and the invalid list skipped ones. |
| DbDiagnostic.DiagnoseFailure | admin/public/utils/dbDiagnostic.js:75-82 | A failure reports zeros and the message. The source's answer then has no record lists; the model gives them empty. |
| ReportsLoader.LoadReportsIndex | utils/reportsLoader.js:6-20 | The served index's reports, otherwise none. |
| ReportsLoader.GetAllStoredPages | utils/reportsLoader.js:25-41 | Same length and order as the index, with `id` as `pageId` and the other fields copied. |
| ReportsLoader.GetReportHtml | utils/reportsLoader.js:46-57 | The body exactly when the fetch is served. |
| ReportsLoader.StoredPageDataSpec | utils/reportsLoader.js:62-89 | `null` exactly when no entry has the id or its HTML is missing or empty. Otherwise the first entry with the id gives title, description, categories and both times, and the report file's body is the HTML. |
| ReportsLoader.FindIsFirst | utils/reportsLoader.js:65-69 | `find` returns the entry at the first position with the id. |
| ReportsLoader.PublishedIndex | utils/reportsLoader.js:6-20 | The published site serves the index file at its URL, or 404. |
| ReportsLoader.PublishedReport | utils/reportsLoader.js:46-57 | The published site serves a report file at its URL, or 404. |
| ReportsLoader.PublishedIndexAgrees | utils/reportsLoader.js:6-20 | The published site lists the reports the admin index holds. |
| ReportsLoader.PublishedPageAgrees | utils/reportsLoader.js:62-89 | The site shows a report exactly when the admin's `getReport` finds it, with the same data. |

## Left out

- Network, filesystem and hosted-store calls are not performed. Their
  answers are parameters: HTTP responses, fault scripts, `readFails` and
  `writeFails`, list and get answers, and the `fetch` answers.
- `sleep` and `setTimeout` are not modelled. Waits appear only as the
  pauses a call records.
- JSON and base64 are not spelled out character by character: an index
  document's text is the document itself, and base64 is a wrapper around
  the content.
- Timestamps are integers (milliseconds), not ISO strings. The
  newest-first sort compares those integers.
- `toLowerCase` changes ASCII letters only. `trim` removes the ECMAScript
  white-space set.
- A category value that is not an array is not modelled: categories are a
  list, or absent.
- A `null` entry in a listed page of records is not modelled.
- GitStore.Store.BatchCommit: concurrent writers are not modelled. The
  single-writer store checks each contents write's sha against the file's
  current blob id, as GitHub does.
- HtmlStorage.FetchAllItems: a listing that never ends is `Unfinished`
  once the given answers run out.
- HtmlStorage.SortNewestFirst: the order among pages with equal update
  times is that of a stable insertion sort. JavaScript's `sort` promises
  the same, but the model does not prove the two identical.
- AdminServer.ConnectionResponse: the repository fields of the answer
  (`name`, `full_name`, `private`, `default_branch`) are not modelled.
- AdminServer: Express wiring, middleware, static files and start-up
  logging are left out. Each report route takes the manager's answer as a
  parameter, whose behaviour `ReportsManager.Manager` models.
- ReportsLoader.LoadReportsIndex: only the `reports` list of the fetched
  index is returned. The callers read nothing else.
- GitStore: `getFileContent`'s `name` field is kept in the API answer but
  dropped from the manager's view, since no caller reads it.
- The rendering, alerts, `confirm`, the clipboard, `navigator.share` and
  `window.location.reload` are left out. The copy and share texts are
  modelled, not their delivery.
- Loading progress and timers in the home pages are not modelled.
- AdminServer.CreateRejection: the check is modelled for any JSON title and
  HTML, but what the manager then does with a non-string is not.
  `Buffer.from` throws on a number or `true` (admin/lib/github-api.js:157-159),
  so such HTML answers 500, and a numeric title is stored in the index as a
  number. The manager's input takes strings only.
- AdminServer.UpdateRejection: the same as for `CreateRejection`. A
  non-string title or HTML that passes the check is not carried into the
  manager.
- Report and record fields (`title`, `description`, `htmlCode` of the index
  entries and of the hosted records) are strings. Non-string JSON values
  stored there, for instance a numeric title that makes
  `page.title.toLowerCase()` throw in the public page's keyword filter, are
  not modelled.
- The admin front end defines `getAllStoredPages`, `getStoredPageData` and
  `savePageData` twice: over the hosted store in
  admin/public/utils/htmlStorage.js and over the Express routes in
  admin/public/utils/adminApi.js. Which one is live depends on script
  order. The model takes the htmlStorage.js definitions for `AdminApp`,
  `AdminListing.SharePage` and `AdminListing.AdminView.Loaded`. The
  adminApi.js versions are not modelled apart from the dropped `fileName`,
  which both share.
- AdminListing.AdminView.BatchCopy: the 800 ms delay, the clipboard and the
  alerts are left out. The base address is a parameter. The status answer
  never carries a `baseUrl` (admin/server.js:55-62), so in practice it is
  empty and the origin is used.
- HomeListing.CountTabs: the counts are a map from category names. The
  source counts in a plain object, so a category named like an
  `Object.prototype` member (`toString`, `constructor`) starts from that
  member and yields a string, and `__proto__` yields no entry. The model
  gives every name a number.
- HomeListing.CategoryCounts: built on `CountTabs`, with the same
  difference for prototype-member names.
- AdminListing.AdminView.CategoryCounts: built on `CountTabs`, with the
  same difference for prototype-member names.
- ReportsManager.IndexFrom: JSON that parses but is not an index object
  (no `reports` array) is read as an empty index. In the source the
  callers then throw on `index.reports` (admin/lib/reports-manager.js:31-35,
  109 and the `find` calls).
- HtmlStorage.DeleteStoredPage: the hosted store is a map from record ids,
  and a delete that does not throw is taken to remove exactly that
  record. The store's own behaviour is not part of this model.

## Findings

| source | as written | input that shows it | evidently intended | confidence | as-written member | corrected member |
|---|---|---|---|---|---|---|
| components/HomePage.js:141-143 | The current page goes back to 1 only when the tab changes. A new keyword keeps the page number, and the same holds in admin/public/components/HomePage.js:96-98. | 21 pages with no title or description, then one page titled `b`. On page 2, typing `b` leaves the one `b` page as the only result, but page 2 shows nothing. | A new keyword also goes back to page 1, as the management page does in admin/public/components/AdminHomePage.js:37-39. | medium, not executed | HomeListing.StaleKeywordExample | HomeListing.HomeView.SetKeywordFromFirstPage |
| admin/public/components/AdminHomePage.js:76-80 | The batch copy links each page as `${effectiveBaseUrl}/reports/${page.fileName}`. Neither definition of `getAllStoredPages` sets `fileName` (admin/public/utils/htmlStorage.js:155-164, admin/public/utils/adminApi.js:114-121). | Any non-empty management list. Copying the links gives `<origin>/reports/undefined` once per report, and the full format reads `連結: <origin>/reports/undefined` in every record. | The listing keeps the index entry's file name, so each report copies the address where it is published. | high, not executed | AdminListing.AdminCopyLinksUndefined | AdminListing.IntendedCopyLinks |
| admin/server.js:53-56 | `configured` is sent as `isConfigValid()`'s value. That value is `config && config.owner && config.repo && config.token` (admin/lib/config-manager.js:125-128), so for a valid configuration it is the token string. | Any `.env` that sets owner, repo and `GITHUB_TOKEN=t`. `GET /api/config/status` answers `configured: "t"`. | `configured` is a boolean (`!!hasConfig`). The answer shows the token only as `tokenSet`, as the `config` part already does. The client reads only the truthiness of `configured`, which is the same either way. | high, not executed | AdminServer.StatusRevealsToken | AdminServer.IntendedStatusResponse |
