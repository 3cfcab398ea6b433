/** The admin back end's HTTP routes: the configuration routes, which read
    and write `.env` and re-create the reports manager, and the report
    routes, which check the request, call the manager and turn its answer
    or its error into a status code and a JSON body.

    A report route is given the manager's answer as a parameter; what the
    manager answers is `ReportsManager.Manager`'s business. `ready` says
    whether a manager exists. */
module AdminServer {
  import opened Common
  import opened Js
  import opened Documents
  import GitHubApi
  import opened ReportsManager
  import ConfigManager
  import GitStore

  /** The three settings a manager is built from. */
  datatype Credentials = Credentials(owner: string, repo: string, token: string)

  /** The `config` part of the `/api/config/status` answer: the token only
      as whether it is set. */
  datatype PublicConfig = PublicConfig(owner: Option<string>, repo: Option<string>, tokenSet: bool, port: JsValue)

  /** The JSON bodies the routes answer with. `Failure` is every body with
      `success: false`. */
  datatype Body =
    | Failure(error: string)
    | ConfigState(configured: JsValue, config: Option<PublicConfig>)
    | Done(message: string)
    | ReportList(reports: seq<ReportMeta>)
    | OneReport(report: FullReport)
    | ReportWritten(message: string, report: FullReport)
    | ReportDeleted(message: string, deletedReport: ReportMeta)
    | Connected(message: string)

  datatype Response = Response(status: int, body: Body)

  const NotConfigured: string := "请先配置 GitHub 仓库信息"
  const MissingSettings: string := "缺少必要配置项"
  const MissingFields: string := "缺少标题或HTML内容"
  const TooFewCategories: string := "至少需要选择3个分类标签"
  const NoSuchReport: string := "报告不存在"

  /** `error.message` of what the manager throws. */
  function ErrorText(e: ManagerError): string {
    match e
    case Api(a) => GitHubApi.ErrorMessage(a)
    case ReportNotFound(id) => "报告不存在: " + id
    case HtmlNotFound(path) => "HTML文件不存在: " + path
  }

  /** A route answered with success exactly when its body says so. */
  predicate Succeeded(r: Response) {
    !r.body.Failure?
  }

  // ---------------------------------------------------------------------------
  // Managers and configuration
  // ---------------------------------------------------------------------------

  /** What `initializeManagers` builds from `getConfig()`: a manager only when
      owner, repo and token are all set. */
  function CredentialsOf(s: Option<ConfigManager.Settings>): (c: Option<Credentials>)
    ensures c.Some? <==> ConfigManager.SettingsValid(s)
    ensures c.Some? ==> c.value == Credentials(s.value.owner.value, s.value.repo.value, s.value.token.value)
  {
    if s.Some? && ConfigManager.Present(s.value.owner) && ConfigManager.Present(s.value.repo)
       && ConfigManager.Present(s.value.token)
    then Some(Credentials(s.value.owner.value, s.value.repo.value, s.value.token.value))
    else None
  }

  /** After `saveConfig` with values that read back as written, a manager
      exists for exactly those values. */
  lemma SavedSettingsEnableReports(owner: string, repo: string, token: string, port: JsValue)
    requires ConfigManager.PlainValue(owner) && ConfigManager.PlainValue(repo) && ConfigManager.PlainValue(token)
    requires ConfigManager.PlainValue(ToJsString(if port.Undefined? then Num(ConfigManager.DefaultPort) else port))
    ensures var text := ConfigManager.SavedText(Str(owner), Str(repo), Str(token), port);
      CredentialsOf(ConfigManager.SettingsOf(ConfigManager.ReadResult(Some(text), false)))
        == Some(Credentials(owner, repo, token))
  {
    ConfigManager.SaveThenGet(owner, repo, token, port);
  }

  /** `/api/config/status` given what `getConfig()` returned: `configured`
      is what `isConfigValid()` returned, and the settings are shown when
      that value is truthy. */
  function StatusResponse(s: Option<ConfigManager.Settings>): (r: Response)
    ensures r.status == 200 && r.body.ConfigState?
    ensures r.body.configured == ConfigManager.ValidityValue(s)
    ensures Truthy(r.body.configured) <==> ConfigManager.SettingsValid(s)
    ensures r.body.config.Some? <==> ConfigManager.SettingsValid(s)
    ensures ConfigManager.SettingsValid(s) ==>
      r.body.config.value == PublicConfig(s.value.owner, s.value.repo, true, s.value.port)
  {
    var hasConfig := ConfigManager.ValidityValue(s);
    Response(200, ConfigState(hasConfig,
      if Truthy(hasConfig) then Some(PublicConfig(s.value.owner, s.value.repo, ConfigManager.Present(s.value.token), s.value.port))
      else None))
  }

  /** The settings `s` with the token replaced. */
  function WithToken(s: ConfigManager.Settings, token: string): ConfigManager.Settings {
    s.(token := Some(token))
  }

  /** As written, a valid configuration's token is sent as `configured`:
      whatever token is on file, the answer carries it. */
  lemma StatusRevealsToken(s: ConfigManager.Settings, token: string)
    requires ConfigManager.Present(s.owner) && ConfigManager.Present(s.repo) && token != ""
    ensures StatusResponse(Some(WithToken(s, token))).body.configured == Str(token)
  {
  }

  /** Two configurations that differ only in their tokens get answers that
      differ, so the answer gives the token away. */
  lemma StatusDependsOnToken(s: ConfigManager.Settings, t1: string, t2: string)
    requires ConfigManager.Present(s.owner) && ConfigManager.Present(s.repo)
    requires t1 != "" && t2 != "" && t1 != t2
    ensures StatusResponse(Some(WithToken(s, t1))) != StatusResponse(Some(WithToken(s, t2)))
  {
    StatusRevealsToken(s, t1);
    StatusRevealsToken(s, t2);
  }

  /** The answer the route evidently means to give, `configured: !!hasConfig`:
      a boolean, and otherwise the same answer. */
  function IntendedStatusResponse(s: Option<ConfigManager.Settings>): (r: Response)
    ensures r.status == 200 && r.body.ConfigState?
    ensures r.body.configured == Bool(ConfigManager.SettingsValid(s))
    ensures r.body.config == StatusResponse(s).body.config
    ensures Truthy(r.body.configured) == Truthy(StatusResponse(s).body.configured)
  {
    var hasConfig := ConfigManager.ValidityValue(s);
    Response(200, ConfigState(Bool(Truthy(hasConfig)),
      if Truthy(hasConfig) then Some(PublicConfig(s.value.owner, s.value.repo, ConfigManager.Present(s.value.token), s.value.port))
      else None))
  }

  /** The intended answer does not depend on the token's value, only on
      whether one is set: it never gives the token away. */
  lemma IntendedStatusHidesToken(s: ConfigManager.Settings, t1: string, t2: string)
    requires (t1 == "") == (t2 == "")
    ensures IntendedStatusResponse(Some(WithToken(s, t1))) == IntendedStatusResponse(Some(WithToken(s, t2)))
  {
  }

  /** The server's state: the `.env` file and whether a reports manager has
      been built, with the settings it was built from. */
  class Server {
    const env: ConfigManager.EnvFile
    var managers: Option<Credentials>

    /** Start-up: the managers are built from the file when it is valid. */
    constructor(env: ConfigManager.EnvFile, readFails: bool)
      ensures this.env == env
      ensures managers == CredentialsOf(ConfigManager.SettingsOf(ConfigManager.ReadResult(env.file, readFails)))
    {
      this.env := env;
      var config := env.GetConfig(readFails);
      managers := CredentialsOf(config);
    }

    /** `initializeManagers`: a valid configuration replaces the managers
      and answers `true`; otherwise the old managers stay and it answers
      `false`. */
    method InitializeManagers(readFails: bool) returns (ok: bool)
      modifies this`managers
      ensures var c := CredentialsOf(ConfigManager.SettingsOf(ConfigManager.ReadResult(env.file, readFails)));
        && (ok <==> c.Some?)
        && managers == (if ok then c else old(managers))
    {
      var config := env.GetConfig(readFails);
      var c := CredentialsOf(config);
      if c.Some? {
        managers := c;
        return true;
      }
      return false;
    }

    /** GET `/api/config/status` */
    method ConfigStatus(readFails: bool) returns (r: Response)
      ensures r == StatusResponse(ConfigManager.SettingsOf(ConfigManager.ReadResult(env.file, readFails)))
    {
      var config := env.GetConfig(readFails);
      var hasConfig := env.IsConfigValid(readFails);
      r := Response(200, ConfigState(hasConfig,
        if Truthy(hasConfig) then Some(PublicConfig(config.value.owner, config.value.repo,
                                            ConfigManager.Present(config.value.token), config.value.port))
        else None));
    }

    /** POST `/api/config/save`: 400 unless owner, repo and token are all
      given; otherwise the file is written, and on success the managers are
      re-created from it. */
    method SaveConfig(owner: JsValue, repo: JsValue, token: JsValue, port: JsValue,
                      writeFails: bool, readFails: bool) returns (r: Response)
      modifies this`managers, env
      ensures !(Truthy(owner) && Truthy(repo) && Truthy(token)) ==>
        r == Response(400, Failure(MissingSettings)) && env.file == old(env.file) && managers == old(managers)
      ensures Truthy(owner) && Truthy(repo) && Truthy(token) && writeFails ==>
        r == Response(500, Failure("保存配置失败")) && env.file == old(env.file) && managers == old(managers)
      ensures Truthy(owner) && Truthy(repo) && Truthy(token) && !writeFails ==>
        && r == Response(200, Done("配置保存成功"))
        && env.file == Some(ConfigManager.SavedText(owner, repo, token, port))
        && var c := CredentialsOf(ConfigManager.SettingsOf(ConfigManager.ReadResult(env.file, readFails)));
           managers == (if c.Some? then c else old(managers))
    {
      if !Truthy(owner) || !Truthy(repo) || !Truthy(token) {
        return Response(400, Failure(MissingSettings));
      }
      var success := env.SaveConfig(owner, repo, token, port, writeFails);
      if success {
        var _ := InitializeManagers(readFails);
        r := Response(200, Done("配置保存成功"));
      } else {
        r := Response(500, Failure("保存配置失败"));
      }
    }

    /** PUT `/api/config/update`: the merged settings are written, and on
      success the managers are re-created from them. */
    method UpdateConfig(u: ConfigManager.Updates, readFails: bool, writeFails: bool, rereadFails: bool)
      returns (r: Response)
      modifies this`managers, env
      ensures writeFails ==> r == Response(500, Failure("更新配置失败")) && env.file == old(env.file) && managers == old(managers)
      ensures !writeFails ==>
        && r == Response(200, Done("配置更新成功"))
        && (var a := ConfigManager.Merged(u, ConfigManager.ReadResult(old(env.file), readFails));
            env.file == Some(ConfigManager.SavedText(a.owner, a.repo, a.token, a.port)))
        && (var c := CredentialsOf(ConfigManager.SettingsOf(ConfigManager.ReadResult(env.file, rereadFails)));
            managers == (if c.Some? then c else old(managers)))
    {
      var success := env.UpdateConfig(u, readFails, writeFails);
      if success {
        var _ := InitializeManagers(rereadFails);
        r := Response(200, Done("配置更新成功"));
      } else {
        r := Response(500, Failure("更新配置失败"));
      }
    }
  }

  // ---------------------------------------------------------------------------
  // Report routes
  // ---------------------------------------------------------------------------

  /** The report fields of a request body. The title and the HTML are any
      JSON value (`Undefined` when absent), since the routes only test their
      truthiness; for the description and the categories `None` is an
      absent or `null` field. */
  datatype ReportBody = ReportBody(title: JsValue, description: Option<string>,
                                   categories: Option<seq<string>>, htmlCode: JsValue)

  /** `requireConfig`: without a manager every report route answers 400. */
  function RequireConfig(ready: bool): (r: Option<Response>)
    ensures r.Some? <==> !ready
  {
    if !ready then Some(Response(400, Failure(NotConfigured))) else None
  }

  /** The checks of POST `/api/reports`: title and HTML must be given, and
      at least three categories. */
  function CreateRejection(b: ReportBody): (r: Option<string>)
    ensures r.None? <==> Truthy(b.title) && Truthy(b.htmlCode) && b.categories.Some? && |b.categories.value| >= 3
    ensures !Truthy(b.title) || !Truthy(b.htmlCode) ==> r == Some(MissingFields)
    ensures r.Some? && Truthy(b.title) && Truthy(b.htmlCode) ==> r == Some(TooFewCategories)
  {
    if !Truthy(b.title) || !Truthy(b.htmlCode) then Some(MissingFields)
    else if b.categories.None? || |b.categories.value| < 3 then Some(TooFewCategories)
    else None
  }

  /** The checks of PUT `/api/reports/:id`: title and HTML must be given;
      categories, when given, must be at least three. */
  function UpdateRejection(b: ReportBody): (r: Option<string>)
    ensures r.None? <==> Truthy(b.title) && Truthy(b.htmlCode) && (b.categories.Some? ==> |b.categories.value| >= 3)
    ensures !Truthy(b.title) || !Truthy(b.htmlCode) ==> r == Some(MissingFields)
    ensures r.Some? && Truthy(b.title) && Truthy(b.htmlCode) ==> r == Some(TooFewCategories)
  {
    if !Truthy(b.title) || !Truthy(b.htmlCode) then Some(MissingFields)
    else if b.categories.Some? && |b.categories.value| < 3 then Some(TooFewCategories)
    else None
  }

  /** Every body the create route accepts the update route accepts too, but
      not the other way round: an update may leave the categories out. */
  lemma UpdateAcceptsMore(b: ReportBody)
    ensures CreateRejection(b).None? ==> UpdateRejection(b).None?
    ensures UpdateRejection(b).None? && b.categories.None? ==> CreateRejection(b) == Some(TooFewCategories)
  {
  }

  /** The checks look only at truthiness: a title or HTML given as a
      number, `true` or an object passes them as a non-empty string does,
      while `0`, `false`, `null` and `""` are refused alike. */
  lemma TruthyFieldsPass(b: ReportBody)
    requires b.categories.Some? && |b.categories.value| >= 3
    ensures CreateRejection(b).None? <==> Truthy(b.title) && Truthy(b.htmlCode)
    ensures CreateRejection(b.(title := Num(1), htmlCode := Bool(true))).None?
    ensures CreateRejection(b.(title := Num(0))) == Some(MissingFields)
    ensures UpdateRejection(b.(htmlCode := Obj)) == UpdateRejection(b.(htmlCode := Str("x")))
  {
  }

  /** GET `/api/reports` */
  function ListResponse(ready: bool, answer: Result<seq<ReportMeta>, ManagerError>): (r: Response)
    ensures !ready ==> r == Response(400, Failure(NotConfigured))
    ensures ready && answer.Ok? ==> r == Response(200, ReportList(answer.value))
    ensures ready && answer.Err? ==> r == Response(500, Failure(ErrorText(answer.error)))
  {
    if !ready then RequireConfig(ready).value
    else match answer
      case Ok(reports) => Response(200, ReportList(reports))
      case Err(e) => Response(500, Failure(ErrorText(e)))
  }

  /** GET `/api/reports/:id`: a missing report is 404. */
  function GetResponse(ready: bool, answer: Result<Option<FullReport>, ManagerError>): (r: Response)
    ensures !ready ==> r.status == 400
    ensures ready ==> (r.status == 404 <==> answer == Ok(None))
    ensures ready && answer.Ok? && answer.value.Some? ==> r == Response(200, OneReport(answer.value.value))
    ensures ready && answer.Err? ==> r == Response(500, Failure(ErrorText(answer.error)))
  {
    if !ready then RequireConfig(ready).value
    else match answer
      case Ok(None) => Response(404, Failure(NoSuchReport))
      case Ok(Some(report)) => Response(200, OneReport(report))
      case Err(e) => Response(500, Failure(ErrorText(e)))
  }

  /** POST `/api/reports`: a rejected body is 400 and the manager is not
      called; `answer` is what `createReport` answered otherwise. */
  function CreateResponse(ready: bool, b: ReportBody, answer: Result<FullReport, ManagerError>): (r: Response)
    ensures !ready ==> r.status == 400
    ensures ready && CreateRejection(b).Some? ==> r == Response(400, Failure(CreateRejection(b).value))
    ensures ready && CreateRejection(b).None? && answer.Ok? ==>
      r == Response(200, ReportWritten("报告创建成功", answer.value))
    ensures ready && CreateRejection(b).None? && answer.Err? ==>
      r == Response(500, Failure(ErrorText(answer.error)))
  {
    if !ready then RequireConfig(ready).value
    else if CreateRejection(b).Some? then Response(400, Failure(CreateRejection(b).value))
    else match answer
      case Ok(report) => Response(200, ReportWritten("报告创建成功", report))
      case Err(e) => Response(500, Failure(ErrorText(e)))
  }

  /** PUT `/api/reports/:id` */
  function UpdateResponse(ready: bool, b: ReportBody, answer: Result<FullReport, ManagerError>): (r: Response)
    ensures !ready ==> r.status == 400
    ensures ready && UpdateRejection(b).Some? ==> r == Response(400, Failure(UpdateRejection(b).value))
    ensures ready && UpdateRejection(b).None? && answer.Ok? ==>
      r == Response(200, ReportWritten("报告更新成功", answer.value))
    ensures ready && UpdateRejection(b).None? && answer.Err? ==>
      r == Response(500, Failure(ErrorText(answer.error)))
  {
    if !ready then RequireConfig(ready).value
    else if UpdateRejection(b).Some? then Response(400, Failure(UpdateRejection(b).value))
    else match answer
      case Ok(report) => Response(200, ReportWritten("报告更新成功", report))
      case Err(e) => Response(500, Failure(ErrorText(e)))
  }

  /** DELETE `/api/reports/:id` */
  function DeleteResponse(ready: bool, answer: Result<ReportMeta, ManagerError>): (r: Response)
    ensures !ready ==> r.status == 400
    ensures ready && answer.Ok? ==> r == Response(200, ReportDeleted("报告删除成功", answer.value))
    ensures ready && answer.Err? ==> r == Response(500, Failure(ErrorText(answer.error)))
  {
    if !ready then RequireConfig(ready).value
    else match answer
      case Ok(meta) => Response(200, ReportDeleted("报告删除成功", meta))
      case Err(e) => Response(500, Failure(ErrorText(e)))
  }

  /** GET `/api/test/connection`: `failure` is the error `getRepoInfo`
      threw, if any. */
  function ConnectionResponse(ready: bool, failure: Option<GitHubApi.ApiError>): (r: Response)
    ensures !ready ==> r.status == 400
    ensures ready ==> (r.status == 200 <==> failure.None?)
    ensures ready && failure.Some? ==> r == Response(500, Failure(GitHubApi.ErrorMessage(failure.value)))
  {
    if !ready then RequireConfig(ready).value
    else if failure.None? then Response(200, Connected("连接成功"))
    else Response(500, Failure(GitHubApi.ErrorMessage(failure.value)))
  }

  /** Every report route answers 200 exactly when its body reports success,
      and otherwise one of 400, 404 and 500. */
  lemma StatusMatchesSuccess(ready: bool, b: ReportBody,
                             list: Result<seq<ReportMeta>, ManagerError>,
                             one: Result<Option<FullReport>, ManagerError>,
                             written: Result<FullReport, ManagerError>,
                             deleted: Result<ReportMeta, ManagerError>,
                             failure: Option<GitHubApi.ApiError>)
    ensures forall r :: r in [ListResponse(ready, list), GetResponse(ready, one), CreateResponse(ready, b, written),
                              UpdateResponse(ready, b, written), DeleteResponse(ready, deleted),
                              ConnectionResponse(ready, failure)] ==>
      (r.status == 200 <==> Succeeded(r)) && r.status in {200, 400, 404, 500}
  {
  }

  /** With the repository answering every read, GET `/api/reports/:id`
      answers 404 exactly when the index has no entry with the id or that
      entry's HTML file is missing. */
  lemma GetMissingIs404(files: map<string, GitStore.StoredFile>, id: string, now: Timestamp)
    ensures var index := IndexFrom(GitStore.ReadFile(files, IndexPath), now);
      GetResponse(true, ReportAnswer(None, None, files, id, now)).status == 404 <==>
        Find(index.reports, id).None?
        || GitStore.ReadFile(files, HtmlPath(Find(index.reports, id).value.fileName)).None?
  {
    ReportAnswerFaultFree(files, id, now);
  }

  /** Deleting an id the index lacks is not a 404: the manager throws, and
      the route answers 500 with the manager's message. */
  lemma DeleteUnknownIs500(f1: Option<GitHubApi.ApiError>, files: map<string, GitStore.StoredFile>, id: string, now: Timestamp)
    requires IndexRead(None, files, now).Ok?
    requires Find(IndexRead(None, files, now).value.reports, id).None?
    ensures DeleteResponse(true, Err(DeleteTarget(None, f1, files, id, now).error))
      == Response(500, Failure("报告不存在: " + id))
  {
    DeleteTargetErrors(None, f1, files, id, now);
  }
}
