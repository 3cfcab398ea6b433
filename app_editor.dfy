/** The admin application's top level: the configuration gate, the switch
    between the management page and the editor, and the editor's page data
    with its save-time checks and category buttons. */
module AdminApp {
  import opened Common
  import opened Js
  import HtmlStorage
  import Documents
  import HomeListing

  /** The page the editor starts a new page with. */
  const StarterHtml: string :=
    "<!DOCTYPE html>\n<html>\n<head>\n  <title>我的网页</title>\n</head>\n<body>\n  <h1>Hello World!</h1>\n  <p>这是一个示例网页</p>\n</body>\n</html>"

  /** The category buttons the editor offers. */
  const CategoryChoices: seq<string> :=
    ["客戶簡報", "內部簡報", "會議記要", "工作報告", "數據分析", "市場分析", "財務分析", "年度計劃", "季度計劃", "項目計劃", "其他"]

  /** The fewest categories a page may be saved with. */
  const MinCategories: nat := 3

  datatype View = Home | Edit

  /** What asking the server for the configuration status answered: whether
      the repository is configured, or a thrown error. */
  datatype StatusAnswer = Status(configured: bool) | StatusFailed

  /** What the application draws: the welcome screen with the configuration
      dialog open or closed, the management page with its own configuration
      dialog, or the editor, titled for editing or for creating. */
  datatype Screen = Welcome(configOpen: bool) | ManagementPage(configOpen: bool) | Editor(editing: bool)

  /** A fresh page: empty title and description, the starter HTML. */
  function BlankPage(categories: seq<string>): HtmlStorage.EditorData {
    HtmlStorage.EditorData("", "", Some(categories), Str(StarterHtml))
  }

  /** The categories a new page starts with: the tab it was created from,
      none when that is `全部`. */
  function InitialCategories(category: string): (r: seq<string>)
    ensures category == HomeListing.All <==> r == []
    ensures r != [] ==> r == [category]
  {
    if category != HomeListing.All then [category] else []
  }

  /** The editor's data for a page read from the store. */
  function FromStored(d: HtmlStorage.PageData): HtmlStorage.EditorData {
    HtmlStorage.EditorData(d.title, d.description, Some(d.categories), Str(d.htmlCode))
  }

  /** The checks `handleSavePage` makes before saving: a title that is not
      blank, and a category list with at least three entries. */
  predicate SaveAllowed(d: HtmlStorage.EditorData) {
    Trim(d.title) != "" && d.categories.Some? && |d.categories.value| >= MinCategories
  }

  /** The id passed to the store: `null` and `""` both mean a new page. */
  function IdArgument(id: Option<string>): (r: string)
    ensures r == "" <==> id.None? || id.value == ""
  {
    if id.Some? then id.value else ""
  }

  /** A category button: an unselected category is appended at the end, a
      selected one is removed wherever it occurs. A missing list counts as
      empty. */
  function ToggleTag(categories: Option<seq<string>>, tag: string): seq<string> {
    var current := if categories.Some? then categories.value else [];
    if tag in current then RemoveAll(current, tag) else current + [tag]
  }

  /** Selecting puts the tag last and keeps the rest; deselecting removes
      every occurrence and keeps how often each other tag occurs. */
  lemma ToggleTagSpec(categories: Option<seq<string>>, tag: string)
    ensures var current := if categories.Some? then categories.value else [];
      var r := ToggleTag(categories, tag);
      && (tag in r <==> tag !in current)
      && (tag !in current ==> r == current + [tag])
      && (forall other :: other != tag ==> Count(r, other) == Count(current, other))
  {
    var current := if categories.Some? then categories.value else [];
    if tag !in current {
      forall other | other != tag
        ensures Count(current + [tag], other) == Count(current, other)
      {
        CountAppend(current, [tag], other);
      }
    }
  }

  /** Pressing an unselected category twice gives the list back. */
  lemma ToggleTwice(categories: seq<string>, tag: string)
    requires tag !in categories
    ensures ToggleTag(Some(ToggleTag(Some(categories), tag)), tag) == categories
  {
    RemoveAllAppend(categories, [tag], tag);
    RemoveAllAbsent(categories, tag);
    assert RemoveAll([tag], tag) == [];
  }

  /** The store call `handleSavePage` makes for the open page: none when
      the title is blank or fewer than three categories are chosen,
      otherwise a create for a page without an id and an update of the
      open page's record for one with an id. */
  function SaveRequest(pageId: Option<string>, d: HtmlStorage.EditorData, now: Documents.Timestamp,
                       existing: HtmlStorage.GetAnswer): Option<HtmlStorage.SaveCall>
  {
    if Trim(d.title) == "" then None
    else if d.categories.None? || |d.categories.value| < MinCategories then None
    else Some(HtmlStorage.SaveCallOf(IdArgument(pageId), d, now, existing))
  }

  /** A call is made exactly when the checks pass; it creates a record for a
      page without an id and updates the open page's record otherwise, and
      writes what `savePageData` writes for the editor's data. */
  lemma SaveRequestSpec(pageId: Option<string>, d: HtmlStorage.EditorData, now: Documents.Timestamp,
                        existing: HtmlStorage.GetAnswer)
    ensures var r := SaveRequest(pageId, d, now, existing);
      && (r.Some? <==> SaveAllowed(d))
      && (r.Some? ==> (r.value.Create? <==> pageId.None? || pageId.value == ""))
      && (r.Some? && r.value.Update? ==> r.value.pageId == pageId.value)
      && (r.Some? ==> r.value == HtmlStorage.SaveCallOf(IdArgument(pageId), d, now, existing))
  {
  }

  /** Every record saved from the editor has a title that is not blank and at
      least three categories, and is shown by the page list. */
  lemma SavedPagesMeetChecks(pageId: Option<string>, d: HtmlStorage.EditorData, now: Documents.Timestamp,
                             existing: HtmlStorage.GetAnswer, objectId: string)
    requires SaveAllowed(d)
    ensures var saved := HtmlStorage.SaveCallOf(IdArgument(pageId), d, now, existing).data;
      && Trim(saved.title) != ""
      && saved.categories.Some? && |saved.categories.value| >= MinCategories
      && HtmlStorage.IsListable(HtmlStorage.Item(objectId, Some(saved)))
  {
    HtmlStorage.SaveThenRead(IdArgument(pageId), d, now, existing, objectId, now);
  }

  /** Opening a stored page and saving it unchanged writes the record back
      under its own id with the fields that were read. */
  lemma EditThenSaveKeepsFields(pageId: string, answer: HtmlStorage.GetAnswer, now: Documents.Timestamp,
                                existing: HtmlStorage.GetAnswer, later: Documents.Timestamp)
    requires pageId != ""
    requires HtmlStorage.GetStoredPageData(answer, now).Some?
    ensures var read := HtmlStorage.GetStoredPageData(answer, now).value;
      var call := HtmlStorage.SaveCallOf(pageId, FromStored(read), later, existing);
      && call == HtmlStorage.Update(pageId, call.data)
      && call.data.title == read.title && call.data.description == read.description
      && call.data.categories == Some(read.categories)
      && call.data.htmlCode == Str(read.htmlCode)
  {
  }

  /** The application's state. */
  class App {
    var currentView: View
    var currentPageId: Option<string>
    var currentCategory: string
    var searchKeyword: string
    var showConfigModal: bool
    var configReady: bool
    var pageData: HtmlStorage.EditorData

    /** The first render: the management page chosen but not yet shown, no
      page open, the `全部` tab, an empty keyword. */
    constructor()
      ensures currentView == Home && currentPageId == None
      ensures currentCategory == HomeListing.All && searchKeyword == ""
      ensures !showConfigModal && !configReady
      ensures pageData == BlankPage([])
    {
      currentView := Home;
      currentPageId := None;
      currentCategory := HomeListing.All;
      searchKeyword := "";
      showConfigModal := false;
      configReady := false;
      pageData := BlankPage([]);
    }

    /** What is drawn: the welcome screen until the configuration is ready,
      then the management page or the editor. */
    function CurrentScreen(): (s: Screen)
      reads this
      ensures s.Welcome? <==> !configReady
      ensures s.Welcome? ==> s.configOpen == showConfigModal
      ensures s.ManagementPage? <==> configReady && currentView == Home
      ensures s.Editor? ==> (s.editing <==> currentPageId.Some? && currentPageId.value != "")
    {
      if !configReady then Welcome(showConfigModal)
      else if currentView == Home then ManagementPage(showConfigModal)
      else Editor(currentPageId.Some? && currentPageId.value != "")
    }

    /** `checkConfig`: a configured repository makes the application ready;
      otherwise, or when the status cannot be read, the dialog opens. */
    method CheckConfig(answer: StatusAnswer)
      modifies this
      ensures answer == Status(true) ==> configReady && showConfigModal == old(showConfigModal)
      ensures answer != Status(true) ==> showConfigModal && configReady == old(configReady)
      ensures currentView == old(currentView) && currentPageId == old(currentPageId)
      ensures pageData == old(pageData)
      ensures currentCategory == old(currentCategory) && searchKeyword == old(searchKeyword)
    {
      if answer.Status? && answer.configured {
        configReady := true;
      } else {
        showConfigModal := true;
      }
    }

    /** `handleConfigSaved`: the dialog closes and the application is ready. */
    method HandleConfigSaved()
      modifies this
      ensures !showConfigModal && configReady
      ensures currentView == old(currentView) && currentPageId == old(currentPageId)
      ensures pageData == old(pageData)
      ensures currentCategory == old(currentCategory) && searchKeyword == old(searchKeyword)
    {
      showConfigModal := false;
      configReady := true;
    }

    /** `handleCreateNew`: no page open, a blank page seeded with the tab it
      was created from, and the editor shown. */
    method HandleCreateNew(category: string)
      modifies this
      ensures currentPageId == None && currentView == Edit
      ensures pageData == BlankPage(InitialCategories(category))
      ensures configReady == old(configReady) && showConfigModal == old(showConfigModal)
      ensures currentCategory == old(currentCategory) && searchKeyword == old(searchKeyword)
    {
      currentPageId := None;
      var initialCategories := if category != HomeListing.All then [category] else [];
      pageData := BlankPage(initialCategories);
      currentView := Edit;
    }

    /** `handleEditPage`: when the store has data for the page, that page is
      opened in the editor; otherwise nothing changes. */
    method HandleEditPage(pageId: string, answer: HtmlStorage.GetAnswer, now: Documents.Timestamp)
      modifies this
      ensures var stored := HtmlStorage.GetStoredPageData(answer, now);
        if stored.Some? then
          currentPageId == Some(pageId) && pageData == FromStored(stored.value) && currentView == Edit
        else
          currentPageId == old(currentPageId) && pageData == old(pageData) && currentView == old(currentView)
      ensures configReady == old(configReady) && showConfigModal == old(showConfigModal)
      ensures currentCategory == old(currentCategory) && searchKeyword == old(searchKeyword)
    {
      var storedData := HtmlStorage.GetStoredPageData(answer, now);
      if storedData.Some? {
        currentPageId := Some(pageId);
        pageData := FromStored(storedData.value);
        currentView := Edit;
      }
    }

    /** `handleSavePage`: returns the store call made, none when a check
      fails. `savedId` is what the store answered, `None` for `null`; a
      non-empty id becomes the open page and the management page is shown,
      otherwise the editor stays. */
    method HandleSavePage(now: Documents.Timestamp, existing: HtmlStorage.GetAnswer, savedId: Option<string>)
      returns (call: Option<HtmlStorage.SaveCall>)
      modifies this
      ensures call == SaveRequest(old(currentPageId), old(pageData), now, existing)
      ensures if call.Some? && savedId.Some? && |savedId.value| > 0 then
          currentPageId == savedId && currentView == Home
        else
          currentPageId == old(currentPageId) && currentView == old(currentView)
      ensures unchanged(this`pageData, this`configReady, this`showConfigModal, this`currentCategory, this`searchKeyword)
    {
      call := SaveRequest(currentPageId, pageData, now, existing);
      if call.Some? && savedId.Some? && |savedId.value| > 0 {
        currentPageId := savedId;
        currentView := Home;
      }
    }

    /** A category button pressed in the editor. */
    method HandleToggleTag(tag: string)
      modifies this
      ensures pageData == old(pageData).(categories := Some(ToggleTag(old(pageData).categories, tag)))
      ensures currentView == old(currentView) && currentPageId == old(currentPageId)
      ensures configReady == old(configReady) && showConfigModal == old(showConfigModal)
      ensures currentCategory == old(currentCategory) && searchKeyword == old(searchKeyword)
    {
      var current := if pageData.categories.Some? then pageData.categories.value else [];
      var isSelected := pageData.categories.Some? && tag in pageData.categories.value;
      var newCategories := if isSelected then RemoveAll(current, tag) else current + [tag];
      pageData := pageData.(categories := Some(newCategories));
    }

    /** `handleBackToHome` */
    method HandleBackToHome()
      modifies this
      ensures currentView == Home
      ensures currentPageId == old(currentPageId) && pageData == old(pageData)
      ensures configReady == old(configReady) && showConfigModal == old(showConfigModal)
      ensures currentCategory == old(currentCategory) && searchKeyword == old(searchKeyword)
    {
      currentView := Home;
    }

    /** `handleShowSettings` */
    method HandleShowSettings()
      modifies this
      ensures showConfigModal
      ensures currentView == old(currentView) && currentPageId == old(currentPageId) && pageData == old(pageData)
      ensures configReady == old(configReady)
      ensures currentCategory == old(currentCategory) && searchKeyword == old(searchKeyword)
    {
      showConfigModal := true;
    }
  }
}
