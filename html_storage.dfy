/** The admin page's legacy page store: records of kind `html_page` in a
    hosted object store, each with an id and an untyped data object. The
    store's calls (get, list one page of records, create, update, delete)
    are outside the model; their answers are inputs. */
module HtmlStorage {
  import opened Common
  import opened Js
  import opened Seqs
  import opened Documents

  /** A record's data object as the store hands it back. Text fields are `""`
      when absent or empty (both read as false); `categories` is `None` when
      absent; `htmlCode` is untyped, since broken records hold objects there. */
  datatype ObjectData = ObjectData(
    title: string,
    description: string,
    categories: Option<seq<string>>,
    htmlCode: JsValue,
    createdAt: Option<Timestamp>,
    updatedAt: Option<Timestamp>)

  /** One listed record; `objectData` is `None` when the record has none. */
  datatype Item = Item(objectId: string, objectData: Option<ObjectData>)

  /** A page as `getAllStoredPages` returns it. */
  datatype StoredPage = StoredPage(
    pageId: string,
    title: string,
    description: string,
    categories: seq<string>,
    htmlCode: string,
    createdAt: Timestamp,
    updatedAt: Timestamp)

  // ---------------------------------------------------------------------------
  // Which records are pages
  // ---------------------------------------------------------------------------

  /** The HTML of a record is usable when it is there and is not an object:
      `null`, `undefined`, objects and arrays are not. */
  predicate UsableHtml(v: JsValue) {
    !(v.Null? || v.Undefined?) && !IsObjectType(v)
  }

  /** The filter of `getAllStoredPages`: a record with a data object whose
      HTML is usable. */
  predicate IsListable(item: Item) {
    item.objectData.Some? && UsableHtml(item.objectData.value.htmlCode)
  }

  /** Only strings, numbers and booleans are usable HTML. */
  lemma UsableHtmlKinds(v: JsValue)
    ensures UsableHtml(v) <==> v.Str? || v.Num? || v.Bool?
  {
  }

  /** The HTML as a string: a string as it is, another value rendered by
      `String` when it is true, and `""` when it is false. */
  function HtmlString(v: JsValue): (r: string)
    ensures v.Str? ==> r == v.s
    ensures !v.Str? && !Truthy(v) ==> r == ""
  {
    if v.Str? then v.s else if Truthy(v) then ToJsString(v) else ""
  }

  /** `s || d` for a text field. */
  function OrText(s: string, d: string): string {
    if s != "" then s else d
  }

  /** The `map` of `getAllStoredPages`: the record's id becomes the page id,
      a missing title reads `無標題`, and missing times read `now`. */
  function ToPage(item: Item, now: Timestamp): (p: StoredPage)
    requires IsListable(item)
    ensures p.pageId == item.objectId
  {
    var d := item.objectData.value;
    StoredPage(item.objectId, OrText(d.title, "無標題"), d.description,
               if d.categories.Some? then d.categories.value else [],
               HtmlString(d.htmlCode),
               if d.createdAt.Some? then d.createdAt.value else now,
               if d.updatedAt.Some? then d.updatedAt.value else now)
  }

  function ToPages(items: seq<Item>, now: Timestamp): (r: seq<StoredPage>)
    requires forall i :: 0 <= i < |items| ==> IsListable(items[i])
    ensures |r| == |items|
    ensures forall i :: 0 <= i < |items| ==> r[i] == ToPage(items[i], now)
  {
    if items == [] then []
    else
      assert IsListable(items[0]);
      [ToPage(items[0], now)] + ToPages(items[1..], now)
  }

  // ---------------------------------------------------------------------------
  // Newest first
  // ---------------------------------------------------------------------------

  predicate NewestFirst(pages: seq<StoredPage>) {
    forall i, j :: 0 <= i < j < |pages| ==> pages[i].updatedAt >= pages[j].updatedAt
  }

  /** Puts `p` in front of the first page not newer than it. */
  function Insert(p: StoredPage, sorted: seq<StoredPage>): (r: seq<StoredPage>)
    ensures multiset(r) == multiset(sorted) + multiset{p}
    ensures |r| == |sorted| + 1
  {
    if sorted == [] || sorted[0].updatedAt <= p.updatedAt then [p] + sorted
    else
      assert sorted == [sorted[0]] + sorted[1..];
      [sorted[0]] + Insert(p, sorted[1..])
  }

  /** `pages.sort((a, b) => b.updatedAt - a.updatedAt)`: a stable sort by
      update time, newest first. */
  function SortNewestFirst(pages: seq<StoredPage>): (r: seq<StoredPage>)
    ensures multiset(r) == multiset(pages)
    ensures |r| == |pages|
  {
    if pages == [] then []
    else
      assert pages == [pages[0]] + pages[1..];
      Insert(pages[0], SortNewestFirst(pages[1..]))
  }

  /** A page of an insertion is the inserted page or one of the list's. */
  lemma InsertMember(p: StoredPage, sorted: seq<StoredPage>, x: StoredPage)
    requires x in Insert(p, sorted)
    ensures x == p || x in sorted
  {
    assert x in multiset(Insert(p, sorted));
  }

  lemma {:induction false} InsertSorted(p: StoredPage, sorted: seq<StoredPage>)
    requires NewestFirst(sorted)
    ensures NewestFirst(Insert(p, sorted))
  {
    if sorted != [] && sorted[0].updatedAt > p.updatedAt {
      var tail := sorted[1..];
      assert NewestFirst(tail);
      InsertSorted(p, tail);
      var rest := Insert(p, tail);
      forall k | 0 <= k < |rest| ensures sorted[0].updatedAt >= rest[k].updatedAt {
        InsertMember(p, tail, rest[k]);
        if rest[k] != p {
          var j :| 0 <= j < |tail| && tail[j] == rest[k];
          assert sorted[j + 1] == rest[k];
        }
      }
      var r := Insert(p, sorted);
      assert r == [sorted[0]] + rest;
      forall i, j | 0 <= i < j < |r| ensures r[i].updatedAt >= r[j].updatedAt {
        assert r[j] == rest[j - 1];
        if i > 0 {
          assert r[i] == rest[i - 1];
        }
      }
    }
  }

  /** The sort orders the pages newest first and neither adds nor drops one. */
  lemma {:induction false} SortNewestFirstSorts(pages: seq<StoredPage>)
    ensures NewestFirst(SortNewestFirst(pages))
    ensures multiset(SortNewestFirst(pages)) == multiset(pages)
  {
    if pages != [] {
      SortNewestFirstSorts(pages[1..]);
      InsertSorted(pages[0], SortNewestFirst(pages[1..]));
    }
  }

  // ---------------------------------------------------------------------------
  // Listing every record
  // ---------------------------------------------------------------------------

  /** The answer to one `trickleListObjects` call: a page of records and the
      token of the next page (`""` when there is none), an answer without
      records, or a thrown error with its message. */
  datatype ListAnswer = Listed(items: seq<Item>, nextPageToken: string) | NoItems | Failed(message: string)

  /** How a listing ends: with every record fetched, with an error thrown, or
      still asking for more when the given answers run out. */
  datatype ListOutcome = Fetched(items: seq<Item>) | Threw(message: string) | Unfinished

  /** Records fetched before the rest of a listing. */
  function Prepend(items: seq<Item>, o: ListOutcome): ListOutcome {
    if o.Fetched? then Fetched(items + o.items) else o
  }

  /** The listing loop when the store answers the successive calls with
      `answers`: it concatenates each page's records in order, stops after a
      page without a next token or an answer without records, and ends with
      the error of a failed call. */
  function ListAll(answers: seq<ListAnswer>): ListOutcome {
    if answers == [] then Unfinished
    else match answers[0]
      case Failed(m) => Threw(m)
      case NoItems => Fetched([])
      case Listed(items, token) => if token == "" then Fetched(items) else Prepend(items, ListAll(answers[1..]))
  }

  /** The page tokens the successive calls pass, `""` standing for the
      first call's `undefined`. */
  function ListTokens(answers: seq<ListAnswer>, token: string): seq<string> {
    if answers == [] then []
    else [token] + match answers[0]
      case Listed(_, next) => if next == "" then [] else ListTokens(answers[1..], next)
      case _ => []
  }

  /** Every call after the first passes the token the previous answer gave,
      so no page is asked for twice unless the store repeats a token; a
      listing that ends makes one call per answer it used. */
  lemma {:induction false} TokensChain(answers: seq<ListAnswer>, token: string)
    ensures var ts := ListTokens(answers, token);
      && |ts| <= |answers|
      && (ts != [] ==> ts[0] == token)
      && forall j :: 0 <= j < |ts| - 1 ==>
           answers[j].Listed? && answers[j].nextPageToken != "" && ts[j + 1] == answers[j].nextPageToken
  {
    if answers != [] && answers[0].Listed? && answers[0].nextPageToken != "" {
      var next := answers[0].nextPageToken;
      var rest := ListTokens(answers[1..], next);
      TokensChain(answers[1..], next);
      var ts := ListTokens(answers, token);
      assert ts == [token] + rest;
      forall j | 0 <= j < |ts| - 1
        ensures answers[j].Listed? && answers[j].nextPageToken != "" && ts[j + 1] == answers[j].nextPageToken
      {
        assert ts[j + 1] == rest[j];
        if j > 0 {
          assert answers[1..][j - 1] == answers[j];
        }
      }
    } else if answers != [] {
      assert ListTokens(answers, token) == [token];
    }
  }

  lemma PrependTwice(a: seq<Item>, b: seq<Item>, o: ListOutcome)
    ensures Prepend(a, Prepend(b, o)) == Prepend(a + b, o)
  {
    if o.Fetched? {
      assert a + (b + o.items) == (a + b) + o.items;
    }
  }

  /** What the listing does from the k-th answer on, by what that answer is. */
  lemma ListFrom(answers: seq<ListAnswer>, k: nat, token: string)
    requires k < |answers|
    ensures !answers[k].Listed? ==> ListTokens(answers[k..], token) == [token]
    ensures answers[k].Failed? ==> ListAll(answers[k..]) == Threw(answers[k].message)
    ensures answers[k].NoItems? ==> ListAll(answers[k..]) == Fetched([])
    ensures answers[k].Listed? && answers[k].nextPageToken == "" ==>
      ListAll(answers[k..]) == Fetched(answers[k].items) && ListTokens(answers[k..], token) == [token]
    ensures answers[k].Listed? && answers[k].nextPageToken != "" ==>
      && ListAll(answers[k..]) == Prepend(answers[k].items, ListAll(answers[k + 1..]))
      && ListTokens(answers[k..], token) == [token] + ListTokens(answers[k + 1..], answers[k].nextPageToken)
  {
    assert answers[k..][0] == answers[k] && answers[k..][1..] == answers[k + 1..];
  }

  /** The listing loop's state before the k-th call: the records fetched so
      far followed by what the rest of the listing fetches make up the whole
      listing, and likewise the tokens passed. */
  ghost predicate ListingAt(answers: seq<ListAnswer>, k: nat, allItems: seq<Item>, tokens: seq<string>, nextToken: string) {
    && k <= |answers|
    && Prepend(allItems, ListAll(answers[k..])) == ListAll(answers)
    && tokens + ListTokens(answers[k..], nextToken) == ListTokens(answers, "")
  }

  /** A page with a next token moves the loop on to the next call. */
  lemma ListingNext(answers: seq<ListAnswer>, k: nat, allItems: seq<Item>, tokens: seq<string>, nextToken: string)
    requires ListingAt(answers, k, allItems, tokens, nextToken)
    requires k < |answers| && answers[k].Listed? && answers[k].nextPageToken != ""
    ensures ListingAt(answers, k + 1, allItems + answers[k].items, tokens + [nextToken], answers[k].nextPageToken)
  {
    ListFrom(answers, k, nextToken);
    PrependTwice(allItems, answers[k].items, ListAll(answers[k + 1..]));
    var rest := ListTokens(answers[k + 1..], answers[k].nextPageToken);
    assert tokens + ([nextToken] + rest) == (tokens + [nextToken]) + rest;
  }

  /** The answers that end the loop end the listing. */
  lemma ListingEnds(answers: seq<ListAnswer>, k: nat, allItems: seq<Item>, tokens: seq<string>, nextToken: string)
    requires ListingAt(answers, k, allItems, tokens, nextToken)
    requires k < |answers| && !(answers[k].Listed? && answers[k].nextPageToken != "")
    ensures tokens + [nextToken] == ListTokens(answers, "")
    ensures answers[k].Failed? ==> ListAll(answers) == Threw(answers[k].message)
    ensures answers[k].NoItems? ==> ListAll(answers) == Fetched(allItems)
    ensures answers[k].Listed? ==> ListAll(answers) == Fetched(allItems + answers[k].items)
  {
    ListFrom(answers, k, nextToken);
    assert allItems + [] == allItems;
  }

  /** Answers that run out leave the listing unfinished. */
  lemma ListingRunsOut(answers: seq<ListAnswer>, allItems: seq<Item>, tokens: seq<string>, nextToken: string)
    requires ListingAt(answers, |answers|, allItems, tokens, nextToken)
    ensures ListAll(answers) == Unfinished && tokens == ListTokens(answers, "")
  {
    assert answers[|answers|..] == [];
  }

  /** The `do/while` loop of `getAllStoredPages`, the calls answered by
      `answers`. */
  method FetchAllItems(answers: seq<ListAnswer>) returns (outcome: ListOutcome, tokens: seq<string>)
    ensures outcome == ListAll(answers)
    ensures tokens == ListTokens(answers, "")
  {
    var allItems: seq<Item> := [];
    var nextToken := "";
    var k := 0;
    tokens := [];
    assert answers[k..] == answers;
    while true
      invariant ListingAt(answers, k, allItems, tokens, nextToken)
      decreases |answers| - k
    {
      if k == |answers| {
        ListingRunsOut(answers, allItems, tokens, nextToken);
        outcome := Unfinished;
        return;
      }
      var result := answers[k];
      if result.Listed? && result.nextPageToken != "" {
        ListingNext(answers, k, allItems, tokens, nextToken);
      } else {
        ListingEnds(answers, k, allItems, tokens, nextToken);
      }
      tokens := tokens + [nextToken];
      k := k + 1;
      match result
      case Failed(m) =>
        outcome := Threw(m);
        return;
      case NoItems =>
        break;
      case Listed(items, token) =>
        allItems := allItems + items;
        nextToken := token;
        if nextToken == "" {
          break;
        }
    }
    outcome := Fetched(allItems);
  }

  /** The pages `getAllStoredPages` returns once the listing is done: the
      listable records as pages, newest first, and none at all when a call
      threw; `None` while the listing is unfinished. */
  function AllStoredPages(answers: seq<ListAnswer>, now: Timestamp): Option<seq<StoredPage>> {
    match ListAll(answers)
    case Unfinished => None
    case Threw(_) => Some([])
    case Fetched(items) =>
      var kept := Filter(items, IsListable);
      Some(SortNewestFirst(ToPages(kept, now)))
  }

  /** `getAllStoredPages` */
  method GetAllStoredPages(answers: seq<ListAnswer>, now: Timestamp) returns (pages: Option<seq<StoredPage>>)
    ensures pages == AllStoredPages(answers, now)
  {
    var outcome, _ := FetchAllItems(answers);
    match outcome
    case Unfinished =>
      pages := None;
    case Threw(_) =>
      pages := Some([]);
    case Fetched(allItems) =>
      var kept := Filter(allItems, IsListable);
      pages := Some(SortNewestFirst(ToPages(kept, now)));
  }

  /** The pages returned are newest first, and they are exactly the listable
      fetched records turned into pages: each as often as it was fetched,
      none added. */
  lemma AllStoredPagesSpec(answers: seq<ListAnswer>, now: Timestamp)
    requires ListAll(answers).Fetched?
    ensures var items := ListAll(answers).items;
      var kept := Filter(items, IsListable);
      var pages := AllStoredPages(answers, now).value;
      && NewestFirst(pages)
      && multiset(pages) == multiset(ToPages(kept, now))
      && (forall p :: p in pages <==> exists i :: 0 <= i < |kept| && p == ToPage(kept[i], now))
      && (forall i :: 0 <= i < |kept| ==> kept[i] in items && IsListable(kept[i]))
  {
    var items := ListAll(answers).items;
    FilterKeeps(items, IsListable);
    var kept := Filter(items, IsListable);
    SortedPagesSpec(kept, now);
  }

  /** Sorting the pages of listable records keeps exactly those pages. */
  lemma SortedPagesSpec(kept: seq<Item>, now: Timestamp)
    requires forall i :: 0 <= i < |kept| ==> IsListable(kept[i])
    ensures var pages := SortNewestFirst(ToPages(kept, now));
      && NewestFirst(pages)
      && multiset(pages) == multiset(ToPages(kept, now))
      && (forall p :: p in pages <==> exists i :: 0 <= i < |kept| && p == ToPage(kept[i], now))
  {
    var unsorted := ToPages(kept, now);
    SortNewestFirstSorts(unsorted);
    var pages := SortNewestFirst(unsorted);
    forall p ensures p in pages <==> exists i :: 0 <= i < |kept| && p == ToPage(kept[i], now) {
      assert p in pages <==> p in multiset(pages);
      assert p in unsorted <==> p in multiset(unsorted);
      if p in unsorted {
        var i :| 0 <= i < |unsorted| && unsorted[i] == p;
        assert p == ToPage(kept[i], now);
      }
      if exists i :: 0 <= i < |kept| && p == ToPage(kept[i], now) {
        var i :| 0 <= i < |kept| && p == ToPage(kept[i], now);
        assert unsorted[i] == p;
      }
    }
  }

  /** A failed call makes the whole listing empty. */
  lemma FailedListingIsEmpty(answers: seq<ListAnswer>, now: Timestamp)
    requires ListAll(answers).Threw?
    ensures AllStoredPages(answers, now) == Some([])
  {
  }

  // ---------------------------------------------------------------------------
  // Reading one record
  // ---------------------------------------------------------------------------

  /** The answer to one `trickleGetObject` call: the record's data object
      (`None` for a missing record or one without data), or a thrown error. */
  datatype GetAnswer = Got(objectData: Option<ObjectData>) | GetFailed

  /** `getStoredHTML`: no HTML for a missing record, a failed call, `null`,
      `undefined` or an object; a string as it is; anything else rendered
      by `String`. */
  function GetStoredHtml(answer: GetAnswer): (r: Option<string>)
    ensures r.Some? <==> answer.Got? && answer.objectData.Some? && UsableHtml(answer.objectData.value.htmlCode)
    ensures r.Some? ==> r.value == ToJsString(answer.objectData.value.htmlCode)
  {
    match answer
    case GetFailed => None
    case Got(None) => None
    case Got(Some(d)) =>
      var v := d.htmlCode;
      if v.Null? || v.Undefined? then None
      else if v.Str? then Some(v.s)
      else if IsObjectType(v) then None
      else Some(ToJsString(v))
  }

  /** The page data `getStoredPageData` returns. */
  datatype PageData = PageData(
    title: string,
    description: string,
    categories: seq<string>,
    htmlCode: string,
    createdAt: Timestamp,
    updatedAt: Timestamp)

  /** `getStoredPageData`: a missing record or a failed call gives nothing;
      otherwise the record's fields with `''`, `[]` and `now` for missing
      ones, and the HTML as a string. */
  function GetStoredPageData(answer: GetAnswer, now: Timestamp): (r: Option<PageData>)
    ensures r.Some? <==> answer.Got? && answer.objectData.Some?
  {
    match answer
    case GetFailed => None
    case Got(None) => None
    case Got(Some(d)) =>
      Some(PageData(d.title, d.description,
                    if d.categories.Some? then d.categories.value else [],
                    HtmlString(d.htmlCode),
                    if d.createdAt.Some? then d.createdAt.value else now,
                    if d.updatedAt.Some? then d.updatedAt.value else now))
  }

  /** For a listable record, reading its HTML alone gives the HTML the listing
      shows, except for `false` and `0`, which read as `"false"` and `"0"`
      alone but as `""` in the listing. */
  lemma HtmlReadsAgree(id: string, d: ObjectData, now: Timestamp)
    requires IsListable(Item(id, Some(d)))
    ensures GetStoredHtml(Got(Some(d))).Some?
    ensures d.htmlCode.Str? || Truthy(d.htmlCode) ==>
      GetStoredHtml(Got(Some(d))).value == ToPage(Item(id, Some(d)), now).htmlCode
  {
  }

  // ---------------------------------------------------------------------------
  // Saving and deleting
  // ---------------------------------------------------------------------------

  /** The editor's page data as `savePageData` receives it; the HTML is
      untyped because the function does not trust it to be a string. */
  datatype EditorData = EditorData(title: string, description: string, categories: Option<seq<string>>,
                                   htmlCode: JsValue)

  /** The store call `savePageData` makes: create a record, or update the
      record with a given id. */
  datatype SaveCall = Create(data: ObjectData) | Update(pageId: string, data: ObjectData)

  /** `String(x || '')` for a value that is not a string. */
  function HtmlToSave(v: JsValue): (r: string)
    ensures v.Str? ==> r == v.s
  {
    if v.Str? then v.s else ToJsString(if Truthy(v) then v else Str(""))
  }

  /** The record `savePageData` writes: the fields with `''` and `[]` for
      missing ones, the HTML as a string, both times `now`, except that an
      update keeps the creation time of the existing record when it has one.
      `pageId` is `""` when there is none; `existing` is what reading the
      record to update answered. */
  function SaveCallOf(pageId: string, pageData: EditorData, now: Timestamp, existing: GetAnswer): (c: SaveCall)
    ensures c.Create? <==> pageId == ""
    ensures c.Update? ==> c.pageId == pageId
    ensures c.data.htmlCode.Str? && c.data.htmlCode.s == HtmlToSave(pageData.htmlCode)
    ensures c.data.title == pageData.title && c.data.description == pageData.description
    ensures c.data.categories == Some(if pageData.categories.Some? then pageData.categories.value else [])
    ensures c.data.updatedAt == Some(now)
    ensures c.Create? ==> c.data.createdAt == Some(now)
    ensures c.Update? ==>
      c.data.createdAt == (if existing.Got? && existing.objectData.Some? && existing.objectData.value.createdAt.Some?
                           then existing.objectData.value.createdAt else Some(now))
  {
    var data := ObjectData(pageData.title, pageData.description,
                           Some(if pageData.categories.Some? then pageData.categories.value else []),
                           Str(HtmlToSave(pageData.htmlCode)), Some(now), Some(now));
    if pageId != "" then
      var created := if existing.Got? && existing.objectData.Some? && existing.objectData.value.createdAt.Some?
                     then existing.objectData.value.createdAt else Some(now);
      Update(pageId, data.(createdAt := created))
    else Create(data)
  }

  /** A saved record is always listed, and reading it back gives the saved
      fields, the HTML as the string that was saved, and `now` as its update
      time. */
  lemma SaveThenRead(pageId: string, pageData: EditorData, now: Timestamp, existing: GetAnswer,
                     objectId: string, later: Timestamp)
    ensures var d := SaveCallOf(pageId, pageData, now, existing).data;
      && IsListable(Item(objectId, Some(d)))
      && GetStoredHtml(Got(Some(d))) == Some(HtmlToSave(pageData.htmlCode))
      && var back := GetStoredPageData(Got(Some(d)), later).value;
         && back.title == pageData.title && back.description == pageData.description
         && back.categories == (if pageData.categories.Some? then pageData.categories.value else [])
         && back.htmlCode == HtmlToSave(pageData.htmlCode)
         && back.updatedAt == now
  {
  }

  /** The `html_page` records the store holds, by object id. */
  type Store = map<string, ObjectData>

  /** What `trickleGetObject` answers for one id of a store. */
  function StoredAnswer(store: Store, pageId: string): GetAnswer {
    if pageId in store then Got(Some(store[pageId])) else GetFailed
  }

  /** The value `deleteStoredPage` returns and the store it leaves. */
  datatype DeleteOutcome = DeleteOutcome(ok: bool, store: Store)

  /** `deleteStoredPage`: `true` exactly when the delete call did not throw;
      then the page is gone and every other record is kept as it was, and
      after a throw the store is as it was. */
  function DeleteStoredPage(store: Store, pageId: string, deleteThrew: bool): (r: DeleteOutcome)
    ensures r.ok <==> !deleteThrew
    ensures r.ok ==> pageId !in r.store
    ensures forall id :: id != pageId ==> (id in r.store <==> id in store)
    ensures forall id :: id in r.store ==> id in store && r.store[id] == store[id]
    ensures !r.ok ==> r.store == store
  {
    if deleteThrew then DeleteOutcome(false, store) else DeleteOutcome(true, store - {pageId})
  }

  /** Once `deleteStoredPage` returned `true`, reading the page back gives
      nothing, while every other page reads as before. */
  lemma DeletedPageReadsNothing(store: Store, pageId: string, deleteThrew: bool, other: string, now: Timestamp)
    requires DeleteStoredPage(store, pageId, deleteThrew).ok
    ensures GetStoredPageData(StoredAnswer(DeleteStoredPage(store, pageId, deleteThrew).store, pageId), now).None?
    ensures other != pageId ==>
      GetStoredPageData(StoredAnswer(DeleteStoredPage(store, pageId, deleteThrew).store, other), now)
      == GetStoredPageData(StoredAnswer(store, other), now)
  {
  }
}
