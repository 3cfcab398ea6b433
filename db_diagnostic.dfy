/** The admin page's record-count diagnostic: it lists every `html_page`
    record the way the page store does and sorts the records into those the
    page list can show and those it skips, numbering them by fetch order. */
module DbDiagnostic {
  import opened Common
  import opened Js
  import opened Seqs
  import opened HtmlStorage
  import opened Documents

  /** What the diagnostic reports about one record. `index` counts from 1 in
      fetch order; `issue` says why an invalid record is invalid. */
  datatype RecordInfo = RecordInfo(
    index: nat,
    objectId: string,
    title: string,
    hasHtmlCode: bool,
    htmlCodeType: string,
    isValid: bool,
    issue: Option<string>)

  /** The result of `checkActualRecordCount`; `error` carries the message of
      a thrown error, and then the counts are zero. The object returned on
      that path has no `validRecords` or `invalidRecords` fields at all;
      here they are empty lists. */
  datatype Diagnosis = Diagnosis(
    total: nat,
    valid: nat,
    invalid: nat,
    validRecords: seq<RecordInfo>,
    invalidRecords: seq<RecordInfo>,
    error: Option<string>)

  const MissingHtml: string := "html_code 為 null 或 undefined"
  const ObjectHtml: string := "html_code 是物件類型（已損壞）"

  /** `item.objectData?.html_code`: `undefined` for a record without data. */
  function HtmlOf(item: Item): JsValue {
    if item.objectData.Some? then item.objectData.value.htmlCode else Undefined
  }

  /** The report on the record fetched at 1-based position `index`. */
  function InfoOf(item: Item, index: nat): (info: RecordInfo)
    ensures info.index == index && info.objectId == item.objectId
    ensures info.isValid <==> info.issue.None?
  {
    var html := HtmlOf(item);
    var title := if item.objectData.Some? then OrText(item.objectData.value.title, "無標題") else "無標題";
    var base := RecordInfo(index, item.objectId, title, Truthy(html), TypeOf(html), false, None);
    if html.Null? || html.Undefined? then base.(issue := Some(MissingHtml))
    else if TypeOf(html) == "object" then base.(issue := Some(ObjectHtml))
    else base.(isValid := true)
  }

  /** The report on every fetched record, in fetch order. */
  function Infos(records: seq<Item>): (r: seq<RecordInfo>)
    ensures |r| == |records|
    ensures forall i :: 0 <= i < |records| ==> r[i] == InfoOf(records[i], i + 1)
  {
    if records == [] then []
    else
      var n := |records|;
      assert forall i :: 0 <= i < n - 1 ==> records[..n - 1][i] == records[i];
      Infos(records[..n - 1]) + [InfoOf(records[n - 1], n)]
  }

  predicate IsValidInfo(info: RecordInfo) {
    info.isValid
  }

  predicate IsInvalidInfo(info: RecordInfo) {
    !info.isValid
  }

  /** The diagnostic finds a record valid exactly when the page list shows
      it: a record without data counts as one without HTML. */
  lemma ValidIffListable(item: Item, index: nat)
    ensures InfoOf(item, index).isValid <==> IsListable(item)
  {
  }

  /** The `do/while` loop of `checkActualRecordCount`, the calls answered by
      `answers`. */
  method FetchAllRecords(answers: seq<ListAnswer>) returns (outcome: ListOutcome)
    ensures outcome == ListAll(answers)
  {
    var allRecords: seq<Item> := [];
    var k := 0;
    while true
      invariant 0 <= k <= |answers|
      invariant Prepend(allRecords, ListAll(answers[k..])) == ListAll(answers)
      decreases |answers| - k
    {
      if k == |answers| {
        outcome := Unfinished;
        return;
      }
      assert answers[k..][1..] == answers[k + 1..];
      var result := answers[k];
      k := k + 1;
      if result.Failed? {
        outcome := Threw(result.message);
        return;
      }
      if result.Listed? {
        PrependTwice(allRecords, result.items, ListAll(answers[k..]));
        allRecords := allRecords + result.items;
        var nextToken := result.nextPageToken;
        if nextToken == "" {
          break;
        }
      } else {
        assert allRecords + [] == allRecords;
        break;
      }
    }
    outcome := Fetched(allRecords);
  }

  /** The `forEach` of `checkActualRecordCount`: each record's report goes to
      the valid or the invalid list, in fetch order. */
  method Partition(allRecords: seq<Item>) returns (validRecords: seq<RecordInfo>, invalidRecords: seq<RecordInfo>)
    ensures validRecords == Filter(Infos(allRecords), IsValidInfo)
    ensures invalidRecords == Filter(Infos(allRecords), IsInvalidInfo)
  {
    validRecords, invalidRecords := [], [];
    for index := 0 to |allRecords|
      invariant validRecords == Filter(Infos(allRecords[..index]), IsValidInfo)
      invariant invalidRecords == Filter(Infos(allRecords[..index]), IsInvalidInfo)
    {
      var recordInfo := InfoOf(allRecords[index], index + 1);
      var prefix := allRecords[..index + 1];
      assert prefix[..index] == allRecords[..index];
      assert Infos(prefix) == Infos(allRecords[..index]) + [recordInfo];
      FilterSnoc(Infos(allRecords[..index]), recordInfo, IsValidInfo);
      FilterSnoc(Infos(allRecords[..index]), recordInfo, IsInvalidInfo);
      if recordInfo.isValid {
        validRecords := validRecords + [recordInfo];
      } else {
        invalidRecords := invalidRecords + [recordInfo];
      }
    }
    assert allRecords[..|allRecords|] == allRecords;
  }

  /** What `checkActualRecordCount` returns when its listing calls are
      answered by `answers`; `None` while the listing is unfinished. */
  function Diagnose(answers: seq<ListAnswer>): Option<Diagnosis> {
    match ListAll(answers)
    case Unfinished => None
    case Threw(m) => Some(Diagnosis(0, 0, 0, [], [], Some(m)))
    case Fetched(records) =>
      var valid := Filter(Infos(records), IsValidInfo);
      var invalid := Filter(Infos(records), IsInvalidInfo);
      Some(Diagnosis(|records|, |valid|, |invalid|, valid, invalid, None))
  }

  /** `checkActualRecordCount` */
  method CheckActualRecordCount(answers: seq<ListAnswer>) returns (d: Option<Diagnosis>)
    ensures d == Diagnose(answers)
  {
    var outcome := FetchAllRecords(answers);
    match outcome
    case Unfinished =>
      d := None;
    case Threw(m) =>
      d := Some(Diagnosis(0, 0, 0, [], [], Some(m)));
    case Fetched(allRecords) =>
      var validRecords, invalidRecords := Partition(allRecords);
      d := Some(Diagnosis(|allRecords|, |validRecords|, |invalidRecords|, validRecords, invalidRecords, None));
  }

  /** The reports' indexes strictly increase from first to last. */
  predicate IndexesIncrease(infos: seq<RecordInfo>) {
    forall i, j :: 0 <= i < j < |infos| ==> infos[i].index < infos[j].index
  }

  lemma TailIndexesIncrease(infos: seq<RecordInfo>)
    requires IndexesIncrease(infos) && infos != []
    ensures IndexesIncrease(infos[1..])
  {
    var tail := infos[1..];
    forall i, j | 0 <= i < j < |tail| ensures tail[i].index < tail[j].index {
      assert tail[i] == infos[i + 1] && tail[j] == infos[j + 1];
    }
  }

  lemma HeadBelowFilteredTail(infos: seq<RecordInfo>, p: RecordInfo -> bool)
    requires IndexesIncrease(infos) && infos != []
    ensures forall info :: info in Filter(infos[1..], p) ==> infos[0].index < info.index
  {
    var tail := infos[1..];
    FilterKeeps(tail, p);
    forall info | info in Filter(tail, p) ensures infos[0].index < info.index {
      var m :| 0 <= m < |tail| && tail[m] == info;
      assert infos[m + 1] == info;
    }
  }

  /** Reports whose indexes increase keep increasing after a filter. */
  lemma {:induction false} FilterKeepsIndexOrder(infos: seq<RecordInfo>, p: RecordInfo -> bool)
    requires IndexesIncrease(infos)
    ensures IndexesIncrease(Filter(infos, p))
  {
    if infos != [] {
      TailIndexesIncrease(infos);
      FilterKeepsIndexOrder(infos[1..], p);
      HeadBelowFilteredTail(infos, p);
      var rest := Filter(infos[1..], p);
      if p(infos[0]) {
        var r := [infos[0]] + rest;
        assert Filter(infos, p) == r;
        forall i, j | 0 <= i < j < |r| ensures r[i].index < r[j].index {
          assert r[j] == rest[j - 1] && r[j] in rest;
          if i > 0 {
            assert r[i] == rest[i - 1];
          }
        }
      } else {
        assert Filter(infos, p) == rest;
      }
    }
  }

  /** The same number of records are valid here as the page list shows. */
  lemma {:induction false} ValidCountIsListed(records: seq<Item>)
    ensures |Filter(Infos(records), IsValidInfo)| == |Filter(records, IsListable)|
  {
    if records != [] {
      var n := |records|;
      var init := records[..n - 1];
      ValidCountIsListed(init);
      assert Infos(records) == Infos(init) + [InfoOf(records[n - 1], n)];
      FilterSnoc(Infos(init), InfoOf(records[n - 1], n), IsValidInfo);
      FilterSnoc(init, records[n - 1], IsListable);
      assert records == init + [records[n - 1]];
      ValidIffListable(records[n - 1], n);
    }
  }

  /** A finished diagnosis splits the fetched records completely: valid and
      invalid add up to the total, and the page list shows as many pages as
      the diagnosis counts valid. */
  lemma DiagnoseCounts(answers: seq<ListAnswer>, now: Timestamp)
    requires ListAll(answers).Fetched?
    ensures var d := Diagnose(answers).value;
      && d.error.None?
      && d.total == |ListAll(answers).items| && d.valid + d.invalid == d.total
      && d.valid == |AllStoredPages(answers, now).value|
  {
    var records := ListAll(answers).items;
    FilterSplits(Infos(records), IsValidInfo, IsInvalidInfo);
    ValidCountIsListed(records);
  }

  /** Every report carries the 1-based fetch position of its record, and is
      valid exactly when the page list shows that record. */
  lemma InfosPositions(records: seq<Item>)
    ensures forall info :: info in Infos(records) ==>
      1 <= info.index <= |records| && (info.isValid <==> IsListable(records[info.index - 1]))
  {
    var infos := Infos(records);
    forall info | info in infos
      ensures 1 <= info.index <= |records| && (info.isValid <==> IsListable(records[info.index - 1]))
    {
      var i :| 0 <= i < |infos| && infos[i] == info;
      ValidIffListable(records[i], i + 1);
    }
  }

  /** Both lists keep fetch order. */
  lemma DiagnoseOrder(answers: seq<ListAnswer>)
    requires ListAll(answers).Fetched?
    ensures var d := Diagnose(answers).value;
      IndexesIncrease(d.validRecords) && IndexesIncrease(d.invalidRecords)
  {
    var infos := Infos(ListAll(answers).items);
    assert IndexesIncrease(infos);
    FilterKeepsIndexOrder(infos, IsValidInfo);
    FilterKeepsIndexOrder(infos, IsInvalidInfo);
  }

  /** Each report in the valid list names a fetched record that the page list
      shows, and each in the invalid list one that it skips. */
  lemma DiagnoseValidity(answers: seq<ListAnswer>)
    requires ListAll(answers).Fetched?
    ensures var d := Diagnose(answers).value;
      var records := ListAll(answers).items;
      && (forall info :: info in d.validRecords ==>
            1 <= info.index <= |records| && IsListable(records[info.index - 1]))
      && (forall info :: info in d.invalidRecords ==>
            1 <= info.index <= |records| && !IsListable(records[info.index - 1]))
  {
    var records := ListAll(answers).items;
    var infos := Infos(records);
    FilterKeeps(infos, IsValidInfo);
    FilterKeeps(infos, IsInvalidInfo);
    InfosPositions(records);
  }

  /** A failed listing reports zeros and the error's message. */
  lemma DiagnoseFailure(answers: seq<ListAnswer>)
    requires ListAll(answers).Threw?
    ensures Diagnose(answers) == Some(Diagnosis(0, 0, 0, [], [], Some(ListAll(answers).message)))
  {
  }
}
