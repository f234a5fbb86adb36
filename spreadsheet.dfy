/** The cached mirror of one sheet of a remote spreadsheet document
    (class `Spreadsheet` of src/structs/spreadsheet.ts). */
module SpreadsheetMirror {
  import opened Grids
  import opened Cells
  import opened SheetsService

  /** Why an operation stopped. The source logs FetchFailed and
      SheetNotFound and ends the process; UpdateFailed reaches the caller. */
  datatype Failure = FetchFailed | SheetNotFound(title: string) | UpdateFailed

  datatype Outcome = Pass | Fail(failure: Failure)

  /** The header row: row 0 of the cached rows, absent when there are none. */
  function HeaderRow(rows: Option<Grid>): Option<Row>
  {
    if rows.Some? && |rows.value| > 0 then Some(rows.value[0]) else None
  }

  /** The one-cell range a write sends, on the sheet `sheetId`. The cell's
      `row` is the grid column and its `column` the grid row. */
  function RangeOf(sheetId: nat, cell: Cell): (r: GridRange)
    ensures IsSingleCell(r) && r.sheetId == sheetId
    ensures forall i: nat, j: nat :: Covers(r, i, j) <==> i == cell.column && j == cell.row
  {
    GridRange(sheetId, cell.column, cell.column + 1, cell.row, cell.row + 1)
  }

  /** The range exactly as the source builds it names no sheet, and the
      service reads a missing sheet id as 0: it is `RangeOf(0, cell)`. A
      write through it never reaches a configured sheet whose id is not 0:
      either it is refused or another sheet changes. */
  lemma SourceRangeMissesConfiguredSheet(doc: Document, title: string, cell: Cell, content: string)
    requires SheetTitled(doc, title).Some?
    requires doc[SheetTitled(doc, title).value].sheetId != 0
    ensures var after := ApplyUpdate(doc, RangeOf(0, cell), content);
      after.Some? ==> after.value[SheetTitled(doc, title).value] == doc[SheetTitled(doc, title).value]
  {
    var k := SheetTitled(doc, title).value;
    var after := ApplyUpdate(doc, RangeOf(0, cell), content);
    if after.Some? {
      assert SheetWithId(doc, 0).value != k;
    }
  }

  /** Writing "name" into the first cell of an empty grid. */
  lemma FirstCellOfEmptyGrid()
    ensures SetCell([], 0, 0, "name") == [[Some("name")]]
  {
    var grid := SetCell([], 0, 0, "name");
    PutAtEnd([], "name");
    var empty: Row := [];
    assert empty + [Some("name")] == [Some("name")];
    assert grid[0] == [Some("name")];
  }

  /** A document where the configured sheet "Users" is the second one: the
      source's write of a header lands on the first sheet, and "Users"
      stays empty. */
  lemma SourceRangeCounterexample()
    ensures var doc := [Sheet(0, "Sheet1", None), Sheet(7, "Users", None)];
      var after := ApplyUpdate(doc, RangeOf(0, Cell(0, 0)), "name");
      && after.Some?
      && SheetTitled(after.value, "Users") == Some(1)
      && after.value[1].data.None?
      && after.value[0].data == Some([[Some("name")]])
  {
    var doc := [Sheet(0, "Sheet1", None), Sheet(7, "Users", None)];
    var range := RangeOf(0, Cell(0, 0));
    assert range.sheetId == 0 && range.startRowIndex == 0 && range.startColumnIndex == 0;
    assert SheetWithId(doc, 0) == Some(0);
    assert SheetTitled(doc, "Users") == Some(1);
    var after := ApplyUpdate(doc, range, "name");
    assert after.Some?;
    assert 1 < |doc|;
    assert after.value[1] == doc[1];
    assert after.value[0].data == Some(SetCell(GridOf(None), 0, 0, "name"));
    FirstCellOfEmptyGrid();
    LayoutKeepsLookups(doc, after.value, "Users", 0);
  }

  /** The corrected range names the configured sheet, so the write changes
      exactly the addressed cell of that sheet. */
  lemma RangeOfHitsConfiguredSheet(doc: Document, title: string, cell: Cell, content: string)
    requires DistinctIds(doc)
    requires SheetTitled(doc, title).Some?
    ensures var k := SheetTitled(doc, title).value;
      var after := ApplyUpdate(doc, RangeOf(doc[k].sheetId, cell), content);
      && after.Some?
      && SheetTitled(after.value, title) == Some(k)
      && after.value[k].data.Some?
      && forall i: nat, j: nat :: CellAt(after.value[k].data.value, i, j) ==
           if i == cell.column && j == cell.row then Some(content) else CellAt(GridOf(doc[k].data), i, j)
  {
    var k := SheetTitled(doc, title).value;
    IdFindsTitledSheet(doc, title);
    var after := ApplyUpdate(doc, RangeOf(doc[k].sheetId, cell), content);
    LayoutKeepsLookups(doc, after.value, title, 0);
  }

  /** Among all documents of the service, the corrected write changes only
      the configured sheet of document `id`, and only its data. */
  lemma RangeOfKeepsOtherSheets(docs: map<string, Document>, id: string, title: string, cell: Cell, content: string)
    requires id in docs && DistinctIds(docs[id]) && SheetTitled(docs[id], title).Some?
    ensures var doc := docs[id];
      var k := SheetTitled(doc, title).value;
      var after := ApplyUpdate(doc, RangeOf(doc[k].sheetId, cell), content);
      && after.Some?
      && SheetTitled(after.value, title) == Some(k)
      && after.value[k] == doc[k].(data := Some(SetCell(GridOf(doc[k].data), cell.column, cell.row, content)))
      && OnlySheetChanged(docs, docs[id := after.value], id, title)
  {
    var doc := docs[id];
    var k := SheetTitled(doc, title).value;
    RangeOfHitsConfiguredSheet(doc, title, cell, content);
    IdFindsTitledSheet(doc, title);
    var written := ApplyUpdate(doc, RangeOf(doc[k].sheetId, cell), content).value;
    assert written[k := written[k].(data := None)] == doc[k := doc[k].(data := None)];
  }

  class Spreadsheet {
    /** The document id and the sheet title, from the configuration. */
    const id: string
    const title: string
    /** The authorized client of the remote service. */
    const client: FakeSheets

    var spreadsheet: Option<Document>
    var sheet: Option<Sheet>
    var rows: Option<Grid>
    var headers: Option<Row>

    /** The cached fields agree with each other. */
    ghost predicate Valid()
      reads this
    {
      && headers == HeaderRow(rows)
      && (sheet.Some? ==> rows == sheet.value.data)
      && (sheet.None? ==> rows.None?)
    }

    /** The sheet the remote document currently has under the configured title. */
    ghost function RemoteSheet(): Option<Sheet>
      reads this, client
    {
      if id !in client.documents then None
      else
        var doc := client.documents[id];
        match SheetTitled(doc, title)
        case None => None
        case Some(k) => Some(doc[k])
    }

    /** The cache holds exactly the remote state of the configured sheet. */
    ghost predicate Synced()
      reads this, client
    {
      Valid() && client.Valid() && sheet.Some? && RemoteSheet() == sheet
    }

    constructor (client: FakeSheets, id: string, title: string)
      ensures this.client == client && this.id == id && this.title == title
      ensures spreadsheet.None? && sheet.None? && rows.None? && headers.None?
      ensures Valid()
    {
      this.client := client;
      this.id := id;
      this.title := title;
      spreadsheet, sheet, rows, headers := None, None, None, None;
    }

    /** The `empty` getter: no rows are cached. */
    function Empty(): (e: bool)
      reads this
      ensures Valid() ==> (e <==> headers.None?)
    {
      if rows.Some? then |rows.value| == 0 else true
    }

    /** Fetches the document and caches the first sheet with the configured
        title, replacing every cached field. */
    method Update() returns (out: Outcome)
      modifies this, client`quota
      ensures client.quota == Spent(old(client.quota))
      ensures out in {Pass, Fail(FetchFailed), Fail(SheetNotFound(title))}
      ensures out == Fail(FetchFailed) <==> old(client.quota) == 0 || id !in client.documents
      ensures out == Fail(SheetNotFound(title)) <==>
        old(client.quota) > 0 && id in client.documents && SheetTitled(client.documents[id], title).None?
      ensures out == Fail(FetchFailed) ==> spreadsheet == old(spreadsheet)
      ensures out != Fail(FetchFailed) ==> spreadsheet == Some(client.documents[id])
      ensures out.Fail? ==> sheet == old(sheet) && rows == old(rows) && headers == old(headers)
      ensures out.Pass? ==> sheet == RemoteSheet() && sheet.Some?
      ensures out.Pass? ==> rows == sheet.value.data && headers == HeaderRow(rows)
    {
      var fetched := client.Get(id);
      if fetched.None? {
        return Fail(FetchFailed);
      }
      var doc := fetched.value;
      spreadsheet := Some(doc);
      var found := SheetTitled(doc, title);
      if found.None? {
        return Fail(SheetNotFound(title));
      }
      sheet := Some(doc[found.value]);
      rows := doc[found.value].data;
      headers := if rows.Some? && |rows.value| > 0 then Some(rows.value[0]) else None;
      out := Pass;
    }

    /** Sets one cell of the configured sheet to `content`, then refreshes
        the cache. Needs two requests: the update and the fetch. */
    method Write(cell: Cell, content: string) returns (out: Outcome)
      requires Synced()
      modifies this, client
      ensures client.Valid()
      ensures client.quota == Spent(Spent(old(client.quota)))
      ensures out == if old(client.quota) == 0 then Fail(UpdateFailed)
                     else if old(client.quota) == 1 then Fail(FetchFailed)
                     else Pass
      ensures OnlySheetChanged(old(client.documents), client.documents, id, title)
      ensures out != Fail(UpdateFailed) ==>
        RemoteSheet() == Some(old(sheet).value.(data := Some(SetCell(GridOf(old(rows)), cell.column, cell.row, content))))
      ensures out == Fail(UpdateFailed) ==>
        client.documents == old(client.documents) && Synced()
        && spreadsheet == old(spreadsheet)
        && sheet == old(sheet) && rows == old(rows) && headers == old(headers)
      ensures out.Pass? ==> spreadsheet == Some(client.documents[id])
      ensures out.Pass? ==> Synced()
      ensures out.Pass? ==> rows == Some(SetCell(GridOf(old(rows)), cell.column, cell.row, content))
      ensures out.Pass? ==> forall i: nat, j: nat ::
        CellAt(rows.value, i, j) == if i == cell.column && j == cell.row then Some(content) else CellAt(GridOf(old(rows)), i, j)
    {
      var range := RangeOf(sheet.value.sheetId, cell);
      ghost var doc := client.documents[id];
      ghost var k := SheetTitled(doc, title).value;
      assert sheet.value == doc[k];
      RangeOfKeepsOtherSheets(client.documents, id, title, cell, content);
      var ok := client.BatchUpdate(id, range, content);
      if !ok {
        return Fail(UpdateFailed);
      }
      out := Update();
      assert old(client.quota) >= 2 ==> out.Pass?;
    }
  }

  /** Two refreshes with no write between them cache the same rows and
      headers: a refresh replaces the cache and merges nothing. */
  method RefreshTwice(s: Spreadsheet) returns (first: Outcome, second: Outcome, rows: Option<Grid>, headers: Option<Row>)
    modifies s, s.client`quota
    ensures first.Pass? && second.Pass? ==> s.rows == rows && s.headers == headers
    ensures first.Pass? && second.Pass? ==> s.Valid() && s.sheet == s.RemoteSheet()
  {
    first := s.Update();
    rows, headers := s.rows, s.headers;
    second := s.Update();
  }
}
