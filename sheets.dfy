/** An in-memory stand-in for the remote spreadsheet service: documents by
    id, each an ordered list of sheets, and a request quota. Every request
    (a fetch or an update) uses up one unit of quota; once the quota is
    spent every request fails, as a service does on quota exhaustion,
    expired credentials or a lost connection. */
module SheetsService {
  import opened Grids
  import opened Cells

  /** One sheet of a document; `data` is the sheet's row data, absent when
      the service sends none (an empty sheet). */
  datatype Sheet = Sheet(sheetId: nat, title: string, data: Option<Grid>)

  type Document = seq<Sheet>

  function GridOf(data: Option<Grid>): Grid
  {
    if data.Some? then data.value else []
  }

  /** Position of the first sheet with this title: the `find` of the
      mirror's refresh. It is the search of `FirstWhere` written out on
      titles, so that the mirror's consistency predicate, which mentions it
      in every state, carries no function value. */
  function SheetTitled(doc: Document, title: string): (r: Option<nat>)
    ensures r.Some? ==> r.value < |doc| && doc[r.value].title == title
    ensures r.Some? ==> forall k :: 0 <= k < r.value ==> doc[k].title != title
    ensures r.None? <==> forall k :: 0 <= k < |doc| ==> doc[k].title != title
  {
    if |doc| == 0 then None
    else if doc[0].title == title then Some(0)
    else match SheetTitled(doc[1..], title)
      case None => None
      case Some(k) => Some(k + 1)
  }

  /** Position of the first sheet with this id. */
  function SheetWithId(doc: Document, id: nat): Option<nat>
  {
    FirstWhere(doc, (s: Sheet) => s.sheetId == id)
  }

  /** The service keeps sheet ids unique within a document. */
  ghost predicate DistinctIds(doc: Document)
  {
    forall a, b :: 0 <= a < b < |doc| ==> doc[a].sheetId != doc[b].sheetId
  }

  /** Two documents with the same sheets in the same order, up to data. */
  ghost predicate SameLayout(d: Document, e: Document)
  {
    |d| == |e| && forall k :: 0 <= k < |d| ==> d[k].sheetId == e[k].sheetId && d[k].title == e[k].title
  }

  /** The document after one `updateCells` request that sets a string value
      over `range`. The service looks the sheet up by id; this stand-in
      only accepts one-cell ranges. */
  function ApplyUpdate(doc: Document, range: GridRange, content: string): (r: Option<Document>)
    ensures r.Some? <==> IsSingleCell(range) && SheetWithId(doc, range.sheetId).Some?
    ensures r.Some? ==> SameLayout(doc, r.value)
    ensures r.Some? ==> forall k :: 0 <= k < |doc| && k != SheetWithId(doc, range.sheetId).value ==>
      r.value[k] == doc[k]
    ensures r.Some? ==> var k := SheetWithId(doc, range.sheetId).value;
      r.value[k].data.Some? &&
      forall i: nat, j: nat :: CellAt(r.value[k].data.value, i, j) ==
        if Covers(range, i, j) then Some(content) else CellAt(GridOf(doc[k].data), i, j)
    ensures r.Some? ==> var k := SheetWithId(doc, range.sheetId).value;
      r.value[k] == doc[k].(data := Some(SetCell(GridOf(doc[k].data), range.startRowIndex, range.startColumnIndex, content)))
  {
    match SheetWithId(doc, range.sheetId)
    case None => None
    case Some(k) =>
      if !IsSingleCell(range) then None
      else
        var grid := SetCell(GridOf(doc[k].data), range.startRowIndex, range.startColumnIndex, content);
        Some(doc[k := doc[k].(data := Some(grid))])
  }

  /** Lookups by title and by id only depend on the layout. */
  lemma LayoutKeepsLookups(d: Document, e: Document, title: string, id: nat)
    requires SameLayout(d, e)
    ensures SheetTitled(d, title) == SheetTitled(e, title)
    ensures SheetWithId(d, id) == SheetWithId(e, id)
    ensures DistinctIds(d) ==> DistinctIds(e)
  {
    var t, u := SheetTitled(d, title), SheetTitled(e, title);
    if t.Some? && u.Some? {
      assert !(t.value < u.value) && !(u.value < t.value);
    }
    var a, b := SheetWithId(d, id), SheetWithId(e, id);
    if a.Some? && b.Some? {
      assert !(a.value < b.value) && !(b.value < a.value);
    }
  }

  /** With unique ids, the sheet found by title is the one found by its id. */
  lemma IdFindsTitledSheet(doc: Document, title: string)
    requires DistinctIds(doc)
    requires SheetTitled(doc, title).Some?
    ensures SheetWithId(doc, doc[SheetTitled(doc, title).value].sheetId) == SheetTitled(doc, title)
  {
    var k := SheetTitled(doc, title).value;
    var a := SheetWithId(doc, doc[k].sheetId);
    assert a.Some?;
    assert !(a.value < k);
  }

  /** The documents with the data of the sheet first titled `title` in
      document `id` blanked out: everything a write to that sheet keeps. */
  ghost function Untouched(docs: map<string, Document>, id: string, title: string): map<string, Document>
  {
    if id !in docs then docs
    else match SheetTitled(docs[id], title)
      case None => docs
      case Some(k) => docs[id := docs[id][k := docs[id][k].(data := None)]]
  }

  /** `after` differs from `before` at most in the data of the sheet first
      titled `title` in document `id`. */
  ghost predicate OnlySheetChanged(before: map<string, Document>, after: map<string, Document>, id: string, title: string)
  {
    Untouched(before, id, title) == Untouched(after, id, title)
  }

  /** Blanking the configured sheet's data keeps every document, the layout
      of document `id`, and every other sheet. */
  lemma UntouchedKeeps(docs: map<string, Document>, id: string, title: string)
    ensures var u := Untouched(docs, id, title);
      && (forall d :: d in docs <==> d in u)
      && (forall d :: d in docs && d != id ==> u[d] == docs[d])
      && (id in docs ==>
            && SameLayout(docs[id], u[id])
            && forall j :: 0 <= j < |docs[id]| && Some(j) != SheetTitled(docs[id], title) ==> u[id][j] == docs[id][j])
  {
  }

  /** What `OnlySheetChanged` means: the same documents, the same sheets in
      the same order in document `id`, and every other sheet and document
      as it was. */
  lemma OnlySheetChangedMeans(before: map<string, Document>, after: map<string, Document>, id: string, title: string)
    requires OnlySheetChanged(before, after, id, title)
    ensures forall d :: d in before <==> d in after
    ensures forall d :: d in before && d in after && d != id ==> after[d] == before[d]
    ensures id in before && id in after ==>
      && SameLayout(before[id], after[id])
      && SheetTitled(before[id], title) == SheetTitled(after[id], title)
      && forall j :: 0 <= j < |before[id]| && Some(j) != SheetTitled(before[id], title) ==>
           after[id][j] == before[id][j]
  {
    UntouchedKeeps(before, id, title);
    UntouchedKeeps(after, id, title);
    if id in before && id in after {
      var x, y := before[id], after[id];
      var u := Untouched(before, id, title)[id];
      assert SameLayout(x, u) && SameLayout(y, u);
      LayoutKeepsLookups(x, y, title, 0);
    }
  }

  function Spent(quota: nat): nat
  {
    if quota == 0 then 0 else quota - 1
  }

  class FakeSheets {
    var documents: map<string, Document>
    var quota: nat

    ghost predicate Valid()
      reads this
    {
      forall id :: id in documents ==> DistinctIds(documents[id])
    }

    constructor (documents: map<string, Document>, quota: nat)
      requires forall id :: id in documents ==> DistinctIds(documents[id])
      ensures Valid()
      ensures this.documents == documents && this.quota == quota
    {
      this.documents := documents;
      this.quota := quota;
    }

    /** `spreadsheets.get` with grid data: the whole document, or None when
        the request fails (no quota left, or no document with that id). */
    method Get(id: string) returns (r: Option<Document>)
      modifies this`quota
      ensures quota == Spent(old(quota))
      ensures r == if old(quota) > 0 && id in documents then Some(documents[id]) else None
    {
      if quota == 0 {
        return None;
      }
      quota := quota - 1;
      r := if id in documents then Some(documents[id]) else None;
    }

    /** `spreadsheets.batchUpdate` with one `updateCells` request; false
        when the request fails, in which case no document changes. */
    method BatchUpdate(id: string, range: GridRange, content: string) returns (ok: bool)
      requires Valid()
      modifies this
      ensures Valid()
      ensures quota == Spent(old(quota))
      ensures ok <==> old(quota) > 0 && id in old(documents) && ApplyUpdate(old(documents)[id], range, content).Some?
      ensures documents == if ok then old(documents)[id := ApplyUpdate(old(documents)[id], range, content).value]
                           else old(documents)
    {
      if quota == 0 {
        return false;
      }
      quota := quota - 1;
      if id !in documents {
        return false;
      }
      var updated := ApplyUpdate(documents[id], range, content);
      if updated.None? {
        return false;
      }
      LayoutKeepsLookups(documents[id], updated.value, "", 0);
      documents := documents[id := updated.value];
      ok := true;
    }
  }
}
