/** The body of the `/users` POST handler (src/index.ts): it reconciles one
    submission of key/value pairs with the header row of the mirrored sheet
    and writes the values into one new row, one cell at a time. */
module PostHandler {
  import opened Grids
  import opened Cells
  import opened SheetsService
  import opened SpreadsheetMirror

  /** A submission: its key/value pairs in the query's key order. */
  type Query = seq<(string, string)>

  function Keys(q: Query): (keys: seq<string>)
    ensures |keys| == |q| && forall i :: 0 <= i < |q| ==> keys[i] == q[i].0
  {
    seq(|q|, i requires 0 <= i < |q| => q[i].0)
  }

  /** The keys of a query object are pairwise different. */
  ghost predicate Distinct(keys: seq<string>)
  {
    forall i, j :: 0 <= i < j < |keys| ==> keys[i] != keys[j]
  }

  /** No header name appears twice in a header row (blank cells may). */
  ghost predicate UniqueHeaders(h: Row)
  {
    forall i, j :: 0 <= i < j < |h| && h[i].Some? ==> h[i] != h[j]
  }

  /** The header cells of a list of keys, key `i` in column `i`. */
  function AsHeaders(keys: seq<string>): (h: Row)
    ensures |h| == |keys| && forall i :: 0 <= i < |keys| ==> h[i] == Some(keys[i])
  {
    seq(|keys|, i requires 0 <= i < |keys| => Some(keys[i]))
  }

  /** The keys that are not yet headers of `h`, as header cells, in key
      order: the cells the header loop appends. */
  function Missing(h: Row, keys: seq<string>): Row
  {
    if keys == [] then []
    else
      var key := keys[|keys| - 1];
      Missing(h, keys[..|keys| - 1]) + if Some(key) in h then [] else [Some(key)]
  }

  /** The missing cells are exactly the keys absent from `h`. */
  lemma {:induction false} MissingCells(h: Row, keys: seq<string>)
    ensures forall c :: c in Missing(h, keys) <==> c.Some? && c.value in keys && c !in h
    ensures |Missing(h, keys)| <= |keys|
  {
    if keys != [] {
      var init := keys[..|keys| - 1];
      MissingCells(h, init);
      assert keys == init + [keys[|keys| - 1]];
    }
  }

  /** Nothing is missing when every key already is a header. */
  lemma {:induction false} NothingMissing(h: Row, keys: seq<string>)
    requires forall i :: 0 <= i < |keys| ==> Some(keys[i]) in h
    ensures Missing(h, keys) == []
  {
    if keys != [] {
      NothingMissing(h, keys[..|keys| - 1]);
    }
  }

  /** Appending keys one at a time: the missing cells of a prefix. */
  lemma MissingStep(h: Row, keys: seq<string>, j: nat)
    requires j < |keys|
    ensures Missing(h, keys[..j + 1]) ==
      Missing(h, keys[..j]) + if Some(keys[j]) in h then [] else [Some(keys[j])]
  {
    assert keys[..j + 1][..j] == keys[..j];
  }

  /** The missing cells of a prefix are no more than those of all keys. */
  lemma {:induction false} MissingPrefix(h: Row, keys: seq<string>, j: nat)
    requires j <= |keys|
    ensures |Missing(h, keys[..j])| <= |Missing(h, keys)|
  {
    if j < |keys| {
      var init := keys[..|keys| - 1];
      assert keys[..j] == init[..j];
      MissingPrefix(h, init, j);
      assert init[..|init|] == init;
    } else {
      assert keys[..j] == keys;
    }
  }

  /** The header row before any key is appended: the keys themselves on an
      empty sheet, row 0 otherwise. */
  function BaseHeaders(g: Grid, keys: seq<string>): Row
  {
    if |g| == 0 then AsHeaders(keys) else g[0]
  }

  /** The header row after the header writes of one submission. */
  function NewHeaders(g: Grid, keys: seq<string>): (h: Row)
    ensures forall key :: key in keys ==> Some(key) in h
    ensures |g| == 0 ==> h == AsHeaders(keys)
    ensures |g| > 0 ==> |g[0]| <= |h| && h[..|g[0]|] == g[0]
    ensures |g| > 0 ==> forall c :: c in h[|g[0]|..] <==> c.Some? && c.value in keys && c !in g[0]
  {
    var base := BaseHeaders(g, keys);
    MissingCells(base, keys);
    if |g| == 0 then
      NothingMissing(base, keys);
      base + Missing(base, keys)
    else
      assert (base + Missing(base, keys))[|base|..] == Missing(base, keys);
      base + Missing(base, keys)
  }

  /** Appending only absent keys, each once, keeps header names unique. */
  lemma NewHeadersUnique(g: Grid, keys: seq<string>)
    requires Distinct(keys)
    requires |g| > 0 ==> UniqueHeaders(g[0])
    ensures UniqueHeaders(NewHeaders(g, keys))
  {
    var base := BaseHeaders(g, keys);
    UniqueMissing(base, keys);
    MissingCells(base, keys);
    var h := NewHeaders(g, keys);
    assert h == base + Missing(base, keys);
    forall i, j | 0 <= i < j < |h| && h[i].Some? ensures h[i] != h[j] {
      if j < |base| {
      } else if i < |base| {
        assert h[j] in Missing(base, keys);
      } else {
        assert h[i] == Missing(base, keys)[i - |base|];
        assert h[j] == Missing(base, keys)[j - |base|];
      }
    }
  }

  lemma {:induction false} UniqueMissing(h: Row, keys: seq<string>)
    requires Distinct(keys)
    ensures UniqueHeaders(Missing(h, keys))
  {
    if keys != [] {
      var init := keys[..|keys| - 1];
      UniqueMissing(h, init);
      MissingCells(h, init);
      var key := keys[|keys| - 1];
      assert key !in init;
    }
  }

  /** `headers.indexOf(key)`: the column of the first header equal to `key`. */
  function ColumnOf(h: Row, key: string): (c: Option<nat>)
    ensures c.Some? <==> Some(key) in h
    ensures c.Some? ==> c.value < |h| && h[c.value] == Some(key)
    ensures c.Some? ==> forall k :: 0 <= k < c.value ==> h[k] != Some(key)
  {
    FirstWhere(h, (cell: Option<string>) => cell == Some(key))
  }

  /** The new data row: each value under the first header equal to its key,
      written in query order, blank elsewhere. */
  function ValueRow(h: Row, q: Query): Row
    requires forall i :: 0 <= i < |q| ==> Some(q[i].0) in h
  {
    if q == [] then []
    else
      var last := q[|q| - 1];
      Put(ValueRow(h, q[..|q| - 1]), ColumnOf(h, last.0).value, last.1)
  }

  /** Every value sits under its key's header, and the cells under no key's
      header stay blank. */
  lemma {:induction false} ValueRowCells(h: Row, q: Query)
    requires forall i :: 0 <= i < |q| ==> Some(q[i].0) in h
    requires Distinct(Keys(q))
    ensures forall i :: 0 <= i < |q| ==> RowCell(ValueRow(h, q), ColumnOf(h, q[i].0).value) == Some(q[i].1)
    ensures forall c: nat :: (forall i :: 0 <= i < |q| ==> ColumnOf(h, q[i].0).value != c) ==>
      RowCell(ValueRow(h, q), c) == None
  {
    if q != [] {
      var init := q[..|q| - 1];
      var last := q[|q| - 1];
      assert Keys(init) == Keys(q)[..|q| - 1];
      ValueRowCells(h, init);
      var col := ColumnOf(h, last.0).value;
      forall i | 0 <= i < |init| ensures ColumnOf(h, init[i].0).value != col {
        assert Keys(q)[i] != Keys(q)[|q| - 1];
      }
      var prev := ValueRow(h, init);
      var row := ValueRow(h, q);
      assert row == Put(prev, col, last.1);
      forall i | 0 <= i < |q| ensures RowCell(row, ColumnOf(h, q[i].0).value) == Some(q[i].1) {
        if i < |init| {
          assert q[i] == init[i];
        }
      }
      forall c: nat | forall i :: 0 <= i < |q| ==> ColumnOf(h, q[i].0).value != c
        ensures RowCell(row, c) == None
      {
        assert c != col;
        forall i | 0 <= i < |init| ensures ColumnOf(h, init[i].0).value != c {
          assert q[i] == init[i];
        }
      }
    }
  }

  /** The grid after one reconciled submission: the new header row, the old
      data rows, and one new row holding the values. */
  function Reconciled(g: Grid, q: Query): (r: Grid)
    ensures |r| == if |g| == 0 then 2 else |g| + 1
    ensures DataRows(r) == DataRows(g) + 1
    ensures r[0] == NewHeaders(g, Keys(q))
    ensures forall i :: 0 < i < |g| ==> r[i] == g[i]
  {
    var h := NewHeaders(g, Keys(q));
    [h] + (if |g| == 0 then [] else g[1..]) + [ValueRow(h, q)]
  }

  /** All values of one submission go to the same row, the last one, which
      is the row count seen after the header writes; each under the first
      header equal to its key. */
  lemma SubmissionRow(g: Grid, q: Query)
    requires Distinct(Keys(q))
    ensures var r := Reconciled(g, q);
      forall i :: 0 <= i < |q| ==>
        && ColumnOf(r[0], q[i].0).Some?
        && CellAt(r, |r| - 1, ColumnOf(r[0], q[i].0).value) == Some(q[i].1)
    ensures var r := Reconciled(g, q);
      forall c: nat :: (forall i :: 0 <= i < |q| ==> ColumnOf(r[0], q[i].0) != Some(c)) ==>
        CellAt(r, |r| - 1, c) == None
  {
    var h := NewHeaders(g, Keys(q));
    assert forall i :: 0 <= i < |q| ==> Some(q[i].0) in h by {
      forall i | 0 <= i < |q| ensures Some(q[i].0) in h {
        assert Keys(q)[i] in Keys(q);
      }
    }
    ValueRowCells(h, q);
    var r := Reconciled(g, q);
    assert r[|r| - 1] == ValueRow(h, q);
    LastRowCells(q, r, ValueRow(h, q));
  }

  /** The cells of a grid whose last row is the value row of its header row. */
  lemma LastRowCells(q: Query, r: Grid, row: Row)
    requires |r| >= 2 && r[|r| - 1] == row
    requires forall i :: 0 <= i < |q| ==> Some(q[i].0) in r[0]
    requires forall i :: 0 <= i < |q| ==> RowCell(row, ColumnOf(r[0], q[i].0).value) == Some(q[i].1)
    requires forall c: nat :: (forall i :: 0 <= i < |q| ==> ColumnOf(r[0], q[i].0).value != c) ==>
      RowCell(row, c) == None
    ensures forall i :: 0 <= i < |q| ==>
      && ColumnOf(r[0], q[i].0).Some?
      && CellAt(r, |r| - 1, ColumnOf(r[0], q[i].0).value) == Some(q[i].1)
    ensures forall c: nat :: (forall i :: 0 <= i < |q| ==> ColumnOf(r[0], q[i].0) != Some(c)) ==>
      CellAt(r, |r| - 1, c) == None
  {
    forall i | 0 <= i < |q|
      ensures ColumnOf(r[0], q[i].0).Some? && CellAt(r, |r| - 1, ColumnOf(r[0], q[i].0).value) == Some(q[i].1)
    {
      assert CellAt(r, |r| - 1, ColumnOf(r[0], q[i].0).value) == RowCell(row, ColumnOf(r[0], q[i].0).value);
    }
    forall c: nat | forall i :: 0 <= i < |q| ==> ColumnOf(r[0], q[i].0) != Some(c)
      ensures CellAt(r, |r| - 1, c) == None
    {
      forall i | 0 <= i < |q| ensures ColumnOf(r[0], q[i].0).value != c {
        assert ColumnOf(r[0], q[i].0).Some?;
      }
      assert CellAt(r, |r| - 1, c) == RowCell(row, c);
    }
    assert forall c: nat :: (forall i :: 0 <= i < |q| ==> ColumnOf(r[0], q[i].0) != Some(c)) ==>
      CellAt(r, |r| - 1, c) == None;
  }

  /** Rows below the header row. */
  function DataRows(g: Grid): nat
  {
    if |g| == 0 then 0 else |g| - 1
  }

  /** Number of cell writes one submission issues. */
  function WriteCount(g: Grid, q: Query): nat
  {
    var keys := Keys(q);
    (if |g| == 0 then |q| else 0) + |Missing(BaseHeaders(g, keys), keys)| + |q|
  }

  /** Handles one submission against the mirror `s`. Every write costs two
      requests; the submission completes exactly when the quota covers all
      of its writes, and a refused update leaves the mirror in step with the
      remote sheet. */
  method Submit(s: Spreadsheet, query: Query) returns (out: Outcome)
    requires s.Synced()
    requires Distinct(Keys(query))
    modifies s, s.client
    ensures query == [] ==> out == Pass && unchanged(s) && unchanged(s.client)
    ensures out.Pass? <==> old(s.client.quota) >= 2 * WriteCount(GridOf(old(s.rows)), query)
    ensures out.Pass? ==> s.Synced()
    ensures out.Pass? && query != [] ==> s.rows == Some(Reconciled(GridOf(old(s.rows)), query))
    ensures out.Pass? && query != [] ==> s.spreadsheet == Some(s.client.documents[s.id])
    ensures out.Pass? ==> s.client.quota == old(s.client.quota) - 2 * WriteCount(GridOf(old(s.rows)), query)
    ensures OnlySheetChanged(old(s.client.documents), s.client.documents, s.id, s.title)
    ensures out.Fail? ==> out.failure in {UpdateFailed, FetchFailed}
    ensures out == Fail(UpdateFailed) ==> s.Synced()
  {
    if |query| == 0 {
      return Pass;
    }
    ghost var g0 := GridOf(s.rows);
    var keys := Keys(query);
    PhasesCompose(g0, query);

    if s.Empty() {
      out := WriteHeaderRow(s, keys);
      if out.Fail? {
        return;
      }
    }
    out := AppendMissingHeaders(s, keys);
    if out.Fail? {
      return;
    }
    out := WriteValues(s, query);
  }

  /** The three phases of the handler compose to the reconciled grid. */
  lemma PhasesCompose(g: Grid, q: Query)
    ensures var keys := Keys(q);
      var g1 := if |g| == 0 then [AsHeaders(keys)] else g;
      var base := BaseHeaders(g, keys);
      var g2 := g1[0 := base + Missing(base, keys)];
      && |g1| > 0 && g1[0] == base
      && (forall i :: 0 <= i < |q| ==> Some(q[i].0) in g2[0])
      && g2 + [ValueRow(g2[0], q)] == Reconciled(g, q)
  {
    var keys := Keys(q);
    var h := NewHeaders(g, keys);
    var base := BaseHeaders(g, keys);
    assert h == base + Missing(base, keys);
    var g1 := if |g| == 0 then [AsHeaders(keys)] else g;
    var rest := if |g| == 0 then [] else g[1..];
    var g2 := g1[0 := h];
    assert g2 == [h] + rest;
    forall i | 0 <= i < |q| ensures Some(q[i].0) in h {
      assert keys[i] in keys;
    }
    assert Reconciled(g, q) == [h] + rest + [ValueRow(h, q)];
  }

  /** Bootstraps the header row of an empty sheet: key `i` goes to grid
      row 0, column `i`. */
  method WriteHeaderRow(s: Spreadsheet, keys: seq<string>) returns (out: Outcome)
    requires s.Synced() && s.Empty() && |keys| > 0
    modifies s, s.client
    ensures out.Pass? <==> old(s.client.quota) >= 2 * |keys|
    ensures out.Pass? ==> s.Synced() && GridOf(s.rows) == [AsHeaders(keys)]
    ensures out.Pass? ==> s.client.quota == old(s.client.quota) - 2 * |keys|
    ensures OnlySheetChanged(old(s.client.documents), s.client.documents, s.id, s.title)
    ensures out.Fail? ==> out.failure in {UpdateFailed, FetchFailed}
    ensures out == Fail(UpdateFailed) ==> s.Synced()
  {
    ghost var quota0 := s.client.quota;
    ghost var docs0 := s.client.documents;
    var i := 0;
    while i < |keys|
      invariant 0 <= i <= |keys|
      invariant s.Synced()
      invariant GridOf(s.rows) == if i == 0 then [] else [AsHeaders(keys[..i])]
      invariant s.client.quota == quota0 - 2 * i
      invariant OnlySheetChanged(docs0, s.client.documents, s.id, s.title)
    {
      BootstrapStep(GridOf(s.rows), keys, i);
      out := s.Write(Cell(row := i, column := 0), keys[i]);
      if out.Fail? {
        return;
      }
      i := i + 1;
    }
    assert keys[..i] == keys;
    out := Pass;
  }

  /** Appends every key that is not a header yet, at the column just past
      the last header. */
  method AppendMissingHeaders(s: Spreadsheet, keys: seq<string>) returns (out: Outcome)
    requires s.Synced() && !s.Empty() && Distinct(keys)
    modifies s, s.client
    ensures var base := GridOf(old(s.rows))[0];
      out.Pass? <==> old(s.client.quota) >= 2 * |Missing(base, keys)|
    ensures var base := GridOf(old(s.rows))[0];
      out.Pass? ==> && s.Synced()
                    && GridOf(s.rows) == GridOf(old(s.rows))[0 := base + Missing(base, keys)]
                    && s.client.quota == old(s.client.quota) - 2 * |Missing(base, keys)|
    ensures OnlySheetChanged(old(s.client.documents), s.client.documents, s.id, s.title)
    ensures out.Fail? ==> out.failure in {UpdateFailed, FetchFailed}
    ensures out == Fail(UpdateFailed) ==> s.Synced()
  {
    ghost var quota0 := s.client.quota;
    ghost var docs0 := s.client.documents;
    ghost var g1 := GridOf(s.rows);
    ghost var base := g1[0];
    assert keys[..0] == [];
    assert Missing(base, keys[..0]) == [];
    assert base + [] == base;
    assert HeadersWritten(g1, base, keys, 0) == g1;
    var j := 0;
    while j < |keys|
      invariant 0 <= j <= |keys|
      invariant s.Synced()
      invariant GridOf(s.rows) == HeadersWritten(g1, base, keys, j)
      invariant s.client.quota == quota0 - 2 * |Missing(base, keys[..j])|
      invariant OnlySheetChanged(docs0, s.client.documents, s.id, s.title)
    {
      MissingStep(base, keys, j);
      MissingPrefix(base, keys, j + 1);
      out := AppendHeader(s, keys, j, g1, base);
      if out.Fail? {
        return;
      }
      j := j + 1;
    }
    assert keys[..j] == keys;
    out := Pass;
  }

  /** Writes each value under its key's header, all in the row just past
      the last row, counted once before the first value is written. */
  method WriteValues(s: Spreadsheet, query: Query) returns (out: Outcome)
    requires s.Synced() && !s.Empty() && |query| > 0
    requires forall i :: 0 <= i < |query| ==> Some(query[i].0) in GridOf(s.rows)[0]
    modifies s, s.client
    ensures out.Pass? <==> old(s.client.quota) >= 2 * |query|
    ensures out.Pass? ==> && s.Synced()
                          && s.rows == Some(GridOf(old(s.rows)) + [ValueRow(GridOf(old(s.rows))[0], query)])
                          && s.spreadsheet == Some(s.client.documents[s.id])
                          && s.client.quota == old(s.client.quota) - 2 * |query|
    ensures OnlySheetChanged(old(s.client.documents), s.client.documents, s.id, s.title)
    ensures out.Fail? ==> out.failure in {UpdateFailed, FetchFailed}
    ensures out == Fail(UpdateFailed) ==> s.Synced()
  {
    ghost var quota0 := s.client.quota;
    ghost var docs0 := s.client.documents;
    ghost var g2 := GridOf(s.rows);
    ghost var h := g2[0];
    var rowCount := |s.rows.value|;
    assert forall i :: 0 <= i < |query| ==> Some(query[i].0) in h;
    var k := 0;
    while k < |query|
      invariant 0 <= k <= |query|
      invariant s.Synced()
      invariant GridOf(s.rows) == ValuesWritten(g2, h, query, k)
      invariant rowCount == |g2| && s.headers == Some(h)
      invariant s.client.quota == quota0 - 2 * k
      invariant k > 0 ==> s.spreadsheet == Some(s.client.documents[s.id])
      invariant OnlySheetChanged(docs0, s.client.documents, s.id, s.title)
    {
      out := WriteValue(s, query, k, rowCount, g2, h);
      if out.Fail? {
        return;
      }
      k := k + 1;
    }
    assert query[..k] == query;
    out := Pass;
  }

  /** One pass of the value loop: value `k` goes under the first header
      equal to its key, in row `rowCount`. */
  method WriteValue(s: Spreadsheet, query: Query, k: nat, rowCount: nat, ghost g2: Grid, ghost h: Row)
    returns (out: Outcome)
    requires k < |query|
    requires forall i :: 0 <= i < |query| ==> Some(query[i].0) in h
    requires s.Synced() && rowCount == |g2| > 0 && g2[0] == h && s.headers == Some(h)
    requires GridOf(s.rows) == ValuesWritten(g2, h, query, k)
    modifies s, s.client
    ensures s.client.quota == Spent(Spent(old(s.client.quota)))
    ensures out == if old(s.client.quota) == 0 then Fail(UpdateFailed)
                   else if old(s.client.quota) == 1 then Fail(FetchFailed)
                   else Pass
    ensures OnlySheetChanged(old(s.client.documents), s.client.documents, s.id, s.title)
    ensures out == Fail(UpdateFailed) ==> s.Synced()
    ensures out.Pass? ==> && s.Synced() && s.headers == Some(h)
                          && s.spreadsheet == Some(s.client.documents[s.id])
                          && GridOf(s.rows) == ValuesWritten(g2, h, query, k + 1)
  {
    var column := ColumnOf(s.headers.value, query[k].0).value;
    ValueStep(g2, h, query, k);
    out := s.Write(Cell(row := column, column := rowCount), query[k].1);
  }

  /** One step of the header bootstrap on an empty sheet. */
  lemma BootstrapStep(g: Grid, keys: seq<string>, i: nat)
    requires i < |keys|
    requires g == if i == 0 then [] else [AsHeaders(keys[..i])]
    ensures SetCell(g, 0, i, keys[i]) == [AsHeaders(keys[..i + 1])]
  {
    if i == 0 {
      var empty: Row := [];
      PutAtEnd(empty, keys[0]);
      assert empty + [Some(keys[0])] == [Some(keys[0])];
      assert AsHeaders(keys[..1]) == [Some(keys[0])];
    } else {
      assert |g[0]| == i;
      AppendToRow(g, 0, keys[i]);
      assert AsHeaders(keys[..i]) + [Some(keys[i])] == AsHeaders(keys[..i + 1]);
    }
  }

  /** The grid `g` after the first `j` keys went through the header loop,
      starting from the header row `base`. */
  ghost function HeadersWritten(g: Grid, base: Row, keys: seq<string>, j: nat): Grid
    requires |g| > 0 && j <= |keys|
  {
    g[0 := base + Missing(base, keys[..j])]
  }

  /** One pass of the header loop: key `j` is written just past the last
      header when it is not a header yet, and nothing happens otherwise. */
  method AppendHeader(s: Spreadsheet, keys: seq<string>, j: nat, ghost g1: Grid, ghost base: Row)
    returns (out: Outcome)
    requires Distinct(keys) && |g1| > 0 && j < |keys|
    requires s.Synced() && GridOf(s.rows) == HeadersWritten(g1, base, keys, j)
    modifies s, s.client
    ensures Some(keys[j]) in base ==> out == Pass && unchanged(s) && unchanged(s.client)
    ensures Some(keys[j]) !in base ==> s.client.quota == Spent(Spent(old(s.client.quota)))
    ensures Some(keys[j]) !in base ==>
      out == if old(s.client.quota) == 0 then Fail(UpdateFailed)
             else if old(s.client.quota) == 1 then Fail(FetchFailed)
             else Pass
    ensures OnlySheetChanged(old(s.client.documents), s.client.documents, s.id, s.title)
    ensures out == Fail(UpdateFailed) ==> s.Synced()
    ensures out.Pass? ==> s.Synced() && GridOf(s.rows) == HeadersWritten(g1, base, keys, j + 1)
  {
    HeaderStep(g1, base, keys, j);
    if Some(keys[j]) !in s.headers.value {
      out := s.Write(Cell(row := |s.headers.value|, column := 0), keys[j]);
    } else {
      out := Pass;
    }
  }

  /** One step of the header loop: a key is appended exactly when it is not
      among the headers it started from. */
  lemma HeaderStep(g: Grid, base: Row, keys: seq<string>, j: nat)
    requires Distinct(keys) && |g| > 0 && j < |keys|
    ensures Some(keys[j]) in base + Missing(base, keys[..j]) <==> Some(keys[j]) in base
    ensures Some(keys[j]) in base ==> HeadersWritten(g, base, keys, j + 1) == HeadersWritten(g, base, keys, j)
    ensures Some(keys[j]) !in base ==>
      SetCell(HeadersWritten(g, base, keys, j), 0, |base + Missing(base, keys[..j])|, keys[j])
      == HeadersWritten(g, base, keys, j + 1)
  {
    MissingStep(base, keys, j);
    MissingCells(base, keys[..j]);
    assert keys[j] !in keys[..j];
    if Some(keys[j]) !in base {
      var row := base + Missing(base, keys[..j]);
      AppendToRow(g[0 := row], 0, keys[j]);
      assert row + [Some(keys[j])] == base + Missing(base, keys[..j + 1]);
    } else {
      assert Missing(base, keys[..j + 1]) == Missing(base, keys[..j]);
    }
  }

  /** The grid `g` after the first `k` values of `q` are written into the
      row just past it. */
  ghost function ValuesWritten(g: Grid, h: Row, q: Query, k: nat): Grid
    requires k <= |q|
    requires forall i :: 0 <= i < |q| ==> Some(q[i].0) in h
  {
    if k == 0 then g else g + [ValueRow(h, q[..k])]
  }

  /** One step of the value loop: the next value extends the new row. */
  lemma ValueStep(g: Grid, h: Row, q: Query, k: nat)
    requires k < |q|
    requires forall i :: 0 <= i < |q| ==> Some(q[i].0) in h
    ensures SetCell(ValuesWritten(g, h, q, k), |g|, ColumnOf(h, q[k].0).value, q[k].1)
      == ValuesWritten(g, h, q, k + 1)
  {
    assert q[..k + 1][..k] == q[..k];
    if k == 0 {
      assert ValueRow(h, q[..0]) == [];
    } else {
      var grid := g + [ValueRow(h, q[..k])];
      assert grid[|g| := Put(ValueRow(h, q[..k]), ColumnOf(h, q[k].0).value, q[k].1)]
        == g + [ValueRow(h, q[..k + 1])];
    }
  }

  /** An empty sheet and the submission {name: Alice, age: 30}: the header
      row becomes the keys and row 1 the values. */
  lemma BootstrapExample()
    ensures Reconciled([], [("name", "Alice"), ("age", "30")]) ==
      [[Some("name"), Some("age")], [Some("Alice"), Some("30")]]
  {
    var q := [("name", "Alice"), ("age", "30")];
    var h := [Some("name"), Some("age")];
    assert Keys(q) == ["name", "age"];
    assert NewHeaders([], Keys(q)) == h;
    assert ColumnOf(h, "name") == Some(0);
    assert ColumnOf(h, "age") == Some(1);
    assert q[..1][..0] == [];
    var first := Put([], 0, "Alice");
    assert first == [Some("Alice")];
    assert ValueRow(h, q[..1]) == first;
    assert Put(first, 1, "30") == [Some("Alice"), Some("30")];
  }

  /** Headers [name, age] and one data row; the submission {name: Bob,
      city: Lyon} appends the header "city" and a row with Bob under name,
      a blank under age and Lyon under city. */
  lemma AppendExample(g: Grid, q: Query)
    requires g == [[Some("name"), Some("age")], [Some("Carol"), Some("41")]]
    requires q == [("name", "Bob"), ("city", "Lyon")]
    ensures Reconciled(g, q) ==
      [[Some("name"), Some("age"), Some("city")],
       [Some("Carol"), Some("41")],
       [Some("Bob"), None, Some("Lyon")]]
  {
    var h := [Some("name"), Some("age"), Some("city")];
    AppendExampleHeaders(g, q);
    AppendExampleValues(h, q);
    var row := ValueRow(h, q);
    var tail := g[1..];
    assert tail == [[Some("Carol"), Some("41")]];
    var r := Reconciled(g, q);
    assert r == [h] + tail + [row];
  }

  lemma AppendExampleHeaders(g: Grid, q: Query)
    requires g == [[Some("name"), Some("age")], [Some("Carol"), Some("41")]]
    requires q == [("name", "Bob"), ("city", "Lyon")]
    ensures NewHeaders(g, Keys(q)) == [Some("name"), Some("age"), Some("city")]
  {
    var keys := Keys(q);
    assert keys == ["name", "city"];
    var base := g[0];
    assert base[0] == Some("name");
    assert Some("city") !in base;
    assert keys[..1] == ["name"] && keys[..1][..0] == [];
    assert Missing(base, keys[..1]) == [];
    assert Missing(base, keys) == [Some("city")];
  }

  lemma AppendExampleValues(h: Row, q: Query)
    requires h == [Some("name"), Some("age"), Some("city")]
    requires q == [("name", "Bob"), ("city", "Lyon")]
    ensures forall i :: 0 <= i < |q| ==> Some(q[i].0) in h
    ensures ValueRow(h, q) == [Some("Bob"), None, Some("Lyon")]
  {
    assert h[0] == Some("name") && h[2] == Some("city");
    assert ColumnOf(h, "name") == Some(0);
    assert ColumnOf(h, "city") == Some(2);
    assert q[..1][..0] == [];
    var first := Put([], 0, "Bob");
    assert first == [Some("Bob")];
    assert ValueRow(h, q[..1]) == first;
    assert Put(first, 2, "Lyon") == [Some("Bob"), None, Some("Lyon")];
  }
}
